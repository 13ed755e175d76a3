/** Values and type names of the two SQL dialects. */
module PgTypes {
  import opened RangeSets

  /** PostgreSQL values; SQLite has no truth values, moments in time, JSON values or UUIDs of its own. */
  datatype Value =
    | Null
    | Int(n: int)
    | Real(r: real)
    | Special(name: string)  // infinities and NaN
    | Str(s: string)
    | Truth(b: bool)
    | Bytes(bytes: string)
    | Parsed(text: string)  // moments in time, JSON values and UUIDs, as printed
    | Array(items: seq<Value>)
    | Fail

  /** How SQLite holds a PostgreSQL value: truth values are 0 and 1, parsed values are text. */
  function Embed(v: Value): Value {
    match v
    case Truth(b) => Int(if b then 1 else 0)
    case Parsed(text) => Str(text)
    case Array(items) => Array(EmbedAll(items))
    case _ => v
  }

  function EmbedAll(vs: seq<Value>): (es: seq<Value>)
    ensures |es| == |vs|
  {
    if vs == [] then [] else [Embed(vs[0])] + EmbedAll(vs[1..])
  }

  lemma {:induction false} EmbedAllAt(vs: seq<Value>, i: nat)
    requires i < |vs|
    ensures EmbedAll(vs)[i] == Embed(vs[i])
  {
    if i > 0 { EmbedAllAt(vs[1..], i - 1); }
  }

  // ---------------------------------------------------------------- types

  /** What a type says about time zones; `Tz` is the suffix of timestamptz. */
  datatype Zone = NoZone | WithZone | WithoutZone | Tz

  datatype DataType =
    | Int2 | Int4 | Int8 | SmallInt | BigInt | Integer | IntType
    | RealType | Float(bits: Option<nat>) | Double | Float4 | Float8 | DoublePrecision
    | Bool | Boolean | Bytea | Blob
    | Varchar(length: Option<nat>) | CharVarying(length: Option<nat>) | CharacterVarying(length: Option<nat>)
    | TextType | Char(length: Option<nat>) | Character(length: Option<nat>)
    | Timestamp(precision: Option<nat>, zone: Zone) | Date | Time | Interval
    | Json | Jsonb | Uuid
    | Named(name: string)

  function ToSqliteType(ty: DataType): DataType {
    match ty
    case Int2 | Int4 | Int8 | SmallInt => BigInt
    case RealType | Float(_) | Double | Float8 => DoublePrecision
    case Bool => Boolean
    case Bytea => Blob
    case Varchar(_) | CharVarying(_) | CharacterVarying(_) => TextType
    case Timestamp(_, _) => Timestamp(None, NoZone)
    case _ => ty
  }

  /** Result types on the wire. */
  datatype Wire =
    | AnyWire | Int8Wire | TimestampWire | VarcharWire | TextWire | ByteaWire | JsonbWire | JsonWire
    | Float8Wire | BoolWire | BpcharWire | DateWire | TimeWire | IntervalWire | UuidWire

  /** A zone is printed last, so that a name cut at its first parenthesis keeps it only when there is
      no precision; the suffix of timestamptz always stays. */
  predicate KeepsZone(precision: Option<nat>, zone: Zone) {
    zone.Tz? || (precision.None? && !zone.NoZone?)
  }

  /** The server's reading of the name a type is printed with, cut at the first parenthesis. */
  function NameToType(ty: DataType): Option<Wire> {
    match ty
    case BigInt | Integer | IntType => Some(Int8Wire)
    case RealType | Float(_) | Double | DoublePrecision => Some(Float8Wire)
    case Bool | Boolean => Some(BoolWire)
    case Blob => Some(ByteaWire)
    case Varchar(_) | CharVarying(_) | CharacterVarying(_) => Some(VarcharWire)
    case TextType => Some(TextWire)
    case Char(_) | Character(_) => Some(BpcharWire)
    case Timestamp(precision, zone) => if KeepsZone(precision, zone) then None else Some(TimestampWire)
    case Date => Some(DateWire)
    case Time => Some(TimeWire)
    case Json => Some(JsonWire)
    case Jsonb => Some(JsonbWire)
    case Int2 | Int4 | Int8 | SmallInt | Float4 | Float8 | Bytea | Interval | Uuid => None
    case Named(name) => OtherName(name)
  }

  /** Names, in upper case, that have no constructor above. */
  function OtherName(name: string): Option<Wire> {
    if name == "ANY" then Some(AnyWire)
    else if name == "DATETIME" then Some(TimestampWire)
    else if name == "CLOB" then Some(TextWire)
    else if name == "BINARY" then Some(ByteaWire)
    else if name == "NUMERIC" || name == "DECIMAL" then Some(BoolWire)
    else None
  }

  /** The wire type a client expects of a PostgreSQL type, all integers and floats widened. */
  function WireOf(ty: DataType): Wire {
    match ty
    case Int2 | Int4 | Int8 | SmallInt | BigInt | Integer | IntType => Int8Wire
    case RealType | Float(_) | Double | Float4 | Float8 | DoublePrecision => Float8Wire
    case Bool | Boolean => BoolWire
    case Bytea | Blob => ByteaWire
    case Varchar(_) | CharVarying(_) | CharacterVarying(_) | TextType => TextWire
    case Char(_) | Character(_) => BpcharWire
    case Timestamp(_, _) => TimestampWire
    case Date => DateWire
    case Time => TimeWire
    case Interval => IntervalWire
    case Json => JsonWire
    case Jsonb => JsonbWire
    case Uuid => UuidWire
    case Named(_) => AnyWire
  }

  lemma MappingIdempotent(ty: DataType)
    ensures ToSqliteType(ToSqliteType(ty)) == ToSqliteType(ty)
  {
  }

  /** The listed types that pass through and have no name the server reads. */
  predicate Unread(ty: DataType) {
    ty.Float4? || ty.Interval? || ty.Uuid?
  }

  /** A listed type is mapped to a name the server reads as its wire type, except three that pass
      through and are refused; without the mapping seven more would be. */
  lemma MappedTypesRecognised(ty: DataType)
    requires !ty.Named?
    ensures NameToType(ToSqliteType(ty)) == (if Unread(ty) then None else Some(WireOf(ty)))
    ensures NameToType(ty).None? <==>
      || Unread(ty) || ty.Int2? || ty.Int4? || ty.Int8? || ty.SmallInt? || ty.Float8? || ty.Bytea?
      || (ty.Timestamp? && KeepsZone(ty.precision, ty.zone))
  {
  }

  /** Other names pass through: NUMERIC is read as a truth value. */
  lemma NumericReadAsBool()
    ensures NameToType(ToSqliteType(Named("NUMERIC"))) == Some(BoolWire)
  {
  }
}
