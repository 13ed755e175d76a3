/** Casts: what PostgreSQL makes of a value by its type, and SQLite by the affinity of the type's
    name. Each lemma `…Exact` says on which operands the rewritten cast keeps the value. */
module PgCasts {
  import opened RangeSets
  import opened Text
  import opened Decimals
  import opened PgTypes

  const I64_BOUND := 0x8000_0000_0000_0000

  /** What is not spelled out: how dates, times, JSON and UUIDs are read, other operands, other type names. */
  datatype Engine = Engine(
    parse: (DataType, string) -> Option<string>,
    pgCast: (DataType, Value) -> Value,
    liteCast: (Affinity, Value) -> Value,
    affinity: string -> Affinity)

  /** The operands the casts are spelled out for. */
  predicate Scalar(v: Value) {
    v.Null? || v.Int? || v.Str? || v.Truth?
  }

  // ---------------------------------------------------------------- SQLite

  datatype Affinity = IntegerAffinity | TextAffinity | BlobAffinity | RealAffinity | NumericAffinity

  function AffinityOf(ty: DataType, e: Engine): Affinity {
    match ty
    case Int2 | Int4 | Int8 | SmallInt | BigInt | Integer | IntType | Interval => IntegerAffinity
    case RealType | Float(_) | Double | Float4 | Float8 | DoublePrecision => RealAffinity
    case Varchar(_) | CharVarying(_) | CharacterVarying(_) | TextType | Char(_) | Character(_) => TextAffinity
    case Blob => BlobAffinity
    case Bool | Boolean | Bytea | Timestamp(_, _) | Date | Time | Json | Jsonb | Uuid => NumericAffinity
    case Named(name) => e.affinity(name)
  }

  function Clamp(n: int): int {
    if n < -I64_BOUND then -I64_BOUND else if n >= I64_BOUND then I64_BOUND - 1 else n
  }

  function LiteText(v: Value): string {
    match v case Int(n) => Signed(n) case Str(s) => s case _ => ""
  }

  /** The number at the front of a text: an integer where it has neither point nor exponent or is a
      small whole number, 0 where there is none. */
  function NumericOf(t: string): Value {
    if FloatEnd(t) == 0 then Int(0)
    else if FloatEnd(t) == WholeEnd(t) then
      (if -I64_BOUND <= WholeValue(t) < I64_BOUND then Int(WholeValue(t)) else Real(WholeValue(t) as real))
    else
      var r := FloatValue(t);
      if r == r.Floor as real && -0x8_0000_0000_0000 <= r.Floor < 0x8_0000_0000_0000 then Int(r.Floor) else Real(r)
  }

  function LiteCast(e: Engine, aff: Affinity, v: Value): Value {
    if v.Null? then Null
    else if !v.Int? && !v.Str? then e.liteCast(aff, v)
    else
      match aff
      case IntegerAffinity => if v.Int? then v else Int(Clamp(WholeValue(SkipSpaces(v.s))))
      case RealAffinity => if v.Int? then Real(v.n as real) else Real(FloatValue(SkipSpaces(v.s)))
      case NumericAffinity => if v.Int? then v else NumericOf(SkipSpaces(v.s))
      case TextAffinity => Str(LiteText(v))
      case BlobAffinity => Bytes(LiteText(v))
  }

  // ---------------------------------------------------------------- PostgreSQL

  function Bound(ty: DataType): int {
    match ty
    case Int2 | SmallInt => 0x8000
    case Int4 | Integer | IntType => 0x8000_0000
    case _ => I64_BOUND
  }

  /** The three spellings of the 32-bit integer type. */
  predicate IsInt4(ty: DataType) {
    ty.Int4? || ty.Integer? || ty.IntType?
  }

  predicate InRange(ty: DataType, n: int) {
    -Bound(ty) <= n < Bound(ty)
  }

  /** A whole number and nothing else. */
  predicate IsWhole(t: string) {
    t != [] && WholeEnd(t) == |t|
  }

  /** A decimal number and nothing else. */
  predicate IsFloat(t: string) {
    t != [] && FloatEnd(t) == |t|
  }

  function PgToWhole(ty: DataType, v: Value): Value {
    match v
    case Int(n) => if InRange(ty, n) then v else Fail
    case Truth(b) => if IsInt4(ty) then Int(if b then 1 else 0) else Fail
    case Str(s) =>
      var t := TrimSpaces(s);
      if IsWhole(t) && InRange(ty, WholeValue(t)) then Int(WholeValue(t)) else Fail
    case _ => Fail
  }

  predicate IsNonFinite(t: string) {
    var u := if t != [] && (t[0] == '+' || t[0] == '-') then t[1..] else t;
    EqIgnoreAsciiCase(u, "inf") || EqIgnoreAsciiCase(u, "infinity") || EqIgnoreAsciiCase(u, "nan")
  }

  function PgToFloat(v: Value): Value {
    match v
    case Int(n) => Real(n as real)
    case Str(s) =>
      var t := TrimSpaces(s);
      if IsFloat(t) then Real(FloatValue(t)) else if IsNonFinite(t) then Special(t) else Fail
    case _ => Fail
  }

  predicate Abbreviates(t: string, word: string) {
    1 <= |t| <= |word| && EqIgnoreAsciiCase(t, word[..|t|])
  }

  /** The spellings of truth values; `o` alone is none. */
  function TruthOf(t: string): Option<bool> {
    if t == "1" || Abbreviates(t, "true") || Abbreviates(t, "yes") || (|t| == 2 && Abbreviates(t, "on")) then Some(true)
    else if t == "0" || Abbreviates(t, "false") || Abbreviates(t,
        "no") || (|t| >= 2 && Abbreviates(t, "off")) then Some(false)
    else None
  }

  function PgToTruth(v: Value): Value {
    match v
    case Truth(_) => v
    case Int(n) => Truth(n != 0)
    case Str(s) => if TruthOf(TrimSpaces(s)).Some? then Truth(TruthOf(TrimSpaces(s)).value) else Fail
    case _ => Fail
  }

  function PgText(v: Value): string {
    match v
    case Int(n) => Signed(n)
    case Str(s) => s
    case Truth(b) => if b then "true" else "false"
    case _ => ""
  }

  /** An explicit cast cuts text to the declared length. */
  function PgToVarchar(length: Option<nat>, v: Value): Value {
    var t := PgText(v);
    Str(if length.Some? && |t| > length.value then t[..length.value] else t)
  }

  function Pad(t: string, n: nat): (r: string)
    ensures |r| >= n && (|t| >= n ==> r == t)
    decreases n - |t|
  {
    if |t| < n then Pad(t + " ", n) else t
  }

  function CharLength(length: Option<nat>): nat {
    if length.Some? then length.value else 1
  }

  /** Cut and filled with blanks to exactly the declared length. */
  function PgToChar(length: Option<nat>, v: Value): Value {
    var n, t := CharLength(length), PgText(v);
    Str(Pad(if |t| > n then t[..n] else t, n))
  }

  function HexValue(c: char): Option<nat> {
    if IsAsciiDigit(c) then Some(c as int - '0' as int)
    else if 'a' <= c <= 'f' then Some(c as int - 'a' as int + 10)
    else if 'A' <= c <= 'F' then Some(c as int - 'A' as int + 10)
    else None
  }

  function HexBytes(t: string): Option<string> {
    if t == [] then Some([])
    else if IsSpace(t[0]) then HexBytes(t[1..])
    else if |t| < 2 || HexValue(t[0]).None? || HexValue(t[1]).None? then None
    else
      var rest := HexBytes(t[2..]);
      if rest.None? then None else Some([(16 * HexValue(t[0]).value + HexValue(t[1]).value) as char] + rest.value)
  }

  predicate Octal(c: char) { '0' <= c <= '7' }

  /** The escape form: a doubled backslash, or a backslash and three octal digits, is one byte. */
  function EscapeBytes(t: string): Option<string> {
    if t == [] then Some([])
    else if t[0] != '\\' then
      var rest := EscapeBytes(t[1..]);
      if rest.None? then None else Some([t[0]] + rest.value)
    else if |t| >= 2 && t[1] == '\\' then
      var rest := EscapeBytes(t[2..]);
      if rest.None? then None else Some(['\\'] + rest.value)
    else if |t| >= 4 && '0' <= t[1] <= '3' && Octal(t[2]) && Octal(t[3]) then
      var rest := EscapeBytes(t[4..]);
      var code := 64 * (t[1] as int - '0' as int) + 8 * (t[2] as int - '0' as int) + (t[3] as int - '0' as int);
      if rest.None? then None else Some([code as char] + rest.value)
    else None
  }

  function PgToBytes(v: Value): Value {
    match v
    case Str(s) =>
      var bytes := if |s| >= 2 && s[..2] == "\\x" then HexBytes(s[2..]) else EscapeBytes(s);
      if bytes.Some? then Bytes(bytes.value) else Fail
    case _ => Fail
  }

  function PgToParsed(e: Engine, ty: DataType, v: Value): Value {
    if v.Str? && e.parse(ty, v.s).Some? then Parsed(e.parse(ty, v.s).value) else Fail
  }

  function PgCast(e: Engine, ty: DataType, v: Value): Value {
    if v.Null? then Null
    else if !Scalar(v) || ty.Named? then e.pgCast(ty, v)
    else
      match ty
      case Int2 | Int4 | Int8 | SmallInt | BigInt | Integer | IntType => PgToWhole(ty, v)
      case RealType | Float(_) | Double | Float4 | Float8 | DoublePrecision => PgToFloat(v)
      case Bool | Boolean => PgToTruth(v)
      case Bytea | Blob => PgToBytes(v)
      case Varchar(n) => PgToVarchar(n, v)
      case CharVarying(n) => PgToVarchar(n, v)
      case CharacterVarying(n) => PgToVarchar(n, v)
      case TextType => PgToVarchar(None, v)
      case Char(n) => PgToChar(n, v)
      case Character(n) => PgToChar(n, v)
      case Timestamp(_, _) | Date | Time | Interval | Json | Jsonb | Uuid => PgToParsed(e, ty, v)
      case Named(_) => e.pgCast(ty, v)
  }

  // ---------------------------------------------------------------- whole numbers

  lemma SpacesStop(tail: string)
    requires AllSpaces(tail)
    ensures Stops(tail)
  {
  }

  lemma WholeOfTrimmed(s: string)
    ensures WholeEnd(SkipSpaces(s)) == WholeEnd(TrimSpaces(s)) && WholeValue(SkipSpaces(s)) == WholeValue(TrimSpaces(s))
  {
    var tail := TrimSplits(s);
    SpacesStop(tail);
    WholeTail(TrimSpaces(s), tail);
  }

  predicate WholeOk(ty: DataType, v: Value) {
    match v
    case Int(n) => InRange(ty, n)
    case Truth(_) => IsInt4(ty)
    case Str(s) => IsWhole(TrimSpaces(s)) && InRange(ty, WholeValue(TrimSpaces(s)))
    case _ => true
  }

  lemma WholeExact(e: Engine, ty: DataType, v: Value)
    requires Scalar(v) && !v.Null?
    ensures LiteCast(e, IntegerAffinity, Embed(v)) == Embed(PgToWhole(ty, v)) <==> WholeOk(ty, v)
  {
    if v.Str? { WholeOfTrimmed(v.s); }
  }

  /** An integer in range cast to text and back is itself, in both dialects. */
  lemma IntegerThroughText(e: Engine, ty: DataType, n: int)
    requires InRange(ty, n) && -I64_BOUND <= n < I64_BOUND
    ensures LiteCast(e, IntegerAffinity, LiteCast(e, TextAffinity, Int(n))) == Int(n)
    ensures PgToWhole(ty, PgToVarchar(None, Int(n))) == Int(n)
  {
    var t := Signed(n);
    WholeOfSigned(n);
    SignOf(n);
    assert !IsSpace(t[0]) && !IsSpace(t[|t| - 1]);
    assert SkipSpaces(t) == t && DropSpaces(t) == t;
  }

  // ---------------------------------------------------------------- floating point

  lemma FloatOfTrimmed(s: string)
    ensures FloatEnd(SkipSpaces(s)) == FloatEnd(TrimSpaces(s)) && FloatValue(SkipSpaces(s)) == FloatValue(TrimSpaces(s))
  {
    var tail := TrimSplits(s);
    SpacesStop(tail);
    FloatEndTail(TrimSpaces(s), tail);
    FloatValueTail(TrimSpaces(s), tail);
  }

  predicate FloatOk(v: Value) {
    match v
    case Truth(_) => false
    case Str(s) => IsFloat(TrimSpaces(s))
    case _ => true
  }

  lemma FloatExact(e: Engine, v: Value)
    requires Scalar(v) && !v.Null?
    ensures LiteCast(e, RealAffinity, Embed(v)) == Embed(PgToFloat(v)) <==> FloatOk(v)
  {
    if v.Str? { FloatTextExact(v.s); }
  }

  lemma FloatTextExact(s: string)
    ensures Real(FloatValue(SkipSpaces(s))) == PgToFloat(Str(s)) <==> IsFloat(TrimSpaces(s))
  {
    FloatOfTrimmed(s);
  }

  // ---------------------------------------------------------------- truth values

  predicate TruthOk(v: Value) {
    match v
    case Int(n) => n == 0 || n == 1
    case Str(s) => TruthOf(TrimSpaces(s)) == Some(false) || TrimSpaces(s) == "1"
    case _ => true
  }

  lemma NoNumber(t: string)
    requires t != [] && !IsAsciiDigit(t[0]) && t[0] !in {'.', '+', '-'}
    ensures NumericOf(t) == Int(0)
  {
  }

  lemma OneDigit(c: char, tail: string)
    requires IsAsciiDigit(c) && Stops(tail)
    ensures NumericOf([c] + tail) == Int(c as int - '0' as int)
  {
    WholeTail([c], tail);
    FloatEndTail([c], tail);
    OneDigitAlone(c);
  }

  lemma NumberOfDigit(c: char)
    requires IsAsciiDigit(c)
    ensures Number([c]) == c as int - '0' as int
  {
    assert [c][..0] == [];
    assert Number([]) == 0;
  }

  lemma OneDigitAlone(c: char)
    requires IsAsciiDigit(c)
    ensures WholeEnd([c]) == 1 && FloatEnd([c]) == 1 && WholeValue([c]) == c as int - '0' as int
  {
    assert DigitEnd([c], 0) == 1;
    NumberOfDigit(c);
    assert [c][0..1] == [c];
    assert DigitsValue([c], 0) == Number([c]);
  }

  /** A spelled truth value starts with a letter, unless it is 1 or 0. */
  lemma TruthSpelling(t: string)
    requires TruthOf(t).Some? && t != "1" && t != "0"
    ensures t != [] && !IsAsciiDigit(t[0]) && t[0] !in {'.', '+', '-'} && !IsSpace(t[0])
  {
    var word := if Abbreviates(t, "true") then "true" else if Abbreviates(t, "yes") then "yes"
                else if Abbreviates(t, "on") then "on" else if Abbreviates(t, "false") then "false"
                else if Abbreviates(t, "no") then "no" else "off";
    assert Abbreviates(t, word) && UpperAscii(t[0]) == UpperAscii(word[..|t|][0]);
  }

  lemma SpelledTruth(s: string)
    requires TruthOf(TrimSpaces(s)).Some?
    ensures NumericOf(SkipSpaces(s)) == Int(if TrimSpaces(s) == "1" then 1 else 0)
  {
    var t := TrimSpaces(s);
    var tail := TrimSplits(s);
    SpacesStop(tail);
    if t == "1" || t == "0" {
      OneDigit(t[0], tail);
      assert t == [t[0]];
    } else {
      TruthSpelling(t);
      assert SkipSpaces(s)[0] == t[0];
      NoNumber(SkipSpaces(s));
    }
  }

  lemma TruthExact(e: Engine, v: Value)
    requires Scalar(v) && !v.Null?
    ensures LiteCast(e, NumericAffinity, Embed(v)) == Embed(PgToTruth(v)) <==> TruthOk(v)
  {
    if v.Str? { TruthTextExact(v.s); }
  }

  lemma TruthTextExact(s: string)
    ensures NumericOf(SkipSpaces(s)) == Embed(PgToTruth(Str(s))) <==> TruthOk(Str(s))
  {
    var t := TrimSpaces(s);
    NumericIsNumber(SkipSpaces(s));
    if TruthOf(t).Some? { SpelledTruth(s); }
    assert TruthOf("1") == Some(true);
  }

  /** `'true'::bool` is true, and 0 after the rewrite. */
  lemma TrueBecomesZero(e: Engine)
    ensures PgToTruth(Str("true")) == Truth(true)
    ensures LiteCast(e, NumericAffinity, Str("true")) == Int(0)
  {
    assert SkipSpaces("true") == "true";
    assert DropSpaces("true") == "true";
    assert Abbreviates("true", "true") by { assert "true"[..4] == "true"; }
    NoNumber("true");
  }

  // ---------------------------------------------------------------- bytes

  lemma {:induction false} NoEscape(t: string)
    requires '\\' !in t
    ensures EscapeBytes(t) == Some(t)
  {
    if t != [] {
      assert t[0] in t;
      NoEscape(t[1..]);
      assert t == [t[0]] + t[1..];
    }
  }

  lemma {:induction false} EscapesShorten(t: string)
    ensures EscapeBytes(t).Some? ==> |EscapeBytes(t).value| <= |t|
    ensures EscapeBytes(t).Some? && '\\' in t ==> |EscapeBytes(t).value| < |t|
  {
    if t != [] {
      if t[0] != '\\' {
        EscapesShorten(t[1..]);
        assert t == [t[0]] + t[1..];
      } else if |t| >= 2 && t[1] == '\\' {
        EscapesShorten(t[2..]);
      } else if |t| >= 4 {
        EscapesShorten(t[4..]);
      }
    }
  }

  lemma {:induction false} HexShortens(t: string)
    ensures HexBytes(t).Some? ==> |HexBytes(t).value| <= |t|
  {
    if t != [] {
      if IsSpace(t[0]) { HexShortens(t[1..]); } else if |t| >= 2 { HexShortens(t[2..]); }
    }
  }

  predicate BytesOk(v: Value) {
    v.Str? && '\\' !in v.s
  }

  lemma BytesExact(e: Engine, v: Value)
    requires Scalar(v) && !v.Null?
    ensures LiteCast(e, BlobAffinity, Embed(v)) == Embed(PgToBytes(v)) <==> BytesOk(v)
  {
    if v.Str? {
      if '\\' !in v.s {
        NoEscape(v.s);
        assert |v.s| >= 2 ==> v.s[0] in v.s;
      } else {
        EscapesShorten(v.s);
        if |v.s| >= 2 { HexShortens(v.s[2..]); }
      }
    }
  }

  // ---------------------------------------------------------------- text

  predicate VarcharOk(length: Option<nat>, v: Value) {
    !v.Truth? && (length.Some? ==> |PgText(v)| <= length.value)
  }

  lemma TruthText(b: bool, n: nat)
    ensures Signed(1) == "1" && Signed(0) == "0"
    ensures Signed(if b then 1 else 0) != PgText(Truth(b))[..if n < |PgText(Truth(b))| then n else |PgText(Truth(b))|]
  {
    assert Decimal(1) == [DigitOf(1)] && Decimal(0) == [DigitOf(0)];
    var t := PgText(Truth(b));
    var cut := t[..if n < |t| then n else |t|];
    assert cut != [] ==> cut[0] == t[0];
    assert IsAsciiDigit(Signed(if b then 1 else 0)[0]) && !IsAsciiDigit(t[0]);
  }

  lemma VarcharExact(e: Engine, length: Option<nat>, v: Value)
    requires Scalar(v) && !v.Null?
    ensures LiteCast(e, TextAffinity, Embed(v)) == Embed(PgToVarchar(length, v)) <==> VarcharOk(length, v)
  {
    if v.Truth? {
      TruthText(v.b, if length.Some? then length.value else 5);
      assert PgText(v)[..|PgText(v)|] == PgText(v);
    }
  }

  predicate CharOk(length: Option<nat>, v: Value) {
    !v.Truth? && |PgText(v)| == CharLength(length)
  }

  lemma {:induction false} PadStarts(t: string, n: nat)
    ensures |Pad(t, n)| == (if |t| < n then n else |t|) && t <= Pad(t, n)
    decreases n - |t|
  {
    if |t| < n { PadStarts(t + " ", n); }
  }

  lemma CharExact(e: Engine, length: Option<nat>, v: Value)
    requires Scalar(v) && !v.Null?
    ensures LiteCast(e, TextAffinity, Embed(v)) == Embed(PgToChar(length, v)) <==> CharOk(length, v)
  {
    var n, t := CharLength(length), PgText(v);
    PadStarts(if |t| > n then t[..n] else t, n);
    if v.Truth? {
      TruthText(v.b, n);
      CharOfTruth(v.b, n);
    }
  }

  /** A truth value as char(n) starts with a letter, or is empty; SQLite has a digit. */
  lemma CharOfTruth(b: bool, n: nat)
    ensures PgToChar(Some(n), Truth(b)) != Str(Signed(if b then 1 else 0))
  {
    var t := PgText(Truth(b));
    var cut := if |t| > n then t[..n] else t;
    PadStarts(cut, n);
    assert Decimal(1) == [DigitOf(1)] && Decimal(0) == [DigitOf(0)];
    assert cut != [] ==> Pad(cut, n)[0] == t[0];
  }

  // ---------------------------------------------------------------- all types

  lemma NumericIsNumber(t: string)
    ensures NumericOf(t).Int? || NumericOf(t).Real?
  {
  }

  /** No value but NULL survives as a moment in time, a JSON value or a UUID: by the affinity of the
      name, which for INTERVAL is that of integers, SQLite makes a number of it. */
  lemma ParsedExact(e: Engine, aff: Affinity, ty: DataType, v: Value)
    requires Scalar(v) && !v.Null? && (aff.NumericAffinity? || aff.IntegerAffinity?)
    ensures LiteCast(e, aff, Embed(v)) != Embed(PgToParsed(e, ty, v))
  {
    if v.Str? { NumericIsNumber(SkipSpaces(v.s)); }
  }

  /** The operands for which a cast to `ty` is the same in both dialects. */
  predicate CastOk(ty: DataType, v: Value) {
    v.Null? ||
    match ty
    case Int2 | Int4 | Int8 | SmallInt | BigInt | Integer | IntType => WholeOk(ty, v)
    case RealType | Float(_) | Double | Float4 | Float8 | DoublePrecision => FloatOk(v)
    case Bool | Boolean => TruthOk(v)
    case Bytea | Blob => BytesOk(v)
    case Varchar(n) => VarcharOk(n, v)
    case CharVarying(n) => VarcharOk(n, v)
    case CharacterVarying(n) => VarcharOk(n, v)
    case TextType => VarcharOk(None, v)
    case Char(n) => CharOk(n, v)
    case Character(n) => CharOk(n, v)
    case Timestamp(_, _) | Date | Time | Interval | Json | Jsonb | Uuid => false
    case Named(_) => false
  }

  /** The rewritten cast gives what PostgreSQL gives. */
  predicate CastKept(e: Engine, ty: DataType, v: Value) {
    LiteCast(e, AffinityOf(ToSqliteType(ty), e), Embed(v)) == Embed(PgCast(e, ty, v))
  }

  predicate IsNumberType(ty: DataType) {
    || ty.Int2? || ty.Int4? || ty.Int8? || ty.SmallInt? || ty.BigInt? || ty.Integer? || ty.IntType?
    || ty.RealType? || ty.Float? || ty.Double? || ty.Float4? || ty.Float8? || ty.DoublePrecision?
  }

  predicate IsTextType(ty: DataType) {
    ty.Varchar? || ty.CharVarying? || ty.CharacterVarying? || ty.TextType? || ty.Char? || ty.Character?
  }

  predicate IsParsedType(ty: DataType) {
    ty.Timestamp? || ty.Date? || ty.Time? || ty.Interval? || ty.Json? || ty.Jsonb? || ty.Uuid?
  }

  lemma NumberCastExact(e: Engine, ty: DataType, v: Value)
    requires Scalar(v) && !v.Null? && IsNumberType(ty)
    ensures CastKept(e, ty, v) <==> CastOk(ty, v)
  {
    WholeExact(e, ty, v);
    FloatExact(e, v);
  }

  lemma CharCastExact(e: Engine, ty: DataType, v: Value)
    requires Scalar(v) && !v.Null? && (ty.Char? || ty.Character?)
    ensures CastKept(e, ty, v) <==> CastOk(ty, v)
  {
    assert PgCast(e, ty, v) == PgToChar(ty.length, v);
    CharExact(e, ty.length, v);
  }

  lemma TextCastExact(e: Engine, ty: DataType, v: Value)
    requires Scalar(v) && !v.Null? && IsTextType(ty) && !ty.Char? && !ty.Character?
    ensures CastKept(e, ty, v) <==> CastOk(ty, v)
  {
    var length := if ty.TextType? then None else ty.length;
    assert PgCast(e, ty, v) == PgToVarchar(length, v);
    VarcharExact(e, length, v);
  }

  lemma ParsedCastExact(e: Engine, ty: DataType, v: Value)
    requires Scalar(v) && !v.Null? && IsParsedType(ty)
    ensures CastKept(e, ty, v) <==> CastOk(ty, v)
  {
    assert PgCast(e, ty, v) == PgToParsed(e, ty, v);
    ParsedExact(e, AffinityOf(ToSqliteType(ty), e), ty, v);
  }

  lemma BoolOrBytesExact(e: Engine, ty: DataType, v: Value)
    requires Scalar(v) && !v.Null? && (ty.Bool? || ty.Boolean? || ty.Bytea? || ty.Blob?)
    ensures CastKept(e, ty, v) <==> CastOk(ty, v)
  {
    if ty.Bool? || ty.Boolean? {
      assert PgCast(e, ty, v) == PgToTruth(v);
      TruthExact(e, v);
    } else {
      assert PgCast(e, ty, v) == PgToBytes(v);
      BytesExact(e, v);
    }
  }

  /** A rewritten cast keeps the value exactly on those operands. */
  lemma CastExact(e: Engine, ty: DataType, v: Value)
    requires Scalar(v) && !ty.Named?
    ensures CastKept(e, ty, v) <==> CastOk(ty, v)
  {
    if v.Null? {
    } else if IsNumberType(ty) {
      NumberCastExact(e, ty, v);
    } else if ty.Char? || ty.Character? {
      CharCastExact(e, ty, v);
    } else if IsTextType(ty) {
      TextCastExact(e, ty, v);
    } else if IsParsedType(ty) {
      ParsedCastExact(e, ty, v);
    } else {
      BoolOrBytesExact(e, ty, v);
    }
  }
}
