/** What expressions mean in the two dialects, and that the rewrite keeps it. */
module PgExprValues {
  import opened RangeSets
  import opened Text
  import opened Decimals
  import opened PgTypes
  import opened PgCasts
  import opened PgExpr

  /** What an expression refers to. The dialects may differ in every function and operator. */
  datatype World = World(
    vars: string -> Value,
    engine: Engine,
    pgCall: (string, Option<seq<Value>>, Option<Value>) -> Value,
    liteCall: (string, Option<seq<Value>>, Option<Value>) -> Value,
    pgOp: (string, seq<Value>) -> Value,
    liteOp: (string, seq<Value>) -> Value,
    access: Expr -> Value)

  predicate AnyNull(a: Value, b: Value) {
    a.Null? || b.Null?
  }

  // ---------------------------------------------------------------- concatenation

  /** At least one operand is text, and truth values are spelled out. */
  function PgConcat(w: World, a: Value, b: Value): Value {
    if AnyNull(a, b) then Null
    else if !Scalar(a) || !Scalar(b) then w.pgOp("||", [a, b])
    else if a.Str? || b.Str? then Str(PgText(a) + PgText(b))
    else Fail
  }

  function LiteConcat(w: World, a: Value, b: Value): Value {
    if AnyNull(a, b) then Null
    else if (a.Int? || a.Str?) && (b.Int? || b.Str?) then Str(LiteText(a) + LiteText(b))
    else w.liteOp("||", [a, b])
  }

  predicate ConcatOk(a: Value, b: Value) {
    AnyNull(a, b) || ((a.Int? || a.Str?) && (b.Int? || b.Str?) && (a.Str? || b.Str?))
  }

  /** On scalars, concatenation is the same exactly without truth values and with some text. */
  lemma ConcatExact(w: World, a: Value, b: Value)
    requires Scalar(a) && Scalar(b)
    ensures LiteConcat(w, Embed(a), Embed(b)) == Embed(PgConcat(w, a, b)) <==> ConcatOk(a, b)
  {
    if !AnyNull(a, b) {
      if a.Truth? && b.Str? { TruthFirst(a.b, b.s); }
      if a.Str? && b.Truth? { TruthLast(a.s, b.b); }
    }
  }

  lemma TruthFirst(b: bool, s: string)
    ensures Signed(if b then 1 else 0) + s != PgText(Truth(b)) + s
  {
    TruthText(b, 5);
    assert |Signed(if b then 1 else 0)| == 1 && |PgText(Truth(b))| >= 4;
    assert |Signed(if b then 1 else 0) + s| != |PgText(Truth(b)) + s|;
  }

  lemma TruthLast(s: string, b: bool)
    ensures s + Signed(if b then 1 else 0) != s + PgText(Truth(b))
  {
    TruthText(b, 5);
    assert |Signed(if b then 1 else 0)| == 1 && |PgText(Truth(b))| >= 4;
    assert |s + Signed(if b then 1 else 0)| != |s + PgText(Truth(b))|;
  }

  // ---------------------------------------------------------------- LIKE

  /** Case matters, and a backslash takes the next character literally. */
  predicate PgLike(s: string, p: string)
    decreases |s| + |p|
  {
    if p == [] then s == []
    else if p[0] == '%' then PgLike(s, p[1..]) || (s != [] && PgLike(s[1..], p))
    else if p[0] == '\\' && |p| > 1 then s != [] && s[0] == p[1] && PgLike(s[1..], p[2..])
    else s != [] && (p[0] == '_' || p[0] == s[0]) && PgLike(s[1..], p[1..])
  }

  /** ASCII case does not matter, and there is no escape character. */
  predicate LiteLike(s: string, p: string)
    decreases |s| + |p|
  {
    if p == [] then s == []
    else if p[0] == '%' then LiteLike(s, p[1..]) || (s != [] && LiteLike(s[1..], p))
    else s != [] && (p[0] == '_' || UpperAscii(p[0]) == UpperAscii(s[0])) && LiteLike(s[1..], p[1..])
  }

  function Fold(s: string): (r: string)
    ensures |r| == |s|
  {
    if s == [] then [] else [UpperAscii(s[0])] + Fold(s[1..])
  }

  lemma FoldRest(s: string)
    requires s != []
    ensures Fold(s)[0] == UpperAscii(s[0]) && Fold(s)[1..] == Fold(s[1..])
  {
  }

  lemma UpperKeepsMarks(c: char)
    ensures UpperAscii(c) == '%' <==> c == '%'
    ensures UpperAscii(c) == '_' <==> c == '_'
    ensures UpperAscii(c) == '\\' <==> c == '\\'
    ensures UpperAscii(UpperAscii(c)) == UpperAscii(c)
  {
  }

  /** Without escapes SQLite matches as PostgreSQL does after folding case. */
  lemma {:induction false} LiteLikeFolds(s: string, p: string)
    requires '\\' !in p
    ensures LiteLike(s, p) == PgLike(Fold(s), Fold(p))
    decreases |s| + |p|
  {
    if p != [] {
      assert p[0] in p && '\\' !in p[1..];
      FoldRest(p);
      UpperKeepsMarks(p[0]);
      if p[0] == '%' { LiteLikeFolds(s, p[1..]); }
      if s != [] {
        FoldRest(s);
        if p[0] == '%' { LiteLikeFolds(s[1..], p); } else { LiteLikeFolds(s[1..], p[1..]); }
      }
    }
  }

  /** What PostgreSQL matches SQLite matches. */
  lemma {:induction false} PgLikeThenLite(s: string, p: string)
    requires '\\' !in p && PgLike(s, p)
    ensures LiteLike(s, p)
    decreases |s| + |p|
  {
    if p != [] {
      assert p[0] in p && '\\' !in p[1..];
      if p[0] != '%' {
        PgLikeThenLite(s[1..], p[1..]);
      } else if PgLike(s, p[1..]) {
        PgLikeThenLite(s, p[1..]);
      } else {
        PgLikeThenLite(s[1..], p);
      }
    }
  }

  /** Folding case makes no new match. */
  predicate LikeOk(s: string, p: string) {
    PgLike(s, p) || !PgLike(Fold(s), Fold(p))
  }

  lemma LikeExact(s: string, p: string)
    requires '\\' !in p
    ensures LiteLike(s, p) == PgLike(s, p) <==> LikeOk(s, p)
  {
    LiteLikeFolds(s, p);
    if PgLike(s, p) { PgLikeThenLite(s, p); }
  }

  /** `'A' LIKE 'a'` is false in PostgreSQL and true in SQLite. */
  lemma LikeCaseDiffers()
    ensures !PgLike("A", "a") && LiteLike("A", "a")
  {
    assert LiteLike("", "");
    assert "A"[1..] == "" && "a"[1..] == "";
  }

  // ---------------------------------------------------------------- operators

  function PgApply(w: World, op: Operator, vals: seq<Value>): Value {
    match op
    case Nested => if |vals| == 1 then vals[0] else Fail
    case Minus =>
      if |vals| != 2 then Fail
      else if AnyNull(vals[0], vals[1]) then Null
      else if vals[0].Int? && vals[1].Int? then Int(vals[0].n - vals[1].n)
      else w.pgOp("-", vals)
    case StringConcat => if |vals| == 2 then PgConcat(w, vals[0], vals[1]) else Fail
    case Like =>
      if |vals| != 2 then Fail
      else if AnyNull(vals[0], vals[1]) then Null
      else if vals[0].Str? && vals[1].Str? then Truth(PgLike(vals[0].s, vals[1].s))
      else w.pgOp("LIKE", vals)
    case Shared(tag) => w.pgOp(tag, vals)
    case Missing(tag) => w.pgOp(tag, vals)
  }

  function LiteApply(w: World, op: Operator, vals: seq<Value>): Value {
    match op
    case Nested => if |vals| == 1 then vals[0] else Fail
    case Minus =>
      if |vals| != 2 then Fail
      else if AnyNull(vals[0], vals[1]) then Null
      else if vals[0].Int? && vals[1].Int? then Int(vals[0].n - vals[1].n)
      else w.liteOp("-", vals)
    case StringConcat => if |vals| == 2 then LiteConcat(w, vals[0], vals[1]) else Fail
    case Like =>
      if |vals| != 2 then Fail
      else if AnyNull(vals[0], vals[1]) then Null
      else if vals[0].Str? && vals[1].Str? then Int(if LiteLike(vals[0].s, vals[1].s) then 1 else 0)
      else w.liteOp("LIKE", vals)
    case Shared(tag) => w.liteOp(tag, vals)
    case Missing(_) => Fail
  }

  /** The operator means the same on these operands. Of shared operators that is asked of the
      engines; nothing is claimed of operators SQLite lacks. */
  predicate OperatorOk(w: World, op: Operator, vals: seq<Value>) {
    match op
    case Nested => |vals| == 1
    case Minus => |vals| == 2 && (AnyNull(vals[0], vals[1]) || (vals[0].Int? && vals[1].Int?))
    case StringConcat => |vals| == 2 && ConcatOk(vals[0], vals[1])
    case Like =>
      |vals| == 2 && (AnyNull(vals[0], vals[1]) ||
        (vals[0].Str? && vals[1].Str? && '\\' !in vals[1].s && LikeOk(vals[0].s, vals[1].s)))
    case Shared(tag) => w.liteOp(tag, EmbedAll(vals)) == Embed(w.pgOp(tag, vals))
    case Missing(_) => false
  }

  lemma OperatorKept(w: World, op: Operator, vals: seq<Value>)
    requires OperatorOk(w, op, vals)
    ensures LiteApply(w, op, EmbedAll(vals)) == Embed(PgApply(w, op, vals))
  {
    if |vals| > 0 { EmbedAllAt(vals, 0); }
    if |vals| > 1 { EmbedAllAt(vals, 1); }
    match op
    case Like => if vals[0].Str? && vals[1].Str? { LikeExact(vals[0].s, vals[1].s); }
    case StringConcat => if !AnyNull(vals[0], vals[1]) { ConcatExact(w, vals[0], vals[1]); }
    case _ =>
  }

  // ---------------------------------------------------------------- POSITION

  /** 1-based position of the first occurrence of `sub` in `s` at or after offset `k`, else 0. */
  function FirstAt(s: string, sub: string, k: nat): nat
    decreases |s| - k
  {
    if k + |sub| > |s| then 0 else if s[k..k + |sub|] == sub then k + 1 else FirstAt(s, sub, k + 1)
  }

  function PgPosition(substr: Value, str: Value): Value {
    if AnyNull(substr, str) then Null
    else if substr.Str? && str.Str? then Int(FirstAt(str.s, substr.s, 0))
    else Fail
  }

  /** Numbers are searched as text. */
  function LiteInstr(w: World, str: Value, substr: Value): Value {
    if AnyNull(str, substr) then Null
    else if (str.Int? || str.Str?) && (substr.Int? || substr.Str?) then Int(FirstAt(LiteText(str), LiteText(substr), 0))
    else w.liteCall("INSTR", Some([str, substr]), None)
  }

  predicate PositionOk(substr: Value, str: Value) {
    AnyNull(substr, str) || (substr.Str? && str.Str?)
  }

  /** On scalars, POSITION and INSTR with its operands swapped agree exactly on text and NULL. */
  lemma PositionExact(w: World, substr: Value, str: Value)
    requires Scalar(substr) && Scalar(str)
    ensures LiteInstr(w, Embed(str), Embed(substr)) == Embed(PgPosition(substr, str)) <==> PositionOk(substr, str)
  {
  }

  lemma PositionKept(w: World, substr: Value, str: Value)
    requires PositionOk(substr, str)
    ensures LiteInstr(w, Embed(str), Embed(substr)) == Embed(PgPosition(substr, str))
  {
  }

  // ---------------------------------------------------------------- subscripts

  /** 1-based; a subscript outside the array gives NULL. */
  function Subscript(arr: Value, idx: Value): Value {
    if AnyNull(arr, idx) then Null
    else if arr.Array? && idx.Int? then (if 1 <= idx.n <= |arr.items| then arr.items[idx.n - 1] else Null)
    else Fail
  }

  /** The index named by a path `$[k]`. */
  function PathIndex(path: string): Option<nat> {
    if |path| > 3 && path[..2] == "$[" && path[|path| - 1] == ']' && AllDigits(path[2..|path| - 1])
    then Some(Number(path[2..|path| - 1]))
    else None
  }

  /** 0-based; a path that is none is an error. */
  function JsonExtract(doc: Value, path: Value): Value {
    if AnyNull(doc, path) then Null
    else if doc.Array? && path.Str? && PathIndex(path.s).Some? then
      var k := PathIndex(path.s).value;
      if k < |doc.items| then doc.items[k] else Null
    else Fail
  }

  /** The path text made from an index value. */
  function PathText(w: World, idx: Value): Value {
    LiteConcat(w, LiteConcat(w, Str("$["), LiteApply(w, Minus, [idx, Int(1)])), Str("]"))
  }

  lemma PathIndexOf(n: int)
    ensures PathIndex("$[" + Signed(n) + "]") == if n >= 0 then Some(n) else None
  {
    var digits := Signed(n);
    var path := "$[" + digits + "]";
    assert path[2..|path| - 1] == digits && path[..2] == "$[";
    if n >= 0 {
      NumberOfDecimal(n);
    } else {
      assert digits[0] == '-';
    }
  }

  lemma PathTextOf(w: World, n: int)
    ensures PathText(w, Int(n)) == Str("$[" + Signed(n - 1) + "]")
  {
  }

  /** The condition under which the rewritten subscript can be trusted. */
  predicate SubscriptOk(arr: Value, idx: Value) {
    AnyNull(arr, idx) || (arr.Array? && idx.Int? && idx.n >= 1)
  }

  lemma ElementAt(arr: Value, n: int, path: string)
    requires (arr.Array? || arr.Null?) && path == "$[" + Signed(n - 1) + "]"
    ensures JsonExtract(Embed(arr), Str(path)) == Embed(Subscript(arr, Int(n))) <==> SubscriptOk(arr, Int(n))
  {
    PathIndexOf(n - 1);
    if arr.Array? && 1 <= n <= |arr.items| { EmbedAllAt(arr.items, n - 1); }
  }

  /** On an array and an integer, 1-based subscripting and the 0-based path agree exactly for NULL
      operands and indexes of at least 1. */
  lemma SubscriptExact(w: World, arr: Value, idx: Value)
    requires (arr.Array? || arr.Null?) && (idx.Int? || idx.Null?)
    ensures JsonExtract(Embed(arr), PathText(w, Embed(idx))) == Embed(Subscript(arr, idx)) <==> SubscriptOk(arr, idx)
  {
    if idx.Int? {
      PathTextOf(w, idx.n);
      ElementAt(arr, idx.n, "$[" + Signed(idx.n - 1) + "]");
    }
  }

  /** `arr[0]` is NULL in PostgreSQL and an error after the rewrite. */
  lemma SubscriptZeroDiffers(w: World)
    ensures Subscript(Array([Int(7)]), Int(0)) == Null
    ensures JsonExtract(Array([Int(7)]), PathText(w, Int(0))) == Fail
  {
    PathTextOf(w, 0);
    PathIndexOf(-1);
  }

  lemma SubscriptKept(w: World, arr: Value, idx: Value)
    requires SubscriptOk(arr, idx)
    ensures JsonExtract(Embed(arr), PathText(w, Embed(idx))) == Embed(Subscript(arr, idx))
  {
    if !AnyNull(arr, idx) { SubscriptExact(w, arr, idx); }
  }

  // ---------------------------------------------------------------- evaluation

  /** Functions SQLite is given by the rewrite are spelled out. */
  function LiteFunction(w: World, name: string, args: Option<seq<Value>>, filter: Option<Value>): Value {
    if name == "INSTR" && args.Some? && |args.value| == 2 && filter.None? then
      LiteInstr(w, args.value[0], args.value[1])
    else if name == "json_extract" && args.Some? && |args.value| == 2 && filter.None? then
      JsonExtract(args.value[0], args.value[1])
    else w.liteCall(name, args, filter)
  }

  function EvalPg(e: Expr, w: World): Value
    decreases e
  {
    match e
    case Leaf(ident) => w.vars(ident)
    case Literal(v) => v
    case Cast(_, inner, ty) => PgCast(w.engine, ty, EvalPg(inner, w))
    case Call(name, args, filter) =>
      if IsUser(name, args) then Str(USER)
      else w.pgCall(CalledName(name),
                    if args.NoArgs? then None else Some(EvalPgAll(args.list, w)),
                    if filter.Some? then Some(EvalPg(filter.value, w)) else None)
    case Op(op, kids) => PgApply(w, op, EvalPgAll(kids, w))
    case Position(substr, str) => PgPosition(EvalPg(substr, w), EvalPg(str, w))
    case JsonAccess(doc, path) =>
      if |path| == 1 && path[0].Bracket? then Subscript(EvalPg(doc, w), EvalPg(path[0].key, w)) else w.access(e)
    case FieldAccess(root, chain) =>
      if |chain| == 1 && chain[0].Index? then Subscript(EvalPg(root, w), EvalPg(chain[0].index, w)) else w.access(e)
  }

  function CalledName(name: seq<Part>): string {
    if name == [] then "" else name[|name| - 1].value
  }

  function EvalPgAll(es: seq<Expr>, w: World): (vs: seq<Value>)
    ensures |vs| == |es|
    decreases es
  {
    if es == [] then [] else [EvalPg(es[0], w)] + EvalPgAll(es[1..], w)
  }

  /** SQLite knows neither `::`, `POSITION … IN`, subscripts, qualified function names nor `user`. */
  function EvalLite(e: Expr, w: World): Value
    decreases e
  {
    match e
    case Leaf(ident) => Embed(w.vars(ident))
    case Literal(v) => Embed(v)
    case Cast(kind, inner, ty) =>
      if kind.CastCall? then LiteCast(w.engine, AffinityOf(ty, w.engine), EvalLite(inner, w)) else Fail
    case Call(name, args, filter) =>
      if |name| != 1 || IsUser(name, args) then Fail
      else LiteFunction(w, name[0].value,
                        if args.NoArgs? then None else Some(EvalLiteAll(args.list, w)),
                        if filter.Some? then Some(EvalLite(filter.value, w)) else None)
    case Op(op, kids) => LiteApply(w, op, EvalLiteAll(kids, w))
    case _ => Fail
  }

  function EvalLiteAll(es: seq<Expr>, w: World): (vs: seq<Value>)
    ensures |vs| == |es|
    decreases es
  {
    if es == [] then [] else [EvalLite(es[0], w)] + EvalLiteAll(es[1..], w)
  }

  lemma EvalTwo(w: World, a: Expr, b: Expr)
    ensures EvalLiteAll([a, b], w) == [EvalLite(a, w), EvalLite(b, w)] && EvalLiteAll([a], w) == [EvalLite(a, w)]
  {
    assert [a, b][1..] == [b] && [b][1..] == [] && [a][1..] == [];
  }

  lemma EvalCall(w: World, name: string, a: Expr, b: Expr)
    ensures EvalLite(SqliteCall(name, [a, b]), w) == LiteFunction(w, name, Some([EvalLite(a, w), EvalLite(b, w)]), None)
  {
    EvalTwo(w, a, b);
  }

  lemma EvalInstr(w: World, str: Expr, substr: Expr)
    ensures EvalLite(SqliteCall("INSTR", [str, substr]), w) == LiteInstr(w, EvalLite(str, w), EvalLite(substr, w))
  {
    EvalCall(w, "INSTR", str, substr);
  }

  lemma Extracts(w: World, doc: Value, path: Value)
    ensures LiteFunction(w, "json_extract", Some([doc, path]), None) == JsonExtract(doc, path)
  {
    assert "json_extract" != "INSTR" by { assert |"json_extract"| != |"INSTR"|; }
  }

  lemma EvalPath(w: World, idx: Expr)
    ensures EvalLite(PathOf(idx), w) == PathText(w, EvalLite(idx, w))
  {
    var minus := Op(Minus, [idx, Literal(Int(1))]);
    var less := Op(Nested, [minus]);
    var open := Op(StringConcat, [Literal(Str("$[")), less]);
    EvalTwo(w, idx, Literal(Int(1)));
    EvalTwo(w, minus, minus);
    EvalTwo(w, Literal(Str("$[")), less);
    EvalTwo(w, open, Literal(Str("]")));
  }

  lemma EvalExtract(w: World, arr: Expr, idx: Expr)
    ensures EvalLite(ExtractAt(arr, idx), w) == JsonExtract(EvalLite(arr, w), PathText(w, EvalLite(idx, w)))
  {
    EvalPath(w, idx);
    EvalCall(w, "json_extract", arr, PathOf(idx));
    Extracts(w, EvalLite(arr, w), EvalLite(PathOf(idx), w));
  }

  // ---------------------------------------------------------------- preservation

  function EmbedOption(v: Option<Value>): Option<Value> {
    if v.Some? then Some(Embed(v.value)) else None
  }

  /** A function means the same in both dialects on these arguments: asked of the engines. */
  predicate CallOk(w: World, name: string, args: Option<seq<Value>>, filter: Option<Value>) {
    LiteFunction(w, name, if args.Some? then Some(EmbedAll(args.value)) else None, EmbedOption(filter))
      == Embed(w.pgCall(name, args, filter))
  }

  /** A cast that is spelled out has a listed operand; of any other the dialects must agree. */
  predicate CastSound(e: Engine, ty: DataType, v: Value) {
    if Scalar(v) && !ty.Named? then CastOk(ty, v) else CastKept(e, ty, v)
  }

  /** Every cast, operator, function, search and subscript met on the way has operands on which
      the dialects agree; subscripts are single and functions have names. */
  ghost predicate Sound(e: Expr, w: World)
    decreases e
  {
    match e
    case Leaf(_) => true
    case Literal(_) => true
    case Cast(_, inner, ty) =>
      Sound(inner, w) && CastSound(w.engine, ty, EvalPg(inner, w))
    case Call(name, args, filter) =>
      && name != [] && (args.ArgList? ==> AllSound(args.list, w)) && (filter.Some? ==> Sound(filter.value, w))
      && (IsUser(name, args) ||
          CallOk(w, CalledName(name), if args.NoArgs? then None else Some(EvalPgAll(args.list, w)),
                 if filter.Some? then Some(EvalPg(filter.value, w)) else None))
    case Op(op, kids) => AllSound(kids, w) && OperatorOk(w, op, EvalPgAll(kids, w))
    case Position(substr, str) =>
      Sound(substr, w) && Sound(str, w) && PositionOk(EvalPg(substr, w), EvalPg(str, w))
    case JsonAccess(doc, path) =>
      && |path| == 1 && path[0].Bracket? && Sound(doc, w) && Sound(path[0].key, w)
      && SubscriptOk(EvalPg(doc, w), EvalPg(path[0].key, w))
    case FieldAccess(root, chain) =>
      && |chain| == 1 && chain[0].Index? && Sound(root, w) && Sound(chain[0].index, w)
      && SubscriptOk(EvalPg(root, w), EvalPg(chain[0].index, w))
  }

  ghost predicate AllSound(es: seq<Expr>, w: World)
    decreases es
  {
    es == [] || (Sound(es[0], w) && AllSound(es[1..], w))
  }

  /** The rewritten expression has the value of the original, as SQLite holds it. */
  predicate Kept(e: Expr, w: World) {
    EvalLite(Strip(e), w) == Embed(EvalPg(e, w))
  }

  lemma CallPreserved(name: seq<Part>, args: Arguments, filter: Option<Expr>, w: World)
    requires Sound(Call(name, args, filter), w)
    requires args.ArgList? ==> EvalLiteAll(StripAll(args.list), w) == EmbedAll(EvalPgAll(args.list, w))
    requires filter.Some? ==> Kept(filter.value, w)
    ensures Kept(Call(name, args, filter), w)
  {
  }

  /** Over an operand that is kept, a cast is kept exactly on the operands listed for its type. */
  lemma CastPreserved(kind: CastKind, inner: Expr, ty: DataType, w: World)
    requires Kept(inner, w)
    ensures Kept(Cast(kind, inner, ty), w) <==> CastSound(w.engine, ty, EvalPg(inner, w))
  {
    if Scalar(EvalPg(inner, w)) && !ty.Named? { CastExact(w.engine, ty, EvalPg(inner, w)); }
  }

  lemma PositionPreserved(substr: Expr, str: Expr, w: World)
    requires Kept(substr, w) && Kept(str, w) && PositionOk(EvalPg(substr, w), EvalPg(str, w))
    ensures Kept(Position(substr, str), w)
  {
    EvalInstr(w, Strip(str), Strip(substr));
    PositionKept(w, EvalPg(substr, w), EvalPg(str, w));
  }

  lemma SubscriptPreserved(arr: Expr, idx: Expr, w: World)
    requires Kept(arr, w) && Kept(idx, w) && SubscriptOk(EvalPg(arr, w), EvalPg(idx, w))
    ensures EvalLite(ExtractAt(Strip(arr), Strip(idx)), w) == Embed(Subscript(EvalPg(arr, w), EvalPg(idx, w)))
  {
    EvalExtract(w, Strip(arr), Strip(idx));
    SubscriptKept(w, EvalPg(arr, w), EvalPg(idx, w));
  }

  /** Value preservation. */
  lemma {:induction false} StripPreservesValue(e: Expr, w: World)
    requires Sound(e, w)
    ensures Kept(e, w)
    decreases e
  {
    match e
    case Leaf(_) =>
    case Literal(_) =>
    case Cast(kind, inner, ty) =>
      StripPreservesValue(inner, w);
      CastPreserved(kind, inner, ty, w);
    case Call(name, args, filter) =>
      if args.ArgList? { StripAllPreserve(args.list, w); }
      if filter.Some? { StripPreservesValue(filter.value, w); }
      CallPreserved(name, args, filter, w);
    case Op(op, kids) =>
      StripAllPreserve(kids, w);
      OperatorKept(w, op, EvalPgAll(kids, w));
    case Position(substr, str) =>
      StripPreservesValue(substr, w);
      StripPreservesValue(str, w);
      PositionPreserved(substr, str, w);
    case JsonAccess(doc, path) =>
      StripPreservesValue(doc, w);
      StripPreservesValue(path[0].key, w);
      SubscriptPreserved(doc, path[0].key, w);
    case FieldAccess(root, chain) =>
      StripPreservesValue(root, w);
      StripPreservesValue(chain[0].index, w);
      SubscriptPreserved(root, chain[0].index, w);
  }

  lemma {:induction false} StripAllPreserve(es: seq<Expr>, w: World)
    requires AllSound(es, w)
    ensures EvalLiteAll(StripAll(es), w) == EmbedAll(EvalPgAll(es, w))
    decreases es
  {
    if es != [] {
      StripPreservesValue(es[0], w);
      StripAllPreserve(es[1..], w);
      assert StripAll(es)[1..] == StripAll(es[1..]);
      assert EvalPgAll(es, w)[1..] == EvalPgAll(es[1..], w);
    }
  }
}
