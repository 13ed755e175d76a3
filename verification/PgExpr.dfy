/** Rewriting PostgreSQL expressions into SQLite ones, on expressions without subqueries. */
module PgExpr {
  import opened RangeSets
  import opened Text
  import opened PgTypes

  // ---------------------------------------------------------------- syntax

  datatype CastKind = CastCall | DoubleColon

  /** Every operator keeps its place; only its operands are rewritten. `Shared` are those both
      dialects have: the other binary and unary operators, IS tests, IN lists, BETWEEN, CASE and IS
      DISTINCT FROM. `Missing` are those SQLite lacks: ILIKE, EXTRACT, OVERLAY, AT TIME ZONE and TRIM
      with FROM. */
  datatype Operator = Minus | StringConcat | Nested | Like | Shared(tag: string) | Missing(tag: string)

  datatype Part = Part(value: string, quoted: bool)

  datatype PathElem = Bracket(key: Expr) | Dot(name: string)

  datatype Access = DotAccess(field: Expr) | Index(index: Expr) | Slice(text: string)

  datatype Arguments = NoArgs | ArgList(list: seq<Expr>)

  datatype Expr =
    | Leaf(ident: string)
    | Literal(value: Value)
    | Cast(kind: CastKind, inner: Expr, ty: DataType)
    | Call(name: seq<Part>, args: Arguments, filter: Option<Expr>)
    | Op(op: Operator, kids: seq<Expr>)
    | Position(substr: Expr, str: Expr)
    | JsonAccess(doc: Expr, path: seq<PathElem>)
    | FieldAccess(root: Expr, chain: seq<Access>)

  // ---------------------------------------------------------------- the rewrite

  function StripPrefix(name: seq<Part>): seq<Part> {
    if |name| > 1 then [name[|name| - 1]] else name
  }

  /** The keyword `user`, which parses as a call without an argument list. */
  predicate IsUser(name: seq<Part>, args: Arguments) {
    name != [] && !name[|name| - 1].quoted && EqIgnoreAsciiCase(name[|name| - 1].value, "user") && args.NoArgs?
  }

  function SqliteCall(name: string, args: seq<Expr>): Expr {
    Call([Part(name, false)], ArgList(args), None)
  }

  /** `'$[' || (idx - 1) || ']'`. */
  function PathOf(idx: Expr): Expr {
    var less := Op(Nested, [Op(Minus, [idx, Literal(Int(1))])]);
    Op(StringConcat, [Op(StringConcat, [Literal(Str("$[")), less]), Literal(Str("]"))])
  }

  function ExtractAt(arr: Expr, idx: Expr): Expr {
    SqliteCall("json_extract", [arr, PathOf(idx)])
  }

  function Strip(e: Expr): Expr {
    match e
    case Leaf(_) => e
    case Literal(_) => e
    case Cast(_, inner, ty) => Cast(CastCall, Strip(inner), ToSqliteType(ty))
    case Call(name, args, filter) =>
      if IsUser(name, args) then Literal(Str(USER))
      else Call(StripPrefix(name),
                if args.NoArgs? then args else ArgList(StripAll(args.list)),
                if filter.Some? then Some(Strip(filter.value)) else None)
    case Op(op, kids) => Op(op, StripAll(kids))
    case Position(substr, str) => SqliteCall("INSTR", [Strip(str), Strip(substr)])
    case JsonAccess(doc, path) =>
      if |path| == 1 && path[0].Bracket? then ExtractAt(Strip(doc), Strip(path[0].key))
      else JsonAccess(Strip(doc), path)
    case FieldAccess(root, chain) =>
      if |chain| == 1 && chain[0].Index? then ExtractAt(Strip(root), Strip(chain[0].index))
      else FieldAccess(Strip(root), StripChain(chain))
  }

  const USER := "corro"

  function StripAll(es: seq<Expr>): (r: seq<Expr>)
    ensures |r| == |es|
  {
    if es == [] then [] else [Strip(es[0])] + StripAll(es[1..])
  }

  function StripAccess(a: Access): Access {
    match a
    case DotAccess(field) => DotAccess(Strip(field))
    case Index(index) => Index(Strip(index))
    case Slice(_) => a
  }

  function StripChain(chain: seq<Access>): (r: seq<Access>)
    ensures |r| == |chain| && forall i :: 0 <= i < |chain| ==> r[i].Index? == chain[i].Index?
  {
    if chain == [] then [] else [StripAccess(chain[0])] + StripChain(chain[1..])
  }

  // ---------------------------------------------------------------- idempotence

  /** Rewriting what has been rewritten changes nothing. */
  lemma {:induction false} StripIdempotent(e: Expr)
    ensures Strip(Strip(e)) == Strip(e)
    decreases e
  {
    match e
    case Leaf(_) =>
    case Literal(_) =>
    case Cast(_, inner, ty) =>
      StripIdempotent(inner);
      MappingIdempotent(ty);
    case Call(name, args, filter) =>
      if args.ArgList? { StripAllIdempotent(args.list); }
      if filter.Some? { StripIdempotent(filter.value); }
    case Op(op, kids) => StripAllIdempotent(kids);
    case Position(substr, str) =>
      StripIdempotent(substr);
      StripIdempotent(str);
      InstrStripped(Strip(str), Strip(substr));
    case JsonAccess(doc, path) =>
      StripIdempotent(doc);
      if |path| == 1 && path[0].Bracket? {
        StripIdempotent(path[0].key);
        ExtractStripped(Strip(doc), Strip(path[0].key));
      }
    case FieldAccess(root, chain) =>
      StripIdempotent(root);
      if |chain| == 1 && chain[0].Index? {
        StripIdempotent(chain[0].index);
        ExtractStripped(Strip(root), Strip(chain[0].index));
      } else {
        StripChainIdempotent(chain);
      }
  }

  lemma {:induction false} StripAllIdempotent(es: seq<Expr>)
    ensures StripAll(StripAll(es)) == StripAll(es)
    decreases es
  {
    if es != [] {
      StripIdempotent(es[0]);
      StripAllIdempotent(es[1..]);
    }
  }

  lemma {:induction false} StripChainIdempotent(chain: seq<Access>)
    ensures StripChain(StripChain(chain)) == StripChain(chain)
    decreases chain
  {
    if chain != [] {
      StripAccessIdempotent(chain[0]);
      StripChainIdempotent(chain[1..]);
    }
  }

  lemma {:induction false} StripAccessIdempotent(a: Access)
    ensures StripAccess(StripAccess(a)) == StripAccess(a)
    decreases a
  {
    match a
    case DotAccess(field) => StripIdempotent(field);
    case Index(index) => StripIdempotent(index);
    case Slice(_) =>
  }

  lemma StripTwo(a: Expr, b: Expr)
    ensures StripAll([a, b]) == [Strip(a), Strip(b)] && StripAll([a]) == [Strip(a)]
  {
    assert [a, b][1..] == [b] && [b][1..] == [] && [a][1..] == [];
  }

  lemma InstrStripped(str: Expr, substr: Expr)
    ensures Strip(SqliteCall("INSTR", [str, substr])) == SqliteCall("INSTR", [Strip(str), Strip(substr)])
  {
    StripTwo(str, substr);
  }

  lemma ExtractStripped(arr: Expr, idx: Expr)
    ensures Strip(ExtractAt(arr, idx)) == ExtractAt(Strip(arr), Strip(idx))
  {
    var minus := Op(Minus, [idx, Literal(Int(1))]);
    var less := Op(Nested, [minus]);
    var open := Op(StringConcat, [Literal(Str("$[")), less]);
    StripTwo(idx, Literal(Int(1)));
    StripTwo(minus, minus);
    StripTwo(Literal(Str("$[")), less);
    StripTwo(open, Literal(Str("]")));
    StripTwo(arr, Op(StringConcat, [open, Literal(Str("]"))]));
  }

  // ---------------------------------------------------------------- what is left

  /** The keyword `user`, unquoted and without arguments, becomes a literal; no other call does. */
  lemma UserBecomesLiteral(name: seq<Part>, args: Arguments, filter: Option<Expr>)
    ensures Strip(Call(name, args, filter)) == Literal(Str("corro")) <==>
      && name != [] && !name[|name| - 1].quoted && args.NoArgs?
      && EqIgnoreAsciiCase(name[|name| - 1].value, "user")
  {
  }

  /** Nothing in the expression, at any depth the rewrite reaches, is PostgreSQL's alone: no `::`, no
      type name that would be mapped, no qualified function name, no `user`, no POSITION … IN and no
      single subscript. */
  predicate Clean(e: Expr)
    decreases e
  {
    match e
    case Leaf(_) => true
    case Literal(_) => true
    case Cast(kind, inner, ty) => kind.CastCall? && ToSqliteType(ty) == ty && Clean(inner)
    case Call(name, args, filter) =>
      && |name| <= 1 && (args.ArgList? ==> AllClean(args.list)) && (filter.Some? ==> Clean(filter.value))
      && !(name != [] && !name[0].quoted && args.NoArgs? && EqIgnoreAsciiCase(name[0].value, "user"))
    case Op(_, kids) => AllClean(kids)
    case Position(_, _) => false
    case JsonAccess(doc, path) => Clean(doc) && !(|path| == 1 && path[0].Bracket?)
    case FieldAccess(root, chain) => Clean(root) && ChainClean(chain) && !(|chain| == 1 && chain[0].Index?)
  }

  predicate AllClean(es: seq<Expr>)
    decreases es
  {
    es == [] || (Clean(es[0]) && AllClean(es[1..]))
  }

  predicate AccessClean(a: Access)
    decreases a
  {
    match a
    case DotAccess(field) => Clean(field)
    case Index(index) => Clean(index)
    case Slice(_) => true
  }

  predicate ChainClean(chain: seq<Access>)
    decreases chain
  {
    chain == [] || (AccessClean(chain[0]) && ChainClean(chain[1..]))
  }

  /** The rewrite leaves nothing behind. */
  lemma {:induction false} StripCleans(e: Expr)
    ensures Clean(Strip(e))
    decreases e
  {
    match e
    case Leaf(_) =>
    case Literal(_) =>
    case Cast(_, inner, ty) =>
      StripCleans(inner);
      MappingIdempotent(ty);
    case Call(name, args, filter) =>
      if args.ArgList? { StripAllCleans(args.list); }
      if filter.Some? { StripCleans(filter.value); }
    case Op(_, kids) => StripAllCleans(kids);
    case Position(substr, str) =>
      StripCleans(substr);
      StripCleans(str);
      CallClean("INSTR", Strip(str), Strip(substr));
    case JsonAccess(doc, path) =>
      StripCleans(doc);
      if |path| == 1 && path[0].Bracket? {
        StripCleans(path[0].key);
        ExtractClean(Strip(doc), Strip(path[0].key));
      }
    case FieldAccess(root, chain) =>
      StripCleans(root);
      if |chain| == 1 && chain[0].Index? {
        StripCleans(chain[0].index);
        ExtractClean(Strip(root), Strip(chain[0].index));
      } else {
        StripChainCleans(chain);
      }
  }

  lemma {:induction false} StripAllCleans(es: seq<Expr>)
    ensures AllClean(StripAll(es))
    decreases es
  {
    if es != [] {
      StripCleans(es[0]);
      StripAllCleans(es[1..]);
      assert StripAll(es)[1..] == StripAll(es[1..]);
    }
  }

  lemma {:induction false} StripChainCleans(chain: seq<Access>)
    ensures ChainClean(StripChain(chain))
    decreases chain
  {
    if chain != [] {
      StripAccessCleans(chain[0]);
      StripChainCleans(chain[1..]);
      assert StripChain(chain)[1..] == StripChain(chain[1..]);
    }
  }

  lemma {:induction false} StripAccessCleans(a: Access)
    ensures AccessClean(StripAccess(a))
    decreases a
  {
    match a
    case DotAccess(field) => StripCleans(field);
    case Index(index) => StripCleans(index);
    case Slice(_) =>
  }

  lemma TwoClean(a: Expr, b: Expr)
    ensures AllClean([a, b]) <==> Clean(a) && Clean(b)
    ensures AllClean([a]) <==> Clean(a)
  {
    assert [a, b][1..] == [b] && [b][1..] == [] && [a][1..] == [];
    assert AllClean([]) && (AllClean([b]) <==> Clean(b));
  }

  lemma CallClean(name: string, a: Expr, b: Expr)
    requires Clean(a) && Clean(b)
    ensures Clean(SqliteCall(name, [a, b]))
  {
    TwoClean(a, b);
  }

  lemma ExtractClean(arr: Expr, idx: Expr)
    requires Clean(arr) && Clean(idx)
    ensures Clean(ExtractAt(arr, idx))
  {
    var minus := Op(Minus, [idx, Literal(Int(1))]);
    var less := Op(Nested, [minus]);
    var open := Op(StringConcat, [Literal(Str("$[")), less]);
    TwoClean(idx, Literal(Int(1)));
    TwoClean(minus, minus);
    TwoClean(Literal(Str("$[")), less);
    TwoClean(open, Literal(Str("]")));
    CallClean("json_extract", arr, PathOf(idx));
  }
}
