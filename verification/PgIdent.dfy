/** Printing and parsing qualified identifiers. */
module PgIdent {
  import opened Text

  // ---------------------------------------------------------------- printing

  /** Quoting is needed for anything but a plain ASCII word that is no keyword. */
  predicate NeedsQuoting(s: string, keyword: string -> bool) {
    || s == []
    || (exists i :: 0 <= i < |s| && !IsAsciiAlphanumeric(s[i]) && s[i] != '_')
    || IsAsciiDigit(s[0])
    || keyword(s)
  }

  function Escape(s: string): string {
    if s == [] then [] else (if s[0] == '"' then "\"\"" else [s[0]]) + Escape(s[1..])
  }

  function QuoteIdent(s: string, keyword: string -> bool): string {
    if NeedsQuoting(s, keyword) then "\"" + Escape(s) + "\"" else s
  }

  function JoinQuoted(parts: seq<string>, keyword: string -> bool): string {
    if parts == [] then []
    else if |parts| == 1 then QuoteIdent(parts[0], keyword)
    else QuoteIdent(parts[0], keyword) + "." + JoinQuoted(parts[1..], keyword)
  }

  // ---------------------------------------------------------------- parsing

  /** What follows an opening quote: the identifier, and what is left after the closing quote. */
  function ReadQuoted(s: string): (r: (string, string))
    ensures |r.1| <= |s|
  {
    if s == [] then ("", "")
    else if s[0] == '"' then
      if |s| > 1 && s[1] == '"' then
        var r := ReadQuoted(s[2..]);
        ("\"" + r.0, r.1)
      else ("", s[1..])
    else
      var r := ReadQuoted(s[1..]);
      ([s[0]] + r.0, r.1)
  }

  function ReadPlain(s: string): (r: (string, string))
    ensures |r.1| <= |s|
  {
    if s == [] || s[0] == '.' || IsWhitespace(s[0]) then ("", s)
    else
      var r := ReadPlain(s[1..]);
      ([s[0]] + r.0, r.1)
  }

  function ReadPart(s: string): (r: (string, string))
    requires s != []
    ensures |r.1| <= |s|
  {
    if s[0] == '"' then ReadQuoted(s[1..]) else ReadPlain(s)
  }

  function SkipSeparator(s: string): (r: string)
    ensures |r| <= |s|
  {
    var t := SkipWhitespace(s);
    if t != [] && t[0] == '.' then t[1..] else t
  }

  lemma PartAdvances(s: string)
    requires s != [] && !IsWhitespace(s[0])
    ensures |SkipSeparator(ReadPart(s).1)| < |s|
  {
  }

  function ParsePgIdent(s: string): seq<string>
    decreases |s|
  {
    var t := SkipWhitespace(s);
    if t == [] then [] else
      PartAdvances(t);
      var r := ReadPart(t);
      [r.0] + ParsePgIdent(SkipSeparator(r.1))
  }

  // ---------------------------------------------------------------- round trip

  lemma {:induction false} ReadsQuoted(part: string, tail: string)
    requires tail == [] || tail[0] != '"'
    ensures ReadQuoted(Escape(part) + "\"" + tail) == (part, tail)
  {
    var s := Escape(part) + "\"" + tail;
    if part != [] {
      ReadsQuoted(part[1..], tail);
      assert part == [part[0]] + part[1..];
      var t := Escape(part[1..]) + "\"" + tail;
      assert s == (if part[0] == '"' then "\"\"" else [part[0]]) + t;
      if part[0] == '"' {
        assert s[2..] == t;
      } else {
        assert s[1..] == t;
      }
    } else {
      assert s[1..] == tail;
    }
  }

  predicate Plain(s: string) {
    forall i :: 0 <= i < |s| ==> IsAsciiAlphanumeric(s[i]) || s[i] == '_'
  }

  /** What may follow a part: nothing, a dot or white space. */
  predicate AfterPart(tail: string) {
    tail == [] || tail[0] == '.' || IsWhitespace(tail[0])
  }

  lemma {:induction false} ReadsPlain(part: string, tail: string)
    requires Plain(part) && AfterPart(tail)
    ensures ReadPlain(part + tail) == (part, tail)
  {
    if part != [] {
      ReadsPlain(part[1..], tail);
      assert part == [part[0]] + part[1..] && (part + tail)[0] == part[0];
      assert (part + tail)[1..] == part[1..] + tail;
    } else {
      assert part + tail == tail;
    }
  }

  lemma UnquotedIsPlain(part: string, keyword: string -> bool)
    requires !NeedsQuoting(part, keyword)
    ensures part != [] && Plain(part) && !IsWhitespace(part[0]) && part[0] != '"'
  {
    assert IsAsciiAlphanumeric(part[0]) || part[0] == '_';
  }

  lemma QuoteFirst(body: string, tail: string)
    ensures var s := "\"" + body + "\"" + tail;
      s != [] && s[0] == '"' && s[1..] == body + "\"" + tail
  {
  }

  lemma ReadsQuotedPart(part: string, tail: string)
    requires AfterPart(tail)
    ensures var s := "\"" + Escape(part) + "\"" + tail;
      s != [] && !IsWhitespace(s[0]) && ReadPart(s) == (part, tail)
  {
    var s := "\"" + Escape(part) + "\"" + tail;
    ReadsQuoted(part, tail);
    QuoteFirst(Escape(part), tail);
  }

  lemma ReadsPart(part: string, keyword: string -> bool, tail: string)
    requires AfterPart(tail)
    ensures var s := QuoteIdent(part, keyword) + tail;
      s != [] && !IsWhitespace(s[0]) && ReadPart(s) == (part, tail)
  {
    if NeedsQuoting(part, keyword) {
      ReadsQuotedPart(part, tail);
    } else {
      UnquotedIsPlain(part, keyword);
      ReadsPlain(part, tail);
      assert (part + tail)[0] == part[0];
    }
  }

  lemma {:induction false} EscapeGrows(s: string)
    ensures |Escape(s)| >= |s|
  {
    if s != [] { EscapeGrows(s[1..]); }
  }

  /** Exactly the ASCII words that start with no digit and are no keyword are printed bare; anything
      else is put between quotes. */
  lemma BareExactly(s: string, keyword: string -> bool)
    ensures QuoteIdent(s, keyword) == s <==> s != [] && Plain(s) && !IsAsciiDigit(s[0]) && !keyword(s)
    ensures QuoteIdent(s, keyword) != s ==>
      var q := QuoteIdent(s, keyword); |q| >= 2 && q[0] == '"' && q[|q| - 1] == '"'
  {
    EscapeGrows(s);
  }

  /** Parsing what `quote_ident` printed gives back every list of strings. */
  lemma {:induction false} IdentRoundTrip(parts: seq<string>, keyword: string -> bool)
    ensures ParsePgIdent(JoinQuoted(parts, keyword)) == parts
  {
    if parts != [] {
      var more := if |parts| == 1 then "" else "." + JoinQuoted(parts[1..], keyword);
      var s := JoinQuoted(parts, keyword);
      assert s == QuoteIdent(parts[0], keyword) + more;
      ReadsPart(parts[0], keyword, more);
      IdentRoundTrip(parts[1..], keyword);
      assert SkipSeparator(more) == JoinQuoted(parts[1..], keyword);
      assert parts == [parts[0]] + parts[1..];
    }
  }

  // ---------------------------------------------------------------- white space between parts

  /** A part with white space around it. */
  datatype Spaced = Spaced(before: string, part: string, after: string)

  function SpacedParts(ps: seq<Spaced>): seq<string> {
    if ps == [] then [] else [ps[0].part] + SpacedParts(ps[1..])
  }

  function JoinSpaced(ps: seq<Spaced>, keyword: string -> bool): string {
    if ps == [] then []
    else
      ps[0].before + QuoteIdent(ps[0].part, keyword) + ps[0].after
      + if |ps| == 1 then "" else "." + JoinSpaced(ps[1..], keyword)
  }

  lemma ReadsSpaced(p: Spaced, keyword: string -> bool, more: string)
    requires Blank(p.before) && Blank(p.after) && (more == [] || more[0] == '.')
    ensures
      var s := p.before + QuoteIdent(p.part, keyword) + p.after + more;
      ParsePgIdent(s) == [p.part] + ParsePgIdent(if more == [] then "" else more[1..])
  {
    var tail := p.after + more;
    var core := QuoteIdent(p.part, keyword) + tail;
    assert p.before + QuoteIdent(p.part, keyword) + p.after + more == p.before + core;
    assert AfterPart(tail) by { assert p.after != [] ==> tail[0] == p.after[0]; assert p.after == [] ==> tail == more; }
    ReadsPart(p.part, keyword, tail);
    SkipsBlank(p.before, core);
    SkipsBlank(p.after, more);
  }

  /** White space before and after the parts does not matter. */
  lemma {:induction false} SpacedRoundTrip(ps: seq<Spaced>, keyword: string -> bool)
    requires forall i :: 0 <= i < |ps| ==> Blank(ps[i].before) && Blank(ps[i].after)
    ensures ParsePgIdent(JoinSpaced(ps, keyword)) == SpacedParts(ps)
    decreases |ps|
  {
    if ps != [] {
      var more := if |ps| == 1 then "" else "." + JoinSpaced(ps[1..], keyword);
      ReadsSpaced(ps[0], keyword, more);
      SpacedRoundTrip(ps[1..], keyword);
      assert |ps| > 1 ==> more[1..] == JoinSpaced(ps[1..], keyword);
    }
  }

  // ---------------------------------------------------------------- the parser

  // The iterator over characters is the text still to come.

  method SkipBlanks(chars: string) returns (rest: string)
    ensures rest == SkipWhitespace(chars)
  {
    rest := chars;
    while rest != [] && IsWhitespace(rest[0])
      invariant SkipWhitespace(rest) == SkipWhitespace(chars)
    {
      rest := rest[1..];
    }
  }

  method TakeQuoted(chars: string) returns (part: string, rest: string)
    ensures part == ReadQuoted(chars).0 && rest == ReadQuoted(chars).1
  {
    part, rest := "", chars;
    var open := true;
    ghost var left := ReadQuoted(chars);
    while open && rest != []
      invariant open ==> left == ReadQuoted(rest)
      invariant !open ==> left == ("", rest)
      invariant ReadQuoted(chars).0 == part + left.0 && ReadQuoted(chars).1 == left.1
      decreases open, |rest|
    {
      var c := rest[0];
      if c != '"' {
        rest := rest[1..];
        part := part + [c];
        left := ReadQuoted(rest);
      } else if |rest| > 1 && rest[1] == '"' {
        rest := rest[2..];
        part := part + [c];
        left := ReadQuoted(rest);
      } else {
        rest := rest[1..];
        open := false;
        left := ("", rest);
      }
    }
  }

  method TakePlain(chars: string) returns (part: string, rest: string)
    ensures part == ReadPlain(chars).0 && rest == ReadPlain(chars).1
  {
    part, rest := "", chars;
    ghost var left := ReadPlain(chars);
    while rest != [] && rest[0] != '.' && !IsWhitespace(rest[0])
      invariant left == ReadPlain(rest)
      invariant ReadPlain(chars).0 == part + left.0 && ReadPlain(chars).1 == left.1
    {
      part := part + [rest[0]];
      rest := rest[1..];
      left := ReadPlain(rest);
    }
  }

  /** The part at the front, and the text from which the next one is read. */
  method TakePart(chars: string) returns (part: string, rest: string)
    requires chars != [] && !IsWhitespace(chars[0])
    ensures |rest| < |chars|
    ensures part == ReadPart(chars).0 && rest == SkipSeparator(ReadPart(chars).1)
  {
    PartAdvances(chars);
    if chars[0] == '"' {
      part, rest := TakeQuoted(chars[1..]);
    } else {
      part, rest := TakePlain(chars);
    }
    rest := SkipBlanks(rest);
    if rest != [] && rest[0] == '.' { rest := rest[1..]; }
  }

  /** One round of the parser's loop. */
  method TakeNext(chars: string) returns (found: bool, part: string, rest: string)
    ensures !found ==> ParsePgIdent(chars) == []
    ensures found ==> |rest| < |chars| && ParsePgIdent(chars) == [part] + ParsePgIdent(rest)
  {
    rest := SkipBlanks(chars);
    if rest == [] { return false, "", rest; }
    part, rest := TakePart(rest);
    found := true;
  }

  lemma MoveFirst(parts: seq<string>, part: string, left: seq<string>)
    ensures parts + ([part] + left) == (parts + [part]) + left
  {
  }

  /** The parser ends on every input, having moved past at least one character a part. */
  method Parse(s: string) returns (parts: seq<string>)
    ensures parts == ParsePgIdent(s)
    ensures |parts| <= |s|
  {
    parts := [];
    var rest, found := s, true;
    ghost var all := ParsePgIdent(s);
    ghost var left := all;
    assert all == parts + left;
    while rest != [] && found
      invariant |parts| + |rest| <= |s|
      invariant left == if found then ParsePgIdent(rest) else []
      invariant all == parts + left
      decreases |rest|, found
    {
      var part, after;
      found, part, after := TakeNext(rest);
      if found {
        left := ParsePgIdent(after);
        MoveFirst(parts, part, left);
        parts := parts + [part];
        rest := after;
      } else {
        left := [];
      }
    }
    assert left == [];
  }
}
