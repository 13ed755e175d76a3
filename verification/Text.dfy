/** Character classes of Rust's standard library. */
module Text {

  /** Unicode White_Space. */
  predicate IsWhitespace(c: char) {
    || '\U{0009}' <= c <= '\U{000D}' || c == ' ' || c == '\U{0085}' || c == '\U{00A0}' || c == '\U{1680}'
    || '\U{2000}' <= c <= '\U{200A}' || c == '\U{2028}' || c == '\U{2029}' || c == '\U{202F}'
    || c == '\U{205F}' || c == '\U{3000}'
  }

  predicate IsAsciiDigit(c: char) { '0' <= c <= '9' }

  predicate IsAsciiAlphanumeric(c: char) {
    IsAsciiDigit(c) || 'a' <= c <= 'z' || 'A' <= c <= 'Z'
  }

  function UpperAscii(c: char): char {
    if 'a' <= c <= 'z' then c - 32 as char else c
  }

  predicate EqIgnoreAsciiCase(a: string, b: string) {
    |a| == |b| && forall i :: 0 <= i < |a| ==> UpperAscii(a[i]) == UpperAscii(b[i])
  }

  function SkipWhitespace(s: string): (r: string)
    ensures |r| <= |s| && (r != [] ==> !IsWhitespace(r[0]))
  {
    if s != [] && IsWhitespace(s[0]) then SkipWhitespace(s[1..]) else s
  }

  predicate Blank(s: string) {
    forall i :: 0 <= i < |s| ==> IsWhitespace(s[i])
  }

  lemma {:induction false} SkipsBlank(blank: string, rest: string)
    requires Blank(blank) && (rest == [] || !IsWhitespace(rest[0]))
    ensures SkipWhitespace(blank + rest) == rest
  {
    if blank == [] {
      assert blank + rest == rest;
    } else {
      SkipsBlank(blank[1..], rest);
      assert (blank + rest)[1..] == blank[1..] + rest && (blank + rest)[0] == blank[0];
    }
  }

  // ---------------------------------------------------------------- the space characters of C

  predicate IsSpace(c: char) {
    c == ' ' || '\U{0009}' <= c <= '\U{000D}'
  }

  predicate AllSpaces(s: string) {
    forall i :: 0 <= i < |s| ==> IsSpace(s[i])
  }

  function SkipSpaces(s: string): string {
    if s != [] && IsSpace(s[0]) then SkipSpaces(s[1..]) else s
  }

  function DropSpaces(s: string): string {
    if s != [] && IsSpace(s[|s| - 1]) then DropSpaces(s[..|s| - 1]) else s
  }

  /** Without spaces at either end. */
  function TrimSpaces(s: string): string {
    DropSpaces(SkipSpaces(s))
  }

  lemma {:induction false} DropSplits(s: string) returns (tail: string)
    ensures s == DropSpaces(s) + tail && AllSpaces(tail)
  {
    if s != [] && IsSpace(s[|s| - 1]) {
      var rest := DropSplits(s[..|s| - 1]);
      tail := rest + [s[|s| - 1]];
      assert s == s[..|s| - 1] + [s[|s| - 1]];
      assert DropSpaces(s) + tail == (DropSpaces(s) + rest) + [s[|s| - 1]];
    } else {
      tail := "";
      assert s + tail == s;
    }
  }

  /** What is left after leading spaces is the trimmed text and spaces. */
  lemma TrimSplits(s: string) returns (tail: string)
    ensures SkipSpaces(s) == TrimSpaces(s) + tail && AllSpaces(tail)
  {
    tail := DropSplits(SkipSpaces(s));
  }

  lemma {:induction false} SkipSplits(s: string) returns (head: string)
    ensures s == head + SkipSpaces(s) && AllSpaces(head)
    ensures SkipSpaces(s) != [] ==> !IsSpace(SkipSpaces(s)[0])
  {
    head := "";
    if s != [] && IsSpace(s[0]) {
      var rest := SkipSplits(s[1..]);
      head := [s[0]] + rest;
      assert s == [s[0]] + s[1..];
    } else {
      assert "" + s == s;
    }
  }

  lemma {:induction false} DropEnds(s: string)
    ensures DropSpaces(s) != [] ==> !IsSpace(DropSpaces(s)[|DropSpaces(s)| - 1])
    ensures DropSpaces(s) <= s
  {
    if s != [] && IsSpace(s[|s| - 1]) { DropEnds(s[..|s| - 1]); }
  }

  /** Trimming takes away exactly the spaces at both ends. */
  lemma TrimExactly(s: string) returns (head: string, tail: string)
    ensures s == head + TrimSpaces(s) + tail && AllSpaces(head) && AllSpaces(tail)
    ensures
      var t := TrimSpaces(s);
      t != [] ==> !IsSpace(t[0]) && !IsSpace(t[|t| - 1])
  {
    head := SkipSplits(s);
    tail := TrimSplits(s);
    DropEnds(SkipSpaces(s));
    assert head + (TrimSpaces(s) + tail) == head + TrimSpaces(s) + tail;
    assert TrimSpaces(s) != [] ==> TrimSpaces(s)[0] == SkipSpaces(s)[0];
  }
}
