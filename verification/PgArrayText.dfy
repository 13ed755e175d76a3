/** The text form of one-dimensional arrays, section 8.15.6 of the PostgreSQL 14 documentation. */
module PgArrayText {
  import opened Text

  datatype Result<T> = Ok(value: T) | Err

  // ---------------------------------------------------------------- NULL

  function TrimEnd(s: string): string {
    if s != [] && IsWhitespace(s[|s| - 1]) then TrimEnd(s[..|s| - 1]) else s
  }

  /** `s.trim().eq_ignore_ascii_case("NULL")`. */
  predicate ReadsAsNull(s: string) {
    EqIgnoreAsciiCase(TrimEnd(SkipWhitespace(s)), "NULL")
  }

  lemma {:induction false} SkipLeaves(s: string) returns (head: string)
    ensures s == head + SkipWhitespace(s) && Blank(head)
  {
    head := "";
    if s != [] && IsWhitespace(s[0]) {
      var rest := SkipLeaves(s[1..]);
      head := [s[0]] + rest;
      assert s == [s[0]] + s[1..];
    } else {
      assert "" + s == s;
    }
  }

  lemma {:induction false} TrimLeaves(s: string) returns (tail: string)
    ensures s == TrimEnd(s) + tail && Blank(tail)
  {
    tail := "";
    if s != [] && IsWhitespace(s[|s| - 1]) {
      var rest := TrimLeaves(s[..|s| - 1]);
      tail := rest + [s[|s| - 1]];
      assert s == s[..|s| - 1] + [s[|s| - 1]];
      assert TrimEnd(s) + tail == (TrimEnd(s) + rest) + [s[|s| - 1]];
    } else {
      assert s + "" == s;
    }
  }

  lemma {:induction false} TrimsBlank(rest: string, tail: string)
    requires Blank(tail) && rest != [] && !IsWhitespace(rest[|rest| - 1])
    ensures TrimEnd(rest + tail) == rest
    decreases |tail|
  {
    if tail == [] {
      assert rest + tail == rest;
    } else {
      var n := |tail| - 1;
      TrimsBlank(rest, tail[..n]);
      assert (rest + tail)[..|rest + tail| - 1] == rest + tail[..n] && (rest + tail)[|rest + tail| - 1] == tail[n];
    }
  }

  /** The word NULL in any letter case. */
  predicate IsNullWord(w: string) {
    |w| == 4 && UpperAscii(w[0]) == 'N' && UpperAscii(w[1]) == 'U' && UpperAscii(w[2]) == 'L' && UpperAscii(w[3]) == 'L'
  }

  lemma NullWord(w: string)
    ensures EqIgnoreAsciiCase(w, "NULL") <==> IsNullWord(w)
    ensures IsNullWord(w) ==> !IsWhitespace(w[0]) && !IsWhitespace(w[3])
  {
  }

  /** Exactly the word NULL with white space around it reads as NULL. */
  lemma ReadsAsNullExactly(s: string)
    ensures ReadsAsNull(s) <==>
      exists head, w, tail :: s == head + w + tail && Blank(head) && IsNullWord(w) && Blank(tail)
  {
    if ReadsAsNull(s) {
      var head := SkipLeaves(s);
      var tail := TrimLeaves(SkipWhitespace(s));
      var w := TrimEnd(SkipWhitespace(s));
      NullWord(w);
      assert s == head + w + tail;
    }
    if head, w, tail :| s == head + w + tail && Blank(head) && IsNullWord(w) && Blank(tail) {
      NullWord(w);
      assert s == head + (w + tail) && (w + tail)[0] == w[0];
      SkipsBlank(head, w + tail);
      TrimsBlank(w, tail);
    }
  }

  // ---------------------------------------------------------------- reading

  datatype Scan =
    | Scanning(elements: seq<string>, current: string, inQuotes: bool, escapeNext: bool, seenContent: bool)
    | Refused

  const START := Scanning([], "", false, false, false)

  /** One character of the scan. */
  function Step(st: Scan, ch: char): Scan {
    if st.Refused? then st
    else if ch == '\\' && !st.escapeNext then st.(escapeNext := true)
    else if ch == '"' && !st.escapeNext then st.(inQuotes := !st.inQuotes, seenContent := st.seenContent || st.inQuotes)
    else if (ch == '{' || ch == '}') && !st.inQuotes && !st.escapeNext then Refused
    else if ch == ',' && !st.inQuotes && !st.escapeNext then
      (if ReadsAsNull(st.current) then st
       else st.(elements := st.elements + [st.current], current := "", seenContent := false))
    else st.(current := st.current + [ch], escapeNext := false, seenContent := true)
  }

  function ScanAll(st: Scan, s: string): Scan
    decreases |s|
  {
    if s == [] then st else ScanAll(Step(st, s[0]), s[1..])
  }

  function Finish(st: Scan): Result<seq<string>> {
    if st.Refused? then Err
    else if st.seenContent && !ReadsAsNull(st.current) then Ok(st.elements + [st.current])
    else Ok(st.elements)
  }

  function Extract(s: string): Result<seq<string>> {
    if s == [] then Ok([]) else Finish(ScanAll(START, s))
  }

  function FromArrayText(s: string): Result<seq<string>> {
    if s == [] then Ok([])
    else if s[0] != '{' || s[|s| - 1] != '}' then Err
    else if s[1..|s| - 1] == [] then Ok([])
    else Extract(s[1..|s| - 1])
  }

  /** The loop over the characters. */
  method ExtractArrayElements(input: string) returns (r: Result<seq<string>>)
    ensures r == Extract(input)
  {
    if input == [] { return Ok([]); }
    var elements: seq<string>, current: string := [], "";
    var inQuotes, escapeNext, seenContent := false, false, false;
    for i := 0 to |input|
      invariant ScanAll(START, input) == ScanAll(Scanning(elements, current, inQuotes, escapeNext, seenContent),
          input[i..])
    {
      var ch := input[i];
      assert input[i..][1..] == input[i + 1..];
      if ch == '\\' && !escapeNext {
        escapeNext := true;
      } else if ch == '"' && !escapeNext {
        inQuotes := !inQuotes;
        if !inQuotes { seenContent := true; }
      } else if (ch == '{' || ch == '}') && !inQuotes && !escapeNext {
        RefusedStays(input[i + 1..]);
        return Err;
      } else if ch == ',' && !inQuotes && !escapeNext {
        if !ReadsAsNull(current) {
          elements, current := elements + [current], "";
          seenContent := false;
        }
      } else {
        current := current + [ch];
        escapeNext := false;
        seenContent := true;
      }
    }
    if seenContent && !ReadsAsNull(current) { elements := elements + [current]; }
    r := Ok(elements);
  }

  lemma {:induction false} RefusedStays(s: string)
    ensures ScanAll(Refused, s) == Refused
  {
    if s != [] { RefusedStays(s[1..]); }
  }

  // ---------------------------------------------------------------- refused texts

  /** Character `i` follows a backslash that is not itself escaped. */
  predicate Escaped(s: string, i: nat)
    requires i <= |s|
  {
    i > 0 && s[i - 1] == '\\' && !Escaped(s, i - 1)
  }

  /** Character `i` lies between quotes: an odd number of unescaped quotes comes before it. */
  predicate Quoted(s: string, i: nat)
    requires i <= |s|
  {
    i > 0 && (Quoted(s, i - 1) != (s[i - 1] == '"' && !Escaped(s, i - 1)))
  }

  predicate BareBrace(s: string, i: nat)
    requires i < |s|
  {
    (s[i] == '{' || s[i] == '}') && !Quoted(s, i) && !Escaped(s, i)
  }

  predicate HasBareBrace(s: string) {
    exists k :: 0 <= k < |s| && BareBrace(s, k)
  }

  /** The scan before character `i` knows where it stands. */
  predicate Aware(st: Scan, s: string, i: nat)
    requires i <= |s|
  {
    st.Scanning? && st.inQuotes == Quoted(s, i) && st.escapeNext == Escaped(s, i)
  }

  lemma StepAware(st: Scan, s: string, i: nat)
    requires i < |s| && Aware(st, s, i)
    ensures if BareBrace(s, i) then Step(st, s[i]) == Refused else Aware(Step(st, s[i]), s, i + 1)
  {
  }

  lemma {:induction false} ScanRefuses(st: Scan, s: string, i: nat)
    requires i <= |s| && Aware(st, s, i)
    ensures ScanAll(st, s[i..]).Refused? <==> exists k :: i <= k < |s| && BareBrace(s, k)
    decreases |s| - i
  {
    if i < |s| {
      assert s[i..][0] == s[i] && s[i..][1..] == s[i + 1..];
      StepAware(st, s, i);
      if BareBrace(s, i) {
        RefusedStays(s[i + 1..]);
      } else {
        ScanRefuses(Step(st, s[i]), s, i + 1);
      }
    }
  }

  /** Exactly the texts with a brace that is neither quoted nor escaped are refused. */
  lemma RefusedExactly(s: string)
    ensures Extract(s).Err? <==> HasBareBrace(s)
  {
    ScanRefuses(START, s, 0);
    assert s[0..] == s;
  }

  /** The whole text is refused exactly if it is not empty and not enclosed in braces, or holds a
      further brace that is neither quoted nor escaped. */
  lemma ArrayRefusedExactly(s: string)
    ensures FromArrayText(s).Err? <==>
      && s != []
      && (s[0] != '{' || s[|s| - 1] != '}' || HasBareBrace(s[1..|s| - 1]))
  {
    if s != [] && s[0] == '{' && s[|s| - 1] == '}' { RefusedExactly(s[1..|s| - 1]); }
  }

  // ---------------------------------------------------------------- writing

  function EscapeChar(c: char): string {
    if c == '\\' || c == '"' then ['\\', c] else [c]
  }

  function Escape(s: string): string {
    if s == [] then [] else EscapeChar(s[0]) + Escape(s[1..])
  }

  function Quote(s: string): string {
    "\"" + Escape(s) + "\""
  }

  function JoinQuoted(elems: seq<string>): string {
    if elems == [] then [] else if |elems| == 1 then Quote(elems[0]) else Quote(elems[0]) + "," + JoinQuoted(elems[1..])
  }

  function ToArrayText(elems: seq<string>): string {
    "{" + JoinQuoted(elems) + "}"
  }

  // ---------------------------------------------------------------- round trip

  lemma {:induction false} ScanConcat(st: Scan, a: string, b: string)
    ensures ScanAll(st, a + b) == ScanAll(ScanAll(st, a), b)
    decreases |a|
  {
    if a == [] {
      assert a + b == b;
    } else {
      ScanConcat(Step(st, a[0]), a[1..], b);
      assert (a + b)[1..] == a[1..] + b;
    }
  }

  lemma ScanFront(st: Scan, c: char)
    ensures ScanAll(st, [c]) == Step(st, c)
    ensures ScanAll(st, ['\\', c]) == Step(Step(st, '\\'), c)
  {
    assert ['\\', c][1..] == [c] && [c][1..] == [];
    assert ScanAll(Step(st, '\\'), [c]) == Step(Step(st, '\\'), c);
  }

  lemma ScanEscapedChar(elements: seq<string>, current: string, seen: bool, c: char)
    ensures ScanAll(Scanning(elements, current, true, false, seen), EscapeChar(c))
         == Scanning(elements, current + [c], true, false, true)
  {
    ScanFront(Scanning(elements, current, true, false, seen), c);
  }

  lemma {:induction false} ScanEscaped(elements: seq<string>, current: string, seen: bool, s: string)
    ensures ScanAll(Scanning(elements, current, true, false, seen), Escape(s))
         == Scanning(elements, current + s, true, false, seen || s != [])
    decreases |s|
  {
    if s == [] {
      assert current + s == current;
    } else {
      ScanConcat(Scanning(elements, current, true, false, seen), EscapeChar(s[0]), Escape(s[1..]));
      ScanEscapedChar(elements, current, seen, s[0]);
      ScanEscaped(elements, current + [s[0]], true, s[1..]);
      assert current + s == current + [s[0]] + s[1..];
    }
  }

  /** A quoted element is added to the text collected so far. */
  lemma ScanQuoted(elements: seq<string>, current: string, seen: bool, s: string)
    ensures ScanAll(Scanning(elements, current, false, false, seen), Quote(s))
         == Scanning(elements, current + s, false, false, true)
  {
    var st := Scanning(elements, current, false, false, seen);
    ScanConcat(st, "\"", Escape(s) + "\"");
    assert Quote(s) == "\"" + (Escape(s) + "\"");
    ScanEscaped(elements, current, seen, s);
    ScanConcat(st.(inQuotes := true), Escape(s), "\"");
  }

  lemma ScanQuotedComma(elements: seq<string>, current: string, seen: bool, s: string, more: string)
    ensures ScanAll(Scanning(elements, current, false, false, seen), Quote(s) + "," + more)
         == ScanAll(Step(Scanning(elements, current + s, false, false, true), ','), more)
  {
    var st := Scanning(elements, current, false, false, seen);
    ScanConcat(st, Quote(s) + ",", more);
    ScanConcat(st, Quote(s), ",");
    ScanQuoted(elements, current, seen, s);
    ScanFront(ScanAll(st, Quote(s)), ',');
  }

  /** What the scan makes of the remaining elements. */
  function Outcome(elements: seq<string>, current: string, seen: bool, elems: seq<string>): Result<seq<string>> {
    Finish(ScanAll(Scanning(elements, current, false, false, seen), JoinQuoted(elems)))
  }

  lemma OutcomeStep(elements: seq<string>, current: string, seen: bool, elems: seq<string>)
    requires |elems| > 1
    ensures Outcome(elements, current, seen, elems) ==
      if ReadsAsNull(current + elems[0]) then Outcome(elements, current + elems[0], true, elems[1..])
      else Outcome(elements + [current + elems[0]], "", false, elems[1..])
  {
    ScanQuotedComma(elements, current, seen, elems[0], JoinQuoted(elems[1..]));
  }

  lemma OutcomeLast(elements: seq<string>, current: string, seen: bool, e: string)
    ensures Outcome(elements, current, seen, [e]) ==
      Ok(elements + if ReadsAsNull(current + e) then [] else [current + e])
  {
    ScanQuoted(elements, current, seen, e);
    assert JoinQuoted([e]) == Quote(e) && elements + [] == elements;
  }

  /** The scan of the remaining elements never fails and adds at most one element for each. */
  lemma {:induction false} AtMostOneEach(elements: seq<string>, current: string, seen: bool, elems: seq<string>)
    requires elems != []
    ensures Outcome(elements, current, seen, elems).Ok?
    ensures |Outcome(elements, current, seen, elems).value| <= |elements| + |elems|
    ensures ReadsAsNull(current + elems[0]) ==> |Outcome(elements, current, seen, elems).value| < |elements| + |elems|
    decreases |elems|
  {
    if |elems| == 1 {
      assert elems == [elems[0]];
      OutcomeLast(elements, current, seen, elems[0]);
    } else {
      OutcomeStep(elements, current, seen, elems);
      if ReadsAsNull(current + elems[0]) {
        AtMostOneEach(elements, current + elems[0], true, elems[1..]);
      } else {
        AtMostOneEach(elements + [current + elems[0]], "", false, elems[1..]);
      }
    }
  }

  predicate NoNullText(elems: seq<string>) {
    forall i :: 0 <= i < |elems| ==> !ReadsAsNull(elems[i])
  }

  lemma {:induction false} ScanAllElements(elements: seq<string>, elems: seq<string>)
    requires elems != []
    ensures Outcome(elements, "", false, elems) == Ok(elements + elems) <==> NoNullText(elems)
    decreases |elems|
  {
    assert "" + elems[0] == elems[0];
    if ReadsAsNull(elems[0]) {
      AtMostOneEach(elements, "", false, elems);
    } else if |elems| == 1 {
      assert elems == [elems[0]];
      OutcomeLast(elements, "", false, elems[0]);
    } else {
      OutcomeStep(elements, "", false, elems);
      ScanAllElements(elements + [elems[0]], elems[1..]);
      assert elements + elems == elements + [elems[0]] + elems[1..];
      NoNullRest(elems);
    }
  }

  lemma NoNullRest(elems: seq<string>)
    requires elems != [] && !ReadsAsNull(elems[0])
    ensures NoNullText(elems) <==> NoNullText(elems[1..])
  {
    assert forall i :: 0 < i < |elems| ==> elems[i] == elems[1..][i - 1];
  }

  /** Array text round trip: exactly the lists none of whose elements reads as NULL come back. */
  lemma ArrayRoundTrip(elems: seq<string>)
    ensures FromArrayText(ToArrayText(elems)) == Ok(elems) <==> NoNullText(elems)
  {
    var s := ToArrayText(elems);
    assert s[1..|s| - 1] == JoinQuoted(elems);
    if elems != [] {
      ScanAllElements([], elems);
      assert [] + elems == elems;
    }
  }

  lemma NullReadsAsNull()
    ensures ReadsAsNull("null")
  {
    assert SkipWhitespace("null") == "null";
    assert TrimEnd("null") == "null";
  }

  /** A list that does not come back: the text `NULL` is taken for SQL NULL and dropped. */
  lemma NullTextIsLost()
    ensures FromArrayText(ToArrayText(["null"])) != Ok(["null"])
  {
    ArrayRoundTrip(["null"]);
    NullReadsAsNull();
    assert !NoNullText(["null"]) by { assert ["null"][0] == "null"; }
  }

  // ---------------------------------------------------------------- elements without quotes

  /** Characters that need no quotes. */
  predicate IsPlain(s: string) {
    forall i :: 0 <= i < |s| ==> s[i] !in {'\\', '"', '{', '}', ','}
  }

  predicate PlainElement(s: string) {
    s != [] && IsPlain(s) && !ReadsAsNull(s)
  }

  function JoinPlain(elems: seq<string>): string {
    if elems == [] then [] else if |elems| == 1 then elems[0] else elems[0] + "," + JoinPlain(elems[1..])
  }

  lemma {:induction false} ScanPlain(elements: seq<string>, current: string, seen: bool, s: string)
    requires IsPlain(s)
    ensures ScanAll(Scanning(elements, current, false, false, seen), s)
         == Scanning(elements, current + s, false, false, seen || s != [])
    decreases |s|
  {
    if s == [] {
      assert current + s == current;
    } else {
      ScanPlain(elements, current + [s[0]], true, s[1..]);
      assert current + s == current + [s[0]] + s[1..];
    }
  }

  lemma ScanPlainComma(elements: seq<string>, s: string, more: string)
    requires PlainElement(s)
    ensures ScanAll(Scanning(elements, "", false, false, false), s + "," + more)
         == ScanAll(Scanning(elements + [s], "", false, false, false), more)
  {
    var st := Scanning(elements, "", false, false, false);
    ScanConcat(st, s + ",", more);
    ScanConcat(st, s, ",");
    ScanPlain(elements, "", false, s);
    assert "" + s == s;
    ScanFront(ScanAll(st, s), ',');
  }

  lemma {:induction false} ScanPlainElements(elements: seq<string>, elems: seq<string>)
    requires elems != [] && forall i :: 0 <= i < |elems| ==> PlainElement(elems[i])
    ensures Finish(ScanAll(Scanning(elements, "", false, false, false), JoinPlain(elems))) == Ok(elements + elems)
    decreases |elems|
  {
    if |elems| == 1 {
      ScanPlain(elements, "", false, elems[0]);
      assert "" + elems[0] == elems[0] && elems == [elems[0]];
    } else {
      ScanPlainComma(elements, elems[0], JoinPlain(elems[1..]));
      ScanPlainElements(elements + [elems[0]], elems[1..]);
      assert elements + elems == elements + [elems[0]] + elems[1..];
    }
  }

  lemma JoinPlainNonEmpty(elems: seq<string>)
    requires elems != [] && elems[0] != []
    ensures JoinPlain(elems) != []
  {
    assert |elems| > 1 ==> |JoinPlain(elems)| >= |elems[0]|;
  }

  /** Elements written without quotes come back too. */
  lemma PlainRoundTrip(elems: seq<string>)
    requires forall i :: 0 <= i < |elems| ==> PlainElement(elems[i])
    ensures FromArrayText("{" + JoinPlain(elems) + "}") == Ok(elems)
  {
    var s := "{" + JoinPlain(elems) + "}";
    var inner := JoinPlain(elems);
    assert s[1..|s| - 1] == inner && s[0] == '{' && s[|s| - 1] == '}';
    if elems != [] {
      ScanPlainElements([], elems);
      assert [] + elems == elems;
      JoinPlainNonEmpty(elems);
    }
  }
}
