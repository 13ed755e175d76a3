/** The incremental line decoder of the subscription client. */
module LinesCodec {

  type byte = x: int | 0 <= x < 256

  const NEWLINE: byte := 10
  const CARRIAGE_RETURN: byte := 13

  const USIZE_MAX: nat := 0xFFFF_FFFF_FFFF_FFFF

  function SaturatingAddOne(n: nat): nat {
    if n < USIZE_MAX then n + 1 else n
  }

  datatype Item = Line(bytes: seq<byte>) | TooLong

  datatype Decoded = Frame(item: Item) | NeedMore

  /** At most one trailing CR is removed. */
  function StripCr(line: seq<byte>): seq<byte> {
    if line != [] && line[|line| - 1] == CARRIAGE_RETURN then line[..|line| - 1] else line
  }

  function ItemOf(line: seq<byte>, max: nat): Item {
    if |line| <= max then Line(StripCr(line)) else TooLong
  }

  /** No newline in the first `k` bytes. */
  predicate Unbroken(s: seq<byte>, k: nat)
    requires k <= |s|
  {
    forall i :: 0 <= i < k ==> s[i] != NEWLINE
  }

  /** Position of the first newline, or the length. */
  function FirstNewline(s: seq<byte>): (k: nat)
    ensures k <= |s|
  {
    if s == [] || s[0] == NEWLINE then 0 else FirstNewline(s[1..]) + 1
  }

  lemma {:induction false} FirstNewlineFound(s: seq<byte>)
    ensures var k := FirstNewline(s); Unbroken(s, k) && (k < |s| ==> s[k] == NEWLINE)
  {
    if s != [] && s[0] != NEWLINE {
      FirstNewlineFound(s[1..]);
      var k := FirstNewline(s[1..]);
      forall i | 0 <= i < k + 1 ensures s[i] != NEWLINE {
        if i > 0 { assert s[i] == s[1..][i - 1]; }
      }
    }
  }

  // ---------------------------------------------------------------- the one-pass splitter

  /** Every line of the stream once, too long ones as one error, an unterminated tail only if it
      is already too long. */
  function Split(s: seq<byte>, max: nat): seq<Item>
    decreases |s|
  {
    var k := FirstNewline(s);
    if k == |s| then (if k > max then [TooLong] else []) else [ItemOf(s[..k], max)] + Split(s[k + 1..], max)
  }

  /** The same, when the line at the front has already been reported as too long. */
  function SplitDiscarding(s: seq<byte>, max: nat): seq<Item> {
    var k := FirstNewline(s);
    if k == |s| then [] else Split(s[k + 1..], max)
  }

  function Rest(discarding: bool, s: seq<byte>, max: nat): seq<Item> {
    if discarding then SplitDiscarding(s, max) else Split(s, max)
  }

  function Concat(chunks: seq<seq<byte>>): seq<byte> {
    if chunks == [] then [] else chunks[0] + Concat(chunks[1..])
  }

  lemma FirstNewlineIs(s: seq<byte>, k: nat)
    requires k < |s| && s[k] == NEWLINE && Unbroken(s, k)
    ensures FirstNewline(s) == k
  {
    FirstNewlineFound(s);
  }

  lemma NoNewline(s: seq<byte>)
    requires Unbroken(s, |s|)
    ensures FirstNewline(s) == |s|
  {
    FirstNewlineFound(s);
  }

  // ---------------------------------------------------------------- what the splitter means

  function Terminated(lines: seq<seq<byte>>): seq<byte> {
    if lines == [] then [] else lines[0] + [NEWLINE] + Terminated(lines[1..])
  }

  function Items(lines: seq<seq<byte>>, max: nat): seq<Item> {
    if lines == [] then [] else [ItemOf(lines[0], max)] + Items(lines[1..], max)
  }

  lemma LineFirst(line: seq<byte>, more: seq<byte>)
    requires Unbroken(line, |line|)
    ensures var s := line + [NEWLINE] + more;
      FirstNewline(s) == |line| && s[..|line|] == line && s[|line| + 1..] == more
  {
    FirstNewlineIs(line + [NEWLINE] + more, |line|);
  }

  lemma SplitLine(line: seq<byte>, more: seq<byte>, max: nat)
    requires Unbroken(line, |line|)
    ensures Split(line + [NEWLINE] + more, max) == [ItemOf(line, max)] + Split(more, max)
  {
    LineFirst(line, more);
  }

  lemma AppendItems(a: seq<Item>, b: seq<Item>, c: seq<Item>)
    ensures a + (b + c) == (a + b) + c
  {
  }

  lemma TerminatedFirst(lines: seq<seq<byte>>, tail: seq<byte>)
    requires lines != []
    ensures Terminated(lines) + tail == lines[0] + [NEWLINE] + (Terminated(lines[1..]) + tail)
  {
  }

  /** On any newline-terminated lines followed by an unterminated tail, the splitter gives one
      item a line, and one error for a tail over the limit. */
  lemma {:induction false} SplitOfLines(lines: seq<seq<byte>>, tail: seq<byte>, max: nat)
    requires Unbroken(tail, |tail|) && forall i :: 0 <= i < |lines| ==> Unbroken(lines[i], |lines[i]|)
    ensures Split(Terminated(lines) + tail, max) == Items(lines, max) + if |tail| > max then [TooLong] else []
    decreases |lines|
  {
    if lines == [] {
      assert Terminated(lines) + tail == tail;
      NoNewline(tail);
    } else {
      TerminatedFirst(lines, tail);
      SplitLine(lines[0], Terminated(lines[1..]) + tail, max);
      SplitOfLines(lines[1..], tail, max);
      AppendItems([ItemOf(lines[0], max)], Items(lines[1..], max), if |tail| > max then [TooLong] else []);
    }
  }

  predicate EndsInCr(line: seq<byte>) {
    line != [] && line[|line| - 1] == CARRIAGE_RETURN
  }

  /** What a terminated line comes out as: an error over the limit, otherwise its bytes up to one
      carriage return at the end. */
  predicate ComesOutAs(line: seq<byte>, max: nat, item: Item) {
    match item
    case TooLong => |line| > max
    case Line(bytes) => |line| <= max && (line == bytes + [CARRIAGE_RETURN] || (line == bytes && !EndsInCr(line)))
  }

  lemma {:induction false} ItemsMean(lines: seq<seq<byte>>, max: nat, i: nat)
    requires i < |lines|
    ensures |Items(lines, max)| == |lines| && ComesOutAs(lines[i], max, Items(lines, max)[i])
    decreases |lines|
  {
    if i > 0 {
      ItemsMean(lines[1..], max, i - 1);
    } else {
      if |lines| > 1 { ItemsMean(lines[1..], max, 0); }
      var line := lines[0];
      assert EndsInCr(line) ==> line == line[..|line| - 1] + [CARRIAGE_RETURN];
    }
  }

  /** Every line of a stream comes out once, in order, as its bytes without one carriage return at
      the end or as an error over the limit; an unterminated tail only as an error over it. */
  lemma LinesComeOut(lines: seq<seq<byte>>, tail: seq<byte>, max: nat)
    requires Unbroken(tail, |tail|) && forall i :: 0 <= i < |lines| ==> Unbroken(lines[i], |lines[i]|)
    ensures var items := Split(Terminated(lines) + tail, max);
      && |items| == |lines| + (if |tail| > max then 1 else 0)
      && (forall i :: 0 <= i < |lines| ==> ComesOutAs(lines[i], max, items[i]))
      && (|tail| > max ==> items[|lines|] == TooLong)
  {
    SplitOfLines(lines, tail, max);
    assert lines == [] ==> Items(lines, max) == [];
    forall i: nat | i < |lines|
      ensures |Items(lines, max)| == |lines| && ComesOutAs(lines[i], max, Items(lines, max)[i])
    {
      ItemsMean(lines, max, i);
    }
  }

  /** A line ended by CR LF comes out without both. */
  lemma CrLfLine(body: seq<byte>, max: nat)
    requires Unbroken(body, |body|) && |body| < max
    ensures Split(body + [CARRIAGE_RETURN, NEWLINE], max) == [Line(body)]
  {
    var line := body + [CARRIAGE_RETURN];
    assert body + [CARRIAGE_RETURN, NEWLINE] == line + [NEWLINE] + [];
    SplitLine(line, [], max);
  }

  /** A line within the limit that does not end in CR comes out unchanged. */
  lemma PlainLine(line: seq<byte>, max: nat)
    requires Unbroken(line, |line|) && |line| <= max && !EndsInCr(line)
    ensures Split(line + [NEWLINE], max) == [Line(line)]
  {
    assert line + [NEWLINE] == line + [NEWLINE] + [];
    SplitLine(line, [], max);
  }

  // ---------------------------------------------------------------- the decoder's moves

  lemma Found(disc: bool, buf: seq<byte>, k: nat, rest: seq<byte>, max: nat)
    requires k < |buf| && buf[k] == NEWLINE && Unbroken(buf, k)
    ensures Rest(disc, buf + rest, max) == (if disc then [] else [ItemOf(buf[..k], max)]) + Split(buf[k + 1..] + rest,
        max)
  {
    var s, t := buf + rest, buf[k + 1..] + rest;
    assert s[..k] == buf[..k] && s[k + 1..] == t;
    FirstNewlineIs(s, k);
    assert [] + Split(t, max) == Split(t, max);
  }

  lemma SkipUnbroken(front: seq<byte>, t: seq<byte>)
    requires Unbroken(front, |front|)
    ensures FirstNewline(front + t) == |front| + FirstNewline(t)
  {
    var j := FirstNewline(t);
    FirstNewlineFound(t);
    assert Unbroken(front + t, |front| + j);
    if j < |t| { FirstNewlineIs(front + t, |front| + j); } else { NoNewline(front + t); }
  }

  lemma TailAfter(front: seq<byte>, t: seq<byte>, j: nat)
    requires j < |t|
    ensures (front + t)[|front| + j + 1..] == t[j + 1..]
  {
  }

  lemma SkipInDiscard(front: seq<byte>, t: seq<byte>, max: nat)
    requires Unbroken(front, |front|)
    ensures SplitDiscarding(front + t, max) == SplitDiscarding(t, max)
  {
    SkipUnbroken(front, t);
    var j, s := FirstNewline(t), front + t;
    if j < |t| {
      TailAfter(front, t, j);
      assert SplitDiscarding(s, max) == Split(s[|front| + j + 1..], max);
    }
  }

  lemma Dropped(buf: seq<byte>, k: nat, rest: seq<byte>, max: nat)
    requires k <= |buf| && Unbroken(buf, k)
    ensures SplitDiscarding(buf + rest, max) == SplitDiscarding(buf[k..] + rest, max)
  {
    assert buf + rest == buf[..k] + (buf[k..] + rest);
    SkipInDiscard(buf[..k], buf[k..] + rest, max);
  }

  lemma Overlong(buf: seq<byte>, rest: seq<byte>, max: nat)
    requires |buf| > max && Unbroken(buf, max + 1)
    ensures Split(buf + rest, max) == [TooLong] + SplitDiscarding(buf + rest, max)
  {
    FirstNewlineFound(buf + rest);
    assert Unbroken(buf + rest, max + 1);
  }

  lemma Quiet(disc: bool, buf: seq<byte>, max: nat)
    requires Unbroken(buf, |buf|) && (disc || |buf| <= max)
    ensures Rest(disc, buf, max) == []
  {
    NoNewline(buf);
  }

  // ---------------------------------------------------------------- the decoder

  /** Offset of the first newline in `buf[from..to]`, or `to - from`. */
  method Position(buf: seq<byte>, from: nat, to: nat) returns (offset: nat)
    requires from <= to <= |buf|
    ensures from + offset <= to
    ensures forall i :: from <= i < from + offset ==> buf[i] != NEWLINE
    ensures from + offset < to ==> buf[from + offset] == NEWLINE
  {
    offset := 0;
    while from + offset < to && buf[from + offset] != NEWLINE
      invariant from + offset <= to
      invariant forall i :: from <= i < from + offset ==> buf[i] != NEWLINE
    {
      offset := offset + 1;
    }
  }

  class LinesBytesCodec {
    var nextIndex: nat
    var isDiscarding: bool
    const maxLength: nat

    constructor (max: nat)
      ensures maxLength == max && !isDiscarding && nextIndex == 0
    {
      nextIndex, maxLength, isDiscarding := 0, max, false;
    }

    /** Everything before `nextIndex` has been searched. */
    ghost predicate Valid(buf: seq<byte>)
      reads this
    {
      nextIndex <= |buf| && nextIndex <= maxLength && Unbroken(buf, nextIndex)
    }

    /** `max_length.saturating_add(1)` is no limit only when no buffer can be that long. */
    predicate Fits(buf: seq<byte>) {
      maxLength < USIZE_MAX || |buf| <= USIZE_MAX
    }

    /** One round of the decoder's loop: `again` while it is only discarding. */
    method Round(buf: seq<byte>, ghost rest: seq<byte>) returns (left: seq<byte>, r: Decoded, again: bool)
      requires Valid(buf) && Fits(buf)
      modifies this
      ensures Valid(left) && Fits(left)
      ensures again ==> Owed(buf, rest, old(isDiscarding)) == Owed(left, rest, isDiscarding) && |left| < |buf|
      ensures !again ==> Answered(buf, left, rest, old(isDiscarding), isDiscarding, r)
    {
      var limit := SaturatingAddOne(maxLength);
      var readTo := if limit < |buf| then limit else |buf|;
      var offset := Position(buf, nextIndex, readTo);
      var found := nextIndex + offset < readTo;
      assert Unbroken(buf, nextIndex + offset);
      if isDiscarding && found {
        Found(true, buf, nextIndex + offset, rest, maxLength);
        left := buf[offset + nextIndex + 1..];
        isDiscarding := false;
        nextIndex := 0;
        return left, NeedMore, true;
      } else if isDiscarding {
        Dropped(buf, readTo, rest, maxLength);
        left := buf[readTo..];
        nextIndex := 0;
        return left, NeedMore, left != [];
      } else if found {
        var newlineIndex := offset + nextIndex;
        Found(false, buf, newlineIndex, rest, maxLength);
        nextIndex := 0;
        return buf[newlineIndex + 1..], Frame(Line(StripCr(buf[..newlineIndex]))), false;
      } else if |buf| > maxLength {
        Overlong(buf, rest, maxLength);
        isDiscarding := true;
        return buf, Frame(TooLong), false;
      } else {
        nextIndex := readTo;
        Quiet(false, buf, maxLength);
        return buf, NeedMore, false;
      }
    }

    /** What is still to come out of a state with buffer `buf` when `rest` follows in the stream. */
    function Owed(buf: seq<byte>, rest: seq<byte>, discarding: bool): seq<Item> {
      Rest(discarding, buf + rest, maxLength)
    }

    /** Whatever `rest` follows in the stream, the answer and what the new state still owes are
        what the old state owed; without an answer the new state owes nothing yet. */
    ghost predicate Answered(buf: seq<byte>, left: seq<byte>, rest: seq<byte>, was: bool, now: bool, r: Decoded) {
      match r
      case Frame(item) =>
        && Owed(buf, rest, was) == [item] + Owed(left, rest, now)
        && (|left| < |buf| || (left == buf && now && !was))
      case NeedMore =>
        && Owed(buf, rest, was) == Owed(left, rest, now)
        && Rest(now, left, maxLength) == [] && |left| <= |buf| && (now ==> left == [])
    }

    /** One call. */
    method Decode(buf: seq<byte>, ghost rest: seq<byte>) returns (left: seq<byte>, r: Decoded)
      requires Valid(buf) && Fits(buf)
      modifies this
      ensures Valid(left) && Fits(left)
      ensures Answered(buf, left, rest, old(isDiscarding), isDiscarding, r)
    {
      var again := true;
      left, r := buf, NeedMore;
      while again
        invariant Valid(left) && Fits(left)
        invariant again ==> Owed(buf, rest, old(isDiscarding)) == Owed(left, rest, isDiscarding)
        invariant again ==> |left| < |buf| || (left == buf && isDiscarding == old(isDiscarding))
        invariant !again ==> Answered(buf, left, rest, old(isDiscarding), isDiscarding, r)
        decreases again, |left|
      {
        left, r, again := Round(left, rest);
      }
    }
  }

  /** Call the decoder until it needs more input. */
  method Drain(codec: LinesBytesCodec, buf: seq<byte>, ghost rest: seq<byte>)
    returns (left: seq<byte>, items: seq<Item>)
    requires codec.Valid(buf) && codec.Fits(buf)
    modifies codec
    ensures codec.Valid(left) && |left| <= |buf| && Rest(codec.isDiscarding, left, codec.maxLength) == []
    ensures codec.Owed(buf, rest, old(codec.isDiscarding)) == items + codec.Owed(left, rest, codec.isDiscarding)
  {
    var r: Decoded;
    items := [];
    left, r := codec.Decode(buf, rest);
    while r.Frame?
      invariant codec.Valid(left) && codec.Fits(left) && |left| <= |buf|
      invariant r.Frame? ==>
        codec.Owed(buf, rest, old(codec.isDiscarding)) == items + [r.item] + codec.Owed(left, rest, codec.isDiscarding)
      invariant r.NeedMore? ==>
        codec.Owed(buf, rest, old(codec.isDiscarding)) == items + codec.Owed(left, rest, codec.isDiscarding)
      invariant r.NeedMore? ==> Rest(codec.isDiscarding, left, codec.maxLength) == []
      decreases r.Frame?, |left|, !codec.isDiscarding
    {
      items := items + [r.item];
      left, r := codec.Decode(left, rest);
    }
  }

  /** A chunk arrives. */
  method Feed(codec: LinesBytesCodec, buf: seq<byte>, chunk: seq<byte>, ghost rest: seq<byte>)
    returns (left: seq<byte>, items: seq<Item>)
    requires codec.Valid(buf) && codec.Fits(buf + chunk)
    modifies codec
    ensures codec.Valid(left) && |left| <= |buf| + |chunk| && Rest(codec.isDiscarding, left, codec.maxLength) == []
    ensures codec.Owed(buf, chunk + rest, old(codec.isDiscarding)) == items + codec.Owed(left, rest, codec.isDiscarding)
  {
    assert buf + (chunk + rest) == (buf + chunk) + rest;
    left, items := Drain(codec, buf + chunk, rest);
  }

  lemma ConcatNext(chunks: seq<seq<byte>>, n: nat)
    requires n < |chunks|
    ensures Concat(chunks[n..]) == chunks[n] + Concat(chunks[n + 1..])
  {
    assert chunks[n..][1..] == chunks[n + 1..];
  }

  /** Independence of chunking: however the stream is cut, the items are those of the one-pass
      splitter. */
  method DecodeChunks(chunks: seq<seq<byte>>, max: nat) returns (items: seq<Item>)
    requires max < USIZE_MAX || |Concat(chunks)| <= USIZE_MAX
    ensures items == Split(Concat(chunks), max)
  {
    var codec := new LinesBytesCodec(max);
    var buf: seq<byte> := [];
    items := [];
    ghost var rest, owed := Concat(chunks), Split(Concat(chunks), max);
    assert [] + rest == rest && [] + owed == owed;
    for n := 0 to |chunks|
      invariant codec.Valid(buf) && codec.maxLength == max
      invariant rest == Concat(chunks[n..])
      invariant max < USIZE_MAX || |buf| + |rest| <= USIZE_MAX
      invariant n > 0 ==> Rest(codec.isDiscarding, buf, max) == []
      invariant n == 0 ==> buf == [] && !codec.isDiscarding
      invariant owed == codec.Owed(buf, rest, codec.isDiscarding)
      invariant Split(Concat(chunks), max) == items + owed
    {
      ConcatNext(chunks, n);
      rest := Concat(chunks[n + 1..]);
      var more;
      buf, more := Feed(codec, buf, chunks[n], rest);
      owed := codec.Owed(buf, rest, codec.isDiscarding);
      AppendItems(items, more, owed);
      items := items + more;
    }
    NothingOwed(codec.isDiscarding, buf, rest, max);
    assert items + [] == items;
  }

  lemma NothingOwed(disc: bool, buf: seq<byte>, rest: seq<byte>, max: nat)
    requires rest == [] && (Rest(disc, buf, max) == [] || (buf == [] && !disc))
    ensures Rest(disc, buf + rest, max) == []
  {
    assert buf + rest == buf;
    assert Split([], max) == [];
  }
}
