/** Iterating over version ranges: one by one, and in chunks. */
module VersionIterators {
  import opened RangeSets

  const U64_MAX := 0xFFFF_FFFF_FFFF_FFFF

  type u64 = x: int | 0 <= x <= U64_MAX

  function Least(a: int, b: int): int {
    if a <= b then a else b
  }

  function SaturatingAdd(a: u64, b: u64): u64 {
    Least(a + b, U64_MAX)
  }

  // ---------------------------------------------------------------- chunks

  datatype Chunk = Chunk(start: nat, end: nat)

  class ChunkedIterator {
    var current: u64
    const end: u64
    const chunkSize: u64

    constructor (start: u64, end: u64, chunkSize: u64)
      ensures current == start && this.end == end && this.chunkSize == chunkSize
    {
      current, this.end, this.chunkSize := start, end, chunkSize;
    }

    /** After `k` calls of an iterator from `start` comes call `k`. */
    method Next(ghost start: u64, ghost k: nat) returns (r: Option<Chunk>)
      requires current == Cursor(start, chunkSize, k) && (k == 0 || Cursor(start, chunkSize, k - 1) <= end)
      modifies this
      ensures r == Call(start, end, chunkSize, k)
      ensures r.Some? ==> current == Cursor(start, chunkSize, k + 1)
      ensures r.None? ==> current == old(current)
    {
      if current > end { return None; }
      var nextStep := SaturatingAdd(current, chunkSize);
      r := Some(Chunk(current, Least(nextStep, end)));
      current := nextStep;
    }
  }

  /** Where call `k` starts. */
  function Cursor(start: u64, chunkSize: u64, k: nat): (c: u64)
    ensures c >= start
  {
    if k == 0 then start else SaturatingAdd(Cursor(start, chunkSize, k - 1), chunkSize)
  }

  /** What call `k` gives, the calls before it having given chunks. */
  function Call(start: u64, end: u64, chunkSize: u64, k: nat): Option<Chunk> {
    if Cursor(start, chunkSize, k) > end then None
    else Some(Chunk(Cursor(start, chunkSize, k), Least(Cursor(start, chunkSize, k + 1), end)))
  }

  /** Where chunk `k` starts if nothing saturates. */
  function ChunkStart(start: u64, chunkSize: u64, k: nat): nat {
    if k == 0 then start else ChunkStart(start, chunkSize, k - 1) + chunkSize
  }

  lemma {:induction false} ChunkStartIs(start: u64, chunkSize: u64, k: nat)
    ensures ChunkStart(start, chunkSize, k) == start + k * chunkSize
  {
    if k > 0 {
      ChunkStartIs(start, chunkSize, k - 1);
      assert k * chunkSize == (k - 1) * chunkSize + chunkSize;
    }
  }

  lemma {:induction false} CursorIs(start: u64, chunkSize: u64, k: nat)
    ensures Cursor(start, chunkSize, k) == Least(ChunkStart(start, chunkSize, k), U64_MAX)
  {
    if k > 0 { CursorIs(start, chunkSize, k - 1); }
  }

  // ---------------------------------------------------------------- when it ends

  /** Some call gives nothing. */
  ghost predicate Ends(start: u64, end: u64, chunkSize: u64) {
    exists k: nat :: Call(start, end, chunkSize, k).None?
  }

  /** The iterator ends exactly when the range is empty, or its end is below the greatest u64 and
      the chunks are not empty. */
  lemma EndsExactly(start: u64, end: u64, chunkSize: u64)
    ensures Ends(start, end, chunkSize) <==> start > end || (end < U64_MAX && chunkSize > 0)
  {
    if start > end {
      assert Call(start, end, chunkSize, 0).None?;
    } else if end < U64_MAX && chunkSize > 0 {
      CursorPasses(start, end, chunkSize, end - start + 1);
      assert Call(start, end, chunkSize, end - start + 1).None?;
    } else {
      forall k: nat ensures Call(start, end, chunkSize, k).Some? {
        if chunkSize == 0 { CursorStays(start, k); }
      }
    }
  }

  lemma {:induction false} CursorPasses(start: u64, end: u64, chunkSize: u64, k: nat)
    requires end < U64_MAX && chunkSize > 0
    ensures Cursor(start, chunkSize, k) >= Least(start + k, end + 1)
  {
    if k > 0 { CursorPasses(start, end, chunkSize, k - 1); }
  }

  lemma {:induction false} CursorStays(start: u64, k: nat)
    ensures Cursor(start, 0, k) == start
  {
    if k > 0 { CursorStays(start, k - 1); }
  }

  // ---------------------------------------------------------------- what it covers

  /** The number of chunks. */
  function Chunks(start: u64, end: u64, chunkSize: u64): nat
    requires start <= end && chunkSize > 0
  {
    (end - start) / chunkSize + 1
  }

  lemma Quotient(d: nat, c: nat)
    requires c > 0
    ensures (d / c) * c <= d < (d / c + 1) * c
  {
    assert d == c * (d / c) + d % c;
    assert (d / c + 1) * c == (d / c) * c + c;
  }

  lemma TimesMonotone(j: nat, k: nat, c: nat)
    requires j <= k
    ensures j * c <= k * c
  {
  }

  lemma QuotientExactly(d: nat, c: nat, k: nat)
    requires c > 0
    ensures k <= d / c <==> k * c <= d
    ensures (k + 1) * c == k * c + c
  {
    Quotient(d, c);
    if k <= d / c { TimesMonotone(k, d / c, c); } else { TimesMonotone(d / c + 1, k, c); }
  }

  /** Exactly the first `Chunks` starts lie in the range. */
  lemma StartsInRange(start: u64, end: u64, chunkSize: u64, k: nat)
    requires start <= end && chunkSize > 0
    ensures k < Chunks(start, end, chunkSize) <==> ChunkStart(start, chunkSize, k) <= end
  {
    ChunkStartIs(start, chunkSize, k);
    QuotientExactly(end - start, chunkSize, k);
  }

  /** Chunk `k` starts at `ChunkStart`, which is `start + k * chunkSize`, and ends where chunk `k + 1` starts, so that
      neighbours share exactly that version; the last ends at `end`; then the iterator stops. */
  lemma ChunkAt(start: u64, end: u64, chunkSize: u64, k: nat)
    requires start <= end < U64_MAX && chunkSize > 0
    ensures k < Chunks(start, end, chunkSize) ==>
      Call(start, end, chunkSize, k) == Some(Chunk(ChunkStart(start, chunkSize, k),
          Least(ChunkStart(start, chunkSize, k + 1), end)))
    ensures k + 1 < Chunks(start, end, chunkSize) <==> ChunkStart(start, chunkSize, k + 1) <= end
    ensures k >= Chunks(start, end, chunkSize) ==> Call(start, end, chunkSize, k).None?
  {
    StartsInRange(start, end, chunkSize, k);
    StartsInRange(start, end, chunkSize, k + 1);
    CursorIs(start, chunkSize, k);
    CursorIs(start, chunkSize, k + 1);
  }

  predicate InChunk(start: u64, end: u64, chunkSize: u64, k: nat, v: int) {
    var r := Call(start, end, chunkSize, k);
    r.Some? && r.value.start <= v <= r.value.end
  }

  lemma Covered(start: u64, end: u64, chunkSize: u64, v: int) returns (k: nat)
    requires start <= v <= end < U64_MAX && chunkSize > 0
    ensures k < Chunks(start, end, chunkSize) && InChunk(start, end, chunkSize, k, v)
  {
    k := (v - start) / chunkSize;
    QuotientMonotone(v - start, end - start, chunkSize);
    StartsInRange(start, v, chunkSize, k);
    StartsInRange(start, v, chunkSize, k + 1);
    CursorIs(start, chunkSize, k);
    CursorIs(start, chunkSize, k + 1);
  }

  /** The chunks cover exactly the range. */
  lemma ChunksCover(start: u64, end: u64, chunkSize: u64, v: int)
    requires start <= end < U64_MAX && chunkSize > 0
    ensures start <= v <= end <==> exists k: nat {:trigger InChunk(start, end, chunkSize, k, v)} ::
      k < Chunks(start, end, chunkSize) && InChunk(start, end, chunkSize, k, v)
  {
    if start <= v <= end {
      var k := Covered(start, end, chunkSize, v);
    }
    forall k: nat | InChunk(start, end, chunkSize, k, v) ensures start <= v <= end {
    }
  }

  lemma QuotientMonotone(a: nat, b: nat, c: nat)
    requires a <= b && c > 0
    ensures a / c <= b / c
  {
    Quotient(a, c);
    Quotient(b, c);
    if a / c > b / c { TimesMonotone(b / c + 1, a / c, c); }
  }

  /** All the chunks, as the iterator gives them. */
  method Collect(start: u64, end: u64, chunkSize: u64) returns (chunks: seq<Chunk>)
    requires start > end || (end < U64_MAX && chunkSize > 0)
    ensures |chunks| == if start > end then 0 else Chunks(start, end, chunkSize)
    ensures forall k :: 0 <= k < |chunks| ==> Call(start, end, chunkSize, k) == Some(chunks[k])
  {
    var it := new ChunkedIterator(start, end, chunkSize);
    chunks := [];
    var r := it.Next(start, 0);
    while r.Some?
      invariant start <= end || r.None?
      invariant it.chunkSize == chunkSize && it.end == end
      invariant r == Call(start, end, chunkSize, |chunks|)
      invariant r.Some? ==> it.current == Cursor(start, chunkSize, |chunks| + 1)
      invariant start <= end ==> |chunks| <= Chunks(start, end, chunkSize)
      invariant start > end ==> chunks == []
      invariant forall k :: 0 <= k < |chunks| ==> Call(start, end, chunkSize, k) == Some(chunks[k])
      decreases r.Some?, (if start <= end then Chunks(start, end, chunkSize) else 0) - |chunks|
    {
      ChunkAt(start, end, chunkSize, |chunks|);
      chunks := chunks + [r.value];
      r := it.Next(start, |chunks|);
    }
    if start <= end { ChunkAt(start, end, chunkSize, |chunks|); }
  }

  // ---------------------------------------------------------------- one by one

  class RangeIterator {
    var start: u64
    const end: u64
    var exhausted: bool

    constructor (start: u64, end: u64)
      ensures this.start == start && this.end == end && !exhausted
    {
      this.start, this.end, exhausted := start, end, false;
    }

    /** The versions still to come. */
    ghost function Left(): seq<int>
      reads this
    {
      if exhausted then [] else Upto(start, end)
    }

    /** Gives the first version left; also at the end of the u64 range nothing overflows. */
    method Next() returns (r: Option<u64>)
      modifies this
      ensures r.None? <==> old(Left()) == []
      ensures r.Some? ==> old(Left()) == [r.value] + Left()
      ensures r.None? ==> Left() == []
    {
      if exhausted || start > end { return None; }
      var next := start;
      assert Upto(end + 1, end) == [];
      if start < end {
        start := start + 1;
      } else {
        exhausted := true;
      }
      r := Some(next);
    }

    /** The number of versions left; nothing when adding one overflows, which is exactly for the
        range of all u64 values. */
    method Len() returns (n: Option<u64>)
      ensures n.Some? ==> n.value == |Left()|
      ensures n.None? <==> !exhausted && start == 0 && end == U64_MAX
    {
      UptoLength(start, end);
      if end >= start && !exhausted {
        n := if end - start < U64_MAX then Some(end - start + 1) else None;
      } else {
        n := Some(0);
      }
    }
  }

  function Upto(a: int, b: int): seq<int>
    decreases b - a
  {
    if a > b then [] else [a] + Upto(a + 1, b)
  }

  lemma {:induction false} UptoLength(a: int, b: int)
    ensures |Upto(a, b)| == if a > b then 0 else b - a + 1
    decreases b - a
  {
    if a <= b { UptoLength(a + 1, b); }
  }
}
