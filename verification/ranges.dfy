/**
 The sorted interval list both reassemblers keep of the byte ranges received so
 far. Inserting a range edits the list in place; the meaning of a list is the
 set of positions it covers.
 */
module Ranges {
  import opened Basics

  datatype Range = Range(start: nat, end: nat)

  const MAX_RANGES: nat := 4096

  /** Non-empty ranges in order, no two of them touching. */
  ghost predicate Canonical(r: seq<Range>) {
    && (forall i :: 0 <= i < |r| ==> r[i].start < r[i].end)
    && (forall i, j :: 0 <= i < j < |r| ==> r[i].end < r[j].start)
  }

  ghost predicate Covers(r: seq<Range>, p: int) {
    exists i :: 0 <= i < |r| && r[i].start <= p < r[i].end
  }

  /** Some range of the list overlaps [start, end) or touches it. */
  predicate Touches(r: seq<Range>, start: nat, end: nat) {
    exists i :: 0 <= i < |r| && r[i].start <= end && start <= r[i].end
  }

  function Max(a: int, b: int): int {
    if a < b then b else a
  }

  /** Replace ranges w and w + 1 by one that reaches as far as both. */
  function MergeAt(r: seq<Range>, w: nat): (m: seq<Range>)
    requires w + 1 < |r|
    ensures |m| == |r| - 1
    ensures forall i :: 0 <= i < w ==> m[i] == r[i]
    ensures m[w] == Range(r[w].start, Max(r[w].end, r[w + 1].end))
    ensures forall i :: w < i < |m| ==> m[i] == r[i + 1]
  {
    RemoveAt(r[w := Range(r[w].start, Max(r[w].end, r[w + 1].end))], w + 1)
  }

  /** Canonical except that range w may reach ranges to its right. */
  ghost predicate CanonicalBut(r: seq<Range>, w: nat) {
    && w < |r|
    && (forall i :: 0 <= i < |r| ==> r[i].start < r[i].end)
    && (forall i, j :: 0 <= i < j < |r| && i != w ==> r[i].end < r[j].start)
    && (forall j :: w < j < |r| ==> r[w].start <= r[j].start)
  }

  /** The list r covers what the list `ranges` covers and [start, end). */
  ghost predicate Adds(ranges: seq<Range>, start: nat, end: nat, r: seq<Range>) {
    forall p :: Covers(r, p) <==> Covers(ranges, p) || start <= p < end
  }

  lemma MergeCovers(r: seq<Range>, w: nat, p: int)
    requires w + 1 < |r|
    requires r[w].start <= r[w + 1].start <= r[w].end
    ensures Covers(MergeAt(r, w), p) <==> Covers(r, p)
  {
    var m := MergeAt(r, w);
    if Covers(r, p) {
      var i :| 0 <= i < |r| && r[i].start <= p < r[i].end;
      var k := if i <= w then i else i - 1;
      assert m[k].start <= p < m[k].end;
    }
    if Covers(m, p) {
      var i :| 0 <= i < |m| && m[i].start <= p < m[i].end;
      if i < w {
        assert r[i] == m[i];
      } else if i > w {
        assert r[i + 1] == m[i];
      } else {
        assert p < r[w].end || r[w + 1].start <= p < r[w + 1].end;
      }
    }
  }

  lemma MergeAdds(r: seq<Range>, w: nat, ranges: seq<Range>, start: nat, end: nat)
    requires w + 1 < |r| && r[w].start <= r[w + 1].start <= r[w].end
    requires Adds(ranges, start, end, r)
    ensures Adds(ranges, start, end, MergeAt(r, w))
  {
    hide MergeAt, Covers;
    forall p {
      MergeCovers(r, w, p);
    }
  }

  lemma MergeKeeps(r: seq<Range>, w: nat)
    requires CanonicalBut(r, w) && w + 1 < |r| && r[w].end >= r[w + 1].start
    ensures CanonicalBut(MergeAt(r, w), w)
    ensures r[w].start <= r[w + 1].start
  {
    hide MergeAt;
  }

  lemma InsertCovers(r: seq<Range>, k: nat, x: Range, p: int)
    requires k <= |r|
    ensures Covers(InsertAt(r, k, x), p) <==> Covers(r, p) || x.start <= p < x.end
  {
    var m := InsertAt(r, k, x);
    if Covers(r, p) {
      var i :| 0 <= i < |r| && r[i].start <= p < r[i].end;
      assert m[if i < k then i else i + 1] == r[i];
    }
    if x.start <= p < x.end {
      assert m[k] == x;
    }
    if Covers(m, p) {
      var i :| 0 <= i < |m| && m[i].start <= p < m[i].end;
      assert i != k ==> m[i] == r[if i < k then i else i - 1];
    }
  }

  lemma InsertAdds(ranges: seq<Range>, k: nat, start: nat, end: nat)
    requires k <= |ranges|
    ensures Adds(ranges, start, end, InsertAt(ranges, k, Range(start, end)))
  {
    hide Covers;
    forall p {
      InsertCovers(ranges, k, Range(start, end), p);
    }
  }

  /** Just after insertion at its place, the new range may only reach its neighbours. */
  lemma InsertApart(ranges: seq<Range>, k: nat, start: nat, end: nat)
    requires Canonical(ranges) && start < end && k <= |ranges|
    requires k > 0 ==> ranges[k - 1].end < start
    requires k < |ranges| ==> start < ranges[k].start
    ensures CanonicalBut(InsertAt(ranges, k, Range(start, end)), k)
  {
    hide InsertAt;
  }

  /** Joined with its left neighbour, it may only reach its right neighbours. */
  lemma InsertJoined(ranges: seq<Range>, k: nat, start: nat, end: nat)
    requires Canonical(ranges) && start < end && 0 < k <= |ranges|
    requires ranges[k - 1].start <= start <= ranges[k - 1].end
    requires k < |ranges| ==> start < ranges[k].start
    ensures CanonicalBut(MergeAt(InsertAt(ranges, k, Range(start, end)), k - 1), k - 1)
  {
    hide MergeAt, InsertAt;
    var m := MergeAt(InsertAt(ranges, k, Range(start, end)), k - 1);
    assert |m| == |ranges|;
    assert forall i :: 0 <= i < |m| && i != k - 1 ==> m[i] == ranges[i];
    assert m[k - 1] == Range(ranges[k - 1].start, Max(ranges[k - 1].end, end));
  }

  lemma NothingTouched(ranges: seq<Range>, k: nat, start: nat, end: nat)
    requires Canonical(ranges) && k <= |ranges|
    requires k > 0 ==> ranges[k - 1].end < start
    requires k < |ranges| ==> end < ranges[k].start
    ensures !Touches(ranges, start, end)
  {
    forall i | 0 <= i < |ranges| ensures ranges[i].start > end || start > ranges[i].end {
      if i < k {
        assert ranges[i].end <= ranges[k - 1].end;
      } else {
        assert ranges[k].start <= ranges[i].start;
      }
    }
  }

  /**
   Insert [start, end) into a canonical list: the result is canonical and covers
   exactly what was covered before and the new range. When the new range touches
   a range of the list, the list does not grow.
   */
  method InsertRange(ranges: seq<Range>, start: nat, end: nat) returns (r: seq<Range>)
    requires Canonical(ranges)
    ensures Canonical(r)
    ensures forall p :: Covers(r, p) <==> Covers(ranges, p) || start <= p < end
    ensures |r| <= |ranges| + 1
    ensures Touches(ranges, start, end) ==> |r| <= |ranges|
  {
    if start >= end {
      return ranges;
    }
    hide CanonicalBut, Covers, MergeAt, InsertAt;
    var insertAt := PartitionPoint(ranges, (x: Range) => x.start <= start);
    r := InsertAt(ranges, insertAt, Range(start, end));
    InsertAdds(ranges, insertAt, start, end);

    var write := insertAt;
    if write > 0 && r[write - 1].end >= r[write].start {
      MergeAdds(r, write - 1, ranges, start, end);
      InsertJoined(ranges, insertAt, start, end);
      r := MergeAt(r, write - 1);
      write := write - 1;
    } else {
      InsertApart(ranges, insertAt, start, end);
    }
    ghost var joined := r;
    while write + 1 < |r| && r[write].end >= r[write + 1].start
      invariant write < |r| && CanonicalBut(r, write)
      invariant Adds(ranges, start, end, r)
      invariant |r| < |joined| || r == joined
      decreases |r|
    {
      MergeKeeps(r, write);
      MergeAdds(r, write, ranges, start, end);
      r := MergeAt(r, write);
    }
    LoopDone(r, write);
    if |r| > |ranges| {
      NothingTouched(ranges, insertAt, start, end);
    }
  }

  lemma LoopDone(r: seq<Range>, w: nat)
    requires CanonicalBut(r, w) && (w + 1 < |r| ==> r[w].end < r[w + 1].start)
    ensures Canonical(r)
  {
  }

  /** The bounded version: a full list refuses exactly the ranges that would lengthen it. */
  method InsertRangeBounded(ranges: seq<Range>, start: nat, end: nat) returns (r: seq<Range>, accepted: bool)
    requires Canonical(ranges) && |ranges| <= MAX_RANGES
    ensures accepted <==> start >= end || |ranges| < MAX_RANGES || Touches(ranges, start, end)
    ensures Canonical(r) && |r| <= MAX_RANGES
    ensures forall p :: Covers(r, p) <==> Covers(ranges, p) || (accepted && start <= p < end)
    ensures !accepted ==> r == ranges
  {
    if start >= end {
      return ranges, true;
    }
    if |ranges| >= MAX_RANGES && !Touches(ranges, start, end) {
      return ranges, false;
    }
    r := InsertRange(ranges, start, end);
    accepted := true;
  }

  lemma SomethingCovered(b: seq<Range>)
    requires Canonical(b) && b != []
    ensures exists p :: Covers(b, p)
  {
    assert Covers(b, b[0].start);
  }

  /** A canonical list is determined by what it covers. */
  lemma {:induction false} CanonicalUnique(a: seq<Range>, b: seq<Range>)
    requires Canonical(a) && Canonical(b)
    requires forall p :: Covers(a, p) <==> Covers(b, p)
    ensures a == b
  {
    if a == [] {
      if b != [] {
        SomethingCovered(b);
      }
    } else {
      FirstCovered(a, b);
      FirstCovered(b, a);
      forall p ensures Covers(a[1..], p) <==> Covers(b[1..], p) {
        CoversCons(a, p);
        CoversCons(b, p);
        assert Covers(a, p) <==> Covers(b, p);
      }
      CanonicalUnique(a[1..], b[1..]);
      assert a == [a[0]] + a[1..];
    }
  }

  /** The first range of one list starts and ends no earlier than that of the other. */
  lemma FirstCovered(a: seq<Range>, b: seq<Range>)
    requires Canonical(a) && Canonical(b) && a != []
    requires forall p :: Covers(a, p) <==> Covers(b, p)
    ensures b != [] && b[0].start <= a[0].start
    ensures a[0].start == b[0].start ==> a[0].end <= b[0].end
  {
    assert Covers(a, a[0].start);
    var i :| 0 <= i < |b| && b[i].start <= a[0].start < b[i].end;
    assert i > 0 ==> b[0].end < b[i].start;
    FirstBounds(b, b[0].end);
    assert a[0].start <= b[0].end < a[0].end ==> Covers(a, b[0].end);
  }

  lemma CoversCons(a: seq<Range>, p: int)
    requires Canonical(a) && a != []
    ensures Covers(a[1..], p) <==> Covers(a, p) && p >= a[0].end
  {
    var rest := a[1..];
    if Covers(rest, p) {
      var i :| 0 <= i < |rest| && rest[i].start <= p < rest[i].end;
      assert a[i + 1] == rest[i];
    }
    if Covers(a, p) && p >= a[0].end {
      var i :| 0 <= i < |a| && a[i].start <= p < a[i].end;
      assert rest[i - 1] == a[i];
    }
  }

  /** One range from zero to the end: how both reassemblers recognise completeness. */
  predicate IsWhole(r: seq<Range>, size: nat) {
    |r| == 1 && r[0].start == 0 && r[0].end >= size
  }

  /** Neither what precedes the first range nor the position just past it is covered. */
  lemma FirstBounds(r: seq<Range>, p: int)
    requires Canonical(r) && |r| > 0
    requires p < r[0].start || p == r[0].end
    ensures !Covers(r, p)
  {
    forall i | 0 <= i < |r| ensures !(r[i].start <= p < r[i].end) {
      assert i > 0 ==> r[0].end < r[i].start;
    }
  }

  /** For a canonical list inside [0, size), being whole is covering every position. */
  lemma WholeCoversAll(r: seq<Range>, size: nat)
    requires Canonical(r) && size > 0
    requires forall i :: 0 <= i < |r| ==> r[i].end <= size
    ensures IsWhole(r, size) <==> forall p :: 0 <= p < size ==> Covers(r, p)
  {
    if |r| == 0 {
      assert !Covers(r, 0);
    } else {
      if r[0].start > 0 {
        FirstBounds(r, 0);
      }
      if r[0].end < size {
        FirstBounds(r, r[0].end);
      }
      assert |r| > 1 ==> r[0].end < r[1].start;
    }
  }
}
