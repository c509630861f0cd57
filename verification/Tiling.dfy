/** Intervals that fill a byte range. The two ZIP readers test it in different ways: one
    collects the members' intervals, rejects overlapping pairs and sweeps the sorted list
    (`evidence_archive.py`), the other walks the members by offset with a running cursor
    (`athena_restore.py`). Both decide the same thing: a partition. */
module Tiling {
  import opened Common

  datatype Range = Range(lo: nat, hi: nat)

  predicate Apart(a: Range, b: Range) {
    a.hi <= b.lo || b.hi <= a.lo
  }

  predicate Within(r: Range, p: nat) {
    r.lo <= p < r.hi
  }

  /** Two different places of the list never share a position. */
  predicate Disjoint(s: seq<Range>) {
    s == [] || ((forall r | r in s[1..] :: Apart(s[0], r)) && Disjoint(s[1..]))
  }

  predicate Covered(s: seq<Range>, p: nat) {
    exists r :: r in s && Within(r, p)
  }

  /** The intervals are nonempty, lie in [0, end), leave no gap and do not overlap. */
  predicate Partition(s: seq<Range>, end: nat) {
    && (forall r | r in s :: r.lo < r.hi <= end)
    && Disjoint(s)
    && forall p :: 0 <= p < end ==> Covered(s, p)
  }

  /** The running cursor: each interval starts where the one before it stopped. */
  function Sweep(s: seq<Range>, cursor: nat): Option<nat> {
    if s == [] then Some(cursor)
    else if s[0].lo != cursor then None
    else Sweep(s[1..], s[0].hi)
  }

  predicate Nonempty(s: seq<Range>) {
    forall r | r in s :: r.lo < r.hi
  }

  predicate Ordered(s: seq<Range>) {
    forall i, j :: 0 <= i < j < |s| ==> s[i].lo <= s[j].lo
  }

  lemma {:induction false} SweepGrows(s: seq<Range>, cursor: nat, end: nat)
    requires Nonempty(s) && Sweep(s, cursor) == Some(end)
    ensures cursor <= end
    ensures forall r | r in s :: cursor <= r.lo < r.hi <= end
  {
    if s != [] {
      assert s[0] in s;
      SweepGrows(s[1..], s[0].hi, end);
      assert forall r | r in s :: r == s[0] || r in s[1..];
    }
  }

  /** A completed sweep is a partition of what it swept. */
  lemma {:induction false} SweepPartitions(s: seq<Range>, cursor: nat, end: nat)
    requires Nonempty(s) && Sweep(s, cursor) == Some(end)
    ensures Disjoint(s)
    ensures forall p :: cursor <= p < end ==> Covered(s, p)
  {
    if s != [] {
      assert s[0] in s;
      SweepGrows(s[1..], s[0].hi, end);
      SweepPartitions(s[1..], s[0].hi, end);
      forall p | cursor <= p < end
        ensures Covered(s, p)
      {
        if p < s[0].hi {
          assert Within(s[0], p);
        } else {
          assert Covered(s[1..], p);
          var r :| r in s[1..] && Within(r, p);
          assert r in s;
        }
      }
    }
  }

  /** A partition, taken in order, is swept without a stop. */
  lemma {:induction false} PartitionSweeps(s: seq<Range>, cursor: nat, end: nat)
    requires Nonempty(s) && Ordered(s) && Disjoint(s) && cursor <= end
    requires forall r | r in s :: cursor <= r.lo && r.hi <= end
    requires forall p :: cursor <= p < end ==> Covered(s, p)
    ensures Sweep(s, cursor) == Some(end)
  {
    if s == [] {
      assert cursor < end ==> Covered(s, cursor);
    } else {
      var first, rest := s[0], s[1..];
      assert first in s;
      assert Covered(s, cursor);
      var holder :| holder in s && Within(holder, cursor);
      assert first.lo == cursor;
      assert forall r | r in rest :: r in s && Apart(first, r) && first.lo <= r.lo;
      forall p | first.hi <= p < end
        ensures Covered(rest, p)
      {
        assert Covered(s, p);
        var r :| r in s && Within(r, p);
        assert r in rest;
      }
      PartitionSweeps(rest, first.hi, end);
    }
  }

  /** The cursor test, on nonempty intervals in order of their starts, decides partition. */
  lemma CursorDecidesPartition(s: seq<Range>, end: nat)
    requires Nonempty(s) && Ordered(s)
    ensures Sweep(s, 0) == Some(end) <==> Partition(s, end)
  {
    if Sweep(s, 0) == Some(end) {
      SweepGrows(s, 0, end);
      SweepPartitions(s, 0, end);
    }
    if Partition(s, end) {
      PartitionSweeps(s, 0, end);
    }
  }

  // ------------------------------------------------------------------- sorting

  /** Stable insertion by a key, the order of Python's `sorted`. */
  function Insert<T(!new)>(x: T, s: seq<T>, before: (T, T) -> bool): (r: seq<T>)
    ensures |r| == |s| + 1 && forall y :: y in r <==> y == x || y in s
  {
    if s == [] then [x]
    else if before(x, s[0]) then [x] + s
    else [s[0]] + Insert(x, s[1..], before)
  }

  function Sort<T(!new)>(s: seq<T>, before: (T, T) -> bool): (r: seq<T>)
    ensures |r| == |s| && forall y :: y in r <==> y in s
  {
    if s == [] then [] else Insert(s[0], Sort(s[1..], before), before)
  }

  /** The order compares starts first. */
  ghost predicate ByStart<T(!new)>(span: T -> Range, before: (T, T) -> bool) {
    forall x, y :: if before(x, y) then span(x).lo <= span(y).lo else span(y).lo <= span(x).lo
  }

  function Spans<T>(s: seq<T>, span: T -> Range): (r: seq<Range>)
    ensures |r| == |s| && forall i :: 0 <= i < |s| ==> r[i] == span(s[i])
  {
    if s == [] then [] else [span(s[0])] + Spans(s[1..], span)
  }

  /** Disjointness of a list with a first element. */
  lemma DisjointFirst(a: Range, s: seq<Range>)
    ensures Disjoint([a] + s) <==> (forall r | r in s :: Apart(a, r)) && Disjoint(s)
  {
    assert ([a] + s)[1..] == s;
  }

  lemma {:induction false} InsertDisjoint<T(!new)>(x: T, s: seq<T>, span: T -> Range, before: (T, T) -> bool)
    ensures Disjoint(Spans(Insert(x, s, before), span)) <==> Disjoint([span(x)] + Spans(s, span))
  {
    if s != [] && !before(x, s[0]) {
      var rest := Insert(x, s[1..], before);
      InsertDisjoint(x, s[1..], span, before);
      assert Insert(x, s, before)[1..] == rest;
      assert Spans(s, span) == [span(s[0])] + Spans(s[1..], span);
      assert Spans(Insert(x, s, before), span) == [span(s[0])] + Spans(rest, span);
      SpansMembers(rest, span);
      SpansMembers(s[1..], span);
      DisjointSwap(span(s[0]), span(x), Spans(s[1..], span), Spans(rest, span));
    } else {
      assert Insert(x, s, before)[1..] == s;
    }
  }

  lemma DisjointSwap(a: Range, x: Range, s: seq<Range>, rest: seq<Range>)
    requires forall r :: r in rest <==> r == x || r in s
    requires Disjoint(rest) <==> Disjoint([x] + s)
    ensures Disjoint([a] + rest) <==> Disjoint([x] + ([a] + s))
  {
    assert forall r :: r in [a] + s <==> r == a || r in s;
    assert x in rest && a in [a] + s && (Apart(a, x) <==> Apart(x, a));
    hide Apart, Disjoint;
    DisjointFirst(a, rest);
    DisjointFirst(x, s);
    DisjointFirst(x, [a] + s);
    DisjointFirst(a, s);
  }

  lemma OrderedFirst(a: Range, s: seq<Range>)
    ensures Ordered([a] + s) <==> (forall r | r in s :: a.lo <= r.lo) && Ordered(s)
  {
    var all := [a] + s;
    if Ordered(all) {
      forall i, j | 0 <= i < j < |s|
        ensures s[i].lo <= s[j].lo
      {
        assert all[i + 1].lo <= all[j + 1].lo;
      }
      forall r | r in s
        ensures a.lo <= r.lo
      {
        var j :| 0 <= j < |s| && s[j] == r;
        assert all[0].lo <= all[j + 1].lo;
      }
    }
  }

  lemma {:induction false} InsertOrdered<T(!new)>(x: T, s: seq<T>, span: T -> Range, before: (T, T) -> bool)
    requires ByStart(span, before) && Ordered(Spans(s, span))
    ensures Ordered(Spans(Insert(x, s, before), span))
  {
    var r := Insert(x, s, before);
    assert s != [] ==> Spans(s, span) == [span(s[0])] + Spans(s[1..], span);
    if s == [] || before(x, s[0]) {
      assert Spans(r, span) == [span(x)] + Spans(s, span);
      hide Ordered;
      OrderedFirst(span(x), Spans(s, span));
      if s != [] {
        OrderedFirst(span(s[0]), Spans(s[1..], span));
      }
    } else {
      hide Ordered;
      var rest := Insert(x, s[1..], before);
      assert Spans(r, span) == [span(s[0])] + Spans(rest, span);
      OrderedFirst(span(s[0]), Spans(s[1..], span));
      InsertOrdered(x, s[1..], span, before);
      SpansMembers(rest, span);
      SpansMembers(s[1..], span);
      OrderedFirst(span(s[0]), Spans(rest, span));
    }
  }

  lemma SpansMembers<T>(s: seq<T>, span: T -> Range)
    ensures forall r :: r in Spans(s, span) <==> exists x :: x in s && span(x) == r
  {
    forall r | r in Spans(s, span)
      ensures exists x :: x in s && span(x) == r
    {
      var i :| 0 <= i < |s| && Spans(s, span)[i] == r;
      assert s[i] in s;
    }
    forall x | x in s
      ensures span(x) in Spans(s, span)
    {
      var i :| 0 <= i < |s| && s[i] == x;
      assert Spans(s, span)[i] == span(x);
    }
  }

  lemma {:induction false} SortKeeps<T(!new)>(s: seq<T>, span: T -> Range, before: (T, T) -> bool)
    requires ByStart(span, before)
    ensures var r := Sort(s, before);
            Ordered(Spans(r, span)) && (Disjoint(Spans(r, span)) <==> Disjoint(Spans(s, span)))
  {
    if s != [] {
      var rest := Sort(s[1..], before);
      SortKeeps(s[1..], span, before);
      InsertOrdered(s[0], rest, span, before);
      InsertDisjoint(s[0], rest, span, before);
      DisjointFirst(span(s[0]), Spans(rest, span));
      SpansMembers(rest, span);
      SpansMembers(s[1..], span);
    }
  }

  /** Sorting by start orders the intervals and changes nothing about what they cover. */
  lemma SortedSpans<T(!new)>(s: seq<T>, span: T -> Range, before: (T, T) -> bool, end: nat)
    requires ByStart(span, before)
    ensures var r := Sort(s, before);
            && Ordered(Spans(r, span))
            && (Nonempty(Spans(r, span)) <==> Nonempty(Spans(s, span)))
            && (Partition(Spans(r, span), end) <==> Partition(Spans(s, span), end))
  {
    var r := Sort(s, before);
    SortKeeps(s, span, before);
    SpansMembers(r, span);
    SpansMembers(s, span);
    SameMembers(Spans(r, span), Spans(s, span), end);
  }

  /** Sorting by start and walking with a cursor decides whether the intervals partition
      [0, end), whatever order they are listed in. */
  lemma SortedCursorDecidesPartition<T(!new)>(s: seq<T>, span: T -> Range, before: (T, T) -> bool, end: nat)
    requires ByStart(span, before) && Nonempty(Spans(s, span))
    ensures Sweep(Spans(Sort(s, before), span), 0) == Some(end) <==> Partition(Spans(s, span), end)
  {
    SortedSpans(s, span, before, end);
    CursorDecidesPartition(Spans(Sort(s, before), span), end);
  }

  lemma SameMembers(r: seq<Range>, s: seq<Range>, end: nat)
    requires forall x :: x in r <==> x in s
    requires Disjoint(r) <==> Disjoint(s)
    ensures Partition(r, end) <==> Partition(s, end)
  {
    forall p: nat
      ensures Covered(r, p) <==> Covered(s, p)
    {
    }
  }

  /** Overlapping intervals are never swept, so the pairwise test of one reader is implied
      by its own sweep. */
  lemma OverlapStopsSweep(s: seq<Range>, i: nat, j: nat, end: nat)
    requires i < j < |s| && !Apart(s[i], s[j])
    ensures !Partition(s, end)
  {
    if Disjoint(s) {
      DisjointAt(s, i, j);
    }
  }

  lemma {:induction false} DisjointAt(s: seq<Range>, i: nat, j: nat)
    requires Disjoint(s) && i < j < |s|
    ensures Apart(s[i], s[j])
  {
    if i == 0 {
      assert s[j] == s[1..][j - 1];
    } else {
      DisjointAt(s[1..], i - 1, j - 1);
    }
  }
}
