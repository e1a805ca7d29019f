/**
 Reconstruction of state intervals from observations: the sort, the loops and the
 in-place merge of the aggregator, proved against one simple reading of the input, that
 the state at a millisecond is that of the last observation at or before it.
 */
module Intervals {
  import opened Wrappers
  import opened Sorting

  datatype State =
    | UserActive | AiProcessing | ToolProcessing | UserInputRequired | Idle | NotViewable | UnknownState
    | ForegroundVisible | ForegroundNotVisible | Background | DeviceLocked | Disconnected

  datatype Observation = Observation(atMs: int, state: State)

  datatype Interval = Interval(startMs: int, endMs: int, state: State)

  function Min(a: int, b: int): int { if a <= b then a else b }
  function Max(a: int, b: int): int { if a <= b then b else a }

  // ------------------------------------------------------------ the reference semantics

  /** The observation in force at `t`: the latest one at or before `t`, the last of them in input order on ties. */
  function LastAt(events: seq<Observation>, t: int): Option<Observation> {
    if events == [] then None
    else
      var x := events[0];
      match LastAt(events[1..], t)
      case Some(y) => if x.atMs <= t && x.atMs > y.atMs then Some(x) else Some(y)
      case None => if x.atMs <= t then Some(x) else None
  }

  /** `events[i]` is at or before `t`, and every other such observation is earlier, or as late and listed before it. */
  ghost predicate IsLastAt(events: seq<Observation>, t: int, i: int) {
    && 0 <= i < |events| && events[i].atMs <= t
    && forall j | 0 <= j < |events| && events[j].atMs <= t ::
         events[j].atMs < events[i].atMs || (events[j].atMs == events[i].atMs && j <= i)
  }

  /** `LastAt` finds exactly the observation in force. */
  lemma {:induction false} LastAtIsLast(events: seq<Observation>, t: int)
    ensures LastAt(events, t).None? <==> forall j | 0 <= j < |events| :: events[j].atMs > t
    ensures LastAt(events, t).Some? ==> exists i :: IsLastAt(events, t, i) && events[i] == LastAt(events, t).value
  {
    if events != [] {
      var x, rest := events[0], events[1..];
      LastAtIsLast(rest, t);
      assert forall j | 0 <= j < |rest| :: rest[j] == events[j + 1];
      assert forall j | 0 < j < |events| :: events[j] == rest[j - 1];
      if LastAt(rest, t).Some? {
        var i :| IsLastAt(rest, t, i) && rest[i] == LastAt(rest, t).value;
        if x.atMs <= t && x.atMs > rest[i].atMs {
          assert IsLastAt(events, t, 0);
        } else {
          assert IsLastAt(events, t, i + 1);
        }
      } else if x.atMs <= t {
        assert IsLastAt(events, t, 0);
      }
    }
  }

  predicate Within(x: Interval, t: int) {
    x.startMs <= t < x.endMs
  }

  /** Some interval of the list has this state at `t`. */
  ghost predicate Covers(l: seq<Interval>, t: int, state: State) {
    exists x :: x in l && Within(x, t) && x.state == state
  }

  // ------------------------------------------------------------ shapes of interval lists

  ghost predicate Proper(l: seq<Interval>) {
    forall x | x in l :: x.startMs < x.endMs
  }

  ghost predicate Contiguous(l: seq<Interval>) {
    forall i | 0 <= i < |l| - 1 :: l[i].endMs == l[i + 1].startMs
  }

  /** Sorted and free of overlaps. */
  ghost predicate Separated(l: seq<Interval>) {
    forall i, j | 0 <= i < j < |l| :: l[i].endMs <= l[j].startMs
  }

  ghost predicate Disjoint(l: seq<Interval>) {
    forall i, j, t | 0 <= i < j < |l| :: !(Within(l[i], t) && Within(l[j], t))
  }

  /** Neighbours that touch have different states. */
  ghost predicate Maximal(l: seq<Interval>) {
    forall i | 0 <= i < |l| - 1 :: l[i].endMs == l[i + 1].startMs ==> l[i].state != l[i + 1].state
  }

  // ------------------------------------------------------------ merging

  function MergeOnto(merged: seq<Interval>, x: Interval): seq<Interval> {
    if merged != [] && merged[|merged| - 1].endMs == x.startMs && merged[|merged| - 1].state == x.state
    then merged[|merged| - 1 := merged[|merged| - 1].(endMs := x.endMs)]
    else merged + [x]
  }

  function Merge(intervals: seq<Interval>): seq<Interval> {
    if intervals == [] then []
    else MergeOnto(Merge(intervals[..|intervals| - 1]), intervals[|intervals| - 1])
  }

  method MergeAdjacentIntervals(intervals: seq<Interval>) returns (merged: seq<Interval>)
    ensures merged == Merge(intervals)
  {
    merged := [];
    for k := 0 to |intervals|
      invariant merged == Merge(intervals[..k])
    {
      var interval := intervals[k];
      assert intervals[..k + 1][..k] == intervals[..k];
      if merged != [] && merged[|merged| - 1].endMs == interval.startMs && merged[|merged| - 1].state == interval.state {
        merged := merged[|merged| - 1 := merged[|merged| - 1].(endMs := interval.endMs)];
      } else {
        merged := merged + [interval];
      }
    }
    assert intervals[..|intervals|] == intervals;
  }

  function SumDuration(l: seq<Interval>): int {
    if l == [] then 0 else SumDuration(l[..|l| - 1]) + l[|l| - 1].endMs - l[|l| - 1].startMs
  }

  lemma SumAppend(l: seq<Interval>, x: Interval)
    ensures SumDuration(l + [x]) == SumDuration(l) + x.endMs - x.startMs
  {
    assert (l + [x])[..|l|] == l;
  }

  lemma CoversAppend(l: seq<Interval>, x: Interval, t: int, state: State)
    ensures Covers(l + [x], t, state) <==> Covers(l, t, state) || (Within(x, t) && x.state == state)
  {
    if Covers(l, t, state) {
      var y :| y in l && Within(y, t) && y.state == state;
      assert y in l + [x];
    }
    if Within(x, t) && x.state == state { assert x in l + [x]; }
  }

  predicate Joins(merged: seq<Interval>, x: Interval) {
    merged != [] && merged[|merged| - 1].endMs == x.startMs && merged[|merged| - 1].state == x.state
  }

  /** One merge step keeps intervals proper, adds up to the same duration, and ends where the new interval ends. */
  lemma MergeOntoShape(merged: seq<Interval>, x: Interval)
    requires Proper(merged) && x.startMs < x.endMs
    ensures var r := MergeOnto(merged, x);
            && r != [] && Proper(r) && SumDuration(r) == SumDuration(merged) + x.endMs - x.startMs
            && r[|r| - 1].endMs == x.endMs && r[|r| - 1].state == x.state
            && r[0].startMs == (if merged == [] then x.startMs else merged[0].startMs)
  {
    if Joins(merged, x) {
      var front, last := merged[..|merged| - 1], merged[|merged| - 1];
      var grown := last.(endMs := x.endMs);
      assert merged == front + [last] && MergeOnto(merged, x) == front + [grown];
      assert last in merged;
      SumAppend(front, last);
      SumAppend(front, grown);
    } else {
      SumAppend(merged, x);
    }
  }

  /** One merge step covers what its two inputs cover. */
  lemma MergeOntoCovers(merged: seq<Interval>, x: Interval, t: int, state: State)
    requires Proper(merged) && x.startMs < x.endMs
    ensures Covers(MergeOnto(merged, x), t, state) <==> Covers(merged, t, state) || (Within(x, t) && x.state == state)
  {
    if Joins(merged, x) {
      var front, last := merged[..|merged| - 1], merged[|merged| - 1];
      var grown := last.(endMs := x.endMs);
      assert merged == front + [last] && MergeOnto(merged, x) == front + [grown];
      assert last in merged;
      CoversAppend(front, last, t, state);
      CoversAppend(front, grown, t, state);
    } else {
      CoversAppend(merged, x, t, state);
    }
  }

  lemma ProperFront(l: seq<Interval>)
    requires l != [] && Proper(l)
    ensures Proper(l[..|l| - 1]) && l[|l| - 1].startMs < l[|l| - 1].endMs
    ensures l == l[..|l| - 1] + [l[|l| - 1]]
  {
    assert forall y | y in l[..|l| - 1] :: y in l;
  }

  /** Merging does not change total duration. */
  lemma {:induction false} MergeSum(l: seq<Interval>)
    requires Proper(l)
    ensures Proper(Merge(l)) && SumDuration(Merge(l)) == SumDuration(l)
  {
    if l != [] {
      ProperFront(l);
      MergeSum(l[..|l| - 1]);
      MergeOntoShape(Merge(l[..|l| - 1]), l[|l| - 1]);
    }
  }

  /** Merging does not change coverage. */
  lemma {:induction false} MergeCovers(l: seq<Interval>, t: int, state: State)
    requires Proper(l)
    ensures Covers(Merge(l), t, state) <==> Covers(l, t, state)
  {
    if l != [] {
      var front, last := l[..|l| - 1], l[|l| - 1];
      ProperFront(l);
      MergeSum(front);
      MergeCovers(front, t, state);
      MergeOntoCovers(Merge(front), last, t, state);
      CoversAppend(front, last, t, state);
    }
  }

  lemma MergeOntoSeparated(merged: seq<Interval>, x: Interval)
    requires Proper(merged) && Separated(merged) && Maximal(merged) && x.startMs < x.endMs
    requires merged != [] ==> merged[|merged| - 1].endMs <= x.startMs
    ensures var r := MergeOnto(merged, x); Separated(r) && Maximal(r)
  {
    if merged != [] { assert merged[|merged| - 1] in merged; }
    var r := MergeOnto(merged, x);
    forall i, j | 0 <= i < j < |r| ensures r[i].endMs <= r[j].startMs {
      if i < |merged| - 1 {
        assert merged[i].endMs <= merged[|merged| - 1].startMs;
      }
    }
  }

  /** Merging keeps order and gaps, and leaves no two touching neighbours with one state. */
  lemma {:induction false} MergeShape(l: seq<Interval>)
    requires Proper(l) && Separated(l)
    ensures Separated(Merge(l)) && Maximal(Merge(l))
    ensures l == [] <==> Merge(l) == []
    ensures l != [] ==> Merge(l)[0].startMs == l[0].startMs && Merge(l)[|Merge(l)| - 1].endMs == l[|l| - 1].endMs
  {
    if l != [] {
      var front, last := l[..|l| - 1], l[|l| - 1];
      ProperFront(l);
      MergeShape(front);
      MergeSum(front);
      if front != [] { assert front[|front| - 1] == l[|l| - 2]; }
      MergeOntoShape(Merge(front), last);
      MergeOntoSeparated(Merge(front), last);
    }
  }

  /** Merging leaves no gap where there was none. */
  lemma {:induction false} MergeContiguous(l: seq<Interval>)
    requires Proper(l) && Contiguous(l)
    ensures Contiguous(Merge(l))
    ensures l != [] ==> Merge(l) != [] && Merge(l)[|Merge(l)| - 1].endMs == l[|l| - 1].endMs
  {
    if l != [] {
      var front, last := l[..|l| - 1], l[|l| - 1];
      ProperFront(l);
      MergeContiguous(front);
      if front != [] { assert l[|l| - 2].endMs == l[|l| - 1].startMs; }
    }
  }

  // ------------------------------------------------------------ aggregation

  predicate AtLeq(a: Observation, b: Observation) {
    a.atMs <= b.atMs
  }

  /** One maximal stretch of each observation, in time order. */
  function Runs(ordered: seq<Observation>, endMs: int): seq<Interval> {
    if ordered == [] then []
    else
      Stretch(ordered[0], if |ordered| > 1 then ordered[1].atMs else endMs, endMs) + Runs(ordered[1..], endMs)
  }

  function Stretch(current: Observation, nextAt: int, endMs: int): seq<Interval> {
    var intervalEnd := Min(nextAt, endMs);
    if current.atMs >= endMs || intervalEnd <= current.atMs then [] else [Interval(current.atMs, intervalEnd, current.state)]
  }

  lemma RunsUnfold(ordered: seq<Observation>, k: nat, endMs: int)
    requires k < |ordered|
    ensures Runs(ordered[k..], endMs)
         == Stretch(ordered[k], if k + 1 < |ordered| then ordered[k + 1].atMs else endMs, endMs) + Runs(ordered[k + 1..], endMs)
  {
    assert ordered[k..][1..] == ordered[k + 1..];
  }

  /** One pass of the loop moves one observation's stretch from what is left to what is done. */
  lemma StretchOut(all: seq<Interval>, done: seq<Interval>, ordered: seq<Observation>, k: nat, endMs: int)
    requires k < |ordered| && done + Runs(ordered[k..], endMs) == all
    ensures
      var nextAt := if k + 1 < |ordered| then ordered[k + 1].atMs else endMs;
      (done + Stretch(ordered[k], nextAt, endMs)) + Runs(ordered[k + 1..], endMs) == all
  {
    RunsUnfold(ordered, k, endMs);
  }

  predicate ValidObservations(events: seq<Observation>) {
    forall e | e in events :: e.atMs >= 0
  }

  function Aggregate(events: seq<Observation>, endMs: int): Result<seq<Interval>> {
    if endMs < 0 then Err("endMs must be a non-negative integer")
    else if !ValidObservations(events) then Err("event timestamp must be a non-negative integer")
    else Ok(Merge(Runs(StableSort(events, AtLeq), endMs)))
  }

  /** A negative end is complained about first, then a negative timestamp anywhere. */
  lemma AggregateComplaints(events: seq<Observation>, endMs: int)
    ensures Aggregate(events, endMs) == Err("endMs must be a non-negative integer") <==> endMs < 0
    ensures Aggregate(events, endMs) == Err("event timestamp must be a non-negative integer") <==>
              endMs >= 0 && exists e :: e in events && e.atMs < 0
  {
    assert |"endMs must be a non-negative integer"| == 36;
    assert |"event timestamp must be a non-negative integer"| == 46;
  }

  method AggregateAttentionIntervals(events: seq<Observation>, endMs: int) returns (r: Result<seq<Interval>>)
    ensures r == Aggregate(events, endMs)
  {
    if endMs < 0 { return Err("endMs must be a non-negative integer"); }
    if !ValidObservations(events) { return Err("event timestamp must be a non-negative integer"); }
    var ordered := StableSort(events, AtLeq);
    var intervals := [];
    var index := 0;
    while index < |ordered|
      invariant 0 <= index <= |ordered|
      invariant intervals + Runs(ordered[index..], endMs) == Runs(ordered, endMs)
    {
      var current := ordered[index];
      var nextAt := if index + 1 < |ordered| then ordered[index + 1].atMs else endMs;
      var intervalEnd := Min(nextAt, endMs);
      StretchOut(Runs(ordered, endMs), intervals, ordered, index, endMs);
      ghost var before := intervals;
      if !(current.atMs >= endMs || intervalEnd <= current.atMs) {
        intervals := intervals + [Interval(current.atMs, intervalEnd, current.state)];
      }
      assert intervals == before + Stretch(current, nextAt, endMs);
      index := index + 1;
    }
    assert ordered[index..] == [] && intervals + [] == intervals;
    var merged := MergeAdjacentIntervals(intervals);
    return Ok(merged);
  }

  /** Stable sorting does not change which observation is in force. */
  lemma {:induction false} InsertKeepsLastAt(x: Observation, s: seq<Observation>, t: int)
    ensures LastAt(Insert(x, s, AtLeq), t) == LastAt([x] + s, t)
  {
    assert ([x] + s)[1..] == s;
    if s != [] && !AtLeq(x, s[0]) {
      var rest := s[1..];
      InsertKeepsLastAt(x, rest, t);
      assert ([x] + rest)[1..] == rest;
      var r := Insert(x, s, AtLeq);
      assert r == [s[0]] + Insert(x, rest, AtLeq);
      assert r[1..] == Insert(x, rest, AtLeq);
    }
  }

  lemma {:induction false} SortKeepsLastAt(s: seq<Observation>, t: int)
    ensures LastAt(StableSort(s, AtLeq), t) == LastAt(s, t)
  {
    if s != [] {
      var sorted := StableSort(s[1..], AtLeq);
      SortKeepsLastAt(s[1..], t);
      InsertKeepsLastAt(s[0], sorted, t);
      assert ([s[0]] + sorted)[1..] == sorted;
    }
  }

  lemma {:induction false} LastAtSorted(ordered: seq<Observation>, t: int)
    requires SortedBy(AtLeq, ordered)
    ensures LastAt(ordered, t).Some? <==> ordered != [] && ordered[0].atMs <= t
    ensures LastAt(ordered, t).Some? ==> LastAt(ordered, t).value.atMs >= ordered[0].atMs
  {
    if ordered != [] {
      var rest := ordered[1..];
      LastAtSorted(rest, t);
      if rest != [] { assert AtLeq(ordered[0], ordered[1]); }
    }
  }

  /** On ordered observations the stretches have, before `endMs`, exactly the state in force. */
  lemma {:induction false} RunsCover(ordered: seq<Observation>, endMs: int, t: int, state: State)
    requires SortedBy(AtLeq, ordered)
    ensures Covers(Runs(ordered, endMs), t, state) <==>
              t < endMs && LastAt(ordered, t).Some? && LastAt(ordered, t).value.state == state
  {
    if ordered != [] {
      var current, rest := ordered[0], ordered[1..];
      var nextAt := if |ordered| > 1 then ordered[1].atMs else endMs;
      SortedTail(ordered, AtLeq);
      RunsCover(rest, endMs, t, state);
      LastAtSorted(rest, t);
      if |ordered| > 1 { assert AtLeq(ordered[0], ordered[1]); }
      assert Runs(ordered, endMs) == Stretch(current, nextAt, endMs) + Runs(rest, endMs);
      CoversConcat(Stretch(current, nextAt, endMs), Runs(rest, endMs), t, state);
      StretchCovers(current, nextAt, endMs, t, state);
    }
  }

  lemma StretchCovers(current: Observation, nextAt: int, endMs: int, t: int, state: State)
    ensures Covers(Stretch(current, nextAt, endMs), t, state) <==>
              current.atMs <= t < Min(nextAt, endMs) && current.state == state
  {
    var x := Interval(current.atMs, Min(nextAt, endMs), current.state);
    if current.atMs <= t < Min(nextAt, endMs) {
      assert Stretch(current, nextAt, endMs) == [x] && x in [x];
    }
  }

  lemma CoversConcat(a: seq<Interval>, b: seq<Interval>, t: int, state: State)
    ensures Covers(a + b, t, state) <==> Covers(a, t, state) || Covers(b, t, state)
  {
    if Covers(a, t, state) {
      var y :| y in a && Within(y, t) && y.state == state;
      assert y in a + b;
    }
    if Covers(b, t, state) {
      var y :| y in b && Within(y, t) && y.state == state;
      assert y in a + b;
    }
  }

  /** The stretches tile the time from the first observation to `endMs`. */
  lemma {:induction false} RunsTile(ordered: seq<Observation>, endMs: int)
    requires SortedBy(AtLeq, ordered)
    ensures var r := Runs(ordered, endMs);
            && Proper(r) && Contiguous(r)
            && (r != [] <==> ordered != [] && ordered[0].atMs < endMs)
            && (r != [] ==> r[0].startMs == ordered[0].atMs && r[|r| - 1].endMs == endMs)
  {
    if ordered != [] {
      var current, more := ordered[0], |ordered| > 1;
      var nextAt := if more then ordered[1].atMs else endMs;
      SortedTail(ordered, AtLeq);
      RunsTile(ordered[1..], endMs);
      if more { assert AtLeq(ordered[0], ordered[1]); }
      TileStep(current, more, nextAt, Runs(ordered[1..], endMs), endMs);
      assert Runs(ordered, endMs) == Stretch(current, nextAt, endMs) + Runs(ordered[1..], endMs);
    }
  }

  lemma TileStep(current: Observation, more: bool, nextAt: int, tail: seq<Interval>, endMs: int)
    requires Proper(tail) && Contiguous(tail) && (tail != [] <==> more && nextAt < endMs)
    requires if more then current.atMs <= nextAt else nextAt == endMs
    requires tail != [] ==> tail[0].startMs == nextAt && tail[|tail| - 1].endMs == endMs
    ensures var r := Stretch(current, nextAt, endMs) + tail;
            && Proper(r) && Contiguous(r) && (r != [] <==> current.atMs < endMs)
            && (r != [] ==> r[0].startMs == current.atMs && r[|r| - 1].endMs == endMs)
  {
    TileOnto(Stretch(current, nextAt, endMs), tail, current.atMs, endMs);
  }

  /** A stretch in front of a tiling that starts where it ends, or where an empty one would. */
  lemma TileOnto(head: seq<Interval>, tail: seq<Interval>, at: int, endMs: int)
    requires Proper(tail) && Contiguous(tail) && (tail != [] ==> tail[|tail| - 1].endMs == endMs)
    requires |head| <= 1
    requires head != [] ==> head[0].startMs == at < head[0].endMs && head[0].endMs == (if tail == [] then endMs else tail[0].startMs)
    requires head == [] && tail != [] ==> tail[0].startMs == at
    ensures var r := head + tail;
            && Proper(r) && Contiguous(r)
            && (r != [] ==> r[0].startMs == at && r[|r| - 1].endMs == endMs)
  {
  }

  lemma {:induction false} TilesAreSeparated(l: seq<Interval>)
    requires Proper(l) && Contiguous(l)
    ensures Separated(l)
    ensures l != [] ==> SumDuration(l) == l[|l| - 1].endMs - l[0].startMs
  {
    if l != [] {
      var front := l[..|l| - 1];
      assert forall y | y in front :: y in l;
      TilesAreSeparated(front);
      forall i, j | 0 <= i < j < |l| ensures l[i].endMs <= l[j].startMs {
        if j == |l| - 1 {
          if i < j - 1 { assert front[i].endMs <= front[j - 1].startMs; assert l[j - 1] in l; }
          assert l[j - 1].endMs == l[j].startMs;
        } else {
          assert front[i].endMs <= front[j].startMs;
        }
      }
    }
  }

  lemma AtLeqIsOrder(events: seq<Observation>)
    ensures SortedBy(AtLeq, StableSort(events, AtLeq))
  {
    StableSortSorted(events, AtLeq);
  }

  ghost predicate IsEarliest(events: seq<Observation>, at: int) {
    (exists e :: e in events && e.atMs == at) && forall e | e in events :: at <= e.atMs
  }

  /**
   Refinement: before `endMs` the aggregation has at every millisecond exactly the state
   of the observation in force, and nothing after it.
   */
  lemma AggregateRefinesStepFunction(events: seq<Observation>, endMs: int)
    requires Aggregate(events, endMs).Ok?
    ensures forall t, state :: Covers(Aggregate(events, endMs).value, t, state) <==>
              t < endMs && LastAt(events, t).Some? && LastAt(events, t).value.state == state
  {
    var ordered := StableSort(events, AtLeq);
    AtLeqIsOrder(events);
    RunsTile(ordered, endMs);
    forall t, state ensures Covers(Aggregate(events, endMs).value, t, state) <==>
                              t < endMs && LastAt(events, t).Some? && LastAt(events, t).value.state == state
    {
      MergeCovers(Runs(ordered, endMs), t, state);
      RunsCover(ordered, endMs, t, state);
      SortKeepsLastAt(events, t);
    }
  }

  /** The aggregation is sorted, contiguous and maximal, and its total duration runs from the first observation to `endMs`. */
  lemma AggregateShape(events: seq<Observation>, endMs: int, first: int)
    requires Aggregate(events, endMs).Ok? && IsEarliest(events, first)
    ensures var r := Aggregate(events, endMs).value;
            && Proper(r) && Separated(r) && Contiguous(r) && Maximal(r)
            && SumDuration(r) == Max(0, endMs - first)
  {
    var ordered := StableSort(events, AtLeq);
    AtLeqIsOrder(events);
    RunsTile(ordered, endMs);
    var runs := Runs(ordered, endMs);
    TilesAreSeparated(runs);
    MergeSum(runs);
    MergeShape(runs);
    MergeContiguous(runs);
    EarliestIsFirst(events, first);
  }

  lemma EarliestIsFirst(events: seq<Observation>, first: int)
    requires IsEarliest(events, first)
    ensures var ordered := StableSort(events, AtLeq); ordered != [] && ordered[0].atMs == first
  {
    var ordered := StableSort(events, AtLeq);
    AtLeqIsOrder(events);
    SameMultisetSameMembers(ordered, events);
    var e :| e in events && e.atMs == first;
    assert e in ordered;
    var i :| 0 <= i < |ordered| && ordered[i] == e;
    assert ordered[0] in events;
    if i > 0 { assert AtLeq(ordered[0], ordered[i]); }
  }

  /** Properness, separation and maximality need no observation at all. */
  lemma AggregateIsSeparated(events: seq<Observation>, endMs: int)
    requires Aggregate(events, endMs).Ok?
    ensures var r := Aggregate(events, endMs).value; Proper(r) && Separated(r) && Maximal(r) && Contiguous(r)
    ensures forall x | x in Aggregate(events, endMs).value :: 0 <= x.startMs && x.endMs <= endMs
  {
    var ordered := StableSort(events, AtLeq);
    AtLeqIsOrder(events);
    RunsTile(ordered, endMs);
    var runs := Runs(ordered, endMs);
    TilesAreSeparated(runs);
    MergeSum(runs);
    MergeShape(runs);
    MergeContiguous(runs);
    if Merge(runs) != [] {
      SameMultisetSameMembers(ordered, events);
      assert ordered[0] in ordered && ordered[0] in events;
      EndsBound(Merge(runs), 0, endMs);
    }
  }

  /** Intervals in order lie between the start of the first and the end of the last. */
  lemma EndsBound(r: seq<Interval>, lo: int, hi: int)
    requires r != [] && Proper(r) && Separated(r) && lo <= r[0].startMs && r[|r| - 1].endMs <= hi
    ensures forall x | x in r :: lo <= x.startMs && x.endMs <= hi
  {
    forall x | x in r ensures lo <= x.startMs && x.endMs <= hi {
      var k :| 0 <= k < |r| && r[k] == x;
      assert r[0] in r && r[|r| - 1] in r;
      if k > 0 { assert r[0].endMs <= r[k].startMs; }
      if k < |r| - 1 { assert r[k].endMs <= r[|r| - 1].startMs; }
    }
  }

  // ------------------------------------------------------------ intersection

  predicate StartLeq(a: Interval, b: Interval) {
    a.startMs <= b.startMs
  }

  function Overlap(a: Interval, b: Interval): seq<Interval> {
    var startMs := Max(a.startMs, b.startMs);
    var endMs := Min(a.endMs, b.endMs);
    if endMs > startMs then [Interval(startMs, endMs, a.state)] else []
  }

  function Row(a: Interval, right: seq<Interval>): seq<Interval> {
    if right == [] then [] else Row(a, right[..|right| - 1]) + Overlap(a, right[|right| - 1])
  }

  function Pieces(left: seq<Interval>, right: seq<Interval>): seq<Interval> {
    if left == [] then [] else Pieces(left[..|left| - 1], right) + Row(left[|left| - 1], right)
  }

  function Intersect(left: seq<Interval>, right: seq<Interval>): seq<Interval> {
    Merge(StableSort(Pieces(left, right), StartLeq))
  }

  method IntersectIntervals(left: seq<Interval>, right: seq<Interval>) returns (r: seq<Interval>)
    ensures r == Intersect(left, right)
  {
    var result := [];
    for i := 0 to |left|
      invariant result == Pieces(left[..i], right)
    {
      var a := left[i];
      assert left[..i + 1][..i] == left[..i];
      for j := 0 to |right|
        invariant result == Pieces(left[..i], right) + Row(a, right[..j])
      {
        var b := right[j];
        assert right[..j + 1][..j] == right[..j];
        var startMs := Max(a.startMs, b.startMs);
        var endMs := Min(a.endMs, b.endMs);
        if endMs > startMs {
          result := result + [Interval(startMs, endMs, a.state)];
        }
      }
      assert right[..|right|] == right;
    }
    assert left[..|left|] == left;
    r := MergeAdjacentIntervals(StableSort(result, StartLeq));
  }

  ghost predicate CoversAny(l: seq<Interval>, t: int) {
    exists x :: x in l && Within(x, t)
  }

  lemma {:induction false} RowCovers(a: Interval, right: seq<Interval>, t: int, state: State)
    ensures Proper(Row(a, right))
    ensures Covers(Row(a, right), t, state) <==> Within(a, t) && a.state == state && CoversAny(right, t)
  {
    if right != [] {
      var front, b := right[..|right| - 1], right[|right| - 1];
      assert right == front + [b];
      RowCovers(a, front, t, state);
      CoversConcat(Row(a, front), Overlap(a, b), t, state);
      assert Covers(Overlap(a, b), t, state) <==> Within(a, t) && Within(b, t) && a.state == state by {
        if Within(a, t) && Within(b, t) && a.state == state { assert Overlap(a, b)[0] in Overlap(a, b); }
      }
      assert CoversAny(right, t) <==> CoversAny(front, t) || Within(b, t) by {
        if CoversAny(front, t) { var y :| y in front && Within(y, t); assert y in right; }
        if Within(b, t) { assert b in right; }
      }
    }
  }

  lemma {:induction false} PiecesCover(left: seq<Interval>, right: seq<Interval>, t: int, state: State)
    ensures Proper(Pieces(left, right))
    ensures Covers(Pieces(left, right), t, state) <==> Covers(left, t, state) && CoversAny(right, t)
  {
    if left != [] {
      var front, a := left[..|left| - 1], left[|left| - 1];
      assert left == front + [a];
      PiecesCover(front, right, t, state);
      RowCovers(a, right, t, state);
      CoversConcat(Pieces(front, right), Row(a, right), t, state);
      CoversAppend(front, a, t, state);
    }
  }

  /** The intersection has the left state exactly where both inputs have an interval. */
  lemma IntersectCovers(left: seq<Interval>, right: seq<Interval>)
    ensures Proper(Intersect(left, right))
    ensures forall t, state :: Covers(Intersect(left, right), t, state) <==> Covers(left, t, state) && CoversAny(right, t)
  {
    var pieces := Pieces(left, right);
    var sorted := StableSort(pieces, StartLeq);
    PiecesCover(left, right, 0, Idle);
    SameMultisetSameMembers(sorted, pieces);
    MergeSum(sorted);
    forall t, state ensures Covers(Intersect(left, right), t, state) <==> Covers(left, t, state) && CoversAny(right, t) {
      PiecesCover(left, right, t, state);
      MergeCovers(sorted, t, state);
      assert Covers(sorted, t, state) <==> Covers(pieces, t, state);
    }
  }
}
