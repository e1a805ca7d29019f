/**
 The four durations of the shadow aggregation. Each is shown to count exactly the
 milliseconds at which the reference states satisfy the defining condition, so their
 order relations, and their independence from input order, hold for every input.
 */
module ShadowAggregation {
  import opened Wrappers
  import opened Sorting
  import opened AgentEvents
  import I = Intervals

  type Interval = I.Interval
  type Observation = I.Observation
  type State = I.State

  // ------------------------------------------------------------ durations as numbers of milliseconds

  ghost function Range(a: int, b: int): (r: set<int>)
    ensures forall t :: t in r <==> a <= t < b
    ensures |r| == if a <= b then b - a else 0
    decreases b - a
  {
    if a >= b then {} else Range(a, b - 1) + {b - 1}
  }

  /** The milliseconds an interval list covers. */
  ghost function Points(l: seq<Interval>): set<int> {
    if l == [] then {} else Points(l[..|l| - 1]) + Range(l[|l| - 1].startMs, l[|l| - 1].endMs)
  }

  lemma {:induction false} PointsAreCovered(l: seq<Interval>, t: int)
    ensures t in Points(l) <==> I.CoversAny(l, t)
  {
    if l != [] {
      var front, last := l[..|l| - 1], l[|l| - 1];
      assert l == front + [last];
      PointsAreCovered(front, t);
      if I.CoversAny(front, t) { var x :| x in front && I.Within(x, t); assert x in l; }
      if I.Within(last, t) { assert last in l; }
    }
  }

  lemma PointsEndBefore(l: seq<Interval>, bound: int)
    requires forall i | 0 <= i < |l| :: l[i].endMs <= bound
    ensures forall t | t in Points(l) :: t < bound
  {
    forall t | t in Points(l) ensures t < bound {
      PointsAreCovered(l, t);
      var x :| x in l && I.Within(x, t);
      var i :| 0 <= i < |l| && l[i] == x;
    }
  }

  /** The duration of a separated list is the number of milliseconds it covers. */
  lemma {:induction false} SumIsMeasure(l: seq<Interval>)
    requires I.Proper(l) && I.Separated(l)
    ensures I.SumDuration(l) == |Points(l)|
  {
    if l != [] {
      var front, last := l[..|l| - 1], l[|l| - 1];
      I.ProperFront(l);
      SumIsMeasure(front);
      PointsEndBefore(front, last.startMs);
      assert Points(front) !! Range(last.startMs, last.endMs);
    }
  }

  // ------------------------------------------------------------ selecting states

  function Select(l: seq<Interval>, states: set<State>): seq<Interval> {
    if l == [] then []
    else Select(l[..|l| - 1], states) + (if l[|l| - 1].state in states then [l[|l| - 1]] else [])
  }

  lemma {:induction false} SelectMembers(l: seq<Interval>, states: set<State>)
    ensures forall x | x in Select(l, states) :: x in l && x.state in states
    ensures forall x | x in l && x.state in states :: x in Select(l, states)
  {
    if l != [] {
      assert l == l[..|l| - 1] + [l[|l| - 1]];
      SelectMembers(l[..|l| - 1], states);
    }
  }

  lemma {:induction false} SelectEndsBefore(l: seq<Interval>, states: set<State>, bound: int)
    requires forall i | 0 <= i < |l| :: l[i].endMs <= bound
    ensures forall x | x in Select(l, states) :: x.endMs <= bound
  {
    if l != [] { SelectEndsBefore(l[..|l| - 1], states, bound); }
  }

  lemma {:induction false} SelectSeparated(l: seq<Interval>, states: set<State>)
    requires I.Proper(l) && I.Separated(l)
    ensures I.Proper(Select(l, states)) && I.Separated(Select(l, states))
  {
    if l != [] {
      var front, last := l[..|l| - 1], l[|l| - 1];
      I.ProperFront(l);
      SelectSeparated(front, states);
      if last.state in states {
        SelectEndsBefore(front, states, last.startMs);
        SeparatedAppend(Select(front, states), last);
      } else {
        assert Select(l, states) == Select(front, states);
      }
    }
  }

  lemma SeparatedAppend(l: seq<Interval>, x: Interval)
    requires I.Proper(l) && I.Separated(l) && x.startMs < x.endMs
    requires forall y | y in l :: y.endMs <= x.startMs
    ensures I.Proper(l + [x]) && I.Separated(l + [x])
  {
    var r := l + [x];
    forall i, j | 0 <= i < j < |r| ensures r[i].endMs <= r[j].startMs {
      assert r[i] == l[i] && l[i] in l;
    }
  }

  lemma SelectCovers(l: seq<Interval>, states: set<State>, t: int)
    ensures I.CoversAny(Select(l, states), t) <==> exists state :: state in states && I.Covers(l, t, state)
  {
    SelectMembers(l, states);
    if I.CoversAny(Select(l, states), t) {
      var x :| x in Select(l, states) && I.Within(x, t);
      assert I.Covers(l, t, x.state);
    }
    if exists state :: state in states && I.Covers(l, t, state) {
      var state :| state in states && I.Covers(l, t, state);
      var x :| x in l && I.Within(x, t) && x.state == state;
      assert x in Select(l, states);
    }
  }

  // ------------------------------------------------------------ the intersection is separated

  /** Two different positions never cover the same millisecond, said so that it survives reordering. */
  ghost predicate DisjointMembers(l: seq<Interval>) {
    && (forall x | x in l :: multiset(l)[x] == 1)
    && (forall x, y, t | x in l && y in l && x != y :: !(I.Within(x, t) && I.Within(y, t)))
  }

  lemma {:induction false} RepeatedPositions<T>(l: seq<T>, x: T) returns (i: nat, j: nat)
    requires multiset(l)[x] >= 2
    ensures i < j < |l| && l[i] == x && l[j] == x
  {
    var front, last := l[..|l| - 1], l[|l| - 1];
    assert l == front + [last];
    if last == x {
      assert x in front;
      i :| 0 <= i < |front| && front[i] == x;
      j := |l| - 1;
    } else {
      assert multiset(l)[x] == multiset(front)[x];
      i, j := RepeatedPositions(front, x);
    }
  }

  lemma DistinctPositionsDiffer(l: seq<Interval>, i: nat, j: nat)
    requires I.Proper(l) && I.Disjoint(l) && i < j < |l|
    ensures l[i] != l[j]
  {
    assert l[i] in l && I.Within(l[i], l[i].startMs);
    assert !(I.Within(l[i], l[i].startMs) && I.Within(l[j], l[i].startMs));
  }

  lemma DisjointToMembers(l: seq<Interval>)
    requires I.Proper(l) && I.Disjoint(l)
    ensures DisjointMembers(l)
  {
    forall x | x in l ensures multiset(l)[x] == 1 {
      assert I.Within(x, x.startMs);
      if multiset(l)[x] >= 2 {
        var i, j := RepeatedPositions(l, x);
        DistinctPositionsDiffer(l, i, j);
      }
    }
    forall x, y, t | x in l && y in l && x != y ensures !(I.Within(x, t) && I.Within(y, t)) {
      var i :| 0 <= i < |l| && l[i] == x;
      var j :| 0 <= j < |l| && l[j] == y;
      if i < j { assert !(I.Within(l[i], t) && I.Within(l[j], t)); }
      else { assert !(I.Within(l[j], t) && I.Within(l[i], t)); }
    }
  }

  lemma SortedDisjointIsSeparated(l: seq<Interval>)
    requires I.Proper(l) && DisjointMembers(l) && SortedBy(I.StartLeq, l)
    ensures I.Separated(l)
  {
    forall i, j | 0 <= i < j < |l| ensures l[i].endMs <= l[j].startMs {
      assert I.StartLeq(l[i], l[j]);
      assert l[i] in l && l[j] in l;
      PositionsDiffer(l, i, j);
      assert I.Within(l[j], l[j].startMs);
    }
  }

  lemma PositionsDiffer<T>(l: seq<T>, i: nat, j: nat)
    requires i < j < |l| && multiset(l)[l[i]] == 1
    ensures l[i] != l[j]
  {
    assert l == l[..j] + [l[j]] + l[j + 1..];
    assert l[i] in l[..j];
    assert multiset(l) == multiset(l[..j]) + multiset([l[j]]) + multiset(l[j + 1..]);
  }

  lemma {:induction false} RowInside(a: Interval, right: seq<Interval>)
    ensures forall x, t | x in I.Row(a, right) && I.Within(x, t) :: I.Within(a, t) && I.CoversAny(right, t)
  {
    if right != [] {
      var front, b := right[..|right| - 1], right[|right| - 1];
      assert right == front + [b];
      RowInside(a, front);
      forall x, t | x in I.Row(a, right) && I.Within(x, t) ensures I.Within(a, t) && I.CoversAny(right, t) {
        if x in I.Row(a, front) {
          var y :| y in front && I.Within(y, t);
          assert y in right;
        } else {
          assert x in I.Overlap(a, b) && b in right && I.Within(b, t);
        }
      }
    }
  }

  lemma DisjointFront(l: seq<Interval>)
    requires I.Disjoint(l) && l != []
    ensures I.Disjoint(l[..|l| - 1])
    ensures forall t, x | x in l[..|l| - 1] && I.Within(x, t) :: !I.Within(l[|l| - 1], t)
  {
    var front := l[..|l| - 1];
    forall i, j, t | 0 <= i < j < |front| ensures !(I.Within(front[i], t) && I.Within(front[j], t)) {
      assert !(I.Within(l[i], t) && I.Within(l[j], t));
    }
    forall t, x | x in front && I.Within(x, t) ensures !I.Within(l[|l| - 1], t) {
      var i :| 0 <= i < |front| && front[i] == x;
      assert !(I.Within(l[i], t) && I.Within(l[|l| - 1], t));
    }
  }

  lemma DisjointConcat(a: seq<Interval>, b: seq<Interval>)
    requires I.Disjoint(a) && I.Disjoint(b)
    requires forall x, y, t | x in a && y in b :: !(I.Within(x, t) && I.Within(y, t))
    ensures I.Disjoint(a + b)
  {
    var l := a + b;
    forall i, j, t | 0 <= i < j < |l| ensures !(I.Within(l[i], t) && I.Within(l[j], t)) {
      if j < |a| {
        assert !(I.Within(a[i], t) && I.Within(a[j], t));
      } else if i >= |a| {
        assert !(I.Within(b[i - |a|], t) && I.Within(b[j - |a|], t));
      } else {
        assert a[i] in a && b[j - |a|] in b;
      }
    }
  }

  lemma {:induction false} RowDisjoint(a: Interval, right: seq<Interval>)
    requires I.Disjoint(right)
    ensures I.Disjoint(I.Row(a, right))
  {
    if right != [] {
      var front, b := right[..|right| - 1], right[|right| - 1];
      DisjointFront(right);
      RowDisjoint(a, front);
      RowInside(a, front);
      forall x, y, t | x in I.Row(a, front) && y in I.Overlap(a, b) ensures !(I.Within(x, t) && I.Within(y, t)) {
        assert I.Within(x, t) ==> I.CoversAny(front, t);
        assert I.Within(y, t) ==> I.Within(b, t);
      }
      DisjointConcat(I.Row(a, front), I.Overlap(a, b));
    }
  }

  lemma {:induction false} PiecesDisjoint(left: seq<Interval>, right: seq<Interval>)
    requires I.Disjoint(left) && I.Disjoint(right)
    ensures I.Disjoint(I.Pieces(left, right))
    ensures forall x, t | x in I.Pieces(left, right) && I.Within(x, t) :: I.CoversAny(left, t)
  {
    if left != [] {
      var front, a := left[..|left| - 1], left[|left| - 1];
      assert left == front + [a];
      DisjointFront(left);
      PiecesDisjoint(front, right);
      RowDisjoint(a, right);
      RowInside(a, right);
      forall x, y, t | x in I.Pieces(front, right) && y in I.Row(a, right) ensures !(I.Within(x, t) && I.Within(y, t)) {
        assert I.Within(x, t) ==> I.CoversAny(front, t);
        assert I.Within(y, t) ==> I.Within(a, t);
      }
      DisjointConcat(I.Pieces(front, right), I.Row(a, right));
      forall x, t | x in I.Pieces(left, right) && I.Within(x, t) ensures I.CoversAny(left, t) {
        if x in I.Pieces(front, right) {
          var y :| y in front && I.Within(y, t);
          assert y in left;
        } else {
          assert a in left;
        }
      }
    }
  }

  /** On disjoint inputs the intersection is sorted, free of overlaps and maximal. */
  lemma IntersectIsSeparated(left: seq<Interval>, right: seq<Interval>)
    requires I.Disjoint(left) && I.Disjoint(right)
    ensures var r := I.Intersect(left, right); I.Proper(r) && I.Separated(r) && I.Maximal(r)
  {
    var pieces := I.Pieces(left, right);
    var sorted := StableSort(pieces, I.StartLeq);
    I.PiecesCover(left, right, 0, I.Idle);
    PiecesDisjoint(left, right);
    DisjointToMembers(pieces);
    SameMultisetSameMembers(sorted, pieces);
    StableSortSorted(pieces, I.StartLeq);
    SortedDisjointIsSeparated(sorted);
    I.MergeSum(sorted);
    I.MergeShape(sorted);
  }

  lemma SeparatedIsDisjoint(l: seq<Interval>)
    requires I.Separated(l)
    ensures I.Disjoint(l)
  {
  }

  // ------------------------------------------------------------ the aggregation service

  const AI_ELIGIBLE: set<State> := {I.AiProcessing, I.ToolProcessing}
  const VIEWABLE: set<State> := {I.ForegroundVisible}
  const RENDERED: set<State> := {I.ForegroundVisible, I.ForegroundNotVisible}

  datatype Aggregation = Aggregation(
    providerIntervals: seq<Interval>,
    viewabilityIntervals: seq<Interval>,
    qualifiedIntervals: seq<Interval>,
    renderedMs: int,
    viewableMs: int,
    aiEligibleMs: int,
    qualifiedMs: int)

  function Aggregate(provider: seq<Observation>, viewability: seq<Observation>, endMs: int): Result<Aggregation> {
    var providerIntervals := I.Aggregate(provider, endMs);
    if providerIntervals.Err? then Err(providerIntervals.error)
    else
      var viewabilityIntervals := I.Aggregate(viewability, endMs);
      if viewabilityIntervals.Err? then Err(viewabilityIntervals.error)
      else
        var qualified := I.Intersect(Select(providerIntervals.value, AI_ELIGIBLE), Select(viewabilityIntervals.value, VIEWABLE));
        Ok(Aggregation(
             providerIntervals.value,
             viewabilityIntervals.value,
             qualified,
             I.SumDuration(Select(viewabilityIntervals.value, RENDERED)),
             I.SumDuration(Select(viewabilityIntervals.value, VIEWABLE)),
             I.SumDuration(Select(providerIntervals.value, AI_ELIGIBLE)),
             I.SumDuration(Select(qualified, AI_ELIGIBLE))))
  }

  /** Aggregation fails exactly on a negative end or a negative timestamp. */
  lemma AggregateSucceedsIff(provider: seq<Observation>, viewability: seq<Observation>, endMs: int)
    ensures Aggregate(provider, viewability, endMs).Ok? <==>
              endMs >= 0 && forall e | e in provider || e in viewability :: e.atMs >= 0
  {
  }

  ghost predicate InState(events: seq<Observation>, t: int, states: set<State>) {
    I.LastAt(events, t).Some? && I.LastAt(events, t).value.state in states
  }

  /** The milliseconds before `endMs` at which the observation in force has one of these states. */
  ghost function MillisIn(events: seq<Observation>, states: set<State>, endMs: int): set<int> {
    set t | 0 <= t < endMs && InState(events, t, states)
  }

  lemma SelectedPoints(events: seq<Observation>, states: set<State>, endMs: int)
    requires I.Aggregate(events, endMs).Ok?
    ensures Points(Select(I.Aggregate(events, endMs).value, states)) == MillisIn(events, states, endMs)
  {
    var l := I.Aggregate(events, endMs).value;
    I.AggregateRefinesStepFunction(events, endMs);
    I.AggregateIsSeparated(events, endMs);
    forall t ensures t in Points(Select(l, states)) <==> t in MillisIn(events, states, endMs) {
      PointsAreCovered(Select(l, states), t);
      SelectCovers(l, states, t);
      if t in MillisIn(events, states, endMs) {
        assert I.Covers(l, t, I.LastAt(events, t).value.state);
      }
    }
  }

  lemma SelectedSum(events: seq<Observation>, states: set<State>, endMs: int)
    requires I.Aggregate(events, endMs).Ok?
    ensures I.SumDuration(Select(I.Aggregate(events, endMs).value, states)) == |MillisIn(events, states, endMs)|
  {
    I.AggregateIsSeparated(events, endMs);
    SelectSeparated(I.Aggregate(events, endMs).value, states);
    SumIsMeasure(Select(I.Aggregate(events, endMs).value, states));
    SelectedPoints(events, states, endMs);
  }

  lemma IntersectPoints(left: seq<Interval>, right: seq<Interval>, states: set<State>)
    requires forall x | x in left :: x.state in states
    ensures Points(Select(I.Intersect(left, right), states)) == Points(left) * Points(right)
  {
    I.IntersectCovers(left, right);
    var q := I.Intersect(left, right);
    forall t ensures t in Points(Select(q, states)) <==> t in Points(left) * Points(right) {
      PointsAreCovered(Select(q, states), t);
      SelectCovers(q, states, t);
      PointsAreCovered(left, t);
      PointsAreCovered(right, t);
      if I.CoversAny(left, t) && I.CoversAny(right, t) {
        var x :| x in left && I.Within(x, t);
        assert I.Covers(left, t, x.state) && I.Covers(q, t, x.state);
      }
    }
  }

  lemma QualifiedSum(provider: seq<Observation>, viewability: seq<Observation>, endMs: int)
    requires Aggregate(provider, viewability, endMs).Ok?
    ensures Aggregate(provider, viewability, endMs).value.qualifiedMs
         == |MillisIn(provider, AI_ELIGIBLE, endMs) * MillisIn(viewability, VIEWABLE, endMs)|
  {
    var left := Select(I.Aggregate(provider, endMs).value, AI_ELIGIBLE);
    var right := Select(I.Aggregate(viewability, endMs).value, VIEWABLE);
    I.AggregateIsSeparated(provider, endMs);
    I.AggregateIsSeparated(viewability, endMs);
    SelectSeparated(I.Aggregate(provider, endMs).value, AI_ELIGIBLE);
    SelectSeparated(I.Aggregate(viewability, endMs).value, VIEWABLE);
    SeparatedIsDisjoint(left);
    SeparatedIsDisjoint(right);
    IntersectIsSeparated(left, right);
    var q := I.Intersect(left, right);
    SelectSeparated(q, AI_ELIGIBLE);
    SumIsMeasure(Select(q, AI_ELIGIBLE));
    SelectMembers(I.Aggregate(provider, endMs).value, AI_ELIGIBLE);
    IntersectPoints(left, right, AI_ELIGIBLE);
    SelectedPoints(provider, AI_ELIGIBLE, endMs);
    SelectedPoints(viewability, VIEWABLE, endMs);
  }

  /**
   Each duration counts exactly the milliseconds before `endMs` that deserve it; the
   qualified ones are those at which the agent was working and the surface was visible.
   */
  lemma DurationsCountMilliseconds(provider: seq<Observation>, viewability: seq<Observation>, endMs: int)
    requires Aggregate(provider, viewability, endMs).Ok?
    ensures var r := Aggregate(provider, viewability, endMs).value;
            && r.renderedMs == |MillisIn(viewability, RENDERED, endMs)|
            && r.viewableMs == |MillisIn(viewability, VIEWABLE, endMs)|
            && r.aiEligibleMs == |MillisIn(provider, AI_ELIGIBLE, endMs)|
            && r.qualifiedMs == |MillisIn(provider, AI_ELIGIBLE, endMs) * MillisIn(viewability, VIEWABLE, endMs)|
  {
    SelectedSum(viewability, RENDERED, endMs);
    SelectedSum(viewability, VIEWABLE, endMs);
    SelectedSum(provider, AI_ELIGIBLE, endMs);
    QualifiedSum(provider, viewability, endMs);
  }

  lemma SelectedCover(events: seq<Observation>, states: set<State>, endMs: int, t: int, state: State)
    requires I.Aggregate(events, endMs).Ok?
    ensures var l := I.Aggregate(events, endMs).value;
            && (I.Covers(l, t, state) <==> t < endMs && InState(events, t, {state}))
            && (I.Covers(Select(l, states), t, state) <==> I.Covers(l, t, state) && state in states)
            && (I.CoversAny(Select(l, states), t) <==> t < endMs && InState(events, t, states))
  {
    var l := I.Aggregate(events, endMs).value;
    I.AggregateRefinesStepFunction(events, endMs);
    SelectMembers(l, states);
    SelectCovers(l, states, t);
    if t < endMs && InState(events, t, states) {
      assert I.Covers(l, t, I.LastAt(events, t).value.state);
    }
  }

  /** The three lists beside the durations cover the times of working, of showing, and of working while visible. */
  lemma IntervalsCover(provider: seq<Observation>, viewability: seq<Observation>, endMs: int, t: int, state: State)
    requires Aggregate(provider, viewability, endMs).Ok?
    ensures var r := Aggregate(provider, viewability, endMs).value;
            && (I.Covers(r.providerIntervals, t, state) <==> t < endMs && InState(provider, t, {state}))
            && (I.Covers(r.viewabilityIntervals, t, state) <==> t < endMs && InState(viewability, t, {state}))
            && (I.Covers(r.qualifiedIntervals, t, state) <==>
                  && t < endMs
                  && state in {I.AiProcessing, I.ToolProcessing}
                  && InState(provider, t, {state})
                  && InState(viewability, t, {I.ForegroundVisible}))
  {
    SelectedCover(provider, AI_ELIGIBLE, endMs, t, state);
    SelectedCover(viewability, VIEWABLE, endMs, t, state);
    I.IntersectCovers(
      Select(I.Aggregate(provider, endMs).value, AI_ELIGIBLE), Select(I.Aggregate(viewability, endMs).value, VIEWABLE));
  }

  /** Each list is in order, without overlaps, and as long as its stretches of one state go. */
  lemma IntervalsAreMaximal(provider: seq<Observation>, viewability: seq<Observation>, endMs: int)
    requires Aggregate(provider, viewability, endMs).Ok?
    ensures var r := Aggregate(provider, viewability, endMs).value;
            && I.Separated(r.providerIntervals) && I.Maximal(r.providerIntervals)
            && I.Separated(r.viewabilityIntervals) && I.Maximal(r.viewabilityIntervals)
            && I.Separated(r.qualifiedIntervals) && I.Maximal(r.qualifiedIntervals)
  {
    var left := Select(I.Aggregate(provider, endMs).value, AI_ELIGIBLE);
    var right := Select(I.Aggregate(viewability, endMs).value, VIEWABLE);
    I.AggregateIsSeparated(provider, endMs);
    I.AggregateIsSeparated(viewability, endMs);
    SelectSeparated(I.Aggregate(provider, endMs).value, AI_ELIGIBLE);
    SelectSeparated(I.Aggregate(viewability, endMs).value, VIEWABLE);
    SeparatedIsDisjoint(left);
    SeparatedIsDisjoint(right);
    IntersectIsSeparated(left, right);
  }

  lemma SubsetSize(a: set<int>, b: set<int>)
    requires a <= b
    ensures |a| <= |b|
  {
    assert b == a + (b - a);
    assert a !! (b - a);
  }

  /** Qualified time is within viewable and AI-eligible time, viewable within rendered, and everything within `endMs`. */
  lemma DurationsAreOrdered(provider: seq<Observation>, viewability: seq<Observation>, endMs: int)
    requires Aggregate(provider, viewability, endMs).Ok?
    ensures var r := Aggregate(provider, viewability, endMs).value;
            && 0 <= r.qualifiedMs <= r.viewableMs <= r.renderedMs <= endMs
            && r.qualifiedMs <= r.aiEligibleMs <= endMs
  {
    DurationsCountMilliseconds(provider, viewability, endMs);
    var ai, viewable, rendered := MillisIn(provider, AI_ELIGIBLE, endMs), MillisIn(viewability, VIEWABLE, endMs), MillisIn(viewability, RENDERED, endMs);
    SubsetSize(ai * viewable, ai);
    SubsetSize(ai * viewable, viewable);
    SubsetSize(viewable, rendered);
    SubsetSize(rendered, Range(0, endMs));
    SubsetSize(ai, Range(0, endMs));
  }

  // ------------------------------------------------------------ canonical events

  predicate IsToolFamily(s: string) {
    s in {"shell", "editor", "file", "search", "test", "network", "mcp", "other"}
  }

  type ToolFamily = s: string | IsToolFamily(s) witness "other"

  /** Parts per million, rounded down. */
  type Ppm = n: int | 0 <= n <= 1_000_000

  /** An event with its client-stamped execution context, its tool family and the confidence in its classification. */
  datatype CanonicalEvent = CanonicalEvent(event: Event, headless: bool, toolFamily: Option<ToolFamily>, confidencePpm: Ppm)

  type ViewOrder = n: nat | n < MAX_SAFE_INTEGER

  datatype ViewabilityEvent = ViewabilityEvent(atMs: int, order: Option<ViewOrder>, state: State)

  /** Headless work is never human attention. */
  function StateForEvent(e: CanonicalEvent): State {
    if e.headless then I.Idle
    else match e.event.eventType
      case TurnSubmitted | UserInteracted => I.UserActive
      case TurnProcessingStarted | InputResolved | PermissionAllowed | ToolSucceeded | ToolFailed | ToolBatchCompleted
        | SubagentStarted | SubagentStopped | TaskCreated | TaskCompleted | TaskFailed => I.AiProcessing
      case ToolStarted => I.ToolProcessing
      case InputRequired | PermissionRequired => I.UserInputRequired
      case UserForegrounded => I.UnknownState
      case _ => I.Idle
  }

  predicate CanonicalLeq(a: CanonicalEvent, b: CanonicalEvent) {
    EventLeq(a.event, b.event)
  }

  /** Any fixed order of the state names; only its totality matters. */
  function StateRank(s: State): nat {
    match s
    case Background => 0
    case DeviceLocked => 1
    case Disconnected => 2
    case ForegroundNotVisible => 3
    case ForegroundVisible => 4
    case NotViewable => 5
    case AiProcessing => 6
    case Idle => 7
    case ToolProcessing => 8
    case UnknownState => 9
    case UserActive => 10
    case UserInputRequired => 11
  }

  function OrderOrMax(order: Option<ViewOrder>): nat {
    match order
    case Some(n) => n
    case None => MAX_SAFE_INTEGER
  }

  predicate ViewabilityLeq(a: ViewabilityEvent, b: ViewabilityEvent) {
    if a.atMs != b.atMs then a.atMs < b.atMs
    else if OrderOrMax(a.order) != OrderOrMax(b.order) then OrderOrMax(a.order) < OrderOrMax(b.order)
    else StateRank(a.state) <= StateRank(b.state)
  }

  function ProviderObservations(ordered: seq<CanonicalEvent>): seq<Observation> {
    seq(|ordered|, i requires 0 <= i < |ordered| => I.Observation(ordered[i].event.occurredAt, StateForEvent(ordered[i])))
  }

  function ViewabilityObservations(ordered: seq<ViewabilityEvent>): seq<Observation> {
    seq(|ordered|, i requires 0 <= i < |ordered| => I.Observation(ordered[i].atMs, ordered[i].state))
  }

  function AggregateCanonicalEvents(events: seq<CanonicalEvent>, viewability: seq<ViewabilityEvent>, endMs: int): Result<Aggregation> {
    Aggregate(
      ProviderObservations(StableSort(events, CanonicalLeq)),
      ViewabilityObservations(StableSort(viewability, ViewabilityLeq)),
      endMs)
  }

  /** The viewability a lifecycle event proves, if any; only a visible surface starts viewable time. */
  function ViewabilityFor(t: EventType): Option<State> {
    match t
    case SurfaceVisible => Some(I.ForegroundVisible)
    case SurfaceHidden | UserForegrounded | DeviceUnlocked | IntegrationConnected => Some(I.ForegroundNotVisible)
    case UserBackgrounded => Some(I.Background)
    case DeviceLocked => Some(I.DeviceLocked)
    case IntegrationDisconnected => Some(I.Disconnected)
    case _ => None
  }

  function ProjectViewability(ordered: seq<CanonicalEvent>): (r: seq<ViewabilityEvent>)
    requires |ordered| < MAX_SAFE_INTEGER
  {
    if ordered == [] then []
    else
      var last := |ordered| - 1;
      ProjectViewability(ordered[..last]) +
      match ViewabilityFor(ordered[last].event.eventType)
      case None => []
      case Some(state) => [ViewabilityEvent(ordered[last].event.occurredAt, Some(last), state)]
  }

  function ViewabilityEventsForCanonicalEvents(events: seq<CanonicalEvent>): seq<ViewabilityEvent>
    requires |events| < MAX_SAFE_INTEGER
  {
    ProjectViewability(StableSort(events, CanonicalLeq))
  }

  ghost predicate DistinctIds(events: seq<CanonicalEvent>) {
    forall a, b | a in events && b in events && a != b :: a.event.eventId != b.event.eventId
  }

  lemma CanonicalOrder(events: seq<CanonicalEvent>)
    requires DistinctIds(events)
    ensures TotalOn(CanonicalLeq, events) && TransitiveOn(CanonicalLeq, events) && AntisymmetricOn(CanonicalLeq, events)
  {
    forall a, b | a in events && b in events ensures CanonicalLeq(a, b) || CanonicalLeq(b, a) {
      GateAgreesWithQueryOrder(a.event, b.event);
    }
    forall a, b | a in events && b in events && CanonicalLeq(a, b) && CanonicalLeq(b, a) ensures a == b {
      GateAgreesWithQueryOrder(a.event, b.event);
    }
  }

  lemma ViewabilityTies(a: ViewabilityEvent, b: ViewabilityEvent)
    requires ViewabilityLeq(a, b) && ViewabilityLeq(b, a)
    ensures a == b
  {
    assert a.state == b.state;
  }

  lemma ViewabilityOrder(events: seq<ViewabilityEvent>)
    ensures TotalOn(ViewabilityLeq, events) && TransitiveOn(ViewabilityLeq, events) && AntisymmetricOn(ViewabilityLeq, events)
  {
    forall a, b | a in events && b in events && ViewabilityLeq(a, b) && ViewabilityLeq(b, a) ensures a == b {
      ViewabilityTies(a, b);
    }
  }

  /** Permuting either event list does not change the aggregation. */
  lemma CanonicalAggregationIgnoresOrder(
    a: seq<CanonicalEvent>, b: seq<CanonicalEvent>, v: seq<ViewabilityEvent>, w: seq<ViewabilityEvent>, endMs: int)
    requires multiset(a) == multiset(b) && multiset(v) == multiset(w) && DistinctIds(a)
    ensures AggregateCanonicalEvents(a, v, endMs) == AggregateCanonicalEvents(b, w, endMs)
  {
    CanonicalOrder(a);
    ViewabilityOrder(v);
    SortForgetsOrder(a, b, CanonicalLeq);
    SortForgetsOrder(v, w, ViewabilityLeq);
  }

  /** Permuting a session's events changes neither its viewability projection nor the aggregation of the two. */
  lemma SessionAggregationIgnoresOrder(a: seq<CanonicalEvent>, b: seq<CanonicalEvent>, endMs: int)
    requires multiset(a) == multiset(b) && DistinctIds(a) && |a| < MAX_SAFE_INTEGER && |b| < MAX_SAFE_INTEGER
    ensures ViewabilityEventsForCanonicalEvents(a) == ViewabilityEventsForCanonicalEvents(b)
    ensures AggregateCanonicalEvents(a, ViewabilityEventsForCanonicalEvents(a), endMs)
         == AggregateCanonicalEvents(b, ViewabilityEventsForCanonicalEvents(b), endMs)
  {
    CanonicalOrder(a);
    SortForgetsOrder(a, b, CanonicalLeq);
  }

  lemma HeadlessNeverWorks(ordered: seq<CanonicalEvent>, t: int)
    requires forall i | 0 <= i < |ordered| :: ordered[i].headless
    ensures !InState(ProviderObservations(ordered), t, AI_ELIGIBLE)
  {
    var provider := ProviderObservations(ordered);
    I.LastAtIsLast(provider, t);
    if I.LastAt(provider, t).Some? {
      var i :| I.IsLastAt(provider, t, i) && provider[i] == I.LastAt(provider, t).value;
      assert provider[i].state == I.Idle;
    }
  }

  /** A session whose events are all headless has no qualified time. */
  lemma HeadlessNeverQualifies(events: seq<CanonicalEvent>, viewability: seq<ViewabilityEvent>, endMs: int)
    requires forall e | e in events :: e.headless
    requires AggregateCanonicalEvents(events, viewability, endMs).Ok?
    ensures AggregateCanonicalEvents(events, viewability, endMs).value.aiEligibleMs == 0
    ensures AggregateCanonicalEvents(events, viewability, endMs).value.qualifiedMs == 0
  {
    var ordered := StableSort(events, CanonicalLeq);
    var provider := ProviderObservations(ordered);
    SameMultisetSameMembers(ordered, events);
    forall t ensures !InState(provider, t, AI_ELIGIBLE) {
      HeadlessNeverWorks(ordered, t);
    }
    NeverInStateNoMillis(provider, AI_ELIGIBLE, endMs);
    DurationsCountMilliseconds(provider, ViewabilityObservations(StableSort(viewability, ViewabilityLeq)), endMs);
  }

  lemma NeverInStateNoMillis(events: seq<Observation>, states: set<State>, endMs: int)
    requires forall t :: !InState(events, t, states)
    ensures MillisIn(events, states, endMs) == {}
  {
  }
}
