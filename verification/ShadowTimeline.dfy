/**
 What the four durations of a session mean in terms of its events alone: no sort, no
 interval and no projection, only which event is in force at which millisecond.
 */
module ShadowTimeline {
  import opened Wrappers
  import opened Sorting
  import opened AgentEvents
  import opened ShadowAggregation
  import I = Intervals

  /** The events about the surface: its own, those of the focus, the lock and the connection. */
  predicate AboutSurface(e: CanonicalEvent) {
    e.event.eventType in {
      SurfaceVisible, SurfaceHidden, UserForegrounded, UserBackgrounded, DeviceLocked, DeviceUnlocked,
      IntegrationConnected, IntegrationDisconnected}
  }

  /** Only an event of the surface itself shows it. */
  predicate ShowsIt(e: CanonicalEvent) {
    e.event.eventType == SurfaceVisible
  }

  /** The events after which it is rendered, shown or not. */
  predicate RendersIt(e: CanonicalEvent) {
    e.event.eventType in {SurfaceVisible, SurfaceHidden, UserForegrounded, DeviceUnlocked, IntegrationConnected}
  }

  /** Which events the projection reads, and what it makes of each. */
  lemma ProjectionReads(e: CanonicalEvent)
    ensures ViewabilityFor(e.event.eventType).Some? <==> AboutSurface(e)
    ensures AboutSurface(e) ==> (ViewabilityFor(e.event.eventType).value in VIEWABLE <==> ShowsIt(e))
    ensures AboutSurface(e) ==> (ViewabilityFor(e.event.eventType).value in RENDERED <==> RendersIt(e))
    ensures AboutSurface(e) ==> (ViewabilityFor(e.event.eventType) == Some(I.Background) <==> e.event.eventType == UserBackgrounded)
    ensures AboutSurface(e) ==> (ViewabilityFor(e.event.eventType) == Some(I.DeviceLocked) <==> e.event.eventType == DeviceLocked)
    ensures AboutSurface(e) ==> (ViewabilityFor(e.event.eventType) == Some(I.Disconnected) <==> e.event.eventType == IntegrationDisconnected)
  {
  }

  /** What each provider event means: the user's own activity, work, a tool's work, a wait for the user, nothing known, or idleness. */
  lemma ProviderStates(e: CanonicalEvent)
    ensures StateForEvent(e) == I.UserActive <==> !e.headless && e.event.eventType in {TurnSubmitted, UserInteracted}
    ensures StateForEvent(e) == I.ToolProcessing <==> !e.headless && e.event.eventType == ToolStarted
    ensures StateForEvent(e) == I.AiProcessing <==> IsWork(e) && e.event.eventType != ToolStarted
    ensures StateForEvent(e) == I.UserInputRequired <==> !e.headless && e.event.eventType in {InputRequired, PermissionRequired}
    ensures StateForEvent(e) == I.UnknownState <==> !e.headless && e.event.eventType == UserForegrounded
  {
  }

  predicate Any(e: CanonicalEvent) {
    true
  }

  /** The greatest of the events of a kind at or before `t`, in the session order. */
  ghost predicate InForce(events: seq<CanonicalEvent>, e: CanonicalEvent, t: int, kind: CanonicalEvent -> bool) {
    && e in events && kind(e) && e.event.occurredAt <= t
    && forall f | f in events && kind(f) && f.event.occurredAt <= t :: CanonicalLeq(f, e)
  }

  /** The agent works after a tool, subagent or task event, a start of processing, or an answer it waited for, unless headless. */
  predicate IsWork(e: CanonicalEvent) {
    !e.headless && (
      KindOf(e.event.eventType) in {Some(Tool), Some(Subagent), Some(Task)}
      || e.event.eventType in {TurnProcessingStarted, InputResolved, PermissionAllowed})
  }

  lemma WorkIsEligible(e: CanonicalEvent)
    ensures StateForEvent(e) in AI_ELIGIBLE <==> IsWork(e)
  {
  }

  ghost predicate Working(events: seq<CanonicalEvent>, t: int) {
    exists e :: InForce(events, e, t, Any) && IsWork(e)
  }

  /** The latest event about the surface is one of these. */
  ghost predicate Showing(events: seq<CanonicalEvent>, t: int, shows: CanonicalEvent -> bool) {
    exists e :: InForce(events, e, t, AboutSurface) && shows(e)
  }

  ghost predicate ShowingState(events: seq<CanonicalEvent>, t: int, states: set<State>) {
    exists e :: InForce(events, e, t, Proves) && ViewabilityFor(e.event.eventType).value in states
  }

  // ------------------------------------------------------------ provider events

  lemma InForceUnique(events: seq<CanonicalEvent>, a: CanonicalEvent, b: CanonicalEvent, t: int, kind: CanonicalEvent -> bool)
    requires DistinctIds(events) && InForce(events, a, t, kind) && InForce(events, b, t, kind)
    ensures a == b
  {
    CanonicalOrder(events);
  }

  lemma InOrder(ordered: seq<CanonicalEvent>, i: nat, j: nat)
    requires i < |ordered| && j < |ordered| && SortedBy(CanonicalLeq, ordered)
    ensures i <= j ==> CanonicalLeq(ordered[i], ordered[j])
  {
  }

  /** The last observation at `t` is that of the event in force. */
  lemma LastIsInForce(events: seq<CanonicalEvent>, ordered: seq<CanonicalEvent>, t: int, i: int)
    requires DistinctIds(events) && multiset(ordered) == multiset(events) && SortedBy(CanonicalLeq, ordered)
    requires I.IsLastAt(ProviderObservations(ordered), t, i)
    ensures InForce(events, ordered[i], t, Any)
  {
    SameMultisetSameMembers(ordered, events);
    CanonicalOrder(events);
    var e := ordered[i];
    assert e in ordered && e in events;
    forall f | f in events && f.event.occurredAt <= t ensures CanonicalLeq(f, e) {
      var j :| 0 <= j < |ordered| && ordered[j] == f;
      assert ProviderObservations(ordered)[j].atMs == f.event.occurredAt;
      InOrder(ordered, i, j);
      InOrder(ordered, j, i);
    }
  }

  lemma ProviderInState(events: seq<CanonicalEvent>, t: int)
    requires DistinctIds(events)
    ensures InState(ProviderObservations(StableSort(events, CanonicalLeq)), t, AI_ELIGIBLE) <==> Working(events, t)
  {
    var ordered := StableSort(events, CanonicalLeq);
    var provider := ProviderObservations(ordered);
    CanonicalOrder(events);
    StableSortSorted(events, CanonicalLeq);
    SameMultisetSameMembers(ordered, events);
    I.LastAtIsLast(provider, t);
    if I.LastAt(provider, t).Some? {
      var i :| I.IsLastAt(provider, t, i) && provider[i] == I.LastAt(provider, t).value;
      LastIsInForce(events, ordered, t, i);
      WorkIsEligible(ordered[i]);
      forall e | InForce(events, e, t, Any) ensures e == ordered[i] {
        InForceUnique(events, e, ordered[i], t, Any);
      }
    } else {
      forall e | e in events ensures e.event.occurredAt > t {
        var j :| 0 <= j < |ordered| && ordered[j] == e;
        assert provider[j].atMs == e.event.occurredAt;
      }
    }
  }

  // ------------------------------------------------------------ viewability events

  predicate Proves(e: CanonicalEvent) {
    ViewabilityFor(e.event.eventType).Some?
  }

  /** Each projected observation belongs to the event at its order, orders ascend, and no proving event is missed. */
  lemma {:induction false} ProjectionShape(ordered: seq<CanonicalEvent>)
    requires |ordered| < MAX_SAFE_INTEGER
    ensures forall p | 0 <= p < |ProjectViewability(ordered)| :: BelongsTo(ProjectViewability(ordered)[p], ordered)
    ensures forall p, q | 0 <= p < q < |ProjectViewability(ordered)| ::
              OrderOrMax(ProjectViewability(ordered)[p].order) < OrderOrMax(ProjectViewability(ordered)[q].order)
    ensures forall k | 0 <= k < |ordered| && Proves(ordered[k]) ::
              exists p :: 0 <= p < |ProjectViewability(ordered)| && ProjectViewability(ordered)[p].order == Some(k)
  {
    if ordered != [] {
      var last := |ordered| - 1;
      var front := ordered[..last];
      var before, all := ProjectViewability(front), ProjectViewability(ordered);
      ProjectionShape(front);
      forall p | 0 <= p < |all| ensures BelongsTo(all[p], ordered) {
        if p < |before| { assert all[p] == before[p] && BelongsTo(before[p], front); }
      }
      forall k | 0 <= k < |ordered| && Proves(ordered[k]) ensures exists p :: 0 <= p < |all| && all[p].order == Some(k) {
        if k < last {
          assert Proves(front[k]);
          var p :| 0 <= p < |before| && before[p].order == Some(k);
          assert all[p].order == Some(k);
        } else {
          assert all[|before|].order == Some(k);
        }
      }
      forall p, q | 0 <= p < q < |all| ensures OrderOrMax(all[p].order) < OrderOrMax(all[q].order) {
        assert all[p] == before[p] && BelongsTo(before[p], front);
        if q < |before| { assert all[q] == before[q]; }
      }
    }
  }

  /** The observation is that of the proving event at its order. */
  ghost predicate BelongsTo(v: ViewabilityEvent, ordered: seq<CanonicalEvent>) {
    && v.order.Some? && v.order.value < |ordered|
    && v.atMs == ordered[v.order.value].event.occurredAt
    && ViewabilityFor(ordered[v.order.value].event.eventType) == Some(v.state)
  }

  /** The projection of sorted events is sorted already. */
  lemma ProjectionIsSorted(ordered: seq<CanonicalEvent>)
    requires |ordered| < MAX_SAFE_INTEGER && SortedBy(CanonicalLeq, ordered)
    ensures StableSort(ProjectViewability(ordered), ViewabilityLeq) == ProjectViewability(ordered)
  {
    var v := ProjectViewability(ordered);
    ProjectionShape(ordered);
    forall p, q | 0 <= p < q < |v| ensures ViewabilityLeq(v[p], v[q]) {
      assert BelongsTo(v[p], ordered) && BelongsTo(v[q], ordered);
      assert CanonicalLeq(ordered[v[p].order.value], ordered[v[q].order.value]);
    }
    ViewabilityOrder(v);
    StableSortSorted(v, ViewabilityLeq);
    SortedUnique(v, StableSort(v, ViewabilityLeq), ViewabilityLeq);
  }

  lemma LastShownIsInForce(events: seq<CanonicalEvent>, ordered: seq<CanonicalEvent>, t: int, p: int)
    requires DistinctIds(events) && multiset(ordered) == multiset(events) && SortedBy(CanonicalLeq, ordered)
    requires |ordered| < MAX_SAFE_INTEGER && I.IsLastAt(ViewabilityObservations(ProjectViewability(ordered)), t, p)
    ensures BelongsTo(ProjectViewability(ordered)[p], ordered)
    ensures InForce(events, ordered[ProjectViewability(ordered)[p].order.value], t, Proves)
  {
    var v := ProjectViewability(ordered);
    var shown := ViewabilityObservations(v);
    SameMultisetSameMembers(ordered, events);
    CanonicalOrder(events);
    ProjectionShape(ordered);
    assert BelongsTo(v[p], ordered) && shown[p].atMs == v[p].atMs;
    var k := v[p].order.value;
    var e := ordered[k];
    assert e in ordered && e in events;
    forall f | f in events && Proves(f) && f.event.occurredAt <= t ensures CanonicalLeq(f, e) {
      var j :| 0 <= j < |ordered| && ordered[j] == f;
      var q :| 0 <= q < |v| && v[q].order == Some(j);
      assert BelongsTo(v[q], ordered);
      ShownNoLater(events, ordered, t, p, q);
    }
  }

  /** Of two observations at or before `t`, the one in force comes from the greater event. */
  lemma ShownNoLater(events: seq<CanonicalEvent>, ordered: seq<CanonicalEvent>, t: int, p: int, q: int)
    requires DistinctIds(events) && multiset(ordered) == multiset(events) && SortedBy(CanonicalLeq, ordered)
    requires |ordered| < MAX_SAFE_INTEGER && I.IsLastAt(ViewabilityObservations(ProjectViewability(ordered)), t, p)
    requires 0 <= q < |ProjectViewability(ordered)|
    requires BelongsTo(ProjectViewability(ordered)[p], ordered) && BelongsTo(ProjectViewability(ordered)[q], ordered)
    requires ProjectViewability(ordered)[q].atMs <= t
    ensures CanonicalLeq(ordered[ProjectViewability(ordered)[q].order.value], ordered[ProjectViewability(ordered)[p].order.value])
  {
    var v := ProjectViewability(ordered);
    var shown := ViewabilityObservations(v);
    assert shown[p].atMs == v[p].atMs && shown[q].atMs == v[q].atMs;
    ProjectionShape(ordered);
    var j, k := v[q].order.value, v[p].order.value;
    InOrder(ordered, j, k);
    InOrder(ordered, k, j);
  }

  lemma ViewabilityInState(events: seq<CanonicalEvent>, t: int, states: set<State>)
    requires DistinctIds(events) && |events| < MAX_SAFE_INTEGER
    ensures var v := ViewabilityEventsForCanonicalEvents(events);
            InState(ViewabilityObservations(StableSort(v, ViewabilityLeq)), t, states) <==> ShowingState(events, t, states)
  {
    var ordered := StableSort(events, CanonicalLeq);
    var v := ProjectViewability(ordered);
    var shown := ViewabilityObservations(v);
    CanonicalOrder(events);
    StableSortSorted(events, CanonicalLeq);
    SameMultisetSameMembers(ordered, events);
    ProjectionIsSorted(ordered);
    ProjectionShape(ordered);
    I.LastAtIsLast(shown, t);
    if I.LastAt(shown, t).Some? {
      var p :| I.IsLastAt(shown, t, p) && shown[p] == I.LastAt(shown, t).value;
      LastShownIsInForce(events, ordered, t, p);
      var e := ordered[v[p].order.value];
      forall f | InForce(events, f, t, Proves) ensures f == e {
        InForceUnique(events, f, e, t, Proves);
      }
    } else {
      forall e | e in events && Proves(e) ensures e.event.occurredAt > t {
        var j :| 0 <= j < |ordered| && ordered[j] == e;
        var q :| 0 <= q < |v| && v[q].order == Some(j);
        assert BelongsTo(v[q], ordered) && shown[q].atMs == v[q].atMs;
      }
    }
  }

  // ------------------------------------------------------------ the durations

  ghost function WorkingMillis(events: seq<CanonicalEvent>, endMs: int): set<int> {
    set t | t in Range(0, endMs) && Working(events, t)
  }

  ghost function ShowingMillis(events: seq<CanonicalEvent>, shows: CanonicalEvent -> bool, endMs: int): set<int> {
    set t | t in Range(0, endMs) && Showing(events, t, shows)
  }

  /**
   For a session's events in any order, each duration is a number of milliseconds before
   the end: eligible, when the latest event means work; viewable, when the latest of the
   events about the surface is `surface.visible`; rendered, when it is one after which the
   surface is rendered; qualified, when the first two hold at once.
   */
  lemma DurationsFromEvents(events: seq<CanonicalEvent>, endMs: int)
    requires DistinctIds(events) && |events| < MAX_SAFE_INTEGER
    requires AggregateCanonicalEvents(events, ViewabilityEventsForCanonicalEvents(events), endMs).Ok?
    ensures var r := AggregateCanonicalEvents(events, ViewabilityEventsForCanonicalEvents(events), endMs).value;
            && r.aiEligibleMs == |WorkingMillis(events, endMs)|
            && r.viewableMs == |ShowingMillis(events, ShowsIt, endMs)|
            && r.renderedMs == |ShowingMillis(events, RendersIt, endMs)|
            && r.qualifiedMs == |WorkingMillis(events, endMs) * ShowingMillis(events, ShowsIt, endMs)|
  {
    var provider := ProviderObservations(StableSort(events, CanonicalLeq));
    var shown := ViewabilityObservations(StableSort(ViewabilityEventsForCanonicalEvents(events), ViewabilityLeq));
    DurationsCountMilliseconds(provider, shown, endMs);
    WorkingAre(events, endMs);
    ShowingAre(events, VIEWABLE, ShowsIt, endMs);
    ShowingAre(events, RENDERED, RendersIt, endMs);
  }

  /** Focus, a connection or an unlocked device alone is no viewable time: without a visible surface there is none, and none qualifies. */
  lemma NothingShownWithoutSurface(events: seq<CanonicalEvent>, endMs: int)
    requires DistinctIds(events) && |events| < MAX_SAFE_INTEGER
    requires AggregateCanonicalEvents(events, ViewabilityEventsForCanonicalEvents(events), endMs).Ok?
    requires forall e | e in events :: e.event.eventType != SurfaceVisible
    ensures var r := AggregateCanonicalEvents(events, ViewabilityEventsForCanonicalEvents(events), endMs).value;
            r.viewableMs == 0 && r.qualifiedMs == 0
  {
    DurationsFromEvents(events, endMs);
    forall t ensures !Showing(events, t, ShowsIt) {
    }
    assert ShowingMillis(events, ShowsIt, endMs) == {};
    assert WorkingMillis(events, endMs) * ShowingMillis(events, ShowsIt, endMs) == {};
  }

  lemma WorkingAre(events: seq<CanonicalEvent>, endMs: int)
    requires DistinctIds(events)
    ensures WorkingMillis(events, endMs) == MillisIn(ProviderObservations(StableSort(events, CanonicalLeq)), AI_ELIGIBLE, endMs)
  {
    forall t | 0 <= t < endMs
      ensures InState(ProviderObservations(StableSort(events, CanonicalLeq)), t, AI_ELIGIBLE) <==> Working(events, t)
    {
      ProviderInState(events, t);
    }
  }

  /** `shows` is what having one of these states means. */
  ghost predicate Describes(shows: CanonicalEvent -> bool, states: set<State>) {
    forall e | AboutSurface(e) :: ViewabilityFor(e.event.eventType).Some? && (ViewabilityFor(e.event.eventType).value in states <==> shows(e))
  }

  lemma ShowingMeans(events: seq<CanonicalEvent>, t: int, states: set<State>, shows: CanonicalEvent -> bool)
    requires Describes(shows, states)
    ensures ShowingState(events, t, states) <==> Showing(events, t, shows)
  {
    forall e ensures Proves(e) <==> AboutSurface(e) {
      ProjectionReads(e);
    }
    forall e ensures InForce(events, e, t, Proves) <==> InForce(events, e, t, AboutSurface) {
    }
  }

  lemma ShowingAre(events: seq<CanonicalEvent>, states: set<State>, shows: CanonicalEvent -> bool, endMs: int)
    requires DistinctIds(events) && |events| < MAX_SAFE_INTEGER
    requires (states == VIEWABLE && shows == ShowsIt) || (states == RENDERED && shows == RendersIt)
    ensures ShowingMillis(events, shows, endMs)
         == MillisIn(ViewabilityObservations(StableSort(ViewabilityEventsForCanonicalEvents(events), ViewabilityLeq)), states, endMs)
  {
    var shown := ViewabilityObservations(StableSort(ViewabilityEventsForCanonicalEvents(events), ViewabilityLeq));
    forall e | AboutSurface(e)
      ensures ViewabilityFor(e.event.eventType).Some? && (ViewabilityFor(e.event.eventType).value in states <==> shows(e))
    {
      ProjectionReads(e);
    }
    forall t | 0 <= t < endMs ensures InState(shown, t, states) <==> Showing(events, t, shows) {
      ViewabilityInState(events, t, states);
      ShowingMeans(events, t, states, shows);
    }
  }
}
