/**
 Delivery order. The events of one session reach the API in any order; these results
 say exactly when the session's final status and its policy binding do not depend on
 that order.
 */
module AgentDelivery {
  import opened Wrappers
  import opened AgentEvents
  import opened AgentStore
  import opened AgentInvariants
  import opened AgentPolicyBinding
  import Sorting

  /** Distinct events of one session, from one user and device. */
  ghost predicate ValidDelivery(events: seq<Event>) {
    && (forall e | e in events :: multiset(events)[e] == 1)
    && (forall e, f | e in events && f in events && e != f :: e.eventId != f.eventId && e.idempotencyKey != f.idempotencyKey)
    && (forall e, f | e in events && f in events :: e.correlationId == f.correlationId && e.provider == f.provider)
  }

  function IngestSteps(userId: string, deviceId: string, order: seq<Event>): seq<Step> {
    seq(|order|, i requires 0 <= i < |order| => IngestStep(userId, deviceId, order[i], i))
  }

  /** The store after the events arrived in this order at an empty service. */
  function Deliver(policies: seq<Policy>, userId: string, deviceId: string, order: seq<Event>): Store {
    Run(EmptyStore(policies), IngestSteps(userId, deviceId, order))
  }

  lemma DeliverLast(policies: seq<Policy>, userId: string, deviceId: string, order: seq<Event>, e: Event)
    ensures Deliver(policies, userId, deviceId, order + [e])
         == Ingest(Deliver(policies, userId, deviceId, order), userId, deviceId, e, |order|)
  {
    assert IngestSteps(userId, deviceId, order + [e])[..|order|] == IngestSteps(userId, deviceId, order);
  }

  /** A delivered store holds exactly the delivered events, under one open session. */
  ghost predicate Delivered(s: Store, policies: seq<Policy>, userId: string, deviceId: string, order: seq<Event>, c: string) {
    && Inv(s) && BindingsMatch(s) && s.policies == policies && s.facts == map[]
    && |s.log| == |order| && (forall i | 0 <= i < |order| :: s.log[i].event == order[i])
    && s.sessions.Keys == (if order == [] then {} else {c})
    && (order != [] ==>
          && s.sessions[c].userId == userId && s.sessions[c].deviceId == deviceId
          && s.sessions[c].provider == order[0].provider && !s.sessions[c].status.Abandoned?)
  }

  lemma FreshEventIsAccepted(s: Store, userId: string, deviceId: string, e: Event)
    requires forall x | x in s.log :: x.event.eventId != e.eventId && x.event.idempotencyKey != e.idempotencyKey
    requires e.correlationId in s.sessions ==>
               var session := s.sessions[e.correlationId];
               session.userId == userId && session.deviceId == deviceId && session.provider == e.provider && !session.status.Abandoned?
    requires e.correlationId !in s.sessions ==> s.sessions.Keys == {}
    ensures Decide(s, userId, deviceId, e).Accepted?
  {
  }

  lemma ValidFront(order: seq<Event>, e: Event)
    requires ValidDelivery(order + [e])
    ensures ValidDelivery(order)
    ensures forall x | x in order :: x.eventId != e.eventId && x.idempotencyKey != e.idempotencyKey
    ensures forall x | x in order :: x.correlationId == e.correlationId && x.provider == e.provider
  {
    var all := order + [e];
    assert e in all && forall x | x in order :: x in all;
    assert multiset(all) == multiset(order) + multiset([e]);
    forall x | x in order ensures multiset(order)[x] == 1 && x != e {
      assert multiset(order)[x] >= 1 && multiset(all)[x] == 1;
    }
  }

  lemma {:induction false} DeliveredAfter(policies: seq<Policy>, userId: string, deviceId: string, order: seq<Event>, c: string)
    requires UniqueVersions(policies) && ValidDelivery(order) && forall e | e in order :: e.correlationId == c
    ensures Delivered(Deliver(policies, userId, deviceId, order), policies, userId, deviceId, order, c)
    decreases |order|, 0
  {
    if order != [] {
      var front, e := order[..|order| - 1], order[|order| - 1];
      assert order == front + [e];
      DeliverStep(policies, userId, deviceId, front, e);
      ValidFront(front, e);
      assert forall x | x in front :: x in order;
      DeliveredAfter(policies, userId, deviceId, front, c);
      var s := Deliver(policies, userId, deviceId, front);
      var r := Deliver(policies, userId, deviceId, order);
      AcceptsKeepsInv(s, r, userId, deviceId, e, |front|);
      IngestKeepsBindingsMatch(s, userId, deviceId, e, |front|);
      DeliveredGrows(s, r, policies, userId, deviceId, front, e, c);
    }
  }

  lemma DeliveredGrows(
    s: Store, r: Store, policies: seq<Policy>, userId: string, deviceId: string, order: seq<Event>, e: Event, c: string)
    requires Delivered(s, policies, userId, deviceId, order, c) && e.correlationId == c
    requires order != [] ==> e.provider == order[0].provider
    requires Accepts(s, r, userId, deviceId, e, |order|) && Inv(r) && BindingsMatch(r)
    ensures Delivered(r, policies, userId, deviceId, order + [e], c)
  {
    LogGrows(s.log, r.log, order, e);
    SessionGrows(s, r, userId, deviceId, order, e, c);
  }

  lemma LogGrows(before: seq<Entry>, after: seq<Entry>, order: seq<Event>, e: Event)
    requires |before| == |order| && (forall i | 0 <= i < |order| :: before[i].event == order[i])
    requires |after| == |before| + 1 && after[..|before|] == before && after[|before|].event == e
    ensures |after| == |order + [e]| && forall i | 0 <= i < |order + [e]| :: after[i].event == (order + [e])[i]
  {
    forall i | 0 <= i < |order| ensures after[i] == before[i] {
      assert after[..|before|][i] == before[i];
    }
  }

  lemma SessionGrows(s: Store, r: Store, userId: string, deviceId: string, order: seq<Event>, e: Event, c: string)
    requires e.correlationId == c && s.sessions.Keys == (if order == [] then {} else {c})
    requires order != [] ==> e.provider == order[0].provider
    requires Accepts(s, r, userId, deviceId, e, |order|)
    ensures r.sessions.Keys == {c}
    ensures r.sessions[c].userId == userId && r.sessions[c].deviceId == deviceId
    ensures r.sessions[c].provider == (order + [e])[0].provider && !r.sessions[c].status.Abandoned?
  {
    assert r.sessions.Keys == s.sessions.Keys + {c};
  }

  /** Every event of a valid delivery is accepted. */
  lemma DeliverStep(policies: seq<Policy>, userId: string, deviceId: string, order: seq<Event>, e: Event)
    requires UniqueVersions(policies) && ValidDelivery(order + [e])
    ensures var s := Deliver(policies, userId, deviceId, order);
            && Decide(s, userId, deviceId, e).Accepted?
            && Deliver(policies, userId, deviceId, order + [e]) == Ingest(s, userId, deviceId, e, |order|)
            && Accepts(s, Deliver(policies, userId, deviceId, order + [e]), userId, deviceId, e, |order|)
    decreases |order|, 1
  {
    var s := Deliver(policies, userId, deviceId, order);
    ValidFront(order, e);
    DeliveredAfter(policies, userId, deviceId, order, e.correlationId);
    forall x | x in s.log ensures x.event in order {
      var i :| 0 <= i < |s.log| && s.log[i] == x;
      assert order[i] in order;
    }
    if order != [] { assert order[0] in order; }
    FreshEventIsAccepted(s, userId, deviceId, e);
    IngestAccepts(s, userId, deviceId, e, |order|);
    DeliverLast(policies, userId, deviceId, order, e);
  }

  // ------------------------------------------------------------ permutations

  lemma PermutationIsValid(events: seq<Event>, order: seq<Event>)
    requires ValidDelivery(events) && multiset(order) == multiset(events)
    ensures ValidDelivery(order) && |order| == |events|
    ensures forall e | e in order :: e in events
    ensures forall e | e in events :: e in order
  {
    Sorting.SameMultisetSameMembers(order, events);
  }

  /** A delivery that starts with the given events, all distinct members. */
  lemma OrderStartingWith(events: seq<Event>, first: Event) returns (order: seq<Event>)
    requires first in events
    ensures multiset(order) == multiset(events) && order != [] && order[0] == first
  {
    var i :| 0 <= i < |events| && events[i] == first;
    order := [first] + events[..i] + events[i + 1..];
    assert events == events[..i] + [events[i]] + events[i + 1..];
  }

  // ------------------------------------------------------------ the final status

  /** The latest event of the delivery. */
  ghost predicate IsLatestOf(events: seq<Event>, e: Event) {
    e in events && forall x | x in events :: IsAtOrAfterLatest(e, x)
  }

  function FinalStatus(s: Store, c: string): Option<SessionStatus> {
    if c in s.sessions then Some(s.sessions[c].status) else None
  }

  /** Every arrival order of the events leaves the session in the same status. */
  ghost predicate StatusIsOrderFree(userId: string, deviceId: string, events: seq<Event>, c: string) {
    forall a, b | multiset(a) == multiset(events) && multiset(b) == multiset(events) ::
      FinalStatus(Deliver([], userId, deviceId, a), c) == FinalStatus(Deliver([], userId, deviceId, b), c)
  }

  predicate ClosesOrPauses(t: EventType) {
    t.SessionPaused? || t.SessionEnded?
  }

  /** The latest log row of a delivered session is the latest delivered event. */
  lemma LatestDelivered(s: Store, policies: seq<Policy>, userId: string, deviceId: string, order: seq<Event>, c: string, last: Event)
    requires Delivered(s, policies, userId, deviceId, order, c) && ValidDelivery(order)
    requires IsLatestOf(order, last) && forall e | e in order :: e.correlationId == c
    ensures LatestOf(s.log, c) == Some(last)
  {
    LatestIsMaximal(s.log, c);
    var i :| 0 <= i < |order| && order[i] == last;
    assert s.log[i] in s.log && s.log[i].event == last;
    var latest := LatestOf(s.log, c).value;
    var x :| x in s.log && x.event == latest;
    var j :| 0 <= j < |s.log| && s.log[j] == x;
    assert order[j] in order && order[j] == latest;
    assert IsAtOrAfterLatest(latest, last) && IsAtOrAfterLatest(last, latest);
    GateAgreesWithQueryOrder(latest, last);
  }

  /** When the latest event is a lifecycle event, its status wins in every order; an end also fixes the end time. */
  lemma LatestLifecycleWins(policies: seq<Policy>, userId: string, deviceId: string, order: seq<Event>, c: string, last: Event)
    requires UniqueVersions(policies) && ValidDelivery(order) && forall e | e in order :: e.correlationId == c
    requires IsLatestOf(order, last) && IsLifecycle(last.eventType)
    ensures var s := Deliver(policies, userId, deviceId, order);
            FinalStatus(s, c) == Some(SessionStatusFor(last.eventType))
            && (last.eventType.SessionEnded? ==> c in s.sessions && s.sessions[c].endedAt == Some(last.occurredAt))
  {
    DeliveredAfter(policies, userId, deviceId, order, c);
    LatestDelivered(Deliver(policies, userId, deviceId, order), policies, userId, deviceId, order, c, last);
  }

  lemma AcceptStaysActive(s: Store, r: Store, userId: string, deviceId: string, e: Event, now: int)
    requires Accepts(s, r, userId, deviceId, e, now) && !ClosesOrPauses(e.eventType)
    requires e.correlationId in s.sessions ==> s.sessions[e.correlationId].status.Active?
    ensures FinalStatus(r, e.correlationId) == Some(Active)
  {
  }

  /** A session that never paused or ended is active in every order. */
  lemma {:induction false} NeverClosedIsActive(policies: seq<Policy>, userId: string, deviceId: string, order: seq<Event>, c: string)
    requires UniqueVersions(policies) && ValidDelivery(order) && forall e | e in order :: e.correlationId == c
    requires forall e | e in order :: !ClosesOrPauses(e.eventType)
    requires order != []
    ensures FinalStatus(Deliver(policies, userId, deviceId, order), c) == Some(Active)
  {
    var front, e := order[..|order| - 1], order[|order| - 1];
    assert order == front + [e] && e in order;
    assert forall x | x in front :: x in order;
    ValidFront(front, e);
    DeliverStep(policies, userId, deviceId, front, e);
    var s := Deliver(policies, userId, deviceId, front);
    if front == [] {
      assert s.sessions == map[];
    } else {
      NeverClosedIsActive(policies, userId, deviceId, front, c);
    }
    AcceptStaysActive(s, Deliver(policies, userId, deviceId, order), userId, deviceId, e, |front|);
  }

  /** Events that arrive after the latest one do not touch the session row. */
  lemma {:induction false} LaterArrivalsAreIgnored(
    policies: seq<Policy>, userId: string, deviceId: string, head: seq<Event>, tail: seq<Event>, c: string, last: Event)
    requires UniqueVersions(policies) && ValidDelivery(head + tail) && forall e | e in head + tail :: e.correlationId == c
    requires last in head && IsLatestOf(head + tail, last)
    ensures FinalStatus(Deliver(policies, userId, deviceId, head + tail), c) == FinalStatus(Deliver(policies, userId, deviceId, head), c)
  {
    if tail == [] {
      assert head + tail == head;
    } else {
      var front, e := tail[..|tail| - 1], tail[|tail| - 1];
      var sofar := head + front;
      assert head + tail == sofar + [e];
      assert forall x | x in sofar :: x in head + tail;
      assert last in sofar && e in head + tail;
      ValidFront(sofar, e);
      LaterArrivalsAreIgnored(policies, userId, deviceId, head, front, c, last);
      DeliverStep(policies, userId, deviceId, sofar, e);
      DeliveredAfter(policies, userId, deviceId, sofar, c);
      LatestDelivered(Deliver(policies, userId, deviceId, sofar), policies, userId, deviceId, sofar, c, last);
      GateAgreesWithQueryOrder(e, last);
    }
  }

  /** One event alone decides the status of the session it creates. */
  lemma SingleDelivery(policies: seq<Policy>, userId: string, deviceId: string, e: Event)
    requires UniqueVersions(policies)
    ensures ValidDelivery([e])
    ensures FinalStatus(Deliver(policies, userId, deviceId, [e]), e.correlationId) == Some(SessionStatusFor(e.eventType))
  {
    assert ValidDelivery([] + [e]);
    assert [] + [e] == [e];
    DeliverStep(policies, userId, deviceId, [], e);
  }

  lemma PairDelivery(policies: seq<Policy>, userId: string, deviceId: string, y: Event, last: Event)
    requires UniqueVersions(policies) && ValidDelivery([y, last]) && IsLatestOf([y, last], last)
    requires !IsLifecycle(last.eventType) && y != last
    ensures FinalStatus(Deliver(policies, userId, deviceId, [y, last]), y.correlationId) == Some(SessionStatusFor(y.eventType))
  {
    assert [y] + [last] == [y, last] && y in [y, last] && last in [y, last];
    SingleDelivery(policies, userId, deviceId, y);
    DeliverStep(policies, userId, deviceId, [y], last);
  }

  lemma IgnoringOrder(userId: string, deviceId: string, events: seq<Event>, order: seq<Event>, k: nat, c: string, last: Event)
    requires ValidDelivery(events) && (forall e | e in events :: e.correlationId == c) && IsLatestOf(events, last)
    requires multiset(order) == multiset(events) && k <= |order| && last in order[..k]
    ensures ValidDelivery(order[..k]) && IsLatestOf(order[..k], last)
    ensures FinalStatus(Deliver([], userId, deviceId, order), c) == FinalStatus(Deliver([], userId, deviceId, order[..k]), c)
  {
    PermutationIsValid(events, order);
    assert order == order[..k] + order[k..];
    PrefixIsValid(order, k);
    LaterArrivalsAreIgnored([], userId, deviceId, order[..k], order[k..], c, last);
  }

  lemma PrefixIsValid(order: seq<Event>, k: nat)
    requires ValidDelivery(order) && k <= |order|
    ensures ValidDelivery(order[..k])
    ensures forall e | e in order[..k] :: e in order
  {
    assert order == order[..k] + order[k..];
    PrefixHasNoRepeats(order, order[..k], order[k..]);
    FewerAreValid(order, order[..k]);
  }

  lemma FewerAreValid(order: seq<Event>, front: seq<Event>)
    requires ValidDelivery(order) && (forall e | e in front :: e in order) && forall e | e in front :: multiset(front)[e] == 1
    ensures ValidDelivery(front)
  {
  }

  lemma PrefixHasNoRepeats(order: seq<Event>, front: seq<Event>, rest: seq<Event>)
    requires order == front + rest && forall e | e in order :: multiset(order)[e] == 1
    ensures forall e | e in front :: multiset(front)[e] == 1
  {
    assert multiset(order) == multiset(front) + multiset(rest);
    forall e | e in front ensures multiset(front)[e] == 1 {
      assert e in order && multiset(front)[e] >= 1;
    }
  }

  /** Delivering the uninformative latest event first leaves the session active. */
  lemma LatestFirst(userId: string, deviceId: string, events: seq<Event>, c: string, last: Event) returns (order: seq<Event>)
    requires ValidDelivery(events) && forall e | e in events :: e.correlationId == c
    requires IsLatestOf(events, last) && !IsLifecycle(last.eventType)
    ensures multiset(order) == multiset(events) && order != [] && order[0] == last
    ensures FinalStatus(Deliver([], userId, deviceId, order), c) == Some(Active)
  {
    order := OrderStartingWith(events, last);
    assert order[..1] == [last];
    IgnoringOrder(userId, deviceId, events, order, 1, c, last);
    SingleDelivery([], userId, deviceId, last);
  }

  /** Delivering a pausing or ending event just before it leaves the session paused or ended. */
  lemma ClosingFirst(userId: string, deviceId: string, events: seq<Event>, c: string, last: Event, y: Event) returns (order: seq<Event>)
    requires ValidDelivery(events) && forall e | e in events :: e.correlationId == c
    requires IsLatestOf(events, last) && !IsLifecycle(last.eventType)
    requires y in events && ClosesOrPauses(y.eventType)
    ensures multiset(order) == multiset(events)
    ensures FinalStatus(Deliver([], userId, deviceId, order), c) == Some(SessionStatusFor(y.eventType))
  {
    order := OrderStartingWithPair(events, y, last);
    assert order[..2] == [y, last];
    assert last in order[..2];
    IgnoringOrder(userId, deviceId, events, order, 2, c, last);
    PairDelivery([], userId, deviceId, y, last);
  }

  lemma OrderStartingWithPair(events: seq<Event>, first: Event, second: Event) returns (order: seq<Event>)
    requires first in events && second in events && first != second
    ensures multiset(order) == multiset(events) && |order| >= 2 && order[0] == first && order[1] == second
  {
    var a := OrderStartingWith(events, first);
    Sorting.SameMultisetSameMembers(a, events);
    var rest := a[1..];
    assert a == [first] + rest && second in a;
    var b := OrderStartingWith(rest, second);
    order := [first] + b;
  }

  lemma OrdersDisagree(userId: string, deviceId: string, events: seq<Event>, c: string, last: Event, y: Event)
    requires ValidDelivery(events) && forall e | e in events :: e.correlationId == c
    requires IsLatestOf(events, last) && !IsLifecycle(last.eventType)
    requires y in events && ClosesOrPauses(y.eventType)
    ensures !StatusIsOrderFree(userId, deviceId, events, c)
  {
    var a := LatestFirst(userId, deviceId, events, c, last);
    var b := ClosingFirst(userId, deviceId, events, c, last, y);
    assert FinalStatus(Deliver([], userId, deviceId, a), c) != FinalStatus(Deliver([], userId, deviceId, b), c);
  }

  /**
   The final status of a session is independent of delivery order exactly when its
   latest event is a lifecycle event or it never paused or ended at all.
   */
  lemma StatusOrderFreeIff(userId: string, deviceId: string, events: seq<Event>, c: string, last: Event)
    requires ValidDelivery(events) && forall e | e in events :: e.correlationId == c
    requires IsLatestOf(events, last)
    ensures StatusIsOrderFree(userId, deviceId, events, c) <==>
              IsLifecycle(last.eventType) || forall e | e in events :: !ClosesOrPauses(e.eventType)
  {
    if IsLifecycle(last.eventType) {
      forall a | multiset(a) == multiset(events)
        ensures FinalStatus(Deliver([], userId, deviceId, a), c) == Some(SessionStatusFor(last.eventType))
      {
        PermutationIsValid(events, a);
        LatestLifecycleWins([], userId, deviceId, a, c, last);
      }
    } else if forall e | e in events :: !ClosesOrPauses(e.eventType) {
      forall a | multiset(a) == multiset(events) ensures FinalStatus(Deliver([], userId, deviceId, a), c) == Some(Active) {
        PermutationIsValid(events, a);
        NeverClosedIsActive([], userId, deviceId, a, c);
      }
    } else {
      var y :| y in events && ClosesOrPauses(y.eventType);
      OrdersDisagree(userId, deviceId, events, c, last, y);
    }
  }

  // ------------------------------------------------------------ the policy binding

  function BoundVersion(s: Store, c: string): Option<nat> {
    if c in s.bindings then Some(s.bindings[c].version) else None
  }

  /** Whatever the policy table, every arrival order of the events binds the session to the same policy. */
  ghost predicate BindingIsOrderFree(userId: string, deviceId: string, events: seq<Event>, c: string) {
    forall policies, a, b | UniqueVersions(policies) && multiset(a) == multiset(events) && multiset(b) == multiset(events) ::
      BoundVersion(Deliver(policies, userId, deviceId, a), c) == BoundVersion(Deliver(policies, userId, deviceId, b), c)
  }

  /** Some start is at or before every event. */
  ghost predicate StartComesFirst(events: seq<Event>) {
    exists x :: x in events && x.eventType.SessionStarted? && forall y | y in events :: x.occurredAt <= y.occurredAt
  }

  ghost predicate Simultaneous(events: seq<Event>) {
    forall x, y | x in events && y in events :: x.occurredAt == y.occurredAt
  }

  /** `at` is the earliest of the first event and all starts. */
  ghost predicate IsInstantOf(order: seq<Event>, at: int) {
    && order != []
    && at <= order[0].occurredAt
    && (forall x | x in order && x.eventType.SessionStarted? :: at <= x.occurredAt)
    && (at == order[0].occurredAt || exists x :: x in order && x.eventType.SessionStarted? && x.occurredAt == at)
  }

  lemma {:induction false} InstantOfLog(log: seq<Entry>, order: seq<Event>, c: string)
    requires |log| == |order| && (forall i | 0 <= i < |order| :: log[i].event == order[i])
    requires forall e | e in order :: e.correlationId == c
    ensures order == [] ==> BindingInstant(log, c).None?
    ensures order != [] ==> BindingInstant(log, c).Some? && IsInstantOf(order, BindingInstant(log, c).value)
  {
    if order != [] {
      var front, e := order[..|order| - 1], order[|order| - 1];
      assert order == front + [e] && e in order;
      assert forall x | x in front :: x in order;
      InstantOfLog(log[..|log| - 1], front, c);
      forall x | x in order ensures x in front || x == e {}
    }
  }

  /** A delivered session is bound to the policy in force at its instant. */
  lemma BoundAtInstant(policies: seq<Policy>, userId: string, deviceId: string, order: seq<Event>, c: string) returns (at: int)
    requires UniqueVersions(policies) && ValidDelivery(order) && order != []
    requires forall e | e in order :: e.correlationId == c
    ensures IsInstantOf(order, at)
    ensures BoundVersion(Deliver(policies, userId, deviceId, order), c)
         == (match FindPolicy(policies, at) case None => None case Some(p) => Some(p.version))
  {
    DeliveredAfter(policies, userId, deviceId, order, c);
    var s := Deliver(policies, userId, deviceId, order);
    InstantOfLog(s.log, order, c);
    at := BindingInstant(s.log, c).value;
    assert BindingMatches(s, c);
  }

  lemma {:induction false} EarliestEvent(events: seq<Event>) returns (m: Event)
    requires events != []
    ensures m in events && forall x | x in events :: m.occurredAt <= x.occurredAt
  {
    m := events[0];
    if |events| > 1 {
      var n := EarliestEvent(events[1..]);
      if n.occurredAt < m.occurredAt { m := n; }
      forall x | x in events ensures x == events[0] || x in events[1..] {}
    }
  }

  lemma InstantUnique(order: seq<Event>, a: int, b: int)
    requires IsInstantOf(order, a) && IsInstantOf(order, b)
    ensures a == b
  {
  }

  /** When neither condition holds, two orders of the same events have different instants. */
  lemma OrdersWithDifferentInstants(userId: string, deviceId: string, events: seq<Event>, c: string)
    returns (a: seq<Event>, b: seq<Event>, ta: int, tb: int)
    requires ValidDelivery(events) && events != [] && forall e | e in events :: e.correlationId == c
    requires !StartComesFirst(events) && !Simultaneous(events)
    ensures multiset(a) == multiset(events) && multiset(b) == multiset(events) && ValidDelivery(a) && ValidDelivery(b)
    ensures IsInstantOf(a, ta) && IsInstantOf(b, tb) && ta < tb
    ensures forall e | e in a || e in b :: e.correlationId == c
  {
    var m := EarliestEvent(events);
    var z :| z in events && z.occurredAt != m.occurredAt;
    a := OrderStartingWith(events, m);
    b := OrderStartingWith(events, z);
    PermutationIsValid(events, a);
    PermutationIsValid(events, b);
    ta := BoundAtInstant([], userId, deviceId, a, c);
    tb := BoundAtInstant([], userId, deviceId, b, c);
  }

  /** A single policy effective between the two instants tells the two orders apart. */
  lemma BindingsDisagree(userId: string, deviceId: string, events: seq<Event>, c: string)
    requires ValidDelivery(events) && events != [] && forall e | e in events :: e.correlationId == c
    requires !StartComesFirst(events) && !Simultaneous(events)
    ensures !BindingIsOrderFree(userId, deviceId, events, c)
  {
    var a, b, ta, tb := OrdersWithDifferentInstants(userId, deviceId, events, c);
    var policies := [Policy(1, Shadow, tb)];
    var ta' := BoundAtInstant(policies, userId, deviceId, a, c);
    var tb' := BoundAtInstant(policies, userId, deviceId, b, c);
    InstantUnique(a, ta, ta');
    InstantUnique(b, tb, tb');
    SinglePolicyFound(policies[0], ta);
    SinglePolicyFound(policies[0], tb);
    assert BoundVersion(Deliver(policies, userId, deviceId, a), c) != BoundVersion(Deliver(policies, userId, deviceId, b), c);
  }

  lemma SinglePolicyFound(p: Policy, at: int)
    ensures FindPolicy([p], at) == if Selectable(p, at) then Some(p) else None
  {
    assert [p][1..] == [];
  }

  /**
   A session's policy binding is independent of delivery order, for every policy table,
   exactly when some start is at or before all its events or all its events bear one time.
   */
  lemma BindingOrderFreeIff(userId: string, deviceId: string, events: seq<Event>, c: string)
    requires ValidDelivery(events) && events != [] && forall e | e in events :: e.correlationId == c
    ensures BindingIsOrderFree(userId, deviceId, events, c) <==> StartComesFirst(events) || Simultaneous(events)
  {
    if StartComesFirst(events) || Simultaneous(events) {
      var m := EarliestEvent(events);
      forall policies, a | UniqueVersions(policies) && multiset(a) == multiset(events)
        ensures BoundVersion(Deliver(policies, userId, deviceId, a), c)
             == (match FindPolicy(policies, m.occurredAt) case None => None case Some(p) => Some(p.version))
      {
        PermutationIsValid(events, a);
        var at := BoundAtInstant(policies, userId, deviceId, a, c);
        assert at == m.occurredAt;
      }
    } else {
      BindingsDisagree(userId, deviceId, events, c);
    }
  }
}
