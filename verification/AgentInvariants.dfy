/**
 What every reachable store satisfies. The tables are tied to the append-only log:
 each derived row is described by a function of the log that knows nothing about the
 transactions, and every step is shown to keep the description true.
 */
module AgentInvariants {
  import opened Wrappers
  import opened AgentEvents
  import opened AgentStore

  // ------------------------------------------------------------ what the log says

  /** How many rows of type `t` are linked to the unit. */
  function CountLinked(log: seq<Entry>, id: UnitId, t: EventType): nat {
    if log == [] then 0
    else
      var x := log[|log| - 1];
      CountLinked(log[..|log| - 1], id, t) + (if x.workUnit == Some(id) && x.event.eventType == t then 1 else 0)
  }

  /** The first row linked to the unit. */
  function FirstLinked(log: seq<Entry>, id: UnitId): Option<Event> {
    if log == [] then None
    else
      var earlier := FirstLinked(log[..|log| - 1], id);
      if earlier.Some? then earlier
      else if log[|log| - 1].workUnit == Some(id) then Some(log[|log| - 1].event)
      else None
  }

  /** The first terminal row linked to the unit. */
  function FirstTerminal(log: seq<Entry>, id: UnitId): Option<Event> {
    if log == [] then None
    else
      var earlier := FirstTerminal(log[..|log| - 1], id);
      var x := log[|log| - 1];
      if earlier.Some? then earlier
      else if x.workUnit == Some(id) && IsTerminalEvent(x.event.eventType) then Some(x.event)
      else None
  }

  // ------------------------------------------------------------ the invariants

  ghost predicate LogUnique(log: seq<Entry>) {
    forall i, j | 0 <= i < j < |log| ::
      log[i].event.eventId != log[j].event.eventId && log[i].event.idempotencyKey != log[j].event.idempotencyKey
  }

  ghost predicate LogLinked(s: Store) {
    forall x | x in s.log :: x.event.correlationId in s.sessions && x.workUnit == UnitOf(x.event)
  }

  ghost predicate SessionsHaveEvents(s: Store) {
    forall c | c in s.sessions :: LatestOf(s.log, c).Some?
  }

  ghost predicate KeysExist(s: Store) {
    && (forall id | id in s.units :: id.correlationId in s.sessions)
    && (forall c | c in s.bindings :: c in s.sessions)
    && (forall c | c in s.facts :: c in s.bindings)
  }

  /** A unit is exactly what the rows linked to it make of it. */
  ghost predicate UnitMatches(unit: WorkUnit, log: seq<Entry>, id: UnitId) {
    && unit.toolCallCount == CountLinked(log, id, ToolStarted)
    && unit.subagentCount == CountLinked(log, id, SubagentStarted)
    && (FirstLinked(log, id).Some? ==> unit.startedAt == FirstLinked(log, id).value.occurredAt)
    && match FirstTerminal(log, id)
       case None => unit.status.UnitActive? && unit.endedAt.None? && unit.outcome.None?
       case Some(x) =>
         && unit.status == WorkUnitStatusFor(x.eventType)
         && unit.endedAt == Some(x.occurredAt)
         && unit.outcome == OutcomeFor(x.eventType)
  }

  ghost predicate UnitsMatch(s: Store) {
    && (forall id | id in s.units :: FirstLinked(s.log, id).Some? && UnitMatches(s.units[id], s.log, id))
    && (forall id :: id !in s.units ==> FirstLinked(s.log, id).None?)
  }

  ghost predicate AbandonedIsIdle(s: Store) {
    forall c | c in s.sessions && s.sessions[c].status.Abandoned? ::
      s.sessions[c].endedAt.Some? && !HasActiveUnit(s.units, c)
  }

  /** A session whose latest event is a lifecycle event has the status that event announces. */
  ghost predicate FollowsLatest(session: Session, latest: Option<Event>) {
    latest.Some? && IsLifecycle(latest.value.eventType) ==>
      && session.status == SessionStatusFor(latest.value.eventType)
      && (latest.value.eventType.SessionEnded? ==> session.endedAt == Some(latest.value.occurredAt))
  }

  ghost predicate StatusesFollowLatest(s: Store) {
    forall c | c in s.sessions && !s.sessions[c].status.Abandoned? :: FollowsLatest(s.sessions[c], LatestOf(s.log, c))
  }

  /** A materialised fact and its session's binding name the same policy version. */
  ghost predicate FactsMatchBindings(s: Store) {
    forall c | c in s.facts :: c in s.bindings && s.bindings[c].version == s.facts[c].version
  }

  /** A bound policy was in effect when it was assigned. */
  ghost predicate BindingsInEffect(s: Store) {
    forall c | c in s.bindings :: s.bindings[c].effectiveAt <= s.bindings[c].assignedAt
  }

  predicate SameIdentity(a: Session, b: Session) {
    && a.userId == b.userId && a.deviceId == b.deviceId && a.provider == b.provider
    && a.providerSessionHash == b.providerSessionHash
  }

  /** Two sessions never share a hashed provider identity. */
  ghost predicate HashesUnique(s: Store) {
    forall c, d | c in s.sessions && d in s.sessions && c != d && s.sessions[c].providerSessionHash.Some? ::
      !SameIdentity(s.sessions[c], s.sessions[d])
  }

  ghost predicate Inv(s: Store) {
    && LogUnique(s.log)
    && LogLinked(s)
    && SessionsHaveEvents(s)
    && KeysExist(s)
    && UnitsMatch(s)
    && AbandonedIsIdle(s)
    && StatusesFollowLatest(s)
    && FactsMatchBindings(s)
    && BindingsInEffect(s)
    && HashesUnique(s)
    && UniqueVersions(s.policies)
  }

  // ------------------------------------------------------------ appending one row

  lemma LatestOfAppend(log: seq<Entry>, x: Entry, c: string)
    ensures LatestOf(log + [x], c) ==
            if x.event.correlationId != c then LatestOf(log, c)
            else if LatestOf(log, c).None? || ListedBefore(x.event, LatestOf(log, c).value) then Some(x.event)
            else LatestOf(log, c)
  {
    assert (log + [x])[..|log|] == log;
  }

  lemma LinkedAppend(log: seq<Entry>, x: Entry, id: UnitId)
    ensures FirstLinked(log + [x], id) ==
            if FirstLinked(log, id).Some? then FirstLinked(log, id)
            else if x.workUnit == Some(id) then Some(x.event) else None
    ensures FirstTerminal(log + [x], id) ==
            if FirstTerminal(log, id).Some? then FirstTerminal(log, id)
            else if x.workUnit == Some(id) && IsTerminalEvent(x.event.eventType) then Some(x.event) else None
    ensures CountLinked(log + [x], id, ToolStarted) ==
            CountLinked(log, id, ToolStarted) + (if x.workUnit == Some(id) && x.event.eventType.ToolStarted? then 1 else 0)
    ensures CountLinked(log + [x], id, SubagentStarted) ==
            CountLinked(log, id, SubagentStarted) + (if x.workUnit == Some(id) && x.event.eventType.SubagentStarted? then 1 else 0)
  {
    assert (log + [x])[..|log|] == log;
  }

  /** The latest row is in the log, belongs to the session, and no row of the session is listed before it. */
  lemma {:induction false} LatestIsMaximal(log: seq<Entry>, c: string)
    ensures LatestOf(log, c).Some? <==> exists x :: x in log && x.event.correlationId == c
    ensures LatestOf(log, c).Some? ==>
              && (exists x :: x in log && x.event == LatestOf(log, c).value)
              && LatestOf(log, c).value.correlationId == c
              && forall x | x in log && x.event.correlationId == c :: IsAtOrAfterLatest(LatestOf(log, c).value, x.event)
  {
    if log != [] {
      var front, last := log[..|log| - 1], log[|log| - 1];
      LatestIsMaximal(front, c);
      assert log == front + [last];
      forall x | x in log ensures x in front || x == last {}
      assert forall x | x in front :: x in log;
      if last.event.correlationId == c {
        if LatestOf(front, c).Some? {
          var latest := LatestOf(front, c).value;
          GateAgreesWithQueryOrder(last.event, latest);
          GateAgreesWithQueryOrder(last.event, last.event);
          forall x | x in front && x.event.correlationId == c && IsAtOrAfterLatest(last.event, latest)
            ensures IsAtOrAfterLatest(last.event, x.event)
          {
            GateTransitive(last.event, latest, x.event);
          }
        } else {
          GateAgreesWithQueryOrder(last.event, last.event);
        }
        assert last in log;
      }
    }
  }

  // ------------------------------------------------------------ one accepted event

  /**
   What accepting `event` does to the store: the event is fresh, its session is not
   abandoned and belongs to the sender, one row is appended, and only the event's own
   session, unit and binding can change.
   */
  ghost predicate Accepts(s: Store, r: Store, userId: string, deviceId: string, event: Event, now: int) {
    var c := event.correlationId;
    var before := if c in s.sessions then s.sessions[c] else CreateSession(userId, deviceId, event, now);
    var latest := if c in s.sessions then LatestOf(s.log, c) else None;
    && (forall x | x in s.log :: x.event.eventId != event.eventId && x.event.idempotencyKey != event.idempotencyKey)
    && before.userId == userId && before.deviceId == deviceId && before.provider == event.provider
    && !before.status.Abandoned?
    && (c in s.sessions || !HashTaken(s.sessions, userId, deviceId, event))
    && r.log == s.log + [Entry(event, UnitOf(event), now)]
    && r.units == ProjectUnit(s.units, event)
    && r.facts == s.facts && r.policies == s.policies
    && r.sessions == s.sessions[c := if latest.None? || IsAtOrAfterLatest(event, latest.value) then UpdateSession(before, event, now) else before]
    && OthersUntouched(s.bindings, r.bindings, c)
    && (c in s.facts ==> c in s.bindings ==> c in r.bindings && r.bindings[c] == s.bindings[c])
    && (c in r.bindings ==> r.bindings[c].effectiveAt <= r.bindings[c].assignedAt || (c in s.bindings && r.bindings[c] == s.bindings[c]))
  }

  lemma AcceptedSender(s: Store, userId: string, deviceId: string, event: Event, now: int)
    requires Decide(s, userId, deviceId, event).Accepted?
    ensures forall x | x in s.log :: x.event.eventId != event.eventId && x.event.idempotencyKey != event.idempotencyKey
    ensures event.correlationId in s.sessions ==>
              var session := s.sessions[event.correlationId];
              session.userId == userId && session.deviceId == deviceId && session.provider == event.provider && !session.status.Abandoned?
    ensures event.correlationId !in s.sessions ==> !HashTaken(s.sessions, userId, deviceId, event)
  {
  }

  lemma FoundPolicyIsSelectable(policies: seq<Policy>, at: int)
    ensures FindPolicy(policies, at).Some? ==> FindPolicy(policies, at).value in policies && Selectable(FindPolicy(policies, at).value, at)
  {
  }

  lemma RebindKeepsFrozen(s: Store, c: string, at: int)
    ensures var r := RebindPolicy(s, c, at);
            && (c in s.facts ==> r.bindings == s.bindings)
            && (c in r.bindings ==> r.bindings[c].effectiveAt <= r.bindings[c].assignedAt || (c in s.bindings && r.bindings[c] == s.bindings[c]))
  {
    FoundPolicyIsSelectable(s.policies, at);
  }

  /** The bindings once `event` is accepted: a new session is bound to the policy in force, and a start rebinds. */
  function BindingsAfter(s: Store, event: Event): map<string, Binding> {
    var c := event.correlationId;
    var bound := if c in s.sessions then s else AssignPolicy(s, c, event.occurredAt);
    if event.eventType.SessionStarted? then RebindPolicy(bound, c, event.occurredAt).bindings else bound.bindings
  }

  lemma IngestBinds(s: Store, userId: string, deviceId: string, event: Event, now: int)
    requires Decide(s, userId, deviceId, event).Accepted?
    ensures Ingest(s, userId, deviceId, event, now).bindings == BindingsAfter(s, event)
  {
    var ready := if event.correlationId in s.sessions then s else Open(s, userId, deviceId, event, now);
    var latest := if event.correlationId in s.sessions then LatestOf(s.log, event.correlationId) else None;
    RecordBinds(ready, event, latest, now);
  }

  lemma RecordBinds(s: Store, event: Event, latest: Option<Event>, now: int)
    requires event.correlationId in s.sessions
    ensures Record(s, event, latest, now).bindings
         == if event.eventType.SessionStarted? then RebindPolicy(s, event.correlationId, event.occurredAt).bindings else s.bindings
  {
  }

  /** Accepting an event changes exactly the rows `Accepts` names, and the bindings as `BindingsAfter` says. */
  lemma IngestAccepts(s: Store, userId: string, deviceId: string, event: Event, now: int)
    requires Decide(s, userId, deviceId, event).Accepted?
    ensures Accepts(s, Ingest(s, userId, deviceId, event, now), userId, deviceId, event, now)
    ensures Ingest(s, userId, deviceId, event, now).bindings == BindingsAfter(s, event)
  {
    IngestBinds(s, userId, deviceId, event, now);
    AcceptedSender(s, userId, deviceId, event, now);
    var c := event.correlationId;
    FoundPolicyIsSelectable(s.policies, event.occurredAt);
    var ready := if c in s.sessions then s else Open(s, userId, deviceId, event, now);
    var latest := if c in s.sessions then LatestOf(s.log, c) else None;
    assert c in ready.bindings ==> ready.bindings[c].effectiveAt <= ready.bindings[c].assignedAt || (c in s.bindings && ready.bindings[c] == s.bindings[c]);
    assert c in s.facts ==> c in s.bindings ==> c in ready.bindings && ready.bindings[c] == s.bindings[c];
    RecordFrame(ready, event, latest, now);
    assert Ingest(s, userId, deviceId, event, now) == Record(ready, event, latest, now);
  }

  lemma RecordFrame(s: Store, event: Event, latest: Option<Event>, now: int)
    requires event.correlationId in s.sessions
    ensures var r := Record(s, event, latest, now); var c := event.correlationId;
            && r.sessions == s.sessions[c := if latest.None? || IsAtOrAfterLatest(event, latest.value) then UpdateSession(s.sessions[c], event, now) else s.sessions[c]]
            && OthersUntouched(s.bindings, r.bindings, c)
            && (c in s.facts ==> r.bindings == s.bindings)
            && (c in r.bindings ==> r.bindings[c].effectiveAt <= r.bindings[c].assignedAt || (c in s.bindings && r.bindings[c] == s.bindings[c]))
  {
    var c := event.correlationId;
    var projected := s.(units := ProjectUnit(s.units, event), log := s.log + [Entry(event, UnitOf(event), now)]);
    var isLatest := latest.None? || IsAtOrAfterLatest(event, latest.value);
    var updated := if isLatest then projected.(sessions := s.sessions[c := UpdateSession(s.sessions[c], event, now)]) else projected;
    RebindKeepsFrozen(updated, c, event.occurredAt);
    assert updated.sessions == s.sessions[c := updated.sessions[c]];
  }

  // ------------------------------------------------------------ preservation, invariant by invariant

  lemma LogKept(s: Store, r: Store, userId: string, deviceId: string, event: Event, now: int)
    requires Inv(s) && Accepts(s, r, userId, deviceId, event, now)
    ensures LogUnique(r.log) && LogLinked(r) && SessionsHaveEvents(r)
  {
    var x := Entry(event, UnitOf(event), now);
    forall i | 0 <= i < |s.log| ensures s.log[i].event.eventId != event.eventId && s.log[i].event.idempotencyKey != event.idempotencyKey {
      assert s.log[i] in s.log;
    }
    forall c | c in r.sessions ensures LatestOf(r.log, c).Some? {
      LatestOfAppend(s.log, x, c);
    }
  }

  lemma KeysKept(s: Store, r: Store, userId: string, deviceId: string, event: Event, now: int)
    requires Inv(s) && Accepts(s, r, userId, deviceId, event, now)
    ensures KeysExist(r) && FactsMatchBindings(r) && BindingsInEffect(r)
  {
    UnitOfCorrelation(event);
  }

  lemma UnitOfCorrelation(event: Event)
    ensures UnitOf(event).Some? ==> UnitOf(event).value.correlationId == event.correlationId
    ensures IsTerminalEvent(event.eventType) <==> IsTerminalStatus(WorkUnitStatusFor(event.eventType))
    ensures !IsTerminalEvent(event.eventType) ==> OutcomeFor(event.eventType).None?
  {
  }

  lemma UnitsKept(s: Store, r: Store, userId: string, deviceId: string, event: Event, now: int)
    requires Inv(s) && Accepts(s, r, userId, deviceId, event, now)
    ensures UnitsMatch(r)
  {
    var x := Entry(event, UnitOf(event), now);
    forall id | id in r.units ensures FirstLinked(r.log, id).Some? && UnitMatches(r.units[id], r.log, id) {
      if UnitOf(event) != Some(id) {
        LinkedAppend(s.log, x, id);
      } else if id in s.units {
        UpdatedUnitMatches(s.units[id], s.log, x, id);
      } else {
        CreatedUnitMatches(s.log, x, id);
      }
    }
    forall id | id !in r.units ensures FirstLinked(r.log, id).None? {
      LinkedAppend(s.log, x, id);
    }
  }

  lemma UpdatedUnitMatches(unit: WorkUnit, log: seq<Entry>, x: Entry, id: UnitId)
    requires FirstLinked(log, id).Some? && UnitMatches(unit, log, id) && x.workUnit == Some(id)
    ensures FirstLinked(log + [x], id).Some? && UnitMatches(UpdateUnit(unit, x.event), log + [x], id)
  {
    LinkedAppend(log, x, id);
    UnitOfCorrelation(x.event);
    FirstTerminalIsTerminal(log, id);
  }

  lemma CreatedUnitMatches(log: seq<Entry>, x: Entry, id: UnitId)
    requires FirstLinked(log, id).None? && x.workUnit == Some(id)
    ensures FirstLinked(log + [x], id).Some? && UnitMatches(CreateUnit(x.event), log + [x], id)
  {
    LinkedAppend(log, x, id);
    UnitOfCorrelation(x.event);
    NoLinkNoCount(log, id, ToolStarted);
    NoLinkNoCount(log, id, SubagentStarted);
  }

  lemma {:induction false} FirstTerminalIsTerminal(log: seq<Entry>, id: UnitId)
    ensures FirstTerminal(log, id).Some? ==> IsTerminalEvent(FirstTerminal(log, id).value.eventType)
  {
    if log != [] { FirstTerminalIsTerminal(log[..|log| - 1], id); }
  }

  lemma {:induction false} NoLinkNoCount(log: seq<Entry>, id: UnitId, t: EventType)
    requires FirstLinked(log, id).None?
    ensures CountLinked(log, id, t) == 0 && FirstTerminal(log, id).None?
  {
    if log != [] { NoLinkNoCount(log[..|log| - 1], id, t); }
  }

  lemma AbandonedKept(s: Store, r: Store, userId: string, deviceId: string, event: Event, now: int)
    requires Inv(s) && Accepts(s, r, userId, deviceId, event, now)
    ensures AbandonedIsIdle(r)
  {
    UnitOfCorrelation(event);
  }

  lemma StatusesKept(s: Store, r: Store, userId: string, deviceId: string, event: Event, now: int)
    requires Inv(s) && Accepts(s, r, userId, deviceId, event, now)
    ensures StatusesFollowLatest(r)
  {
    var x := Entry(event, UnitOf(event), now);
    forall c | c in r.sessions && !r.sessions[c].status.Abandoned? ensures FollowsLatest(r.sessions[c], LatestOf(r.log, c)) {
      LatestOfAppend(s.log, x, c);
      if c == event.correlationId {
        LatestIsMaximal(s.log, c);
        if c in s.sessions {
          var latest := LatestOf(s.log, c).value;
          GateAgreesWithQueryOrder(event, latest);
          var y :| y in s.log && y.event == latest;
        }
      }
    }
  }

  lemma HashesKept(s: Store, r: Store, userId: string, deviceId: string, event: Event, now: int)
    requires Inv(s) && Accepts(s, r, userId, deviceId, event, now)
    ensures HashesUnique(r)
  {
    var e := event.correlationId;
    assert e in s.sessions ==> SameIdentity(r.sessions[e], s.sessions[e]);
    assert e !in s.sessions ==> SameIdentity(r.sessions[e], CreateSession(userId, deviceId, event, now));
    forall c, d | c in r.sessions && d in r.sessions && c != d && r.sessions[c].providerSessionHash.Some?
      ensures !SameIdentity(r.sessions[c], r.sessions[d])
    {
      assert c in s.sessions || d in s.sessions;
    }
  }

  lemma AcceptsKeepsInv(s: Store, r: Store, userId: string, deviceId: string, event: Event, now: int)
    requires Inv(s) && Accepts(s, r, userId, deviceId, event, now)
    ensures Inv(r)
  {
    LogKept(s, r, userId, deviceId, event, now);
    KeysKept(s, r, userId, deviceId, event, now);
    UnitsKept(s, r, userId, deviceId, event, now);
    AbandonedKept(s, r, userId, deviceId, event, now);
    StatusesKept(s, r, userId, deviceId, event, now);
    HashesKept(s, r, userId, deviceId, event, now);
  }

  lemma IngestKeepsInv(s: Store, userId: string, deviceId: string, event: Event, now: int)
    requires Inv(s)
    ensures Inv(Ingest(s, userId, deviceId, event, now))
  {
    if Decide(s, userId, deviceId, event).Accepted? {
      IngestAccepts(s, userId, deviceId, event, now);
      AcceptsKeepsInv(s, Ingest(s, userId, deviceId, event, now), userId, deviceId, event, now);
    }
  }

  lemma ReconcileKeepsInv(s: Store, correlationId: string, cutoff: int, now: int)
    requires Inv(s)
    ensures Inv(Reconcile(s, correlationId, cutoff, now))
  {
  }

  lemma PersistFactKeepsInv(s: Store, correlationId: string, fact: Fact, computed: string)
    requires Inv(s)
    ensures Inv(PersistFact(s, correlationId, fact, computed))
  {
  }

  lemma ProvisionKeepsInv(s: Store, policy: Policy)
    requires Inv(s)
    ensures Inv(ProvisionPolicy(s, policy))
  {
  }

  lemma PolicyStatusKeepsInv(s: Store, version: nat, status: PolicyStatus)
    requires Inv(s)
    ensures Inv(SetPolicyStatus(s, version, status))
  {
  }

  lemma StepKeepsInv(s: Store, step: Step)
    requires Inv(s)
    ensures Inv(Apply(s, step))
  {
    match step
    case IngestStep(userId, deviceId, event, at) => IngestKeepsInv(s, userId, deviceId, event, at);
    case ReconcileStep(c, cutoff, at) => ReconcileKeepsInv(s, c, cutoff, at);
    case FactStep(c, fact, computed) => PersistFactKeepsInv(s, c, fact, computed);
    case ProvisionStep(policy) => ProvisionKeepsInv(s, policy);
    case PolicyStatusStep(version, status) => PolicyStatusKeepsInv(s, version, status);
  }

  lemma {:induction false} RunKeepsInv(s: Store, steps: seq<Step>)
    requires Inv(s)
    ensures Inv(Run(s, steps))
  {
    if steps != [] {
      RunKeepsInv(s, steps[..|steps| - 1]);
      StepKeepsInv(Run(s, steps[..|steps| - 1]), steps[|steps| - 1]);
    }
  }

  /** Every reachable store satisfies every invariant. */
  lemma ReachableInv(s: Store)
    requires Reachable(s)
    ensures Inv(s)
  {
    var policies, steps :| UniqueVersions(policies) && s == Run(EmptyStore(policies), steps);
    RunKeepsInv(EmptyStore(policies), steps);
  }
}
