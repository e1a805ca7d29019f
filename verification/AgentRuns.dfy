/**
 Safety over whole runs: what any later interleaving of ingestion, reconciliation,
 fact and policy steps must leave alone.
 */
module AgentRuns {
  import opened Wrappers
  import opened AgentEvents
  import opened AgentStore
  import opened AgentInvariants

  /** The log rows of one session, oldest first. */
  function RowsOf(log: seq<Entry>, c: string): seq<Entry> {
    if log == [] then []
    else
      var front := RowsOf(log[..|log| - 1], c);
      if log[|log| - 1].event.correlationId == c then front + [log[|log| - 1]] else front
  }

  lemma RowsOfAppend(log: seq<Entry>, x: Entry, c: string)
    ensures RowsOf(log + [x], c) == if x.event.correlationId == c then RowsOf(log, c) + [x] else RowsOf(log, c)
  {
    assert (log + [x])[..|log|] == log;
  }

  // ------------------------------------------------------------ the log only grows

  lemma StepGrowsLog(s: Store, step: Step)
    ensures s.log <= Apply(s, step).log
    ensures s.sessions.Keys <= Apply(s, step).sessions.Keys
    ensures forall c | c in s.sessions ::
              && Apply(s, step).sessions[c].userId == s.sessions[c].userId
              && Apply(s, step).sessions[c].deviceId == s.sessions[c].deviceId
  {
    if step.IngestStep? && Decide(s, step.userId, step.deviceId, step.event).Accepted? {
      IngestAccepts(s, step.userId, step.deviceId, step.event, step.at);
    }
  }

  lemma {:induction false} RunGrowsLog(s: Store, steps: seq<Step>)
    ensures s.log <= Run(s, steps).log
    ensures s.sessions.Keys <= Run(s, steps).sessions.Keys
    ensures forall c | c in s.sessions ::
              && Run(s, steps).sessions[c].userId == s.sessions[c].userId
              && Run(s, steps).sessions[c].deviceId == s.sessions[c].deviceId
  {
    if steps != [] {
      RunGrowsLog(s, steps[..|steps| - 1]);
      StepGrowsLog(Run(s, steps[..|steps| - 1]), steps[|steps| - 1]);
    }
  }

  // ------------------------------------------------------------ replay

  /** The event has a log row, and its session belongs to this user and device. */
  ghost predicate Processed(s: Store, userId: string, deviceId: string, event: Event) {
    exists x :: x in s.log
      && x.event.eventId == event.eventId && x.event.idempotencyKey == event.idempotencyKey
      && x.event.correlationId in s.sessions
      && s.sessions[x.event.correlationId].userId == userId
      && s.sessions[x.event.correlationId].deviceId == deviceId
  }

  lemma ProcessedIsDuplicate(s: Store, userId: string, deviceId: string, event: Event)
    requires Inv(s) && Processed(s, userId, deviceId, event)
    ensures Decide(s, userId, deviceId, event) == Duplicate
  {
    var x :| x in s.log
      && x.event.eventId == event.eventId && x.event.idempotencyKey == event.idempotencyKey
      && x.event.correlationId in s.sessions
      && s.sessions[x.event.correlationId].userId == userId
      && s.sessions[x.event.correlationId].deviceId == deviceId;
    var y := FindDuplicate(s.log, event).value;
    var i :| 0 <= i < |s.log| && s.log[i] == x;
    var j :| 0 <= j < |s.log| && s.log[j] == y;
    assert i == j;
  }

  /** An accepted event counts as processed from then on, whatever happens afterwards. */
  lemma AcceptedStaysProcessed(s: Store, userId: string, deviceId: string, event: Event, now: int, later: seq<Step>)
    requires Inv(s) && Decide(s, userId, deviceId, event).Accepted?
    ensures Processed(Run(Ingest(s, userId, deviceId, event, now), later), userId, deviceId, event)
  {
    IngestAccepts(s, userId, deviceId, event, now);
    var r := Ingest(s, userId, deviceId, event, now);
    RunGrowsLog(r, later);
    RowStays(s, r, Run(r, later), userId, deviceId, event, now);
  }

  lemma RowStays(s: Store, r: Store, end: Store, userId: string, deviceId: string, event: Event, now: int)
    requires Accepts(s, r, userId, deviceId, event, now) && r.log <= end.log && r.sessions.Keys <= end.sessions.Keys
    requires forall c | c in r.sessions ::
               end.sessions[c].userId == r.sessions[c].userId && end.sessions[c].deviceId == r.sessions[c].deviceId
    ensures Processed(end, userId, deviceId, event)
  {
    var row := Entry(event, UnitOf(event), now);
    assert r.log[|s.log|] == row;
    assert end.log[|s.log|] == row;
  }

  ghost predicate IsReplay(s: Store, step: Step) {
    step.IngestStep? && Processed(s, step.userId, step.deviceId, step.event)
  }

  /** Re-delivering processed events, any number of times and in any order, leaves the whole store unchanged. */
  lemma {:induction false} ReplayIsNoOp(s: Store, replays: seq<Step>)
    requires Inv(s)
    requires forall step | step in replays :: IsReplay(s, step)
    ensures Run(s, replays) == s
  {
    if replays != [] {
      var front, last := replays[..|replays| - 1], replays[|replays| - 1];
      assert forall step | step in front :: step in replays;
      ReplayIsNoOp(s, front);
      assert IsReplay(s, last);
      ProcessedIsDuplicate(s, last.userId, last.deviceId, last.event);
    }
  }

  // ------------------------------------------------------------ abandoned is absorbing

  /** `after` holds exactly what `before` held about session `c`: its row, its log rows, its units and its binding. */
  ghost predicate SessionFrozen(before: Store, after: Store, c: string) {
    && c in before.sessions && c in after.sessions && after.sessions[c] == before.sessions[c]
    && RowsOf(after.log, c) == RowsOf(before.log, c)
    && (forall id: UnitId | id.correlationId == c :: id in after.units <==> id in before.units)
    && (forall id: UnitId | id.correlationId == c && id in before.units :: after.units[id] == before.units[id])
    && (c in after.bindings <==> c in before.bindings)
    && (c in before.bindings ==> after.bindings[c] == before.bindings[c])
  }

  lemma AcceptKeepsAbandoned(s: Store, r: Store, userId: string, deviceId: string, event: Event, now: int, c: string)
    requires c in s.sessions && s.sessions[c].status.Abandoned?
    requires Accepts(s, r, userId, deviceId, event, now)
    ensures SessionFrozen(s, r, c)
  {
    RowsOfAppend(s.log, Entry(event, UnitOf(event), now), c);
    UnitOfCorrelation(event);
  }

  lemma ReconcileKeepsAbandoned(s: Store, d: string, cutoff: int, now: int, c: string)
    requires c in s.sessions && s.sessions[c].status.Abandoned?
    ensures SessionFrozen(s, Reconcile(s, d, cutoff, now), c)
  {
  }

  lemma IngestKeepsAbandoned(s: Store, userId: string, deviceId: string, event: Event, at: int, c: string)
    requires Inv(s) && c in s.sessions && s.sessions[c].status.Abandoned?
    requires Decide(s, userId, deviceId, event).Accepted?
    ensures SessionFrozen(s, Ingest(s, userId, deviceId, event, at), c)
  {
    var r := Ingest(s, userId, deviceId, event, at);
    IngestAccepts(s, userId, deviceId, event, at);
    AcceptKeepsAbandoned(s, r, userId, deviceId, event, at, c);
  }

  /** Apart from ingestion only reconciliation touches a session row, and nothing else touches the rest of a session. */
  lemma OtherStepsFrame(s: Store, step: Step)
    requires !step.IngestStep?
    ensures var r := Apply(s, step);
            r.log == s.log && r.units == s.units && r.bindings == s.bindings && (!step.ReconcileStep? ==> r.sessions == s.sessions)
  {
  }

  lemma OtherStepsKeepAbandoned(s: Store, step: Step, c: string)
    requires !step.IngestStep? && c in s.sessions && s.sessions[c].status.Abandoned?
    ensures SessionFrozen(s, Apply(s, step), c)
  {
    OtherStepsFrame(s, step);
    if step.ReconcileStep? { ReconcileKeepsAbandoned(s, step.correlationId, step.cutoff, step.at, c); }
  }

  lemma StepKeepsAbandoned(s: Store, step: Step, c: string)
    requires Inv(s) && c in s.sessions && s.sessions[c].status.Abandoned?
    ensures SessionFrozen(s, Apply(s, step), c)
  {
    if !step.IngestStep? {
      OtherStepsKeepAbandoned(s, step, c);
    } else if Decide(s, step.userId, step.deviceId, step.event).Accepted? {
      IngestKeepsAbandoned(s, step.userId, step.deviceId, step.event, step.at, c);
    }
  }

  /** Once abandoned, a session is never appended to, updated, rebound, or given or denied a work unit again. */
  lemma {:induction false} AbandonedIsAbsorbing(s: Store, steps: seq<Step>, c: string)
    requires Inv(s) && c in s.sessions && s.sessions[c].status.Abandoned?
    ensures SessionFrozen(s, Run(s, steps), c)
    ensures !HasActiveUnit(Run(s, steps).units, c)
  {
    RunKeepsInv(s, steps);
    if steps != [] {
      var front := steps[..|steps| - 1];
      AbandonedIsAbsorbing(s, front, c);
      RunKeepsInv(s, front);
      StepKeepsAbandoned(Run(s, front), steps[|steps| - 1], c);
    }
  }

  /** Reconciliation abandons a session exactly when it is open and idle, and older than the cutoff on every clock. */
  lemma AbandonsExactlyTheStale(s: Store, c: string, cutoff: int)
    requires Inv(s)
    ensures DecideReconcile(s, c, cutoff).MarkedAbandoned? <==>
              && c in s.sessions && s.sessions[c].status.Active? && s.sessions[c].endedAt.None? && s.sessions[c].updatedAt < cutoff
              && (forall x | x in s.log && x.event.correlationId == c :: x.event.occurredAt < cutoff && x.receivedAt < cutoff)
              && !HasActiveUnit(s.units, c)
  {
    LatestIsMaximal(s.log, c);
    ReceiptIsMaximal(s.log, c);
    if c in s.sessions && (forall x | x in s.log && x.event.correlationId == c :: x.event.occurredAt < cutoff && x.receivedAt < cutoff) {
      var x :| x in s.log && x.event == LatestOf(s.log, c).value;
      assert x.event.occurredAt < cutoff;
    }
  }

  lemma {:induction false} ReceiptIsMaximal(log: seq<Entry>, c: string)
    ensures LatestReceipt(log, c).Some? ==> exists x :: x in log && x.event.correlationId == c && x.receivedAt == LatestReceipt(log, c).value
    ensures forall x | x in log && x.event.correlationId == c :: LatestReceipt(log, c).Some? && x.receivedAt <= LatestReceipt(log, c).value
  {
    if log != [] {
      var front, last := log[..|log| - 1], log[|log| - 1];
      ReceiptIsMaximal(front, c);
      assert log == front + [last];
      assert last in log && forall x | x in front :: x in log;
    }
  }

  lemma StepNeverAbandonsEnded(s: Store, step: Step, c: string)
    requires c in s.sessions && s.sessions[c].endedAt.Some? && !s.sessions[c].status.Abandoned?
    ensures c in Apply(s, step).sessions && Apply(s, step).sessions[c].endedAt.Some? && !Apply(s, step).sessions[c].status.Abandoned?
  {
    if step.IngestStep? && Decide(s, step.userId, step.deviceId, step.event).Accepted? {
      IngestAccepts(s, step.userId, step.deviceId, step.event, step.at);
    }
  }

  /** Nothing clears `endedAt`, so a session that ended once and was resumed can never be reconciled as abandoned. */
  lemma {:induction false} EndedOnceNeverAbandoned(s: Store, steps: seq<Step>, c: string)
    requires c in s.sessions && s.sessions[c].endedAt.Some? && !s.sessions[c].status.Abandoned?
    ensures c in Run(s, steps).sessions && Run(s, steps).sessions[c].endedAt.Some? && !Run(s, steps).sessions[c].status.Abandoned?
  {
    if steps != [] {
      EndedOnceNeverAbandoned(s, steps[..|steps| - 1], c);
      StepNeverAbandonsEnded(Run(s, steps[..|steps| - 1]), steps[|steps| - 1], c);
    }
  }

  // ------------------------------------------------------------ session status

  /**
   In every reachable store, whatever was interleaved and in whatever order the rows
   arrived, a session that is not abandoned and whose greatest row is a lifecycle event
   has that event's status, and that event's time as its end if it is an end.
   */
  lemma SessionFollowsLatest(s: Store, x: Entry)
    requires Reachable(s) && x in s.log && IsLifecycle(x.event.eventType)
    requires forall y | y in s.log && y.event.correlationId == x.event.correlationId :: IsAtOrAfterLatest(x.event, y.event)
    ensures x.event.correlationId in s.sessions
    ensures var session := s.sessions[x.event.correlationId]; !session.status.Abandoned? ==>
              && session.status == SessionStatusFor(x.event.eventType)
              && (x.event.eventType.SessionEnded? ==> session.endedAt == Some(x.event.occurredAt))
  {
    ReachableInv(s);
    var c := x.event.correlationId;
    LatestIsMaximal(s.log, c);
    var latest := LatestOf(s.log, c).value;
    var y :| y in s.log && y.event == latest;
    GateAgreesWithQueryOrder(x.event, latest);
    var i :| 0 <= i < |s.log| && s.log[i] == x;
    var j :| 0 <= j < |s.log| && s.log[j] == y;
    assert i == j;
  }

  // ------------------------------------------------------------ work units

  /** Row `i` is linked to the unit and terminal, and no linked row before it is. */
  ghost predicate IsFirstTerminal(log: seq<Entry>, id: UnitId, i: int) {
    && 0 <= i < |log| && UnitOf(log[i].event) == Some(id) && IsTerminalEvent(log[i].event.eventType)
    && forall j | 0 <= j < i && UnitOf(log[j].event) == Some(id) :: !IsTerminalEvent(log[j].event.eventType)
  }

  /**
   Conservation: the counters count, a unit is terminal exactly when some row linked to it
   is, and then it has the status, end and outcome of the first such row.
   */
  lemma UnitsAreConserved(s: Store, id: UnitId)
    requires Inv(s)
    ensures id in s.units <==> exists x :: x in s.log && UnitOf(x.event) == Some(id)
    ensures id in s.units ==>
              && s.units[id].toolCallCount == CountLinked(s.log, id, ToolStarted)
              && s.units[id].subagentCount == CountLinked(s.log, id, SubagentStarted)
              && (IsTerminalStatus(s.units[id].status) <==>
                    exists x :: x in s.log && UnitOf(x.event) == Some(id) && IsTerminalEvent(x.event.eventType))
              && (s.units[id].endedAt.Some? <==> IsTerminalStatus(s.units[id].status))
    ensures forall i | id in s.units && IsFirstTerminal(s.log, id, i) ::
              && s.units[id].status == WorkUnitStatusFor(s.log[i].event.eventType)
              && s.units[id].endedAt == Some(s.log[i].event.occurredAt)
              && s.units[id].outcome == OutcomeFor(s.log[i].event.eventType)
  {
    forall i | IsFirstTerminal(s.log, id, i) ensures FirstTerminal(s.log, id) == Some(s.log[i].event) {
      FirstTerminalIs(s.log, id, i);
    }
    LinkedRows(s.log, id);
    FirstTerminalIsTerminal(s.log, id);
    if FirstTerminal(s.log, id).Some? { UnitOfCorrelation(FirstTerminal(s.log, id).value); }
  }

  lemma {:induction false} FirstTerminalIs(log: seq<Entry>, id: UnitId, i: int)
    requires IsFirstTerminal(log, id, i) && forall x | x in log :: x.workUnit == UnitOf(x.event)
    ensures FirstTerminal(log, id) == Some(log[i].event)
  {
    var front, last := log[..|log| - 1], log[|log| - 1];
    assert last in log && forall x | x in front :: x in log;
    if i < |front| {
      assert IsFirstTerminal(front, id, i);
      FirstTerminalIs(front, id, i);
    } else {
      NoEarlierTerminal(front, id);
    }
  }

  lemma {:induction false} NoEarlierTerminal(log: seq<Entry>, id: UnitId)
    requires forall x | x in log :: x.workUnit == UnitOf(x.event)
    requires forall j | 0 <= j < |log| && UnitOf(log[j].event) == Some(id) :: !IsTerminalEvent(log[j].event.eventType)
    ensures FirstTerminal(log, id).None?
  {
    if log != [] {
      var front, last := log[..|log| - 1], log[|log| - 1];
      assert last in log && forall x | x in front :: x in log;
      assert log[|log| - 1] == last;
      NoEarlierTerminal(front, id);
    }
  }

  lemma {:induction false} LinkedRows(log: seq<Entry>, id: UnitId)
    requires forall x | x in log :: x.workUnit == UnitOf(x.event)
    ensures FirstLinked(log, id).Some? <==> exists x :: x in log && UnitOf(x.event) == Some(id)
    ensures FirstTerminal(log, id).Some? <==> exists x :: x in log && UnitOf(x.event) == Some(id) && IsTerminalEvent(x.event.eventType)
  {
    if log != [] {
      var front, last := log[..|log| - 1], log[|log| - 1];
      assert log == front + [last];
      assert last in log && forall x | x in front :: x in log;
      LinkedRows(front, id);
    }
  }

  lemma StepFreezesTerminal(s: Store, step: Step, id: UnitId)
    requires id in s.units && IsTerminalStatus(s.units[id].status)
    ensures id in Apply(s, step).units
    ensures Apply(s, step).units[id].status == s.units[id].status
    ensures Apply(s, step).units[id].endedAt == s.units[id].endedAt
    ensures Apply(s, step).units[id].outcome == s.units[id].outcome
  {
    if step.IngestStep? && Decide(s, step.userId, step.deviceId, step.event).Accepted? {
      IngestAccepts(s, step.userId, step.deviceId, step.event, step.at);
    }
  }

  /** A terminal unit keeps its status, end and outcome through every later run; only its counters may still grow. */
  lemma {:induction false} TerminalUnitsAreFrozen(s: Store, steps: seq<Step>, id: UnitId)
    requires id in s.units && IsTerminalStatus(s.units[id].status)
    ensures id in Run(s, steps).units
    ensures Run(s, steps).units[id].status == s.units[id].status
    ensures Run(s, steps).units[id].endedAt == s.units[id].endedAt
    ensures Run(s, steps).units[id].outcome == s.units[id].outcome
  {
    if steps != [] {
      TerminalUnitsAreFrozen(s, steps[..|steps| - 1], id);
      StepFreezesTerminal(Run(s, steps[..|steps| - 1]), steps[|steps| - 1], id);
    }
  }

  // ------------------------------------------------------------ facts freeze bindings

  lemma AcceptKeepsFactBinding(s: Store, r: Store, userId: string, deviceId: string, event: Event, now: int, c: string)
    requires Inv(s) && c in s.facts
    requires Accepts(s, r, userId, deviceId, event, now)
    ensures r.facts == s.facts && c in r.bindings && r.bindings[c] == s.bindings[c]
  {
  }

  lemma IngestKeepsFactBinding(s: Store, userId: string, deviceId: string, event: Event, at: int, c: string)
    requires Inv(s) && c in s.facts && Decide(s, userId, deviceId, event).Accepted?
    ensures var r := Ingest(s, userId, deviceId, event, at);
            c in r.facts && r.facts[c] == s.facts[c] && c in r.bindings && r.bindings[c] == s.bindings[c]
  {
    var r := Ingest(s, userId, deviceId, event, at);
    IngestAccepts(s, userId, deviceId, event, at);
    AcceptKeepsFactBinding(s, r, userId, deviceId, event, at, c);
  }

  lemma StepKeepsFactBinding(s: Store, step: Step, c: string)
    requires Inv(s) && c in s.facts
    ensures c in Apply(s, step).facts && Apply(s, step).facts[c] == s.facts[c]
    ensures c in Apply(s, step).bindings && Apply(s, step).bindings[c] == s.bindings[c]
  {
    if !step.IngestStep? {
      OtherStepsFrame(s, step);
    } else if Decide(s, step.userId, step.deviceId, step.event).Accepted? {
      IngestKeepsFactBinding(s, step.userId, step.deviceId, step.event, step.at, c);
    }
  }

  /** Once a fact exists neither it nor the session's binding changes again, so they name one policy version forever. */
  lemma {:induction false} FactFreezesBinding(s: Store, steps: seq<Step>, c: string)
    requires Inv(s) && c in s.facts
    ensures c in Run(s, steps).facts && Run(s, steps).facts[c] == s.facts[c]
    ensures c in Run(s, steps).bindings && Run(s, steps).bindings[c] == s.bindings[c]
    ensures Run(s, steps).bindings[c].version == s.facts[c].version
  {
    if steps != [] {
      FactFreezesBinding(s, steps[..|steps| - 1], c);
      RunKeepsInv(s, steps[..|steps| - 1]);
      StepKeepsFactBinding(Run(s, steps[..|steps| - 1]), steps[|steps| - 1], c);
    }
  }

  /**
   Once a fact exists, what persisting answers is settled for every later store: the same
   fact is a duplicate, another one a conflict, and nothing is written.
   */
  lemma PersistedFactAnswers(s: Store, steps: seq<Step>, c: string, fact: Fact, computed: string)
    requires Inv(s) && c in s.facts
    ensures DecideFact(Run(s, steps), c, fact, computed) ==
              if computed != fact.recordDigest then ForgedDigest
              else if fact.version != s.facts[c].version then VersionMismatch
              else if fact.recordDigest == s.facts[c].recordDigest then AlreadyPersisted
              else DigestMismatch
    ensures PersistFact(Run(s, steps), c, fact, computed) == Run(s, steps)
  {
    FactFreezesBinding(s, steps, c);
  }
}
