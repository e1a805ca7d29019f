/**
 The service as the program writes it: transactions that read rows and update them in
 place, one after the other, each proved to be the corresponding step of the store
 model, and the batch endpoint around them.
 */
module AgentService {
  import opened Wrappers
  import opened AgentEvents
  import opened AgentStore
  import opened AgentInvariants
  import opened AgentRuns
  import opened AgentBatch
  import opened Sorting

  class Service {
    const site: Site
    var log: seq<Entry>
    var sessions: map<string, Session>
    var units: map<UnitId, WorkUnit>
    var bindings: map<string, Binding>
    var facts: map<string, Fact>
    var policies: seq<Policy>

    ghost function View(): Store
      reads this
    {
      Store(log, sessions, units, bindings, facts, policies)
    }

    constructor (site: Site, policies: seq<Policy>)
      ensures View() == EmptyStore(policies) && this.site == site
    {
      this.site := site;
      this.log, this.sessions, this.units, this.bindings, this.facts := [], map[], map[], map[], map[];
      this.policies := policies;
    }

    method AssignShadowPolicyIfAvailable(correlationId: string, assignedAt: int)
      modifies this`bindings
      ensures View() == AssignPolicy(old(View()), correlationId, assignedAt)
    {
      var policy := FindPolicy(policies, assignedAt);
      if policy.None? { return; }
      if correlationId !in bindings {
        bindings := bindings[correlationId := Binding(policy.value.version, policy.value.effectiveAt, assignedAt)];
      }
    }

    method RebindShadowPolicyToSessionStart(correlationId: string, sessionStart: int)
      modifies this`bindings
      ensures View() == RebindPolicy(old(View()), correlationId, sessionStart)
    {
      if correlationId !in bindings || bindings[correlationId].effectiveAt <= sessionStart { return; }
      if sessionStart >= bindings[correlationId].assignedAt { return; }
      if correlationId in facts { return; }
      var policy := FindPolicy(policies, sessionStart);
      ghost var before := bindings;
      bindings := bindings - {correlationId};
      if policy.None? { return; }
      bindings := bindings[correlationId := Binding(policy.value.version, policy.value.effectiveAt, sessionStart)];
      assert bindings == before[correlationId := bindings[correlationId]];
    }

    method ProjectWorkUnit(event: Event) returns (id: Option<UnitId>)
      modifies this`units
      ensures id == UnitOf(event)
      ensures View() == old(View()).(units := ProjectUnit(old(units), event))
    {
      id := UnitOf(event);
      if id.None? { return; }
      if id.value in units {
        units := units[id.value := UpdateUnit(units[id.value], event)];
      } else {
        units := units[id.value := CreateUnit(event)];
      }
    }

    method IngestEvent(userId: string, deviceId: string, event: Event, now: int) returns (outcome: IngestOutcome)
      modifies this
      ensures outcome == Decide(old(View()), userId, deviceId, event)
      ensures View() == Ingest(old(View()), userId, deviceId, event, now)
    {
      var c := event.correlationId;
      var existing := FindDuplicate(log, event);
      if existing.Some? {
        var x := existing.value.event;
        if x.correlationId !in sessions
          || sessions[x.correlationId].userId != userId
          || sessions[x.correlationId].deviceId != deviceId
          || x.eventId != event.eventId
          || x.idempotencyKey != event.idempotencyKey
        {
          return IdempotencyConflict;
        }
        return Duplicate;
      }
      if c in sessions && (sessions[c].userId != userId || sessions[c].deviceId != deviceId || sessions[c].provider != event.provider) {
        return ForeignCorrelation;
      }
      if c in sessions && sessions[c].status.Abandoned? { return AbandonedSession; }

      var isNew := c !in sessions;
      var latest := if isNew then None else LatestOf(log, c);
      if isNew {
        if HashTaken(sessions, userId, deviceId, event) { return SessionHashRace; }
        sessions := sessions[c := CreateSession(userId, deviceId, event, now)];
        AssignShadowPolicyIfAvailable(c, event.occurredAt);
      }
      ghost var ready := View();
      assert ready == if isNew then Open(old(View()), userId, deviceId, event, now) else old(View());
      var unit := ProjectWorkUnit(event);
      log := log + [Entry(event, unit, now)];
      if latest.None? || IsAtOrAfterLatest(event, latest.value) {
        sessions := sessions[c := UpdateSession(sessions[c], event, now)];
      }
      if event.eventType.SessionStarted? {
        RebindShadowPolicyToSessionStart(c, event.occurredAt);
      }
      assert View() == Record(ready, event, latest, now);
      return Accepted;
    }

    /** Screen the candidates, then process the admitted events in canonical order, each in its own transaction. */
    method IngestBatch(userId: string, request: Request, checks: Checks, now: int) returns (answer: Result<BatchResult>)
      modifies this
      ensures (View(), answer) == Answer(old(View()), site, userId, request, checks, now)
      ensures old(Inv(View())) ==> Inv(View())
      ensures old(View()).log <= View().log
    {
      if !Supported(request.schemaVersion) { return Err("unsupported protocol version"); }
      if request.header.Some? && !Supported(request.header.value) { return Err("unsupported protocol version"); }
      if request.environmentId != site.environmentId { return Err("environment mismatch"); }
      if |request.candidates| == 0 || |request.candidates| > MAX_BATCH { return Err("invalid batch"); }
      var sanitized, rejected := ScreenCandidates(request, now);
      if sanitized == [] { return Err("no valid events"); }
      if !checks.secretFound { return Err("device secret required"); }
      if !checks.signatureHolds { return Err("invalid signature"); }
      var result := ProcessEvents(userId, request.deviceId, StableSort(sanitized, EventLeq), now);
      answer := if result.failed then Err("storage") else Ok(result.(rejected := rejected + result.rejected));
    }

    /** The first loop of the batch. */
    method ScreenCandidates(request: Request, now: int) returns (sanitized: seq<Event>, rejected: seq<Rejection>)
      ensures sanitized == Admitted(site, request, request.candidates, now)
      ensures rejected == Refused(site, request, request.candidates, now)
    {
      sanitized, rejected := [], [];
      var j := 0;
      while j < |request.candidates|
        invariant 0 <= j <= |request.candidates|
        invariant sanitized == Admitted(site, request, request.candidates[..j], now)
        invariant rejected == Refused(site, request, request.candidates[..j], now)
      {
        var candidate := request.candidates[j];
        ScreenMore(site, request, request.candidates[..j], candidate, now);
        assert request.candidates[..j + 1] == request.candidates[..j] + [candidate];
        var reason := Screen(site, request, candidate, now);
        if reason.Some? {
          rejected := rejected + [(NameOf(candidate), reason.value)];
        } else {
          sanitized := sanitized + [candidate.event];
        }
        j := j + 1;
      }
      assert request.candidates[..j] == request.candidates;
    }

    /** The second loop of the batch; it stops at the first failure that is not a rejection. */
    method ProcessEvents(userId: string, deviceId: string, canonical: seq<Event>, now: int) returns (result: BatchResult)
      modifies this
      ensures (View(), result) == ProcessBatch(old(View()), userId, deviceId, canonical, now)
      ensures old(Inv(View())) ==> Inv(View())
      ensures old(View()).log <= View().log
    {
      BatchGrowsLog(View(), userId, deviceId, canonical, now);
      if Inv(View()) { BatchKeepsInv(View(), userId, deviceId, canonical, now); }
      result := BatchResult([], [], [], false);
      var i := 0;
      while i < |canonical|
        invariant 0 <= i <= |canonical|
        invariant !result.failed
        invariant (View(), result) == ProcessBatch(old(View()), userId, deviceId, canonical[..i], now)
      {
        var event := canonical[i];
        ProcessNext(old(View()), userId, deviceId, canonical, i, now);
        var outcome := IngestEvent(userId, deviceId, event, now);
        result := Acknowledge(result, event.eventId, outcome);
        if result.failed {
          FailureIsFinal(old(View()), userId, deviceId, canonical, i + 1, now);
          return;
        }
        i := i + 1;
      }
      assert canonical[..i] == canonical;
    }

    method ReconcileCandidate(correlationId: string, cutoff: int, now: int) returns (outcome: ReconcileOutcome)
      modifies this`sessions
      ensures outcome == DecideReconcile(old(View()), correlationId, cutoff)
      ensures View() == Reconcile(old(View()), correlationId, cutoff, now)
    {
      if correlationId !in sessions || !sessions[correlationId].status.Active? || sessions[correlationId].endedAt.Some? {
        return Terminal;
      }
      var latest := LatestOf(log, correlationId);
      var received := LatestReceipt(log, correlationId);
      if latest.Some? && latest.value.occurredAt >= cutoff { return RecentEvent; }
      if received.Some? && received.value >= cutoff { return RecentEvent; }
      if HasActiveUnit(units, correlationId) { return ActiveWorkUnit; }
      if sessions[correlationId].updatedAt < cutoff {
        sessions := sessions[correlationId :=
          sessions[correlationId].(status := Abandoned, endedAt := Some(now), updatedAt := now)];
        return MarkedAbandoned;
      }
      return Terminal;
    }

    method PersistSessionFact(correlationId: string, fact: Fact, computed: string) returns (outcome: PersistOutcome)
      modifies this`facts
      ensures outcome == DecideFact(old(View()), correlationId, fact, computed)
      ensures View() == PersistFact(old(View()), correlationId, fact, computed)
      ensures old(Inv(View())) ==> Inv(View())
    {
      if Inv(View()) { PersistFactKeepsInv(View(), correlationId, fact, computed); }
      if computed != fact.recordDigest { return ForgedDigest; }
      if correlationId !in bindings { return NoAssignment; }
      if bindings[correlationId].version != fact.version { return VersionMismatch; }
      if correlationId in facts {
        return if facts[correlationId].recordDigest != fact.recordDigest then DigestMismatch else AlreadyPersisted;
      }
      facts := facts[correlationId := fact];
      return Created;
    }
  }
}
