/**
 What each transaction answers and writes, column by column and told from the rows and the
 event alone: ingestion, reconciliation, fact persistence and policy administration.
 */
module AgentRows {
  import opened Wrappers
  import opened AgentEvents
  import opened AgentStore
  import opened AgentInvariants
  import opened AgentRuns
  import opened AgentPolicyBinding

  // ------------------------------------------------------------ what ingestion answers

  /** A row carries the event's id or its idempotency key. */
  ghost predicate Clashes(s: Store, event: Event) {
    exists x :: x in s.log && (x.event.eventId == event.eventId || x.event.idempotencyKey == event.idempotencyKey)
  }

  /** A row carries both, and its session is the sender's. */
  ghost predicate IsKnown(s: Store, userId: string, deviceId: string, event: Event) {
    exists x :: x in s.log && x.event.eventId == event.eventId && x.event.idempotencyKey == event.idempotencyKey
                && x.event.correlationId in s.sessions
                && s.sessions[x.event.correlationId].userId == userId && s.sessions[x.event.correlationId].deviceId == deviceId
  }

  /** Another session has the sender's provider session hash. */
  ghost predicate HashIsUsed(s: Store, userId: string, deviceId: string, event: Event) {
    event.providerSessionHash.Some? &&
    exists d :: d in s.sessions && s.sessions[d].userId == userId && s.sessions[d].deviceId == deviceId
                && s.sessions[d].provider == event.provider && s.sessions[d].providerSessionHash == event.providerSessionHash
  }

  lemma FoundIsClash(s: Store, event: Event)
    ensures FindDuplicate(s.log, event).Some? <==> Clashes(s, event)
  {
    if FindDuplicate(s.log, event).Some? { assert FindDuplicate(s.log, event).value in s.log; }
  }

  /** Each outcome exactly when its condition holds of the rows, in every reachable store. */
  lemma OutcomeMeans(s: Store, userId: string, deviceId: string, event: Event)
    requires Inv(s)
    ensures var d := Decide(s, userId, deviceId, event); var c := event.correlationId;
            && (d.Duplicate? <==> IsKnown(s, userId, deviceId, event))
            && (d.IdempotencyConflict? <==> Clashes(s, event) && !IsKnown(s, userId, deviceId, event))
            && (d.ForeignCorrelation? <==>
                  !Clashes(s, event) && c in s.sessions
                  && (s.sessions[c].userId != userId || s.sessions[c].deviceId != deviceId || s.sessions[c].provider != event.provider))
            && (d.AbandonedSession? <==>
                  && !Clashes(s, event) && c in s.sessions && s.sessions[c].userId == userId && s.sessions[c].deviceId == deviceId
                  && s.sessions[c].provider == event.provider && s.sessions[c].status == Abandoned)
            && (d.SessionHashRace? <==> !Clashes(s, event) && c !in s.sessions && HashIsUsed(s, userId, deviceId, event))
  {
    FoundIsClash(s, event);
    if IsKnown(s, userId, deviceId, event) {
      ProcessedIsDuplicate(s, userId, deviceId, event);
    }
    if Decide(s, userId, deviceId, event).Duplicate? {
      assert FindDuplicate(s.log, event).value in s.log;
    }
  }

  // ------------------------------------------------------------ what an accepted event writes

  /** `x` lies after `event` in time, then in sequence with none last, then in id. */
  predicate LiesAfter(x: Event, event: Event) {
    || x.occurredAt > event.occurredAt
    || (x.occurredAt == event.occurredAt
        && match (x.sequence, event.sequence)
           case (Some(m), Some(n)) => m > n || (m == n && x.eventId > event.eventId)
           case (None, None) => x.eventId > event.eventId
           case (None, Some(_)) => true
           case (Some(_), None) => false)
  }

  lemma GateIsNotAfter(event: Event, x: Event)
    ensures IsAtOrAfterLatest(event, x) <==> !LiesAfter(x, event)
  {
  }

  lemma LatestGate(s: Store, event: Event)
    requires Inv(s) && event.correlationId in s.sessions
    ensures IsAtOrAfterLatest(event, LatestOf(s.log, event.correlationId).value) <==>
              forall x | x in s.log && x.event.correlationId == event.correlationId :: !LiesAfter(x.event, event)
  {
    var c := event.correlationId;
    LatestIsMaximal(s.log, c);
    var latest := LatestOf(s.log, c).value;
    GateIsNotAfter(event, latest);
    forall x | x in s.log && x.event.correlationId == c && IsAtOrAfterLatest(event, latest) ensures !LiesAfter(x.event, event) {
      GateTransitive(event, latest, x.event);
      GateIsNotAfter(event, x.event);
    }
  }

  /** The row after an event about its lifecycle that nothing logged lies after. */
  predicate FollowsEvent(before: Session, after: Session, event: Event, now: int) {
    && after.status == (if event.eventType.SessionEnded? then Ended else if event.eventType.SessionPaused? then Paused else Active)
    && after.endedAt == (if event.eventType.SessionEnded? then Some(event.occurredAt) else before.endedAt)
    && after.updatedAt == now
  }

  /**
   The session row after an accepted event. A known session keeps identity and start; only a
   start, resume, pause or end that no logged event of the session lies after moves its
   status, its end and its update time. A new one starts with the event. No other row changes.
   */
  lemma AcceptedSessionRow(s: Store, userId: string, deviceId: string, event: Event, now: int)
    requires Inv(s) && Decide(s, userId, deviceId, event).Accepted?
    ensures
      var r := Ingest(s, userId, deviceId, event, now); var c := event.correlationId;
      && r.sessions.Keys == s.sessions.Keys + {c}
      && (forall d | d in s.sessions && d != c :: r.sessions[d] == s.sessions[d])
      && if c !in s.sessions then
           r.sessions[c] == Session(
             userId, deviceId, event.provider, event.providerSessionHash,
             if event.eventType.SessionEnded? then Ended else if event.eventType.SessionPaused? then Paused else Active,
             event.occurredAt, if event.eventType.SessionEnded? then Some(event.occurredAt) else None, now)
         else
           var a, b := s.sessions[c], r.sessions[c];
           && b == a.(status := b.status, endedAt := b.endedAt, updatedAt := b.updatedAt)
           && if (event.eventType in {SessionStarted, SessionResumed, SessionPaused, SessionEnded})
                 && forall x | x in s.log && x.event.correlationId == c :: !LiesAfter(x.event, event)
              then FollowsEvent(a, b, event, now) else b == a
  {
    IngestAccepts(s, userId, deviceId, event, now);
    if event.correlationId in s.sessions { LatestGate(s, event); }
  }

  /** The log, the facts and the policies after an accepted event: one more row, received now. */
  lemma AcceptedLogRow(s: Store, userId: string, deviceId: string, event: Event, now: int)
    requires Decide(s, userId, deviceId, event).Accepted?
    ensures var r := Ingest(s, userId, deviceId, event, now);
            && |r.log| == |s.log| + 1 && r.log[..|s.log|] == s.log && r.log[|s.log|].event == event && r.log[|s.log|].receivedAt == now
            && r.facts == s.facts && r.policies == s.policies
  {
    IngestAccepts(s, userId, deviceId, event, now);
  }

  /** This policy, in use and in effect by `at`, bound at `at`. */
  ghost predicate BoundAt(policies: seq<Policy>, b: Binding, at: int) {
    b.assignedAt == at && exists p :: IsInForce(policies, at, p) && b.version == p.version && b.effectiveAt == p.effectiveAt
  }

  /**
   The binding after an accepted event. A new session is bound at the event, a session
   without a fact whose policy took effect after a start of it is bound anew at that start,
   both to the policy in use then, or to none when there is none. Nothing else changes.
   */
  lemma AcceptedBindingRow(s: Store, userId: string, deviceId: string, event: Event, now: int)
    requires Inv(s) && Decide(s, userId, deviceId, event).Accepted?
    ensures
      var r := Ingest(s, userId, deviceId, event, now); var c := event.correlationId;
      && (forall d | d != c :: (d in r.bindings <==> d in s.bindings) && (d in s.bindings ==> r.bindings[d] == s.bindings[d]))
      && if c !in s.sessions
            || (event.eventType.SessionStarted? && c in s.bindings && event.occurredAt < s.bindings[c].effectiveAt && c !in s.facts)
         then if exists p :: IsInForce(s.policies, event.occurredAt, p)
              then c in r.bindings && BoundAt(s.policies, r.bindings[c], event.occurredAt) else c !in r.bindings
         else (c in r.bindings <==> c in s.bindings) && (c in s.bindings ==> r.bindings[c] == s.bindings[c])
  {
    IngestBinds(s, userId, deviceId, event, now);
    FindPolicyIsInForce(s.policies, event.occurredAt);
  }

  // ------------------------------------------------------------ reconciliation

  /** Some row of the session is not before the cutoff, by either of its clocks. */
  ghost predicate IsRecent(s: Store, c: string, cutoff: int) {
    exists x :: x in s.log && x.event.correlationId == c && (x.event.occurredAt >= cutoff || x.receivedAt >= cutoff)
  }

  ghost predicate IsAtWork(s: Store, c: string) {
    exists id :: id in s.units && id.correlationId == c && s.units[id].status == UnitActive
  }

  /** Each answer of a reconciliation exactly when its condition holds of the rows. */
  lemma ReconciliationMeans(s: Store, c: string, cutoff: int)
    requires Inv(s)
    ensures
      var d := DecideReconcile(s, c, cutoff);
      var open := c in s.sessions && s.sessions[c].status == Active && s.sessions[c].endedAt == None;
      && (d.RecentEvent? <==> open && IsRecent(s, c, cutoff))
      && (d.ActiveWorkUnit? <==> open && !IsRecent(s, c, cutoff) && IsAtWork(s, c))
      && (d.MarkedAbandoned? <==> open && !IsRecent(s, c, cutoff) && !IsAtWork(s, c) && s.sessions[c].updatedAt < cutoff)
  {
    LatestIsMaximal(s.log, c);
    ReceiptIsMaximal(s.log, c);
    if x :| x in s.log && x.event.correlationId == c && (x.event.occurredAt >= cutoff || x.receivedAt >= cutoff) {
      assert LatestOf(s.log, c).Some? && LatestReceipt(s.log, c).Some?;
    }
  }

  /** A reconciliation that abandons writes status, end and update time of that session's row, any other nothing at all. */
  lemma ReconciliationWrites(s: Store, c: string, cutoff: int, now: int)
    ensures
      var r := Apply(s, ReconcileStep(c, cutoff, now));
      if DecideReconcile(s, c, cutoff).MarkedAbandoned? then
        && c in s.sessions && c in r.sessions && r.sessions.Keys == s.sessions.Keys
        && (forall d | d in s.sessions && d != c :: r.sessions[d] == s.sessions[d])
        && r.log == s.log && r.units == s.units && r.bindings == s.bindings && r.facts == s.facts && r.policies == s.policies
        && var a, b := s.sessions[c], r.sessions[c];
           && b.status == Abandoned && b.endedAt == Some(now) && b.updatedAt == now
           && b.userId == a.userId && b.deviceId == a.deviceId && b.provider == a.provider
           && b.providerSessionHash == a.providerSessionHash && b.startedAt == a.startedAt
      else r == s
  {
  }

  /** After a reconciliation that abandons, in every later store, a fresh event of the session from its own sender is refused. */
  lemma AbandonedIsRefused(s: Store, c: string, cutoff: int, now: int, steps: seq<Step>, event: Event)
    requires Inv(s) && DecideReconcile(s, c, cutoff).MarkedAbandoned? && event.correlationId == c
    ensures
      var later := Run(Apply(s, ReconcileStep(c, cutoff, now)), steps);
      !Clashes(later, event) && event.provider == s.sessions[c].provider ==>
        Decide(later, s.sessions[c].userId, s.sessions[c].deviceId, event) == AbandonedSession
  {
    var r := Apply(s, ReconcileStep(c, cutoff, now));
    ReconciliationWrites(s, c, cutoff, now);
    StepKeepsInv(s, ReconcileStep(c, cutoff, now));
    AbandonedIsAbsorbing(r, steps, c);
    RunKeepsInv(r, steps);
    OutcomeMeans(Run(r, steps), s.sessions[c].userId, s.sessions[c].deviceId, event);
  }

  // ------------------------------------------------------------ facts and policies

  /** Each answer of a fact's persistence exactly when its condition holds, and what is written: the fact, once. */
  lemma PersistenceMeans(s: Store, c: string, fact: Fact, computed: string)
    ensures
      var d, r := DecideFact(s, c, fact, computed), Apply(s, FactStep(c, fact, computed));
      var own := computed == fact.recordDigest;
      var matching := own && c in s.bindings && s.bindings[c].version == fact.version;
      && (d.ForgedDigest? <==> !own)
      && (d.NoAssignment? <==> own && c !in s.bindings)
      && (d.VersionMismatch? <==> own && c in s.bindings && s.bindings[c].version != fact.version)
      && (d.AlreadyPersisted? <==> matching && c in s.facts && s.facts[c].recordDigest == fact.recordDigest)
      && (d.DigestMismatch? <==> matching && c in s.facts && s.facts[c].recordDigest != fact.recordDigest)
      && (d.Created? <==> matching && c !in s.facts)
      && r == s.(facts := r.facts)
      && if d.Created? then r.facts.Keys == s.facts.Keys + {c} && r.facts[c] == fact && forall e | e in s.facts :: r.facts[e] == s.facts[e]
         else r.facts == s.facts
  {
  }

  /** Provisioning adds a draft, shadow or experiment unless its version exists; nothing else changes. */
  lemma ProvisioningWrites(s: Store, policy: Policy)
    ensures
      var r := Apply(s, ProvisionStep(policy));
      && r == s.(policies := r.policies)
      && (if policy.status in {Canary, InForce, Retired, Revoked} || exists p :: p in s.policies && p.version == policy.version
          then r.policies == s.policies
          else |r.policies| == |s.policies| + 1 && r.policies[..|s.policies|] == s.policies && r.policies[|s.policies|] == policy)
  {
  }

  /** A status change reaches every row of that version, its status and nothing else. */
  lemma StatusChangeWrites(s: Store, version: nat, status: PolicyStatus)
    ensures
      var r := Apply(s, PolicyStatusStep(version, status));
      && r == s.(policies := r.policies) && |r.policies| == |s.policies|
      && forall i | 0 <= i < |s.policies| ::
           && r.policies[i].version == s.policies[i].version && r.policies[i].effectiveAt == s.policies[i].effectiveAt
           && r.policies[i].status == (if s.policies[i].version == version then status else s.policies[i].status)
  {
  }
}
