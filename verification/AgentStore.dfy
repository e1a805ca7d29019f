/**
 The rows that event ingestion, session reconciliation and fact materialisation
 share, and each of their transactions as one atomic step on those rows. Ingestion
 and reconciliation of one correlation exclude each other through an advisory lock,
 so that for these two every concurrent execution is some sequence of steps. Fact
 materialisation takes no lock: that it is one step is an assumption, and
 `AgentFactRace` says what an overlap with a rebinding can leave behind.
 */
module AgentStore {
  import opened Wrappers
  import opened AgentEvents

  datatype Session = Session(
    userId: string,
    deviceId: string,
    provider: string,
    providerSessionHash: Option<string>,
    status: SessionStatus,
    startedAt: int,
    endedAt: Option<int>,
    updatedAt: int
  )

  datatype WorkUnit = WorkUnit(
    status: UnitStatus,
    startedAt: int,
    endedAt: Option<int>,
    outcome: Option<Outcome>,
    toolCallCount: nat,
    subagentCount: nat
  )

  /** A row of the append-only event log, stored under the event's correlation. */
  datatype Entry = Entry(event: Event, workUnit: Option<UnitId>, receivedAt: int)

  datatype PolicyStatus = Draft | Shadow | Experiment | Canary | InForce | Retired | Revoked

  /** A pricing policy. `version` is unique; a database trigger forbids changing anything but the status. */
  datatype Policy = Policy(version: nat, status: PolicyStatus, effectiveAt: int)

  /** A session's policy assignment, with the immutable effective date of the policy it references. */
  datatype Binding = Binding(version: nat, effectiveAt: int, assignedAt: int)

  /** A materialised session fact: the policy version it was computed under and the digest over all its fields. */
  datatype Fact = Fact(version: nat, recordDigest: string)

  /** Sessions, bindings and facts are keyed by the session's unique correlation id. */
  datatype Store = Store(
    log: seq<Entry>,
    sessions: map<string, Session>,
    units: map<UnitId, WorkUnit>,
    bindings: map<string, Binding>,
    facts: map<string, Fact>,
    policies: seq<Policy>
  )

  function EmptyStore(policies: seq<Policy>): Store {
    Store([], map[], map[], map[], map[], policies)
  }

  // ------------------------------------------------------------ queries

  /** The row that already carries this event id or idempotency key. */
  function FindDuplicate(log: seq<Entry>, event: Event): (r: Option<Entry>)
    ensures r.Some? ==> r.value in log && (r.value.event.eventId == event.eventId || r.value.event.idempotencyKey == event.idempotencyKey)
    ensures r.None? ==> forall x | x in log :: x.event.eventId != event.eventId && x.event.idempotencyKey != event.idempotencyKey
  {
    if log == [] then None
    else
      var x := log[0];
      if x.event.eventId == event.eventId || x.event.idempotencyKey == event.idempotencyKey then Some(x)
      else FindDuplicate(log[1..], event)
  }

  /** The first row of the session under `occurred_at DESC, sequence DESC, event_id DESC`. */
  function LatestOf(log: seq<Entry>, correlationId: string): Option<Event> {
    if log == [] then None
    else
      var rest := LatestOf(log[..|log| - 1], correlationId);
      var x := log[|log| - 1].event;
      if x.correlationId != correlationId then rest
      else if rest.None? || ListedBefore(x, rest.value) then Some(x)
      else rest
  }

  /** Receipt time of the session's most recently received row. */
  function LatestReceipt(log: seq<Entry>, correlationId: string): Option<int> {
    if log == [] then None
    else
      var rest := LatestReceipt(log[..|log| - 1], correlationId);
      var x := log[|log| - 1];
      if x.event.correlationId != correlationId then rest
      else if rest.None? || x.receivedAt > rest.value then Some(x.receivedAt)
      else rest
  }

  predicate Selectable(p: Policy, at: int) {
    (p.status.Shadow? || p.status.Experiment?) && p.effectiveAt <= at
  }

  predicate PolicyBefore(p: Policy, q: Policy) {
    p.effectiveAt > q.effectiveAt || (p.effectiveAt == q.effectiveAt && p.version > q.version)
  }

  /** The first selectable policy under `effective_at DESC, version DESC`. */
  function FindPolicy(policies: seq<Policy>, at: int): Option<Policy> {
    if policies == [] then None
    else
      var rest := FindPolicy(policies[1..], at);
      var p := policies[0];
      if !Selectable(p, at) then rest
      else if rest.None? || PolicyBefore(p, rest.value) then Some(p)
      else rest
  }

  predicate HasActiveUnit(units: map<UnitId, WorkUnit>, correlationId: string) {
    exists id | id in units :: id.correlationId == correlationId && units[id].status.UnitActive?
  }

  /** The session table is unique on (user, device, provider, provider session hash) when the hash is present. */
  predicate HashTaken(sessions: map<string, Session>, userId: string, deviceId: string, event: Event) {
    event.providerSessionHash.Some? &&
    exists c | c in sessions ::
      && sessions[c].userId == userId
      && sessions[c].deviceId == deviceId
      && sessions[c].provider == event.provider
      && sessions[c].providerSessionHash == event.providerSessionHash
  }

  // ------------------------------------------------------------ ingestion

  datatype IngestOutcome =
    | Accepted
    | Duplicate
    | IdempotencyConflict
    | ForeignCorrelation
    | AbandonedSession
    | SessionHashRace   // unique violation on the session table; not a per-event rejection

  function CreateSession(userId: string, deviceId: string, event: Event, now: int): Session {
    Session(userId, deviceId, event.provider, event.providerSessionHash, SessionStatusFor(event.eventType), event.occurredAt, None, now)
  }

  /** No key but `key` was added, removed or changed. */
  ghost predicate OthersUntouched<V>(before: map<string, V>, after: map<string, V>, key: string) {
    && (forall d | d in after && d != key :: d in before && after[d] == before[d])
    && (forall d | d in before && d != key :: d in after)
  }

  /** `assignShadowPolicyIfAvailable`: bind at creation; an existing binding is left alone. */
  function AssignPolicy(s: Store, correlationId: string, assignedAt: int): (r: Store)
    ensures r == s.(bindings := r.bindings)
    ensures OthersUntouched(s.bindings, r.bindings, correlationId)
  {
    match FindPolicy(s.policies, assignedAt)
    case None => s
    case Some(policy) =>
      if correlationId in s.bindings then s
      else s.(bindings := s.bindings[correlationId := Binding(policy.version, policy.effectiveAt, assignedAt)])
  }

  /** `rebindShadowPolicyToSessionStart`. */
  function RebindPolicy(s: Store, correlationId: string, sessionStart: int): (r: Store)
    ensures r == s.(bindings := r.bindings)
    ensures OthersUntouched(s.bindings, r.bindings, correlationId)
  {
    if correlationId !in s.bindings then s
    else
      var existing := s.bindings[correlationId];
      if existing.effectiveAt <= sessionStart then s
      else if sessionStart >= existing.assignedAt then s
      else if correlationId in s.facts then s
      else
        match FindPolicy(s.policies, sessionStart)
        case None => s.(bindings := s.bindings - {correlationId})
        case Some(policy) =>
          s.(bindings := s.bindings[correlationId := Binding(policy.version, policy.effectiveAt, sessionStart)])
  }

  function CreateUnit(event: Event): WorkUnit {
    WorkUnit(
      WorkUnitStatusFor(event.eventType),
      event.occurredAt,
      if IsTerminalEvent(event.eventType) then Some(event.occurredAt) else None,
      OutcomeFor(event.eventType),
      if event.eventType.ToolStarted? then 1 else 0,
      if event.eventType.SubagentStarted? then 1 else 0)
  }

  /** An undefined field of a Prisma update leaves the column as it is. */
  function SetIfDefined<T>(current: Option<T>, update: Option<T>): Option<T> {
    if update.Some? then update else current
  }

  function UpdateUnit(unit: WorkUnit, event: Event): WorkUnit {
    var terminal := IsTerminalStatus(unit.status);
    unit.(
      status := if terminal then unit.status else WorkUnitStatusFor(event.eventType),
      endedAt := if terminal then unit.endedAt
                 else SetIfDefined(unit.endedAt, if IsTerminalEvent(event.eventType) then Some(event.occurredAt) else None),
      outcome := if terminal then unit.outcome else SetIfDefined(unit.outcome, OutcomeFor(event.eventType)),
      toolCallCount := unit.toolCallCount + (if event.eventType.ToolStarted? then 1 else 0),
      subagentCount := unit.subagentCount + (if event.eventType.SubagentStarted? then 1 else 0))
  }

  /** `projectWorkUnit`; the event's unit, if it has one, is created or updated. */
  function ProjectUnit(units: map<UnitId, WorkUnit>, event: Event): map<UnitId, WorkUnit> {
    match UnitOf(event)
    case None => units
    case Some(id) => units[id := if id in units then UpdateUnit(units[id], event) else CreateUnit(event)]
  }

  /** `sessionUpdateFor`, applied: only lifecycle events touch the row, and only an end sets `endedAt`. */
  function UpdateSession(session: Session, event: Event, now: int): Session {
    match event.eventType
    case SessionEnded => session.(status := Ended, endedAt := Some(event.occurredAt), updatedAt := now)
    case SessionPaused => session.(status := Paused, updatedAt := now)
    case SessionResumed => session.(status := Active, updatedAt := now)
    case SessionStarted => session.(status := Active, updatedAt := now)
    case _ => session
  }

  /** The rest of the transaction once the session row exists. `latest` was read before the append. */
  function Record(s: Store, event: Event, latest: Option<Event>, now: int): (r: Store)
    requires event.correlationId in s.sessions
    ensures r.log == s.log + [Entry(event, UnitOf(event), now)]
    ensures r.units == ProjectUnit(s.units, event) && r.facts == s.facts && r.policies == s.policies
    ensures r.sessions.Keys == s.sessions.Keys
    ensures OthersUntouched(s.sessions, r.sessions, event.correlationId)
    ensures OthersUntouched(s.bindings, r.bindings, event.correlationId)
  {
    var c := event.correlationId;
    var projected := s.(units := ProjectUnit(s.units, event), log := s.log + [Entry(event, UnitOf(event), now)]);
    var isLatest := latest.None? || IsAtOrAfterLatest(event, latest.value);
    var updated :=
      if isLatest then projected.(sessions := s.sessions[c := UpdateSession(s.sessions[c], event, now)]) else projected;
    if event.eventType.SessionStarted? then RebindPolicy(updated, c, event.occurredAt) else updated
  }

  /** The state right after a new session has been created and bound. */
  function Open(s: Store, userId: string, deviceId: string, event: Event, now: int): (r: Store)
    ensures r.sessions == s.sessions[event.correlationId := CreateSession(userId, deviceId, event, now)]
    ensures r.log == s.log && r.units == s.units && r.facts == s.facts && r.policies == s.policies
    ensures OthersUntouched(s.bindings, r.bindings, event.correlationId)
  {
    AssignPolicy(
      s.(sessions := s.sessions[event.correlationId := CreateSession(userId, deviceId, event, now)]),
      event.correlationId, event.occurredAt)
  }

  /** What the transaction decides before it writes anything. */
  function Decide(s: Store, userId: string, deviceId: string, event: Event): IngestOutcome {
    var duplicate := FindDuplicate(s.log, event);
    if duplicate.Some? then
      var x := duplicate.value.event;
      if x.correlationId in s.sessions
        && s.sessions[x.correlationId].userId == userId
        && s.sessions[x.correlationId].deviceId == deviceId
        && x.eventId == event.eventId
        && x.idempotencyKey == event.idempotencyKey
      then Duplicate else IdempotencyConflict
    else if event.correlationId in s.sessions then
      var session := s.sessions[event.correlationId];
      if session.userId != userId || session.deviceId != deviceId || session.provider != event.provider then ForeignCorrelation
      else if session.status.Abandoned? then AbandonedSession
      else Accepted
    else if HashTaken(s.sessions, userId, deviceId, event) then SessionHashRace
    else Accepted
  }

  /** `ingestEvent`: anything but acceptance leaves the store as it was. */
  function Ingest(s: Store, userId: string, deviceId: string, event: Event, now: int): Store {
    if !Decide(s, userId, deviceId, event).Accepted? then s
    else if event.correlationId in s.sessions then Record(s, event, LatestOf(s.log, event.correlationId), now)
    else Record(Open(s, userId, deviceId, event, now), event, None, now)
  }

  // ------------------------------------------------------------ reconciliation

  datatype ReconcileOutcome = Terminal | RecentEvent | ActiveWorkUnit | MarkedAbandoned

  function DecideReconcile(s: Store, correlationId: string, cutoff: int): ReconcileOutcome {
    if correlationId !in s.sessions then Terminal
    else
      var session := s.sessions[correlationId];
      if !session.status.Active? || session.endedAt.Some? then Terminal
      else
        var latest := LatestOf(s.log, correlationId);
        var received := LatestReceipt(s.log, correlationId);
        if latest.Some? && latest.value.occurredAt >= cutoff then RecentEvent
        else if received.Some? && received.value >= cutoff then RecentEvent
        else if HasActiveUnit(s.units, correlationId) then ActiveWorkUnit
        else if session.updatedAt < cutoff then MarkedAbandoned
        else Terminal
  }

  /** `reconcileCandidate`. */
  function Reconcile(s: Store, correlationId: string, cutoff: int, now: int): Store {
    if DecideReconcile(s, correlationId, cutoff).MarkedAbandoned? then
      s.(sessions := s.sessions[correlationId :=
          s.sessions[correlationId].(status := Abandoned, endedAt := Some(now), updatedAt := now)])
    else s
  }

  // ------------------------------------------------------------ facts and policies

  datatype PersistOutcome = Created | AlreadyPersisted | ForgedDigest | NoAssignment | VersionMismatch | DigestMismatch

  /** What persisting a fact answers; `computed` is the digest recomputed over the fact's content. */
  function DecideFact(s: Store, correlationId: string, fact: Fact, computed: string): PersistOutcome {
    if computed != fact.recordDigest then ForgedDigest
    else if correlationId !in s.bindings then NoAssignment
    else if s.bindings[correlationId].version != fact.version then VersionMismatch
    else if correlationId !in s.facts then Created
    else if s.facts[correlationId].recordDigest != fact.recordDigest then DigestMismatch
    else AlreadyPersisted
  }

  /** Only a first fact is written. */
  function PersistFact(s: Store, correlationId: string, fact: Fact, computed: string): Store {
    if DecideFact(s, correlationId, fact, computed).Created? then s.(facts := s.facts[correlationId := fact]) else s
  }

  predicate VersionTaken(policies: seq<Policy>, version: nat) {
    exists p | p in policies :: p.version == version
  }

  /** Only drafts, shadows and experiments are provisioned, and a version that already exists is never overwritten. */
  function ProvisionPolicy(s: Store, policy: Policy): Store {
    if !(policy.status.Draft? || policy.status.Shadow? || policy.status.Experiment?) then s
    else if VersionTaken(s.policies, policy.version) then s
    else s.(policies := s.policies + [policy])
  }

  /** Operators may only change the status of a policy. */
  function SetPolicyStatus(s: Store, version: nat, status: PolicyStatus): Store {
    s.(policies := seq(|s.policies|, i requires 0 <= i < |s.policies| =>
      if s.policies[i].version == version then s.policies[i].(status := status) else s.policies[i]))
  }

  // ------------------------------------------------------------ runs

  datatype Step =
    | IngestStep(userId: string, deviceId: string, event: Event, at: int)
    | ReconcileStep(correlationId: string, cutoff: int, at: int)
    | FactStep(correlationId: string, fact: Fact, computed: string)
    | ProvisionStep(policy: Policy)
    | PolicyStatusStep(version: nat, status: PolicyStatus)

  function Apply(s: Store, step: Step): Store {
    match step
    case IngestStep(userId, deviceId, event, at) => Ingest(s, userId, deviceId, event, at)
    case ReconcileStep(c, cutoff, at) => Reconcile(s, c, cutoff, at)
    case FactStep(c, fact, computed) => PersistFact(s, c, fact, computed)
    case ProvisionStep(policy) => ProvisionPolicy(s, policy)
    case PolicyStatusStep(version, status) => SetPolicyStatus(s, version, status)
  }

  /** The store after a run: any list of steps, in any interleaving. */
  function Run(s: Store, steps: seq<Step>): Store {
    if steps == [] then s else Apply(Run(s, steps[..|steps| - 1]), steps[|steps| - 1])
  }

  ghost predicate Reachable(s: Store) {
    exists policies, steps :: UniqueVersions(policies) && s == Run(EmptyStore(policies), steps)
  }

  ghost predicate UniqueVersions(policies: seq<Policy>) {
    forall i, j | 0 <= i < j < |policies| :: policies[i].version != policies[j].version
  }
}
