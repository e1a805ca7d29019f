/**
 Lifecycle events of a coding agent and everything the API derives from one event
 alone: its place in the session order, the session status it announces and the
 work unit it belongs to.
 */
module AgentEvents {
  import opened Wrappers

  datatype EventType =
    | SessionStarted | SessionResumed | SessionPaused | SessionEnded
    | TurnSubmitted | TurnProcessingStarted | TurnProcessingStopped | TurnCompleted | TurnFailed | TurnCancelled
    | ToolStarted | ToolSucceeded | ToolFailed | ToolBatchCompleted
    | InputRequired | InputResolved
    | PermissionRequired | PermissionAllowed | PermissionDenied
    | SubagentStarted | SubagentStopped
    | TaskCreated | TaskCompleted | TaskFailed
    | UserForegrounded | UserBackgrounded | UserReturned | UserInteracted
    | DeviceLocked | DeviceUnlocked
    | SurfaceVisible | SurfaceHidden
    | IntegrationConnected | IntegrationDegraded | IntegrationDisconnected
    | QueueBackpressure | EventRejected

  /** The wire name of an event type. */
  function Name(t: EventType): string {
    match t
    case SessionStarted => "session.started"
    case SessionResumed => "session.resumed"
    case SessionPaused => "session.paused"
    case SessionEnded => "session.ended"
    case TurnSubmitted => "turn.submitted"
    case TurnProcessingStarted => "turn.processing_started"
    case TurnProcessingStopped => "turn.processing_stopped"
    case TurnCompleted => "turn.completed"
    case TurnFailed => "turn.failed"
    case TurnCancelled => "turn.cancelled"
    case ToolStarted => "tool.started"
    case ToolSucceeded => "tool.succeeded"
    case ToolFailed => "tool.failed"
    case ToolBatchCompleted => "tool.batch_completed"
    case InputRequired => "input.required"
    case InputResolved => "input.resolved"
    case PermissionRequired => "permission.required"
    case PermissionAllowed => "permission.allowed"
    case PermissionDenied => "permission.denied"
    case SubagentStarted => "subagent.started"
    case SubagentStopped => "subagent.stopped"
    case TaskCreated => "task.created"
    case TaskCompleted => "task.completed"
    case TaskFailed => "task.failed"
    case UserForegrounded => "user.foregrounded"
    case UserBackgrounded => "user.backgrounded"
    case UserReturned => "user.returned"
    case UserInteracted => "user.interacted"
    case DeviceLocked => "device.locked"
    case DeviceUnlocked => "device.unlocked"
    case SurfaceVisible => "surface.visible"
    case SurfaceHidden => "surface.hidden"
    case IntegrationConnected => "integration.connected"
    case IntegrationDegraded => "integration.degraded"
    case IntegrationDisconnected => "integration.disconnected"
    case QueueBackpressure => "queue.backpressure"
    case EventRejected => "event.rejected"
  }

  predicate StartsWith(s: string, prefix: string) {
    |prefix| <= |s| && s[..|prefix|] == prefix
  }

  predicate EndsWith(s: string, suffix: string) {
    |suffix| <= |s| && s[|s| - |suffix|..] == suffix
  }

  /** Sequence numbers are bounded by the event schema, far below the stand-in for an absent one. */
  type Sequence = n: nat | n <= 10_000_000

  const MAX_SAFE_INTEGER: nat := 0x1F_FFFF_FFFF_FFFF

  /** The fields of an event that ingestion reads. `eventId` is the id's rank in the total order of ids. */
  datatype Event = Event(
    eventId: nat,
    idempotencyKey: string,
    eventType: EventType,
    occurredAt: int,
    sequence: Option<Sequence>,
    correlationId: string,
    causationId: Option<string>,
    provider: string,
    providerSessionHash: Option<string>,
    providerTurnHash: Option<string>,
    providerTaskHash: Option<string>
  )

  // ------------------------------------------------------------ the session order

  function SequenceOrMax(sequence: Option<Sequence>): nat {
    match sequence
    case Some(n) => n
    case None => MAX_SAFE_INTEGER
  }

  /** The ingestion gate: is `event` at or after `latest`? */
  predicate IsAtOrAfterLatest(event: Event, latest: Event) {
    if event.occurredAt != latest.occurredAt then event.occurredAt > latest.occurredAt
    else
      var sequence := SequenceOrMax(event.sequence);
      var latestSequence := SequenceOrMax(latest.sequence);
      if sequence != latestSequence then sequence > latestSequence
      else event.eventId >= latest.eventId
  }

  /** `compareAgentEvents` as a sort order. */
  predicate EventLeq(left: Event, right: Event) {
    IsAtOrAfterLatest(right, left)
  }

  /** Does the database list `a` before `b` under `occurred_at DESC, sequence DESC, event_id DESC`? Descending order puts nulls first. */
  predicate ListedBefore(a: Event, b: Event) {
    if a.occurredAt != b.occurredAt then a.occurredAt > b.occurredAt
    else if a.sequence != b.sequence then
      a.sequence.None? || (b.sequence.Some? && a.sequence.value > b.sequence.value)
    else a.eventId > b.eventId
  }

  /** The gate and the query that fetches the latest event use one and the same total order. */
  lemma GateAgreesWithQueryOrder(a: Event, b: Event)
    ensures ListedBefore(a, b) <==> IsAtOrAfterLatest(a, b) && !IsAtOrAfterLatest(b, a)
    ensures IsAtOrAfterLatest(a, b) || IsAtOrAfterLatest(b, a)
    ensures IsAtOrAfterLatest(a, b) && IsAtOrAfterLatest(b, a) <==>
              a.occurredAt == b.occurredAt && a.sequence == b.sequence && a.eventId == b.eventId
  {
    if a.sequence.Some? && b.sequence.Some? {
      assert SequenceOrMax(a.sequence) == SequenceOrMax(b.sequence) ==> a.sequence == b.sequence;
    }
  }

  lemma GateTransitive(a: Event, b: Event, c: Event)
    requires IsAtOrAfterLatest(a, b) && IsAtOrAfterLatest(b, c)
    ensures IsAtOrAfterLatest(a, c)
  {}

  // ------------------------------------------------------------ session status

  datatype SessionStatus = Active | Paused | Ended | Abandoned

  /** Status of a session created by this event. */
  function SessionStatusFor(t: EventType): SessionStatus {
    match t
    case SessionEnded => Ended
    case SessionPaused => Paused
    case _ => Active
  }

  /** A lifecycle event is one that announces a status when it is the latest. */
  predicate IsLifecycle(t: EventType) {
    t.SessionStarted? || t.SessionResumed? || t.SessionPaused? || t.SessionEnded?
  }

  // ------------------------------------------------------------ work units

  datatype UnitKind = Turn | Tool | Subagent | Task
  datatype UnitStatus = UnitActive | UnitCompleted | UnitFailed | UnitCancelled | UnitStopped
  datatype Outcome = Success | Failure | Cancelled
  datatype UnitId = UnitId(correlationId: string, kind: UnitKind, key: string)

  function KindOf(t: EventType): Option<UnitKind> {
    match t
    case TurnSubmitted | TurnProcessingStarted | TurnProcessingStopped | TurnCompleted | TurnFailed | TurnCancelled => Some(Turn)
    case ToolStarted | ToolSucceeded | ToolFailed | ToolBatchCompleted => Some(Tool)
    case SubagentStarted | SubagentStopped => Some(Subagent)
    case TaskCreated | TaskCompleted | TaskFailed => Some(Task)
    case _ => None
  }

  function WorkUnitStatusFor(t: EventType): UnitStatus {
    match t
    case TurnFailed | ToolFailed | TaskFailed => UnitFailed
    case TurnCancelled => UnitCancelled
    case TurnCompleted | TaskCompleted | ToolSucceeded => UnitCompleted
    case SubagentStopped => UnitStopped
    case _ => UnitActive
  }

  predicate IsTerminalStatus(status: UnitStatus) {
    !status.UnitActive?
  }

  predicate IsTerminalEvent(t: EventType) {
    match t
    case TurnFailed | ToolFailed | TaskFailed | TurnCancelled | TurnCompleted | TaskCompleted | ToolSucceeded | SubagentStopped => true
    case _ => false
  }

  function OutcomeFor(t: EventType): Option<Outcome> {
    match t
    case TurnCompleted | TaskCompleted | ToolSucceeded => Some(Success)
    case TurnFailed | ToolFailed | TaskFailed => Some(Failure)
    case TurnCancelled => Some(Cancelled)
    case _ => None
  }

  // The same four derivations as the service spells them, on the wire name.

  function KindByName(name: string): Option<UnitKind> {
    if StartsWith(name, "turn.") then Some(Turn)
    else if StartsWith(name, "tool.") then Some(Tool)
    else if StartsWith(name, "subagent.") then Some(Subagent)
    else if StartsWith(name, "task.") then Some(Task)
    else None
  }

  function StatusByName(name: string): UnitStatus {
    if EndsWith(name, ".failed") then UnitFailed
    else if EndsWith(name, ".cancelled") then UnitCancelled
    else if EndsWith(name, ".completed") || EndsWith(name, ".succeeded") then UnitCompleted
    else if EndsWith(name, ".stopped") then UnitStopped
    else UnitActive
  }

  predicate TerminalByName(name: string) {
    || EndsWith(name, ".completed") || EndsWith(name, ".succeeded") || EndsWith(name, ".failed")
    || EndsWith(name, ".cancelled") || EndsWith(name, ".stopped")
  }

  function OutcomeByName(name: string): Option<Outcome> {
    if EndsWith(name, ".completed") || EndsWith(name, ".succeeded") then Some(Success)
    else if EndsWith(name, ".failed") then Some(Failure)
    else if EndsWith(name, ".cancelled") then Some(Cancelled)
    else None
  }

  /**
   The tables above are what the prefix and suffix tests on the wire names yield;
   in particular `tool.batch_completed` and `turn.processing_stopped` end a word, not
   a dotted segment, and so end no work unit.
   */
  lemma TablesMatchNames(t: EventType)
    ensures KindByName(Name(t)) == KindOf(t)
    ensures KindOf(t).Some? ==> StatusByName(Name(t)) == WorkUnitStatusFor(t)
    ensures KindOf(t).Some? ==> (TerminalByName(Name(t)) <==> IsTerminalEvent(t))
    ensures KindOf(t).Some? ==> OutcomeByName(Name(t)) == OutcomeFor(t)
  {
    KindTableMatches(t);
    if KindOf(t).Some? {
      EndingsMatch(t);
      TablesByEnding(t, Name(t));
    }
  }

  /** The name ends like those of the events listed for its ending. */
  predicate EndsAs(t: EventType, name: string) {
    && (EndsWith(name, ".failed") <==> t.TurnFailed? || t.ToolFailed? || t.TaskFailed?)
    && (EndsWith(name, ".cancelled") <==> t.TurnCancelled?)
    && (EndsWith(name, ".completed") <==> t.TurnCompleted? || t.TaskCompleted?)
    && (EndsWith(name, ".succeeded") <==> t.ToolSucceeded?)
    && (EndsWith(name, ".stopped") <==> t.SubagentStopped?)
  }

  lemma EndingsMatch(t: EventType)
    requires KindOf(t).Some?
    ensures EndsAs(t, Name(t))
  {
    FailedNames(t);
    CancelledNames(t);
    CompletedNames(t);
    SucceededNames(t);
    StoppedNames(t);
  }

  lemma TablesByEnding(t: EventType, name: string)
    requires KindOf(t).Some? && EndsAs(t, name)
    ensures StatusByName(name) == WorkUnitStatusFor(t)
    ensures TerminalByName(name) <==> IsTerminalEvent(t)
    ensures OutcomeByName(name) == OutcomeFor(t)
  {
  }

  lemma KindTableMatches(t: EventType)
    ensures StartsWith(Name(t), "turn.") <==> KindOf(t) == Some(Turn)
    ensures StartsWith(Name(t), "tool.") <==> KindOf(t) == Some(Tool)
    ensures StartsWith(Name(t), "subagent.") <==> KindOf(t) == Some(Subagent)
    ensures StartsWith(Name(t), "task.") <==> KindOf(t) == Some(Task)
  {
    TurnNames(t);
    ToolNames(t);
    SubagentNames(t);
    TaskNames(t);
  }

  lemma TurnNames(t: EventType)
    ensures StartsWith(Name(t), "turn.") <==> KindOf(t) == Some(Turn)
  {
    if KindOf(t).None? { NoTurnName(t); } else { UnitTurnNames(t); }
  }

  lemma UnitTurnNames(t: EventType)
    requires KindOf(t).Some?
    ensures StartsWith(Name(t), "turn.") <==> KindOf(t) == Some(Turn)
  {
    PrefixAt(Name(t), "turn.");
  }

  lemma NoTurnName(t: EventType)
    requires KindOf(t).None?
    ensures !StartsWith(Name(t), "turn.")
  {
    PrefixAt(Name(t), "turn.");
  }

  lemma ToolNames(t: EventType)
    ensures StartsWith(Name(t), "tool.") <==> KindOf(t) == Some(Tool)
  {
    if KindOf(t).None? { NoToolName(t); } else { UnitToolNames(t); }
  }

  lemma UnitToolNames(t: EventType)
    requires KindOf(t).Some?
    ensures StartsWith(Name(t), "tool.") <==> KindOf(t) == Some(Tool)
  {
    PrefixAt(Name(t), "tool.");
  }

  lemma NoToolName(t: EventType)
    requires KindOf(t).None?
    ensures !StartsWith(Name(t), "tool.")
  {
    PrefixAt(Name(t), "tool.");
  }

  lemma SubagentNames(t: EventType)
    ensures StartsWith(Name(t), "subagent.") <==> KindOf(t) == Some(Subagent)
  {
    if KindOf(t).None? { NoSubagentName(t); } else { UnitSubagentNames(t); }
  }

  lemma UnitSubagentNames(t: EventType)
    requires KindOf(t).Some?
    ensures StartsWith(Name(t), "subagent.") <==> KindOf(t) == Some(Subagent)
  {
    PrefixAt(Name(t), "subagent.");
  }

  lemma NoSubagentName(t: EventType)
    requires KindOf(t).None?
    ensures !StartsWith(Name(t), "subagent.")
  {
    PrefixAt(Name(t), "subagent.");
  }

  lemma TaskNames(t: EventType)
    ensures StartsWith(Name(t), "task.") <==> KindOf(t) == Some(Task)
  {
    if KindOf(t).None? { NoTaskName(t); } else { UnitTaskNames(t); }
  }

  lemma UnitTaskNames(t: EventType)
    requires KindOf(t).Some?
    ensures StartsWith(Name(t), "task.") <==> KindOf(t) == Some(Task)
  {
    PrefixAt(Name(t), "task.");
  }

  lemma NoTaskName(t: EventType)
    requires KindOf(t).None?
    ensures !StartsWith(Name(t), "task.")
  {
    PrefixAt(Name(t), "task.");
  }

  /** A prefix forces its first three characters. */
  lemma PrefixAt(s: string, prefix: string)
    requires |prefix| > 2
    ensures StartsWith(s, prefix) ==> s[0] == prefix[0] && s[1] == prefix[1] && s[2] == prefix[2]
  {
    if StartsWith(s, prefix) {
      var head := s[..|prefix|];
      assert head[0] == prefix[0] && head[1] == prefix[1] && head[2] == prefix[2];
    }
  }

  lemma FailedTurnsAndTasks(t: EventType)
    requires KindOf(t) == Some(Turn) || KindOf(t) == Some(Task)
    ensures EndsWith(Name(t), ".failed") <==> t.TurnFailed? || t.TaskFailed?
  {
    SuffixAt(Name(t), ".failed");
  }

  lemma FailedOthers(t: EventType)
    requires KindOf(t) == Some(Tool) || KindOf(t) == Some(Subagent)
    ensures EndsWith(Name(t), ".failed") <==> t.ToolFailed?
  {
    SuffixAt(Name(t), ".failed");
  }

  lemma FailedNames(t: EventType)
    requires KindOf(t).Some?
    ensures EndsWith(Name(t), ".failed") <==> t.TurnFailed? || t.ToolFailed? || t.TaskFailed?
  {
    if KindOf(t) == Some(Turn) || KindOf(t) == Some(Task) { FailedTurnsAndTasks(t); } else { FailedOthers(t); }
  }

  lemma CancelledNames(t: EventType)
    requires KindOf(t).Some?
    ensures EndsWith(Name(t), ".cancelled") <==> t.TurnCancelled?
  {
    SuffixAt(Name(t), ".cancelled");
  }

  lemma CompletedTurnsAndTasks(t: EventType)
    requires KindOf(t) == Some(Turn) || KindOf(t) == Some(Task)
    ensures EndsWith(Name(t), ".completed") <==> t.TurnCompleted? || t.TaskCompleted?
  {
    SuffixAt(Name(t), ".completed");
  }

  lemma CompletedOthers(t: EventType)
    requires KindOf(t) == Some(Tool) || KindOf(t) == Some(Subagent)
    ensures !EndsWith(Name(t), ".completed")
  {
    SuffixAt(Name(t), ".completed");
  }

  lemma CompletedNames(t: EventType)
    requires KindOf(t).Some?
    ensures EndsWith(Name(t), ".completed") <==> t.TurnCompleted? || t.TaskCompleted?
  {
    if KindOf(t) == Some(Turn) || KindOf(t) == Some(Task) { CompletedTurnsAndTasks(t); } else { CompletedOthers(t); }
  }

  lemma SucceededNames(t: EventType)
    requires KindOf(t).Some?
    ensures EndsWith(Name(t), ".succeeded") <==> t.ToolSucceeded?
  {
    SuffixAt(Name(t), ".succeeded");
  }

  lemma StoppedNames(t: EventType)
    requires KindOf(t).Some?
    ensures EndsWith(Name(t), ".stopped") <==> t.SubagentStopped?
  {
    SuffixAt(Name(t), ".stopped");
  }

  /** A suffix forces its first three characters. */
  lemma SuffixAt(s: string, suffix: string)
    requires |suffix| > 2
    ensures EndsWith(s, suffix) ==>
              && s[|s| - |suffix|] == suffix[0]
              && s[|s| - |suffix| + 1] == suffix[1]
              && s[|s| - |suffix| + 2] == suffix[2]
  {
    if EndsWith(s, suffix) {
      var tail := s[|s| - |suffix|..];
      assert tail[0] == suffix[0] && tail[1] == suffix[1] && tail[2] == suffix[2];
    }
  }

  /** A missing or empty provider hash falls back to the causation id. */
  function WorkUnitKey(event: Event, providerHash: Option<string>, prefix: string): Option<string> {
    if providerHash.Some? && providerHash.value != "" then providerHash
    else if event.causationId.Some? && event.causationId.value != "" then Some(prefix + ":" + event.causationId.value)
    else None
  }

  function KindName(kind: UnitKind): string {
    match kind
    case Turn => "turn"
    case Tool => "tool"
    case Subagent => "subagent"
    case Task => "task"
  }

  /** The work unit an event is projected onto, if any. */
  function UnitOf(event: Event): Option<UnitId> {
    match KindOf(event.eventType)
    case None => None
    case Some(kind) =>
      var hash := if kind.Turn? then event.providerTurnHash else event.providerTaskHash;
      match WorkUnitKey(event, hash, KindName(kind))
      case None => None
      case Some(key) => Some(UnitId(event.correlationId, kind, key))
  }
}
