# Verified model of the agent telemetry and attention pipeline

This project models, in Dafny, five parts of the system and proves what they keep and what
they compute.

1. **Event ingestion and session reconciliation** (`AgentEvents`, `AgentStore`,
   `AgentInvariants`, `AgentRuns`, `AgentPolicyBinding`, `AgentRows`, `AgentUnits`,
   `AgentFactRace`, `AgentDelivery`, `AgentBatch`, `AgentAnswers`, `AgentRetry`,
   `AgentInterference`, `AgentService`).
   A transaction is one atomic step on a store of log rows, sessions, work units, policy
   bindings, facts and policies; a run is any list of such steps, so every interleaving of
   whole transactions is covered. `AgentFactRace` splits the one that takes no lock into its
   read and its write. `AgentBatch` is the batch endpoint with its screening of candidates,
   `AgentRetry` the same request sent again, and `AgentInterference` a batch with other
   transactions between and within its events. `AgentRows`, `AgentUnits` and `AgentAnswers` say
   what each transaction answers and writes, told from rows, wire names and hashes alone.
   `AgentService.Service` is the same service as a class whose methods update rows in place;
   each method is proved to be the corresponding step.
2. **Attention ownership** (`AttentionProtocol`, `AttentionSafety`, `AttentionTakeover`,
   `AttentionHolders`, `AttentionStates`, `AttentionQueues`, `AttentionSurfaces`). The
   surfaces of one installation share a registry with expiring leases and a promotion queue.
   The protocol is a step machine over any number of surfaces with a clock that does not run
   backwards; `AttentionSurfaces` is the class with its two shared maps.
3. **Shadow attention** (`Intervals`, `ShadowAggregation`, `ShadowTimeline`, `ShadowContract`,
   `ShadowFact`, `ShadowColumns`). Observations
   become maximal intervals, intersections, durations, a fixed-point evaluation and a record
   with cross-field equations. The reference meaning is a step function of time. `ShadowFact`
   adds the pseudonyms, dimensions, times and classifications around the numbers.
4. **The signed envelope** (`Json`, `SignedEnvelope`, `BatchSigning`). The serializers, the
   event comparator and the canonical text a device signs.
5. **Exact arithmetic and codecs** (`Base32`, `Totp`, `Sampling`, `Auction`, `Money`,
   `Correlation`, `CorrelationRules`, `CorrelationHistory`,
   `CorrelationOrder`, `CorrelationMixed`, `CorrelationCache`).

`Wrappers`, `Sorting`, `Strings`, `Decimals` and `Arithmetic` hold what several parts share.
`dafny verify dfyconfig.toml` checks everything.

## What the proofs say about the code

* A session's policy binding is the policy in force at the earliest of its creating event and
  its starts, in every run that leaves the policy table alone. It is independent of delivery
  order exactly when some start is at or before every event of the session or all events bear
  one time. The comment above the rebinding code promises independence in general; without an
  early start the creating event decides.
* The guard in the rebinding code against a start at or after the assignment time can never
  be what stops a rebinding: in every reachable store the guard before it has already done so.
* In every run that leaves the policy table alone a bound session names a policy in shadow or
  experiment that was in effect, never a draft. In every reachable store a non-empty tool hash names a tool unit exactly when a logged tool
  event bears it as its task hash, or bears none and the prefixed causation is that hash; the same
  holds for the other kinds, and an event with neither hash nor causation touches no unit.
* A reconciled session is abandoned and ended at that instant with everything else kept, and in every
  later store its own events are refused.
* The final status of a session is independent of delivery order exactly when its latest event
  is a lifecycle event or it never paused or ended. Otherwise an end that arrives first
  creates an ended session, and the later events, announcing no status, leave it ended.
* An `endedAt` is never cleared by a later start or resume, so a session that ended once and
  was reopened can never be reconciled as abandoned.
* An eligible attention surface holds the registry or is unflagged and queued, unless its flag
  is set without the registry. A holder comes to that exactly when another surface of its
  installation claims later than the registered lease end, and a live one leaves it exactly
  with its own next operation other than a refused reservation. So in every run promotion
  loses exactly the surfaces that were taken over and have not been heard of since.
* In every run the state a live surface reports is unknown exactly until its first observation since
  its creation or last reset. After that it says locked, disconnected, background or foreground in
  that order of precedence, and hidden foreground exactly when its last recompute found it hidden or
  was refused the lease. Waiting surfaces of an installation keep their order and nobody waits twice.
* A disposed surface can still reserve. The holder that a queued surface waits for is disposed
  exactly when it was granted a reservation after its disposal and has been left alone since.
* Persisting a session fact takes no advisory lock. Read and written at once it agrees with the
  binding. With other transactions in between, fact and binding disagree for ever exactly when
  one of those accepted a start of the session before the bound policy took effect; a reachable
  store and input where that happens are part of the project.
* Sending an answered batch again can store events, but only such as the first answer refused
  for their time, because the time window moves; with none of those it writes and accepts
  nothing, at any time and in any later store. A request that is stored from on its second
  delivery is part of the project. The same holds when other transactions run between and
  within the events of the batch. Whatever a batch adds to the log passed every screening check.
* A session fact is refused when there are no events, for unreadable arguments, an end or event
  before the epoch, an end before the start, a date whose year is not one of 0 to 9999, or
  inconsistent hypothetical amounts, and for nothing else: no other check of its schema can
  fail. A dataset row is refused for unusable identities or dimensions, negative times, or
  durations beyond the safe integers, and for nothing else.
* Viewable time counts the milliseconds at which the latest event about the surface is its becoming
  visible. Focus, unlocking and reconnecting render but do not show, and a session without such an
  event has neither viewable nor qualified time.
* The final lifecycle of a correlated session is independent of the order of arrival exactly when
  one event is dominant: it comes from no weaker a source than any other and replaces each of
  them on its own, none of its rank could replace it, it bears a sequence number if any event
  does, and its time text is the greater wherever an event without a number can stand in for
  one with its own number. That covers any mixture of
  sources, with and without sequence numbers. One source that numbers its events is always
  independent; one that does not is exactly when the times single one event out; and when the
  latest event has no number but another one has, the order matters.
* The canonical text of a batch identifies it up to event order and key order, except that a
  number literal that overflows to infinity is signed like null.
* The last-resort draw of the sampler is uniform only for powers of two; every ordinary
  attempt is exactly uniform.
* Time-based password verification throws, rather than returning false, when the window of a
  well-formed token reaches below counter zero.

## Modelling decisions

* Event ids are represented by their rank in one total order, which stands for the database
  order, the `>=` of the gate and the comparison of the batch sort alike. Strings are sequences
  of Dafny characters compared character by character.
* A session is identified by its unique correlation id. A binding carries a copy of its
  policy's `effectiveAt`, which a database trigger makes immutable.
* The advisory lock makes ingestion and reconciliation atomic per correlation; the model makes
  them atomic altogether. Persisting a fact takes no such lock: that it is one step of a run is
  an assumption, on which `AgentRuns.FactFreezesBinding` rests. `AgentFactRace` drops it:
  `SplitFactComesApartIff` says exactly what happens without it.
* Clock readings are step parameters; a batch reads the clock once for all its candidates, and
  each attention operation once.
* A confidence is represented by its parts per million as the program rounds them down; that
  rounding is monotone, so taking the least commutes with it.
* Integers the schemas declare with `int()` are safe integers, as the schema library's
  current major version defines it.
* `Array.prototype.sort` is a stable sort; the comparators are proved to be consistent orders.
* `Date.parse`, number parsing, `toUpperCase`, `toLowerCase`, the keyed and plain hashes and
  random bytes are parameters. So are a candidate's parsing, its privacy scrub and its field
  scan, the device lookup and the batch signature check.
* In the signing model a finite number is its own text, and an overflowing literal is a
  separate value.
* Any lease length is allowed, also a negative one, and owner ids are distinct within an
  installation.

## Model

| member | source | states |
|---|---|---|
| AgentEvents.GateAgreesWithQueryOrder | apps/api/src/agent/agent.service.ts:373-379 | the latest-event gate and the descending database query (nulls first) are one and the same total order |
| AgentEvents.GateTransitive | apps/api/src/agent/agent.service.ts:834-845 | "at or after" is transitive |
| AgentEvents.TablesMatchNames | apps/api/src/agent/agent.service.ts:866-951 | kind, status, terminality and outcome tables equal the prefix and suffix tests on the wire names for all 37 event types |
| AgentInvariants.LatestIsMaximal | apps/api/src/agent/agent.service.ts:373-379 | the latest row of a session is at or after every row of it |
| AgentInvariants.IngestAccepts | apps/api/src/agent/agent.service.ts:325-467 | what an accepted event changes in every table, the exact new bindings, and that everything else stays |
| AgentInvariants.IngestBinds | apps/api/src/agent/agent.service.ts:380-592 | accepting an event leaves exactly these bindings: a new session is bound to the policy in force, a start rebinds |
| AgentInvariants.IngestKeepsInv | apps/api/src/agent/agent.service.ts:325-467 | ingestion keeps log uniqueness, foreign keys, unit counts, idle abandoned sessions, statuses, and fact and binding agreement |
| AgentInvariants.ReconcileKeepsInv | apps/api/src/agent/agent-session-reconciliation.cron.ts:183-247 | reconciliation keeps the same invariant |
| AgentInvariants.PersistFactKeepsInv | apps/api/src/agent/attention-shadow-fact.service.ts:36-47 | fact persistence keeps it: a fact names the bound version, under the atomic-step assumption |
| AgentInvariants.StepKeepsInv | apps/api/src/agent/agent.service.ts:325-467 | every step of any kind keeps the invariant |
| AgentInvariants.RunKeepsInv | apps/api/src/agent/agent.service.ts:325-467 | every run from a good store keeps it |
| AgentInvariants.ReachableInv | apps/api/src/agent/agent.service.ts:325-467 | every reachable store satisfies it |
| AgentRuns.StepGrowsLog | apps/api/src/agent/agent.service.ts:407-434 | a step only appends to the log and never drops a session or changes its owner |
| AgentRuns.RunGrowsLog | apps/api/src/agent/agent.service.ts:407-434 | the log is append-only over every run |
| AgentRuns.ProcessedIsDuplicate | apps/api/src/agent/agent.service.ts:336-353 | an event processed for this user and device is answered as a duplicate |
| AgentRuns.AcceptedStaysProcessed | apps/api/src/agent/agent.service.ts:336-353 | an accepted event counts as processed in every later store |
| AgentRuns.ReplayIsNoOp | apps/api/src/agent/agent.service.ts:332-353 | re-delivering processed events in any order and number leaves the whole store unchanged |
| AgentRuns.StepKeepsAbandoned | apps/api/src/agent/agent.service.ts:366-372 | no step touches row, log rows, units or binding of an abandoned session |
| AgentRuns.AbandonedIsAbsorbing | apps/api/src/agent/agent.service.ts:366-372 | abandoned is absorbing over every run, and an abandoned session has no active work unit |
| AgentRuns.AbandonsExactlyTheStale | apps/api/src/agent/agent-session-reconciliation.cron.ts:192-239 | reconciliation abandons exactly the active, never ended, idle sessions whose row, events and receipts are all before the cutoff |
| AgentRuns.EndedOnceNeverAbandoned | apps/api/src/agent/agent-session-reconciliation.cron.ts:196-239 | a session that has an end time is never abandoned in any later store, even if reopened |
| AgentRuns.SessionFollowsLatest | apps/api/src/agent/agent.service.ts:436-462 | in every reachable store a session whose latest event is a lifecycle event has that event's status, and its end time if it ended |
| AgentRuns.UnitsAreConserved | apps/api/src/agent/agent.service.ts:706-749 | unit counters equal the linked tool and subagent starts in the log; a unit is terminal exactly when a linked event is, and then it has the status, end and outcome of the first such event |
| AgentRuns.TerminalUnitsAreFrozen | apps/api/src/agent/agent.service.ts:722-733 | status, end and outcome of a terminal unit never change again |
| AgentUnits.UnitsByRows | apps/api/src/agent/agent.service.ts:706-749 | in every reachable store a unit exists exactly when a row's wire name, hash or causation id names it; its counters count its started rows, and start, status, end and outcome are those of its first and first ending row |
| AgentUnits.KeysAreNotEmpty | apps/api/src/agent/agent.service.ts:920-928 | no unit has an empty key |
| AgentUnits.UnidentifiedTouchesNoUnit | apps/api/src/agent/agent.service.ts:866-928 | an event with neither hash nor causation id, or about no turn, tool, subagent or task, touches no unit |
| AgentRuns.FactFreezesBinding | apps/api/src/agent/agent.service.ts:558-569 | once a fact exists neither it nor the binding changes, and both name one version, fact persistence being one step; `AgentFactRace.SplitFactComesApartIff` states it without that |
| AgentRuns.PersistedFactAnswers | apps/api/src/agent/attention-shadow-fact.service.ts:31-67 | once a fact exists, in every later store the same fact is a duplicate, a different one a conflict of its exact kind, and nothing is written |
| AgentFactRace.SplitFactComesApartIff | apps/api/src/agent/attention-shadow-fact.service.ts:36-80 | with any transactions between its read and its write, a fact disagrees with the binding in every later store if and only if one of them accepted a start before the bound policy took effect |
| AgentFactRace.FactAndBindingCanComeApart | apps/api/src/agent/attention-shadow-fact.service.ts:36-80 | a reachable store, a fact and a start with which they do |
| AgentFactRace.RunMovesBack | apps/api/src/agent/agent.service.ts:538-592 | over every run without a fact a session keeps its binding until a start before its policy moves it back in time |
| AgentFactRace.OverlapComesApartIff | apps/api/src/agent/attention-shadow-fact.service.ts:36-80 | when a fact and a rebinding overlap in a reachable store they end with different versions if and only if the fact was due and the start precedes the bound policy |
| AgentFactRace.RebindingChangesVersion | apps/api/src/agent/agent.service.ts:571-592 | a rebinding that goes through never settles on the version it started from |
| AgentPolicyBinding.FindPolicyIsInForce | apps/api/src/agent/agent.service.ts:492-499 | the query finds, of the rows that are shadow or experiment and in effect, the one with greatest effective time, then version, and nothing exactly when there is none |
| AgentPolicyBinding.FindPolicyIgnoresRowOrder | apps/api/src/agent/agent.service.ts:492-499 | the answer depends on the set of policies only |
| AgentPolicyBinding.FindPolicyStable | apps/api/src/agent/agent.service.ts:545-551 | a policy in force later and effective earlier was already in force earlier |
| AgentPolicyBinding.RebindMatches | apps/api/src/agent/agent.service.ts:519-592 | rebinding moves a correct binding to the policy in force at the earlier of the two instants |
| AgentPolicyBinding.LateStartGuardIsDead | apps/api/src/agent/agent.service.ts:553-557 | in every reachable store the guard against late starts never fires |
| AgentPolicyBinding.StepKeepsBindingsMatch | apps/api/src/agent/agent.service.ts:469-592 | every step that leaves the policies alone keeps all bindings correct |
| AgentPolicyBinding.BindingIsPolicyAtStart | apps/api/src/agent/agent.service.ts:469-592 | over every run on a fixed policy table each fact-free session is bound to the policy in force at the earliest of its creating event and its starts, or unbound when there was none |
| AgentPolicyBinding.BoundPolicyIsInForce | apps/api/src/agent/agent.service.ts:469-592 | over every run on a fixed policy table every bound session names a row that is shadow or experiment, with its effective time |
| AgentRows.OutcomeMeans | apps/api/src/agent/agent.service.ts:332-378 | in every reachable store each outcome of ingestion holds exactly when its condition on ids, keys, owners, statuses and hashes does |
| AgentRows.AcceptedSessionRow | apps/api/src/agent/agent.service.ts:380-462 | the session row after an accepted event column by column; only a lifecycle event that no logged event lies after moves status, end and update time |
| AgentRows.AcceptedLogRow | apps/api/src/agent/agent.service.ts:407-434 | one more row with the event and the time of its receipt, facts and policies as they were |
| AgentRows.AcceptedBindingRow | apps/api/src/agent/agent.service.ts:469-592 | the binding after an accepted event with its assignment time, and exactly when it changes |
| AgentRows.ReconciliationMeans | apps/api/src/agent/agent-session-reconciliation.cron.ts:192-239 | each answer of a reconciliation holds exactly when its condition on rows, receipts and units does |
| AgentRows.ReconciliationWrites | apps/api/src/agent/agent-session-reconciliation.cron.ts:228-239 | abandoning sets status, end and update time of that session's row and nothing else; every other answer writes nothing |
| AgentRows.AbandonedIsRefused | apps/api/src/agent/agent.service.ts:366-372 | after it, in every later store, a fresh event of the session from its own sender is refused as abandoned |
| AgentRows.PersistenceMeans | apps/api/src/agent/attention-shadow-fact.service.ts:29-67 | each of the six answers exactly when its condition holds, and the fact written exactly once |
| AgentRows.ProvisioningWrites | apps/api/src/agent/attention-policy.service.ts:24-72 | a draft, shadow or experiment policy is added unless its version exists; nothing else changes |
| AgentRows.StatusChangeWrites | apps/api/src/agent/agent.service.ts:489-499 | a status change reaches the rows of its version and their status only |
| AgentDelivery.DeliverStep | apps/api/src/agent/agent.service.ts:325-467 | every event of a consistent delivery is accepted, in any order |
| AgentDelivery.LatestLifecycleWins | apps/api/src/agent/agent.service.ts:436-461 | if the greatest event is a lifecycle event its status wins in every arrival order, and an end fixes the end time |
| AgentDelivery.NeverClosedIsActive | apps/api/src/agent/agent.service.ts:851-864 | a session that never paused or ended is active in every order |
| AgentDelivery.StatusOrderFreeIff | apps/api/src/agent/agent.service.ts:380-461 | the final status is independent of delivery order if and only if the latest event is a lifecycle event or nothing paused or ended |
| AgentDelivery.BoundAtInstant | apps/api/src/agent/agent.service.ts:469-592 | after any delivery the bound version is that of the policy in force at the binding instant |
| AgentDelivery.BindingOrderFreeIff | apps/api/src/agent/agent.service.ts:505-592 | the binding is independent of delivery order for every policy table if and only if some start comes first or all events are simultaneous |
| AgentService.Service.AssignShadowPolicyIfAvailable | apps/api/src/agent/agent.service.ts:469-508 | the method is the model's assignment: first policy kept, none invented |
| AgentService.Service.RebindShadowPolicyToSessionStart | apps/api/src/agent/agent.service.ts:519-592 | the delete-and-create method is the model's rebinding |
| AgentService.Service.ProjectWorkUnit | apps/api/src/agent/agent.service.ts:706-749 | the method projects exactly one unit and leaves all other tables |
| AgentService.Service.IngestEvent | apps/api/src/agent/agent.service.ts:319-467 | the transaction's outcome and whole new store are the model's |
| AgentService.Service.IngestBatch | apps/api/src/agent/agent.service.ts:151-319 | the endpoint's answer and whole new store are the model's; it keeps the store invariant and only appends to the log |
| AgentService.Service.ScreenCandidates | apps/api/src/agent/agent.service.ts:178-240 | the screening loop admits and rejects what the model does, in order |
| AgentService.Service.ProcessEvents | apps/api/src/agent/agent.service.ts:270-308 | the processing loop handles the events in order, each alone, and stops at an infrastructure failure |
| AgentService.Service.ReconcileCandidate | apps/api/src/agent/agent-session-reconciliation.cron.ts:183-247 | the transaction is the model's reconciliation, with the same reason |
| AgentService.Service.PersistSessionFact | apps/api/src/agent/attention-shadow-fact.service.ts:25-112 | the answer and the new store are the model's: forged, unassigned, other version, duplicate, other digest or created |
| AgentBatch.BatchKeepsInv | apps/api/src/agent/agent.service.ts:274-308 | a batch keeps the store invariant wherever it may stop |
| AgentBatch.EveryEventAcknowledgedOnce | apps/api/src/agent/agent.service.ts:274-308 | processing that does not fail acknowledges every event exactly once |
| AgentBatch.EveryCandidateAcknowledgedOnce | apps/api/src/agent/agent.service.ts:178-319 | an answered request names each of its candidates exactly once as accepted, duplicate or rejected |
| AgentBatch.OnlyScreenedAreStored | apps/api/src/agent/agent.service.ts:180-308 | every row a request adds to the log is one of its candidates and passed every check, and the request was signed by a known device |
| AgentBatch.BatchOrderIrrelevant | apps/api/src/agent/agent.service.ts:244-319 | the order in which a request lists distinct events changes neither the store nor, up to the listing of rejections, the answer |
| AgentBatch.RedeliveryIsAllDuplicates | apps/api/src/agent/agent.service.ts:274-308 | redelivering processed events yields only duplicates and no change |
| AgentAnswers.AnswersAreTrue | apps/api/src/agent/agent.service.ts:270-308 | told from the store a batch leaves: the accepted ids are those of the new rows in order, duplicates are known, conflicts clash or are foreign, and what is refused as abandoned is |
| AgentAnswers.TurnAnswers | apps/api/src/agent/agent.service.ts:272-308 | amid other transactions an event is accepted when nothing stands against it as the transaction reads and as it writes; with something new in between it is a duplicate exactly when the second look finds it as the sender's own |
| AgentAnswers.RefusalMeans | apps/api/src/agent/agent.service.ts:180-240 | each reason for refusing a candidate exactly when its check is the first to fail |
| AgentAnswers.RefusedAre | apps/api/src/agent/agent.service.ts:180-240 | refusals carry the claimed name or the event's id and the reason |
| AgentAnswers.SupportedAre | packages/agent-protocol/src/index.ts:12-25 | the supported version is the number one or text of digits worth one |
| AgentAnswers.ProcessedIff | apps/api/src/agent/agent.service.ts:151-268 | a request is processed exactly when every check of the whole request holds, and otherwise changes nothing |
| AgentAnswers.ComplaintsAre | apps/api/src/agent/agent.service.ts:151-268 | each complaint about a whole request exactly when what it names is wrong and all that is checked before is right |
| AgentAnswers.ProcessedInOrder | apps/api/src/agent/agent.service.ts:244-244 | events are processed in order of time, then sequence with none last, then id |
| AgentRetry.StepKeepsSettled | apps/api/src/agent/agent.service.ts:325-372 | no step of any kind unsettles an event whose id or key is taken or whose session is foreign or abandoned |
| AgentRetry.BatchSettles | apps/api/src/agent/agent.service.ts:274-308 | processing that does not fail settles every event, accepted or rejected |
| AgentRetry.RetryAddsOnlyTheLate | apps/api/src/agent/agent.service.ts:151-319 | when an answered request is sent again in any later store at any time, every row it adds and id it accepts belongs to a candidate first refused for its time, and with none of those nothing changes |
| AgentRetry.LateIsStoredOnRetry | apps/api/src/agent/agent.service.ts:231-234 | a request whose second delivery stores an event that the first refused for its time |
| AgentInterference.AmidAcknowledgesEach | apps/api/src/agent/agent.service.ts:272-308 | with any other transactions between and within the events, and the second look after a unique violation, a batch that does not fail acknowledges each event once |
| AgentInterference.ViolationIsUnique | apps/api/src/agent/agent.service.ts:279-296 | under the advisory lock only the event's id, its key or the session's hash can be taken while a transaction runs |
| AgentInterference.AloneIsBatch | apps/api/src/agent/agent.service.ts:274-308 | without other transactions the turns are the plain processing loop |
| AgentInterference.RetryAmidAddsNothing | apps/api/src/agent/agent.service.ts:272-308 | amid any other transactions, processing events again accepts none and adds nothing to what the others do |
| AttentionSafety.SetterKeepsInv | apps/vscode-extension/src/attention-state-machine.ts:124-146 | an observation followed by a recompute keeps the protocol invariant |
| AttentionSafety.ReserveKeepsInv | apps/vscode-extension/src/attention-state-machine.ts:110-116 | reserving ownership keeps it |
| AttentionSafety.ResetKeepsInv | apps/vscode-extension/src/attention-state-machine.ts:148-156 | resetting keeps it |
| AttentionSafety.DisposeKeepsInv | apps/vscode-extension/src/attention-state-machine.ts:158-162 | disposing keeps it |
| AttentionSafety.StepKeepsInv | apps/vscode-extension/src/attention-state-machine.ts:110-257 | every enabled step of every surface keeps it |
| AttentionSafety.RunKeepsInv | apps/vscode-extension/src/attention-state-machine.ts:110-257 | it holds in every world of every run |
| AttentionSafety.LeaseSafety | apps/vscode-extension/src/attention-state-machine.ts:196-219 | at any time at most one surface of an installation has its flag set under an unexpired lease |
| AttentionSafety.NoLostPromotion | apps/vscode-extension/src/attention-state-machine.ts:164-257 | a live eligible surface holds the registry, or is unflagged and queued, or has its flag without the registry under a lease that ran out; one of the first two holds if and only if a set flag comes with the registry |
| AttentionSafety.ReportedAttentionIsOwned | apps/vscode-extension/src/attention-state-machine.ts:164-194 | a surface reporting foreground attention owns it and has all four observations in its favour; the registry names only flagged surfaces |
| AttentionSafety.PromotionIsFifo | apps/vscode-extension/src/attention-state-machine.ts:212-257 | a releasing holder hands over to the first promotable surface of the queue, or nobody of the installation was promotable |
| AttentionSafety.ExpiredLeaseIsReclaimed | apps/vscode-extension/src/attention-state-machine.ts:191-206 | a dead owner cannot stall its installation once its lease has run out |
| AttentionTakeover.StepEffect | apps/vscode-extension/src/attention-state-machine.ts:110-257 | every step claims, promotes, releases or leaves alone, and it claims exactly when its surface becomes or is eligible and the registry is free, its own or expired |
| AttentionTakeover.StrandedExactlyByTakeover | apps/vscode-extension/src/attention-state-machine.ts:164-206 | a step makes a holder keep its flag and lose the registry if and only if another surface of the installation claims later than the registered lease end |
| AttentionTakeover.StrandedWasTakenOver | apps/vscode-extension/src/attention-state-machine.ts:164-257 | in every run a surface flagged without the registry once held it, lost it to such a takeover, and has stayed so since |
| AttentionTakeover.LostExactlyAfterTakeover | apps/vscode-extension/src/attention-state-machine.ts:241-257 | in every run a live eligible surface neither holds the registry nor is unflagged and queued if and only if its expired lease was taken over at some step and its own steps since are at most refused reservations |
| AttentionTakeover.StrandedUntilHeardOf | apps/vscode-extension/src/attention-state-machine.ts:110-219 | a live surface flagged without the registry stays so through a step if and only if the step is another surface's or its own refused reservation |
| AttentionTakeover.StepDisposal | apps/vscode-extension/src/attention-state-machine.ts:158-162 | only its own disposal disposes a surface, and for good |
| AttentionHolders.DisposedHolderStep | apps/vscode-extension/src/attention-state-machine.ts:110-219 | a disposed surface holds the registry after a step exactly when it was granted it then or held it and was left alone |
| AttentionHolders.HolderIsDisposedIff | apps/vscode-extension/src/attention-state-machine.ts:110-219 | in every run a holder is disposed if and only if it was granted a reservation after its disposal and has since neither been reset, disposed of again nor taken over |
| AttentionHolders.QueuedWaitsFor | apps/vscode-extension/src/attention-state-machine.ts:196-257 | a queued surface waits for a holder of its installation, which is live but for that case |
| AttentionHolders.DisposedCanHold | apps/vscode-extension/src/attention-state-machine.ts:110-116 | a run in which a disposed surface holds the registry |
| AttentionStates.StateIsMeant | apps/vscode-extension/src/attention-state-machine.ts:164-189 | in every run a live surface reports unknown exactly without an observation since creation or reset, and otherwise exactly what lock, connection, focus, visibility and the fate of its claim call for |
| AttentionStates.SetterReports | apps/vscode-extension/src/attention-state-machine.ts:124-189 | an observation is remembered, the others kept, and the state is what all four call for |
| AttentionStates.BlankAfter | apps/vscode-extension/src/attention-state-machine.ts:148-162 | creation, reset and disposal leave no observation, no flag and no registry entry |
| AttentionStates.StepOfOthers | apps/vscode-extension/src/attention-state-machine.ts:110-257 | a step of another surface promotes a surface or leaves it as it is |
| AttentionQueues.RecomputeOfQueue | apps/vscode-extension/src/attention-state-machine.ts:164-257 | a refused surface joins at the back once, an ineligible one leaves or, releasing, forgets a queue nobody of which can succeed; no other queue moves |
| AttentionQueues.ReservationOfQueue | apps/vscode-extension/src/attention-state-machine.ts:110-116 | a granted reservation leaves the queue, a refused one moves none |
| AttentionQueues.ResetOfQueue | apps/vscode-extension/src/attention-state-machine.ts:148-156 | a reset leaves the queue |
| AttentionQueues.NobodyWaitsTwice | apps/vscode-extension/src/attention-state-machine.ts:221-233 | in every run nobody is queued twice |
| AttentionQueues.WaitingKeepsOrder | apps/vscode-extension/src/attention-state-machine.ts:221-257 | in every run surfaces that stay queued keep their order |
| AttentionTakeover.StolenLeaseIsNotPromoted | apps/vscode-extension/src/attention-state-machine.ts:241-257 | a concrete run of that kind: an eligible surface is flagged while the registry is empty |
| AttentionSurfaces.AttentionStateMachine.ClaimLease | apps/vscode-extension/src/attention-state-machine.ts:196-206 | claims or refreshes exactly when no other owner's lease is unexpired |
| AttentionSurfaces.AttentionStateMachine.Recompute | apps/vscode-extension/src/attention-state-machine.ts:164-182 | the method, with the recompute of another surface it triggers, is the model's step on the shared state |
| AttentionSurfaces.AttentionStateMachine.ReleaseOwner | apps/vscode-extension/src/attention-state-machine.ts:212-219 | deletes only its own registry slot, promotes, then clears its flag |
| AttentionSurfaces.AttentionStateMachine.PromoteNext | apps/vscode-extension/src/attention-state-machine.ts:241-257 | the loop finds the first promotable surface or deletes the queue |
| AttentionSurfaces.AttentionStateMachine.EnqueueWaiting | apps/vscode-extension/src/attention-state-machine.ts:221-225 | joins the queue once |
| AttentionSurfaces.AttentionStateMachine.RemoveFromWaiting | apps/vscode-extension/src/attention-state-machine.ts:227-233 | leaves the queue, which disappears when empty |
| AttentionSurfaces.AttentionStateMachine.ReserveOwner | apps/vscode-extension/src/attention-state-machine.ts:110-116 | the method and its result are the model's reservation |
| AttentionSurfaces.AttentionStateMachine.SetWindowFocused | apps/vscode-extension/src/attention-state-machine.ts:124-127 | the setter is the model's step |
| AttentionSurfaces.AttentionStateMachine.SetSurfaceVisible | apps/vscode-extension/src/attention-state-machine.ts:130-133 | the setter is the model's step |
| AttentionSurfaces.AttentionStateMachine.SetDeviceLocked | apps/vscode-extension/src/attention-state-machine.ts:136-139 | the setter is the model's step |
| AttentionSurfaces.AttentionStateMachine.SetBridgeConnected | apps/vscode-extension/src/attention-state-machine.ts:142-145 | the setter is the model's step |
| AttentionSurfaces.AttentionStateMachine.Reset | apps/vscode-extension/src/attention-state-machine.ts:148-156 | the method is the model's reset |
| AttentionSurfaces.AttentionStateMachine.Dispose | apps/vscode-extension/src/attention-state-machine.ts:158-162 | the method is the model's disposal |
| Intervals.LastAtIsLast | apps/api/src/agent/attention-interval-aggregator.ts:26-30 | the reference meaning: the last observation at or before a time, input order deciding ties |
| Intervals.MergeAdjacentIntervals | apps/api/src/agent/attention-interval-aggregator.ts:71-82 | the in-place merge is the model's merge |
| Intervals.MergeCovers | apps/api/src/agent/attention-interval-aggregator.ts:71-82 | merging changes nothing about which state covers which time |
| Intervals.MergeSum | apps/api/src/agent/attention-interval-aggregator.ts:71-82 | merging keeps the total duration |
| Intervals.AggregateAttentionIntervals | apps/api/src/agent/attention-interval-aggregator.ts:31-47 | the loop with its error cases is the model's aggregation |
| Intervals.AggregateRefinesStepFunction | apps/api/src/agent/attention-interval-aggregator.ts:31-47 | the output covers t with a state exactly when t is before the end and that is the state of the last observation at or before t |
| Intervals.AggregateShape | apps/api/src/agent/attention-interval-aggregator.ts:31-47 | the output is contiguous and maximal, starts at the earliest observation, ends at the end, and its durations add up to max(0, end minus first) |
| Intervals.AggregateComplaints | apps/api/src/agent/attention-interval-aggregator.ts:35-67 | a negative end is complained about first, then a negative timestamp anywhere, and nothing else is |
| Intervals.AggregateIsSeparated | apps/api/src/agent/attention-interval-aggregator.ts:31-47 | intervals are proper, in order, disjoint, maximal and within the bounds |
| Intervals.IntersectIntervals | apps/api/src/agent/attention-interval-aggregator.ts:49-62 | the nested loops with sort and merge are the model's intersection |
| Intervals.IntersectCovers | apps/api/src/agent/attention-interval-aggregator.ts:49-62 | the intersection covers t with a state exactly when the left input does with that state and the right input covers t |
| ShadowAggregation.SumIsMeasure | apps/api/src/agent/agent-shadow-aggregation.service.ts:173-175 | the sum of durations of separated intervals counts the milliseconds they cover |
| ShadowAggregation.IntersectIsSeparated | apps/api/src/agent/attention-interval-aggregator.ts:49-62 | intersecting disjoint lists gives proper, separated intervals |
| ShadowAggregation.AggregateSucceedsIff | apps/api/src/agent/attention-interval-aggregator.ts:35-37 | aggregation fails exactly for a negative end or timestamp |
| ShadowAggregation.DurationsCountMilliseconds | apps/api/src/agent/agent-shadow-aggregation.service.ts:43-85 | each of the four durations is the number of milliseconds in the states it names, qualified time being both at once |
| ShadowAggregation.DurationsAreOrdered | apps/api/src/agent/agent-shadow-aggregation.service.ts:43-85 | qualified is at most viewable and eligible, viewable at most rendered, rendered at most the end |
| ShadowAggregation.IntervalsCover | apps/api/src/agent/agent-shadow-aggregation.service.ts:43-85 | the three interval lists cover the times of each provider state, of each viewability state, and of working while visible |
| ShadowAggregation.IntervalsAreMaximal | apps/api/src/agent/agent-shadow-aggregation.service.ts:43-85 | each of the three is in order, without overlaps and maximal |
| ShadowAggregation.CanonicalAggregationIgnoresOrder | apps/api/src/agent/agent-shadow-aggregation.service.ts:87-102 | every permutation of both event lists aggregates alike |
| ShadowAggregation.SessionAggregationIgnoresOrder | apps/api/src/agent/agent-shadow-aggregation.service.ts:110-137 | the same with the viewability list projected from the events |
| ShadowAggregation.HeadlessNeverQualifies | apps/api/src/agent/agent-shadow-aggregation.service.ts:139-145 | events of headless work alone never yield eligible or qualified time |
| ShadowTimeline.WorkIsEligible | apps/api/src/agent/agent-shadow-aggregation.service.ts:139-171 | an event opens eligible time exactly when it is not headless and is a tool, subagent or task event, a start of processing or an awaited answer |
| ShadowTimeline.ProviderInState | apps/api/src/agent/agent-shadow-aggregation.service.ts:92-96 | the aggregated state at a time is that of the greatest event at or before it |
| ShadowTimeline.ViewabilityInState | apps/api/src/agent/agent-shadow-aggregation.service.ts:97-137 | the projected state at a time is that of the greatest event about the surface at or before it |
| ShadowTimeline.DurationsFromEvents | apps/api/src/agent/agent-shadow-aggregation.service.ts:43-137 | from a session's events in any order the four durations count the milliseconds at which the latest event means work, the latest of the eight surface events is surface.visible, is one that renders, or the first two at once |
| ShadowTimeline.NothingShownWithoutSurface | apps/api/src/agent/agent-shadow-aggregation.service.ts:105-133 | without a surface.visible event there is no viewable and no qualified time |
| ShadowTimeline.ProjectionReads | apps/api/src/agent/agent-shadow-aggregation.service.ts:115-130 | which events the projection reads and what it makes of each |
| ShadowTimeline.ProviderStates | apps/api/src/agent/agent-shadow-aggregation.service.ts:139-171 | what each provider event means, headless ones nothing |
| ShadowContract.EvaluateSucceedsIff | packages/agent-protocol/src/attention-contract.ts:112-155 | evaluation succeeds exactly when the durations are ordered, safe integers and any given qualified time fits |
| ShadowContract.EvaluateComplaints | packages/agent-protocol/src/attention-contract.ts:112-155 | the surface, the qualified time and the size of the numbers are complained about in that order, each exactly when it is wrong |
| ShadowContract.EvaluationMeetsContract | packages/agent-protocol/src/shadow-fact-contract.ts:82-151 | every successful evaluation meets every cross-field refinement of the fact contract |
| ShadowContract.WeightedTimeIsBounded | packages/agent-protocol/src/attention-contract.ts:126-131 | passive billable time is at most qualified time, and weighted time lies between qualified and viewable time |
| ShadowContract.EvaluationIsLargest | packages/agent-protocol/src/attention-contract.ts:127-131 | no fact with the same durations and policy that meets the contract has more passive billable or weighted time |
| ShadowContract.AggregationEvaluates | apps/api/src/agent/attention-shadow-facts.ts:80-93 | evaluation accepts what aggregation yields under every policy exactly when the durations are safe integers, as they are before every safe end |
| ShadowContract.DatasetRowIsTotal | apps/api/src/agent/attention-shadow-dataset.ts:32-78 | the numeric part of a row is built exactly when end and timestamps are non-negative and the durations safe integers, as they are before every safe end; nothing else behind the aggregation can fail |
| ShadowContract.FactIsBuiltIff | apps/api/src/agent/attention-shadow-facts.ts:61-141 | the numeric part of a fact is built exactly when there is an event, times are valid and ordered, the durations safe and the economics consistent; then it meets every numeric refinement |
| ShadowContract.FactComplaints | apps/api/src/agent/attention-shadow-facts.ts:61-80 | no events are complained about before anything else, then an end before the start |
| ShadowContract.FactIgnoresEventOrder | apps/api/src/agent/attention-shadow-facts.ts:71-84 | the numeric part does not depend on the order its events are read in |
| ShadowFact.NormalizeKeepsDimensions | apps/api/src/agent/attention-shadow-facts.ts:218-227 | normalizing yields a bounded identifier or an error, and is idempotent |
| ShadowFact.CountDominantToolClass | apps/api/src/agent/attention-shadow-facts.ts:154-170 | the counting map and the pass over its keys compute the model's dominant family |
| ShadowFact.DominantIsMostFrequent | apps/api/src/agent/attention-shadow-facts.ts:161-169 | the dominant family is the most frequent one, of several the smallest, and there is none exactly without families |
| ShadowFact.CoarseIgnoresOrder | apps/api/src/agent/attention-shadow-facts.ts:154-184 | tool class, confidence and unknown rate depend on which events there are only |
| ShadowFact.RateIsBounded | apps/api/src/agent/attention-shadow-facts.ts:179-184 | the unknown-event rate is at most one million |
| ShadowFact.DefaultStartIsEarliest | apps/api/src/agent/attention-shadow-facts.ts:71-73 | a start that is not given is the earliest time of the session's events |
| ShadowFact.AggregationSucceedsIff | apps/api/src/agent/attention-shadow-facts.ts:78-84 | the durations of a session's own events exist exactly when neither its end nor an event lies before the epoch |
| ShadowFact.SessionFactIsBuiltIff | apps/api/src/agent/attention-shadow-facts.ts:61-141 | the whole fact is built if and only if there are events, its arguments are readable, neither end nor events are before the epoch, it ends no earlier than it starts, its four dates have years 0 to 9999 and its economics fit the qualified time |
| ShadowFact.BuiltFactIsValid | packages/agent-protocol/src/shadow-fact-contract.ts:31-181 | what is built meets the whole schema and carries the digest of its own content |
| ShadowFact.SessionFactIgnoresEventOrder | apps/api/src/agent/attention-shadow-facts.ts:71-140 | the order in which events are read changes nothing in the whole fact |
| ShadowFact.RowIsBuiltIff | apps/api/src/agent/attention-shadow-dataset.ts:32-94 | the whole row is built if and only if its identities and dimensions are usable, no time is negative and its durations are safe integers, and then meets its schema |
| ShadowColumns.EvaluationIs | packages/agent-protocol/src/attention-contract.ts:112-140 | every column of an evaluation; billable passive time is the most that ratio, cap and passive time allow |
| ShadowColumns.EvaluationIsBounded | packages/agent-protocol/src/attention-contract.ts:112-155 | the bounds between the numbers of an evaluation, those of every fact, row and comparison |
| ShadowColumns.NumbersFitIff | packages/agent-protocol/src/shadow-fact-contract.ts:49-143 | the numeric schema says ranges, the split of viewable time, and billable and weighted time by products instead of quotients |
| ShadowColumns.AmountsFitIff | packages/agent-protocol/src/shadow-fact-contract.ts:104-178 | amounts fit exactly when none is negative, charge is reward plus contribution, and no qualified time earns no reward |
| ShadowColumns.FactNumbersAre | apps/api/src/agent/attention-shadow-facts.ts:78-128 | the numbers of a fact are its bounds, policy and amounts and what the events' milliseconds make |
| ShadowColumns.FactColumnsAre | apps/api/src/agent/attention-shadow-facts.ts:95-136 | keys, names, environment and classifications of a fact, each from its own argument |
| ShadowColumns.FactDatesAre | apps/api/src/agent/attention-shadow-facts.ts:69-96 | the four dates with their defaults, and the hypothetical columns |
| ShadowColumns.FactToolClassIs | apps/api/src/agent/attention-shadow-facts.ts:99-99 | the tool class is the normalized dominant family |
| ShadowColumns.RowColumnsAre | apps/api/src/agent/attention-shadow-dataset.ts:52-77 | the columns of a row, and the comparisons in the order of the policies |
| ShadowColumns.IdentifiersAre | packages/agent-protocol/src/shadow-fact-contract.ts:5-7 | the characters and lengths of dimensions, environments, currencies and digests |
| ShadowColumns.DimensionIs | apps/api/src/agent/attention-shadow-facts.ts:218-227 | a dimension is the trimmed, lowered text with underscores for other characters |
| ShadowColumns.PrintableAre | packages/agent-protocol/src/shadow-fact-contract.ts:37-39 | the dates the schema takes are those of the Gregorian years 0 to 9999 |
| ShadowColumns.ProvidersAre | apps/api/src/agent/attention-shadow-facts.ts:186-201 | which events count for the unknown rate |
| ShadowColumns.RateIs | apps/api/src/agent/attention-shadow-facts.ts:179-184 | the rate is the rejected part in parts per million rounded down |
| Json.QuotePrefix | packages/agent-protocol/src/index.ts:298-298 | a quoted string can be read back from the front of any text |
| Json.PrintPrefix | packages/agent-protocol/src/index.ts:295-313 | a printed value can be read back from the front of any terminated text |
| Json.PrintInjective | packages/agent-protocol/src/index.ts:295-313 | printing loses nothing |
| Json.QuoteIsRead | packages/agent-protocol/src/index.ts:298-298 | a reader of section 7 of RFC 8259 reads every quoted string back |
| Json.EscapesAreShort | packages/agent-protocol/src/index.ts:298-298 | which characters are escaped and how |
| SignedEnvelope.CopyWithSortedKeys | packages/shared/src/signing.ts:10-23 | the recursion that fills fresh objects computes the key-sorted value |
| SignedEnvelope.SortedKeysAscend | packages/shared/src/signing.ts:10-23 | at every depth the sorted keys ascend |
| SignedEnvelope.SerializePrintsSorted | packages/agent-protocol/src/index.ts:295-313 | the stable serializer prints the key-sorted value |
| SignedEnvelope.SameSortsAlike | packages/shared/src/signing.ts:10-23 | values equal up to key order at any depth sort to the same value |
| SignedEnvelope.AlikeSortedIsSame | packages/shared/src/signing.ts:10-23 | values that sort alike are equal up to key order |
| SignedEnvelope.SerializerInjective | packages/agent-protocol/src/index.ts:295-313 | two values serialize alike if and only if they are equal up to key order |
| SignedEnvelope.CanonicalJsonDetermines | packages/shared/src/signing.ts:29-31 | canonical texts coincide if and only if the values are equal up to key order once infinite numbers are null |
| SignedEnvelope.CanonicalIsSerialized | packages/shared/src/signing.ts:29-31 | the canonical text is the stable serialization of the value with infinite numbers as null |
| BatchSigning.CompareIsPreorder | packages/agent-protocol/src/index.ts:255-293 | the comparator is antisymmetric in sign and transitive on all values |
| BatchSigning.TiesAreSame | packages/agent-protocol/src/index.ts:255-283 | two events tie if and only if they are equal up to key order |
| BatchSigning.SortedEventsAgree | packages/agent-protocol/src/index.ts:246-253 | any two queue orders of the same events sort to the same events |
| BatchSigning.EventsComeInOrder | packages/agent-protocol/src/index.ts:255-283 | the signed events come in order of time, then sequence, then id, missing or malformed ones last |
| BatchSigning.SignedInOrder | packages/agent-protocol/src/index.ts:255-283 | the order of the signed events told from their properties: parsed time, finite sequence and id, each with its stand-in, then serialized text |
| BatchSigning.PayloadHas | packages/agent-protocol/src/index.ts:239-253 | exactly five properties are signed, each under its name |
| BatchSigning.SignedTextIgnoresOrder | packages/agent-protocol/src/index.ts:239-253 | the signed text is unchanged by permuting events and by reordering keys at any depth |
| BatchSigning.ReorderingKeepsSignedText | packages/agent-protocol/src/index.ts:239-253 | the same, event by event along a permutation |
| BatchSigning.SignedTextDeterminesBatch | packages/agent-protocol/src/index.ts:239-253 | without infinite numbers two batches have the same signed text if and only if they are the same up to event order and key order |
| BatchSigning.SignedTextDeterminesPayload | packages/agent-protocol/src/index.ts:239-253 | any two batches have the same signed text if and only if their payloads are equal up to key order once infinite numbers are null |
| BatchSigning.InfinityIsSignedAsNull | packages/shared/src/signing.ts:29-31 | an overflowing number and null give one signed text for different batches |
| Base32.Alphabet | packages/shared/src/totp.ts:3-3 | the letter function spells the alphabet |
| Base32.Encode | packages/shared/src/totp.ts:5-21 | the loop with its wrapping 32-bit accumulator writes the bits of the bytes in groups of five |
| Base32.Decode | packages/shared/src/totp.ts:23-45 | the loop yields the bytes of the cleaned text's bits, or the complaint about its first foreign character |
| Base32.EncodingShape | packages/shared/src/totp.ts:5-21 | the encoding has ceil(8n/5) characters, all of the alphabet |
| Base32.SymbolsKeepBits | packages/shared/src/totp.ts:10-19 | the symbols' bits are the bytes' bits and fewer than five zeros, as in section 6 of RFC 4648 |
| Base32.ShiftInHolds | packages/shared/src/totp.ts:10-11 | shifting into the wrapping accumulator keeps its low bits equal to the pending bits |
| Base32.TakeHolds | packages/shared/src/totp.ts:12-15 | reading a group off the accumulator gives the oldest pending bits |
| Base32.DecodingSucceedsIff | packages/shared/src/totp.ts:28-44 | decoding fails exactly when a character outside the alphabet is left after cleaning, and keeps every whole byte |
| Base32.DecodeInvertsEncode | packages/shared/src/totp.ts:5-45 | decoding inverts encoding on every byte string with any number of padding characters appended |
| Base32.TypedIsDecoded | packages/shared/src/totp.ts:28-44 | whoever types the encoding of some bytes gets them back, with white space anywhere, in any case that upper-casing raises and with padding behind it all |
| Base32.ForeignIsNamed | packages/shared/src/totp.ts:28-36 | after the trailing padding is cut, the first character that is neither white space nor of the alphabet is the one complained about, a padding character before white space too |
| Totp.PasswordShape | packages/shared/src/totp.ts:81-81 | a password has the asked-for number of digits and spells the code modulo that power of ten |
| Totp.TruncateReadsWindow | packages/shared/src/totp.ts:75-80 | truncation reads four consecutive digest bytes as a big-endian number and drops its top bit, as in section 5.3 of RFC 4226 |
| Totp.TruncateReadsPadded | packages/shared/src/totp.ts:75-80 | the same for any digest, missing bytes counting as zero |
| Totp.CounterBytes | packages/shared/src/totp.ts:71-73 | the message is the eight bytes whose big-endian value is the counter |
| Totp.HotpShape | packages/shared/src/totp.ts:69-82 | a password exists exactly when the secret decodes and the counter fits 64 bits, and spells the truncated digest |
| Totp.Verify | packages/shared/src/totp.ts:92-112 | the window loop, for any table of passwords, is the model's scan |
| Totp.VerificationMeans | packages/shared/src/totp.ts:92-112 | verification throws exactly for a well-formed token with an unreadable secret or a window below counter zero; otherwise it tells whether a counter of the window yields the token |
| Totp.CounterMeans | packages/shared/src/totp.ts:88-88 | the counter is the number of whole steps since the epoch |
| Totp.GeneratedSpells | packages/shared/src/totp.ts:84-90 | in step k generation succeeds exactly when secret and k permit and spells the truncated digest of the eight bytes of k |
| Totp.VerificationAt | packages/shared/src/totp.ts:92-112 | verification by the clock: when it throws, and that it accepts exactly what a step of the window generates |
| Totp.GeneratedIsAccepted | packages/shared/src/totp.ts:84-112 | a generated password is accepted by every clock at most the window's number of steps away |
| Sampling.RandomBigIntBelow | packages/shared/src/auction.ts:58-87 | the sampler returns the first accepted of 64 draws or the folded last one, always in range |
| Sampling.ReadMasked | packages/shared/src/auction.ts:71-75 | the byte loop and mask compute the low bits of the big-endian value |
| Sampling.BitLengthBounds | packages/shared/src/auction.ts:60-68 | the masked space is the power of two just above the bound |
| Sampling.BytesAreLeast | packages/shared/src/auction.ts:61-61 | the fewest bytes, but at least one, that hold the bits |
| Sampling.FirstAcceptedWins | packages/shared/src/auction.ts:69-77 | the first draw below the bound is what is returned |
| Sampling.AttemptIsUniform | packages/shared/src/auction.ts:60-77 | every value below the bound has exactly 2^(8 byteLength - bitLength) byte strings that yield it, and at least half of the masked space is accepted |
| Sampling.FoldedDrawIsUniformIff | packages/shared/src/auction.ts:78-86 | the last-resort draw is uniform if and only if the bound is a power of two, and the exact number of sources of each value |
| Auction.GroupCampaignsByCurrency | packages/shared/src/auction.ts:93-105 | filling the map and sorting its entries gives the model's groups |
| Auction.GroupsAreSorted | packages/shared/src/auction.ts:102-104 | groups come in strictly ascending currency order |
| Auction.GroupsPartition | packages/shared/src/auction.ts:96-101 | a group lists exactly the campaigns of its currency and every campaign is listed |
| Auction.SelectCampaignIndex | packages/shared/src/auction.ts:133-187 | the selection loops are the model's weighted picks |
| Auction.SelectInGroup | packages/shared/src/auction.ts:168-186 | the subtracting loop is the cumulative pick |
| Auction.PickIsExact | packages/shared/src/auction.ts:154-163 | of the draws below the total exactly as many pick a position as its weight, so the fallback never decides |
| Auction.SizesAddUp | packages/shared/src/auction.ts:153-155 | the group sizes add up to the number of campaigns |
| Auction.GroupWeightIsExact | packages/shared/src/auction.ts:153-163 | of N group draws exactly as many choose a currency as it has campaigns |
| Auction.SelectionIsExact | packages/shared/src/auction.ts:164-187 | in its currency a campaign is selected by exactly max(bid, 0) of the second draws, or by one when all bids are zero, and never in another currency |
| Auction.SomeIsSelected | packages/shared/src/auction.ts:133-187 | whatever the draws, one of the campaigns is selected, and none only when there is none |
| Money.WrittenIsParsed | packages/shared/src/parse.ts:58-93 | every amount with few enough decimals is accepted and worth sign times (whole 10^e + frac 10^(e - digits)) |
| Money.ParsedIsWritten | packages/shared/src/parse.ts:58-93 | nothing else is accepted, and every accepted text has that worth |
| Money.FirstComplaints | packages/shared/src/parse.ts:65-75 | the unsupported exponent, the empty amount and the exponent sign or comma, each exactly when it is what is wrong first |
| Money.TooFineIsRefused | packages/shared/src/parse.ts:76-85 | every amount with more decimals than the exponent allows is refused for that |
| Money.OnlyTooFineIsRefused | packages/shared/src/parse.ts:76-85 | and only such amounts are |
| Money.MinorParserAgrees | packages/shared/src/parse.ts:24-46 | on text the minor-unit parser accepts exactly the point-free amounts of currencies without decimals, with the same value |
| Money.MinorInputIsExact | packages/shared/src/parse.ts:24-46 | every integer is read back from a bigint and from its text, and from a number exactly when it is safe; no other number is accepted |
| Money.MinorComplaintsAre | packages/shared/src/parse.ts:24-46 | a missing value is worth nothing; which numbers are no integers, which are unsafe, and that only text is invalid text |
| Money.MinorIsWritten | packages/shared/src/currency.ts:315-327 | the written text has no superfluous zero or point and is worth exactly the given units |
| Money.ParseInvertsPrint | packages/shared/src/currency.ts:315-327 | parsing inverts writing for every integer and every exponent from 0 to 18 |
| Correlation.CreationIsFresh | apps/vscode-extension/src/agent-session-correlation.ts:86-116 | an event that resolves to no session is filed under a key no session has |
| CorrelationRules.ResolveMeans | apps/vscode-extension/src/agent-session-correlation.ts:86-112 | an event resolves to a session exactly by its hash, else by its correlation, else as the only open one of installation, device and family within five minutes |
| CorrelationRules.CreatedIs | apps/vscode-extension/src/agent-session-correlation.ts:118-134 | a created session is what its event says |
| CorrelationRules.MergedIs | apps/vscode-extension/src/agent-session-correlation.ts:136-159 | what an event changes in its session, column by column |
| CorrelationRules.AcceptedIs | apps/vscode-extension/src/agent-session-correlation.ts:53-71 | where an accepted event goes, what leaves the cache for it and what is forgotten |
| CorrelationRules.PutKeepsPlaces | apps/vscode-extension/src/agent-session-correlation.ts:66-70 | a session keeps its place and a new one is last |
| CorrelationRules.StatusesAre | apps/vscode-extension/src/agent-session-correlation.ts:205-219 | which events announce which status |
| CorrelationRules.PrioritiesRank | apps/vscode-extension/src/agent-session-correlation.ts:27-33 | which sources outrank which |
| Correlation.AcceptKeepsInv | apps/vscode-extension/src/agent-session-correlation.ts:53-71 | both limits hold, keys and remembered ids are distinct, the ids are the last two thousand accepted, and live plus evicted counts equal the accepted events |
| Correlation.RunKeepsInv | apps/vscode-extension/src/agent-session-correlation.ts:53-71 | the same over every run |
| Correlation.RecentReplayIsNoOp | apps/vscode-extension/src/agent-session-correlation.ts:55-61 | events among the last two thousand accepted change nothing on arrival |
| Correlation.AcceptKeepsPriority | apps/vscode-extension/src/agent-session-correlation.ts:136-159 | an event never lowers the source priority or event count of a live session |
| Correlation.PriorityNeverDrops | apps/vscode-extension/src/agent-session-correlation.ts:136-159 | over any run through which a session stays live its source priority does not drop |
| Correlation.WeakerSourcesNeverOverwrite | apps/vscode-extension/src/agent-session-correlation.ts:136-159 | while a session stays live, sources weaker than its own never change its lifecycle, provider or mode |
| Correlation.AmbiguousIsKeptApart | apps/vscode-extension/src/agent-session-correlation.ts:94-112 | an event that could belong to two sessions gets one of its own and changes neither, in full caches too, where the longest-held sessions make room |
| CorrelationHistory.SessionIsItsHistory | apps/vscode-extension/src/agent-session-correlation.ts:53-116 | in every run of identified events, evictions and redeliveries included, a live session is what the events filed under it make of it |
| CorrelationHistory.HistoryIsOwn | apps/vscode-extension/src/agent-session-correlation.ts:53-116 | in every run in which a session takes no foreign event and is not evicted, it has taken exactly the events with its hash |
| CorrelationHistory.HistoryIsOwnInOrder | apps/vscode-extension/src/agent-session-correlation.ts:53-116 | and without redeliveries in their order of arrival |
| CorrelationOrder.ProperIsKept | apps/vscode-extension/src/agent-session-correlation.ts:86-116 | every session of a run is such a session if all events carry hashes of up to 256 sessions and no correlation id is another one's hash, redeliveries included |
| CorrelationOrder.SessionsEvolveAlone | apps/vscode-extension/src/agent-session-correlation.ts:53-116 | such a session is what its own events make of it alone, among any events of other sessions, hashed or not |
| CorrelationOrder.AloneFollowsGreatest | apps/vscode-extension/src/agent-session-correlation.ts:187-194 | a session fed by one sequenced source carries the lifecycle of the lexicographically greatest event |
| CorrelationOrder.SequencedEndsAtGreatest | apps/vscode-extension/src/agent-session-correlation.ts:136-194 | and does so after any run that keeps it to its own events, redeliveries included |
| CorrelationOrder.ArrivalOrderIsIrrelevant | apps/vscode-extension/src/agent-session-correlation.ts:136-194 | two such runs with the same events of a sequenced session, in any order and number and among any others, end at one lifecycle, and at one count while no id was forgotten |
| CorrelationOrder.AloneFollowsLastGreatest | apps/vscode-extension/src/agent-session-correlation.ts:195-199 | a session fed by one source without sequences carries the last arrival among its greatest parsed times, or the first arrival when none parses |
| CorrelationOrder.UnsequencedTiesFollowArrival | apps/vscode-extension/src/agent-session-correlation.ts:195-199 | of two events of one time the session follows the later arrival |
| CorrelationMixed.AloneStands | apps/vscode-extension/src/agent-session-correlation.ts:136-159 | a session carries the event, sequence number and priority that the events lead to one after the other |
| CorrelationMixed.DominantWins | apps/vscode-extension/src/agent-session-correlation.ts:136-199 | wherever a dominant event arrives among the others the session ends at it |
| CorrelationMixed.OrderFreeIff | apps/vscode-extension/src/agent-session-correlation.ts:136-199 | for any mixture of sources, numbered or not, every arrival order ends at one lifecycle if and only if one event is dominant |
| CorrelationMixed.SequencedOrderFree | apps/vscode-extension/src/agent-session-correlation.ts:187-194 | for one numbering source it always does |
| CorrelationMixed.UnsequencedOrderFreeIff | apps/vscode-extension/src/agent-session-correlation.ts:187-199 | for one source without sequences if and only if exactly one event bears the greatest parsed time, or none parses and there is only one event |
| CorrelationMixed.UnnumberedLatestIsNotFree | apps/vscode-extension/src/agent-session-correlation.ts:136-199 | when the latest event has no number but another has, two arrival orders end differently |
| CorrelationCache.AgentSessionCorrelation.Accept | apps/vscode-extension/src/agent-session-correlation.ts:53-71 | the method's whole new cache and its answer are the model's |
| CorrelationCache.AgentSessionCorrelation.FindSession | apps/vscode-extension/src/agent-session-correlation.ts:86-112 | exact keys in order, then the only candidate of the time window |
| CorrelationCache.AgentSessionCorrelation.RememberEvent | apps/vscode-extension/src/agent-session-correlation.ts:161-168 | the oldest ids leave first and the limit holds |
| CorrelationCache.AgentSessionCorrelation.TrimSessions | apps/vscode-extension/src/agent-session-correlation.ts:170-176 | the longest-held sessions leave first, and their events are counted as evicted |

## Left out

- Opportunity projection, privacy scrubbing and analytics of the agent service: they do not feed the tables modelled here.
- The computation of a candidate's parsing, scrub and field scan: their results are part of the candidate.
- The fallback branch of work-unit creation that only a race on the unit's key could reach.
- The reconciliation scheduler's lease, heartbeat, candidate query and counters: candidates are step parameters.
- Change notifications and listeners of attention surfaces, and the constructor's rejection of blank ids.
- The rounding of `at / 1000 / step` in floating point and the loss of integer precision above 2^53: instants and counters are integers.
- Constant fields of a session fact (dataset and calculation version, attestation and fraud status).
- Number inputs of the major-unit money parser: they enter it through their own text, and NaN and Infinity are refused.
- Lone surrogates, keys named `__proto__` and integer-like keys in JSON values.
- Hexadecimal decoding and the timing-safe comparison around signatures; the keyed hash is not modelled for batches because it only sees the canonical text.
- SignedEnvelope.CopyWithSortedKeys: values are immutable in the model, so that the original object is left unmodified is not a separate claim.
- AgentService.Service.IngestBatch: one method call runs alone, so its branch for a unique race cannot be reached; `AgentInterference` models that branch with other transactions running.
- ShadowContract.DatasetRowIsTotal, ShadowContract.FactIsBuiltIff: the numeric part only; `ShadowFact.RowIsBuiltIff` and `ShadowFact.SessionFactIsBuiltIff` state the whole.
- AgentRuns.FactFreezesBinding: holds when fact persistence is one step; `AgentFactRace.SplitFactComesApartIff` states it for a read and a write with other transactions in between.
- Currency tables, formatting and environment overrides; policy experiments and response models, which repeat the arguments made here in weaker form.
