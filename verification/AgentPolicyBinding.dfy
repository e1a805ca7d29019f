/**
 Which policy a session is bound to. The selection query is characterised as a
 maximum, and over every run with a fixed policy table the binding is shown to be the
 policy in force at the earliest authoritative instant of the session.
 */
module AgentPolicyBinding {
  import opened Wrappers
  import opened AgentEvents
  import opened AgentStore
  import opened AgentInvariants

  /** `p` is shadow or experiment and in effect by `at`, and no other such row took effect later, or then with a greater version. */
  ghost predicate IsInForce(policies: seq<Policy>, at: int, p: Policy) {
    && p in policies && p.status in {Shadow, Experiment} && p.effectiveAt <= at
    && forall q | q in policies && q.status in {Shadow, Experiment} && q.effectiveAt <= at ::
         q.effectiveAt < p.effectiveAt || (q.effectiveAt == p.effectiveAt && q.version <= p.version)
  }

  /** The query told from the rows alone: a shadow or experiment policy in effect, the latest of them, or nothing when there is none. */
  lemma {:induction false} FindPolicyIsInForce(policies: seq<Policy>, at: int)
    ensures FindPolicy(policies, at).None? <==> forall p | p in policies :: p.status !in {Shadow, Experiment} || p.effectiveAt > at
    ensures FindPolicy(policies, at).Some? ==> IsInForce(policies, at, FindPolicy(policies, at).value)
  {
    if policies != [] {
      var p, rest := policies[0], policies[1..];
      FindPolicyIsInForce(rest, at);
      assert policies == [p] + rest;
    }
  }

  /** The order of the table's rows is irrelevant to the query. */
  lemma FindPolicyIgnoresRowOrder(a: seq<Policy>, b: seq<Policy>, at: int)
    requires UniqueVersions(a) && UniqueVersions(b)
    requires (forall p | p in a :: p in b) && (forall p | p in b :: p in a)
    ensures FindPolicy(a, at) == FindPolicy(b, at)
  {
    FindPolicyIsInForce(a, at);
    FindPolicyIsInForce(b, at);
  }

  /** Moving the instant back to no earlier than the found policy's effective date changes nothing. */
  lemma FindPolicyStable(policies: seq<Policy>, earlier: int, later: int)
    requires UniqueVersions(policies) && earlier <= later
    ensures FindPolicy(policies, later).None? ==> FindPolicy(policies, earlier).None?
    ensures FindPolicy(policies, later).Some? && FindPolicy(policies, later).value.effectiveAt <= earlier ==>
              FindPolicy(policies, earlier) == FindPolicy(policies, later)
  {
    FindPolicyIsInForce(policies, earlier);
    FindPolicyIsInForce(policies, later);
  }

  // ------------------------------------------------------------ the binding instant

  function Min(a: int, b: int): int { if a <= b then a else b }

  /** The earliest of the event that created the session and all its start events. */
  function BindingInstant(log: seq<Entry>, c: string): Option<int> {
    if log == [] then None
    else
      var earlier := BindingInstant(log[..|log| - 1], c);
      var x := log[|log| - 1].event;
      if x.correlationId != c then earlier
      else match earlier
        case None => Some(x.occurredAt)
        case Some(at) => if x.eventType.SessionStarted? then Some(Min(at, x.occurredAt)) else earlier
  }

  lemma BindingInstantAppend(log: seq<Entry>, x: Entry, c: string)
    ensures BindingInstant(log + [x], c) ==
            if x.event.correlationId != c then BindingInstant(log, c)
            else match BindingInstant(log, c)
              case None => Some(x.event.occurredAt)
              case Some(at) => if x.event.eventType.SessionStarted? then Some(Min(at, x.event.occurredAt)) else BindingInstant(log, c)
  {
    assert (log + [x])[..|log|] == log;
  }

  lemma {:induction false} BindingInstantDefined(log: seq<Entry>, c: string)
    ensures BindingInstant(log, c).Some? <==> LatestOf(log, c).Some?
  {
    if log != [] { BindingInstantDefined(log[..|log| - 1], c); }
  }

  /** The session is bound to the policy in force at its binding instant, or unbound when there was none. */
  ghost predicate BindingMatches(s: Store, c: string) {
    BindingInstant(s.log, c).Some? &&
    match FindPolicy(s.policies, BindingInstant(s.log, c).value)
    case None => c !in s.bindings
    case Some(p) => c in s.bindings && s.bindings[c].version == p.version && s.bindings[c].effectiveAt == p.effectiveAt
  }

  ghost predicate BindingsMatch(s: Store) {
    forall c | c in s.sessions && c !in s.facts :: BindingMatches(s, c)
  }

  /** A rebind moves a matching binding to the earlier of its instant and the start. */
  lemma RebindMatches(s: Store, c: string, at: int, start: int)
    requires UniqueVersions(s.policies) && BindingsInEffect(s) && c !in s.facts
    requires match FindPolicy(s.policies, at)
             case None => c !in s.bindings
             case Some(p) => c in s.bindings && s.bindings[c].version == p.version && s.bindings[c].effectiveAt == p.effectiveAt
    ensures var r := RebindPolicy(s, c, start);
            match FindPolicy(s.policies, Min(at, start))
            case None => c !in r.bindings
            case Some(p) => c in r.bindings && r.bindings[c].version == p.version && r.bindings[c].effectiveAt == p.effectiveAt
  {
    FindPolicyStable(s.policies, Min(at, start), at);
    FoundPolicyIsSelectable(s.policies, at);
  }

  /** The guard against starts later than the assignment can never fire: an assignment is never older than its policy. */
  lemma LateStartGuardIsDead(s: Store, c: string, start: int)
    requires Reachable(s) && c in s.bindings && s.bindings[c].effectiveAt > start
    ensures start < s.bindings[c].assignedAt
  {
    ReachableInv(s);
  }

  lemma OpenMatches(s: Store, userId: string, deviceId: string, event: Event, now: int)
    requires event.correlationId !in s.bindings
    ensures var r := Open(s, userId, deviceId, event, now); var c := event.correlationId;
            && r.policies == s.policies
            && (match FindPolicy(s.policies, event.occurredAt)
                case None => r.bindings == s.bindings
                case Some(p) => r.bindings == s.bindings[c := Binding(p.version, p.effectiveAt, event.occurredAt)])
  {
  }

  lemma RecordBindings(s: Store, event: Event, latest: Option<Event>, now: int)
    requires event.correlationId in s.sessions
    ensures Record(s, event, latest, now).bindings ==
            if event.eventType.SessionStarted? then RebindPolicy(s, event.correlationId, event.occurredAt).bindings else s.bindings
  {
  }

  lemma IngestBindings(s: Store, userId: string, deviceId: string, event: Event, now: int)
    requires Inv(s) && BindingsMatch(s) && Decide(s, userId, deviceId, event).Accepted?
    requires event.correlationId !in s.facts
    ensures BindingMatches(Ingest(s, userId, deviceId, event, now), event.correlationId)
  {
    if event.correlationId in s.sessions {
      IngestIntoOpenSession(s, userId, deviceId, event, now);
    } else {
      IngestIntoNewSession(s, userId, deviceId, event, now);
    }
  }

  lemma IngestIntoOpenSession(s: Store, userId: string, deviceId: string, event: Event, now: int)
    requires Inv(s) && BindingsMatch(s) && Decide(s, userId, deviceId, event).Accepted?
    requires event.correlationId !in s.facts && event.correlationId in s.sessions
    ensures BindingMatches(Ingest(s, userId, deviceId, event, now), event.correlationId)
  {
    var c := event.correlationId;
    IngestAccepts(s, userId, deviceId, event, now);
    BindingInstantAppend(s.log, Entry(event, UnitOf(event), now), c);
    BindingInstantDefined(s.log, c);
    RecordBindings(s, event, LatestOf(s.log, c), now);
    RebindMatches(s, c, BindingInstant(s.log, c).value, event.occurredAt);
  }

  lemma IngestIntoNewSession(s: Store, userId: string, deviceId: string, event: Event, now: int)
    requires Inv(s) && BindingsMatch(s) && Decide(s, userId, deviceId, event).Accepted?
    requires event.correlationId !in s.facts && event.correlationId !in s.sessions
    ensures BindingMatches(Ingest(s, userId, deviceId, event, now), event.correlationId)
  {
    var c := event.correlationId;
    IngestAccepts(s, userId, deviceId, event, now);
    BindingInstantAppend(s.log, Entry(event, UnitOf(event), now), c);
    BindingInstantDefined(s.log, c);
    NoRowsNoLatest(s, c);
    OpenMatches(s, userId, deviceId, event, now);
    FoundPolicyIsSelectable(s.policies, event.occurredAt);
    var ready := Open(s, userId, deviceId, event, now);
    RecordBindings(ready, event, None, now);
    RebindMatches(ready, c, event.occurredAt, event.occurredAt);
  }

  lemma NoRowsNoLatest(s: Store, c: string)
    requires Inv(s) && c !in s.sessions
    ensures LatestOf(s.log, c).None?
  {
    LatestIsMaximal(s.log, c);
  }

  predicate LeavesPolicies(step: Step) {
    !step.ProvisionStep? && !step.PolicyStatusStep?
  }

  lemma IngestKeepsBindingsMatch(s: Store, userId: string, deviceId: string, event: Event, now: int)
    requires Inv(s) && BindingsMatch(s) && Decide(s, userId, deviceId, event).Accepted?
    ensures BindingsMatch(Ingest(s, userId, deviceId, event, now))
  {
    var r := Ingest(s, userId, deviceId, event, now);
    IngestAccepts(s, userId, deviceId, event, now);
    if event.correlationId !in s.facts { IngestBindings(s, userId, deviceId, event, now); }
    OthersStillMatch(s, r, userId, deviceId, event, now);
  }

  lemma OthersStillMatch(s: Store, r: Store, userId: string, deviceId: string, event: Event, now: int)
    requires BindingsMatch(s) && Accepts(s, r, userId, deviceId, event, now)
    ensures forall d | d in r.sessions && d !in r.facts && d != event.correlationId :: BindingMatches(r, d)
  {
    forall d | d in r.sessions && d !in r.facts && d != event.correlationId ensures BindingMatches(r, d) {
      BindingInstantAppend(s.log, Entry(event, UnitOf(event), now), d);
      assert BindingMatches(s, d);
    }
  }

  lemma StepKeepsBindingsMatch(s: Store, step: Step)
    requires Inv(s) && BindingsMatch(s) && LeavesPolicies(step)
    ensures BindingsMatch(Apply(s, step)) && Apply(s, step).policies == s.policies
  {
    match step
    case IngestStep(userId, deviceId, event, at) =>
      if Decide(s, userId, deviceId, event).Accepted? {
        IngestAccepts(s, userId, deviceId, event, at);
        IngestKeepsBindingsMatch(s, userId, deviceId, event, at);
      }
    case ReconcileStep(c, cutoff, at) => ReconcileKeepsBindingsMatch(s, c, cutoff, at);
    case FactStep(c, fact, computed) => FactKeepsBindingsMatch(s, c, fact, computed);
    case _ =>
  }

  lemma ReconcileKeepsBindingsMatch(s: Store, c: string, cutoff: int, at: int)
    requires BindingsMatch(s)
    ensures BindingsMatch(Reconcile(s, c, cutoff, at)) && Reconcile(s, c, cutoff, at).policies == s.policies
  {
    assert Reconcile(s, c, cutoff, at).sessions.Keys == s.sessions.Keys;
  }

  lemma FactKeepsBindingsMatch(s: Store, c: string, fact: Fact, computed: string)
    requires BindingsMatch(s)
    ensures BindingsMatch(PersistFact(s, c, fact, computed)) && PersistFact(s, c, fact, computed).policies == s.policies
  {
  }

  /**
   Over every run that leaves the policy table alone, every session without a fact is
   bound to the policy in force at the earliest of its creating event and its starts.
   */
  lemma {:induction false} BindingIsPolicyAtStart(policies: seq<Policy>, steps: seq<Step>)
    requires UniqueVersions(policies)
    requires forall step | step in steps :: LeavesPolicies(step)
    ensures var s := Run(EmptyStore(policies), steps); Inv(s) && BindingsMatch(s) && s.policies == policies
  {
    if steps != [] {
      var front, last := steps[..|steps| - 1], steps[|steps| - 1];
      assert last in steps && forall step | step in front :: step in steps;
      BindingIsPolicyAtStart(policies, front);
      var s := Run(EmptyStore(policies), front);
      StepKeepsInv(s, last);
      StepKeepsBindingsMatch(s, last);
    }
  }

  /** Every binding names a row that is shadow or experiment, with its effective time. */
  ghost predicate BindingsInUse(s: Store) {
    forall c | c in s.bindings ::
      exists p :: p in s.policies && p.status in {Shadow, Experiment}
                  && p.version == s.bindings[c].version && p.effectiveAt == s.bindings[c].effectiveAt
  }

  /** Over every run that leaves the policy table alone every bound session names a policy that is shadow or experiment there. */
  lemma {:induction false} BoundPolicyIsInForce(policies: seq<Policy>, steps: seq<Step>)
    requires forall step | step in steps :: LeavesPolicies(step)
    ensures var s := Run(EmptyStore(policies), steps); BindingsInUse(s) && s.policies == policies
  {
    if steps != [] {
      var front, last := steps[..|steps| - 1], steps[|steps| - 1];
      assert last in steps && forall step | step in front :: step in steps;
      BoundPolicyIsInForce(policies, front);
      StepBindsInUse(Run(EmptyStore(policies), front), last);
    }
  }

  lemma StepBindsInUse(s: Store, step: Step)
    requires BindingsInUse(s) && LeavesPolicies(step)
    ensures BindingsInUse(Apply(s, step)) && Apply(s, step).policies == s.policies
  {
    if step.IngestStep? && Decide(s, step.userId, step.deviceId, step.event).Accepted? {
      IngestBindsInUse(s, step.userId, step.deviceId, step.event, step.at);
    }
  }

  lemma IngestBindsInUse(s: Store, userId: string, deviceId: string, event: Event, now: int)
    requires BindingsInUse(s) && Decide(s, userId, deviceId, event).Accepted?
    ensures BindingsInUse(Ingest(s, userId, deviceId, event, now)) && Ingest(s, userId, deviceId, event, now).policies == s.policies
  {
    IngestAccepts(s, userId, deviceId, event, now);
    FindPolicyIsInForce(s.policies, event.occurredAt);
  }
}
