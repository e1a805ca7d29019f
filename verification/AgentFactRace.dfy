/**
 Persisting a session fact takes no advisory lock, so it may overlap with a rebinding of the
 same session. The runs of the store model take it as one atomic step. Here it is split:
 its transaction reads the binding, any other transactions follow, and then it writes the
 fact. The two come apart, and stay so, exactly when a start that reaches back before the
 bound policy was accepted in between.
 */
module AgentFactRace {
  import opened Wrappers
  import opened AgentEvents
  import opened AgentStore
  import opened AgentInvariants
  import opened AgentRuns
  import opened AgentPolicyBinding

  /** Both transactions decided on the rows of `s` and then wrote, in either order: they write different tables. */
  function Overlapped(s: Store, c: string, fact: Fact, computed: string, start: int): Store {
    s.(bindings := RebindPolicy(s, c, start).bindings, facts := PersistFact(s, c, fact, computed).facts)
  }

  // ------------------------------------------------------------ bindings name policies

  predicate Names(policies: seq<Policy>, b: Binding) {
    exists p | p in policies :: p.version == b.version && p.effectiveAt == b.effectiveAt
  }

  /** Every binding carries version and effective time of a policy. */
  ghost predicate BindingsName(s: Store) {
    forall c | c in s.bindings :: Names(s.policies, s.bindings[c])
  }

  lemma AssignNames(s: Store, c: string, at: int)
    requires BindingsName(s)
    ensures BindingsName(AssignPolicy(s, c, at))
  {
    FoundPolicyIsSelectable(s.policies, at);
  }

  lemma RebindNames(s: Store, c: string, start: int)
    requires BindingsName(s)
    ensures BindingsName(RebindPolicy(s, c, start))
  {
    FoundPolicyIsSelectable(s.policies, start);
  }

  lemma IngestNames(s: Store, userId: string, deviceId: string, event: Event, now: int)
    requires BindingsName(s) && Decide(s, userId, deviceId, event).Accepted?
    ensures BindingsName(Ingest(s, userId, deviceId, event, now))
  {
    var c := event.correlationId;
    IngestAccepts(s, userId, deviceId, event, now);
    AssignNames(s, c, event.occurredAt);
    var ready := if c in s.sessions then s else AssignPolicy(s, c, event.occurredAt);
    RebindNames(ready, c, event.occurredAt);
  }

  /** No step takes a policy's version or effective time away. */
  lemma PoliciesStayNamed(s: Store, step: Step, b: Binding)
    requires Names(s.policies, b) && !step.IngestStep?
    ensures Names(Apply(s, step).policies, b)
  {
    var p :| p in s.policies && p.version == b.version && p.effectiveAt == b.effectiveAt;
    var after := Apply(s, step).policies;
    var i :| 0 <= i < |s.policies| && s.policies[i] == p;
    assert after[i].version == p.version && after[i].effectiveAt == p.effectiveAt && after[i] in after;
  }

  lemma StepNames(s: Store, step: Step)
    requires BindingsName(s)
    ensures BindingsName(Apply(s, step))
  {
    if step.IngestStep? {
      if Decide(s, step.userId, step.deviceId, step.event).Accepted? {
        IngestNames(s, step.userId, step.deviceId, step.event, step.at);
      }
    } else {
      forall c | c in s.bindings ensures Names(Apply(s, step).policies, s.bindings[c]) {
        PoliciesStayNamed(s, step, s.bindings[c]);
      }
    }
  }

  lemma {:induction false} RunNames(policies: seq<Policy>, steps: seq<Step>)
    ensures BindingsName(Run(EmptyStore(policies), steps))
  {
    if steps != [] {
      RunNames(policies, steps[..|steps| - 1]);
      StepNames(Run(EmptyStore(policies), steps[..|steps| - 1]), steps[|steps| - 1]);
    }
  }

  lemma ReachableNames(s: Store)
    requires Reachable(s)
    ensures BindingsName(s)
  {
    var policies, steps :| UniqueVersions(policies) && s == Run(EmptyStore(policies), steps);
    RunNames(policies, steps);
  }

  // ------------------------------------------------------------ the result

  /** Rebinding never settles on the version it started from. */
  lemma RebindingChangesVersion(s: Store, c: string, start: int)
    requires Inv(s) && BindingsName(s) && c in s.bindings && start < s.bindings[c].effectiveAt && c !in s.facts
    ensures var r := RebindPolicy(s, c, start).bindings; c !in r || r[c].version != s.bindings[c].version
  {
    FoundPolicyIsSelectable(s.policies, start);
    var bound := s.bindings[c];
    var p :| p in s.policies && p.version == bound.version && p.effectiveAt == bound.effectiveAt;
    match FindPolicy(s.policies, start)
    case None =>
    case Some(q) =>
      assert q in s.policies && q.effectiveAt <= start && q != p;
      assert q.version != p.version;
  }

  /** Each transaction, on its own, would write. */
  predicate BothGoThrough(s: Store, c: string, fact: Fact, computed: string, start: int) {
    DecideFact(s, c, fact, computed).Created? && start < s.bindings[c].effectiveAt
  }

  lemma OverlapOf(s: Store, c: string, fact: Fact, computed: string, start: int)
    requires Inv(s) && BindingsName(s)
    ensures !FactsMatchBindings(Overlapped(s, c, fact, computed, start)) <==> BothGoThrough(s, c, fact, computed, start)
  {
    if BothGoThrough(s, c, fact, computed, start) {
      RebindingChangesVersion(s, c, start);
      assert c in Overlapped(s, c, fact, computed, start).facts;
    }
  }

  /**
   In every reachable store an overlapping fact and rebinding come apart if and only if the
   fact was due, naming the bound version of a session without one, and the start lies
   before the bound policy took effect.
   */
  lemma OverlapComesApartIff(s: Store, c: string, fact: Fact, computed: string, start: int)
    requires Reachable(s)
    ensures !FactsMatchBindings(Overlapped(s, c, fact, computed, start)) <==>
              && computed == fact.recordDigest
              && c in s.bindings && c !in s.facts && s.bindings[c].version == fact.version && start < s.bindings[c].effectiveAt
  {
    ReachableInv(s);
    ReachableNames(s);
    OverlapOf(s, c, fact, computed, start);
  }

  /** One after the other, in either order, they never do. */
  lemma SerializedNeverComesApart(s: Store, c: string, fact: Fact, computed: string, start: int)
    requires FactsMatchBindings(s)
    ensures FactsMatchBindings(RebindPolicy(PersistFact(s, c, fact, computed), c, start))
    ensures FactsMatchBindings(PersistFact(RebindPolicy(s, c, start), c, fact, computed))
  {
  }

  // ------------------------------------------------------------ a fact step split in two

  /** The step accepts a start of the session that lies before `at`. */
  predicate MovesStart(s: Store, step: Step, c: string, at: int) {
    && step.IngestStep? && Decide(s, step.userId, step.deviceId, step.event).Accepted?
    && step.event.correlationId == c && step.event.eventType.SessionStarted? && step.event.occurredAt < at
  }

  /** Unbound, or bound to a policy that took effect before `at`. */
  predicate Moved(s: Store, c: string, at: int) {
    c in s.bindings ==> s.bindings[c].effectiveAt < at
  }

  lemma RebindMovesBack(s: Store, c: string, start: int)
    requires BindingsInEffect(s) && c !in s.facts
    ensures var r := RebindPolicy(s, c, start);
            if c in s.bindings && start < s.bindings[c].effectiveAt then Moved(r, c, s.bindings[c].effectiveAt)
            else r.bindings == s.bindings
  {
    FoundPolicyIsSelectable(s.policies, start);
  }

  /** A known session without a fact keeps its binding, or moves back in time. */
  lemma IngestMovesBack(s: Store, step: Step, c: string)
    requires Inv(s) && c in s.sessions && c !in s.facts
    requires step.IngestStep? && Decide(s, step.userId, step.deviceId, step.event).Accepted?
    ensures var r := Apply(s, step);
            if c in s.bindings && MovesStart(s, step, c, s.bindings[c].effectiveAt) then Moved(r, c, s.bindings[c].effectiveAt)
            else (c in r.bindings <==> c in s.bindings) && (c in s.bindings ==> r.bindings[c] == s.bindings[c])
  {
    IngestBinds(s, step.userId, step.deviceId, step.event, step.at);
    if step.event.correlationId == c { RebindMovesBack(s, c, step.event.occurredAt); }
  }

  lemma StepMovesBack(s: Store, step: Step, c: string)
    requires Inv(s) && c in s.sessions && c !in s.facts
    ensures c in Apply(s, step).sessions
    ensures var r := Apply(s, step);
            if c in s.bindings && MovesStart(s, step, c, s.bindings[c].effectiveAt) then Moved(r, c, s.bindings[c].effectiveAt)
            else (c in r.bindings <==> c in s.bindings) && (c in s.bindings ==> r.bindings[c] == s.bindings[c])
  {
    StepGrowsLog(s, step);
    if !step.IngestStep? {
      OtherStepsFrame(s, step);
    } else if Decide(s, step.userId, step.deviceId, step.event).Accepted? {
      IngestMovesBack(s, step, c);
    }
  }

  ghost predicate StartMovedIn(s: Store, steps: seq<Step>, c: string, at: int) {
    exists i :: 0 <= i < |steps| && MovesStart(Run(s, steps[..i]), steps[i], c, at)
  }

  lemma StartMovedInFront(s: Store, steps: seq<Step>, c: string, at: int)
    requires steps != []
    ensures var front := steps[..|steps| - 1];
            StartMovedIn(s, steps, c, at) <==> StartMovedIn(s, front, c, at) || MovesStart(Run(s, front), steps[|steps| - 1], c, at)
  {
    var front := steps[..|steps| - 1];
    forall i | 0 <= i < |front| ensures front[..i] == steps[..i] {
    }
    if i :| 0 <= i < |front| && MovesStart(Run(s, front[..i]), front[i], c, at) {
      assert MovesStart(Run(s, steps[..i]), steps[i], c, at);
    }
    if i :| 0 <= i < |steps| && MovesStart(Run(s, steps[..i]), steps[i], c, at) {
      if i < |front| { assert MovesStart(Run(s, front[..i]), front[i], c, at); }
    }
  }

  lemma FactsStay(s: Store, step: Step, c: string)
    requires c in s.facts
    ensures c in Apply(s, step).facts && Apply(s, step).facts[c] == s.facts[c]
  {
    if step.IngestStep? && Decide(s, step.userId, step.deviceId, step.event).Accepted? {
      IngestAccepts(s, step.userId, step.deviceId, step.event, step.at);
    }
  }

  /** Over any run without a fact of the session its binding is the one it had, until an earlier start moves it back. */
  lemma {:induction false} RunMovesBack(s: Store, steps: seq<Step>, c: string)
    requires Inv(s) && c in s.bindings && c !in Run(s, steps).facts
    ensures var r := Run(s, steps); var b := s.bindings[c];
            && c in r.sessions
            && if StartMovedIn(s, steps, c, b.effectiveAt) then Moved(r, c, b.effectiveAt) else c in r.bindings && r.bindings[c] == b
  {
    if steps != [] {
      var front, last := steps[..|steps| - 1], steps[|steps| - 1];
      var mid := Run(s, front);
      if c in mid.facts { FactsStay(mid, last, c); }
      RunMovesBack(s, front, c);
      RunKeepsInv(s, front);
      StepMovesBack(mid, last, c);
      StartMovedInFront(s, steps, c, s.bindings[c].effectiveAt);
    }
  }

  /** Going back in time is a change of version. */
  lemma MovedIsAnotherVersion(s: Store, r: Store, c: string)
    requires UniqueVersions(r.policies) && BindingsName(r) && c in s.bindings && Names(r.policies, s.bindings[c])
    requires Moved(r, c, s.bindings[c].effectiveAt)
    ensures c in r.bindings ==> r.bindings[c].version != s.bindings[c].version
  {
    if c in r.bindings {
      var p :| p in r.policies && p.version == r.bindings[c].version && p.effectiveAt == r.bindings[c].effectiveAt;
      var q :| q in r.policies && q.version == s.bindings[c].version && q.effectiveAt == s.bindings[c].effectiveAt;
      var i :| 0 <= i < |r.policies| && r.policies[i] == p;
      var j :| 0 <= j < |r.policies| && r.policies[j] == q;
      assert i != j;
    }
  }

  lemma {:induction false} RunKeepsNames(s: Store, steps: seq<Step>, b: Binding)
    requires BindingsName(s) && Names(s.policies, b)
    ensures BindingsName(Run(s, steps)) && Names(Run(s, steps).policies, b)
  {
    if steps != [] {
      var mid, last := Run(s, steps[..|steps| - 1]), steps[|steps| - 1];
      RunKeepsNames(s, steps[..|steps| - 1], b);
      StepNames(mid, last);
      if !last.IngestStep? {
        PoliciesStayNamed(mid, last, b);
      } else if Decide(mid, last.userId, last.deviceId, last.event).Accepted? {
        IngestAccepts(mid, last.userId, last.deviceId, last.event, last.at);
      }
    }
  }

  /** Fact and binding of the session name one version. */
  predicate Agree(s: Store, c: string) {
    c in s.facts && c in s.bindings && s.bindings[c].version == s.facts[c].version
  }

  /** Once there is a fact, agreeing or not, neither it nor the binding changes. */
  lemma StepFreezes(s: Store, step: Step, c: string)
    requires c in s.facts && c in s.sessions
    ensures c in Apply(s, step).sessions && c in Apply(s, step).facts
    ensures Agree(Apply(s, step), c) <==> Agree(s, c)
  {
    StepGrowsLog(s, step);
    FactsStay(s, step, c);
    if !step.IngestStep? {
      OtherStepsFrame(s, step);
    } else if Decide(s, step.userId, step.deviceId, step.event).Accepted? {
      IngestBinds(s, step.userId, step.deviceId, step.event, step.at);
    }
  }

  lemma {:induction false} RunFreezes(s: Store, steps: seq<Step>, c: string)
    requires c in s.facts && c in s.sessions
    ensures c in Run(s, steps).sessions && c in Run(s, steps).facts
    ensures Agree(Run(s, steps), c) <==> Agree(s, c)
  {
    if steps != [] {
      RunFreezes(s, steps[..|steps| - 1], c);
      StepFreezes(Run(s, steps[..|steps| - 1]), steps[|steps| - 1], c);
    }
  }

  /** The fact transaction decided on the rows of `s`; `between` ran; then it wrote. */
  function SplitFact(s: Store, c: string, fact: Fact, between: seq<Step>): Store {
    var r := Run(s, between);
    r.(facts := r.facts[c := fact])
  }

  /**
   A fact that was due when its transaction read the binding is written after any other
   transactions. In every later store fact and binding disagree if and only if one of those
   in between accepted a start of the session before the policy it was bound to took effect.
   */
  lemma SplitFactComesApartIff(
    s: Store, c: string, fact: Fact, computed: string, between: seq<Step>, later: seq<Step>)
    requires Reachable(s) && DecideFact(s, c, fact, computed).Created? && c !in Run(s, between).facts
    ensures !Agree(Run(SplitFact(s, c, fact, between), later), c) <==> StartMovedIn(s, between, c, s.bindings[c].effectiveAt)
  {
    ReachableInv(s);
    ReachableNames(s);
    var r := Run(s, between);
    RunKeepsInv(s, between);
    RunMovesBack(s, between, c);
    RunKeepsNames(s, between, s.bindings[c]);
    if Moved(r, c, s.bindings[c].effectiveAt) { MovedIsAnotherVersion(s, r, c); }
    RunFreezes(SplitFact(s, c, fact, between), later, c);
  }

  // ------------------------------------------------------------ a store in which it happens

  const OLD_POLICY := Policy(1, Shadow, 0)
  const NEW_POLICY := Policy(2, Shadow, 10)
  const CREATING := Event(1, "tool", ToolStarted, 20, None, "c", None, "vscode", None, None, None)
  const REACHING_BACK := Event(2, "start", SessionStarted, 5, None, "c", None, "vscode", None, None, None)

  lemma SampleStore() returns (s: Store)
    ensures Reachable(s) && s == Ingest(EmptyStore([OLD_POLICY, NEW_POLICY]), "user", "device", CREATING, 20)
    ensures s.bindings == map["c" := Binding(2, 10, 20)] && s.facts == map[]
    ensures Decide(s, "user", "device", REACHING_BACK).Accepted?
  {
    var empty := EmptyStore([OLD_POLICY, NEW_POLICY]);
    SampleRun(empty);
    SamplePolicy();
    s := Run(empty, [IngestStep("user", "device", CREATING, 20)]);
    IngestAccepts(empty, "user", "device", CREATING, 20);
    assert s.log == [Entry(CREATING, UnitOf(CREATING), 20)] && s.log[1..] == [];
    assert CREATING.idempotencyKey[0] != REACHING_BACK.idempotencyKey[0];
    assert s.sessions.Keys == {"c"};
  }

  lemma SampleRun(s: Store)
    ensures Run(s, [IngestStep("user", "device", CREATING, 20)]) == Ingest(s, "user", "device", CREATING, 20)
  {
    var steps := [IngestStep("user", "device", CREATING, 20)];
    assert |steps| == 1 && steps[..0] == [];
    assert Run(s, steps) == Apply(Run(s, steps[..0]), steps[0]);
  }

  lemma SamplePolicy()
    ensures FindPolicy([OLD_POLICY, NEW_POLICY], 20) == Some(NEW_POLICY)
  {
    assert [OLD_POLICY, NEW_POLICY][1..] == [NEW_POLICY];
    assert [NEW_POLICY][1..] == [];
    assert FindPolicy([NEW_POLICY], 20) == Some(NEW_POLICY);
  }

  /** Overlapping, or with the start in between, fact and binding do come apart in reachable stores. */
  lemma FactAndBindingCanComeApart() returns (s: Store, fact: Fact)
    ensures Reachable(s) && DecideFact(s, "c", fact, fact.recordDigest).Created?
    ensures !FactsMatchBindings(Overlapped(s, "c", fact, fact.recordDigest, 5))
    ensures !Agree(SplitFact(s, "c", fact, [IngestStep("user", "device", REACHING_BACK, 30)]), "c")
  {
    s := SampleStore();
    fact := Fact(2, "digest");
    OverlapComesApartIff(s, "c", fact, fact.recordDigest, 5);
    var between := [IngestStep("user", "device", REACHING_BACK, 30)];
    assert between[..0] == [];
    assert MovesStart(Run(s, between[..0]), between[0], "c", 10);
    IngestAccepts(s, "user", "device", REACHING_BACK, 30);
    SplitFactComesApartIff(s, "c", fact, fact.recordDigest, between, []);
  }
}
