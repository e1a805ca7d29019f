/**
 What a surface reports and who waits where, over every run: the reported state is told from
 the surface's own observations and the fate of its last claim, and queues are told from who
 joined and left them.
 */
module AttentionStates {
  import opened Wrappers
  import opened AttentionProtocol
  import opened AttentionSafety
  import opened AttentionTakeover

  // ------------------------------------------------------------ what a step does to other surfaces

  /** Either nothing happened to the surface, or it was waiting, eligible and without flag, and was promoted. */
  predicate PromotedAtMost<M(==)>(w: World<M>, r: World<M>, x: M)
    requires x in w.machines && x in r.machines
  {
    var a, b := w.machines[x], r.machines[x];
    b == a || (Promotable(w, x) && b == a.(ownsAttention := true, grantedUntil := b.grantedUntil, state := ForegroundVisible))
  }

  lemma ReleaseOfOthers<M>(w: World<M>, a: M, now: int, x: M)
    requires a in w.machines && InvExcept(w, {a}) && now >= w.clock && x in w.machines && x != a
    ensures PromotedAtMost(w, ReleaseOwner(w, a, now), x)
  {
    if Holds(w, a) { ReleaseShape(w, a, now); }
  }

  lemma RecomputeOfOthers<M>(w: World<M>, a: M, now: int, x: M)
    requires a in w.machines && InvExcept(w, {a}) && now >= w.clock && x in w.machines && x != a
    ensures PromotedAtMost(w, Recompute(w, a, now), x)
  {
    if !w.machines[a].disposed {
      if Eligible(w.machines[a]) {
        RecomputeEligible(w, a, now);
      } else {
        RecomputeIneligible(w, a, now);
        if w.machines[a].ownsAttention { ReleaseOfOthers(w, a, now, x); }
      }
    }
  }

  lemma SetterOfOthers<M>(w: World<M>, step: Step<M>, x: M)
    requires Inv(w) && Enabled(w, step) && IsSetter(step.operation) && x in w.machines && x != step.id
    ensures x in Apply(w, step).machines && PromotedAtMost(w, Apply(w, step), x)
  {
    SetterWrites(w, step);
    var changed := Put(w, step.id, Written(w.machines[step.id], step.operation));
    ObservedKeepsInvExcept(w, changed, step.id);
    RecomputeOfOthers(changed, step.id, step.now, x);
  }

  lemma ResetOfOthers<M>(w: World<M>, a: M, now: int, x: M)
    requires a in w.machines && InvExcept(w, {a}) && now >= w.clock && x in w.machines && x != a
    ensures PromotedAtMost(w, Reset(w, a, now), x)
  {
    ReleaseOfOthers(w, a, now, x);
  }

  /** A step of another surface promotes a surface or leaves it as it is. */
  lemma StepOfOthers<M>(w: World<M>, step: Step<M>, x: M)
    requires Inv(w) && Enabled(w, step) && x in w.machines && x != step.id
    ensures x in Apply(w, step).machines && PromotedAtMost(w, Apply(w, step), x)
  {
    if IsSetter(step.operation) {
      SetterOfOthers(w, step, x);
    } else if step.operation.ResetMachine? {
      ResetOfOthers(w, step.id, step.now, x);
    } else if step.operation.DisposeMachine? {
      var marked := Put(w, step.id, w.machines[step.id].(disposed := true));
      ObservedKeepsInvExcept(w, marked, step.id);
      ResetOfOthers(marked, step.id, step.now, x);
    }
  }

  // ------------------------------------------------------------ what a step does to its own surface

  /** The state its observations call for, `granted` telling whether its claim, if it makes one, succeeds. */
  predicate Reports(m: Machine, granted: bool) {
    && (m.state == DeviceLocked <==> m.locked)
    && (m.state == Disconnected <==> !m.locked && !m.connected)
    && (m.state == Background <==> !m.locked && m.connected && !m.focused)
    && (m.state == ForegroundNotVisible <==> !m.locked && m.connected && m.focused && (!m.surfaceVisible || !granted))
    && (m.state == ForegroundVisible <==> !m.locked && m.connected && m.focused && m.surfaceVisible && granted)
  }

  /** Same surface, same four observations. */
  predicate SameObservations(a: Machine, b: Machine) {
    b.focused == a.focused && b.surfaceVisible == a.surfaceVisible && b.locked == a.locked && b.connected == a.connected
  }

  lemma RecomputeReports<M>(w: World<M>, a: M, now: int)
    requires a in w.machines && InvExcept(w, {a}) && now >= w.clock && !w.machines[a].disposed
    ensures var m := Recompute(w, a, now).machines[a]; SameObservations(w.machines[a], m) && Reports(m, CanClaim(w, a, now))
  {
    if Eligible(w.machines[a]) {
      RecomputeEligible(w, a, now);
    } else {
      RecomputeIneligible(w, a, now);
      if w.machines[a].ownsAttention { ReleaseKeepsInv(w, a, now); }
    }
  }

  /** The surface with one observation overwritten. */
  predicate WithObservation<M(==)>(a: Machine, b: Machine, operation: Operation<M>)
    requires IsSetter(operation)
  {
    match operation
    case SetWindowFocused(v) => b.focused == v && b.surfaceVisible == a.surfaceVisible && b.locked == a.locked && b.connected == a.connected
    case SetSurfaceVisible(v) => b.focused == a.focused && b.surfaceVisible == v && b.locked == a.locked && b.connected == a.connected
    case SetDeviceLocked(v) => b.focused == a.focused && b.surfaceVisible == a.surfaceVisible && b.locked == v && b.connected == a.connected
    case SetBridgeConnected(v) => b.focused == a.focused && b.surfaceVisible == a.surfaceVisible && b.locked == a.locked && b.connected == v
  }

  lemma WrittenIs<M>(m: Machine, after: Machine, operation: Operation<M>)
    requires IsSetter(operation) && SameObservations(Written(m, operation), after)
    ensures WithObservation(m, after, operation)
  {
  }

  lemma WrittenReports<M>(w: World<M>, after: Machine, a: M, now: int)
    requires a in w.machines && Inv(w) && now >= w.clock && Observed(w, Put(w, a, after), a) && !after.disposed
    ensures var m := Recompute(Put(w, a, after), a, now).machines[a]; SameObservations(after, m) && Reports(m, CanClaim(w, a, now))
  {
    var changed := Put(w, a, after);
    ObservedKeepsInvExcept(w, changed, a);
    RecomputeReports(changed, a, now);
  }

  lemma WrittenIsObserved<M>(w: World<M>, a: M, operation: Operation<M>)
    requires a in w.machines && IsSetter(operation)
    ensures Observed(w, Put(w, a, Written(w.machines[a], operation)), a)
    ensures Written(w.machines[a], operation).disposed == w.machines[a].disposed
  {
  }

  /** An observation of a live surface is remembered, and the surface reports what all four of them call for. */
  lemma SetterReports<M>(w: World<M>, step: Step<M>)
    requires Inv(w) && Enabled(w, step) && IsSetter(step.operation) && !w.machines[step.id].disposed
    ensures step.id in Apply(w, step).machines
    ensures var m := Apply(w, step).machines[step.id];
            WithObservation(w.machines[step.id], m, step.operation) && Reports(m, CanClaim(w, step.id, step.now))
  {
    var after := Written(w.machines[step.id], step.operation);
    SetterWrites(w, step);
    WrittenIsObserved(w, step.id, step.operation);
    WrittenReports(w, after, step.id, step.now);
    WrittenIs(w.machines[step.id], Recompute(Put(w, step.id, after), step.id, step.now).machines[step.id], step.operation);
  }

  /** Not observed yet, or forgotten: nothing in its favour but the connection. */
  predicate Blank(m: Machine) {
    m.state == Unknown && !m.focused && !m.surfaceVisible && !m.locked && m.connected
  }

  lemma ResetIsBlank<M>(w: World<M>, a: M, now: int)
    requires a in w.machines && InvExcept(w, {a}) && now >= w.clock
    ensures var r := Reset(w, a, now); Blank(r.machines[a]) && !r.machines[a].ownsAttention && !Holds(r, a)
  {
    ReleaseKeepsInv(w, a, now);
  }

  /** Creation, reset and disposal leave a blank surface without flag and registry. */
  lemma BlankAfter<M>(w: World<M>, step: Step<M>)
    requires Inv(w) && Enabled(w, step)
    requires step.operation.Create? || step.operation.ResetMachine? || step.operation.DisposeMachine?
    ensures step.id in Apply(w, step).machines
    ensures var r := Apply(w, step); var m := r.machines[step.id];
            Blank(m) && !m.ownsAttention && (!step.operation.Create? ==> !Holds(r, step.id))
  {
    if step.operation.ResetMachine? {
      ResetIsBlank(w, step.id, step.now);
    } else if step.operation.DisposeMachine? {
      var marked := Put(w, step.id, w.machines[step.id].(disposed := true));
      ObservedKeepsInvExcept(w, marked, step.id);
      ResetIsBlank(marked, step.id, step.now);
    }
  }

  lemma ReservationKeepsState<M>(w: World<M>, step: Step<M>)
    requires Enabled(w, step) && step.operation.ReserveOwner?
    ensures var a, b := w.machines[step.id], Apply(w, step).machines[step.id];
            b == a.(ownsAttention := b.ownsAttention, grantedUntil := b.grantedUntil)
  {
  }

  // ------------------------------------------------------------ over a run

  /** The step at which the surface was last observed, none if it was created or reset since. */
  function LastObservation<M(==)>(steps: seq<Step<M>>, k: nat, id: M): Option<nat>
    requires k <= |steps|
  {
    if k == 0 then None
    else if steps[k - 1].id != id || steps[k - 1].operation.ReserveOwner? then LastObservation(steps, k - 1, id)
    else if IsSetter(steps[k - 1].operation) then Some(k - 1)
    else None
  }

  lemma {:induction false} ObservedEarlier<M>(steps: seq<Step<M>>, k: nat, id: M)
    requires k <= |steps|
    ensures LastObservation(steps, k, id).Some? ==> LastObservation(steps, k, id).value < k
  {
    if k > 0 { ObservedEarlier(steps, k - 1, id); }
  }

  /** At step `l` another surface's release raised its flag. */
  ghost predicate PromotedAt<M>(worlds: seq<World<M>>, steps: seq<Step<M>>, l: int, id: M)
    requires 0 <= l < |steps| && |worlds| == |steps| + 1
  {
    && steps[l].id != id && id in worlds[l].machines && id in worlds[l + 1].machines
    && !worlds[l].machines[id].ownsAttention && worlds[l + 1].machines[id].ownsAttention
  }

  /** Its claim at step `j` could succeed, or it was promoted since. */
  ghost predicate Granted<M>(worlds: seq<World<M>>, steps: seq<Step<M>>, j: int, k: int, id: M)
    requires 0 <= j < k <= |steps| && |worlds| == |steps| + 1
  {
    id in worlds[j].machines && (CanClaim(worlds[j], id, steps[j].now) || exists l :: j < l < k && PromotedAt(worlds, steps, l, id))
  }

  ghost predicate StateMeans<M>(worlds: seq<World<M>>, steps: seq<Step<M>>, k: nat, id: M)
    requires k <= |steps| && |worlds| == |steps| + 1 && id in worlds[k].machines
  {
    match LastObservation(steps, k, id)
    case None => Blank(worlds[k].machines[id])
    case Some(j) => j < k && id in worlds[j].machines && Reports(worlds[k].machines[id], Granted(worlds, steps, j, k, id))
  }

  lemma GrantedNext<M>(worlds: seq<World<M>>, steps: seq<Step<M>>, j: nat, k: nat, id: M)
    requires j < k < |steps| && |worlds| == |steps| + 1
    ensures Granted(worlds, steps, j, k + 1, id) <==> Granted(worlds, steps, j, k, id) || (id in worlds[j].machines && PromotedAt(worlds, steps, k, id))
  {
  }

  lemma OtherKeepsMeaning<M>(worlds: seq<World<M>>, steps: seq<Step<M>>, k: nat, id: M)
    requires IsRun(worlds, steps) && k < |steps| && steps[k].id != id && id in worlds[k].machines && Inv(worlds[k])
    requires StateMeans(worlds, steps, k, id)
    ensures id in worlds[k + 1].machines && StateMeans(worlds, steps, k + 1, id)
  {
    StepOfOthers(worlds[k], steps[k], id);
    if LastObservation(steps, k, id).Some? {
      GrantedNext(worlds, steps, LastObservation(steps, k, id).value, k, id);
    }
  }

  lemma OwnKeepsMeaning<M>(worlds: seq<World<M>>, steps: seq<Step<M>>, k: nat, id: M)
    requires IsRun(worlds, steps) && k < |steps| && steps[k].id == id && id in worlds[k + 1].machines && Inv(worlds[k])
    requires id in worlds[k].machines ==> !worlds[k].machines[id].disposed && StateMeans(worlds, steps, k, id)
    ensures StateMeans(worlds, steps, k + 1, id)
  {
    if IsSetter(steps[k].operation) {
      SetterReports(worlds[k], steps[k]);
      assert Granted(worlds, steps, k, k + 1, id) <==> CanClaim(worlds[k], id, steps[k].now);
    } else if steps[k].operation.ReserveOwner? {
      ReservationKeepsState(worlds[k], steps[k]);
      if LastObservation(steps, k, id).Some? {
        GrantedNext(worlds, steps, LastObservation(steps, k, id).value, k, id);
      }
    } else {
      BlankAfter(worlds[k], steps[k]);
    }
  }

  /**
   In every world of every run a live surface is blank if it was not observed since its
   creation or last reset. Otherwise it reports a locked device exactly when locked, else a
   lost connection exactly when not connected, else the background exactly when not focused,
   else visibility exactly when visible and its claim at the last observation could succeed
   or it was promoted since.
   */
  lemma {:induction false} StateIsMeant<M>(worlds: seq<World<M>>, steps: seq<Step<M>>, k: nat, id: M)
    requires IsRun(worlds, steps) && k <= |steps| && id in worlds[k].machines && !worlds[k].machines[id].disposed
    ensures StateMeans(worlds, steps, k, id)
  {
    if k > 0 {
      RunKeepsInv(worlds, steps, k - 1);
      WasThere(worlds[k - 1], steps[k - 1], worlds[k], id);
      if id in worlds[k - 1].machines {
        StateIsMeant(worlds, steps, k - 1, id);
      }
      if steps[k - 1].id != id {
        OtherKeepsMeaning(worlds, steps, k - 1, id);
      } else {
        OwnKeepsMeaning(worlds, steps, k - 1, id);
      }
    }
  }

  lemma WasThere<M>(w: World<M>, step: Step<M>, r: World<M>, id: M)
    requires Inv(w) && Enabled(w, step) && r == Apply(w, step) && id in r.machines && !r.machines[id].disposed
    ensures if id in w.machines then !w.machines[id].disposed else step.id == id
  {
    if id in w.machines { StepDisposal(w, step, id); } else { NewcomersAct(w, step, id); }
  }

  lemma NewcomersAct<M>(w: World<M>, step: Step<M>, id: M)
    requires Enabled(w, step) && id !in w.machines && id in Apply(w, step).machines
    ensures step.id == id
  {
    if !step.operation.Create? { StepKeepsSurfaces(w, step); }
  }
}
