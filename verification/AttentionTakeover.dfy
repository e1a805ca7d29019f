/**
 How a surface comes to have its flag set without holding the registry, and what ends that.
 There is one way only: another surface of its installation claimed after its lease had run
 out. It ends with the surface's next operation, unless that is a refused reservation.
 Promotion passes such a surface over meanwhile.
 */
module AttentionTakeover {
  import opened Wrappers
  import opened AttentionProtocol
  import opened AttentionSafety

  // ------------------------------------------------------------ what a step does to flags and registry

  /** The four things a step can do to the claims on attention. */
  datatype Effect<!M(==)> = Quiet | Claims | Hands(heir: M) | Vacates

  ghost predicate SameIdentities<M>(w: World<M>, r: World<M>) {
    forall x | x in w.machines :: x in r.machines
      && r.machines[x].installationId == w.machines[x].installationId && r.machines[x].ownerId == w.machines[x].ownerId
  }

  /** Nobody but the surfaces in `except` changed its flag, and no new surface has one. */
  ghost predicate SameFlags<M>(w: World<M>, r: World<M>, except: set<M>) {
    && (forall x | x in w.machines && x in r.machines && x !in except :: r.machines[x].ownsAttention == w.machines[x].ownsAttention)
    && (forall x | x in r.machines && x !in w.machines && x !in except :: !r.machines[x].ownsAttention)
  }

  /** The step of surface `a` at `now` had this effect on flags and registry. */
  ghost predicate Had<M>(w: World<M>, r: World<M>, a: M, now: int, effect: Effect<M>) {
    && SameIdentities(w, r)
    && match effect
       case Quiet =>
         r.owners == w.owners && SameFlags(w, r, {a})
         && (a in r.machines && r.machines[a].ownsAttention ==> a in w.machines && w.machines[a].ownsAttention)
       case Claims =>
         && a in w.machines && CanClaim(w, a, now) && r.machines[a].ownsAttention && SameFlags(w, r, {a})
         && Registers(w, r, a)
       case Hands(heir) =>
         && a in w.machines && heir in w.machines && heir != a && Holds(w, a)
         && w.machines[heir].installationId == w.machines[a].installationId
         && !w.machines[heir].ownsAttention && !w.machines[heir].disposed
         && !r.machines[a].ownsAttention && r.machines[heir].ownsAttention && SameFlags(w, r, {a, heir})
         && Registers(w, r, heir)
       case Vacates =>
         && a in w.machines && Holds(w, a) && !r.machines[a].ownsAttention && SameFlags(w, r, {a})
         && r.owners == w.owners - {w.machines[a].installationId}
  }

  /** The registry names `heir` for its installation and is otherwise unchanged. */
  ghost predicate Registers<M>(w: World<M>, r: World<M>, heir: M)
    requires heir in w.machines
  {
    var i := w.machines[heir].installationId;
    && i in r.owners && r.owners[i].ownerId == w.machines[heir].ownerId
    && (forall j | j != i :: j in r.owners <==> j in w.owners)
    && (forall j | j != i && j in w.owners :: r.owners[j] == w.owners[j])
  }

  /** Worlds that agree on identities, flags and registry, and on who is disposed apart from `a`. */
  ghost predicate Agree<M>(w: World<M>, r: World<M>, a: M) {
    && w.machines.Keys == r.machines.Keys && r.owners == w.owners && SameIdentities(w, r)
    && (forall x | x in w.machines :: r.machines[x].ownsAttention == w.machines[x].ownsAttention)
    && (forall x | x in w.machines && x != a :: r.machines[x].disposed == w.machines[x].disposed)
  }

  /** An effect is a matter of identities, flags and registry alone. */
  lemma AgreeingHad<M>(w: World<M>, w': World<M>, r': World<M>, r: World<M>, a: M, now: int, effect: Effect<M>)
    requires Agree(w, w', a) && Agree(r', r, a) && Had(w', r', a, now, effect)
    ensures Had(w, r, a, now, effect)
  {
  }

  lemma ReleaseEffect<M>(w: World<M>, a: M, now: int) returns (effect: Effect<M>)
    requires a in w.machines && InvExcept(w, {a}) && now >= w.clock
    ensures Had(w, ReleaseOwner(w, a, now).(clock := now), a, now, effect) && !effect.Claims?
  {
    var r := ReleaseOwner(w, a, now).(clock := now);
    if Holds(w, a) {
      ReleaseShape(w, a, now);
      match FirstPromotable(w, QueueOf(w, w.machines[a].installationId)) {
        case Some(heir) => effect := Hands(heir); HandedOverHad(w, r, a, heir, now);
        case None => effect := Vacates; VacatedHad(w, r, a, now);
      }
    } else {
      effect := Quiet;
    }
  }

  lemma HandedOverHad<M>(w: World<M>, r: World<M>, a: M, heir: M, now: int)
    requires a in w.machines && heir in w.machines && Holds(w, a) && HandedOver(w, r, a, heir, now)
    requires !w.machines[heir].ownsAttention && !w.machines[heir].disposed
    ensures Had(w, r, a, now, Hands(heir))
  {
  }

  lemma VacatedHad<M>(w: World<M>, r: World<M>, a: M, now: int)
    requires a in w.machines && Holds(w, a) && Vacated(w, r, a, now)
    ensures Had(w, r, a, now, Vacates)
  {
  }

  lemma ClaimedHad<M>(w: World<M>, r: World<M>, a: M, now: int, state: AttentionState)
    requires a in w.machines && CanClaim(w, a, now) && Claimed(w, r, a, now, state)
    ensures Had(w, r, a, now, Claims)
  {
  }

  lemma RecomputeEffect<M>(w: World<M>, a: M, now: int) returns (effect: Effect<M>)
    requires a in w.machines && InvExcept(w, {a}) && now >= w.clock
    ensures Had(w, Recompute(w, a, now).(clock := now), a, now, effect)
    ensures effect.Claims? <==> !w.machines[a].disposed && Eligible(w.machines[a]) && CanClaim(w, a, now)
  {
    var m, r := w.machines[a], Recompute(w, a, now).(clock := now);
    if m.disposed {
      effect := Quiet;
    } else if Eligible(m) {
      RecomputeEligible(w, a, now);
      if CanClaim(w, a, now) {
        effect := Claims;
        ClaimedHad(w, r, a, now, ForegroundVisible);
      } else {
        effect := Quiet;
      }
    } else {
      RecomputeIneligible(w, a, now);
      effect := IneligibleEffect(w, r, a, now);
    }
  }

  lemma IneligibleEffect<M>(w: World<M>, r: World<M>, a: M, now: int) returns (effect: Effect<M>)
    requires a in w.machines && InvExcept(w, {a}) && now >= w.clock
    requires !Eligible(w.machines[a])
    requires var m := w.machines[a];
             var left := if m.ownsAttention then ReleaseOwner(w, a, now) else RemoveFromWaiting(w, a);
             r == Transition(left, a, ResolveState(m)).(clock := now)
    ensures Had(w, r, a, now, effect) && !effect.Claims?
  {
    if w.machines[a].ownsAttention {
      effect := ReleaseEffect(w, a, now);
      AgreeingHad(w, w, ReleaseOwner(w, a, now).(clock := now), r, a, now, effect);
    } else {
      effect := Quiet;
      QuietHad(w, r, a, now);
    }
  }

  lemma QuietHad<M>(w: World<M>, r: World<M>, a: M, now: int)
    requires a in w.machines && !w.machines[a].ownsAttention && !Eligible(w.machines[a])
    requires r == Transition(RemoveFromWaiting(w, a), a, ResolveState(w.machines[a])).(clock := now)
    ensures Had(w, r, a, now, Quiet)
  {
  }

  /** The operation leads this surface to `claimLease`. */
  predicate WantsToClaim<M>(m: Machine, operation: Operation<M>) {
    match operation
    case SetWindowFocused(b) => !m.disposed && Eligible(m.(focused := b))
    case SetSurfaceVisible(b) => !m.disposed && Eligible(m.(surfaceVisible := b))
    case SetDeviceLocked(b) => !m.disposed && Eligible(m.(locked := b))
    case SetBridgeConnected(b) => !m.disposed && Eligible(m.(connected := b))
    case ReserveOwner => m.focused && !m.locked && m.connected
    case _ => false
  }

  lemma SetterEffect<M>(w: World<M>, after: Machine, a: M, now: int) returns (effect: Effect<M>)
    requires a in w.machines && Inv(w) && now >= w.clock && Observed(w, Put(w, a, after), a)
    requires after.disposed == w.machines[a].disposed && after.state == w.machines[a].state
    ensures Had(w, Recompute(Put(w, a, after), a, now).(clock := now), a, now, effect)
    ensures effect.Claims? <==> !after.disposed && Eligible(after) && CanClaim(w, a, now)
  {
    var changed := Put(w, a, after);
    ObservedKeepsInvExcept(w, changed, a);
    effect := RecomputeEffect(changed, a, now);
    var r := Recompute(changed, a, now).(clock := now);
    AgreeingHad(w, changed, r, r, a, now, effect);
  }

  lemma ReserveEffect<M>(w: World<M>, a: M, now: int) returns (effect: Effect<M>)
    requires a in w.machines && Inv(w) && now >= w.clock
    ensures Had(w, Reserve(w, a, now).0.(clock := now), a, now, effect)
    ensures effect.Claims? <==> w.machines[a].focused && !w.machines[a].locked && w.machines[a].connected && CanClaim(w, a, now)
  {
    if Reserve(w, a, now).1 {
      effect := Claims;
      ReserveClaims(w, a, now);
      ClaimedHad(w, Reserve(w, a, now).0.(clock := now), a, now, w.machines[a].state);
    } else {
      effect := Quiet;
    }
  }

  lemma ResetAgrees<M>(w: World<M>, a: M, now: int)
    requires a in w.machines
    ensures Agree(ReleaseOwner(w, a, now).(clock := now), Reset(w, a, now).(clock := now), a)
  {
  }

  lemma ResetEffect<M>(w: World<M>, a: M, now: int) returns (effect: Effect<M>)
    requires a in w.machines && InvExcept(w, {a}) && now >= w.clock
    ensures Had(w, Reset(w, a, now).(clock := now), a, now, effect) && !effect.Claims?
  {
    effect := ReleaseEffect(w, a, now);
    var released := ReleaseOwner(w, a, now);
    ResetAgrees(w, a, now);
    AgreeingHad(w, w, released.(clock := now), Reset(w, a, now).(clock := now), a, now, effect);
  }

  lemma MarkedAgrees<M>(w: World<M>, a: M)
    requires a in w.machines
    ensures Agree(w, Put(w, a, w.machines[a].(disposed := true)), a)
  {
  }

  lemma DisposeEffect<M>(w: World<M>, a: M, now: int) returns (effect: Effect<M>)
    requires a in w.machines && Inv(w) && now >= w.clock
    ensures Had(w, Dispose(w, a, now).(clock := now), a, now, effect) && !effect.Claims?
  {
    var marked := Put(w, a, w.machines[a].(disposed := true));
    ObservedKeepsInvExcept(w, marked, a);
    effect := ResetEffect(marked, a, now);
    MarkedAgrees(w, a);
    var r := Dispose(w, a, now).(clock := now);
    AgreeingHad(w, marked, r, r, a, now, effect);
  }

  predicate IsSetter<M>(operation: Operation<M>) {
    operation.SetWindowFocused? || operation.SetSurfaceVisible? || operation.SetDeviceLocked? || operation.SetBridgeConnected?
  }

  /** The surface with the observation of a setter written. */
  function Written<M>(m: Machine, operation: Operation<M>): Machine
    requires IsSetter(operation)
  {
    match operation
    case SetWindowFocused(b) => m.(focused := b)
    case SetSurfaceVisible(b) => m.(surfaceVisible := b)
    case SetDeviceLocked(b) => m.(locked := b)
    case SetBridgeConnected(b) => m.(connected := b)
  }

  lemma SetterWrites<M>(w: World<M>, step: Step<M>)
    requires Enabled(w, step) && IsSetter(step.operation)
    ensures var after := Written(w.machines[step.id], step.operation);
            && Apply(w, step) == Recompute(Put(w, step.id, after), step.id, step.now).(clock := step.now)
            && after.disposed == w.machines[step.id].disposed && after.ownsAttention == w.machines[step.id].ownsAttention
  {
  }

  lemma SetterStepEffect<M>(w: World<M>, step: Step<M>) returns (effect: Effect<M>)
    requires Inv(w) && Enabled(w, step) && IsSetter(step.operation)
    ensures Had(w, Apply(w, step), step.id, step.now, effect)
    ensures effect.Claims? <==> WantsToClaim(w.machines[step.id], step.operation) && CanClaim(w, step.id, step.now)
  {
    effect := SetterEffect(w, Written(w.machines[step.id], step.operation), step.id, step.now);
  }

  lemma CreateEffect<M>(w: World<M>, step: Step<M>)
    requires Inv(w) && Enabled(w, step) && step.operation.Create?
    ensures Had(w, Apply(w, step), step.id, step.now, Quiet)
  {
  }

  /** Every step has one of the effects; it claims exactly when its operation tries to and the lease is free. */
  lemma StepEffect<M>(w: World<M>, step: Step<M>) returns (effect: Effect<M>)
    requires Inv(w) && Enabled(w, step)
    ensures Had(w, Apply(w, step), step.id, step.now, effect)
    ensures effect.Claims? <==>
              step.id in w.machines && WantsToClaim(w.machines[step.id], step.operation) && CanClaim(w, step.id, step.now)
  {
    match step.operation
    case Create(_, _, _) => effect := Quiet; CreateEffect(w, step);
    case ReserveOwner => effect := ReserveEffect(w, step.id, step.now);
    case ResetMachine => effect := ResetEffect(w, step.id, step.now);
    case DisposeMachine => effect := DisposeEffect(w, step.id, step.now);
    case _ => effect := SetterStepEffect(w, step);
  }

  // ------------------------------------------------------------ the cause

  /** A flag without a registry entry: what promotion takes for an owner is none. */
  ghost predicate Stranded<M>(w: World<M>, id: M) {
    id in w.machines && w.machines[id].ownsAttention && !Holds(w, id)
  }

  /** The step makes another surface of the holder's installation try for the lease after it has run out. */
  predicate TakesOver<M(==)>(w: World<M>, step: Step<M>, id: M)
    requires id in w.machines && Holds(w, id)
  {
    && step.id != id && step.id in w.machines
    && w.machines[step.id].installationId == w.machines[id].installationId
    && WantsToClaim(w.machines[step.id], step.operation)
    && w.owners[w.machines[id].installationId].leasedUntil < step.now
  }

  /** A holder keeps its flag while losing the registry exactly when the step takes its expired lease over. */
  lemma StrandedExactlyByTakeover<M>(w: World<M>, step: Step<M>, id: M)
    requires Inv(w) && Enabled(w, step) && id in w.machines && Holds(w, id)
    ensures Stranded(Apply(w, step), id) <==> TakesOver(w, step, id)
  {
    var effect := StepEffect(w, step);
    HolderUnder(w, Apply(w, step), step.id, step.now, effect, id);
  }

  lemma HolderUnder<M>(w: World<M>, r: World<M>, a: M, now: int, effect: Effect<M>, id: M)
    requires Inv(w) && id in w.machines && Holds(w, id) && Had(w, r, a, now, effect)
    ensures Stranded(r, id) <==>
              effect.Claims? && a != id && w.machines[a].installationId == w.machines[id].installationId
  {
    if effect.Hands? || effect.Vacates? {
      assert w.machines[a].installationId == w.machines[id].installationId ==> a == id;
    }
  }

  /** Nobody becomes stranded in any other way. */
  lemma StrandedComesFromHolding<M>(w: World<M>, step: Step<M>, id: M)
    requires Inv(w) && Enabled(w, step) && Stranded(Apply(w, step), id)
    ensures Stranded(w, id) || (id in w.machines && Holds(w, id) && TakesOver(w, step, id))
  {
    var effect := StepEffect(w, step);
    if id in w.machines && Holds(w, id) {
      StrandedExactlyByTakeover(w, step, id);
    } else {
      NewFlagsHold(w, Apply(w, step), step.id, step.now, effect, id);
    }
  }

  lemma NewFlagsHold<M>(w: World<M>, r: World<M>, a: M, now: int, effect: Effect<M>, id: M)
    requires Had(w, r, a, now, effect) && Stranded(r, id)
    ensures id in w.machines && w.machines[id].ownsAttention
  {
  }

  lemma StrandedBefore<M>(worlds: seq<World<M>>, steps: seq<Step<M>>, k: nat, id: M)
    requires IsRun(worlds, steps) && k <= |steps| && Stranded(worlds[k], id)
    ensures k > 0
    ensures Stranded(worlds[k - 1], id)
         || (id in worlds[k - 1].machines && Holds(worlds[k - 1], id) && TakesOver(worlds[k - 1], steps[k - 1], id))
  {
    if k > 0 {
      RunKeepsInv(worlds, steps, k - 1);
      StrandedComesFromHolding(worlds[k - 1], steps[k - 1], id);
    }
  }

  /**
   The history of every stranded surface of every run: at some earlier step it held the
   registry and its lease, already run out, was taken over; ever since it has been stranded.
   */
  lemma StrandedWasTakenOver<M>(worlds: seq<World<M>>, steps: seq<Step<M>>, k: nat, id: M) returns (j: nat)
    requires IsRun(worlds, steps) && k <= |steps| && Stranded(worlds[k], id)
    ensures j < k && id in worlds[j].machines && Holds(worlds[j], id) && TakesOver(worlds[j], steps[j], id)
    ensures forall l | j < l <= k :: Stranded(worlds[l], id)
  {
    var stranded := (l: nat) => l < |worlds| && Stranded(worlds[l], id);
    if stranded(0) { StrandedBefore(worlds, steps, 0, id); }
    j := LastNot(stranded, k);
    assert stranded(j + 1);
    StrandedBefore(worlds, steps, j + 1, id);
    forall l | j < l <= k ensures Stranded(worlds[l], id) {
      assert stranded(l);
    }
  }

  lemma {:induction false} LastNot(p: nat -> bool, k: nat) returns (j: nat)
    requires p(k) && !p(0)
    ensures j < k && !p(j) && forall l: nat | j < l <= k :: p(l)
  {
    if p(k - 1) { j := LastNot(p, k - 1); } else { j := k - 1; }
  }

  // ------------------------------------------------------------ who is disposed

  ghost predicate SameDisposal<M>(w: World<M>, r: World<M>) {
    r.machines.Keys == w.machines.Keys && forall x | x in w.machines :: r.machines[x].disposed == w.machines[x].disposed
  }

  lemma ClaimingKeepsDisposal<M>(w: World<M>, id: M, now: int)
    requires id in w.machines && (w.machines[id].disposed || Eligible(w.machines[id]))
    ensures SameDisposal(w, Recompute(w, id, now))
  {
  }

  lemma ReleaseKeepsDisposal<M>(w: World<M>, id: M, now: int)
    requires id in w.machines
    ensures SameDisposal(w, ReleaseOwner(w, id, now))
  {
    var m := w.machines[id];
    var freed := w.(owners := w.owners - {m.installationId});
    var next := FirstPromotable(freed, QueueOf(freed, m.installationId));
    if next.Some? { ClaimingKeepsDisposal(freed, next.value, now); }
  }

  lemma RecomputeKeepsDisposal<M>(w: World<M>, id: M, now: int)
    requires id in w.machines
    ensures SameDisposal(w, Recompute(w, id, now))
  {
    if w.machines[id].disposed || Eligible(w.machines[id]) {
      ClaimingKeepsDisposal(w, id, now);
    } else if w.machines[id].ownsAttention {
      ReleaseKeepsDisposal(w, id, now);
    }
  }

  lemma SetterDisposal<M>(w: World<M>, step: Step<M>)
    requires Enabled(w, step) && IsSetter(step.operation)
    ensures SameDisposal(w, Apply(w, step))
  {
    SetterWrites(w, step);
    RecomputeKeepsDisposal(Put(w, step.id, Written(w.machines[step.id], step.operation)), step.id, step.now);
  }

  lemma ResetDisposal<M>(w: World<M>, id: M, now: int)
    requires id in w.machines
    ensures SameDisposal(w, Reset(w, id, now))
  {
    ReleaseKeepsDisposal(w, id, now);
  }

  lemma StepKeepsSurfaces<M>(w: World<M>, step: Step<M>)
    requires Enabled(w, step) && !step.operation.Create?
    ensures Apply(w, step).machines.Keys == w.machines.Keys
  {
    if IsSetter(step.operation) {
      SetterDisposal(w, step);
    } else if step.operation.ResetMachine? {
      ResetDisposal(w, step.id, step.now);
    } else if step.operation.DisposeMachine? {
      ResetDisposal(Put(w, step.id, w.machines[step.id].(disposed := true)), step.id, step.now);
    }
  }

  /** Only its own disposal disposes a surface, and for good. */
  lemma StepDisposal<M>(w: World<M>, step: Step<M>, id: M)
    requires Enabled(w, step) && id in w.machines
    ensures id in Apply(w, step).machines
    ensures Apply(w, step).machines[id].disposed <==> w.machines[id].disposed || (step.id == id && step.operation.DisposeMachine?)
  {
    if IsSetter(step.operation) {
      SetterDisposal(w, step);
    } else if step.operation.ResetMachine? {
      ResetDisposal(w, step.id, step.now);
    } else if step.operation.DisposeMachine? {
      ResetDisposal(Put(w, step.id, w.machines[step.id].(disposed := true)), step.id, step.now);
    }
  }

  lemma {:induction false} LiveBefore<M>(worlds: seq<World<M>>, steps: seq<Step<M>>, l: nat, k: nat, id: M)
    requires IsRun(worlds, steps) && l <= k <= |steps| && id in worlds[l].machines
    ensures id in worlds[k].machines && (worlds[l].machines[id].disposed ==> worlds[k].machines[id].disposed)
  {
    if l < k {
      LiveBefore(worlds, steps, l, k - 1, id);
      StepDisposal(worlds[k - 1], steps[k - 1], id);
    }
  }

  // ------------------------------------------------------------ the end of it

  /** The surface either took no part in the step or only had a reservation refused. */
  ghost predicate Unheard<M>(w: World<M>, step: Step<M>, id: M) {
    step.id != id || (step.operation.ReserveOwner? && id in w.machines && !Reserve(w, id, step.now).1)
  }

  /** A recompute of a live surface leaves it with both flag and registry, or without a flag. */
  lemma RecomputeSettles<M>(w: World<M>, id: M, now: int)
    requires id in w.machines && !w.machines[id].disposed
    ensures !Stranded(Recompute(w, id, now), id)
  {
  }

  /** So does every operation of its own, but for a refused reservation, which changes nothing. */
  lemma OwnStepSettles<M>(w: World<M>, step: Step<M>)
    requires Enabled(w, step) && step.id in w.machines && !w.machines[step.id].disposed
    ensures Unheard(w, step, step.id) || !Stranded(Apply(w, step), step.id)
    ensures Unheard(w, step, step.id) ==> Apply(w, step) == w.(clock := step.now)
  {
    if IsSetter(step.operation) {
      SetterWrites(w, step);
      RecomputeSettles(Put(w, step.id, Written(w.machines[step.id], step.operation)), step.id, step.now);
    } else if step.operation.ReserveOwner? {
      ReservationSettles(w, step.id, step.now);
    }
  }

  lemma ReservationSettles<M>(w: World<M>, id: M, now: int)
    requires id in w.machines
    ensures if Reserve(w, id, now).1 then !Stranded(Reserve(w, id, now).0, id) else Reserve(w, id, now).0 == w
  {
  }

  lemma OthersLeaveStranded<M>(w: World<M>, r: World<M>, a: M, now: int, effect: Effect<M>, id: M)
    requires Inv(w) && Stranded(w, id) && Had(w, r, a, now, effect) && a != id
    ensures Stranded(r, id)
  {
  }

  /** A live stranded surface stays so exactly as long as it is not heard of. */
  lemma StrandedUntilHeardOf<M>(w: World<M>, step: Step<M>, id: M)
    requires Inv(w) && Enabled(w, step) && Stranded(w, id) && !w.machines[id].disposed
    ensures Stranded(Apply(w, step), id) <==> Unheard(w, step, id)
  {
    if step.id == id {
      OwnStepSettles(w, step);
    } else {
      var effect := StepEffect(w, step);
      OthersLeaveStranded(w, Apply(w, step), step.id, step.now, effect, id);
    }
  }

  /** At step `j` its lease was taken over, and it has not been heard of since. */
  ghost predicate TakenOverSince<M>(worlds: seq<World<M>>, steps: seq<Step<M>>, j: int, k: int, id: M)
    requires 0 <= j < k <= |steps| && |worlds| == |steps| + 1
  {
    WasTakenOver(worlds, steps, j, id) && forall l | j < l < k :: Unheard(worlds[l], steps[l], id)
  }

  lemma {:induction false} Persists(p: int -> bool, from: int, until: int)
    requires from <= until && p(from) && forall l | from <= l < until && p(l) :: p(l + 1)
    ensures p(until)
    decreases until - from
  {
    if from < until { Persists(p, from, until - 1); }
  }

  lemma StrandedWhileUnheard<M>(worlds: seq<World<M>>, steps: seq<Step<M>>, j: nat, k: nat, id: M)
    requires IsRun(worlds, steps) && j < k <= |steps| && TakenOverSince(worlds, steps, j, k, id)
    requires id in worlds[k].machines && !worlds[k].machines[id].disposed
    ensures Stranded(worlds[k], id)
  {
    ghost var p := (l: int) => 0 <= l < |worlds| && Stranded(worlds[l], id);
    StrandedFirst(worlds, steps, j, id);
    forall l | j + 1 <= l < k && p(l) ensures p(l + 1) {
      LiveBefore(worlds, steps, l, k, id);
      StrandedNext(worlds, steps, l, id);
    }
    Persists(p, j + 1, k);
  }

  lemma StrandedFirst<M>(worlds: seq<World<M>>, steps: seq<Step<M>>, j: nat, id: M)
    requires IsRun(worlds, steps) && j < |steps| && WasTakenOver(worlds, steps, j, id)
    ensures Stranded(worlds[j + 1], id)
  {
    RunKeepsInv(worlds, steps, j);
    StrandedExactlyByTakeover(worlds[j], steps[j], id);
  }

  lemma StrandedNext<M>(worlds: seq<World<M>>, steps: seq<Step<M>>, k: nat, id: M)
    requires IsRun(worlds, steps) && k < |steps| && Stranded(worlds[k], id) && Unheard(worlds[k], steps[k], id)
    requires !worlds[k].machines[id].disposed
    ensures Stranded(worlds[k + 1], id)
  {
    RunKeepsInv(worlds, steps, k);
    StrandedUntilHeardOf(worlds[k], steps[k], id);
  }

  lemma UnheardWhileStranded<M>(worlds: seq<World<M>>, steps: seq<Step<M>>, j: nat, k: nat, id: M)
    requires IsRun(worlds, steps) && j < k <= |steps| && WasTakenOver(worlds, steps, j, id)
    requires id in worlds[k].machines && !worlds[k].machines[id].disposed
    requires forall l | j < l <= k :: Stranded(worlds[l], id)
    ensures TakenOverSince(worlds, steps, j, k, id)
  {
    forall l | j < l < k ensures Unheard(worlds[l], steps[l], id) {
      assert Stranded(worlds[l], id) && Stranded(worlds[l + 1], id);
      RunKeepsInv(worlds, steps, l);
      LiveBefore(worlds, steps, l, k, id);
      StrandedUntilHeardOf(worlds[l], steps[l], id);
    }
  }

  /**
   In every world of every run a live eligible surface is lost to promotion, neither
   holding the registry nor waiting under an owner, if and only if its expired lease was
   taken over at some step and its own steps since are at most refused reservations.
   */
  lemma LostExactlyAfterTakeover<M>(worlds: seq<World<M>>, steps: seq<Step<M>>, k: nat, id: M)
    requires IsRun(worlds, steps) && k <= |steps|
    requires id in worlds[k].machines && !worlds[k].machines[id].disposed && Eligible(worlds[k].machines[id])
    ensures !(Holds(worlds[k], id) || (!worlds[k].machines[id].ownsAttention && IsQueued(worlds[k], id))) <==>
              exists j :: 0 <= j < k && TakenOverSince(worlds, steps, j, k, id)
  {
    NoLostPromotion(worlds, steps, k, id);
    if Stranded(worlds[k], id) {
      var j := StrandedWasTakenOver(worlds, steps, k, id);
      UnheardWhileStranded(worlds, steps, j, k, id);
      assert TakenOverSince(worlds, steps, j, k, id);
    }
    if j :| 0 <= j < k && TakenOverSince(worlds, steps, j, k, id) {
      StrandedWhileUnheard(worlds, steps, j, k, id);
    }
  }

  /** At step `j` the surface held the registry and the step took its expired lease over. */
  ghost predicate WasTakenOver<M>(worlds: seq<World<M>>, steps: seq<Step<M>>, j: int, id: M)
    requires 0 <= j < |steps| && |worlds| == |steps| + 1
  {
    id in worlds[j].machines && Holds(worlds[j], id) && TakesOver(worlds[j], steps[j], id)
  }

  // ------------------------------------------------------------ a run in which it happens

  function Surface(focused: bool, visible: bool, owns: bool, state: AttentionState, grantedUntil: int, ownerId: string): Machine {
    Machine("desk", ownerId, 10, focused, visible, false, true, owns, false, state, grantedUntil)
  }

  // Surface 0 owns attention until 10 and stays silent; surface 1 takes the expired lease
  // over at 20 and loses focus at 21.

  function Scene(k: nat): World<nat> {
    var a0 := NewMachine("desk", "a", 10);
    var a2 := Surface(true, true, true, ForegroundVisible, 10, "a");
    var b0 := NewMachine("desk", "b", 10);
    var b1 := Surface(true, false, false, ForegroundNotVisible, 0, "b");
    if k == 0 then World(map[], map[], map[], 0)
    else if k == 1 then World(map[0 := a0], map[], map[], 0)
    else if k == 2 then World(map[0 := a0, 1 := b0], map[], map[], 0)
    else if k == 3 then World(map[0 := Surface(true, false, false, ForegroundNotVisible, 0, "a"), 1 := b0], map[], map[], 0)
    else if k == 4 then World(map[0 := a2, 1 := b0], map["desk" := OwnerRecord("a", 10)], map[], 0)
    else if k == 5 then World(map[0 := a2, 1 := b1], map["desk" := OwnerRecord("a", 10)], map[], 20)
    else if k == 6 then World(map[0 := a2, 1 := Surface(true, true, true, ForegroundVisible, 30, "b")], map["desk" := OwnerRecord("b", 30)], map[], 20)
    else World(map[0 := a2, 1 := Surface(false, true, false, Background, 30, "b")], map[], map[], 21)
  }

  function SceneStep(k: nat): Step<nat> {
    if k == 0 then Step(0, Create("desk", "a", 10), 0)
    else if k == 1 then Step(1, Create("desk", "b", 10), 0)
    else if k == 2 then Step(0, SetWindowFocused(true), 0)
    else if k == 3 then Step(0, SetSurfaceVisible(true), 0)
    else if k == 4 then Step(1, SetWindowFocused(true), 20)
    else if k == 5 then Step(1, SetSurfaceVisible(true), 20)
    else Step(1, SetWindowFocused(false), 21)
  }

  lemma SceneOpens()
    ensures Enabled(Scene(0), SceneStep(0)) && Apply(Scene(0), SceneStep(0)) == Scene(1)
    ensures Enabled(Scene(1), SceneStep(1)) && Apply(Scene(1), SceneStep(1)) == Scene(2)
    ensures Enabled(Scene(2), SceneStep(2)) && Apply(Scene(2), SceneStep(2)) == Scene(3)
  {
    var a, b := "a", "b";
    assert a[0] != b[0];
  }

  lemma SceneClaims()
    ensures Enabled(Scene(3), SceneStep(3)) && Apply(Scene(3), SceneStep(3)) == Scene(4)
    ensures Enabled(Scene(4), SceneStep(4)) && Apply(Scene(4), SceneStep(4)) == Scene(5)
  {
  }

  lemma SceneSteals()
    ensures Enabled(Scene(5), SceneStep(5)) && Apply(Scene(5), SceneStep(5)) == Scene(6)
  {
    var a, b := "a", "b";
    assert a[0] != b[0];
  }

  lemma SceneReleases()
    ensures Enabled(Scene(6), SceneStep(6)) && Apply(Scene(6), SceneStep(6)) == Scene(7)
  {
    var w := Scene(6);
    var blurred := Put(w, 1, w.machines[1].(focused := false));
    var freed := blurred.(owners := blurred.owners - {"desk"});
    assert freed.owners == map[];
    assert PromoteNext(freed, "desk", 21) == freed;
    assert ReleaseOwner(blurred, 1, 21) == SetOwns(freed, 1, false);
  }

  lemma SceneAdvances(k: nat)
    requires k < 7
    ensures Enabled(Scene(k), SceneStep(k)) && Scene(k + 1) == Apply(Scene(k), SceneStep(k))
  {
    if k < 3 { SceneOpens(); }
    else if k < 5 { SceneClaims(); }
    else if k == 5 { SceneSteals(); }
    else { SceneReleases(); }
  }

  /**
   The surface whose lease was taken over is still eligible and still reports that it owns
   attention, so promotion skips it: the registry ends up empty.
   */
  lemma StolenLeaseIsNotPromoted() returns (worlds: seq<World<nat>>, steps: seq<Step<nat>>)
    ensures IsRun(worlds, steps)
    ensures var w := worlds[|steps|];
            && 0 in w.machines && !w.machines[0].disposed && Eligible(w.machines[0])
            && w.machines[0].state.ForegroundVisible? && w.machines[0].ownsAttention
            && w.owners == map[]
  {
    worlds := seq(8, k requires 0 <= k < 8 => Scene(k));
    steps := seq(7, k requires 0 <= k < 7 => SceneStep(k));
    forall k | 0 <= k < |steps| ensures Enabled(worlds[k], steps[k]) && worlds[k + 1] == Apply(worlds[k], steps[k]) {
      SceneAdvances(k);
    }
  }
}
