/**
 Whether the holder a queue waits for is alive. A disposed surface gives the registry up
 and never recomputes again, but nothing stops it from reserving once more; this is the
 only way to a disposed holder.
 */
module AttentionHolders {
  import opened Wrappers
  import opened AttentionProtocol
  import opened AttentionSafety
  import opened AttentionTakeover

  ghost predicate DisposedHolder<M>(w: World<M>, id: M) {
    id in w.machines && w.machines[id].disposed && Holds(w, id)
  }

  /** A disposed surface is granted a reservation. */
  ghost predicate ReservesAgain<M>(w: World<M>, step: Step<M>, id: M) {
    && id in w.machines && w.machines[id].disposed
    && step.id == id && step.operation.ReserveOwner? && Reserve(w, id, step.now).1
  }

  /** Neither resets or disposes of the surface nor takes an expired lease over from it. */
  ghost predicate LeavesHolder<M>(w: World<M>, step: Step<M>, id: M)
    requires id in w.machines && Holds(w, id)
  {
    if step.id == id then !step.operation.ResetMachine? && !step.operation.DisposeMachine? else !TakesOver(w, step, id)
  }

  lemma OwnResetReleases<M>(w: World<M>, id: M, now: int)
    requires id in w.machines && InvExcept(w, {id}) && now >= w.clock
    ensures !Holds(Reset(w, id, now), id)
  {
    ReleaseKeepsInv(w, id, now);
  }

  lemma DisposeReleases<M>(w: World<M>, id: M, now: int)
    requires id in w.machines && Inv(w) && now >= w.clock
    ensures !Holds(Dispose(w, id, now), id)
  {
    var marked := Put(w, id, w.machines[id].(disposed := true));
    ObservedKeepsInvExcept(w, marked, id);
    OwnResetReleases(marked, id, now);
  }

  /** A setter of a disposed surface only writes its observation. */
  lemma DisposedSetter<M>(w: World<M>, step: Step<M>)
    requires Enabled(w, step) && IsSetter(step.operation) && w.machines[step.id].disposed
    ensures Holds(Apply(w, step), step.id) <==> Holds(w, step.id)
  {
    SetterWrites(w, step);
  }

  lemma ReservationOfDisposed<M>(w: World<M>, id: M, now: int)
    requires id in w.machines
    ensures Holds(Reserve(w, id, now).0, id) <==> Reserve(w, id, now).1 || Holds(w, id)
  {
  }

  lemma OwnStepOfDisposed<M>(w: World<M>, step: Step<M>)
    requires Inv(w) && Enabled(w, step) && step.id in w.machines
    requires w.machines[step.id].disposed || step.operation.DisposeMachine?
    ensures Holds(Apply(w, step), step.id) <==>
              ReservesAgain(w, step, step.id) || (Holds(w, step.id) && LeavesHolder(w, step, step.id))
  {
    if IsSetter(step.operation) {
      DisposedSetter(w, step);
    } else if step.operation.ReserveOwner? {
      ReservationOfDisposed(w, step.id, step.now);
    } else if step.operation.ResetMachine? {
      OwnResetReleases(w, step.id, step.now);
    } else {
      DisposeReleases(w, step.id, step.now);
    }
  }

  lemma OthersAndDisposed<M>(w: World<M>, r: World<M>, a: M, now: int, effect: Effect<M>, id: M)
    requires Inv(w) && id in w.machines && w.machines[id].disposed && Had(w, r, a, now, effect) && a != id
    ensures Holds(r, id) <==> Holds(w, id) && !(effect.Claims? && w.machines[a].installationId == w.machines[id].installationId)
  {
  }

  lemma OtherStepOfDisposed<M>(w: World<M>, step: Step<M>, r: World<M>, id: M)
    requires Inv(w) && Enabled(w, step) && r == Apply(w, step) && id in r.machines
    requires id in w.machines && w.machines[id].disposed && step.id != id
    ensures Holds(r, id) <==> Holds(w, id) && LeavesHolder(w, step, id)
  {
    var effect := StepEffect(w, step);
    OthersAndDisposed(w, r, step.id, step.now, effect, id);
  }

  /** A disposed surface holds the registry after a step exactly when it was granted it then, or held it and was left alone. */
  lemma DisposedHolderStep<M>(w: World<M>, step: Step<M>, id: M)
    requires Inv(w) && Enabled(w, step)
    ensures DisposedHolder(Apply(w, step), id) <==>
              ReservesAgain(w, step, id) || (DisposedHolder(w, id) && LeavesHolder(w, step, id))
  {
    if id in w.machines {
      StepDisposal(w, step, id);
      if step.id != id {
        if w.machines[id].disposed { OtherStepOfDisposed(w, step, Apply(w, step), id); }
      } else if w.machines[id].disposed || step.operation.DisposeMachine? {
        OwnStepOfDisposed(w, step);
      }
    } else {
      NewcomersAreLive(w, step, id);
    }
  }

  lemma NewcomersAreLive<M>(w: World<M>, step: Step<M>, id: M)
    requires Enabled(w, step) && id !in w.machines
    ensures !DisposedHolder(Apply(w, step), id)
  {
    if step.operation.Create? {
      CreationIsLive(w, step);
    } else {
      StepKeepsSurfaces(w, step);
    }
  }

  lemma CreationIsLive<M>(w: World<M>, step: Step<M>)
    requires Enabled(w, step) && step.operation.Create?
    ensures Apply(w, step).machines.Keys == w.machines.Keys + {step.id} && !Apply(w, step).machines[step.id].disposed
  {
  }

  // ------------------------------------------------------------ over a run

  /** Granted at step `j`, while disposed, and left alone since. */
  ghost predicate ReservedSince<M>(worlds: seq<World<M>>, steps: seq<Step<M>>, j: int, k: int, id: M)
    requires 0 <= j < k <= |steps| && |worlds| == |steps| + 1
  {
    ReservesAgain(worlds[j], steps[j], id)
    && forall l | j < l < k :: id in worlds[l].machines && (Holds(worlds[l], id) ==> LeavesHolder(worlds[l], steps[l], id))
  }

  lemma DisposedNext<M>(worlds: seq<World<M>>, steps: seq<Step<M>>, k: nat, id: M)
    requires IsRun(worlds, steps) && k < |steps|
    ensures DisposedHolder(worlds[k + 1], id) <==>
              ReservesAgain(worlds[k], steps[k], id) || (DisposedHolder(worlds[k], id) && LeavesHolder(worlds[k], steps[k], id))
  {
    RunKeepsInv(worlds, steps, k);
    DisposedHolderStep(worlds[k], steps[k], id);
  }

  lemma {:induction false} DisposedHolderReserved<M>(worlds: seq<World<M>>, steps: seq<Step<M>>, k: nat, id: M) returns (j: nat)
    requires IsRun(worlds, steps) && k <= |steps| && DisposedHolder(worlds[k], id)
    ensures j < k && ReservedSince(worlds, steps, j, k, id)
    decreases k
  {
    if k == 0 {
      assert false;
    } else {
      DisposedNext(worlds, steps, k - 1, id);
      if ReservesAgain(worlds[k - 1], steps[k - 1], id) {
        j := k - 1;
      } else {
        j := DisposedHolderReserved(worlds, steps, k - 1, id);
        ReservedLonger(worlds, steps, j, k - 1, id);
      }
    }
  }

  lemma ReservedLonger<M>(worlds: seq<World<M>>, steps: seq<Step<M>>, j: nat, k: nat, id: M)
    requires j < k < |steps| && |worlds| == |steps| + 1 && ReservedSince(worlds, steps, j, k, id)
    requires DisposedHolder(worlds[k], id) && LeavesHolder(worlds[k], steps[k], id)
    ensures ReservedSince(worlds, steps, j, k + 1, id)
  {
  }

  lemma ReservedHolds<M>(worlds: seq<World<M>>, steps: seq<Step<M>>, j: nat, k: nat, id: M)
    requires IsRun(worlds, steps) && j < k <= |steps| && ReservedSince(worlds, steps, j, k, id)
    ensures DisposedHolder(worlds[k], id)
  {
    ghost var p := (l: int) => 0 <= l < |worlds| && DisposedHolder(worlds[l], id);
    DisposedNext(worlds, steps, j, id);
    forall l | j + 1 <= l < k && p(l) ensures p(l + 1) {
      DisposedNext(worlds, steps, l, id);
    }
    Persists(p, j + 1, k);
  }

  /**
   In every world of every run the holder of a registry entry is disposed if and only if it
   was granted a reservation after its disposal and has since neither been reset nor disposed
   of again nor had its expired lease taken over.
   */
  lemma HolderIsDisposedIff<M>(worlds: seq<World<M>>, steps: seq<Step<M>>, k: nat, id: M)
    requires IsRun(worlds, steps) && k <= |steps| && id in worlds[k].machines && Holds(worlds[k], id)
    ensures worlds[k].machines[id].disposed <==> exists j :: 0 <= j < k && ReservedSince(worlds, steps, j, k, id)
  {
    if DisposedHolder(worlds[k], id) {
      var j := DisposedHolderReserved(worlds, steps, k, id);
    }
    if j :| 0 <= j < k && ReservedSince(worlds, steps, j, k, id) {
      ReservedHolds(worlds, steps, j, k, id);
    }
  }

  /**
   The surface a queued one waits for: somebody holds the registry of its installation, and
   that holder is live unless it reserved again after its disposal.
   */
  lemma QueuedWaitsFor<M>(worlds: seq<World<M>>, steps: seq<Step<M>>, k: nat, id: M) returns (holder: M)
    requires IsRun(worlds, steps) && k <= |steps| && id in worlds[k].machines && IsQueued(worlds[k], id)
    ensures holder in worlds[k].machines && Holds(worlds[k], holder)
    ensures worlds[k].machines[holder].installationId == worlds[k].machines[id].installationId
    ensures worlds[k].machines[holder].disposed <==> exists j :: 0 <= j < k && ReservedSince(worlds, steps, j, k, holder)
  {
    RunKeepsInv(worlds, steps, k);
    var w := worlds[k];
    var i := w.machines[id].installationId;
    assert IsNamed(w, i);
    holder :| holder in w.machines && w.machines[holder].installationId == i && w.machines[holder].ownerId == w.owners[i].ownerId;
    HolderIsDisposedIff(worlds, steps, k, holder);
  }

  // ------------------------------------------------------------ a run in which it happens

  function Surface(focused: bool, owns: bool, disposed: bool, grantedUntil: int): Machine {
    Machine("desk", "a", 10, focused, false, false, true, owns, disposed, Unknown, grantedUntil)
  }

  // Surface 0 is created, disposed of, focused and granted a reservation.

  function Scene(k: nat): World<nat> {
    if k == 0 then World(map[], map[], map[], 0)
    else if k == 1 then World(map[0 := Surface(false, false, false, 0)], map[], map[], 0)
    else if k == 2 then World(map[0 := Surface(false, false, true, 0)], map[], map[], 0)
    else if k == 3 then World(map[0 := Surface(true, false, true, 0)], map[], map[], 0)
    else World(map[0 := Surface(true, true, true, 10)], map["desk" := OwnerRecord("a", 10)], map[], 0)
  }

  function SceneStep(k: nat): Step<nat> {
    if k == 0 then Step(0, Create("desk", "a", 10), 0)
    else if k == 1 then Step(0, DisposeMachine, 0)
    else if k == 2 then Step(0, SetWindowFocused(true), 0)
    else Step(0, ReserveOwner, 0)
  }

  lemma SceneAdvances(k: nat)
    requires k < 4
    ensures Enabled(Scene(k), SceneStep(k)) && Scene(k + 1) == Apply(Scene(k), SceneStep(k))
  {
  }

  /** A disposed surface can hold the registry. */
  lemma DisposedCanHold() returns (worlds: seq<World<nat>>, steps: seq<Step<nat>>)
    ensures IsRun(worlds, steps) && DisposedHolder(worlds[|steps|], 0)
  {
    worlds := seq(5, k requires 0 <= k < 5 => Scene(k));
    steps := seq(4, k requires 0 <= k < 4 => SceneStep(k));
    forall k | 0 <= k < |steps| ensures Enabled(worlds[k], steps[k]) && worlds[k + 1] == Apply(worlds[k], steps[k]) {
      SceneAdvances(k);
    }
  }
}
