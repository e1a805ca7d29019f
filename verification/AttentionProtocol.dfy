/**
 The attention ownership protocol. Surfaces of one installation share an owner registry
 with expiring leases and a queue of surfaces waiting for promotion. The module gives
 each operation of a surface as a step on the shared state and proves, for every run,
 mutual exclusion of unexpired claims and that no promotion is lost.

 `M` identifies surfaces.
 */
module AttentionProtocol {
  import opened Wrappers

  datatype AttentionState = Unknown | ForegroundVisible | ForegroundNotVisible | Background | DeviceLocked | Disconnected

  datatype OwnerRecord = OwnerRecord(ownerId: string, leasedUntil: int)

  /** One surface. `grantedUntil` remembers the end of the last lease it was granted. */
  datatype Machine = Machine(
    installationId: string,
    ownerId: string,
    leaseMs: int,
    focused: bool,
    surfaceVisible: bool,
    locked: bool,
    connected: bool,
    ownsAttention: bool,
    disposed: bool,
    state: AttentionState,
    grantedUntil: int)

  /** `clock` is the latest reading any step took. */
  datatype World<!M(==)> = World(
    machines: map<M, Machine>,
    owners: map<string, OwnerRecord>,
    waiting: map<string, seq<M>>,
    clock: int)

  function NewMachine(installationId: string, ownerId: string, leaseMs: int): Machine {
    Machine(installationId, ownerId, leaseMs, false, false, false, true, false, false, Unknown, 0)
  }

  function ResolveState(m: Machine): AttentionState {
    if m.locked then DeviceLocked
    else if !m.connected then Disconnected
    else if !m.focused then Background
    else if m.surfaceVisible then ForegroundVisible
    else ForegroundNotVisible
  }

  /** All four observations are in the surface's favour. */
  predicate Eligible(m: Machine) {
    m.focused && m.surfaceVisible && !m.locked && m.connected
  }

  // ------------------------------------------------------------ operations

  function Put<M(==)>(w: World<M>, id: M, m: Machine): World<M> {
    w.(machines := w.machines[id := m])
  }

  predicate CanClaim<M(==)>(w: World<M>, id: M, now: int)
    requires id in w.machines
  {
    var m := w.machines[id];
    m.installationId in w.owners && w.owners[m.installationId].ownerId != m.ownerId ==>
      w.owners[m.installationId].leasedUntil < now
  }

  /** Record the lease of a successful claim. */
  function Grant<M(==)>(w: World<M>, id: M, now: int): World<M>
    requires id in w.machines
  {
    var m := w.machines[id];
    Put(w, id, m.(grantedUntil := now + m.leaseMs)).(
      owners := w.owners[m.installationId := OwnerRecord(m.ownerId, now + m.leaseMs)])
  }

  function SetOwns<M(==)>(w: World<M>, id: M, owns: bool): World<M>
    requires id in w.machines
  {
    Put(w, id, w.machines[id].(ownsAttention := owns))
  }

  function Transition<M(==)>(w: World<M>, id: M, state: AttentionState): World<M>
    requires id in w.machines
  {
    Put(w, id, w.machines[id].(state := state))
  }

  function QueueOf<M(==)>(w: World<M>, installationId: string): seq<M> {
    if installationId in w.waiting then w.waiting[installationId] else []
  }

  function EnqueueWaiting<M(==)>(w: World<M>, id: M): World<M>
    requires id in w.machines
  {
    var i := w.machines[id].installationId;
    var list := QueueOf(w, i);
    w.(waiting := w.waiting[i := if id in list then list else list + [id]])
  }

  function Without<M(==)>(list: seq<M>, id: M): (r: seq<M>)
    ensures forall x :: x in r ==> x in list && x != id
    ensures forall x :: x in list && x != id ==> x in r
  {
    if list == [] then []
    else if list[0] == id then Without(list[1..], id)
    else [list[0]] + Without(list[1..], id)
  }

  function RemoveFromWaiting<M(==)>(w: World<M>, id: M): World<M>
    requires id in w.machines
  {
    var i := w.machines[id].installationId;
    if i !in w.waiting then w
    else
      var next := Without(w.waiting[i], id);
      w.(waiting := if next != [] then w.waiting[i := next] else w.waiting - {i})
  }

  /** A waiting surface that promotion may hand ownership to. */
  predicate Promotable<M(==)>(w: World<M>, id: M) {
    id in w.machines && !w.machines[id].disposed && !w.machines[id].ownsAttention && Eligible(w.machines[id])
  }

  /** The first promotable surface of a queue. */
  function FirstPromotable<M(==)>(w: World<M>, list: seq<M>): (r: Option<M>)
    ensures r.Some? ==> r.value in list && Promotable(w, r.value)
    ensures r.None? ==> forall x | x in list :: !Promotable(w, x)
  {
    if list == [] then None
    else if Promotable(w, list[0]) then Some(list[0])
    else FirstPromotable(w, list[1..])
  }

  function Recompute<M(==)>(w: World<M>, id: M, now: int): (r: World<M>)
    requires id in w.machines
    ensures r.machines.Keys == w.machines.Keys
    decreases if Eligible(w.machines[id]) then 0 else 3
  {
    var m := w.machines[id];
    if m.disposed then w
    else
      var next := ResolveState(m);
      if next.ForegroundVisible? then
        if CanClaim(w, id, now) then Transition(SetOwns(Grant(w, id, now), id, true), id, next)
        else Transition(EnqueueWaiting(SetOwns(w, id, false), id), id, ForegroundNotVisible)
      else if m.ownsAttention then Transition(ReleaseOwner(w, id, now), id, next)
      else Transition(RemoveFromWaiting(w, id), id, next)
  }

  function ReleaseOwner<M(==)>(w: World<M>, id: M, now: int): (r: World<M>)
    requires id in w.machines
    ensures r.machines.Keys == w.machines.Keys
    decreases 2
  {
    var m := w.machines[id];
    var promoted :=
      if m.installationId in w.owners && w.owners[m.installationId].ownerId == m.ownerId
      then PromoteNext(w.(owners := w.owners - {m.installationId}), m.installationId, now)
      else w;
    SetOwns(promoted, id, false)
  }

  /** Hand attention to the first promotable surface of the queue, which recomputes; with none, forget the queue. */
  function PromoteNext<M(==)>(w: World<M>, installationId: string, now: int): (r: World<M>)
    ensures r.machines.Keys == w.machines.Keys
    decreases 1
  {
    match FirstPromotable(w, QueueOf(w, installationId))
    case Some(candidate) => Recompute(w, candidate, now)
    case None => w.(waiting := w.waiting - {installationId})
  }

  function Reserve<M(==)>(w: World<M>, id: M, now: int): (World<M>, bool)
    requires id in w.machines
  {
    var m := w.machines[id];
    if m.locked || !m.connected || !m.focused then (w, false)
    else if !CanClaim(w, id, now) then (w, false)
    else (RemoveFromWaiting(SetOwns(Grant(w, id, now), id, true), id), true)
  }

  function Reset<M(==)>(w: World<M>, id: M, now: int): World<M>
    requires id in w.machines
  {
    var released := RemoveFromWaiting(ReleaseOwner(w, id, now), id);
    Put(released, id, released.machines[id].(
        focused := false, surfaceVisible := false, locked := false, connected := true, state := Unknown))
  }

  function Dispose<M(==)>(w: World<M>, id: M, now: int): World<M>
    requires id in w.machines
  {
    Reset(Put(w, id, w.machines[id].(disposed := true)), id, now)
  }

  // ------------------------------------------------------------ runs

  datatype Operation<!M(==)> =
    | Create(installationId: string, ownerId: string, leaseMs: int)
    | SetWindowFocused(focused: bool)
    | SetSurfaceVisible(visible: bool)
    | SetDeviceLocked(locked: bool)
    | SetBridgeConnected(connected: bool)
    | ReserveOwner
    | ResetMachine
    | DisposeMachine

  datatype Step<!M(==)> = Step(id: M, operation: Operation<M>, now: int)

  /** A surface is created once, under an owner id no other surface of its installation has. */
  ghost predicate CanCreate<M>(w: World<M>, id: M, installationId: string, ownerId: string) {
    id !in w.machines &&
    forall other | other in w.machines && w.machines[other].installationId == installationId :: w.machines[other].ownerId != ownerId
  }

  /** Steps happen at a clock that never runs backwards, on surfaces that exist. */
  ghost predicate Enabled<M>(w: World<M>, step: Step<M>) {
    step.now >= w.clock &&
    (if step.operation.Create? then CanCreate(w, step.id, step.operation.installationId, step.operation.ownerId)
     else step.id in w.machines)
  }

  function Apply<M(==)>(w: World<M>, step: Step<M>): World<M>
    requires !step.operation.Create? ==> step.id in w.machines
  {
    var id, now := step.id, step.now;
    var result :=
      match step.operation
      case Create(installationId, ownerId, leaseMs) => Put(w, id, NewMachine(installationId, ownerId, leaseMs))
      case SetWindowFocused(b) => Recompute(Put(w, id, w.machines[id].(focused := b)), id, now)
      case SetSurfaceVisible(b) => Recompute(Put(w, id, w.machines[id].(surfaceVisible := b)), id, now)
      case SetDeviceLocked(b) => Recompute(Put(w, id, w.machines[id].(locked := b)), id, now)
      case SetBridgeConnected(b) => Recompute(Put(w, id, w.machines[id].(connected := b)), id, now)
      case ReserveOwner => Reserve(w, id, now).0
      case ResetMachine => Reset(w, id, now)
      case DisposeMachine => Dispose(w, id, now);
    result.(clock := now)
  }

  function Initial<M(==)>(clock: int): World<M> {
    World(map[], map[], map[], clock)
  }

  /** `worlds` is a run: each world is its predecessor after an enabled step, starting from no surfaces at all. */
  ghost predicate IsRun<M>(worlds: seq<World<M>>, steps: seq<Step<M>>) {
    && |worlds| == |steps| + 1
    && worlds[0] == Initial(worlds[0].clock)
    && forall k | 0 <= k < |steps| :: Enabled(worlds[k], steps[k]) && worlds[k + 1] == Apply(worlds[k], steps[k])
  }
}
