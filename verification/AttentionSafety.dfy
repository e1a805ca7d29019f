/** Every run of the attention protocol is safe and loses no promotion. */
module AttentionSafety {
  import opened Wrappers
  import opened AttentionProtocol

  // ------------------------------------------------------------ the invariant

  ghost predicate DistinctOwners<M>(w: World<M>) {
    forall a, b | a in w.machines && b in w.machines && a != b && w.machines[a].installationId == w.machines[b].installationId ::
      w.machines[a].ownerId != w.machines[b].ownerId
  }

  /** Queues hold surfaces of their own installation. */
  ghost predicate QueuesKnown<M>(w: World<M>) {
    forall i | i in w.waiting :: forall m | m in w.waiting[i] :: m in w.machines && w.machines[m].installationId == i
  }

  predicate Holds<M(==)>(w: World<M>, id: M)
    requires id in w.machines
  {
    var m := w.machines[id];
    m.installationId in w.owners && w.owners[m.installationId].ownerId == m.ownerId
  }

  /** Some surface carries the identity the registry names. */
  ghost predicate IsNamed<M>(w: World<M>, i: string)
    requires i in w.owners
  {
    exists id :: id in w.machines && w.machines[id].installationId == i && w.machines[id].ownerId == w.owners[i].ownerId
  }

  /** Whoever the registry names exists, has its flag set, and was granted exactly the registered lease. */
  ghost predicate HoldersFlagged<M>(w: World<M>) {
    && (forall i | i in w.owners :: IsNamed(w, i))
    && (forall id | id in w.machines && Holds(w, id) ::
          w.machines[id].ownsAttention && w.machines[id].grantedUntil == w.owners[w.machines[id].installationId].leasedUntil)
  }

  /** A surface whose flag is set and whose lease has not run out is the one the registry names. */
  ghost predicate GrantsHonoured<M>(w: World<M>) {
    forall id | id in w.machines && w.machines[id].ownsAttention && w.machines[id].grantedUntil >= w.clock :: Holds(w, id)
  }

  ghost predicate IsQueued<M>(w: World<M>, id: M)
    requires id in w.machines
  {
    var i := w.machines[id].installationId;
    i in w.owners && i in w.waiting && id in w.waiting[i]
  }

  ghost predicate Queued<M>(w: World<M>, except: set<M>) {
    forall id | id in w.machines && id !in except && Promotable(w, id) :: IsQueued(w, id)
  }

  ghost predicate StatesJustified<M>(w: World<M>, except: set<M>) {
    forall id | id in w.machines && id !in except ::
      && (w.machines[id].state.ForegroundVisible? ==> w.machines[id].ownsAttention && Eligible(w.machines[id]))
      && (w.machines[id].disposed ==> !w.machines[id].state.ForegroundVisible?)
  }

  /** The invariant, with the queue and state clauses suspended for the surfaces in `except`. */
  ghost predicate InvExcept<M>(w: World<M>, except: set<M>) {
    && DistinctOwners(w) && QueuesKnown(w) && HoldersFlagged(w) && GrantsHonoured(w)
    && Queued(w, except) && StatesJustified(w, except)
  }

  ghost predicate Inv<M>(w: World<M>) {
    InvExcept(w, {})
  }

  // ------------------------------------------------------------ what an operation does

  lemma StillNamed<M>(w: World<M>, r: World<M>, i: string)
    requires i in w.owners && IsNamed(w, i) && i in r.owners && r.owners[i].ownerId == w.owners[i].ownerId
    requires forall x | x in w.machines :: x in r.machines
               && r.machines[x].installationId == w.machines[x].installationId && r.machines[x].ownerId == w.machines[x].ownerId
    ensures IsNamed(r, i)
  {
    var x :| x in w.machines && w.machines[x].installationId == i && w.machines[x].ownerId == w.owners[i].ownerId;
    assert r.machines[x].installationId == i;
  }

  lemma VisibleIffEligible(m: Machine)
    ensures ResolveState(m).ForegroundVisible? <==> Eligible(m)
  {
  }

  /** A promotable surface that recomputes while the registry is empty takes ownership at once. */
  lemma RecomputeClaims<M>(w: World<M>, id: M, now: int)
    requires Promotable(w, id) && w.machines[id].installationId !in w.owners
    ensures Recompute(w, id, now) == Transition(SetOwns(Grant(w, id, now), id, true), id, ForegroundVisible)
  {
    VisibleIffEligible(w.machines[id]);
  }

  /** `r` is `w` after `id` claimed the lease: nobody else changed, and queues lost nobody but `id`. */
  ghost predicate Claimed<M>(w: World<M>, r: World<M>, id: M, now: int, state: AttentionState)
    requires id in w.machines
  {
    var m := w.machines[id];
    && r.machines == w.machines[id := m.(ownsAttention := true, grantedUntil := now + m.leaseMs, state := state)]
    && r.owners == w.owners[m.installationId := OwnerRecord(m.ownerId, now + m.leaseMs)]
    && QueuesShrinkBy(w, r, id)
    && r.clock == now
  }

  ghost predicate QueuesShrinkBy<M>(w: World<M>, r: World<M>, id: M) {
    && (forall i | i in r.waiting :: i in w.waiting && forall x | x in r.waiting[i] :: x in w.waiting[i])
    && (forall i | i in w.waiting :: forall x | x in w.waiting[i] && x != id :: i in r.waiting && x in r.waiting[i])
  }

  lemma ClaimKeepsRegistry<M>(w: World<M>, r: World<M>, id: M, now: int, state: AttentionState)
    requires id in w.machines && InvExcept(w, {id}) && now >= w.clock && CanClaim(w, id, now)
    requires Claimed(w, r, id, now, state)
    ensures HoldersFlagged(r) && GrantsHonoured(r)
  {
    var i := w.machines[id].installationId;
    forall x | x in r.machines && Holds(r, x)
      ensures r.machines[x].ownsAttention && r.machines[x].grantedUntil == r.owners[r.machines[x].installationId].leasedUntil
    {
      if x != id { assert r.machines[x].installationId != i; assert Holds(w, x); }
    }
    forall x | x in r.machines && r.machines[x].ownsAttention && r.machines[x].grantedUntil >= now ensures Holds(r, x) {
      if x != id { assert Holds(w, x); }
    }
    forall j | j in r.owners ensures IsNamed(r, j) {
      if j == i {
        assert r.machines[id].installationId == j;
      } else {
        StillNamed(w, r, j);
      }
    }
  }

  /** A successful claim keeps the invariant, whoever held the expired lease before. */
  lemma ClaimKeepsInv<M>(w: World<M>, r: World<M>, id: M, now: int, state: AttentionState)
    requires id in w.machines && InvExcept(w, {id}) && now >= w.clock && CanClaim(w, id, now)
    requires Claimed(w, r, id, now, state)
    requires state.ForegroundVisible? ==> Eligible(w.machines[id]) && !w.machines[id].disposed
    ensures Inv(r)
  {
    ClaimKeepsRegistry(w, r, id, now, state);
    forall x | x in r.machines && Promotable(r, x) ensures IsQueued(r, x) {
      assert x != id && Promotable(w, x);
    }
  }

  // ------------------------------------------------------------ the other operations

  /** `r` is `w` after `id`, refused by the current owner, gave up its flag and joined the queue. */
  ghost predicate Refused<M>(w: World<M>, r: World<M>, id: M, now: int)
    requires id in w.machines
  {
    var i := w.machines[id].installationId;
    && r.machines == w.machines[id := w.machines[id].(ownsAttention := false, state := ForegroundNotVisible)]
    && r.owners == w.owners
    && r.waiting.Keys == w.waiting.Keys + {i}
    && (forall j | j in w.waiting && j != i :: r.waiting[j] == w.waiting[j])
    && (forall x :: x in r.waiting[i] ==> x == id || (i in w.waiting && x in w.waiting[i]))
    && id in r.waiting[i] && (i in w.waiting ==> forall x | x in w.waiting[i] :: x in r.waiting[i])
    && r.clock == now
  }

  lemma RefusalKeepsInv<M>(w: World<M>, r: World<M>, id: M, now: int)
    requires id in w.machines && InvExcept(w, {id}) && now >= w.clock && !CanClaim(w, id, now)
    requires Refused(w, r, id, now)
    ensures Inv(r)
  {
    RefusalKeepsRest(w, r, id, now);
    RefusalKeepsQueues(w, r, id, now);
  }

  lemma RefusalKeepsRest<M>(w: World<M>, r: World<M>, id: M, now: int)
    requires id in w.machines && InvExcept(w, {id}) && now >= w.clock && !CanClaim(w, id, now)
    requires Refused(w, r, id, now)
    ensures DistinctOwners(r) && HoldersFlagged(r) && GrantsHonoured(r) && StatesJustified(r, {})
  {
    HarmlessChangeKeepsRegistry(w, r, id, now);
  }

  lemma RefusalKeepsQueues<M>(w: World<M>, r: World<M>, id: M, now: int)
    requires id in w.machines && QueuesKnown(w) && Queued(w, {id}) && !CanClaim(w, id, now)
    requires Refused(w, r, id, now)
    ensures QueuesKnown(r) && Queued(r, {})
  {
    forall x | x in r.machines && Promotable(r, x) ensures IsQueued(r, x) {
      if x != id { assert Promotable(w, x) && IsQueued(w, x); }
    }
  }

  /** Clearing the flag of a surface that does not hold the registry disturbs no claim. */
  lemma HarmlessChangeKeepsRegistry<M>(w: World<M>, r: World<M>, id: M, now: int)
    requires id in w.machines && HoldersFlagged(w) && GrantsHonoured(w) && now >= w.clock && r.clock == now
    requires !Holds(w, id) && r.owners == w.owners
    requires r.machines.Keys == w.machines.Keys && (forall x | x in w.machines && x != id :: r.machines[x] == w.machines[x])
    requires !r.machines[id].ownsAttention
    requires r.machines[id].installationId == w.machines[id].installationId && r.machines[id].ownerId == w.machines[id].ownerId
    ensures HoldersFlagged(r) && GrantsHonoured(r)
  {
    forall x | x in r.machines && Holds(r, x)
      ensures r.machines[x].ownsAttention && r.machines[x].grantedUntil == r.owners[r.machines[x].installationId].leasedUntil
    {
      assert x != id && Holds(w, x);
    }
    forall x | x in r.machines && r.machines[x].ownsAttention && r.machines[x].grantedUntil >= now ensures Holds(r, x) {
      assert x != id && Holds(w, x);
    }
    forall j | j in r.owners ensures IsNamed(r, j) {
      StillNamed(w, r, j);
    }
  }

  /** `r` is `w` after `id` gave up a registry slot it held and `heir`, the first promotable surface, took it over. */
  ghost predicate HandedOver<M>(w: World<M>, r: World<M>, id: M, heir: M, now: int)
    requires id in w.machines && heir in w.machines
  {
    var h := w.machines[heir];
    && heir != id && h.installationId == w.machines[id].installationId
    && r.machines == w.machines[heir := h.(ownsAttention := true, grantedUntil := now + h.leaseMs, state := ForegroundVisible)][
                                id := w.machines[id].(ownsAttention := false)]
    && r.owners == w.owners[h.installationId := OwnerRecord(h.ownerId, now + h.leaseMs)]
    && r.waiting == w.waiting
    && r.clock == now
  }

  lemma HandoverKeepsInv<M>(w: World<M>, r: World<M>, id: M, heir: M, now: int)
    requires id in w.machines && InvExcept(w, {id}) && now >= w.clock && Holds(w, id)
    requires Promotable(w, heir) && HandedOver(w, r, id, heir, now)
    ensures InvExcept(r, {id}) && !Holds(r, id)
  {
    HandoverKeepsRegistry(w, r, id, heir, now);
    forall x | x in r.machines && x != id && Promotable(r, x) ensures IsQueued(r, x) {
      assert x != heir && Promotable(w, x) && IsQueued(w, x);
    }
  }

  lemma HandoverKeepsRegistry<M>(w: World<M>, r: World<M>, id: M, heir: M, now: int)
    requires id in w.machines && InvExcept(w, {id}) && now >= w.clock && Holds(w, id)
    requires Promotable(w, heir) && HandedOver(w, r, id, heir, now)
    ensures DistinctOwners(r) && HoldersFlagged(r) && GrantsHonoured(r) && !Holds(r, id)
  {
    var i := w.machines[id].installationId;
    forall x | x in r.machines && Holds(r, x)
      ensures r.machines[x].ownsAttention && r.machines[x].grantedUntil == r.owners[r.machines[x].installationId].leasedUntil
    {
      if x != heir { assert r.machines[x].installationId != i; assert Holds(w, x); }
    }
    forall x | x in r.machines && r.machines[x].ownsAttention && r.machines[x].grantedUntil >= now ensures Holds(r, x) {
      if x != heir { assert x != id && Holds(w, x); }
    }
    forall j | j in r.owners ensures IsNamed(r, j) {
      if j == i {
        assert r.machines[heir].installationId == j;
      } else {
        StillNamed(w, r, j);
      }
    }
  }

  /** `r` is `w` after `id` gave up a registry slot it held and nobody could take it over. */
  ghost predicate Vacated<M>(w: World<M>, r: World<M>, id: M, now: int)
    requires id in w.machines
  {
    var i := w.machines[id].installationId;
    && r.machines == w.machines[id := w.machines[id].(ownsAttention := false)]
    && r.owners == w.owners - {i}
    && r.waiting == w.waiting - {i}
    && r.clock == now
  }

  lemma VacatingKeepsInv<M>(w: World<M>, r: World<M>, id: M, now: int)
    requires id in w.machines && InvExcept(w, {id}) && now >= w.clock && Holds(w, id)
    requires forall x | x in QueueOf(w, w.machines[id].installationId) :: !Promotable(w, x)
    requires Vacated(w, r, id, now)
    ensures InvExcept(r, {id}) && !Holds(r, id)
  {
    var i := w.machines[id].installationId;
    forall x | x in r.machines && Holds(r, x)
      ensures r.machines[x].ownsAttention && r.machines[x].grantedUntil == r.owners[r.machines[x].installationId].leasedUntil
    {
      assert x != id && Holds(w, x);
    }
    forall x | x in r.machines && r.machines[x].ownsAttention && r.machines[x].grantedUntil >= now ensures Holds(r, x) {
      assert x != id && Holds(w, x);
    }
    forall j | j in r.owners ensures IsNamed(r, j) {
      StillNamed(w, r, j);
    }
    forall x | x in r.machines && x != id && Promotable(r, x) ensures IsQueued(r, x) {
      assert Promotable(w, x) && IsQueued(w, x);
    }
  }

  lemma {:induction false} PromotionIgnoresRegistry<M>(w: World<M>, freed: World<M>, list: seq<M>)
    requires freed.machines == w.machines
    ensures FirstPromotable(freed, list) == FirstPromotable(w, list)
  {
    if list != [] { PromotionIgnoresRegistry(w, freed, list[1..]); }
  }

  lemma ReleaseToHeir<M>(w: World<M>, id: M, heir: M, now: int)
    requires id in w.machines && InvExcept(w, {id}) && now >= w.clock && Holds(w, id)
    requires FirstPromotable(w, QueueOf(w, w.machines[id].installationId)) == Some(heir)
    ensures HandedOver(w, ReleaseOwner(w, id, now).(clock := now), id, heir, now)
  {
    var i := w.machines[id].installationId;
    var freed := w.(owners := w.owners - {i});
    PromotionIgnoresRegistry(w, freed, QueueOf(w, i));
    assert Promotable(freed, heir);
    RecomputeClaims(freed, heir, now);
    var promoted := PromoteNext(freed, i, now);
    HandoverShape(w, freed, promoted, id, heir, now);
  }

  lemma HandoverShape<M>(w: World<M>, freed: World<M>, promoted: World<M>, id: M, heir: M, now: int)
    requires id in w.machines && heir in w.machines && heir != id
    requires w.machines[heir].installationId == w.machines[id].installationId
    requires freed == w.(owners := w.owners - {w.machines[id].installationId})
    requires promoted == Transition(SetOwns(Grant(freed, heir, now), heir, true), heir, ForegroundVisible)
    ensures HandedOver(w, SetOwns(promoted, id, false).(clock := now), id, heir, now)
  {
    var i := w.machines[id].installationId;
    Reinsert(w.owners, i, OwnerRecord(w.machines[heir].ownerId, now + w.machines[heir].leaseMs));
    PromotedMachines(w, freed, promoted, id, heir, now);
  }

  lemma PromotedMachines<M>(w: World<M>, freed: World<M>, promoted: World<M>, id: M, heir: M, now: int)
    requires id in w.machines && heir in w.machines && heir != id && freed.machines == w.machines
    requires promoted == Transition(SetOwns(Grant(freed, heir, now), heir, true), heir, ForegroundVisible)
    ensures var h := w.machines[heir];
            promoted.machines == w.machines[heir := h.(ownsAttention := true, grantedUntil := now + h.leaseMs, state := ForegroundVisible)]
  {
  }

  lemma Reinsert(owners: map<string, OwnerRecord>, i: string, record: OwnerRecord)
    ensures (owners - {i})[i := record] == owners[i := record]
  {
  }

  lemma ReleaseToNobody<M>(w: World<M>, id: M, now: int)
    requires id in w.machines && Holds(w, id)
    requires FirstPromotable(w, QueueOf(w, w.machines[id].installationId)).None?
    ensures Vacated(w, ReleaseOwner(w, id, now).(clock := now), id, now)
  {
    var i := w.machines[id].installationId;
    PromotionIgnoresRegistry(w, w.(owners := w.owners - {i}), QueueOf(w, i));
  }

  /** Releasing a held registry slot: the first promotable surface of the queue takes over, or nobody could. */
  lemma ReleaseShape<M>(w: World<M>, id: M, now: int)
    requires id in w.machines && InvExcept(w, {id}) && now >= w.clock && Holds(w, id)
    ensures var r := ReleaseOwner(w, id, now).(clock := now);
            match FirstPromotable(w, QueueOf(w, w.machines[id].installationId))
            case Some(heir) => HandedOver(w, r, id, heir, now)
            case None => Vacated(w, r, id, now)
  {
    match FirstPromotable(w, QueueOf(w, w.machines[id].installationId)) {
      case Some(heir) => ReleaseToHeir(w, id, heir, now);
      case None => ReleaseToNobody(w, id, now);
    }
  }

  lemma ReleaseHeldKeepsInv<M>(w: World<M>, r: World<M>, id: M, now: int)
    requires id in w.machines && InvExcept(w, {id}) && now >= w.clock && Holds(w, id)
    requires match FirstPromotable(w, QueueOf(w, w.machines[id].installationId))
             case Some(heir) => HandedOver(w, r, id, heir, now)
             case None => Vacated(w, r, id, now)
    ensures InvExcept(r, {id}) && !Holds(r, id) && r.machines[id] == w.machines[id].(ownsAttention := false)
  {
    match FirstPromotable(w, QueueOf(w, w.machines[id].installationId)) {
      case Some(heir) => HandoverKeepsInv(w, r, id, heir, now);
      case None => VacatingKeepsInv(w, r, id, now);
    }
  }

  /** Releasing keeps the invariant for everyone else, and leaves the surface without flag and registry slot. */
  lemma ReleaseKeepsInv<M>(w: World<M>, id: M, now: int)
    requires id in w.machines && InvExcept(w, {id}) && now >= w.clock
    ensures var r := ReleaseOwner(w, id, now).(clock := now);
            && InvExcept(r, {id}) && !Holds(r, id)
            && r.machines[id] == w.machines[id].(ownsAttention := false)
  {
    var r := ReleaseOwner(w, id, now).(clock := now);
    if Holds(w, id) {
      ReleaseShape(w, id, now);
      ReleaseHeldKeepsInv(w, r, id, now);
    } else {
      StaleReleaseKeepsInv(w, r, id, now);
    }
  }

  lemma StaleReleaseKeepsInv<M>(w: World<M>, r: World<M>, id: M, now: int)
    requires id in w.machines && InvExcept(w, {id}) && now >= w.clock && !Holds(w, id)
    requires r == SetOwns(w, id, false).(clock := now)
    ensures InvExcept(r, {id}) && !Holds(r, id)
  {
    HarmlessChangeKeepsRegistry(w, r, id, now);
    forall x | x in r.machines && x != id && Promotable(r, x) ensures IsQueued(r, x) {
      assert Promotable(w, x) && IsQueued(w, x);
    }
  }

  /** A surface without flag that is ineligible, or disposed, may change its own fields and leave the queue. */
  lemma SettleKeepsInv<M>(w: World<M>, r: World<M>, id: M, now: int)
    requires id in w.machines && InvExcept(w, {id}) && now >= w.clock && !Holds(w, id)
    requires r.machines.Keys == w.machines.Keys && (forall x | x in w.machines && x != id :: r.machines[x] == w.machines[x])
    requires r.owners == w.owners && QueuesShrinkBy(w, r, id) && r.clock == now
    requires !r.machines[id].ownsAttention && !r.machines[id].state.ForegroundVisible?
    requires !Eligible(r.machines[id]) || r.machines[id].disposed
    requires r.machines[id].installationId == w.machines[id].installationId && r.machines[id].ownerId == w.machines[id].ownerId
    ensures Inv(r)
  {
    HarmlessChangeKeepsRegistry(w, r, id, now);
    forall x | x in r.machines && Promotable(r, x) ensures IsQueued(r, x) {
      assert x != id && Promotable(w, x) && IsQueued(w, x);
    }
  }

  lemma RemovalShrinksQueues<M>(w: World<M>, id: M)
    requires id in w.machines && QueuesKnown(w)
    ensures QueuesShrinkBy(w, RemoveFromWaiting(w, id), id)
  {
  }

  // ------------------------------------------------------------ every step keeps the invariant

  lemma RecomputeEligible<M>(w: World<M>, id: M, now: int)
    requires id in w.machines && !w.machines[id].disposed && Eligible(w.machines[id])
    ensures var r := Recompute(w, id, now).(clock := now);
            if CanClaim(w, id, now) then Claimed(w, r, id, now, ForegroundVisible) else Refused(w, r, id, now)
  {
    VisibleIffEligible(w.machines[id]);
  }

  lemma RecomputeIneligible<M>(w: World<M>, id: M, now: int)
    requires id in w.machines && !w.machines[id].disposed && !Eligible(w.machines[id])
    ensures var m := w.machines[id];
            var left := if m.ownsAttention then ReleaseOwner(w, id, now) else RemoveFromWaiting(w, id);
            Recompute(w, id, now) == Transition(left, id, ResolveState(m))
    ensures !ResolveState(w.machines[id]).ForegroundVisible?
  {
    VisibleIffEligible(w.machines[id]);
  }

  lemma RecomputeIneligibleKeepsInv<M>(w: World<M>, r: World<M>, id: M, now: int)
    requires id in w.machines && InvExcept(w, {id}) && now >= w.clock && !Eligible(w.machines[id])
    requires var m := w.machines[id];
             var left := if m.ownsAttention then ReleaseOwner(w, id, now) else RemoveFromWaiting(w, id);
             r == Transition(left, id, ResolveState(m)).(clock := now)
    requires !ResolveState(w.machines[id]).ForegroundVisible?
    ensures Inv(r)
  {
    if w.machines[id].ownsAttention {
      ReleaseKeepsInv(w, id, now);
      var released := ReleaseOwner(w, id, now).(clock := now);
      SettleKeepsInv(released, r, id, now);
    } else {
      RemovalShrinksQueues(w, id);
      SettleKeepsInv(w, r, id, now);
    }
  }

  /** Recomputing restores the invariant after the surface's own observations changed. */
  lemma RecomputeKeepsInv<M>(w: World<M>, id: M, now: int)
    requires id in w.machines && InvExcept(w, {id}) && now >= w.clock
    requires w.machines[id].disposed ==> !w.machines[id].state.ForegroundVisible?
    ensures Inv(Recompute(w, id, now).(clock := now))
  {
    var r := Recompute(w, id, now).(clock := now);
    if w.machines[id].disposed {
      AdvanceClock(w, now);
    } else if Eligible(w.machines[id]) {
      RecomputeEligible(w, id, now);
      if CanClaim(w, id, now) {
        ClaimKeepsInv(w, r, id, now, ForegroundVisible);
      } else {
        RefusalKeepsInv(w, r, id, now);
      }
    } else {
      RecomputeIneligible(w, id, now);
      RecomputeIneligibleKeepsInv(w, r, id, now);
    }
  }

  /** `r` is `w` with other observations of `id`, or `id` disposed; identity, flag and grant are the same. */
  ghost predicate Observed<M>(w: World<M>, r: World<M>, id: M)
    requires id in w.machines
  {
    && r.owners == w.owners && r.waiting == w.waiting && r.clock == w.clock
    && r.machines.Keys == w.machines.Keys && (forall x | x in w.machines && x != id :: r.machines[x] == w.machines[x])
    && r.machines[id].installationId == w.machines[id].installationId && r.machines[id].ownerId == w.machines[id].ownerId
    && r.machines[id].ownsAttention == w.machines[id].ownsAttention && r.machines[id].grantedUntil == w.machines[id].grantedUntil
  }

  lemma ObservedKeepsRegistry<M>(w: World<M>, r: World<M>, id: M)
    requires id in w.machines && Observed(w, r, id) && HoldersFlagged(w) && GrantsHonoured(w)
    ensures HoldersFlagged(r) && GrantsHonoured(r)
  {
    forall x | x in r.machines && Holds(r, x)
      ensures r.machines[x].ownsAttention && r.machines[x].grantedUntil == r.owners[r.machines[x].installationId].leasedUntil
    {
      assert x in w.machines && Holds(w, x);
    }
    forall x | x in r.machines && r.machines[x].ownsAttention && r.machines[x].grantedUntil >= r.clock ensures Holds(r, x) {
      assert x in w.machines && Holds(w, x);
    }
    forall j | j in r.owners ensures IsNamed(r, j) {
      StillNamed(w, r, j);
    }
  }

  /** Changing only observations suspends the clauses for that surface alone. */
  lemma ObservedKeepsInvExcept<M>(w: World<M>, r: World<M>, id: M)
    requires id in w.machines && Inv(w) && Observed(w, r, id)
    ensures InvExcept(r, {id})
  {
    ObservedKeepsRegistry(w, r, id);
    forall x | x in r.machines && x != id && Promotable(r, x) ensures IsQueued(r, x) {
      assert Promotable(w, x) && IsQueued(w, x);
    }
  }

  /** A setter: write one observation, then recompute. */
  lemma SetterKeepsInv<M>(w: World<M>, r: World<M>, id: M, now: int)
    requires id in w.machines && Inv(w) && Observed(w, r, id) && now >= w.clock
    requires r.machines[id].disposed == w.machines[id].disposed && r.machines[id].state == w.machines[id].state
    ensures Inv(Recompute(r, id, now).(clock := now))
  {
    ObservedKeepsInvExcept(w, r, id);
    RecomputeKeepsInv(r, id, now);
  }

  lemma ReserveClaims<M>(w: World<M>, id: M, now: int)
    requires id in w.machines && QueuesKnown(w) && Reserve(w, id, now).1
    ensures CanClaim(w, id, now) && Claimed(w, Reserve(w, id, now).0.(clock := now), id, now, w.machines[id].state)
  {
    RemovalShrinksQueues(SetOwns(Grant(w, id, now), id, true), id);
  }

  lemma ReserveKeepsInv<M>(w: World<M>, id: M, now: int)
    requires id in w.machines && Inv(w) && now >= w.clock
    ensures Inv(Reserve(w, id, now).0.(clock := now))
  {
    if Reserve(w, id, now).1 {
      ReserveClaims(w, id, now);
      ClaimKeepsInv(w, Reserve(w, id, now).0.(clock := now), id, now, w.machines[id].state);
    } else {
      AdvanceClock(w, now);
    }
  }

  lemma ResetKeepsInv<M>(w: World<M>, id: M, now: int)
    requires id in w.machines && InvExcept(w, {id}) && now >= w.clock
    ensures Inv(Reset(w, id, now).(clock := now))
  {
    ReleaseKeepsInv(w, id, now);
    var released := ReleaseOwner(w, id, now).(clock := now);
    RemovalShrinksQueues(released, id);
    SettleKeepsInv(released, Reset(w, id, now).(clock := now), id, now);
  }

  lemma CreateKeepsInv<M>(w: World<M>, id: M, installationId: string, ownerId: string, leaseMs: int, now: int)
    requires Inv(w) && now >= w.clock && CanCreate(w, id, installationId, ownerId)
    ensures Inv(Put(w, id, NewMachine(installationId, ownerId, leaseMs)).(clock := now))
  {
    var r := Put(w, id, NewMachine(installationId, ownerId, leaseMs)).(clock := now);
    forall x | x in r.machines && Holds(r, x)
      ensures r.machines[x].ownsAttention && r.machines[x].grantedUntil == r.owners[r.machines[x].installationId].leasedUntil
    {
      if x != id { assert Holds(w, x); }
    }
    forall j | j in r.owners ensures IsNamed(r, j) {
      StillNamed(w, r, j);
    }
    forall x | x in r.machines && r.machines[x].ownsAttention && r.machines[x].grantedUntil >= now ensures Holds(r, x) {
      assert Holds(w, x);
    }
    forall x | x in r.machines && Promotable(r, x) ensures IsQueued(r, x) {
      assert Promotable(w, x) && IsQueued(w, x);
    }
  }

  lemma SetterStepKeepsInv<M>(w: World<M>, step: Step<M>)
    requires Inv(w) && Enabled(w, step)
    requires var o := step.operation; o.SetWindowFocused? || o.SetSurfaceVisible? || o.SetDeviceLocked? || o.SetBridgeConnected?
    ensures Inv(Apply(w, step))
  {
    var id := step.id;
    var m := w.machines[id];
    var after :=
      match step.operation
      case SetWindowFocused(b) => m.(focused := b)
      case SetSurfaceVisible(b) => m.(surfaceVisible := b)
      case SetDeviceLocked(b) => m.(locked := b)
      case SetBridgeConnected(b) => m.(connected := b)
      case _ => m;
    SetterKeepsInv(w, Put(w, id, after), id, step.now);
  }

  lemma DisposeKeepsInv<M>(w: World<M>, id: M, now: int)
    requires id in w.machines && Inv(w) && now >= w.clock
    ensures Inv(Dispose(w, id, now).(clock := now))
  {
    var r := Put(w, id, w.machines[id].(disposed := true));
    ObservedKeepsInvExcept(w, r, id);
    ResetKeepsInv(r, id, now);
  }

  lemma StepKeepsInv<M>(w: World<M>, step: Step<M>)
    requires Inv(w) && Enabled(w, step)
    ensures Inv(Apply(w, step))
  {
    match step.operation
    case Create(installationId, ownerId, leaseMs) => CreateKeepsInv(w, step.id, installationId, ownerId, leaseMs, step.now);
    case ReserveOwner => ReserveKeepsInv(w, step.id, step.now);
    case ResetMachine => ResetKeepsInv(w, step.id, step.now);
    case DisposeMachine => DisposeKeepsInv(w, step.id, step.now);
    case _ => SetterStepKeepsInv(w, step);
  }

  /** The invariant holds in every world of every run. */
  lemma {:induction false} RunKeepsInv<M>(worlds: seq<World<M>>, steps: seq<Step<M>>, k: nat)
    requires IsRun(worlds, steps) && k <= |steps|
    ensures Inv(worlds[k])
  {
    if k > 0 {
      RunKeepsInv(worlds, steps, k - 1);
      StepKeepsInv(worlds[k - 1], steps[k - 1]);
    }
  }

  lemma AdvanceClock<M>(w: World<M>, now: int)
    requires now >= w.clock
    ensures forall except :: InvExcept(w, except) ==> InvExcept(w.(clock := now), except)
  {
  }

  // ------------------------------------------------------------ the results

  /**
   Mutual exclusion. In every world of every run, and at every later reading of the
   clock before the next step, at most one surface of an installation has its flag set
   under a lease that has not run out.
   */
  lemma LeaseSafety<M>(worlds: seq<World<M>>, steps: seq<Step<M>>, k: nat, now: int, a: M, b: M)
    requires IsRun(worlds, steps) && k <= |steps| && now >= worlds[k].clock
    requires a in worlds[k].machines && b in worlds[k].machines
    requires worlds[k].machines[a].installationId == worlds[k].machines[b].installationId
    requires worlds[k].machines[a].ownsAttention && worlds[k].machines[a].grantedUntil >= now
    requires worlds[k].machines[b].ownsAttention && worlds[k].machines[b].grantedUntil >= now
    ensures a == b
  {
    RunKeepsInv(worlds, steps, k);
    assert Holds(worlds[k], a) && Holds(worlds[k], b);
  }

  /**
   No lost promotion. In every world of every run, a live surface with all observations
   in its favour is in exactly one of three cases: it holds the registry; or it waits in
   the queue while somebody holds it (`AttentionHolders` says when that holder is live); or
   it has its flag set without holding the registry, under a lease that has run out.
   */
  lemma NoLostPromotion<M>(worlds: seq<World<M>>, steps: seq<Step<M>>, k: nat, id: M)
    requires IsRun(worlds, steps) && k <= |steps|
    requires id in worlds[k].machines && !worlds[k].machines[id].disposed && Eligible(worlds[k].machines[id])
    ensures var w := worlds[k]; var m := w.machines[id];
            || Holds(w, id)
            || (!m.ownsAttention && IsQueued(w, id))
            || (m.ownsAttention && !Holds(w, id) && m.grantedUntil < w.clock)
    ensures var w := worlds[k];
            Holds(w, id) || (!w.machines[id].ownsAttention && IsQueued(w, id)) <==> (w.machines[id].ownsAttention ==> Holds(w, id))
  {
    RunKeepsInv(worlds, steps, k);
    if !worlds[k].machines[id].ownsAttention { assert Promotable(worlds[k], id); }
  }

  /** A surface that reports foreground attention has its flag set and every observation in its favour; the registry names only flagged surfaces. */
  lemma ReportedAttentionIsOwned<M>(worlds: seq<World<M>>, steps: seq<Step<M>>, k: nat, id: M)
    requires IsRun(worlds, steps) && k <= |steps| && id in worlds[k].machines
    ensures worlds[k].machines[id].state.ForegroundVisible? ==>
              worlds[k].machines[id].ownsAttention && Eligible(worlds[k].machines[id]) && !worlds[k].machines[id].disposed
    ensures Holds(worlds[k], id) ==> worlds[k].machines[id].ownsAttention
  {
    RunKeepsInv(worlds, steps, k);
  }

  /** Promotion is first come, first served: a holder that stops qualifying hands over to the first promotable surface of its queue. */
  lemma PromotionIsFifo<M>(w: World<M>, id: M, now: int)
    requires Inv(w) && id in w.machines && now >= w.clock && Holds(w, id)
    ensures var r := ReleaseOwner(w, id, now); var i := w.machines[id].installationId;
            match FirstPromotable(w, QueueOf(w, i))
            case Some(heir) =>
              && r.machines[heir].ownsAttention && r.machines[heir].state.ForegroundVisible?
              && i in r.owners && r.owners[i].ownerId == w.machines[heir].ownerId
            case None =>
              && i !in r.owners
              && forall x | x in w.machines && w.machines[x].installationId == i :: !Promotable(w, x)
  {
    ReleaseShape(w, id, now);
    var i := w.machines[id].installationId;
    if FirstPromotable(w, QueueOf(w, i)).None? {
      assert forall x | x in w.machines && Promotable(w, x) :: IsQueued(w, x);
    }
  }

  /** A dead owner cannot stall its installation: once its lease has run out, any live eligible surface that recomputes takes over. */
  lemma ExpiredLeaseIsReclaimed<M>(w: World<M>, id: M, now: int)
    requires Inv(w) && id in w.machines && !w.machines[id].disposed && Eligible(w.machines[id])
    requires w.machines[id].installationId in w.owners && w.owners[w.machines[id].installationId].leasedUntil < now
    ensures Holds(Recompute(w, id, now), id) && Recompute(w, id, now).machines[id].state.ForegroundVisible?
  {
    RecomputeEligible(w, id, now);
  }
}
