/**
 The attention state machine as the extension writes it: objects that update their own
 fields and two maps shared by all surfaces. Every method is proved to be the
 corresponding operation of the protocol model.
 */
module AttentionSurfaces {
  import opened Wrappers
  import opened AttentionProtocol

  /** The maps that the class keeps in static fields. */
  class AttentionRegistry {
    var owners: map<string, OwnerRecord>
    var waiting: map<string, seq<AttentionStateMachine>>
    ghost var machines: set<AttentionStateMachine>

    ghost predicate Valid()
      reads this, machines
    {
      && (forall m | m in machines :: m.registry == this)
      && (forall i | i in waiting :: forall c | c in waiting[i] :: c in machines)
    }

    ghost function View(): World<AttentionStateMachine>
      reads this, machines
    {
      World(map m | m in machines :: m.Value(), owners, waiting, 0)
    }

    constructor ()
      ensures Valid() && View() == Initial(0) && machines == {}
    {
      owners, waiting, machines := map[], map[], {};
    }
  }

  class AttentionStateMachine {
    const registry: AttentionRegistry
    const installationId: string
    const ownerId: string
    const leaseMs: int
    var state: AttentionState
    var focused: bool
    var surfaceVisible: bool
    var locked: bool
    var connected: bool
    var ownsAttention: bool
    var disposed: bool
    ghost var grantedUntil: int

    ghost function Value(): Machine
      reads this
    {
      Machine(installationId, ownerId, leaseMs, focused, surfaceVisible, locked, connected, ownsAttention, disposed, state, grantedUntil)
    }

    ghost predicate Registered()
      reads registry, registry.machines
    {
      registry.Valid() && this in registry.machines
    }

    constructor (registry: AttentionRegistry, installationId: string, ownerId: string, leaseMs: int)
      requires registry.Valid()
      modifies registry`machines
      ensures this.registry == registry && Registered() && fresh(this)
      ensures registry.machines == old(registry.machines) + {this}
      ensures registry.View() == Put(old(registry.View()), this, NewMachine(installationId, ownerId, leaseMs))
    {
      this.registry, this.installationId, this.ownerId, this.leaseMs := registry, installationId, ownerId, leaseMs;
      state, focused, surfaceVisible, locked, connected, ownsAttention, disposed := Unknown, false, false, false, true, false, false;
      grantedUntil := 0;
      new;
      ghost var before := registry.View();
      registry.machines := registry.machines + {this};
      assert Value() == NewMachine(installationId, ownerId, leaseMs);
      assert registry.View().machines == before.machines[this := Value()];
    }

    predicate IsEligible()
      reads this
      ensures IsEligible() <==> Eligible(Value())
    {
      focused && surfaceVisible && !locked && connected
    }

    function CurrentState(): AttentionState
      reads this
      ensures CurrentState() == ResolveState(Value())
    {
      if locked then DeviceLocked
      else if !connected then Disconnected
      else if !focused then Background
      else if surfaceVisible then ForegroundVisible
      else ForegroundNotVisible
    }

    method ClaimLease(now: int) returns (claimed: bool)
      requires Registered()
      modifies registry`owners, this`grantedUntil
      ensures Registered()
      ensures claimed == CanClaim(old(registry.View()), this, now)
      ensures registry.View() == if claimed then Grant(old(registry.View()), this, now) else old(registry.View())
    {
      if installationId in registry.owners
        && registry.owners[installationId].ownerId != ownerId
        && registry.owners[installationId].leasedUntil >= now
      {
        return false;
      }
      ghost var before := registry.View();
      registry.owners := registry.owners[installationId := OwnerRecord(ownerId, now + leaseMs)];
      grantedUntil := now + leaseMs;
      assert registry.View().machines == before.machines[this := Value()];
      return true;
    }

    method EnqueueWaiting()
      requires Registered()
      modifies registry`waiting
      ensures Registered()
      ensures registry.View() == AttentionProtocol.EnqueueWaiting(old(registry.View()), this)
    {
      var list := if installationId in registry.waiting then registry.waiting[installationId] else [];
      registry.waiting := registry.waiting[installationId := if this in list then list else list + [this]];
    }

    method RemoveFromWaiting()
      requires Registered()
      modifies registry`waiting
      ensures Registered()
      ensures registry.View() == AttentionProtocol.RemoveFromWaiting(old(registry.View()), this)
    {
      if installationId !in registry.waiting { return; }
      var next := Without(registry.waiting[installationId], this);
      if next != [] {
        registry.waiting := registry.waiting[installationId := next];
      } else {
        registry.waiting := registry.waiting - {installationId};
      }
    }

    method Transition(current: AttentionState)
      requires Registered()
      modifies this`state
      ensures Registered()
      ensures registry.View() == AttentionProtocol.Transition(old(registry.View()), this, current)
    {
      ghost var before := registry.View();
      state := current;
      assert registry.View().machines == before.machines[this := Value()];
    }

    method SetOwnsAttention(owns: bool)
      requires Registered()
      modifies this`ownsAttention
      ensures Registered()
      ensures registry.View() == SetOwns(old(registry.View()), this, owns)
    {
      ghost var before := registry.View();
      ownsAttention := owns;
      assert registry.View().machines == before.machines[this := Value()];
    }

    method Recompute(now: int)
      requires Registered()
      modifies registry, registry.machines
      ensures Registered() && registry.machines == old(registry.machines)
      ensures registry.View() == AttentionProtocol.Recompute(old(registry.View()), this, now)
      decreases if Eligible(Value()) then 0 else 3
    {
      if disposed { return; }
      var next := CurrentState();
      if next.ForegroundVisible? {
        var claimed := ClaimLease(now);
        SetOwnsAttention(claimed);
        if !ownsAttention {
          EnqueueWaiting();
          Transition(ForegroundNotVisible);
          return;
        }
      } else if ownsAttention {
        ReleaseOwner(now);
      } else {
        RemoveFromWaiting();
      }
      Transition(next);
    }

    method ReleaseOwner(now: int)
      requires Registered()
      modifies registry, registry.machines
      ensures Registered() && registry.machines == old(registry.machines)
      ensures registry.View() == AttentionProtocol.ReleaseOwner(old(registry.View()), this, now)
      decreases 2
    {
      if installationId in registry.owners && registry.owners[installationId].ownerId == ownerId {
        ghost var before := registry.View();
        registry.owners := registry.owners - {installationId};
        assert registry.View() == before.(owners := before.owners - {installationId});
        PromoteNext(now);
      }
      SetOwnsAttention(false);
    }

    method PromoteNext(now: int)
      requires Registered()
      modifies registry, registry.machines
      ensures Registered() && registry.machines == old(registry.machines)
      ensures registry.View() == AttentionProtocol.PromoteNext(old(registry.View()), installationId, now)
      decreases 1
    {
      var list := if installationId in registry.waiting then registry.waiting[installationId] else [];
      var k := 0;
      while k < |list|
        invariant 0 <= k <= |list|
        invariant Registered() && registry.machines == old(registry.machines) && registry.View() == old(registry.View())
        invariant FirstPromotable(registry.View(), list) == FirstPromotable(registry.View(), list[k..])
      {
        var candidate := list[k];
        if !candidate.disposed && !candidate.ownsAttention && candidate.IsEligible() {
          candidate.Recompute(now);
          return;
        }
        k := k + 1;
      }
      registry.waiting := registry.waiting - {installationId};
    }

    method ReserveOwner(now: int) returns (reserved: bool)
      requires Registered()
      modifies registry, this
      ensures Registered() && registry.machines == old(registry.machines)
      ensures (registry.View(), reserved) == Reserve(old(registry.View()), this, now)
    {
      if locked || !connected || !focused { return false; }
      var claimed := ClaimLease(now);
      if !claimed { return false; }
      SetOwnsAttention(true);
      RemoveFromWaiting();
      return true;
    }

    method SetWindowFocused(b: bool, now: int)
      requires Registered()
      modifies registry, registry.machines
      ensures Registered() && registry.machines == old(registry.machines)
      ensures registry.View() == AttentionProtocol.Recompute(Put(old(registry.View()), this, old(Value()).(focused := b)), this, now)
    {
      ghost var before := registry.View();
      focused := b;
      assert registry.View().machines == before.machines[this := Value()];
      Recompute(now);
    }

    method SetSurfaceVisible(b: bool, now: int)
      requires Registered()
      modifies registry, registry.machines
      ensures Registered() && registry.machines == old(registry.machines)
      ensures registry.View() == AttentionProtocol.Recompute(Put(old(registry.View()), this, old(Value()).(surfaceVisible := b)), this, now)
    {
      ghost var before := registry.View();
      surfaceVisible := b;
      assert registry.View().machines == before.machines[this := Value()];
      Recompute(now);
    }

    method SetDeviceLocked(b: bool, now: int)
      requires Registered()
      modifies registry, registry.machines
      ensures Registered() && registry.machines == old(registry.machines)
      ensures registry.View() == AttentionProtocol.Recompute(Put(old(registry.View()), this, old(Value()).(locked := b)), this, now)
    {
      ghost var before := registry.View();
      locked := b;
      assert registry.View().machines == before.machines[this := Value()];
      Recompute(now);
    }

    method SetBridgeConnected(b: bool, now: int)
      requires Registered()
      modifies registry, registry.machines
      ensures Registered() && registry.machines == old(registry.machines)
      ensures registry.View() == AttentionProtocol.Recompute(Put(old(registry.View()), this, old(Value()).(connected := b)), this, now)
    {
      ghost var before := registry.View();
      connected := b;
      assert registry.View().machines == before.machines[this := Value()];
      Recompute(now);
    }

    method ForgetObservations()
      requires Registered()
      modifies this
      ensures Registered()
      ensures registry.View() == Put(old(registry.View()), this, old(Value()).(
                focused := false, surfaceVisible := false, locked := false, connected := true, state := Unknown))
    {
      ghost var before := registry.View();
      focused, surfaceVisible, locked, connected := false, false, false, true;
      state := Unknown;
      assert registry.View().machines == before.machines[this := Value()];
    }

    method Reset(now: int)
      requires Registered()
      modifies registry, registry.machines
      ensures Registered() && registry.machines == old(registry.machines)
      ensures registry.View() == AttentionProtocol.Reset(old(registry.View()), this, now)
    {
      ReleaseOwner(now);
      RemoveFromWaiting();
      ForgetObservations();
    }

    method Dispose(now: int)
      requires Registered()
      modifies registry, registry.machines
      ensures Registered() && registry.machines == old(registry.machines)
      ensures registry.View() == AttentionProtocol.Dispose(old(registry.View()), this, now)
    {
      ghost var before := registry.View();
      disposed := true;
      assert registry.View().machines == before.machines[this := Value()];
      Reset(now);
    }
  }
}
