/**
 Who waits, and in which order: a refused surface joins its queue at the back, a surface leaves
 it without disturbing the others, and nobody waits twice.
 */
module AttentionQueues {
  import opened Wrappers
  import opened AttentionProtocol
  import opened AttentionSafety
  import opened AttentionTakeover
  import opened AttentionStates

  // ------------------------------------------------------------ leaving a list

  ghost predicate OnceEach<M>(q: seq<M>) {
    forall i, j | 0 <= i < j < |q| :: q[i] != q[j]
  }

  /** `after` is `before` without `a`, the others in their order. */
  ghost predicate Leaves<M>(before: seq<M>, after: seq<M>, a: M) {
    if a !in before then after == before
    else exists i :: 0 <= i < |before| && before[i] == a && after == before[..i] + before[i + 1..]
  }

  lemma {:induction false} WithoutStranger<M>(q: seq<M>, a: M)
    requires a !in q
    ensures Without(q, a) == q
  {
    if q != [] {
      assert q == [q[0]] + q[1..];
      WithoutStranger(q[1..], a);
    }
  }

  lemma {:induction false} WithoutLeaves<M>(q: seq<M>, a: M)
    requires OnceEach(q)
    ensures Leaves(q, Without(q, a), a) && OnceEach(Without(q, a))
    decreases |q|, 1
  {
    if a !in q {
      WithoutStranger(q, a);
    } else if q[0] == a {
      forall x | x in q[1..] ensures x != a {
        var j :| 0 <= j < |q| - 1 && q[1..][j] == x;
        assert q[0] != q[j + 1];
      }
      WithoutStranger(q[1..], a);
      assert Without(q, a) == q[..0] + q[1..];
    } else {
      WithoutTail(q, a);
    }
  }

  lemma WithoutTail<M>(q: seq<M>, a: M)
    requires OnceEach(q) && a in q && q[0] != a
    ensures Leaves(q, Without(q, a), a) && OnceEach(Without(q, a))
    decreases |q|, 0
  {
    var rest := q[1..];
    assert q == [q[0]] + rest && a in rest;
    WithoutLeaves(rest, a);
    var i :| 0 <= i < |rest| && rest[i] == a && Without(rest, a) == rest[..i] + rest[i + 1..];
    CutOnce(q, i + 1);
    assert q[..i + 1] + q[i + 2..] == [q[0]] + (rest[..i] + rest[i + 1..]);
  }

  lemma CutOnce<M>(q: seq<M>, n: nat)
    requires OnceEach(q) && n < |q|
    ensures OnceEach(q[..n] + q[n + 1..])
  {
    var r := q[..n] + q[n + 1..];
    forall i, j | 0 <= i < j < |r| ensures r[i] != r[j] {
      assert r[i] == q[if i < n then i else i + 1] && r[j] == q[if j < n then j else j + 1];
    }
  }

  // ------------------------------------------------------------ one operation

  /** All queues but that of installation `i` are as they were. */
  ghost predicate OtherQueues<M>(w: World<M>, r: World<M>, i: string) {
    forall j | j != i :: QueueOf(r, j) == QueueOf(w, j)
  }

  ghost predicate QueuesOnce<M>(w: World<M>) {
    forall i :: OnceEach(QueueOf(w, i))
  }

  lemma SameQueuesOnce<M>(w: World<M>, r: World<M>)
    requires QueuesOnce(w) && r.waiting == w.waiting
    ensures QueuesOnce(r) && forall i :: QueueOf(r, i) == QueueOf(w, i)
  {
    forall i ensures OnceEach(QueueOf(r, i)) {
      assert QueueOf(r, i) == QueueOf(w, i);
    }
  }

  lemma RemovalLeaves<M>(w: World<M>, a: M)
    requires a in w.machines && QueuesOnce(w)
    ensures var i := w.machines[a].installationId; var r := RemoveFromWaiting(w, a);
            Leaves(QueueOf(w, i), QueueOf(r, i), a) && OtherQueues(w, r, i) && QueuesOnce(r)
  {
    var i := w.machines[a].installationId;
    WithoutLeaves(QueueOf(w, i), a);
  }

  /** Nobody of the queue could take over. */
  predicate NobodyToPromote<M(==)>(w: World<M>, i: string) {
    FirstPromotable(w, QueueOf(w, i)).None?
  }

  /** A release forgets the queue of a holder that nobody can succeed, and otherwise touches none. */
  lemma ReleaseOfQueue<M>(w: World<M>, a: M, now: int)
    requires a in w.machines && InvExcept(w, {a}) && now >= w.clock
    ensures var i := w.machines[a].installationId; var r := ReleaseOwner(w, a, now);
            && OtherQueues(w, r, i)
            && QueueOf(r, i) == if Holds(w, a) && NobodyToPromote(w, i) then [] else QueueOf(w, i)
  {
    if Holds(w, a) { ReleaseShape(w, a, now); }
  }

  /** What a recompute of a live surface does to its queue. */
  lemma RecomputeOfQueue<M>(w: World<M>, a: M, now: int)
    requires a in w.machines && InvExcept(w, {a}) && now >= w.clock && !w.machines[a].disposed && QueuesOnce(w)
    ensures
      var m := w.machines[a]; var i := m.installationId; var r := Recompute(w, a, now);
      var before, after := QueueOf(w, i), QueueOf(r, i);
      && OtherQueues(w, r, i)
      && if Eligible(m) then
           after == if CanClaim(w, a, now) || a in before then before else before + [a]
         else if m.ownsAttention then
           after == if Holds(w, a) && NobodyToPromote(w, i) then [] else before
         else Leaves(before, after, a)
  {
    if Eligible(w.machines[a]) {
      VisibleIffEligible(w.machines[a]);
    } else {
      RecomputeIneligible(w, a, now);
      if w.machines[a].ownsAttention { ReleaseOfQueue(w, a, now); } else { RemovalLeaves(w, a); }
    }
  }

  /** A reset leaves the queue, after what its release did to it. */
  lemma ResetOfQueue<M>(w: World<M>, a: M, now: int)
    requires a in w.machines && InvExcept(w, {a}) && now >= w.clock && QueuesOnce(w)
    ensures
      var i := w.machines[a].installationId; var r := Reset(w, a, now);
      && OtherQueues(w, r, i)
      && Leaves(if Holds(w, a) && NobodyToPromote(w, i) then [] else QueueOf(w, i), QueueOf(r, i), a)
  {
    var released := ReleaseOwner(w, a, now);
    ReleaseOfQueue(w, a, now);
    ReleaseKeepsInv(w, a, now);
    if Holds(w, a) { ReleaseShape(w, a, now); }
    ReleasedOnce(w, released, w.machines[a].installationId);
    RemovalLeaves(released, a);
  }

  lemma ReleasedOnce<M>(w: World<M>, r: World<M>, i: string)
    requires QueuesOnce(w) && OtherQueues(w, r, i) && (QueueOf(r, i) == QueueOf(w, i) || QueueOf(r, i) == [])
    ensures QueuesOnce(r)
  {
    forall j ensures OnceEach(QueueOf(r, j)) {
      assert QueueOf(r, j) == QueueOf(w, j) || QueueOf(r, j) == [];
    }
  }

  /** A granted reservation leaves the queue; a refused one changes nothing. */
  lemma ReservationOfQueue<M>(w: World<M>, a: M, now: int)
    requires a in w.machines && QueuesOnce(w)
    ensures
      var i := w.machines[a].installationId; var (r, granted) := Reserve(w, a, now);
      && OtherQueues(w, r, i)
      && if granted then Leaves(QueueOf(w, i), QueueOf(r, i), a) else QueueOf(r, i) == QueueOf(w, i)
  {
    if Reserve(w, a, now).1 {
      SameQueuesOnce(w, SetOwns(Grant(w, a, now), a, true));
      RemovalLeaves(SetOwns(Grant(w, a, now), a, true), a);
    }
  }

  // ------------------------------------------------------------ over a run

  /** Somebody stays, joins at the back, leaves, or everybody is sent away. */
  ghost predicate QueueMoves<M>(before: seq<M>, after: seq<M>, a: M) {
    after == before || (a !in before && after == before + [a]) || Leaves(before, after, a) || after == []
  }

  lemma MovesKeepOnce<M>(before: seq<M>, after: seq<M>, a: M)
    requires OnceEach(before) && QueueMoves(before, after, a)
    ensures OnceEach(after)
  {
  }

  lemma SetterOfQueue<M>(w: World<M>, step: Step<M>)
    requires Inv(w) && Enabled(w, step) && IsSetter(step.operation) && QueuesOnce(w)
    ensures
      var i := w.machines[step.id].installationId; var r := Apply(w, step);
      OtherQueues(w, r, i) && QueueMoves(QueueOf(w, i), QueueOf(r, i), step.id)
  {
    SetterWrites(w, step);
    WrittenIsObserved(w, step.id, step.operation);
    var changed := Put(w, step.id, Written(w.machines[step.id], step.operation));
    ObservedKeepsInvExcept(w, changed, step.id);
    SameQueuesOnce(w, changed);
    if !changed.machines[step.id].disposed { RecomputeOfQueue(changed, step.id, step.now); }
  }

  lemma DisposalOfQueue<M>(w: World<M>, a: M, now: int)
    requires a in w.machines && Inv(w) && now >= w.clock && QueuesOnce(w)
    ensures
      var i := w.machines[a].installationId; var r := Dispose(w, a, now);
      OtherQueues(w, r, i) && QueueMoves(QueueOf(w, i), QueueOf(r, i), a)
  {
    var marked := Put(w, a, w.machines[a].(disposed := true));
    ObservedKeepsInvExcept(w, marked, a);
    SameQueuesOnce(w, marked);
    ResetOfQueue(marked, a, now);
  }

  /** Every step moves at most the queue of its own surface's installation, in one of the four ways, and only by its own surface. */
  lemma StepOfQueue<M>(w: World<M>, step: Step<M>, i: string)
    requires Inv(w) && Enabled(w, step) && QueuesOnce(w)
    ensures QueueMoves(QueueOf(w, i), QueueOf(Apply(w, step), i), step.id)
    ensures step.id in w.machines && w.machines[step.id].installationId != i ==> QueueOf(Apply(w, step), i) == QueueOf(w, i)
  {
    if IsSetter(step.operation) {
      SetterOfQueue(w, step);
    } else if step.operation.ReserveOwner? {
      ReservationOfQueue(w, step.id, step.now);
    } else if step.operation.ResetMachine? {
      ResetOfQueue(w, step.id, step.now);
    } else if step.operation.DisposeMachine? {
      DisposalOfQueue(w, step.id, step.now);
    }
  }

  /** In every world of every run nobody waits twice. */
  lemma {:induction false} NobodyWaitsTwice<M>(worlds: seq<World<M>>, steps: seq<Step<M>>, k: nat)
    requires IsRun(worlds, steps) && k <= |steps|
    ensures QueuesOnce(worlds[k])
  {
    if k > 0 {
      NobodyWaitsTwice(worlds, steps, k - 1);
      RunKeepsInv(worlds, steps, k - 1);
      forall i ensures OnceEach(QueueOf(worlds[k], i)) {
        StepOfQueue(worlds[k - 1], steps[k - 1], i);
        MovesKeepOnce(QueueOf(worlds[k - 1], i), QueueOf(worlds[k], i), steps[k - 1].id);
      }
    }
  }

  /** `x` waits before `y`. */
  ghost predicate WaitsBefore<M>(q: seq<M>, x: M, y: M) {
    exists i, j :: 0 <= i < j < |q| && q[i] == x && q[j] == y
  }

  lemma CutKeepsOrder<M>(before: seq<M>, n: nat, i: nat, j: nat)
    requires i < j < |before| && n < |before| && n != i && n != j
    ensures WaitsBefore(before[..n] + before[n + 1..], before[i], before[j])
  {
    var after := before[..n] + before[n + 1..];
    assert after[if i < n then i else i - 1] == before[i] && after[if j < n then j else j - 1] == before[j];
  }

  lemma MovesKeepOrder<M>(before: seq<M>, after: seq<M>, a: M, x: M, y: M)
    requires OnceEach(before) && QueueMoves(before, after, a) && x in after && y in after && WaitsBefore(before, x, y)
    ensures WaitsBefore(after, x, y)
  {
    var i, j :| 0 <= i < j < |before| && before[i] == x && before[j] == y;
    if a !in before && after == before + [a] {
      assert after[i] == x && after[j] == y;
    } else if after != before {
      var n :| 0 <= n < |before| && before[n] == a && after == before[..n] + before[n + 1..];
      CutHasNot(before, n);
      CutKeepsOrder(before, n, i, j);
    }
  }

  lemma CutHasNot<M>(before: seq<M>, n: nat)
    requires OnceEach(before) && n < |before|
    ensures before[n] !in before[..n] + before[n + 1..]
  {
  }

  /** First come, first served: in every run two surfaces that both stay in a queue keep their order. */
  lemma WaitingKeepsOrder<M>(worlds: seq<World<M>>, steps: seq<Step<M>>, k: nat, i: string, x: M, y: M)
    requires IsRun(worlds, steps) && k < |steps| && WaitsBefore(QueueOf(worlds[k], i), x, y)
    requires x in QueueOf(worlds[k + 1], i) && y in QueueOf(worlds[k + 1], i)
    ensures WaitsBefore(QueueOf(worlds[k + 1], i), x, y)
  {
    NobodyWaitsTwice(worlds, steps, k);
    RunKeepsInv(worlds, steps, k);
    StepOfQueue(worlds[k], steps[k], i);
    MovesKeepOrder(QueueOf(worlds[k], i), QueueOf(worlds[k + 1], i), steps[k].id, x, y);
  }
}
