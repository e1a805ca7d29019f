/**
 The events of one batch are separate transactions, so anything else may run between them,
 and transactions of other correlations even within one: they can take an event's id, its
 key or its session's hash between its reads and its insert. The insert then violates a
 unique index, everything of it is rolled back, and the batch looks once more.
 */
module AgentInterference {
  import opened Wrappers
  import opened AgentEvents
  import opened AgentStore
  import opened AgentInvariants
  import opened AgentRuns
  import opened AgentBatch
  import opened AgentRetry
  import opened Sorting

  /** An event of the batch, what committed between its reads and its insert, and what committed after it. */
  datatype Turn = Turn(event: Event, during: seq<Step>, after: seq<Step>)

  /** The insert hits a row that was not there when the transaction read. */
  predicate Violates(s: Store, t: Store, userId: string, deviceId: string, event: Event) {
    var d := Decide(s, userId, deviceId, event);
    d.SessionHashRace? || (d.Accepted? && !Decide(t, userId, deviceId, event).Accepted?)
  }

  /** The store and outcome of one turn. A violation is a duplicate if the event's own row is found on the second look. */
  function TakeTurn(s: Store, userId: string, deviceId: string, turn: Turn, now: int): (Store, IngestOutcome) {
    var e, t := turn.event, Run(s, turn.during);
    var d := Decide(s, userId, deviceId, e);
    if Violates(s, t, userId, deviceId, e) then
      var u := Run(t, turn.after);
      (u, if Decide(u, userId, deviceId, e).Duplicate? then Duplicate else SessionHashRace)
    else if d.Accepted? then (Run(Ingest(t, userId, deviceId, e, now), turn.after), Accepted)
    else (Run(t, turn.after), d)
  }

  function ProcessAmid(s: Store, userId: string, deviceId: string, turns: seq<Turn>, now: int): (Store, BatchResult) {
    if turns == [] then (s, BatchResult([], [], [], false))
    else
      var (t, r) := ProcessAmid(s, userId, deviceId, turns[..|turns| - 1], now);
      if r.failed then (t, r)
      else
        var turn := turns[|turns| - 1];
        var (u, d) := TakeTurn(t, userId, deviceId, turn, now);
        (u, Acknowledge(r, turn.event.eventId, d))
  }

  /** The advisory lock: nothing that runs during the transaction ingests into or reconciles its session. */
  ghost predicate LockHeld(steps: seq<Step>, c: string) {
    forall step | step in steps ::
      && (step.IngestStep? ==> step.event.correlationId != c)
      && (step.ReconcileStep? ==> step.correlationId != c)
  }

  lemma {:induction false} LockKeepsSession(s: Store, steps: seq<Step>, c: string)
    requires LockHeld(steps, c)
    ensures c in Run(s, steps).sessions <==> c in s.sessions
    ensures c in s.sessions ==> Run(s, steps).sessions[c] == s.sessions[c]
  {
    if steps != [] {
      var front, last := steps[..|steps| - 1], steps[|steps| - 1];
      assert last in steps && forall step | step in front :: step in steps;
      LockKeepsSession(s, front, c);
      var t := Run(s, front);
      if !last.IngestStep? {
        OtherStepsFrame(t, last);
      } else if Decide(t, last.userId, last.deviceId, last.event).Accepted? {
        IngestAccepts(t, last.userId, last.deviceId, last.event, last.at);
      }
    }
  }

  /** Under the lock a violation can only be one of a unique index: of the id, the key or the session's hash. */
  lemma ViolationIsUnique(s: Store, userId: string, deviceId: string, turn: Turn)
    requires LockHeld(turn.during, turn.event.correlationId)
    requires Violates(s, Run(s, turn.during), userId, deviceId, turn.event) && Decide(s, userId, deviceId, turn.event).Accepted?
    ensures var d := Decide(Run(s, turn.during), userId, deviceId, turn.event);
            d.Duplicate? || d.IdempotencyConflict? || d.SessionHashRace?
  {
    LockKeepsSession(s, turn.during, turn.event.correlationId);
  }

  // ------------------------------------------------------------ without interference

  function Events(turns: seq<Turn>): seq<Event> {
    if turns == [] then [] else Events(turns[..|turns| - 1]) + [turns[|turns| - 1].event]
  }

  ghost predicate Undisturbed(turns: seq<Turn>) {
    forall turn | turn in turns :: turn.during == [] && turn.after == []
  }

  lemma TurnAlone(s: Store, userId: string, deviceId: string, turn: Turn, now: int)
    requires turn.during == [] && turn.after == []
    ensures TakeTurn(s, userId, deviceId, turn, now)
         == (Ingest(s, userId, deviceId, turn.event, now), Decide(s, userId, deviceId, turn.event))
  {
  }

  /** Left alone, the turns are the plain loop. */
  lemma {:induction false} AloneIsBatch(s: Store, userId: string, deviceId: string, turns: seq<Turn>, now: int)
    requires Undisturbed(turns)
    ensures ProcessAmid(s, userId, deviceId, turns, now) == ProcessBatch(s, userId, deviceId, Events(turns), now)
  {
    if turns != [] {
      var front, last := turns[..|turns| - 1], turns[|turns| - 1];
      assert last in turns && forall turn | turn in front :: turn in turns;
      AloneIsBatch(s, userId, deviceId, front, now);
      var (t, r) := ProcessAmid(s, userId, deviceId, front, now);
      TurnAlone(t, userId, deviceId, last, now);
      assert Events(turns)[..|Events(front)|] == Events(front);
    }
  }

  // ------------------------------------------------------------ amid other transactions

  lemma TurnKeepsInv(s: Store, userId: string, deviceId: string, turn: Turn, now: int)
    requires Inv(s)
    ensures Inv(TakeTurn(s, userId, deviceId, turn, now).0)
  {
    var t := Run(s, turn.during);
    RunKeepsInv(s, turn.during);
    IngestKeepsInv(t, userId, deviceId, turn.event, now);
    RunKeepsInv(t, turn.after);
    RunKeepsInv(Ingest(t, userId, deviceId, turn.event, now), turn.after);
  }

  lemma {:induction false} AmidKeepsInv(s: Store, userId: string, deviceId: string, turns: seq<Turn>, now: int)
    requires Inv(s)
    ensures Inv(ProcessAmid(s, userId, deviceId, turns, now).0)
  {
    if turns != [] {
      var front := turns[..|turns| - 1];
      AmidKeepsInv(s, userId, deviceId, front, now);
      TurnKeepsInv(ProcessAmid(s, userId, deviceId, front, now).0, userId, deviceId, turns[|turns| - 1], now);
    }
  }

  /** Whatever runs between and within its events, a batch that does not fail acknowledges each of them once. */
  lemma {:induction false} AmidAcknowledgesEach(s: Store, userId: string, deviceId: string, turns: seq<Turn>, now: int)
    requires !ProcessAmid(s, userId, deviceId, turns, now).1.failed
    ensures AcknowledgesEach(Events(turns), ProcessAmid(s, userId, deviceId, turns, now).1)
  {
    if turns == [] {
      AcknowledgeNone();
    } else {
      var front, last := turns[..|turns| - 1], turns[|turns| - 1];
      var (t, r) := ProcessAmid(s, userId, deviceId, front, now);
      AmidAcknowledgesEach(s, userId, deviceId, front, now);
      AcknowledgeNext(Events(front), last.event, r, TakeTurn(t, userId, deviceId, last, now).1);
    }
  }

  lemma WriteKeepsSettled(
    t: Store, userId: string, deviceId: string, written: Event, after: seq<Step>, now: int, event: Event)
    requires Inv(t) && Settled(t, userId, deviceId, event)
    ensures Settled(Run(Ingest(t, userId, deviceId, written, now), after), userId, deviceId, event)
  {
    IngestKeepsInv(t, userId, deviceId, written, now);
    StepKeepsSettled(t, IngestStep(userId, deviceId, written, now), userId, deviceId, event);
    RunKeepsSettled(Ingest(t, userId, deviceId, written, now), after, userId, deviceId, event);
  }

  /** A turn leaves one of two stores: with its own write, or without. */
  lemma TurnWritesOrNot(s: Store, userId: string, deviceId: string, turn: Turn, now: int)
    ensures var t := Run(s, turn.during);
            TakeTurn(s, userId, deviceId, turn, now).0
              in {Run(t, turn.after), Run(Ingest(t, userId, deviceId, turn.event, now), turn.after)}
  {
  }

  lemma TurnKeepsSettled(s: Store, userId: string, deviceId: string, turn: Turn, now: int, event: Event)
    requires Inv(s) && Settled(s, userId, deviceId, event)
    ensures Settled(TakeTurn(s, userId, deviceId, turn, now).0, userId, deviceId, event)
  {
    var t := Run(s, turn.during);
    RunKeepsInv(s, turn.during);
    RunKeepsSettled(s, turn.during, userId, deviceId, event);
    RunKeepsSettled(t, turn.after, userId, deviceId, event);
    WriteKeepsSettled(t, userId, deviceId, turn.event, turn.after, now, event);
    TurnWritesOrNot(s, userId, deviceId, turn, now);
  }

  /** A turn that does not fail settles its event. */
  lemma TurnSettles(s: Store, userId: string, deviceId: string, turn: Turn, now: int)
    requires Inv(s) && !TakeTurn(s, userId, deviceId, turn, now).1.SessionHashRace?
    ensures Settled(TakeTurn(s, userId, deviceId, turn, now).0, userId, deviceId, turn.event)
  {
    var e, t := turn.event, Run(s, turn.during);
    RunKeepsInv(s, turn.during);
    if !Violates(s, t, userId, deviceId, e) {
      if Decide(s, userId, deviceId, e).Accepted? {
        IngestSettles(t, userId, deviceId, e, now);
        IngestKeepsInv(t, userId, deviceId, e, now);
        RunKeepsSettled(Ingest(t, userId, deviceId, e, now), turn.after, userId, deviceId, e);
      } else {
        IngestSettles(s, userId, deviceId, e, now);
        RunKeepsSettled(s, turn.during, userId, deviceId, e);
        RunKeepsSettled(t, turn.after, userId, deviceId, e);
      }
    }
  }

  lemma {:induction false} AmidSettles(s: Store, userId: string, deviceId: string, turns: seq<Turn>, now: int, event: Event)
    requires Inv(s) && event in Events(turns) && !ProcessAmid(s, userId, deviceId, turns, now).1.failed
    ensures Settled(ProcessAmid(s, userId, deviceId, turns, now).0, userId, deviceId, event)
  {
    var front, last := turns[..|turns| - 1], turns[|turns| - 1];
    var (t, r) := ProcessAmid(s, userId, deviceId, front, now);
    AmidKeepsInv(s, userId, deviceId, front, now);
    if event in Events(front) {
      AmidSettles(s, userId, deviceId, front, now, event);
      TurnKeepsSettled(t, userId, deviceId, last, now, event);
    } else {
      TurnSettles(t, userId, deviceId, last, now);
    }
  }

  /** The transactions of others around and within the turns, in their order. */
  function Interference(turns: seq<Turn>): seq<Step> {
    if turns == [] then []
    else Interference(turns[..|turns| - 1]) + turns[|turns| - 1].during + turns[|turns| - 1].after
  }

  lemma {:induction false} RunConcat(s: Store, a: seq<Step>, b: seq<Step>)
    ensures Run(s, a + b) == Run(Run(s, a), b)
  {
    if b == [] {
      assert a + b == a;
    } else {
      RunConcat(s, a, b[..|b| - 1]);
      assert (a + b)[..|a + b| - 1] == a + b[..|b| - 1];
    }
  }

  lemma SettledTurn(s: Store, userId: string, deviceId: string, turn: Turn, now: int)
    requires Settled(s, userId, deviceId, turn.event)
    ensures var (t, d) := TakeTurn(s, userId, deviceId, turn, now);
            t == Run(Run(s, turn.during), turn.after) && !d.Accepted? && !d.SessionHashRace?
  {
    SettledIsOnlyAnswered(s, userId, deviceId, turn.event, now);
  }

  /** Settled events add nothing to what the others do, and never fail the batch. */
  lemma {:induction false} SettledTurnsAddNothing(s: Store, userId: string, deviceId: string, turns: seq<Turn>, now: int)
    requires Inv(s) && forall e | e in Events(turns) :: Settled(s, userId, deviceId, e)
    ensures ProcessAmid(s, userId, deviceId, turns, now).0 == Run(s, Interference(turns))
    ensures var r := ProcessAmid(s, userId, deviceId, turns, now).1; r.accepted == [] && !r.failed
  {
    if turns != [] {
      var front, last := turns[..|turns| - 1], turns[|turns| - 1];
      var t := Run(s, Interference(front));
      assert last.event in Events(turns);
      SettledTurnsAddNothing(s, userId, deviceId, front, now);
      RunKeepsSettled(s, Interference(front), userId, deviceId, last.event);
      SettledTurn(t, userId, deviceId, last, now);
      RunConcat(s, Interference(front), last.during);
      RunConcat(s, Interference(front) + last.during, last.after);
    }
  }

  /**
   A batch was processed without failing while other transactions ran between and within its
   events. Whatever follows, processing any of its events again, with any interference, adds
   nothing to what the others do: no event is accepted and the batch does not fail.
   */
  lemma RetryAmidAddsNothing(
    s: Store, userId: string, deviceId: string, first: seq<Turn>, now: int, steps: seq<Step>, again: seq<Turn>, later: int)
    requires Inv(s) && !ProcessAmid(s, userId, deviceId, first, now).1.failed
    requires forall e | e in Events(again) :: e in Events(first)
    ensures
      var t := Run(ProcessAmid(s, userId, deviceId, first, now).0, steps);
      var (u, r) := ProcessAmid(t, userId, deviceId, again, later);
      u == Run(t, Interference(again)) && r.accepted == [] && !r.failed
  {
    var mid := ProcessAmid(s, userId, deviceId, first, now).0;
    AmidKeepsInv(s, userId, deviceId, first, now);
    RunKeepsInv(mid, steps);
    forall e | e in Events(again) ensures Settled(Run(mid, steps), userId, deviceId, e) {
      AmidSettles(s, userId, deviceId, first, now, e);
      RunKeepsSettled(mid, steps, userId, deviceId, e);
    }
    SettledTurnsAddNothing(Run(mid, steps), userId, deviceId, again, later);
  }
}
