/**
 Sending an answered request again. What was accepted, answered as a duplicate or rejected
 by processing is settled for good; only a candidate that screening had refused for its
 time can still be stored, because the time window moves.
 */
module AgentRetry {
  import opened Wrappers
  import opened AgentEvents
  import opened AgentStore
  import opened AgentInvariants
  import opened AgentRuns
  import opened AgentBatch
  import opened Sorting

  // ------------------------------------------------------------ settled events

  /** The store already answers this event: its id or key is taken, or its session is somebody else's or abandoned. */
  predicate Settled(s: Store, userId: string, deviceId: string, event: Event) {
    || FindDuplicate(s.log, event).Some?
    || (event.correlationId in s.sessions &&
        var session := s.sessions[event.correlationId];
        session.userId != userId || session.deviceId != deviceId || session.provider != event.provider || session.status.Abandoned?)
  }

  lemma {:induction false} TakenStaysTaken(log: seq<Entry>, longer: seq<Entry>, event: Event)
    requires log <= longer && FindDuplicate(log, event).Some?
    ensures FindDuplicate(longer, event).Some?
  {
    assert FindDuplicate(log, event).value in longer;
  }

  lemma ProviderIsFixed(s: Store, step: Step, c: string)
    requires c in s.sessions
    ensures c in Apply(s, step).sessions && Apply(s, step).sessions[c].provider == s.sessions[c].provider
  {
    if step.IngestStep? && Decide(s, step.userId, step.deviceId, step.event).Accepted? {
      IngestAccepts(s, step.userId, step.deviceId, step.event, step.at);
    }
  }

  /** No step unsettles an event. */
  lemma StepKeepsSettled(s: Store, step: Step, userId: string, deviceId: string, event: Event)
    requires Inv(s) && Settled(s, userId, deviceId, event)
    ensures Settled(Apply(s, step), userId, deviceId, event)
  {
    StepGrowsLog(s, step);
    if FindDuplicate(s.log, event).Some? {
      TakenStaysTaken(s.log, Apply(s, step).log, event);
    } else {
      ProviderIsFixed(s, step, event.correlationId);
      if s.sessions[event.correlationId].status.Abandoned? { StepKeepsAbandoned(s, step, event.correlationId); }
    }
  }

  lemma {:induction false} RunKeepsSettled(s: Store, steps: seq<Step>, userId: string, deviceId: string, event: Event)
    requires Inv(s) && Settled(s, userId, deviceId, event)
    ensures Settled(Run(s, steps), userId, deviceId, event)
  {
    if steps != [] {
      var front := steps[..|steps| - 1];
      RunKeepsSettled(s, front, userId, deviceId, event);
      RunKeepsInv(s, front);
      StepKeepsSettled(Run(s, front), steps[|steps| - 1], userId, deviceId, event);
    }
  }

  /** A transaction that does not fail settles its event. */
  lemma IngestSettles(s: Store, userId: string, deviceId: string, event: Event, now: int)
    requires !Decide(s, userId, deviceId, event).SessionHashRace?
    ensures Settled(Ingest(s, userId, deviceId, event, now), userId, deviceId, event)
  {
    if Decide(s, userId, deviceId, event).Accepted? {
      IngestAccepts(s, userId, deviceId, event, now);
      var log := Ingest(s, userId, deviceId, event, now).log;
      assert log[|s.log|].event == event && log[|s.log|] in log;
    }
  }

  /** A settled event is answered without a write, and never fails the batch. */
  lemma SettledIsOnlyAnswered(s: Store, userId: string, deviceId: string, event: Event, now: int)
    requires Settled(s, userId, deviceId, event)
    ensures Ingest(s, userId, deviceId, event, now) == s
    ensures var d := Decide(s, userId, deviceId, event); !d.Accepted? && !d.SessionHashRace?
  {
  }

  lemma {:induction false} BatchKeepsSettled(
    s: Store, userId: string, deviceId: string, order: seq<Event>, now: int, event: Event)
    requires Inv(s) && Settled(s, userId, deviceId, event)
    ensures Settled(ProcessBatch(s, userId, deviceId, order, now).0, userId, deviceId, event)
  {
    if order != [] {
      var front := order[..|order| - 1];
      BatchKeepsSettled(s, userId, deviceId, front, now, event);
      BatchKeepsInv(s, userId, deviceId, front, now);
      var t := ProcessBatch(s, userId, deviceId, front, now).0;
      StepKeepsSettled(t, IngestStep(userId, deviceId, order[|order| - 1], now), userId, deviceId, event);
    }
  }

  /** Processing that does not fail settles every event, whether it accepts or rejects it. */
  lemma {:induction false} BatchSettles(s: Store, userId: string, deviceId: string, order: seq<Event>, now: int, event: Event)
    requires Inv(s) && event in order && !ProcessBatch(s, userId, deviceId, order, now).1.failed
    ensures Settled(ProcessBatch(s, userId, deviceId, order, now).0, userId, deviceId, event)
  {
    var front, last := order[..|order| - 1], order[|order| - 1];
    var (t, r) := ProcessBatch(s, userId, deviceId, front, now);
    BatchKeepsInv(s, userId, deviceId, front, now);
    if event in front {
      BatchSettles(s, userId, deviceId, front, now, event);
      StepKeepsSettled(t, IngestStep(userId, deviceId, last, now), userId, deviceId, event);
    } else {
      AnsweredSettles(t, r, userId, deviceId, last, now);
    }
  }

  lemma AnsweredSettles(t: Store, r: BatchResult, userId: string, deviceId: string, event: Event, now: int)
    requires Inv(t) && !Acknowledge(r, event.eventId, Decide(t, userId, deviceId, event)).failed
    ensures Settled(Ingest(t, userId, deviceId, event, now), userId, deviceId, event)
  {
    assert !Decide(t, userId, deviceId, event).SessionHashRace?;
    IngestSettles(t, userId, deviceId, event, now);
  }

  // ------------------------------------------------------------ what a batch can still do

  /** What a batch logs was not settled before it. */
  lemma {:induction false} LoggedWereOpen(s: Store, userId: string, deviceId: string, order: seq<Event>, now: int, x: Entry)
    requires Inv(s) && x in ProcessBatch(s, userId, deviceId, order, now).0.log && x !in s.log
    ensures x.event in order && !Settled(s, userId, deviceId, x.event)
  {
    var front, last := order[..|order| - 1], order[|order| - 1];
    var t := ProcessBatch(s, userId, deviceId, front, now).0;
    if x in t.log {
      LoggedWereOpen(s, userId, deviceId, front, now, x);
    } else {
      IngestAppends(t, userId, deviceId, last, now);
      if Settled(s, userId, deviceId, last) {
        BatchKeepsSettled(s, userId, deviceId, front, now, last);
        SettledIsOnlyAnswered(t, userId, deviceId, last, now);
      }
    }
  }

  /** Nor was what it accepts. */
  lemma {:induction false} AcceptedWereOpen(
    s: Store, userId: string, deviceId: string, order: seq<Event>, now: int, id: nat) returns (e: Event)
    requires Inv(s) && id in ProcessBatch(s, userId, deviceId, order, now).1.accepted
    ensures e in order && e.eventId == id && !Settled(s, userId, deviceId, e)
  {
    var front, last := order[..|order| - 1], order[|order| - 1];
    var (t, r) := ProcessBatch(s, userId, deviceId, front, now);
    if id in r.accepted {
      e := AcceptedWereOpen(s, userId, deviceId, front, now, id);
    } else {
      e := last;
      if Settled(s, userId, deviceId, last) {
        BatchKeepsSettled(s, userId, deviceId, front, now, last);
        SettledIsOnlyAnswered(t, userId, deviceId, last, now);
      }
    }
  }

  /** A batch of settled events changes nothing. */
  lemma {:induction false} SettledBatchIsNoOp(s: Store, userId: string, deviceId: string, order: seq<Event>, now: int)
    requires forall e | e in order :: Settled(s, userId, deviceId, e)
    ensures ProcessBatch(s, userId, deviceId, order, now).0 == s
    ensures var r := ProcessBatch(s, userId, deviceId, order, now).1; r.accepted == [] && !r.failed
  {
    if order != [] {
      var front, last := order[..|order| - 1], order[|order| - 1];
      assert last in order;
      SettledBatchIsNoOp(s, userId, deviceId, front, now);
      SettledIsOnlyAnswered(s, userId, deviceId, last, now);
    }
  }

  // ------------------------------------------------------------ the retry

  /** Screening refused the candidate for its time and for nothing before that. */
  predicate WasLate(site: Site, request: Request, c: Candidate, now: int) {
    c in request.candidates && Screen(site, request, c, now) == Some(TimestampOutOfRange)
  }

  /** Only its time can keep a candidate out now and let it in later. */
  lemma AdmittedLater(site: Site, request: Request, e: Event, now: int, later: int)
    requires e in StableSort(Admitted(site, request, request.candidates, later), EventLeq)
    ensures || e in StableSort(Admitted(site, request, request.candidates, now), EventLeq)
            || exists c :: WasLate(site, request, c, now) && c.event == e
  {
    var before, after := Admitted(site, request, request.candidates, now), Admitted(site, request, request.candidates, later);
    SameMultisetSameMembers(StableSort(after, EventLeq), after);
    SameMultisetSameMembers(StableSort(before, EventLeq), before);
    FlatMapMembers(Admission(site, request, later), request.candidates, e);
    var c :| c in request.candidates && e in Admission(site, request, later)(c);
    FlatMapMembers(Admission(site, request, now), request.candidates, e);
    if Screen(site, request, c, now).Some? {
      ScreenedByTime(site, request, c, now, later);
      assert WasLate(site, request, c, now);
    } else {
      assert e in Admission(site, request, now)(c);
    }
  }

  lemma ScreenedByTime(site: Site, request: Request, c: Candidate, now: int, later: int)
    requires Screen(site, request, c, later).None? && Screen(site, request, c, now).Some?
    ensures Screen(site, request, c, now) == Some(TimestampOutOfRange)
  {
  }

  /** The events of the answered request are settled in every later store, but for the late ones. */
  lemma SettledOrLate(
    s: Store, site: Site, userId: string, request: Request, checks: Checks, now: int, steps: seq<Step>, later: int, e: Event)
    requires Inv(s) && Answer(s, site, userId, request, checks, now).1.Ok?
    requires e in StableSort(Admitted(site, request, request.candidates, later), EventLeq)
    ensures || Settled(Run(Answer(s, site, userId, request, checks, now).0, steps), userId, request.deviceId, e)
            || exists c :: WasLate(site, request, c, now) && c.event == e
  {
    var first := StableSort(Admitted(site, request, request.candidates, now), EventLeq);
    AdmittedLater(site, request, e, now, later);
    if e in first {
      BatchKeepsInv(s, userId, request.deviceId, first, now);
      BatchSettles(s, userId, request.deviceId, first, now, e);
      RunKeepsSettled(ProcessBatch(s, userId, request.deviceId, first, now).0, steps, userId, request.deviceId, e);
    }
  }

  /**
   A request that was answered is sent again at any time, in either direction of the clock,
   after any other transactions. Every row this adds and every id it accepts belongs to a
   candidate the first answer refused for its time. If there was none, nothing changes.
   */
  lemma RetryAddsOnlyTheLate(
    s: Store, site: Site, userId: string, request: Request, checks: Checks, now: int, steps: seq<Step>, again: Checks, later: int)
    requires Inv(s) && Answer(s, site, userId, request, checks, now).1.Ok?
    ensures
      var t := Run(Answer(s, site, userId, request, checks, now).0, steps);
      var (u, a) := Answer(t, site, userId, request, again, later);
      && (forall x | x in u.log && x !in t.log :: exists c :: WasLate(site, request, c, now) && c.event == x.event)
      && (a.Ok? ==> forall id | id in a.value.accepted :: exists c :: WasLate(site, request, c, now) && NameOf(c) == Some(id))
      && ((forall c :: !WasLate(site, request, c, now)) ==> u == t && (a.Ok? ==> a.value.accepted == []))
  {
    var t := Run(Answer(s, site, userId, request, checks, now).0, steps);
    var (u, a) := Answer(t, site, userId, request, again, later);
    var second := StableSort(Admitted(site, request, request.candidates, later), EventLeq);
    var r := ProcessBatch(t, userId, request.deviceId, second, later).1;
    AnswerKeepsInv(s, site, userId, request, checks, now);
    RunKeepsInv(Answer(s, site, userId, request, checks, now).0, steps);
    forall x | x in u.log && x !in t.log ensures exists c :: WasLate(site, request, c, now) && c.event == x.event {
      LoggedWereOpen(t, userId, request.deviceId, second, later, x);
      SettledOrLate(s, site, userId, request, checks, now, steps, later, x.event);
    }
    if a.Ok? {
      forall id | id in a.value.accepted ensures exists c :: WasLate(site, request, c, now) && NameOf(c) == Some(id) {
        var e := AcceptedWereOpen(t, userId, request.deviceId, second, later, id);
        SettledOrLate(s, site, userId, request, checks, now, steps, later, e);
        var c :| WasLate(site, request, c, now) && c.event == e;
      }
    }
    if forall c :: !WasLate(site, request, c, now) {
      forall e | e in second ensures Settled(t, userId, request.deviceId, e) {
        SettledOrLate(s, site, userId, request, checks, now, steps, later, e);
      }
      SettledBatchIsNoOp(t, userId, request.deviceId, second, later);
    }
  }

  lemma AnswerKeepsInv(s: Store, site: Site, userId: string, request: Request, checks: Checks, now: int)
    requires Inv(s)
    ensures Inv(Answer(s, site, userId, request, checks, now).0)
  {
    BatchKeepsInv(s, userId, request.deviceId, StableSort(Admitted(site, request, request.candidates, now), EventLeq), now);
  }

  // ------------------------------------------------------------ a retry that does write

  const SITE := Site("test", "here")
  const CHECKS := Checks(true, true)
  const EARLY := Event(1, "first", SessionStarted, 0, None, "one", None, "vscode", None, None, None)
  const AHEAD := Event(2, "second", SessionStarted, 360_000, None, "two", None, "vscode", None, None, None)

  function Sent(event: Event): Candidate {
    Readable(event, "test", "here", "installation", None, true, false)
  }

  /** One event of now and one six minutes ahead. */
  const REQUEST := Request(Whole(1), None, "here", "installation", "device", [Sent(EARLY), Sent(AHEAD)])

  lemma SampleScreens()
    ensures Screen(SITE, REQUEST, Sent(EARLY), 0) == None && Screen(SITE, REQUEST, Sent(EARLY), 120_000) == None
    ensures Screen(SITE, REQUEST, Sent(AHEAD), 0) == Some(TimestampOutOfRange) && Screen(SITE, REQUEST, Sent(AHEAD), 120_000) == None
  {
  }

  lemma ScreenTwo(site: Site, request: Request, a: Candidate, b: Candidate, now: int)
    ensures Admitted(site, request, [a, b], now) == Admission(site, request, now)(a) + Admission(site, request, now)(b)
    ensures Refused(site, request, [a, b], now) == Refusal(site, request, now)(a) + Refusal(site, request, now)(b)
  {
    assert [a, b] == [] + [a] + [b];
    ScreenMore(site, request, [], a, now);
    ScreenMore(site, request, [] + [a], b, now);
  }

  lemma SampleScreening()
    ensures Admitted(SITE, REQUEST, REQUEST.candidates, 0) == [EARLY]
    ensures Refused(SITE, REQUEST, REQUEST.candidates, 0) == [(Some(2), TimestampOutOfRange)]
    ensures Admitted(SITE, REQUEST, REQUEST.candidates, 120_000) == [EARLY, AHEAD]
    ensures Refused(SITE, REQUEST, REQUEST.candidates, 120_000) == []
  {
    SampleScreens();
    ScreenTwo(SITE, REQUEST, Sent(EARLY), Sent(AHEAD), 0);
    ScreenTwo(SITE, REQUEST, Sent(EARLY), Sent(AHEAD), 120_000);
  }

  lemma SampleSorting()
    ensures StableSort([EARLY], EventLeq) == [EARLY]
    ensures StableSort([EARLY, AHEAD], EventLeq) == [EARLY, AHEAD]
  {
    assert [EARLY, AHEAD][1..] == [AHEAD];
    assert StableSort([AHEAD], EventLeq) == [AHEAD];
  }

  lemma SampleOutcomes()
    ensures
      var t := Ingest(EmptyStore([]), "user", "device", EARLY, 0);
      && Decide(EmptyStore([]), "user", "device", EARLY).Accepted?
      && Decide(t, "user", "device", EARLY).Duplicate? && Decide(t, "user", "device", AHEAD).Accepted?
  {
    var s := EmptyStore([]);
    var t := Ingest(s, "user", "device", EARLY, 0);
    IngestAccepts(s, "user", "device", EARLY, 0);
    assert t.log == [Entry(EARLY, UnitOf(EARLY), 0)] && t.log[1..] == [];
    assert t.sessions.Keys == {"one"};
    assert EARLY.correlationId[0] != AHEAD.correlationId[0] && EARLY.idempotencyKey[0] != AHEAD.idempotencyKey[0];
    assert t.sessions["one"].userId == "user";
  }

  lemma OneIsAccepted(s: Store, a: Event, now: int)
    requires Decide(s, "user", "device", a).Accepted?
    ensures ProcessBatch(s, "user", "device", [a], now) == (Ingest(s, "user", "device", a, now), BatchResult([a.eventId], [], [], false))
  {
    var order := [a];
    assert order[..0] == [] && order[..1] == order;
    ProcessNext(s, "user", "device", order, 0, now);
    assert [] + [a.eventId] == [a.eventId];
  }

  lemma SecondIsAccepted(t: Store, a: Event, b: Event, now: int)
    requires Decide(t, "user", "device", a).Duplicate? && Decide(t, "user", "device", b).Accepted?
    ensures ProcessBatch(t, "user", "device", [a, b], now)
         == (Ingest(t, "user", "device", b, now), BatchResult([b.eventId], [a.eventId], [], false))
  {
    var order := [a, b];
    assert order[..0] == [] && order[..2] == order;
    ProcessNext(t, "user", "device", order, 0, now);
    ProcessNext(t, "user", "device", order, 1, now);
    assert [] + [a.eventId] == [a.eventId] && [] + [b.eventId] == [b.eventId];
  }

  /** The late ones can be stored: two minutes on, the event from the future has come within the window. */
  lemma LateIsStoredOnRetry()
    ensures
      var (t, first) := Answer(EmptyStore([]), SITE, "user", REQUEST, CHECKS, 0);
      var (u, second) := Answer(t, SITE, "user", REQUEST, CHECKS, 120_000);
      && first == Ok(BatchResult([1], [], [(Some(2), TimestampOutOfRange)], false))
      && second == Ok(BatchResult([2], [1], [], false)) && |u.log| == |t.log| + 1
  {
    SampleOutcomes();
    SampleFirst(EmptyStore([]));
    var t := Ingest(EmptyStore([]), "user", "device", EARLY, 0);
    SampleSecond(t);
    IngestAccepts(t, "user", "device", AHEAD, 120_000);
  }

  lemma SampleFirst(s: Store)
    requires Decide(s, "user", "device", EARLY).Accepted?
    ensures Answer(s, SITE, "user", REQUEST, CHECKS, 0)
         == (Ingest(s, "user", "device", EARLY, 0), Ok(BatchResult([1], [], [(Some(2), TimestampOutOfRange)], false)))
  {
    SampleScreening();
    SampleSorting();
    OneIsAccepted(s, EARLY, 0);
    SampleAnswers(s, 0, [EARLY], Ingest(s, "user", "device", EARLY, 0), BatchResult([1], [], [], false));
  }

  lemma SampleSecond(t: Store)
    requires Decide(t, "user", "device", EARLY).Duplicate? && Decide(t, "user", "device", AHEAD).Accepted?
    ensures Answer(t, SITE, "user", REQUEST, CHECKS, 120_000)
         == (Ingest(t, "user", "device", AHEAD, 120_000), Ok(BatchResult([2], [1], [], false)))
  {
    SampleScreening();
    SampleSorting();
    SecondIsAccepted(t, EARLY, AHEAD, 120_000);
    SampleAnswers(t, 120_000, [EARLY, AHEAD], Ingest(t, "user", "device", AHEAD, 120_000), BatchResult([2], [1], [], false));
  }

  lemma SampleAnswers(s: Store, now: int, events: seq<Event>, t: Store, r: BatchResult)
    requires Admitted(SITE, REQUEST, REQUEST.candidates, now) == events && events != [] && StableSort(events, EventLeq) == events
    requires ProcessBatch(s, "user", "device", events, now) == (t, r) && !r.failed && r.rejected == []
    ensures Answer(s, SITE, "user", REQUEST, CHECKS, now)
         == (t, Ok(r.(rejected := Refused(SITE, REQUEST, REQUEST.candidates, now))))
  {
    var refused := Refused(SITE, REQUEST, REQUEST.candidates, now);
    assert refused + [] == refused;
  }
}
