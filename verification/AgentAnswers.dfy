/**
 What the acknowledgements of a batch tell about the store, and why a candidate or a whole
 request is refused.
 */
module AgentAnswers {
  import opened Wrappers
  import opened AgentEvents
  import opened AgentStore
  import opened AgentInvariants
  import opened AgentRuns
  import opened AgentRows
  import opened AgentBatch
  import opened AgentInterference
  import opened Sorting
  import opened Strings
  import opened Decimals

  // ------------------------------------------------------------ why a candidate is refused

  predicate IsOfSite(site: Site, c: Candidate)
    requires c.Readable?
  {
    c.environmentKind == site.environmentKind && c.environmentId == site.environmentId
  }

  predicate IsOfDevice(request: Request, c: Candidate)
    requires c.Readable?
  {
    c.deviceId == None || c.deviceId == Some("") || c.deviceId == Some(request.deviceId)
  }

  /** Not more than seven days old, not more than five minutes ahead. */
  predicate IsTimely(c: Candidate, now: int)
    requires c.Readable?
  {
    -604_800_000 <= c.event.occurredAt - now <= 300_000
  }

  /** Each reason exactly when its check is the first to fail, and none when all hold. */
  lemma RefusalMeans(site: Site, request: Request, c: Candidate, now: int)
    ensures var reason := Screen(site, request, c, now);
            && (reason == Some(Invalid) <==> c.Unreadable?)
            && (reason == Some(EnvironmentMismatch) <==> c.Readable? && c.scrubs && !IsOfSite(site, c))
            && (reason == Some(InstallationMismatch) <==>
                  c.Readable? && c.scrubs && IsOfSite(site, c) && c.installationId != request.installationId)
            && (reason == Some(DeviceMismatch) <==>
                  c.Readable? && c.scrubs && IsOfSite(site, c) && c.installationId == request.installationId && !IsOfDevice(request, c))
            && (reason == Some(TimestampOutOfRange) <==>
                  && c.Readable? && c.scrubs && IsOfSite(site, c) && c.installationId == request.installationId
                  && IsOfDevice(request, c) && !IsTimely(c, now))
            && (reason == Some(ForbiddenPrivacyField) <==>
                  && c.Readable?
                  && (!c.scrubs || (IsOfSite(site, c) && c.installationId == request.installationId && IsOfDevice(request, c)
                                    && IsTimely(c, now) && c.forbidden)))
            && (reason == None <==>
                  && c.Readable? && c.scrubs && IsOfSite(site, c) && c.installationId == request.installationId
                  && IsOfDevice(request, c) && IsTimely(c, now) && !c.forbidden)
  {
  }

  /** Refusals carry the name the candidate claims, or its event's id, and the reason. */
  lemma RefusedAre(site: Site, request: Request, candidates: seq<Candidate>, now: int, name: Option<nat>, reason: RejectionReason)
    ensures (name, reason) in Refused(site, request, candidates, now) <==>
              exists c :: c in candidates && Screen(site, request, c, now) == Some(reason)
                          && name == (if c.Readable? then Some(c.event.eventId) else c.name)
  {
    FlatMapMembers(Refusal(site, request, now), candidates, (name, reason));
    forall c ensures (name, reason) in Refusal(site, request, now)(c) <==>
                       Screen(site, request, c, now) == Some(reason) && name == (if c.Readable? then Some(c.event.eventId) else c.name)
    {
    }
  }

  // ------------------------------------------------------------ why a request is refused

  lemma {:induction false} OneReads(s: string)
    requires IsDigits(s)
    ensures ValueOf(s) >= 0
    ensures ValueOf(s) == 0 <==> s == Zeros(|s|)
    ensures ValueOf(s) == 1 <==> s != "" && s == Zeros(|s| - 1) + "1"
  {
    if s != "" {
      var front := s[..|s| - 1];
      OneReads(front);
      assert s == front + [s[|s| - 1]];
      assert Zeros(|s|) == Zeros(|s| - 1) + "0";
      assert (Zeros(|s| - 1) + "1")[..|s| - 1] == Zeros(|s| - 1);
    }
  }

  /** The protocol version is the number one, or text of digits worth one, blanks around it ignored. */
  lemma SupportedAre(v: Version)
    ensures Supported(v) <==> v == Whole(1) || (v.Digits? && exists n: nat :: Trim(v.s) == Zeros(n) + "1")
  {
    if v.Digits? {
      var text := Trim(v.s);
      if IsDigits(text) { OneReads(text); }
      if n: nat :| text == Zeros(n) + "1" {
        assert IsDigits(text) && |text| == n + 1;
      }
    }
  }

  /** A request is processed exactly when it speaks the protocol here, has 1 to 100 candidates of which one is admitted, and is signed by a known device. */
  lemma ProcessedIff(site: Site, request: Request, checks: Checks, noneAdmitted: bool)
    ensures Obstacle(site, request, checks, noneAdmitted).None? <==>
              && Supported(request.schemaVersion) && (request.header.Some? ==> Supported(request.header.value))
              && request.environmentId == site.environmentId && 1 <= |request.candidates| <= 100 && !noneAdmitted
              && checks.secretFound && checks.signatureHolds
    ensures Obstacle(site, request, checks, noneAdmitted).Some? ==>
              forall s, userId, now | noneAdmitted == (Admitted(site, request, request.candidates, now) == []) ::
                Answer(s, site, userId, request, checks, now) == (s, Err(Obstacle(site, request, checks, noneAdmitted).value))
  {
  }

  predicate Speaks(request: Request) {
    Supported(request.schemaVersion) && (request.header.Some? ==> Supported(request.header.value))
  }

  /** Which complaint is raised: each exactly when what it names is wrong and all that is looked at before is right. */
  lemma ComplaintsAre(site: Site, request: Request, checks: Checks, noneAdmitted: bool)
    ensures var complaint := Obstacle(site, request, checks, noneAdmitted);
            var here := Speaks(request) && request.environmentId == site.environmentId;
            var sized := here && 1 <= |request.candidates| <= 100;
            && (complaint == Some("unsupported protocol version") <==> !Speaks(request))
            && (complaint == Some("environment mismatch") <==> Speaks(request) && request.environmentId != site.environmentId)
            && (complaint == Some("invalid batch") <==> here && !(1 <= |request.candidates| <= 100))
            && (complaint == Some("no valid events") <==> sized && noneAdmitted)
            && (complaint == Some("device secret required") <==> sized && !noneAdmitted && !checks.secretFound)
            && (complaint == Some("invalid signature") <==>
                  sized && !noneAdmitted && checks.secretFound && !checks.signatureHolds)
  {
    var texts := [
      "unsupported protocol version", "environment mismatch", "invalid batch", "no valid events", "device secret required",
      "invalid signature"];
    assert forall i | 0 <= i < |texts| :: |texts[i]| == [28, 20, 13, 15, 22, 17][i];
  }

  // ------------------------------------------------------------ what the acknowledgements tell

  /** The session of the event belongs to another sender or provider. */
  predicate IsForeign(s: Store, userId: string, deviceId: string, event: Event) {
    event.correlationId in s.sessions &&
      var session := s.sessions[event.correlationId];
      session.userId != userId || session.deviceId != deviceId || session.provider != event.provider
  }

  /** What a rejection says of the event. */
  ghost predicate IsRightly(s: Store, userId: string, deviceId: string, event: Event, reason: RejectionReason) {
    match reason
    case Conflict => (Clashes(s, event) && !IsKnown(s, userId, deviceId, event)) || IsForeign(s, userId, deviceId, event)
    case AbandonedSessionReason => event.correlationId in s.sessions && s.sessions[event.correlationId].status == Abandoned
    case _ => false
  }

  /** The acknowledgements tell the truth about this store, the log having grown by the accepted events in order. */
  ghost predicate TellsTruth(s: Store, t: Store, r: BatchResult, userId: string, deviceId: string, order: seq<Event>, now: int) {
    && |t.log| == |s.log| + |r.accepted| && s.log <= t.log
    && (forall i | 0 <= i < |r.accepted| ::
          var row := t.log[|s.log| + i]; row.event.eventId == r.accepted[i] && row.event in order && row.receivedAt == now)
    && (forall id | id in r.duplicates :: exists e :: e in order && e.eventId == id && IsKnown(t, userId, deviceId, e))
    && (forall x | x in r.rejected :: exists e :: e in order && x.0 == Some(e.eventId) && IsRightly(t, userId, deviceId, e, x.1))
  }

  lemma KnownStays(s: Store, step: Step, userId: string, deviceId: string, event: Event)
    requires IsKnown(s, userId, deviceId, event)
    ensures IsKnown(Apply(s, step), userId, deviceId, event)
  {
    StepGrowsLog(s, step);
    var x :| x in s.log && x.event.eventId == event.eventId && x.event.idempotencyKey == event.idempotencyKey
      && x.event.correlationId in s.sessions
      && s.sessions[x.event.correlationId].userId == userId && s.sessions[x.event.correlationId].deviceId == deviceId;
    assert x in Apply(s, step).log;
  }

  lemma ConflictStays(s: Store, step: Step, userId: string, deviceId: string, event: Event)
    requires Inv(s) && Clashes(s, event) && !IsKnown(s, userId, deviceId, event)
    ensures Clashes(Apply(s, step), event) && !IsKnown(Apply(s, step), userId, deviceId, event)
  {
    var t := Apply(s, step);
    StepGrowsLog(s, step);
    StepKeepsInv(s, step);
    var x :| x in s.log && (x.event.eventId == event.eventId || x.event.idempotencyKey == event.idempotencyKey);
    assert x in t.log;
    if IsKnown(t, userId, deviceId, event) {
      var y :| y in t.log && y.event.eventId == event.eventId && y.event.idempotencyKey == event.idempotencyKey
        && y.event.correlationId in t.sessions
        && t.sessions[y.event.correlationId].userId == userId && t.sessions[y.event.correlationId].deviceId == deviceId;
      SameRow(t, x, y);
      OwnerOfRow(s, t, x);
    }
  }

  lemma OwnerOfRow(s: Store, t: Store, x: Entry)
    requires Inv(s) && x in s.log && x.event.correlationId in t.sessions
    ensures x.event.correlationId in s.sessions
  {
  }

  lemma SameRow(s: Store, x: Entry, y: Entry)
    requires Inv(s) && x in s.log && y in s.log
    requires x.event.eventId == y.event.eventId || x.event.idempotencyKey == y.event.idempotencyKey
    ensures x == y
  {
    var i :| 0 <= i < |s.log| && s.log[i] == x;
    var j :| 0 <= j < |s.log| && s.log[j] == y;
    assert i == j;
  }

  lemma ForeignStays(s: Store, step: Step, userId: string, deviceId: string, event: Event)
    requires IsForeign(s, userId, deviceId, event)
    ensures IsForeign(Apply(s, step), userId, deviceId, event)
  {
    StepGrowsLog(s, step);
    if step.IngestStep? && Decide(s, step.userId, step.deviceId, step.event).Accepted? {
      IngestAccepts(s, step.userId, step.deviceId, step.event, step.at);
    }
  }

  lemma RightlyStays(s: Store, step: Step, userId: string, deviceId: string, event: Event, reason: RejectionReason)
    requires Inv(s) && IsRightly(s, userId, deviceId, event, reason)
    ensures IsRightly(Apply(s, step), userId, deviceId, event, reason)
  {
    if reason.Conflict? {
      if IsForeign(s, userId, deviceId, event) { ForeignStays(s, step, userId, deviceId, event); }
      else { ConflictStays(s, step, userId, deviceId, event); }
    } else {
      StepKeepsAbandoned(s, step, event.correlationId);
    }
  }

  /** One more event keeps the acknowledgements true. */
  lemma TruthStays(
    s: Store, t: Store, r: BatchResult, userId: string, deviceId: string, front: seq<Event>, e: Event, now: int)
    requires Inv(t) && TellsTruth(s, t, r, userId, deviceId, front, now)
    requires !Acknowledge(r, e.eventId, Decide(t, userId, deviceId, e)).failed
    ensures TellsTruth(
              s, Ingest(t, userId, deviceId, e, now), Acknowledge(r, e.eventId, Decide(t, userId, deviceId, e)),
              userId, deviceId, front + [e], now)
  {
    var u, q := Ingest(t, userId, deviceId, e, now), Acknowledge(r, e.eventId, Decide(t, userId, deviceId, e));
    var step := IngestStep(userId, deviceId, e, now);
    StepGrowsLog(t, step);
    LogGrowsByAccepted(s, t, r, userId, deviceId, front, e, now);
    forall id | id in q.duplicates ensures exists x :: x in front + [e] && x.eventId == id && IsKnown(u, userId, deviceId, x) {
      DuplicatesStayTrue(s, t, r, userId, deviceId, front, e, now, id);
    }
    forall y | y in q.rejected ensures exists x :: x in front + [e] && y.0 == Some(x.eventId) && IsRightly(u, userId, deviceId, x, y.1) {
      RejectionsStayTrue(s, t, r, userId, deviceId, front, e, now, y);
    }
  }

  lemma LogGrowsByAccepted(
    s: Store, t: Store, r: BatchResult, userId: string, deviceId: string, front: seq<Event>, e: Event, now: int)
    requires TellsTruth(s, t, r, userId, deviceId, front, now)
    ensures
      var u, q := Ingest(t, userId, deviceId, e, now), Acknowledge(r, e.eventId, Decide(t, userId, deviceId, e));
      && |u.log| == |s.log| + |q.accepted| && s.log <= u.log
      && forall i | 0 <= i < |q.accepted| ::
           var row := u.log[|s.log| + i]; row.event.eventId == q.accepted[i] && row.event in front + [e] && row.receivedAt == now
  {
    var u, q := Ingest(t, userId, deviceId, e, now), Acknowledge(r, e.eventId, Decide(t, userId, deviceId, e));
    if Decide(t, userId, deviceId, e).Accepted? {
      AcceptedLogRow(t, userId, deviceId, e, now);
      forall i | 0 <= i < |q.accepted|
        ensures var row := u.log[|s.log| + i]; row.event.eventId == q.accepted[i] && row.event in front + [e] && row.receivedAt == now
      {
        if i < |r.accepted| {
          assert u.log[|s.log| + i] == u.log[..|t.log|][|s.log| + i];
        }
      }
    }
  }

  lemma DuplicatesStayTrue(
    s: Store, t: Store, r: BatchResult, userId: string, deviceId: string, front: seq<Event>, e: Event, now: int, id: nat)
    requires Inv(t) && TellsTruth(s, t, r, userId, deviceId, front, now)
    requires id in Acknowledge(r, e.eventId, Decide(t, userId, deviceId, e)).duplicates
    ensures exists x :: x in front + [e] && x.eventId == id && IsKnown(Ingest(t, userId, deviceId, e, now), userId, deviceId, x)
  {
    var step := IngestStep(userId, deviceId, e, now);
    if id in r.duplicates {
      var x :| x in front && x.eventId == id && IsKnown(t, userId, deviceId, x);
      KnownStays(t, step, userId, deviceId, x);
      assert x in front + [e];
    } else {
      OutcomeMeans(t, userId, deviceId, e);
      KnownStays(t, step, userId, deviceId, e);
      assert e in front + [e];
    }
  }

  lemma RejectionsStayTrue(
    s: Store, t: Store, r: BatchResult, userId: string, deviceId: string, front: seq<Event>, e: Event, now: int, y: Rejection)
    requires Inv(t) && TellsTruth(s, t, r, userId, deviceId, front, now)
    requires y in Acknowledge(r, e.eventId, Decide(t, userId, deviceId, e)).rejected
    ensures exists x :: x in front + [e] && y.0 == Some(x.eventId)
                        && IsRightly(Ingest(t, userId, deviceId, e, now), userId, deviceId, x, y.1)
  {
    var step := IngestStep(userId, deviceId, e, now);
    if y in r.rejected {
      var x :| x in front && y.0 == Some(x.eventId) && IsRightly(t, userId, deviceId, x, y.1);
      RightlyStays(t, step, userId, deviceId, x, y.1);
      assert x in front + [e];
    } else {
      OutcomeMeans(t, userId, deviceId, e);
      RightlyStays(t, step, userId, deviceId, e, y.1);
      assert e in front + [e];
    }
  }

  /**
   Processing that does not fail answers truthfully, told from the store it leaves behind:
   the accepted ids are those of the new rows in order, duplicates are known, what conflicts
   clashes with a row that is not the sender's own or is of a foreign session, and what is
   refused as abandoned is.
   */
  lemma {:induction false} AnswersAreTrue(s: Store, userId: string, deviceId: string, order: seq<Event>, now: int)
    requires Inv(s) && !ProcessBatch(s, userId, deviceId, order, now).1.failed
    ensures TellsTruth(
              s, ProcessBatch(s, userId, deviceId, order, now).0, ProcessBatch(s, userId, deviceId, order, now).1,
              userId, deviceId, order, now)
  {
    if order != [] {
      var front, e := order[..|order| - 1], order[|order| - 1];
      var (t, r) := ProcessBatch(s, userId, deviceId, front, now);
      assert order == front + [e];
      AnswersAreTrue(s, userId, deviceId, front, now);
      BatchKeepsInv(s, userId, deviceId, front, now);
      TruthStays(s, t, r, userId, deviceId, front, e, now);
    }
  }

  // ------------------------------------------------------------ amid other transactions

  /** Nothing stands against the event in this store. */
  ghost predicate Admits(s: Store, userId: string, deviceId: string, event: Event) {
    && !Clashes(s, event) && !IsForeign(s, userId, deviceId, event)
    && (if event.correlationId in s.sessions then s.sessions[event.correlationId].status != Abandoned
        else !HashIsUsed(s, userId, deviceId, event))
  }

  lemma AcceptedIff(s: Store, userId: string, deviceId: string, event: Event)
    requires Inv(s)
    ensures Decide(s, userId, deviceId, event).Accepted? <==> Admits(s, userId, deviceId, event)
    ensures Decide(s, userId, deviceId, event).SessionHashRace? ==> !Clashes(s, event)
  {
    OutcomeMeans(s, userId, deviceId, event);
  }

  /**
   What a transaction amid others answers: it accepts when nothing stands against the event
   both when it reads and when it writes. When something has come to stand against it in
   between, it is a duplicate if the event is its sender's own in the store looked at
   afterwards, and fails otherwise.
   */
  lemma TurnAnswers(s: Store, userId: string, deviceId: string, turn: Turn, now: int)
    requires Inv(s)
    ensures var (u, d) := TakeTurn(s, userId, deviceId, turn, now);
            var t, e := Run(s, turn.during), turn.event;
            && (d.Accepted? <==> Admits(s, userId, deviceId, e) && Admits(t, userId, deviceId, e))
            && (Admits(s, userId, deviceId, e) && !Admits(t, userId, deviceId, e) ==>
                  if IsKnown(u, userId, deviceId, e) then d.Duplicate? else d.SessionHashRace?)
            && (Clashes(s, e) ==> if IsKnown(s, userId, deviceId, e) then d.Duplicate? else d.IdempotencyConflict?)
            && (!Clashes(s, e) && IsForeign(s, userId, deviceId, e) ==> d.ForeignCorrelation?)
  {
    var t, u := Run(s, turn.during), TakeTurn(s, userId, deviceId, turn, now).0;
    RunKeepsInv(s, turn.during);
    TurnKeepsInv(s, userId, deviceId, turn, now);
    AcceptedIff(s, userId, deviceId, turn.event);
    AcceptedIff(t, userId, deviceId, turn.event);
    OutcomeMeans(s, userId, deviceId, turn.event);
    OutcomeMeans(u, userId, deviceId, turn.event);
  }

  /** The events of a batch are processed in order of time, then number with none last, then id. */
  lemma ProcessedInOrder(events: seq<Event>, i: int, j: int)
    requires 0 <= i < j < |StableSort(events, EventLeq)|
    ensures !LiesAfter(StableSort(events, EventLeq)[i], StableSort(events, EventLeq)[j])
  {
    forall a, b | a in events && b in events ensures EventLeq(a, b) || EventLeq(b, a) {
      GateAgreesWithQueryOrder(a, b);
    }
    StableSortSorted(events, EventLeq);
    var sorted := StableSort(events, EventLeq);
    assert EventLeq(sorted[i], sorted[j]);
    GateIsNotAfter(sorted[j], sorted[i]);
  }
}
