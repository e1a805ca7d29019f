/**
 A batch of delivered events as one request: every candidate is screened, the admitted
 ones are processed in canonical order, and each candidate is acknowledged exactly once.
 */
module AgentBatch {
  import opened Wrappers
  import opened AgentEvents
  import opened AgentStore
  import opened AgentInvariants
  import opened AgentRuns
  import opened Sorting
  import opened Strings
  import opened Decimals

  const PROTOCOL_VERSION: int := 1
  const MAX_BATCH: nat := 100
  const MAX_AGE_MS: int := 7 * 24 * 60 * 60 * 1_000
  const MAX_FUTURE_MS: int := 5 * 60 * 1_000

  datatype RejectionReason =
    | Invalid | ForbiddenPrivacyField | EnvironmentMismatch | InstallationMismatch | DeviceMismatch | TimestampOutOfRange
    | Conflict | AbandonedSessionReason

  /** Rejections name the event by its id, or by nothing when no id could be read. */
  type Rejection = (Option<nat>, RejectionReason)

  datatype BatchResult = BatchResult(accepted: seq<nat>, duplicates: seq<nat>, rejected: seq<Rejection>, failed: bool)

  /** Acknowledge one outcome; a unique violation on the session table is not caught and ends the batch. */
  function Acknowledge(r: BatchResult, eventId: nat, outcome: IngestOutcome): BatchResult {
    match outcome
    case Accepted => r.(accepted := r.accepted + [eventId])
    case Duplicate => r.(duplicates := r.duplicates + [eventId])
    case IdempotencyConflict | ForeignCorrelation => r.(rejected := r.rejected + [(Some(eventId), Conflict)])
    case AbandonedSession => r.(rejected := r.rejected + [(Some(eventId), AbandonedSessionReason)])
    case SessionHashRace => r.(failed := true)
  }

  /** The store and the acknowledgements after the events were processed in this order. */
  function ProcessBatch(s: Store, userId: string, deviceId: string, order: seq<Event>, now: int): (Store, BatchResult) {
    if order == [] then (s, BatchResult([], [], [], false))
    else
      var (t, r) := ProcessBatch(s, userId, deviceId, order[..|order| - 1], now);
      var e := order[|order| - 1];
      if r.failed then (t, r)
      else (Ingest(t, userId, deviceId, e, now), Acknowledge(r, e.eventId, Decide(t, userId, deviceId, e)))
  }

  // ------------------------------------------------------------ screening

  /** One entry of the request: what its parsing, scrubbing and field scan found. */
  datatype Candidate =
    | Unreadable(name: Option<nat>)
    | Readable(
        event: Event, environmentKind: string, environmentId: string, installationId: string, deviceId: Option<string>,
        scrubs: bool, forbidden: bool)

  /** A protocol version as it may be sent: an integer number, a text, or anything else. */
  datatype Version = Whole(n: int) | Digits(s: string) | Other

  function ReadVersion(v: Version): Option<int> {
    match v
    case Whole(n) => Some(n)
    case Digits(s) => if Trim(s) != "" && IsDigits(Trim(s)) then Some(ValueOf(Trim(s))) else None
    case Other => None
  }

  /** `getAgentProtocolCompatibility(...).supported` */
  predicate Supported(v: Version) {
    ReadVersion(v) == Some(PROTOCOL_VERSION)
  }

  /** The batch with the protocol version of its header, if it has that header. */
  datatype Request = Request(
    schemaVersion: Version, header: Option<Version>,
    environmentId: string, installationId: string, deviceId: string, candidates: seq<Candidate>)

  predicate SpeaksProtocol(request: Request) {
    Supported(request.schemaVersion) && (request.header.Some? ==> Supported(request.header.value))
  }

  /** Where the service runs. */
  datatype Site = Site(environmentKind: string, environmentId: string)

  /** What the device lookup and the signature check found. */
  datatype Checks = Checks(secretFound: bool, signatureHolds: bool)

  function NameOf(c: Candidate): Option<nat> {
    match c
    case Unreadable(name) => name
    case Readable(event, _, _, _, _, _, _) => Some(event.eventId)
  }

  /** Why a candidate is refused, if it is; the checks in their order. */
  function Screen(site: Site, request: Request, c: Candidate, now: int): Option<RejectionReason> {
    match c
    case Unreadable(_) => Some(Invalid)
    case Readable(event, kind, environment, installation, device, scrubs, forbidden) =>
      if !scrubs then Some(ForbiddenPrivacyField)
      else if kind != site.environmentKind then Some(EnvironmentMismatch)
      else if environment != site.environmentId then Some(EnvironmentMismatch)
      else if installation != request.installationId then Some(InstallationMismatch)
      else if device.Some? && device.value != "" && device.value != request.deviceId then Some(DeviceMismatch)
      else if event.occurredAt < now - MAX_AGE_MS || event.occurredAt > now + MAX_FUTURE_MS then Some(TimestampOutOfRange)
      else if forbidden then Some(ForbiddenPrivacyField)
      else None
  }

  function Admission(site: Site, request: Request, now: int): Candidate -> seq<Event> {
    (c: Candidate) => if Screen(site, request, c, now).None? then [c.event] else []
  }

  function Refusal(site: Site, request: Request, now: int): Candidate -> seq<Rejection> {
    (c: Candidate) => var reason := Screen(site, request, c, now); if reason.None? then [] else [(NameOf(c), reason.value)]
  }

  function Admitted(site: Site, request: Request, candidates: seq<Candidate>, now: int): seq<Event> {
    FlatMap(Admission(site, request, now), candidates)
  }

  function Refused(site: Site, request: Request, candidates: seq<Candidate>, now: int): seq<Rejection> {
    FlatMap(Refusal(site, request, now), candidates)
  }

  /** The error raised before any event is processed, if any; the checks in their order. */
  function Obstacle(site: Site, request: Request, checks: Checks, noneAdmitted: bool): Option<string> {
    if !SpeaksProtocol(request) then Some("unsupported protocol version")
    else if request.environmentId != site.environmentId then Some("environment mismatch")
    else if |request.candidates| == 0 || |request.candidates| > MAX_BATCH then Some("invalid batch")
    else if noneAdmitted then Some("no valid events")
    else if !checks.secretFound then Some("device secret required")
    else if !checks.signatureHolds then Some("invalid signature")
    else None
  }

  /** `ingestBatch`: the store afterwards, and the acknowledgements or the error raised instead. */
  function Answer(s: Store, site: Site, userId: string, request: Request, checks: Checks, now: int): (Store, Result<BatchResult>) {
    var events := Admitted(site, request, request.candidates, now);
    match Obstacle(site, request, checks, events == [])
    case Some(error) => (s, Err(error))
    case None =>
      Respond(ProcessBatch(s, userId, request.deviceId, StableSort(events, EventLeq), now), Refused(site, request, request.candidates, now))
  }

  /** The answer once the admitted events were processed. */
  function Respond(processed: (Store, BatchResult), refused: seq<Rejection>): (Store, Result<BatchResult>) {
    var (t, r) := processed;
    if r.failed then (t, Err("storage")) else (t, Ok(r.(rejected := refused + r.rejected)))
  }

  lemma ScreenMore(site: Site, request: Request, front: seq<Candidate>, c: Candidate, now: int)
    ensures
      var reason := Screen(site, request, c, now);
      && Admitted(site, request, front + [c], now)
           == (if reason.None? then Admitted(site, request, front, now) + [c.event] else Admitted(site, request, front, now))
      && Refused(site, request, front + [c], now)
           == (if reason.None? then Refused(site, request, front, now)
               else Refused(site, request, front, now) + [(NameOf(c), reason.value)])
  {
    FlatMapMore(Admission(site, request, now), front, c);
    FlatMapMore(Refusal(site, request, now), front, c);
  }

  // ------------------------------------------------------------ the processing loop

  lemma ProcessNext(s: Store, userId: string, deviceId: string, order: seq<Event>, k: nat, now: int)
    requires k < |order| && !ProcessBatch(s, userId, deviceId, order[..k], now).1.failed
    ensures
      var (t, r) := ProcessBatch(s, userId, deviceId, order[..k], now);
      ProcessBatch(s, userId, deviceId, order[..k + 1], now)
        == (Ingest(t, userId, deviceId, order[k], now), Acknowledge(r, order[k].eventId, Decide(t, userId, deviceId, order[k])))
  {
    assert order[..k + 1][..k] == order[..k];
  }

  /** Nothing after a failure is processed. */
  lemma {:induction false} FailureIsFinal(s: Store, userId: string, deviceId: string, order: seq<Event>, k: nat, now: int)
    requires k <= |order| && ProcessBatch(s, userId, deviceId, order[..k], now).1.failed
    ensures ProcessBatch(s, userId, deviceId, order, now) == ProcessBatch(s, userId, deviceId, order[..k], now)
    decreases |order|
  {
    if k < |order| {
      var front := order[..|order| - 1];
      assert front[..k] == order[..k];
      FailureIsFinal(s, userId, deviceId, front, k, now);
    } else {
      assert order[..k] == order;
    }
  }

  /** A batch keeps the store invariant, wherever in it the processing may stop. */
  lemma {:induction false} BatchKeepsInv(s: Store, userId: string, deviceId: string, order: seq<Event>, now: int)
    requires Inv(s)
    ensures Inv(ProcessBatch(s, userId, deviceId, order, now).0)
  {
    if order != [] {
      BatchKeepsInv(s, userId, deviceId, order[..|order| - 1], now);
      var t := ProcessBatch(s, userId, deviceId, order[..|order| - 1], now).0;
      IngestKeepsInv(t, userId, deviceId, order[|order| - 1], now);
    }
  }

  lemma {:induction false} BatchGrowsLog(s: Store, userId: string, deviceId: string, order: seq<Event>, now: int)
    ensures s.log <= ProcessBatch(s, userId, deviceId, order, now).0.log
  {
    if order != [] {
      BatchGrowsLog(s, userId, deviceId, order[..|order| - 1], now);
      var t := ProcessBatch(s, userId, deviceId, order[..|order| - 1], now).0;
      StepGrowsLog(t, IngestStep(userId, deviceId, order[|order| - 1], now));
    }
  }

  // ------------------------------------------------------------ one acknowledgement each

  function Named(ids: seq<nat>): seq<Option<nat>> {
    FlatMap((id: nat) => [Some(id)], ids)
  }

  function Ids(events: seq<Event>): seq<nat> {
    FlatMap((e: Event) => [e.eventId], events)
  }

  function NamesOf(candidates: seq<Candidate>): seq<Option<nat>> {
    FlatMap((c: Candidate) => [NameOf(c)], candidates)
  }

  function RejectedNames(rejected: seq<Rejection>): seq<Option<nat>> {
    FlatMap((r: Rejection) => [r.0], rejected)
  }

  /** Every name the acknowledgements mention, as often as they mention it. */
  function AcknowledgedNames(r: BatchResult): multiset<Option<nat>> {
    multiset(Named(r.accepted)) + multiset(Named(r.duplicates)) + multiset(RejectedNames(r.rejected))
  }

  lemma NamedMore(ids: seq<nat>, id: nat)
    ensures Named(ids + [id]) == Named(ids) + [Some(id)]
  {
    FlatMapMore((id: nat) => [Some(id)], ids, id);
  }

  lemma RejectedMore(rejected: seq<Rejection>, r: Rejection)
    ensures RejectedNames(rejected + [r]) == RejectedNames(rejected) + [r.0]
  {
    FlatMapMore((r: Rejection) => [r.0], rejected, r);
  }

  lemma AcceptOnce(r: BatchResult, id: nat)
    ensures AcknowledgedNames(r.(accepted := r.accepted + [id])) == AcknowledgedNames(r) + multiset{Some(id)}
  {
    NamedMore(r.accepted, id);
  }

  lemma DuplicateOnce(r: BatchResult, id: nat)
    ensures AcknowledgedNames(r.(duplicates := r.duplicates + [id])) == AcknowledgedNames(r) + multiset{Some(id)}
  {
    NamedMore(r.duplicates, id);
  }

  lemma RejectOnce(r: BatchResult, id: nat, reason: RejectionReason)
    ensures AcknowledgedNames(r.(rejected := r.rejected + [(Some(id), reason)])) == AcknowledgedNames(r) + multiset{Some(id)}
  {
    RejectedMore(r.rejected, (Some(id), reason));
  }

  lemma AcknowledgeOnce(r: BatchResult, eventId: nat, outcome: IngestOutcome)
    requires !Acknowledge(r, eventId, outcome).failed
    ensures AcknowledgedNames(Acknowledge(r, eventId, outcome)) == AcknowledgedNames(r) + multiset{Some(eventId)}
  {
    match outcome
    case Accepted => AcceptOnce(r, eventId);
    case Duplicate => DuplicateOnce(r, eventId);
    case AbandonedSession => RejectOnce(r, eventId, AbandonedSessionReason);
    case _ => RejectOnce(r, eventId, Conflict);
  }

  lemma NamesMore(front: seq<Event>, e: Event)
    ensures multiset(Named(Ids(front + [e]))) == multiset(Named(Ids(front))) + multiset{Some(e.eventId)}
  {
    FlatMapMore((e: Event) => [e.eventId], front, e);
    NamedMore(Ids(front), e.eventId);
  }

  /** The acknowledgements name each of the events exactly once. */
  ghost predicate AcknowledgesEach(order: seq<Event>, r: BatchResult) {
    multiset(Named(Ids(order))) == AcknowledgedNames(r)
  }

  lemma AcknowledgeNext(front: seq<Event>, e: Event, r: BatchResult, outcome: IngestOutcome)
    requires AcknowledgesEach(front, r) && !Acknowledge(r, e.eventId, outcome).failed
    ensures AcknowledgesEach(front + [e], Acknowledge(r, e.eventId, outcome))
  {
    NamesMore(front, e);
    AcknowledgeOnce(r, e.eventId, outcome);
  }

  lemma AcknowledgeNone()
    ensures AcknowledgesEach([], BatchResult([], [], [], false))
  {
  }

  /** Processing that does not fail acknowledges every event exactly once. */
  lemma {:induction false} EveryEventAcknowledgedOnce(s: Store, userId: string, deviceId: string, order: seq<Event>, now: int)
    requires !ProcessBatch(s, userId, deviceId, order, now).1.failed
    ensures AcknowledgesEach(order, ProcessBatch(s, userId, deviceId, order, now).1)
  {
    if order == [] {
      AcknowledgeNone();
    } else {
      var front, e := order[..|order| - 1], order[|order| - 1];
      assert order == front + [e];
      var (t, r) := ProcessBatch(s, userId, deviceId, front, now);
      EveryEventAcknowledgedOnce(s, userId, deviceId, front, now);
      AcknowledgeNext(front, e, r, Decide(t, userId, deviceId, e));
    }
  }

  /** These events and rejections together name each candidate exactly once. */
  ghost predicate NameEach(candidates: seq<Candidate>, events: seq<Event>, rejected: seq<Rejection>) {
    multiset(NamesOf(candidates)) == multiset(Named(Ids(events))) + multiset(RejectedNames(rejected))
  }

  ghost predicate ScreenedEach(site: Site, request: Request, candidates: seq<Candidate>, now: int) {
    NameEach(candidates, Admitted(site, request, candidates, now), Refused(site, request, candidates, now))
  }

  lemma {:induction false} ScreenedOnce(site: Site, request: Request, candidates: seq<Candidate>, now: int)
    ensures ScreenedEach(site, request, candidates, now)
  {
    if candidates == [] {
      ScreenedNone(site, request, now);
    } else {
      var front, c := candidates[..|candidates| - 1], candidates[|candidates| - 1];
      assert candidates == front + [c];
      ScreenedOnce(site, request, front, now);
      ScreenedNext(site, request, front, c, now);
    }
  }

  lemma ScreenedNone(site: Site, request: Request, now: int)
    ensures ScreenedEach(site, request, [], now)
  {
  }

  lemma ScreenedNext(site: Site, request: Request, front: seq<Candidate>, c: Candidate, now: int)
    requires ScreenedEach(site, request, front, now)
    ensures ScreenedEach(site, request, front + [c], now)
  {
    var admitted, refused := Admitted(site, request, front, now), Refused(site, request, front, now);
    ScreenMore(site, request, front, c, now);
    var reason := Screen(site, request, c, now);
    if reason.None? {
      AdmittedMore(front, admitted, refused, c);
    } else {
      RefusedMore(front, admitted, refused, c, reason.value);
    }
  }

  lemma AdmittedMore(front: seq<Candidate>, events: seq<Event>, rejected: seq<Rejection>, c: Candidate)
    requires NameEach(front, events, rejected) && c.Readable?
    ensures NameEach(front + [c], events + [c.event], rejected)
  {
    FlatMapMore((c: Candidate) => [NameOf(c)], front, c);
    NamesMore(events, c.event);
  }

  lemma RefusedMore(front: seq<Candidate>, events: seq<Event>, rejected: seq<Rejection>, c: Candidate, reason: RejectionReason)
    requires NameEach(front, events, rejected)
    ensures NameEach(front + [c], events, rejected + [(NameOf(c), reason)])
  {
    FlatMapMore((c: Candidate) => [NameOf(c)], front, c);
    RejectedMore(rejected, (NameOf(c), reason));
  }

  lemma SameEventsSameNames(a: seq<Event>, b: seq<Event>)
    requires multiset(a) == multiset(b)
    ensures multiset(Named(Ids(a))) == multiset(Named(Ids(b)))
  {
    FlatMapForgetsOrder((e: Event) => [e.eventId], a, b);
    FlatMapForgetsOrder((id: nat) => [Some(id)], Ids(a), Ids(b));
  }

  /** A request that is answered names each of its candidates exactly once: accepted, duplicate or rejected. */
  lemma EveryCandidateAcknowledgedOnce(s: Store, site: Site, userId: string, request: Request, checks: Checks, now: int)
    requires Answer(s, site, userId, request, checks, now).1.Ok?
    ensures multiset(NamesOf(request.candidates)) == AcknowledgedNames(Answer(s, site, userId, request, checks, now).1.value)
  {
    var events := Admitted(site, request, request.candidates, now);
    var order := StableSort(events, EventLeq);
    ScreenedOnce(site, request, request.candidates, now);
    EveryEventAcknowledgedOnce(s, userId, request.deviceId, order, now);
    SameEventsSameNames(events, order);
    RefusedFirst(request.candidates, events, order, Refused(site, request, request.candidates, now), ProcessBatch(s, userId, request.deviceId, order, now).1);
  }

  lemma RefusedFirst(candidates: seq<Candidate>, events: seq<Event>, order: seq<Event>, refused: seq<Rejection>, r: BatchResult)
    requires NameEach(candidates, events, refused)
    requires multiset(Named(Ids(events))) == multiset(Named(Ids(order))) && AcknowledgesEach(order, r)
    ensures multiset(NamesOf(candidates)) == AcknowledgedNames(r.(rejected := refused + r.rejected))
  {
    FlatMapConcat((r: Rejection) => [r.0], refused, r.rejected);
  }

  // ------------------------------------------------------------ only screened events are stored

  /** What screening promises about an event that passed it. */
  predicate Passes(site: Site, request: Request, c: Candidate, now: int) {
    && c.Readable? && c.scrubs && !c.forbidden
    && c.environmentKind == site.environmentKind && c.environmentId == site.environmentId == request.environmentId
    && c.installationId == request.installationId && c.deviceId in {None, Some(""), Some(request.deviceId)}
    && now - MAX_AGE_MS <= c.event.occurredAt <= now + MAX_FUTURE_MS
  }

  // Screening read as a condition, for the result below.

  lemma AdmittedPass(site: Site, request: Request, candidates: seq<Candidate>, e: Event, now: int)
    requires request.environmentId == site.environmentId
    ensures e in Admitted(site, request, candidates, now) <==> exists c :: c in candidates && Passes(site, request, c, now) && c.event == e
  {
    FlatMapMembers(Admission(site, request, now), candidates, e);
    forall c ensures e in Admission(site, request, now)(c) <==> Passes(site, request, c, now) && c.event == e {
      ScreenIsPassing(site, request, c, now);
    }
  }

  lemma ScreenIsPassing(site: Site, request: Request, c: Candidate, now: int)
    requires request.environmentId == site.environmentId
    ensures Screen(site, request, c, now).None? <==> Passes(site, request, c, now)
  {
  }

  lemma {:induction false} LoggedAreProcessed(s: Store, userId: string, deviceId: string, order: seq<Event>, now: int, x: Entry)
    requires x in ProcessBatch(s, userId, deviceId, order, now).0.log
    ensures x in s.log || (x.event in order && x.receivedAt == now)
  {
    if order != [] {
      var front, e := order[..|order| - 1], order[|order| - 1];
      var t := ProcessBatch(s, userId, deviceId, front, now).0;
      if x in t.log {
        LoggedAreProcessed(s, userId, deviceId, front, now, x);
      } else {
        IngestAppends(t, userId, deviceId, e, now);
      }
    }
  }

  lemma IngestAppends(s: Store, userId: string, deviceId: string, event: Event, now: int)
    ensures Ingest(s, userId, deviceId, event, now).log in {s.log, s.log + [Entry(event, UnitOf(event), now)]}
  {
    if Decide(s, userId, deviceId, event).Accepted? { IngestAccepts(s, userId, deviceId, event, now); }
  }

  /** Whatever a request adds to the log is one of its own candidates, and passed every check at the time of the request. */
  lemma OnlyScreenedAreStored(s: Store, site: Site, userId: string, request: Request, checks: Checks, now: int, x: Entry)
    requires x in Answer(s, site, userId, request, checks, now).0.log && x !in s.log
    ensures SpeaksProtocol(request) && checks == Checks(true, true) && 1 <= |request.candidates| <= MAX_BATCH
    ensures exists c :: c in request.candidates && Passes(site, request, c, now) && c.event == x.event
  {
    var events := Admitted(site, request, request.candidates, now);
    LoggedAreProcessed(s, userId, request.deviceId, StableSort(events, EventLeq), now, x);
    SameMultisetSameMembers(StableSort(events, EventLeq), events);
    AdmittedPass(site, request, request.candidates, x.event, now);
  }

  // ------------------------------------------------------------ the order of a request

  ghost predicate DistinctIds(candidates: seq<Candidate>) {
    forall c, d | c in candidates && d in candidates && c.Readable? && d.Readable? && c.event != d.event :: c.event.eventId != d.event.eventId
  }

  lemma EventOrderIrrelevant(a: seq<Event>, b: seq<Event>)
    requires multiset(a) == multiset(b)
    requires forall e, f | e in a && f in a && e != f :: e.eventId != f.eventId
    ensures StableSort(a, EventLeq) == StableSort(b, EventLeq)
  {
    forall e, f | e in a && f in a ensures EventLeq(e, f) || EventLeq(f, e) {
      GateAgreesWithQueryOrder(e, f);
    }
    forall e, f | e in a && f in a && EventLeq(e, f) && EventLeq(f, e) ensures e == f {
      GateAgreesWithQueryOrder(e, f);
    }
    SortForgetsOrder(a, b, EventLeq);
  }

  /** One store and, up to the order in which rejections are listed, one answer. */
  predicate SameAnswers(a: (Store, Result<BatchResult>), b: (Store, Result<BatchResult>)) {
    && a.0 == b.0 && a.1.Ok? == b.1.Ok?
    && (a.1.Ok? ==>
          && a.1.value.accepted == b.1.value.accepted && a.1.value.duplicates == b.1.value.duplicates
          && multiset(a.1.value.rejected) == multiset(b.1.value.rejected))
    && (a.1.Err? ==> a.1 == b.1)
  }

  /** The order in which a client lists distinct events changes neither the store nor, up to listing, the answer. */
  lemma BatchOrderIrrelevant(s: Store, site: Site, userId: string, a: Request, b: Request, checks: Checks, now: int)
    requires b == a.(candidates := b.candidates) && multiset(a.candidates) == multiset(b.candidates) && DistinctIds(a.candidates)
    ensures SameAnswers(Answer(s, site, userId, a, checks, now), Answer(s, site, userId, b, checks, now))
  {
    SameMultisetSameMembers(a.candidates, b.candidates);
    ScreenAlike(site, a, b, b.candidates, now);
    FlatMapForgetsOrder(Admission(site, a, now), a.candidates, b.candidates);
    FlatMapForgetsOrder(Refusal(site, a, now), a.candidates, b.candidates);
    AdmittedAreDistinct(site, a, now);
    EventOrderIrrelevant(Admitted(site, a, a.candidates, now), Admitted(site, b, b.candidates, now));
    SameMultisetSameMembers(Admitted(site, a, a.candidates, now), Admitted(site, b, b.candidates, now));
    AnswersAlike(s, site, userId, a, b, checks, now);
  }

  lemma AnswersAlike(s: Store, site: Site, userId: string, a: Request, b: Request, checks: Checks, now: int)
    requires b == a.(candidates := b.candidates) && |a.candidates| == |b.candidates|
    requires |Admitted(site, a, a.candidates, now)| == |Admitted(site, b, b.candidates, now)|
    requires StableSort(Admitted(site, a, a.candidates, now), EventLeq) == StableSort(Admitted(site, b, b.candidates, now), EventLeq)
    requires multiset(Refused(site, a, a.candidates, now)) == multiset(Refused(site, b, b.candidates, now))
    ensures SameAnswers(Answer(s, site, userId, a, checks, now), Answer(s, site, userId, b, checks, now))
  {
    ObstacleAlike(site, a, b, checks, Admitted(site, a, a.candidates, now), Admitted(site, b, b.candidates, now));
    RespondAlike(
      ProcessBatch(s, userId, a.deviceId, StableSort(Admitted(site, a, a.candidates, now), EventLeq), now),
      Refused(site, a, a.candidates, now), Refused(site, b, b.candidates, now));
  }

  lemma ObstacleAlike(site: Site, a: Request, b: Request, checks: Checks, x: seq<Event>, y: seq<Event>)
    requires b == a.(candidates := b.candidates) && |a.candidates| == |b.candidates| && |x| == |y|
    ensures Obstacle(site, a, checks, x == []) == Obstacle(site, b, checks, y == [])
  {
  }

  lemma RespondAlike(processed: (Store, BatchResult), x: seq<Rejection>, y: seq<Rejection>)
    requires multiset(x) == multiset(y)
    ensures SameAnswers(Respond(processed, x), Respond(processed, y))
  {
  }

  lemma AdmittedAreDistinct(site: Site, request: Request, now: int)
    requires DistinctIds(request.candidates)
    ensures var events := Admitted(site, request, request.candidates, now);
            forall e, f | e in events && f in events && e != f :: e.eventId != f.eventId
  {
    var events := Admitted(site, request, request.candidates, now);
    forall e, f | e in events && f in events && e != f ensures e.eventId != f.eventId {
      AdmittedAreListed(site, request, request.candidates, e, now);
      AdmittedAreListed(site, request, request.candidates, f, now);
    }
  }

  lemma {:induction false} ScreenAlike(site: Site, a: Request, b: Request, candidates: seq<Candidate>, now: int)
    requires b == a.(candidates := b.candidates)
    ensures Admitted(site, a, candidates, now) == Admitted(site, b, candidates, now)
    ensures Refused(site, a, candidates, now) == Refused(site, b, candidates, now)
  {
    if candidates != [] { ScreenAlike(site, a, b, candidates[..|candidates| - 1], now); }
  }

  lemma AdmittedAreListed(site: Site, request: Request, candidates: seq<Candidate>, e: Event, now: int)
    requires e in Admitted(site, request, candidates, now)
    ensures exists c :: c in candidates && c.Readable? && c.event == e
  {
    FlatMapMembers(Admission(site, request, now), candidates, e);
    var c :| c in candidates && e in Admission(site, request, now)(c);
  }

  // ------------------------------------------------------------ redelivery

  /** Redelivering processed events acknowledges each as a duplicate and changes nothing. */
  lemma {:induction false} RedeliveryIsAllDuplicates(s: Store, userId: string, deviceId: string, order: seq<Event>, now: int)
    requires Inv(s) && forall e | e in order :: Processed(s, userId, deviceId, e)
    ensures ProcessBatch(s, userId, deviceId, order, now) == (s, BatchResult([], Ids(order), [], false))
  {
    if order != [] {
      var n := |order| - 1;
      var front, e := order[..n], order[n];
      assert e in order && order == front + [e];
      RedeliveryIsAllDuplicates(s, userId, deviceId, front, now);
      ProcessedIsDuplicate(s, userId, deviceId, e);
    } else {
      assert Ids(order) == [];
    }
  }
}
