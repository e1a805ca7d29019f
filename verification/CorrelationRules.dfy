/**
 The rules of the session cache told from events and sessions alone: which session an event
 belongs to, what it makes of it, and what leaves the cache.
 */
module CorrelationRules {
  import opened Wrappers
  import opened Strings
  import opened Correlation

  // ------------------------------------------------------------ what an event says

  /** Hooks and plugins outrank wrappers, those observations, those guesses. */
  predicate Outranks(a: IntegrationMode, b: IntegrationMode) {
    match a
    case NativeHook | NativePlugin => b in {Wrapper, VscodeObservation, HeuristicShadow}
    case Wrapper => b in {VscodeObservation, HeuristicShadow}
    case VscodeObservation => b == HeuristicShadow
    case HeuristicShadow => false
  }

  lemma PrioritiesRank(a: IntegrationMode, b: IntegrationMode)
    ensures SourcePriority(a) > SourcePriority(b) <==> Outranks(a, b)
    ensures 0 <= SourcePriority(a) <= 3
  {
  }

  /** The six statuses by the events that announce them. */
  lemma StatusesAre(t: string)
    ensures StatusForEvent(t) == WaitingForInput <==> t in {"input.required", "permission.required"}
    ensures StatusForEvent(t) == Completed <==> t in {"turn.completed", "task.completed"}
    ensures StatusForEvent(t) == Failed <==> t in {"turn.failed", "task.failed"}
    ensures StatusForEvent(t) == Cancelled <==> t == "turn.cancelled"
    ensures StatusForEvent(t) == Ended <==> t == "session.ended"
  {
  }

  /** An identity within installation, device and family of the event. */
  predicate IsKeyOf(key: string, e: Event, identity: string) {
    var device := if e.deviceId.Some? then e.deviceId.value else "";
    var family := if e.executableFamily.Some? then e.executableFamily.value else e.provider;
    key == e.installationId + ":" + device + ":" + family + ":" + identity
  }

  lemma KeysAre(e: Event, identity: string)
    ensures IsKeyOf(ScopedKey(e, identity), e, identity)
    ensures IsKeyOf(KeyFor(e), e, if e.providerSessionHash.Some? then e.providerSessionHash.value else e.correlationId)
  {
  }

  // ------------------------------------------------------------ which session

  /** The session is filed under the event's session hash. */
  predicate ByHash(s: Session, e: Event) {
    e.providerSessionHash.Some? && e.providerSessionHash.value != "" && IsKeyOf(s.key, e, e.providerSessionHash.value)
  }

  predicate ByCorrelation(s: Session, e: Event) {
    e.correlationId != "" && IsKeyOf(s.key, e, e.correlationId)
  }

  /** Open, of the same installation and family, of no other device, and heard of within five minutes of the event. */
  predicate Nearby(s: Session, e: Event, parse: Parser) {
    && s.status in {Active, WaitingForInput, Completed}
    && s.installationId == e.installationId
    && (s.deviceId in {None, Some("")} || e.deviceId in {None, Some("")} || s.deviceId == e.deviceId)
    && s.providerFamily == (if e.executableFamily.Some? then e.executableFamily.value else e.provider)
    && parse(e.occurredAt).Some? && parse(s.lastOccurredAt).Some?
    && -300_000 <= parse(e.occurredAt).value - parse(s.lastOccurredAt).value <= 300_000
  }

  /** The event belongs to the session: by its hash, else by its correlation, else, without a hash, as the only one nearby. */
  ghost predicate BelongsTo(sessions: seq<Session>, e: Event, s: Session, parse: Parser) {
    && s in sessions
    && if exists x :: x in sessions && ByHash(x, e) then ByHash(s, e)
       else if exists x :: x in sessions && ByCorrelation(x, e) then ByCorrelation(s, e)
       else e.providerSessionHash in {None, Some("")} && Nearby(s, e, parse) && forall x | x in sessions && Nearby(x, e, parse) :: x == s
  }

  lemma FoundBy(sessions: seq<Session>, key: string)
    requires DistinctSessions(sessions)
    ensures match Find(sessions, key)
            case None => forall x | x in sessions :: x.key != key
            case Some(s) => s in sessions && s.key == key && forall x | x in sessions && x.key == key :: x == s
  {
    if Find(sessions, key).Some? {
      var s := Find(sessions, key).value;
      forall x | x in sessions && x.key == key ensures x == s {
        ResolvedIsFound(sessions, x);
      }
    }
  }

  lemma CandidateIsNearby(s: Session, e: Event, parse: Parser)
    requires parse(e.occurredAt).Some?
    ensures IsCandidate(s, e, parse(e.occurredAt).value, parse) <==> Nearby(s, e, parse)
  {
  }

  lemma {:induction false} CandidatesOnce(sessions: seq<Session>, e: Event, at: int, parse: Parser)
    requires DistinctSessions(sessions)
    ensures forall i, j | 0 <= i < j < |Candidates(sessions, e, at, parse)| ::
              Candidates(sessions, e, at, parse)[i] != Candidates(sessions, e, at, parse)[j]
  {
    if sessions != [] {
      var n := |sessions| - 1;
      CandidatesOnce(sessions[..n], e, at, parse);
      var before := Candidates(sessions[..n], e, at, parse);
      forall i | 0 <= i < |before| ensures before[i] != sessions[n] {
        assert before[i] in before && before[i] in sessions[..n];
      }
    }
  }

  lemma TwoDiffer(list: seq<Session>)
    requires forall i, j | 0 <= i < j < |list| :: list[i] != list[j]
    ensures |list| > 1 ==> list[0] in list && list[1] in list && list[0] != list[1]
  {
  }

  lemma OnlyOne(list: seq<Session>, s: Session)
    requires forall i, j | 0 <= i < j < |list| :: list[i] != list[j]
    ensures list == [s] <==> s in list && forall x | x in list :: x == s
  {
    if s in list && forall x | x in list :: x == s {
      TwoDiffer(list);
      assert list[0] in list;
    }
  }

  lemma NearbyAlone(sessions: seq<Session>, e: Event, s: Session, parse: Parser)
    requires DistinctSessions(sessions) && parse(e.occurredAt).Some?
    ensures Candidates(sessions, e, parse(e.occurredAt).value, parse) == [s] <==>
              s in sessions && Nearby(s, e, parse) && forall x | x in sessions && Nearby(x, e, parse) :: x == s
  {
    var list := Candidates(sessions, e, parse(e.occurredAt).value, parse);
    CandidatesOnce(sessions, e, parse(e.occurredAt).value, parse);
    OnlyOne(list, s);
    forall x ensures IsCandidate(x, e, parse(e.occurredAt).value, parse) <==> Nearby(x, e, parse) {
      CandidateIsNearby(x, e, parse);
    }
  }

  /** The search finds exactly the session an event belongs to. */
  lemma ResolveMeans(sessions: seq<Session>, e: Event, s: Session, parse: Parser)
    requires DistinctSessions(sessions)
    ensures Resolve(sessions, e, parse) == Some(s) <==> BelongsTo(sessions, e, s, parse)
  {
    if Truthy(e.providerSessionHash) { FoundBy(sessions, ScopedKey(e, e.providerSessionHash.value)); }
    if e.correlationId != "" { FoundBy(sessions, ScopedKey(e, e.correlationId)); }
    if parse(e.occurredAt).Some? { NearbyAlone(sessions, e, s, parse); }
  }

  // ------------------------------------------------------------ what becomes of it

  /** A session created for an event is all the event says. */
  lemma CreatedIs(key: string, e: Event)
    ensures var s := Create(key, e);
            && s.key == key && s.installationId == e.installationId && s.provider == e.provider && s.integrationMode == e.integrationMode
            && s.deviceId == (if e.deviceId == Some("") then None else e.deviceId)
            && s.providerFamily == (if e.executableFamily.Some? then e.executableFamily.value else e.provider)
            && s.sourcePriority == SourcePriority(e.integrationMode) && s.status == StatusForEvent(e.eventType)
            && s.lastEventId == e.eventId && s.lastOccurredAt == e.occurredAt && s.lastSequence == e.sequence && s.eventCount == 1
  {
  }

  /** The event is newer: by number, then text of its time, then id, where both are numbered; otherwise not earlier in time. */
  predicate Newer(e: Event, s: Session, parse: Parser) {
    match (e.sequence, s.lastSequence)
    case (Some(m), Some(n)) =>
      || m > n
      || (m == n && e.occurredAt != s.lastOccurredAt && StrLeq(s.lastOccurredAt, e.occurredAt))
      || (m == n && e.occurredAt == s.lastOccurredAt && e.eventId != s.lastEventId && StrLeq(s.lastEventId, e.eventId))
    case _ =>
      match (parse(e.occurredAt), parse(s.lastOccurredAt))
      case (Some(t), Some(u)) => t >= u
      case (Some(_), None) => true
      case (None, _) => false
  }

  /**
   What an event does to its session. One of a weaker source is counted. Any other names
   source, provider and family, and if newer also status and last event. Key, installation
   and device never change, and the priority is the greatest so far.
   */
  lemma MergedIs(s: Session, e: Event, parse: Parser)
    ensures
      var r, p := Merge(s, e, parse), SourcePriority(e.integrationMode);
      && r.key == s.key && r.installationId == s.installationId && r.deviceId == s.deviceId && r.eventCount == s.eventCount + 1
      && r.sourcePriority >= s.sourcePriority && r.sourcePriority >= p && r.sourcePriority in {s.sourcePriority, p}
      && (if p < s.sourcePriority
          then r.provider == s.provider && r.providerFamily == s.providerFamily && r.integrationMode == s.integrationMode
          else r.provider == e.provider && r.integrationMode == e.integrationMode
               && r.providerFamily == (if e.executableFamily.Some? then e.executableFamily.value else e.provider))
      && (if p >= s.sourcePriority && Newer(e, s, parse)
          then r.status == StatusForEvent(e.eventType) && r.lastEventId == e.eventId && r.lastOccurredAt == e.occurredAt
               && r.lastSequence == (if e.sequence.Some? then e.sequence else s.lastSequence)
          else r.status == s.status && r.lastEventId == s.lastEventId && r.lastOccurredAt == s.lastOccurredAt
               && r.lastSequence == s.lastSequence)
  {
  }

  // ------------------------------------------------------------ what the cache holds

  /** A session keeps its place; a new one is last. */
  lemma {:induction false} PutKeepsPlaces(sessions: seq<Session>, s: Session)
    requires DistinctSessions(sessions)
    ensures if exists i :: 0 <= i < |sessions| && sessions[i].key == s.key
            then forall i | 0 <= i < |sessions| && sessions[i].key == s.key :: Put(sessions, s) == sessions[i := s]
            else Put(sessions, s) == sessions + [s]
  {
    if sessions != [] {
      assert sessions == [sessions[0]] + sessions[1..];
      if sessions[0].key == s.key {
        assert [s] + sessions[1..] == sessions[0 := s];
        forall i | 0 < i < |sessions| ensures sessions[i].key != s.key {
          assert sessions[0].key != sessions[i].key;
        }
      } else {
        PutKeepsPlaces(sessions[1..], s);
        forall i | 0 <= i < |sessions| && sessions[i].key == s.key ensures Put(sessions, s) == sessions[i := s] {
          assert sessions[1..][i - 1].key == s.key;
          assert [sessions[0]] + sessions[1..][i - 1 := s] == sessions[i := s];
        }
        if forall i | 0 <= i < |sessions| :: sessions[i].key != s.key {
          assert forall i | 0 <= i < |sessions[1..]| :: sessions[1..][i].key != s.key;
          assert Put(sessions, s) == [sessions[0]] + (sessions[1..] + [s]);
        }
      }
    }
  }

  /** What remains are the last ones, as many as the limit allows; the others leave in front. */
  lemma KeptAreLast<T>(s: seq<T>, limit: nat)
    ensures exists gone :: s == gone + Drop(s, limit) && (gone != [] ==> |Drop(s, limit)| == limit)
    ensures |Drop(s, limit)| <= limit
  {
    assert s == s[..|s| - |Drop(s, limit)|] + Drop(s, limit);
  }

  /**
   An accepted event goes to the session it belongs to, or to a new one that is filed last
   under its hash or, without one, its correlation; of more than 256 the first leave. Its id
   is remembered, of more than 2000 the first are forgotten. A remembered event changes
   nothing.
   */
  lemma AcceptedIs(c: Cache, e: Event, parse: Parser)
    requires Inv(c)
    ensures e.eventId in c.seen ==> Accept(c, e, parse) == c
    ensures e.eventId !in c.seen ==>
              var r := Accept(c, e, parse);
              && r.seen == Drop(c.seen + [e.eventId], 2_000)
              && (forall i | 0 <= i < |c.sessions| && BelongsTo(c.sessions, e, c.sessions[i], parse) ::
                    r.sessions == c.sessions[i := Merge(c.sessions[i], e, parse)])
              && ((forall s | s in c.sessions :: !BelongsTo(c.sessions, e, s, parse)) && HasIdentity(e) ==>
                    r.sessions == Drop(c.sessions + [Create(KeyFor(e), e)], 256))
  {
    if e.eventId !in c.seen {
      var stored := Stored(c.sessions, e, parse);
      PutKeepsPlaces(c.sessions, stored);
      forall i | 0 <= i < |c.sessions| && BelongsTo(c.sessions, e, c.sessions[i], parse)
        ensures Accept(c, e, parse).sessions == c.sessions[i := Merge(c.sessions[i], e, parse)]
      {
        ResolveMeans(c.sessions, e, c.sessions[i], parse);
      }
      if forall s | s in c.sessions :: !BelongsTo(c.sessions, e, s, parse) {
        var resolved := Resolve(c.sessions, e, parse);
        if resolved.Some? { ResolveMeans(c.sessions, e, resolved.value, parse); }
        if HasIdentity(e) {
          CreationIsFresh(c.sessions, e, parse);
          assert forall i | 0 <= i < |c.sessions| :: c.sessions[i].key != stored.key;
        }
      }
    }
  }
}
