/**
 The extension's bounded session cache: which session an event belongs to, how it is
 merged into it, and what the two size limits forget.
 */
module Correlation {
  import opened Wrappers
  import opened Strings

  datatype IntegrationMode = NativeHook | NativePlugin | Wrapper | VscodeObservation | HeuristicShadow

  datatype Status = Active | WaitingForInput | Completed | Failed | Cancelled | Ended

  datatype Event = Event(
    eventId: string,
    installationId: string,
    deviceId: Option<string>,
    provider: string,
    executableFamily: Option<string>,
    correlationId: string,
    providerSessionHash: Option<string>,
    integrationMode: IntegrationMode,
    eventType: string,
    occurredAt: string,
    sequence: Option<int>)

  datatype Session = Session(
    key: string,
    installationId: string,
    deviceId: Option<string>,
    provider: string,
    providerFamily: string,
    integrationMode: IntegrationMode,
    sourcePriority: nat,
    status: Status,
    lastEventId: string,
    lastOccurredAt: string,
    lastSequence: Option<int>,
    eventCount: nat)

  const FALLBACK_WINDOW_MS := 300_000
  const MAX_SEEN_EVENTS := 2_000
  const MAX_SESSIONS := 256

  /** `Date.parse`, empty where it gives NaN. */
  type Parser = string -> Option<int>

  function SourcePriority(mode: IntegrationMode): nat {
    match mode
    case NativeHook => 3
    case NativePlugin => 3
    case Wrapper => 2
    case VscodeObservation => 1
    case HeuristicShadow => 0
  }

  function StatusForEvent(eventType: string): Status {
    if eventType == "input.required" || eventType == "permission.required" then WaitingForInput
    else if eventType == "turn.completed" || eventType == "task.completed" then Completed
    else if eventType == "session.ended" then Ended
    else if eventType == "turn.failed" || eventType == "task.failed" then Failed
    else if eventType == "turn.cancelled" then Cancelled
    else Active
  }

  predicate IsTerminal(status: Status) {
    status.Ended? || status.Failed? || status.Cancelled?
  }

  function ProviderFamily(e: Event): string {
    match e.executableFamily
    case Some(family) => family
    case None => e.provider
  }

  function ScopedKey(e: Event, identity: string): string {
    var device := match e.deviceId case Some(d) => d case None => "";
    e.installationId + ":" + device + ":" + ProviderFamily(e) + ":" + identity
  }

  /** The key a new session is filed under: the hash even when it is empty, since only a missing one falls through. */
  function KeyFor(e: Event): string {
    match e.providerSessionHash
    case Some(hash) => ScopedKey(e, hash)
    case None => ScopedKey(e, e.correlationId)
  }

  /** Optional text that is present and not empty. */
  predicate Truthy(s: Option<string>) {
    s.Some? && s.value != ""
  }

  // ------------------------------------------------------------ finding a session

  function Find(sessions: seq<Session>, key: string): (r: Option<Session>)
    ensures r.Some? ==> r.value in sessions && r.value.key == key
    ensures r.None? <==> forall s | s in sessions :: s.key != key
  {
    if sessions == [] then None
    else if sessions[0].key == key then Some(sessions[0])
    else Find(sessions[1..], key)
  }

  predicate IsCandidate(s: Session, e: Event, eventTime: int, parse: Parser) {
    && !IsTerminal(s.status)
    && s.installationId == e.installationId
    && !(Truthy(s.deviceId) && Truthy(e.deviceId) && s.deviceId != e.deviceId)
    && s.providerFamily == ProviderFamily(e)
    && parse(s.lastOccurredAt).Some?
    && -FALLBACK_WINDOW_MS <= eventTime - parse(s.lastOccurredAt).value <= FALLBACK_WINDOW_MS
  }

  function Candidates(sessions: seq<Session>, e: Event, eventTime: int, parse: Parser): (r: seq<Session>)
    ensures forall s :: s in r <==> s in sessions && IsCandidate(s, e, eventTime, parse)
  {
    if sessions == [] then []
    else
      var n := |sessions| - 1;
      Candidates(sessions[..n], e, eventTime, parse) + (if IsCandidate(sessions[n], e, eventTime, parse) then [sessions[n]] else [])
  }

  function Exact(sessions: seq<Session>, e: Event): Option<Session> {
    var byHash := if Truthy(e.providerSessionHash) then Find(sessions, ScopedKey(e, e.providerSessionHash.value)) else None;
    if byHash.Some? then byHash
    else if e.correlationId != "" then Find(sessions, ScopedKey(e, e.correlationId))
    else None
  }

  /** `findSession`. */
  function Resolve(sessions: seq<Session>, e: Event, parse: Parser): (r: Option<Session>)
    ensures r.Some? ==> r.value in sessions
  {
    var exact := Exact(sessions, e);
    if exact.Some? then exact
    else if Truthy(e.providerSessionHash) || parse(e.occurredAt).None? then None
    else
      var candidates := Candidates(sessions, e, parse(e.occurredAt).value, parse);
      if |candidates| == 1 then Some(candidates[0]) else None
  }

  // ------------------------------------------------------------ creating and merging

  function Create(key: string, e: Event): Session {
    Session(key, e.installationId, if Truthy(e.deviceId) then e.deviceId else None, e.provider, ProviderFamily(e),
            e.integrationMode, SourcePriority(e.integrationMode), StatusForEvent(e.eventType),
            e.eventId, e.occurredAt, e.sequence, 1)
  }

  predicate IsNewer(e: Event, s: Session, parse: Parser) {
    if e.sequence.Some? && s.lastSequence.Some? then
      if e.sequence != s.lastSequence then e.sequence.value > s.lastSequence.value
      else if e.occurredAt != s.lastOccurredAt then StrLeq(s.lastOccurredAt, e.occurredAt)
      else e.eventId != s.lastEventId && StrLeq(s.lastEventId, e.eventId)
    else
      parse(e.occurredAt).Some?
      && (parse(s.lastOccurredAt).None? || parse(e.occurredAt).value >= parse(s.lastOccurredAt).value)
  }

  function Merge(s: Session, e: Event, parse: Parser): Session {
    var priority := SourcePriority(e.integrationMode);
    var preferred := priority >= s.sourcePriority;
    var sourced := s.(
      provider := if preferred then e.provider else s.provider,
      providerFamily := if preferred then ProviderFamily(e) else s.providerFamily,
      integrationMode := if preferred then e.integrationMode else s.integrationMode,
      sourcePriority := if priority > s.sourcePriority then priority else s.sourcePriority,
      eventCount := s.eventCount + 1);
    if IsNewer(e, s, parse) && (preferred || priority == s.sourcePriority) then
      sourced.(
        status := StatusForEvent(e.eventType),
        lastEventId := e.eventId,
        lastOccurredAt := e.occurredAt,
        lastSequence := if e.sequence.Some? then e.sequence else s.lastSequence)
    else sourced
  }

  // ------------------------------------------------------------ the cache

  /** `accepted` and `evicted` record history: the ids accepted so far and the events of sessions since trimmed. */
  datatype Cache = Cache(sessions: seq<Session>, seen: seq<string>, accepted: seq<string>, evicted: nat)

  const EMPTY := Cache([], [], [], 0)

  /** `Map.set`: an existing key keeps its place. */
  function Put(sessions: seq<Session>, s: Session): seq<Session> {
    if sessions == [] then [s]
    else if sessions[0].key == s.key then [s] + sessions[1..]
    else [sessions[0]] + Put(sessions[1..], s)
  }

  function Drop<T>(s: seq<T>, limit: nat): seq<T> {
    if |s| > limit then s[|s| - limit..] else s
  }

  function Total(sessions: seq<Session>): nat {
    if sessions == [] then 0 else sessions[0].eventCount + Total(sessions[1..])
  }

  function Stored(sessions: seq<Session>, e: Event, parse: Parser): Session {
    match Resolve(sessions, e, parse)
    case Some(s) => Merge(s, e, parse)
    case None => Create(KeyFor(e), e)
  }

  function Accept(c: Cache, e: Event, parse: Parser): Cache {
    if e.eventId in c.seen then c
    else
      var put := Put(c.sessions, Stored(c.sessions, e, parse));
      var kept := Drop(put, MAX_SESSIONS);
      Cache(kept, Drop(c.seen + [e.eventId], MAX_SEEN_EVENTS), c.accepted + [e.eventId],
            c.evicted + Total(put[..|put| - |kept|]))
  }

  function Run(c: Cache, events: seq<Event>, parse: Parser): Cache {
    if events == [] then c
    else Accept(Run(c, events[..|events| - 1], parse), events[|events| - 1], parse)
  }

  // ------------------------------------------------------------ invariants

  ghost predicate DistinctSessions(sessions: seq<Session>) {
    forall i, j | 0 <= i < j < |sessions| :: sessions[i].key != sessions[j].key
  }

  ghost predicate Inv(c: Cache) {
    && DistinctSessions(c.sessions) && |c.sessions| <= MAX_SESSIONS
    && c.seen == Drop(c.accepted, MAX_SEEN_EVENTS)
    && NoRepeats(c.seen)
    && Total(c.sessions) + c.evicted == |c.accepted|
  }

  /** What the event schema guarantees: identifiers that are present are not empty. */
  predicate HasIdentity(e: Event) {
    e.providerSessionHash != Some("") && e.correlationId != ""
  }

  lemma {:induction false} PutKeepsDistinct(sessions: seq<Session>, s: Session)
    requires DistinctSessions(sessions)
    ensures DistinctSessions(Put(sessions, s))
    ensures forall x :: x in Put(sessions, s) ==> x == s || x in sessions
    ensures |Put(sessions, s)| == |sessions| + (if Find(sessions, s.key).None? then 1 else 0)
    ensures Total(Put(sessions, s)) ==
      Total(sessions) + s.eventCount - (match Find(sessions, s.key) case Some(was) => was.eventCount case None => 0)
  {
    if sessions != [] && sessions[0].key != s.key {
      var rest := Put(sessions[1..], s);
      PutKeepsDistinct(sessions[1..], s);
      forall j | 0 < j < |rest| + 1 ensures sessions[0].key != ([sessions[0]] + rest)[j].key {
        assert rest[j - 1] in rest;
      }
    } else if sessions != [] {
      forall j | 0 < j < |sessions| ensures s.key != sessions[j].key {
        assert sessions[0].key != sessions[j].key;
      }
    }
  }

  lemma {:induction false} ResolvedIsFound(sessions: seq<Session>, s: Session)
    requires DistinctSessions(sessions) && s in sessions
    ensures Find(sessions, s.key) == Some(s)
  {
    var i :| 0 <= i < |sessions| && sessions[i] == s;
    if i > 0 {
      assert sessions[0].key != sessions[i].key;
      assert sessions[1..][i - 1] == s;
      ResolvedIsFound(sessions[1..], s);
    }
  }

  /** Creation never overwrites: an event that resolves to nothing is filed under a key no session has. */
  lemma CreationIsFresh(sessions: seq<Session>, e: Event, parse: Parser)
    requires HasIdentity(e) && Resolve(sessions, e, parse).None?
    ensures Find(sessions, KeyFor(e)).None?
  {
  }

  /** Storing an accepted event adds exactly one to the live event counts. */
  lemma PutAddsOne(sessions: seq<Session>, e: Event, parse: Parser)
    requires DistinctSessions(sessions) && HasIdentity(e)
    ensures Total(Put(sessions, Stored(sessions, e, parse))) == Total(sessions) + 1
  {
    var stored := Stored(sessions, e, parse);
    PutKeepsDistinct(sessions, stored);
    match Resolve(sessions, e, parse) {
      case Some(s) => ResolvedIsFound(sessions, s);
      case None => CreationIsFresh(sessions, e, parse);
    }
  }

  lemma {:induction false} TotalSplits(sessions: seq<Session>, n: nat)
    requires n <= |sessions|
    ensures Total(sessions) == Total(sessions[..n]) + Total(sessions[n..])
  {
    if n > 0 {
      TotalSplits(sessions[1..], n - 1);
      assert sessions[..n][1..] == sessions[1..][..n - 1];
      assert sessions[1..][n - 1..] == sessions[n..];
    }
  }

  lemma DropAppend(s: seq<string>, x: string, limit: nat)
    requires limit > 0
    ensures Drop(Drop(s, limit) + [x], limit) == Drop(s + [x], limit)
  {
  }

  lemma TrimKeepsDistinct(put: seq<Session>, kept: seq<Session>)
    requires DistinctSessions(put) && kept == Drop(put, MAX_SESSIONS)
    ensures DistinctSessions(kept) && |kept| <= MAX_SESSIONS
    ensures Total(kept) + Total(put[..|put| - |kept|]) == Total(put)
  {
    var n := |put| - |kept|;
    TotalSplits(put, n);
    assert kept == put[n..];
    forall i, j | 0 <= i < j < |kept| ensures kept[i].key != kept[j].key {
      assert put[n + i].key != put[n + j].key;
    }
  }

  lemma RememberKeepsNoRepeats(seen: seq<string>, x: string)
    requires NoRepeats(seen) && x !in seen
    ensures NoRepeats(Drop(seen + [x], MAX_SEEN_EVENTS))
  {
    var all := seen + [x];
    assert NoRepeats(all);
    var n := |all| - |Drop(all, MAX_SEEN_EVENTS)|;
    forall i, j | 0 <= i < j < |all| - n ensures all[n..][i] != all[n..][j] {
      assert all[n + i] != all[n + j];
    }
  }

  /** Every acceptance keeps the invariant: both limits hold, and live and evicted event counts add up to the events accepted. */
  lemma AcceptKeepsInv(c: Cache, e: Event, parse: Parser)
    requires Inv(c) && HasIdentity(e)
    ensures Inv(Accept(c, e, parse))
  {
    if e.eventId !in c.seen {
      var stored := Stored(c.sessions, e, parse);
      var put := Put(c.sessions, stored);
      PutKeepsDistinct(c.sessions, stored);
      PutAddsOne(c.sessions, e, parse);
      TrimKeepsDistinct(put, Drop(put, MAX_SESSIONS));
      RememberKeepsNoRepeats(c.seen, e.eventId);
      DropAppend(c.accepted, e.eventId, MAX_SEEN_EVENTS);
    }
  }

  lemma {:induction false} RunKeepsInv(c: Cache, events: seq<Event>, parse: Parser)
    requires Inv(c) && forall e | e in events :: HasIdentity(e)
    ensures Inv(Run(c, events, parse))
  {
    if events != [] {
      RunKeepsInv(c, events[..|events| - 1], parse);
      AcceptKeepsInv(Run(c, events[..|events| - 1], parse), events[|events| - 1], parse);
    }
  }

  /** Events among the last two thousand accepted change nothing when they arrive again, in any order and number. */
  lemma {:induction false} RecentReplayIsNoOp(c: Cache, replayed: seq<Event>, parse: Parser)
    requires Inv(c) && forall e | e in replayed :: e.eventId in Drop(c.accepted, MAX_SEEN_EVENTS)
    ensures Run(c, replayed, parse) == c
  {
    if replayed != [] {
      RecentReplayIsNoOp(c, replayed[..|replayed| - 1], parse);
    }
  }

  // ------------------------------------------------------------ priority

  lemma {:induction false} FindAfterPut(sessions: seq<Session>, s: Session, key: string)
    ensures Find(Put(sessions, s), key) == if key == s.key then Some(s) else Find(sessions, key)
  {
    if sessions != [] && sessions[0].key != s.key { FindAfterPut(sessions[1..], s, key); }
  }

  lemma FindInKept(sessions: seq<Session>, n: nat, key: string)
    requires DistinctSessions(sessions) && n <= |sessions| && Find(sessions[n..], key).Some?
    ensures Find(sessions, key) == Find(sessions[n..], key)
  {
    var s := Find(sessions[n..], key).value;
    assert s in sessions[n..] && s in sessions;
    ResolvedIsFound(sessions, s);
  }

  /** While a session stays live an event never lowers its source priority or its event count. */
  lemma AcceptKeepsPriority(c: Cache, e: Event, parse: Parser, key: string)
    requires Inv(c) && HasIdentity(e)
    requires Find(c.sessions, key).Some? && Find(Accept(c, e, parse).sessions, key).Some?
    ensures Find(Accept(c, e, parse).sessions, key).value.sourcePriority >= Find(c.sessions, key).value.sourcePriority
    ensures Find(Accept(c, e, parse).sessions, key).value.eventCount >= Find(c.sessions, key).value.eventCount
  {
    if e.eventId !in c.seen {
      var stored := Stored(c.sessions, e, parse);
      var put := Put(c.sessions, stored);
      PutKeepsDistinct(c.sessions, stored);
      FindAfterPut(c.sessions, stored, key);
      FindInKept(put, |put| - |Drop(put, MAX_SESSIONS)|, key);
      match Resolve(c.sessions, e, parse) {
        case Some(s) => ResolvedIsFound(c.sessions, s);
        case None => CreationIsFresh(c.sessions, e, parse);
      }
    }
  }

  ghost predicate LiveThroughout(c: Cache, events: seq<Event>, parse: Parser, key: string) {
    forall k | 0 <= k <= |events| :: Find(Run(c, events[..k], parse).sessions, key).Some?
  }

  lemma {:induction false} PriorityNeverDrops(c: Cache, events: seq<Event>, parse: Parser, key: string)
    requires Inv(c) && (forall e | e in events :: HasIdentity(e)) && LiveThroughout(c, events, parse, key)
    ensures Find(c.sessions, key).Some? && Find(Run(c, events, parse).sessions, key).Some?
    ensures Find(Run(c, events, parse).sessions, key).value.sourcePriority >= Find(c.sessions, key).value.sourcePriority
  {
    assert Run(c, events[..0], parse) == c;
    assert events[..|events|] == events;
    if events != [] {
      var front := events[..|events| - 1];
      forall k | 0 <= k <= |front| ensures Find(Run(c, front[..k], parse).sessions, key).Some? {
        assert front[..k] == events[..k];
      }
      PriorityNeverDrops(c, front, parse, key);
      RunKeepsInv(c, front, parse);
      AcceptKeepsPriority(Run(c, front, parse), events[|events| - 1], parse, key);
    }
  }

  // ------------------------------------------------------------ what an event may overwrite

  /** Everything about two states of a session that a weaker source must not change. */
  predicate SameLifecycle(s: Session, t: Session) {
    && s.status == t.status && s.lastEventId == t.lastEventId && s.lastOccurredAt == t.lastOccurredAt
    && s.lastSequence == t.lastSequence && s.provider == t.provider && s.providerFamily == t.providerFamily
    && s.integrationMode == t.integrationMode && s.sourcePriority == t.sourcePriority
  }

  lemma WeakerKeepsLifecycle(c: Cache, e: Event, parse: Parser, key: string)
    requires Inv(c) && HasIdentity(e)
    requires Find(c.sessions, key).Some? && Find(Accept(c, e, parse).sessions, key).Some?
    requires SourcePriority(e.integrationMode) < Find(c.sessions, key).value.sourcePriority
    ensures SameLifecycle(Find(c.sessions, key).value, Find(Accept(c, e, parse).sessions, key).value)
  {
    if e.eventId !in c.seen {
      var stored := Stored(c.sessions, e, parse);
      var put := Put(c.sessions, stored);
      PutKeepsDistinct(c.sessions, stored);
      FindAfterPut(c.sessions, stored, key);
      FindInKept(put, |put| - |Drop(put, MAX_SESSIONS)|, key);
      match Resolve(c.sessions, e, parse) {
        case Some(s) => ResolvedIsFound(c.sessions, s);
        case None => CreationIsFresh(c.sessions, e, parse);
      }
    }
  }

  /** Over any run through which a session stays live, sources weaker than its own never overwrite its lifecycle. */
  lemma {:induction false} WeakerSourcesNeverOverwrite(c: Cache, events: seq<Event>, parse: Parser, key: string)
    requires Inv(c) && (forall e | e in events :: HasIdentity(e)) && LiveThroughout(c, events, parse, key)
    requires Find(c.sessions, key).Some?
    requires forall e | e in events :: SourcePriority(e.integrationMode) < Find(c.sessions, key).value.sourcePriority
    ensures Find(Run(c, events, parse).sessions, key).Some?
    ensures SameLifecycle(Find(c.sessions, key).value, Find(Run(c, events, parse).sessions, key).value)
  {
    assert events[..|events|] == events;
    if events != [] {
      var front := events[..|events| - 1];
      forall k | 0 <= k <= |front| ensures Find(Run(c, front[..k], parse).sessions, key).Some? {
        assert front[..k] == events[..k];
      }
      WeakerSourcesNeverOverwrite(c, front, parse, key);
      RunKeepsInv(c, front, parse);
      WeakerKeepsLifecycle(Run(c, front, parse), events[|events| - 1], parse, key);
    }
  }

  /**
   An event that names no session exactly and could belong to two is kept apart: it gets a
   session of its own behind all others, which stay as they are; a full cache forgets its
   oldest session.
   */
  lemma AmbiguousIsKeptApart(c: Cache, e: Event, parse: Parser, s: Session, t: Session)
    requires Inv(c) && HasIdentity(e) && e.eventId !in c.seen
    requires Exact(c.sessions, e).None? && parse(e.occurredAt).Some?
    requires s in c.sessions && t in c.sessions && s != t
    requires IsCandidate(s, e, parse(e.occurredAt).value, parse) && IsCandidate(t, e, parse(e.occurredAt).value, parse)
    ensures Accept(c, e, parse).sessions == Drop(c.sessions + [Create(KeyFor(e), e)], MAX_SESSIONS)
  {
    var candidates := Candidates(c.sessions, e, parse(e.occurredAt).value, parse);
    assert s in candidates && t in candidates;
    assert |candidates| != 1;
    CreationIsFresh(c.sessions, e, parse);
    PutAppends(c.sessions, Create(KeyFor(e), e));
  }

  lemma {:induction false} PutAppends(sessions: seq<Session>, s: Session)
    requires Find(sessions, s.key).None?
    ensures Put(sessions, s) == sessions + [s]
  {
    if sessions != [] { PutAppends(sessions[1..], s); }
  }
}
