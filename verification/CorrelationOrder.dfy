/**
 Where the session cache ends up, one source at a time: at the greatest event when the source
 numbers its events, in whatever order and among whatever others they arrive; at the last
 arrival among the greatest times when it does not.
 */
module CorrelationOrder {
  import opened Wrappers
  import opened Strings
  import opened Sorting
  import opened Correlation
  import opened CorrelationHistory

  // ------------------------------------------------------------ runs of hashed events

  /** The keys of the events, in order of first appearance. */
  function KeysOf(events: seq<Event>): seq<string> {
    if events == [] then []
    else
      var n := |events| - 1;
      var before := KeysOf(events[..n]);
      if KeyFor(events[n]) in before then before else before + [KeyFor(events[n])]
  }

  /** No event's correlation id coincides with the session hash of another session. */
  ghost predicate NoAlias(events: seq<Event>) {
    forall x, y | x in events && y in events && ScopedKey(x, x.correlationId) == KeyFor(y) :: KeyFor(x) == KeyFor(y)
  }

  /** Events with a session hash, of at most as many sessions as the cache holds, redeliveries included. */
  ghost predicate Proper(events: seq<Event>) {
    && (forall e | e in events :: HasIdentity(e) && Truthy(e.providerSessionHash))
    && IdsIdentify(events) && NoAlias(events) && |KeysOf(events)| <= MAX_SESSIONS
  }

  lemma {:induction false} KeysAre(events: seq<Event>)
    ensures NoRepeats(KeysOf(events))
    ensures forall e | e in events :: KeyFor(e) in KeysOf(events)
    ensures forall key | key in KeysOf(events) :: exists e :: e in events && KeyFor(e) == key
  {
    if events != [] {
      var front, last := events[..|events| - 1], events[|events| - 1];
      assert events == front + [last];
      KeysAre(front);
      forall key | key in KeysOf(events) ensures exists e :: e in events && KeyFor(e) == key {
        if key in KeysOf(front) {
          var e :| e in front && KeyFor(e) == key;
          assert e in events;
        } else {
          assert last in events && KeyFor(last) == key;
        }
      }
    }
  }

  /** The live sessions are those of the keys seen. */
  ghost predicate KeysMatch(sessions: seq<Session>, keys: seq<string>) {
    |sessions| == |keys| && forall i | 0 <= i < |sessions| :: sessions[i].key == keys[i]
  }

  lemma MatchedKeys(sessions: seq<Session>, keys: seq<string>, key: string)
    requires KeysMatch(sessions, keys)
    ensures Find(sessions, key).Some? <==> key in keys
  {
    if key in keys {
      var i :| 0 <= i < |keys| && keys[i] == key;
      assert sessions[i] in sessions && sessions[i].key == key;
    }
  }

  lemma {:induction false} PutExisting(sessions: seq<Session>, i: nat, s: Session)
    requires DistinctSessions(sessions) && i < |sessions| && sessions[i].key == s.key
    ensures Put(sessions, s) == sessions[i := s]
  {
    if i > 0 {
      assert sessions[0].key != sessions[i].key;
      PutExisting(sessions[1..], i - 1, s);
    }
  }

  lemma PutMatches(sessions: seq<Session>, keys: seq<string>, s: Session)
    requires DistinctSessions(sessions) && KeysMatch(sessions, keys)
    ensures KeysMatch(Put(sessions, s), if s.key in keys then keys else keys + [s.key])
  {
    if s.key in keys {
      var i :| 0 <= i < |keys| && keys[i] == s.key;
      PutExisting(sessions, i, s);
    } else {
      MatchedKeys(sessions, keys, s.key);
      PutAppends(sessions, s);
    }
  }

  /** The only session a hashed event could reach through its correlation id is its own. */
  lemma AliasIsOwn(front: seq<Event>, e: Event)
    requires Proper(front + [e])
    ensures ScopedKey(e, e.correlationId) in KeysOf(front) ==> ScopedKey(e, e.correlationId) == KeyFor(e)
  {
    var all := front + [e];
    assert e in all && forall x | x in front :: x in all;
    KeysAre(front);
    if ScopedKey(e, e.correlationId) in KeysOf(front) {
      var f :| f in front && KeyFor(f) == ScopedKey(e, e.correlationId);
      assert KeyFor(e) == KeyFor(f);
    }
  }

  /** A hashed event is stored under its own hash, whatever sessions are live. */
  lemma HashedIsStored(c: Cache, front: seq<Event>, e: Event, parse: Parser)
    requires Inv(c) && Proper(front + [e]) && KeysMatch(c.sessions, KeysOf(front))
    ensures Stored(c.sessions, e, parse).key == KeyFor(e)
  {
    assert e in front + [e];
    StoredIs(c, e, parse);
    AliasIsOwn(front, e);
    MatchedKeys(c.sessions, KeysOf(front), ScopedKey(e, e.correlationId));
  }

  lemma ProperFront(events: seq<Event>)
    requires Proper(events) && events != []
    ensures Proper(events[..|events| - 1]) && events == events[..|events| - 1] + [events[|events| - 1]]
  {
    var front := events[..|events| - 1];
    assert forall x | x in front :: x in events;
  }

  lemma DropNothing(sessions: seq<Session>)
    requires |sessions| <= MAX_SESSIONS
    ensures Drop(sessions, MAX_SESSIONS) == sessions
  {
  }

  /** In a run of proper events every session is kept to its own events. */
  lemma {:induction false} ProperIsKept(events: seq<Event>, key: string, parse: Parser)
    requires Proper(events)
    ensures KeptTo(events, key, parse)
    ensures KeysMatch(Run(EMPTY, events, parse).sessions, KeysOf(events))
  {
    if events != [] {
      var front, e := events[..|events| - 1], events[|events| - 1];
      var c := Run(EMPTY, front, parse);
      ProperFront(events);
      ProperIsKept(front, key, parse);
      EmptyInv();
      RunKeepsInv(EMPTY, front, parse);
      ProperStep(c, front, e, key, parse);
    }
  }

  lemma ProperStep(c: Cache, front: seq<Event>, e: Event, key: string, parse: Parser)
    requires Proper(front + [e]) && c == Run(EMPTY, front, parse) && Inv(c) && KeysMatch(c.sessions, KeysOf(front))
    ensures KeptBy(c, e, key, parse) && KeysMatch(Accept(c, e, parse).sessions, KeysOf(front + [e]))
  {
    var all := front + [e];
    assert all[..|front|] == front && e in all;
    MatchedKeys(c.sessions, KeysOf(front), key);
    if e.eventId in c.seen {
      SeenAreEvents(front, parse);
      var f :| f in front && f.eventId == e.eventId;
      assert f in all && f == e;
      KeysAre(front);
    } else {
      HashedIsStored(c, front, e, parse);
      var put := Put(c.sessions, Stored(c.sessions, e, parse));
      PutMatches(c.sessions, KeysOf(front), Stored(c.sessions, e, parse));
      assert KeysMatch(put, KeysOf(all));
      DropNothing(put);
      MatchedKeys(put, KeysOf(all), key);
    }
  }

  // ------------------------------------------------------------ permutations

  lemma {:induction false} PermutedKeys(a: seq<Event>, b: seq<Event>)
    requires multiset(a) == multiset(b)
    ensures |KeysOf(a)| == |KeysOf(b)|
  {
    SameMultisetSameMembers(a, b);
    KeysAre(a);
    KeysAre(b);
    NoRepeatsCount(KeysOf(a));
    NoRepeatsCount(KeysOf(b));
    assert Members(KeysOf(a)) == Members(KeysOf(b));
  }

  /** Every arrival order of proper events is proper. */
  lemma PermutedIsProper(events: seq<Event>, order: seq<Event>)
    requires Proper(events) && multiset(order) == multiset(events)
    ensures Proper(order)
  {
    SameMultisetSameMembers(order, events);
    PermutedKeys(events, order);
  }

  lemma PermutedIsDistinct(events: seq<Event>, order: seq<Event>)
    requires DistinctIds(events) && multiset(order) == multiset(events)
    ensures DistinctIds(order)
  {
    SameMultisetSameMembers(order, events);
  }

  /** In every arrival order the session is kept to its own events. */
  ghost predicate AlwaysKept(events: seq<Event>, key: string, parse: Parser) {
    forall order | multiset(order) == multiset(events) :: KeptTo(order, key, parse)
  }

  lemma ProperIsAlwaysKept(events: seq<Event>, key: string, parse: Parser)
    requires Proper(events)
    ensures AlwaysKept(events, key, parse)
  {
    forall order | multiset(order) == multiset(events) ensures KeptTo(order, key, parse) {
      PermutedIsProper(events, order);
      ProperIsKept(order, key, parse);
    }
  }

  /** In a run without redeliveries a session kept to its own events is as if it were alone. */
  lemma SessionsEvolveAlone(events: seq<Event>, key: string, parse: Parser)
    requires (forall e | e in events :: HasIdentity(e)) && DistinctIds(events) && KeptTo(events, key, parse)
    ensures Find(Run(EMPTY, events, parse).sessions, key).Some? <==> Own(events, key) != []
    ensures Own(events, key) != [] ==>
              Find(Run(EMPTY, events, parse).sessions, key) == Some(Alone(key, Own(events, key), parse))
  {
    SessionIsItsHistory(events, key, parse);
    HistoryIsOwnInOrder(events, key, parse);
  }

  // ------------------------------------------------------------ one sequenced source

  /** Greater time text, then greater id. */
  predicate TextAfter(e: Event, f: Event) {
    if e.occurredAt != f.occurredAt then StrLeq(f.occurredAt, e.occurredAt)
    else e.eventId != f.eventId && StrLeq(f.eventId, e.eventId)
  }

  /** Later in the order of sequence, then time text, then id. */
  predicate After(e: Event, f: Event)
    requires e.sequence.Some? && f.sequence.Some?
  {
    if e.sequence != f.sequence then e.sequence.value > f.sequence.value else TextAfter(e, f)
  }

  ghost predicate Sequenced(events: seq<Event>, mode: IntegrationMode) {
    forall e | e in events :: e.sequence.Some? && e.integrationMode == mode
  }

  lemma AfterIsStrictOrder(e: Event, f: Event, g: Event)
    requires e.sequence.Some? && f.sequence.Some? && g.sequence.Some?
    ensures !(After(e, f) && After(f, e))
    ensures !After(e, f) && !After(f, g) ==> !After(e, g)
    ensures !After(e, f) && !After(f, e) ==> e.eventId == f.eventId
  {
    StrTotal(e.occurredAt, f.occurredAt);
    StrTotal(f.occurredAt, g.occurredAt);
    StrTotal(e.occurredAt, g.occurredAt);
    StrTotal(e.eventId, f.eventId);
    StrTotal(f.eventId, g.eventId);
    StrTotal(e.eventId, g.eventId);
    if StrLeq(e.occurredAt, f.occurredAt) && StrLeq(f.occurredAt, g.occurredAt) {
      StrTransitive(e.occurredAt, f.occurredAt, g.occurredAt);
    }
    if StrLeq(e.eventId, f.eventId) && StrLeq(f.eventId, g.eventId) {
      StrTransitive(e.eventId, f.eventId, g.eventId);
    }
  }

  /** The greatest of some events, scanned in order of arrival. */
  function Greatest(events: seq<Event>): (g: Event)
    requires events != [] && forall e | e in events :: e.sequence.Some?
    ensures g in events
  {
    if |events| == 1 then events[0]
    else
      var front, last := events[..|events| - 1], events[|events| - 1];
      assert last in events && forall e | e in front :: e in events;
      if After(last, Greatest(front)) then last else Greatest(front)
  }

  lemma {:induction false} GreatestIsLast(events: seq<Event>)
    requires events != [] && forall e | e in events :: e.sequence.Some?
    ensures forall e | e in events :: !After(e, Greatest(events))
  {
    var front, last := events[..|events| - 1], events[|events| - 1];
    assert events == front + [last] && last in events && forall e | e in front :: e in events;
    AfterIsStrictOrder(last, last, last);
    if front != [] {
      var g := Greatest(front);
      GreatestIsLast(front);
      forall e | e in events ensures !After(e, Greatest(events)) {
        AfterIsStrictOrder(e, g, last);
        AfterIsStrictOrder(g, last, last);
      }
    }
  }

  /** Does the session carry the lifecycle of this event? */
  predicate CarriesLifecycle(s: Session, e: Event) {
    s.status == StatusForEvent(e.eventType) && s.lastEventId == e.eventId && s.lastOccurredAt == e.occurredAt
    && s.lastSequence == e.sequence
  }

  /** A session fed by one sequenced source carries the lifecycle of the greatest event it saw. */
  lemma {:induction false} AloneFollowsGreatest(key: string, events: seq<Event>, mode: IntegrationMode, parse: Parser)
    requires events != [] && Sequenced(events, mode)
    ensures CarriesLifecycle(Alone(key, events, parse), Greatest(events))
    ensures Alone(key, events, parse).sourcePriority == SourcePriority(mode)
  {
    var front, last := events[..|events| - 1], events[|events| - 1];
    assert last in events && forall e | e in front :: e in events;
    if front != [] { AloneFollowsGreatest(key, front, mode, parse); }
  }

  lemma {:induction false} AloneCounts(key: string, events: seq<Event>, parse: Parser)
    requires events != []
    ensures Alone(key, events, parse).eventCount == |events|
  {
    if |events| > 1 { AloneCounts(key, events[..|events| - 1], parse); }
  }

  /** The last event in the order is the same whatever the order of arrival, redeliveries included. */
  lemma GreatestIgnoresOrder(a: seq<Event>, b: seq<Event>)
    requires a != [] && b != [] && (forall x :: x in a <==> x in b) && IdsIdentify(a)
    requires (forall e | e in a :: e.sequence.Some?) && (forall e | e in b :: e.sequence.Some?)
    ensures Greatest(a) == Greatest(b)
  {
    GreatestIsLast(a);
    GreatestIsLast(b);
    AfterIsStrictOrder(Greatest(a), Greatest(b), Greatest(b));
  }

  /** After any run that keeps the session to its own events, it carries the greatest of them. */
  lemma SequencedEndsAtGreatest(events: seq<Event>, key: string, mode: IntegrationMode, parse: Parser)
    requires (forall e | e in events :: HasIdentity(e)) && IdsIdentify(events) && KeptTo(events, key, parse)
    requires Own(events, key) != [] && Sequenced(Own(events, key), mode)
    ensures var s := Find(Run(EMPTY, events, parse).sessions, key);
            s.Some? && CarriesLifecycle(s.value, Greatest(Own(events, key)))
            && s.value.eventCount == |History(events, key, parse)|
  {
    var h := History(events, key, parse);
    SessionIsItsHistory(events, key, parse);
    HistoryIsOwn(events, key, parse);
    OwnAre(events, key);
    assert Own(events, key)[0] in Own(events, key);
    assert Own(events, key)[0] in h;
    AloneFollowsGreatest(key, h, mode, parse);
    AloneCounts(key, h, parse);
    GreatestIgnoresOrder(h, Own(events, key));
  }

  /**
   Two runs that deliver the same events of a session, in any order, any number of times and
   among any events of other sessions, leave it with the lifecycle of the greatest of them
   when they come from one sequenced source; and with the same count as long as the cache
   remembers every id.
   */
  lemma ArrivalOrderIsIrrelevant(events: seq<Event>, shuffled: seq<Event>, key: string, mode: IntegrationMode, parse: Parser)
    requires (forall e | e in events :: HasIdentity(e)) && (forall e | e in shuffled :: HasIdentity(e))
    requires KeptTo(events, key, parse) && KeptTo(shuffled, key, parse)
    requires IdsIdentify(events) && IdsIdentify(shuffled)
    requires forall x | Belongs(x, key) :: x in events <==> x in shuffled
    requires Own(events, key) != [] && Sequenced(Own(events, key), mode)
    ensures
      var greatest := Greatest(Own(events, key));
      var s, t := Find(Run(EMPTY, events, parse).sessions, key), Find(Run(EMPTY, shuffled, parse).sessions, key);
      && s.Some? && t.Some? && CarriesLifecycle(s.value, greatest) && CarriesLifecycle(t.value, greatest)
      && (|events| <= MAX_SEEN_EVENTS && |shuffled| <= MAX_SEEN_EVENTS ==> s.value.eventCount == t.value.eventCount)
  {
    OwnAre(events, key);
    OwnAre(shuffled, key);
    var own, other := Own(events, key), Own(shuffled, key);
    assert own[0] in own && own[0] in other;
    SequencedEndsAtGreatest(events, key, mode, parse);
    SequencedEndsAtGreatest(shuffled, key, mode, parse);
    forall x, y | x in own && y in own && x.eventId == y.eventId ensures x == y {
      assert x in events && y in events;
    }
    GreatestIgnoresOrder(own, other);
    if |events| <= MAX_SEEN_EVENTS && |shuffled| <= MAX_SEEN_EVENTS {
      SameCount(events, shuffled, key, parse);
    }
  }

  lemma SameCount(events: seq<Event>, shuffled: seq<Event>, key: string, parse: Parser)
    requires (forall e | e in events :: HasIdentity(e)) && (forall e | e in shuffled :: HasIdentity(e))
    requires KeptTo(events, key, parse) && KeptTo(shuffled, key, parse)
    requires IdsIdentify(events) && IdsIdentify(shuffled)
    requires forall x | Belongs(x, key) :: x in events <==> x in shuffled
    requires |events| <= MAX_SEEN_EVENTS && |shuffled| <= MAX_SEEN_EVENTS
    ensures |History(events, key, parse)| == |History(shuffled, key, parse)|
  {
    HistorySize(events, key, parse);
    HistorySize(shuffled, key, parse);
    OwnAre(events, key);
    OwnAre(shuffled, key);
    SameSet(Own(events, key), Own(shuffled, key));
  }

  lemma SameSet(a: seq<Event>, b: seq<Event>)
    requires forall x :: x in a <==> x in b
    ensures EventSet(a) == EventSet(b)
  {
  }

  lemma HistorySize(events: seq<Event>, key: string, parse: Parser)
    requires (forall e | e in events :: HasIdentity(e)) && KeptTo(events, key, parse) && IdsIdentify(events)
    requires |events| <= MAX_SEEN_EVENTS
    ensures |History(events, key, parse)| == |EventSet(Own(events, key))|
  {
    HistoryHasNoRepeats(events, key, parse);
    HistoryIsOwn(events, key, parse);
    OwnAre(events, key);
    SetSize(History(events, key, parse));
    SameSet(History(events, key, parse), Own(events, key));
  }

  function EventSet(events: seq<Event>): (r: set<Event>)
    ensures forall x :: x in r <==> x in events
  {
    set x | x in events
  }

  lemma {:induction false} SetSize(events: seq<Event>)
    requires forall i, j | 0 <= i < j < |events| :: events[i] != events[j]
    ensures |EventSet(events)| == |events|
  {
    if events != [] {
      var front, last := events[..|events| - 1], events[|events| - 1];
      SetSize(front);
      assert last !in front;
      assert EventSet(events) == EventSet(front) + {last};
    }
  }

  // ------------------------------------------------------------ one source without sequences

  ghost predicate Unsequenced(events: seq<Event>, mode: IntegrationMode) {
    forall e | e in events :: e.sequence.None? && e.integrationMode == mode
  }

  predicate Parses(e: Event, parse: Parser) {
    parse(e.occurredAt).Some?
  }

  /** `e` does not lie before `f` in parsed time; an event without a time never replaces anything. */
  predicate Replaces(e: Event, f: Event, parse: Parser) {
    Parses(e, parse) && (!Parses(f, parse) || parse(e.occurredAt).value >= parse(f.occurredAt).value)
  }

  /** The last arrival among the events with the greatest parsed time, or the first arrival when none parses. */
  function LastGreatest(events: seq<Event>, parse: Parser): (g: Event)
    requires events != []
    ensures g in events
  {
    if |events| == 1 then events[0]
    else
      var g := LastGreatest(events[..|events| - 1], parse);
      if Replaces(events[|events| - 1], g, parse) then events[|events| - 1] else g
  }

  lemma {:induction false} LastGreatestIs(events: seq<Event>, parse: Parser)
    requires events != []
    ensures forall e | e in events && Parses(e, parse) ::
              Parses(LastGreatest(events, parse), parse)
              && parse(e.occurredAt).value <= parse(LastGreatest(events, parse).occurredAt).value
    ensures (forall e | e in events :: !Parses(e, parse)) ==> LastGreatest(events, parse) == events[0]
  {
    var front, last := events[..|events| - 1], events[|events| - 1];
    assert events == front + [last] && last in events && forall e | e in front :: e in events;
    if front != [] { LastGreatestIs(front, parse); }
  }

  /** Nothing that could replace it arrives after it. */
  lemma {:induction false} NothingReplacesIt(events: seq<Event>, parse: Parser) returns (i: nat)
    requires events != []
    ensures i < |events| && LastGreatest(events, parse) == events[i]
    ensures forall j | i < j < |events| :: !Replaces(events[j], events[i], parse)
  {
    var n := |events| - 1;
    i := n;
    if n > 0 && !Replaces(events[n], LastGreatest(events[..n], parse), parse) {
      i := NothingReplacesIt(events[..n], parse);
      forall j | i < j < |events| ensures !Replaces(events[j], events[i], parse) {
        if j < n { assert !Replaces(events[..n][j], events[..n][i], parse); }
      }
    }
  }

  /** A session fed by one unsequenced source follows the last arrival among the greatest times. */
  lemma {:induction false} AloneFollowsLastGreatest(key: string, events: seq<Event>, mode: IntegrationMode, parse: Parser)
    requires events != [] && Unsequenced(events, mode)
    ensures CarriesLifecycle(Alone(key, events, parse), LastGreatest(events, parse))
    ensures Alone(key, events, parse).sourcePriority == SourcePriority(mode)
  {
    var front, last := events[..|events| - 1], events[|events| - 1];
    assert last in events && forall e | e in front :: e in events;
    if front != [] { AloneFollowsLastGreatest(key, front, mode, parse); }
  }

  /** `z` alone bears the greatest parsed time, or is the only event and has none. */
  ghost predicate SingledOut(events: seq<Event>, z: Event, parse: Parser) {
    && z in events
    && (if Parses(z, parse)
        then forall w | w in events && w != z && Parses(w, parse) :: parse(w.occurredAt).value < parse(z.occurredAt).value
        else |events| == 1)
  }

  ghost predicate SinglesOut(events: seq<Event>, parse: Parser) {
    exists z :: SingledOut(events, z, parse)
  }

  /** What an observer sees of a session's lifecycle. */
  function LifecycleOf(c: Cache, key: string): Option<(Status, string, string, Option<int>)> {
    match Find(c.sessions, key)
    case None => None
    case Some(s) => Some((s.status, s.lastEventId, s.lastOccurredAt, s.lastSequence))
  }

  /** Every arrival order of the events leaves the session with the same lifecycle. */
  ghost predicate LifecycleIsOrderFree(events: seq<Event>, key: string, parse: Parser) {
    forall a, b | multiset(a) == multiset(events) && multiset(b) == multiset(events) ::
      LifecycleOf(Run(EMPTY, a, parse), key) == LifecycleOf(Run(EMPTY, b, parse), key)
  }

  /** An event of the greatest time that arrives last is what the session follows. */
  lemma LastArrivalWins(own: seq<Event>, before: seq<Event>, x: Event, parse: Parser)
    requires own == before + [x] && Parses(x, parse)
    requires forall w | w in own && Parses(w, parse) :: parse(w.occurredAt).value <= parse(x.occurredAt).value
    ensures LastGreatest(own, parse) == x
  {
    assert own[..|before|] == before;
    if before != [] {
      var g := LastGreatest(before, parse);
      assert g in own;
    }
  }

  /** Of two events of one time, the session follows whichever came last. */
  lemma UnsequencedTiesFollowArrival(key: string, a: Event, b: Event, parse: Parser)
    requires a.sequence.None? && b.sequence.None? && a.integrationMode == b.integrationMode
    requires parse(a.occurredAt).Some? && parse(a.occurredAt) == parse(b.occurredAt)
    ensures CarriesLifecycle(Alone(key, [a, b], parse), b) && CarriesLifecycle(Alone(key, [b, a], parse), a)
  {
    AloneFollowsLastGreatest(key, [a, b], a.integrationMode, parse);
    AloneFollowsLastGreatest(key, [b, a], a.integrationMode, parse);
    LastArrivalWins([a, b], [a], b, parse);
    LastArrivalWins([b, a], [b], a, parse);
    assert [a] + [b] == [a, b] && [b] + [a] == [b, a];
  }
}
