/**
 Runs of the session cache, session by session: in any run whatever, a live session is
 exactly what the events it took since it was created make of it. For a session that is
 fed by its own hash alone, those are its own events.
 */
module CorrelationHistory {
  import opened Wrappers
  import opened Strings
  import opened Sorting
  import opened Correlation

  /** What creating a session and merging events into it one by one yields. */
  function Alone(key: string, events: seq<Event>, parse: Parser): Session
    requires events != []
  {
    if |events| == 1 then Create(key, events[0])
    else Merge(Alone(key, events[..|events| - 1], parse), events[|events| - 1], parse)
  }

  lemma AloneMore(key: string, own: seq<Event>, e: Event, parse: Parser)
    requires own != []
    ensures Alone(key, own + [e], parse) == Merge(Alone(key, own, parse), e, parse)
  {
    assert (own + [e])[..|own|] == own;
  }

  /** The events the session now filed under `key` took, in order, since it was created; none when there is no such session. */
  function History(events: seq<Event>, key: string, parse: Parser): seq<Event> {
    if events == [] then []
    else
      var front, e := events[..|events| - 1], events[|events| - 1];
      var c := Run(EMPTY, front, parse);
      if Find(Accept(c, e, parse).sessions, key).None? then []
      else if e.eventId !in c.seen && Stored(c.sessions, e, parse).key == key then History(front, key, parse) + [e]
      else History(front, key, parse)
  }

  lemma FindAfterAccept(c: Cache, e: Event, parse: Parser, key: string)
    requires Inv(c) && HasIdentity(e) && e.eventId !in c.seen && Find(Accept(c, e, parse).sessions, key).Some?
    ensures Find(Accept(c, e, parse).sessions, key)
         == if Stored(c.sessions, e, parse).key == key then Some(Stored(c.sessions, e, parse)) else Find(c.sessions, key)
  {
    var stored := Stored(c.sessions, e, parse);
    var put := Put(c.sessions, stored);
    PutKeepsDistinct(c.sessions, stored);
    FindAfterPut(c.sessions, stored, key);
    FindInKept(put, |put| - |Drop(put, MAX_SESSIONS)|, key);
  }

  /** Merging keeps the key of a live session; creating uses a key no session has. */
  lemma StoredIs(c: Cache, e: Event, parse: Parser)
    requires Inv(c) && HasIdentity(e)
    ensures match Resolve(c.sessions, e, parse)
            case Some(s) => Stored(c.sessions, e, parse).key == s.key && Find(c.sessions, s.key) == Some(s)
            case None => Stored(c.sessions, e, parse).key == KeyFor(e) && Find(c.sessions, KeyFor(e)).None?
  {
    match Resolve(c.sessions, e, parse) {
      case Some(s) => ResolvedIsFound(c.sessions, s);
      case None => CreationIsFresh(c.sessions, e, parse);
    }
  }

  lemma StoredExtends(c: Cache, e: Event, parse: Parser, key: string, h: seq<Event>)
    requires Inv(c) && HasIdentity(e) && Stored(c.sessions, e, parse).key == key
    requires Find(c.sessions, key).Some? <==> h != []
    requires h != [] ==> Find(c.sessions, key) == Some(Alone(key, h, parse))
    ensures Stored(c.sessions, e, parse) == Alone(key, h + [e], parse)
  {
    StoredIs(c, e, parse);
    if h != [] { AloneMore(key, h, e, parse); }
  }

  lemma EmptyInv()
    ensures Inv(EMPTY)
  {
  }

  /** In every run, a live session is what its history makes of it, and only live sessions have one. */
  lemma {:induction false} SessionIsItsHistory(events: seq<Event>, key: string, parse: Parser)
    requires forall e | e in events :: HasIdentity(e)
    ensures Find(Run(EMPTY, events, parse).sessions, key).Some? <==> History(events, key, parse) != []
    ensures History(events, key, parse) != [] ==>
              Find(Run(EMPTY, events, parse).sessions, key) == Some(Alone(key, History(events, key, parse), parse))
  {
    if events != [] {
      var front, e := events[..|events| - 1], events[|events| - 1];
      var c := Run(EMPTY, front, parse);
      EmptyInv();
      RunKeepsInv(EMPTY, front, parse);
      SessionIsItsHistory(front, key, parse);
      if e.eventId !in c.seen && Find(Accept(c, e, parse).sessions, key).Some? {
        FindAfterAccept(c, e, parse, key);
        if Stored(c.sessions, e, parse).key == key {
          StoredExtends(c, e, parse, key, History(front, key, parse));
        }
      }
    }
  }

  // ------------------------------------------------------------ a session fed by its own hash

  /** The event carries the session hash behind `key`. */
  predicate Belongs(e: Event, key: string) {
    Truthy(e.providerSessionHash) && KeyFor(e) == key
  }

  function Own(events: seq<Event>, key: string): seq<Event> {
    if events == [] then []
    else
      var n := |events| - 1;
      Own(events[..n], key) + (if Belongs(events[n], key) then [events[n]] else [])
  }

  lemma {:induction false} OwnAre(events: seq<Event>, key: string)
    ensures forall x :: x in Own(events, key) <==> x in events && Belongs(x, key)
  {
    if events != [] {
      var front := events[..|events| - 1];
      OwnAre(front, key);
      assert events == front + [events[|events| - 1]];
    }
  }

  lemma {:induction false} OwnConcat(a: seq<Event>, b: seq<Event>, key: string)
    ensures Own(a + b, key) == Own(a, key) + Own(b, key)
  {
    if b == [] {
      assert a + b == a;
    } else {
      var front := b[..|b| - 1];
      OwnConcat(a, front, key);
      assert (a + b)[..|a + b| - 1] == a + front;
    }
  }

  /** The event goes to the session if it carries its hash and not otherwise, and the session is not evicted over it. */
  ghost predicate KeptBy(c: Cache, e: Event, key: string, parse: Parser) {
    && (e.eventId !in c.seen ==> (Belongs(e, key) <==> Stored(c.sessions, e, parse).key == key))
    && (Find(c.sessions, key).Some? ==> Find(Accept(c, e, parse).sessions, key).Some?)
  }

  /** Throughout the run the session takes its own events and no others, whatever those others are, and is never evicted. */
  ghost predicate KeptTo(events: seq<Event>, key: string, parse: Parser) {
    events == [] || (
      var front, e := events[..|events| - 1], events[|events| - 1];
      KeptTo(front, key, parse) && KeptBy(Run(EMPTY, front, parse), e, key, parse))
  }

  /** An id names one event. */
  ghost predicate IdsIdentify(events: seq<Event>) {
    forall x, y | x in events && y in events && x.eventId == y.eventId :: x == y
  }

  /** Every event arrives once, and ids name events. */
  ghost predicate DistinctIds(events: seq<Event>) {
    IdsIdentify(events) && forall x | x in events :: multiset(events)[x] == 1
  }

  lemma {:induction false} SeenAreEvents(events: seq<Event>, parse: Parser)
    ensures forall id | id in Run(EMPTY, events, parse).seen :: exists f :: f in events && f.eventId == id
  {
    if events != [] {
      var front, e := events[..|events| - 1], events[|events| - 1];
      SeenAreEvents(front, parse);
      forall id | id in Run(EMPTY, events, parse).seen ensures exists f :: f in events && f.eventId == id {
        if id in Run(EMPTY, front, parse).seen {
          var f :| f in front && f.eventId == id;
          assert f in events;
        } else {
          assert e in events && e.eventId == id;
        }
      }
    }
  }

  /** A session just created is the newest and so is not the one trimmed. */
  lemma NewestStays(c: Cache, e: Event, parse: Parser)
    requires Inv(c) && HasIdentity(e) && e.eventId !in c.seen
    requires Find(c.sessions, Stored(c.sessions, e, parse).key).None?
    ensures Find(Accept(c, e, parse).sessions, Stored(c.sessions, e, parse).key).Some?
  {
    var stored := Stored(c.sessions, e, parse);
    PutAppends(c.sessions, stored);
    var kept := Drop(c.sessions + [stored], MAX_SESSIONS);
    assert kept[|kept| - 1] == stored && stored in kept;
  }

  /** An own event that is not a duplicate is taken; any other event leaves the history as it was. */
  lemma HistoryStep(front: seq<Event>, e: Event, key: string, parse: Parser)
    requires (forall x | x in front :: HasIdentity(x)) && HasIdentity(e)
    requires KeptTo(front + [e], key, parse)
    ensures History(front + [e], key, parse)
         == if Belongs(e, key) && e.eventId !in Run(EMPTY, front, parse).seen then History(front, key, parse) + [e]
            else History(front, key, parse)
  {
    var c := Run(EMPTY, front, parse);
    assert (front + [e])[..|front|] == front;
    EmptyInv();
    RunKeepsInv(EMPTY, front, parse);
    SessionIsItsHistory(front, key, parse);
    assert KeptBy(c, e, key, parse);
    if e.eventId !in c.seen && Belongs(e, key) && Find(c.sessions, key).None? {
      NewestStays(c, e, parse);
    }
    if e.eventId !in c.seen && !Belongs(e, key) && Find(Accept(c, e, parse).sessions, key).Some? {
      FindAfterAccept(c, e, parse, key);
    }
  }

  lemma {:induction false} KeptFront(events: seq<Event>, key: string, parse: Parser)
    requires events != [] && KeptTo(events, key, parse)
    ensures KeptTo(events[..|events| - 1], key, parse)
    ensures events == events[..|events| - 1] + [events[|events| - 1]]
  {
  }

  /** Redeliveries included, the session has taken exactly the events that carry its hash. */
  lemma {:induction false} HistoryIsOwn(events: seq<Event>, key: string, parse: Parser)
    requires (forall e | e in events :: HasIdentity(e)) && IdsIdentify(events) && KeptTo(events, key, parse)
    ensures forall x :: x in History(events, key, parse) <==> x in events && Belongs(x, key)
  {
    if events != [] {
      var front, e := events[..|events| - 1], events[|events| - 1];
      KeptFront(events, key, parse);
      HistoryIsOwn(front, key, parse);
      HistoryStep(front, e, key, parse);
      SeenAreEvents(front, parse);
      if e.eventId in Run(EMPTY, front, parse).seen {
        var f :| f in front && f.eventId == e.eventId;
        assert f in events && e in events && f == e;
      }
    }
  }

  /** Without redeliveries it has taken them in order of arrival. */
  lemma {:induction false} HistoryIsOwnInOrder(events: seq<Event>, key: string, parse: Parser)
    requires (forall e | e in events :: HasIdentity(e)) && DistinctIds(events) && KeptTo(events, key, parse)
    ensures History(events, key, parse) == Own(events, key)
  {
    if events != [] {
      var front, e := events[..|events| - 1], events[|events| - 1];
      KeptFront(events, key, parse);
      DistinctFront(front, e);
      HistoryIsOwnInOrder(front, key, parse);
      HistoryStep(front, e, key, parse);
      SeenAreEvents(front, parse);
      assert Own(front, key) + [] == Own(front, key);
    }
  }

  lemma DistinctFront(front: seq<Event>, e: Event)
    requires DistinctIds(front + [e])
    ensures DistinctIds(front) && forall f | f in front :: f.eventId != e.eventId
  {
    var all := front + [e];
    assert e in all && forall x | x in front :: x in all;
    assert multiset(all) == multiset(front) + multiset{e};
    forall x | x in front ensures multiset(front)[x] == 1 && x.eventId != e.eventId {
      assert multiset(front)[x] >= 1 && multiset(all)[x] == 1;
    }
  }

  /** As long as the cache remembers every id, the session has taken each of them once. */
  lemma {:induction false} HistoryHasNoRepeats(events: seq<Event>, key: string, parse: Parser)
    requires (forall e | e in events :: HasIdentity(e)) && IdsIdentify(events) && KeptTo(events, key, parse)
    requires |events| <= MAX_SEEN_EVENTS
    ensures forall i, j | 0 <= i < j < |History(events, key, parse)| :: History(events, key, parse)[i] != History(events, key, parse)[j]
    ensures forall e | e in events :: e.eventId in Run(EMPTY, events, parse).seen
    ensures |Run(EMPTY, events, parse).seen| <= |events|
  {
    if events != [] {
      var front, e := events[..|events| - 1], events[|events| - 1];
      KeptFront(events, key, parse);
      HistoryHasNoRepeats(front, key, parse);
      HistoryStep(front, e, key, parse);
      HistoryIsOwn(front, key, parse);
    }
  }
}
