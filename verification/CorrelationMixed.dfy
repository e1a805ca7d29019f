/**
 Sessions fed by any mixture of sources, with and without sequence numbers. Which event
 replaces which is then neither transitive nor a matter of the two events alone, because a
 session keeps the last sequence number it took and the strongest source it has heard.
 Still, whether the order of arrival matters is decided by the events pair by pair.
 */
module CorrelationMixed {
  import opened Wrappers
  import opened Sorting
  import opened Strings
  import opened Correlation
  import opened CorrelationHistory
  import opened CorrelationOrder

  function Rank(e: Event): nat {
    SourcePriority(e.integrationMode)
  }

  // ------------------------------------------------------------ where a session stands

  /** The event whose lifecycle the session carries, the last sequence number it took, and the strongest source so far. */
  datatype Standing = Standing(current: Event, carried: Option<int>, priority: nat)

  /** `e` is newer than what the session carries. */
  predicate Beats(e: Event, t: Standing, parse: Parser) {
    if e.sequence.Some? && t.carried.Some? then
      e.sequence.value > t.carried.value || (e.sequence == t.carried && TextAfter(e, t.current))
    else Replaces(e, t.current, parse)
  }

  function Next(t: Standing, e: Event, parse: Parser): Standing {
    var priority := if Rank(e) > t.priority then Rank(e) else t.priority;
    if Beats(e, t, parse) && Rank(e) >= t.priority then Standing(e, if e.sequence.Some? then e.sequence else t.carried, priority)
    else t.(priority := priority)
  }

  function Stand(events: seq<Event>, parse: Parser): Standing
    requires events != []
  {
    if |events| == 1 then Standing(events[0], events[0].sequence, Rank(events[0]))
    else Next(Stand(events[..|events| - 1], parse), events[|events| - 1], parse)
  }

  predicate StandsAt(s: Session, t: Standing) {
    && s.status == StatusForEvent(t.current.eventType) && s.lastEventId == t.current.eventId
    && s.lastOccurredAt == t.current.occurredAt && s.lastSequence == t.carried && s.sourcePriority == t.priority
  }

  lemma MergeAdvances(s: Session, t: Standing, e: Event, parse: Parser)
    requires StandsAt(s, t)
    ensures StandsAt(Merge(s, e, parse), Next(t, e, parse))
  {
  }

  lemma {:induction false} AloneStands(key: string, events: seq<Event>, parse: Parser)
    requires events != []
    ensures StandsAt(Alone(key, events, parse), Stand(events, parse))
  {
    var front := events[..|events| - 1];
    if front != [] {
      AloneStands(key, front, parse);
      MergeAdvances(Alone(key, front, parse), Stand(front, parse), events[|events| - 1], parse);
    }
  }

  lemma StandMore(front: seq<Event>, e: Event, parse: Parser)
    requires front != []
    ensures Stand(front + [e], parse) == Next(Stand(front, parse), e, parse)
  {
    assert (front + [e])[..|front|] == front;
  }

  /** The carried number is the current event's own, or that of an event the current one would have replaced directly. */
  ghost predicate Carries(events: seq<Event>, t: Standing, parse: Parser) {
    if t.current.sequence.Some? then t.carried == t.current.sequence
    else t.carried.Some? ==>
      exists w :: w in events && w.sequence == t.carried && Replaces(t.current, w, parse) && Rank(t.current) >= Rank(w)
  }

  ghost predicate WellStanding(events: seq<Event>, t: Standing, parse: Parser) {
    && t.current in events && (forall e | e in events :: Rank(e) <= t.priority) && Carries(events, t, parse)
    && exists e :: e in events && Rank(e) == t.priority
  }

  lemma NextIsWellStanding(front: seq<Event>, t: Standing, e: Event, parse: Parser)
    requires WellStanding(front, t, parse)
    ensures WellStanding(front + [e], Next(t, e, parse), parse)
  {
    var all, r := front + [e], Next(t, e, parse);
    assert e in all && forall x | x in front :: x in all;
    if r.current == e && e.sequence.None? && t.carried.Some? && Beats(e, t, parse) && Rank(e) >= t.priority {
      if t.current.sequence.Some? {
        assert t.current in all && t.current.sequence == r.carried;
      } else {
        var w :| w in front && w.sequence == t.carried && Replaces(t.current, w, parse) && Rank(t.current) >= Rank(w);
        assert w in all && Replaces(e, w, parse);
      }
    }
  }

  lemma {:induction false} StandIsWell(events: seq<Event>, parse: Parser)
    requires events != []
    ensures WellStanding(events, Stand(events, parse), parse)
  {
    var front, last := events[..|events| - 1], events[|events| - 1];
    assert events == front + [last] && last in events;
    if front != [] {
      StandIsWell(front, parse);
      NextIsWellStanding(front, Stand(front, parse), last, parse);
    }
  }

  // ------------------------------------------------------------ the dominant event

  /** On its own, `e` would replace `f`. */
  predicate Supersedes(e: Event, f: Event, parse: Parser) {
    if e.sequence.Some? && f.sequence.Some? then After(e, f) else Replaces(e, f, parse)
  }

  /** `z` comes from no weaker a source and replaces `w`, and `w` could not replace it. */
  predicate Outdoes(z: Event, w: Event, parse: Parser) {
    Rank(w) <= Rank(z) && Supersedes(z, w, parse) && (Rank(w) == Rank(z) ==> !Supersedes(w, z, parse))
  }

  /** Where `c` can have replaced `w` and kept its sequence number, `z` with the same number has the greater text. */
  predicate OutdoesBehind(z: Event, w: Event, c: Event, parse: Parser) {
    w.sequence.Some? && c.sequence.None? && z.sequence == w.sequence && Replaces(c, w, parse) && Rank(c) >= Rank(w) ==> TextAfter(z, c)
  }

  /** `z` outdoes every other event, and is numbered if any event is. */
  ghost predicate Dominant(events: seq<Event>, z: Event, parse: Parser) {
    && z in events
    && (forall w | w in events && w != z :: Outdoes(z, w, parse))
    && (forall w | w in events && w.sequence.Some? :: z.sequence.Some?)
    && (forall w, c | w in events && c in events && w != z && c != z :: OutdoesBehind(z, w, c, parse))
  }

  ghost predicate HasDominant(events: seq<Event>, parse: Parser) {
    exists z :: Dominant(events, z, parse)
  }

  /** The session stands at `z` with `z`'s own number. */
  predicate At(t: Standing, z: Event) {
    t.current == z && t.carried == z.sequence
  }

  lemma DominantArrives(all: seq<Event>, front: seq<Event>, t: Standing, z: Event, parse: Parser)
    requires Dominant(all, z, parse) && WellStanding(front, t, parse)
    requires z !in front && forall e | e in front :: e in all
    ensures At(Next(t, z, parse), z)
  {
    assert t.current in all && Outdoes(z, t.current, parse);
    if t.carried.Some? && t.current.sequence.None? {
      var w :| w in front && w.sequence == t.carried && Replaces(t.current, w, parse) && Rank(t.current) >= Rank(w);
      assert w in all && Outdoes(z, w, parse) && OutdoesBehind(z, w, t.current, parse);
    }
  }

  lemma DominantStays(all: seq<Event>, t: Standing, z: Event, e: Event, parse: Parser)
    requires Dominant(all, z, parse) && At(t, z) && Rank(z) <= t.priority && e in all && e != z
    ensures At(Next(t, e, parse), z)
  {
    assert Outdoes(z, e, parse);
  }

  ghost predicate OnceEach(events: seq<Event>) {
    forall e | e in events :: multiset(events)[e] == 1
  }

  lemma OnceEachFront(front: seq<Event>, last: Event)
    requires OnceEach(front + [last])
    ensures OnceEach(front) && last !in front
  {
    var all := front + [last];
    assert multiset(all) == multiset(front) + multiset{last} && last in all;
    forall e | e in front ensures multiset(front)[e] == 1 && e != last {
      assert e in all && multiset(front)[e] >= 1;
    }
  }

  /** Wherever it arrives, a dominant event is where the session ends. */
  lemma {:induction false} DominantWins(all: seq<Event>, order: seq<Event>, z: Event, parse: Parser)
    requires Dominant(all, z, parse) && z in order && OnceEach(order) && forall e | e in order :: e in all
    ensures At(Stand(order, parse), z)
  {
    var front, last := order[..|order| - 1], order[|order| - 1];
    assert order == front + [last] && last in order && forall e | e in front :: e in order;
    OnceEachFront(front, last);
    if front != [] {
      StandIsWell(front, parse);
      if last == z {
        DominantArrives(all, front, Stand(front, parse), z, parse);
      } else {
        DominantWins(all, front, z, parse);
        DominantStays(all, Stand(front, parse), z, last, parse);
      }
    }
  }

  // ------------------------------------------------------------ only a dominant event wins everywhere

  /** An event that is current at the end and did not arrive late was current all along, with one carried number. */
  lemma {:induction false} CurrentAllAlong(p: seq<Event>, rest: seq<Event>, z: Event, parse: Parser)
    requires p != [] && z !in rest && Stand(p + rest, parse).current == z
    ensures Stand(p, parse).current == z && Stand(p + rest, parse).carried == Stand(p, parse).carried
  {
    if rest == [] {
      assert p + rest == p;
    } else {
      var front, last := rest[..|rest| - 1], rest[|rest| - 1];
      assert p + rest == (p + front) + [last] && last in rest;
      StandMore(p + front, last, parse);
      CurrentAllAlong(p, front, z, parse);
    }
  }

  /** However the events arrive after these first ones, the session ends at `z`. */
  ghost predicate EndsAt(p: seq<Event>, rest: seq<Event>, z: Event, carried: Option<int>, parse: Parser) {
    p != [] && z !in rest && Stand(p + rest, parse).current == z && Stand(p + rest, parse).carried == carried
  }

  lemma StandOfTwo(a: Event, b: Event, parse: Parser)
    ensures Stand([a, b], parse) == Next(Standing(a, a.sequence, Rank(a)), b, parse)
  {
    assert [a, b][..1] == [a];
  }

  lemma StandOfThree(a: Event, b: Event, c: Event, parse: Parser)
    ensures Stand([a, b, c], parse) == Next(Next(Standing(a, a.sequence, Rank(a)), b, parse), c, parse)
  {
    assert [a, b, c][..2] == [a, b];
    StandOfTwo(a, b, parse);
  }

  lemma OutdoesIfSecond(w: Event, z: Event, rest: seq<Event>, carried: Option<int>, parse: Parser)
    requires w != z && EndsAt([w, z], rest, z, carried, parse)
    ensures Rank(w) <= Rank(z) && Supersedes(z, w, parse)
    ensures z.sequence.None? ==> carried == w.sequence
  {
    CurrentAllAlong([w, z], rest, z, parse);
    StandOfTwo(w, z, parse);
  }

  lemma OutdoesIfFirst(w: Event, z: Event, rest: seq<Event>, carried: Option<int>, parse: Parser)
    requires w != z && EndsAt([z, w], rest, z, carried, parse)
    ensures Rank(w) == Rank(z) ==> !Supersedes(w, z, parse)
    ensures carried == z.sequence
  {
    CurrentAllAlong([z, w], rest, z, parse);
    StandOfTwo(z, w, parse);
  }

  lemma OutdoesIfThird(w: Event, c: Event, z: Event, rest: seq<Event>, carried: Option<int>, parse: Parser)
    requires w != z && c != z && EndsAt([w, c, z], rest, z, carried, parse)
    ensures OutdoesBehind(z, w, c, parse)
  {
    CurrentAllAlong([w, c, z], rest, z, parse);
    StandOfThree(w, c, z, parse);
  }

  // ------------------------------------------------------------ arrival orders of a run

  /** A session kept to its own events in every order of a run without redeliveries. */
  ghost predicate KeptSession(events: seq<Event>, key: string, parse: Parser) {
    && (forall e | e in events :: HasIdentity(e)) && DistinctIds(events) && AlwaysKept(events, key, parse)
    && Own(events, key) != []
  }

  lemma {:induction false} OwnDistinct(events: seq<Event>, key: string)
    requires OnceEach(events)
    ensures OnceEach(Own(events, key))
  {
    OwnAre(events, key);
    forall e | e in Own(events, key) ensures multiset(Own(events, key))[e] == 1 {
      OwnCounts(events, key, e);
    }
  }

  lemma {:induction false} OwnCounts(events: seq<Event>, key: string, x: Event)
    ensures multiset(Own(events, key))[x] <= multiset(events)[x]
  {
    if events != [] {
      var front, last := events[..|events| - 1], events[|events| - 1];
      OwnCounts(front, key, x);
      assert events == front + [last];
    }
  }

  /** What any arrival order ends at. */
  lemma OrderEndsAt(events: seq<Event>, order: seq<Event>, key: string, parse: Parser)
    requires KeptSession(events, key, parse) && multiset(order) == multiset(events)
    ensures Own(order, key) != [] && OnceEach(Own(order, key))
    ensures forall x :: x in Own(order, key) <==> x in Own(events, key)
    ensures var t := Stand(Own(order, key), parse);
            && t.current in Own(events, key)
            && LifecycleOf(Run(EMPTY, order, parse), key)
                 == Some((StatusForEvent(t.current.eventType), t.current.eventId, t.current.occurredAt, t.carried))
  {
    SameMultisetSameMembers(order, events);
    PermutedIsDistinct(events, order);
    OwnAre(order, key);
    OwnAre(events, key);
    assert Own(events, key)[0] in Own(events, key);
    OwnDistinct(order, key);
    SessionsEvolveAlone(order, key, parse);
    AloneStands(key, Own(order, key), parse);
    StandIsWell(Own(order, key), parse);
  }

  lemma DominantIsOrderFree(events: seq<Event>, z: Event, key: string, parse: Parser)
    requires KeptSession(events, key, parse) && Dominant(Own(events, key), z, parse)
    ensures forall order | multiset(order) == multiset(events) ::
              LifecycleOf(Run(EMPTY, order, parse), key) == Some((StatusForEvent(z.eventType), z.eventId, z.occurredAt, z.sequence))
  {
    forall order | multiset(order) == multiset(events)
      ensures LifecycleOf(Run(EMPTY, order, parse), key) == Some((StatusForEvent(z.eventType), z.eventId, z.occurredAt, z.sequence))
    {
      OrderEndsAt(events, order, key, parse);
      DominantWins(Own(events, key), Own(order, key), z, parse);
    }
  }

  function Without(events: seq<Event>, x: Event): (r: seq<Event>)
    requires x in events
    ensures multiset(r) == multiset(events) - multiset{x}
  {
    if events[0] == x then
      assert events == [x] + events[1..];
      events[1..]
    else
      assert events == [events[0]] + events[1..];
      [events[0]] + Without(events[1..], x)
  }

  lemma {:induction false} Others(events: seq<Event>, p: seq<Event>) returns (rest: seq<Event>)
    requires multiset(p) <= multiset(events)
    ensures multiset(p + rest) == multiset(events)
  {
    if p == [] {
      rest := events;
      assert p + rest == rest;
    } else {
      var front, last := p[..|p| - 1], p[|p| - 1];
      assert p == front + [last];
      assert multiset(p) == multiset(front) + multiset{last};
      var more := Others(events, front);
      assert multiset(events) == multiset(front) + multiset(more);
      assert multiset(p)[last] <= multiset(events)[last];
      assert last in more;
      rest := Without(more, last);
    }
  }

  lemma {:induction false} OwnAll(p: seq<Event>, key: string)
    requires forall x | x in p :: Belongs(x, key)
    ensures Own(p, key) == p
  {
    if p != [] {
      var front, last := p[..|p| - 1], p[|p| - 1];
      assert p == front + [last] && last in p && forall x | x in front :: x in p;
      OwnAll(front, key);
    }
  }

  /** An order of the run in which these own events come first. */
  lemma OrderStarting(events: seq<Event>, p: seq<Event>, key: string) returns (order: seq<Event>, rest: seq<Event>)
    requires OnceEach(events) && multiset(p) <= multiset(events) && forall x | x in p :: Belongs(x, key)
    ensures multiset(order) == multiset(events) && Own(order, key) == p + rest
    ensures forall x | x in p :: x !in rest
  {
    var others := Others(events, p);
    order, rest := p + others, Own(others, key);
    OwnAll(p, key);
    OwnConcat(p, others, key);
    OwnAre(others, key);
    assert multiset(order) == multiset(p) + multiset(others);
    forall x | x in p ensures x !in others {
      assert multiset(p)[x] >= 1 && x in multiset(events) && x in events && multiset(events)[x] == 1;
    }
  }

  /** When every order ends like one that ends at `z`, so does the one that starts with these events. */
  lemma SameEnd(events: seq<Event>, p: seq<Event>, z: Event, carried: Option<int>, key: string, parse: Parser) returns (rest: seq<Event>)
    requires KeptSession(events, key, parse) && z in p && multiset(p) <= multiset(events) && forall x | x in p :: x in Own(events, key)
    requires forall order | multiset(order) == multiset(events) ::
               LifecycleOf(Run(EMPTY, order, parse), key) == Some((StatusForEvent(z.eventType), z.eventId, z.occurredAt, carried))
    ensures EndsAt(p, rest, z, carried, parse)
  {
    OwnAre(events, key);
    var order;
    order, rest := OrderStarting(events, p, key);
    OrderEndsAt(events, order, key, parse);
    var t := Stand(Own(order, key), parse);
    assert t.current in events && z in events && t.current.eventId == z.eventId;
  }

  lemma Included(events: seq<Event>, p: seq<Event>)
    requires OnceEach(p) && forall x | x in p :: x in events
    ensures multiset(p) <= multiset(events)
  {
    forall x ensures multiset(p)[x] <= multiset(events)[x] {
      if x in p { assert x in multiset(events); }
    }
  }

  lemma PairIsOnceEach(a: Event, b: Event)
    requires a != b
    ensures OnceEach([a, b])
  {
  }

  lemma TripleIsOnceEach(a: Event, b: Event, c: Event)
    requires a != b && b != c && a != c
    ensures OnceEach([a, b, c])
  {
  }

  ghost predicate AllEndAt(events: seq<Event>, z: Event, carried: Option<int>, key: string, parse: Parser) {
    forall order | multiset(order) == multiset(events) ::
      LifecycleOf(Run(EMPTY, order, parse), key) == Some((StatusForEvent(z.eventType), z.eventId, z.occurredAt, carried))
  }

  lemma AgreedOutdoes(events: seq<Event>, z: Event, w: Event, carried: Option<int>, key: string, parse: Parser)
    requires KeptSession(events, key, parse) && AllEndAt(events, z, carried, key, parse)
    requires z in Own(events, key) && w in Own(events, key) && w != z
    ensures Outdoes(z, w, parse) && (w.sequence.Some? ==> z.sequence.Some?)
  {
    OwnAre(events, key);
    PairIsOnceEach(w, z);
    PairIsOnceEach(z, w);
    Included(events, [w, z]);
    Included(events, [z, w]);
    var second := SameEnd(events, [w, z], z, carried, key, parse);
    OutdoesIfSecond(w, z, second, carried, parse);
    var first := SameEnd(events, [z, w], z, carried, key, parse);
    OutdoesIfFirst(w, z, first, carried, parse);
  }

  lemma AgreedOutdoesBehind(events: seq<Event>, z: Event, w: Event, c: Event, carried: Option<int>, key: string, parse: Parser)
    requires KeptSession(events, key, parse) && AllEndAt(events, z, carried, key, parse)
    requires z in Own(events, key) && w in Own(events, key) && c in Own(events, key) && w != z && c != z
    ensures OutdoesBehind(z, w, c, parse)
  {
    if w != c {
      OwnAre(events, key);
      TripleIsOnceEach(w, c, z);
      Included(events, [w, c, z]);
      var rest := SameEnd(events, [w, c, z], z, carried, key, parse);
      OutdoesIfThird(w, c, z, rest, carried, parse);
    }
  }

  lemma AgreementHasDominant(events: seq<Event>, key: string, parse: Parser)
    requires KeptSession(events, key, parse) && LifecycleIsOrderFree(events, key, parse)
    ensures HasDominant(Own(events, key), parse)
  {
    OrderEndsAt(events, events, key, parse);
    var own := Own(events, key);
    var t := Stand(own, parse);
    var z := t.current;
    assert AllEndAt(events, z, t.carried, key, parse);
    forall w | w in own && w != z ensures Outdoes(z, w, parse) && (w.sequence.Some? ==> z.sequence.Some?) {
      AgreedOutdoes(events, z, w, t.carried, key, parse);
    }
    forall w, c | w in own && c in own && w != z && c != z ensures OutdoesBehind(z, w, c, parse) {
      AgreedOutdoesBehind(events, z, w, c, t.carried, key, parse);
    }
    assert Dominant(own, z, parse);
  }

  /**
   For any mixture of sources, numbered or not: every order in which the events arrive leaves
   the session with the same lifecycle if and only if one of its events is dominant.
   */
  lemma OrderFreeIff(events: seq<Event>, key: string, parse: Parser)
    requires KeptSession(events, key, parse)
    ensures LifecycleIsOrderFree(events, key, parse) <==> HasDominant(Own(events, key), parse)
  {
    if LifecycleIsOrderFree(events, key, parse) {
      AgreementHasDominant(events, key, parse);
    } else if HasDominant(Own(events, key), parse) {
      var z :| Dominant(Own(events, key), z, parse);
      DominantIsOrderFree(events, z, key, parse);
    }
  }

  // ------------------------------------------------------------ sources that all number their events, or none

  /** Of one numbering source the greatest event is always dominant. */
  lemma GreatestIsDominant(own: seq<Event>, mode: IntegrationMode, parse: Parser)
    requires own != [] && Sequenced(own, mode) && IdsIdentify(own)
    ensures Dominant(own, Greatest(own), parse)
  {
    var z := Greatest(own);
    GreatestIsLast(own);
    forall w | w in own && w != z ensures Outdoes(z, w, parse) {
      AfterIsStrictOrder(z, w, w);
    }
  }

  /** Of one source without numbers an event is dominant exactly when the times single it out. */
  lemma SingledOutIsDominant(own: seq<Event>, z: Event, mode: IntegrationMode, parse: Parser)
    requires OnceEach(own) && Unsequenced(own, mode)
    ensures Dominant(own, z, parse) <==> SingledOut(own, z, parse)
  {
    if z in own && |own| > 1 { AnotherEvent(own, z); }
    if z in own && |own| == 1 { assert own == [z]; }
    if SingledOut(own, z, parse) {
      forall w | w in own && w != z ensures Outdoes(z, w, parse) {
      }
    }
    if Dominant(own, z, parse) {
      forall w | w in own && w != z ensures Replaces(z, w, parse) && !Replaces(w, z, parse) {
        assert Outdoes(z, w, parse);
      }
    }
  }

  lemma AnotherEvent(own: seq<Event>, z: Event)
    requires OnceEach(own) && z in own && |own| > 1
    ensures exists w :: w in own && w != z
  {
    FirstTwo(own);
    assert own[0] in own && own[1] in own;
  }

  lemma FirstTwo(own: seq<Event>)
    requires |own| > 1
    ensures own[0] == own[1] ==> multiset(own)[own[0]] > 1
  {
    assert own == [own[0], own[1]] + own[2..];
    assert multiset(own) == multiset{own[0], own[1]} + multiset(own[2..]);
  }

  /** One source numbers all its events: the final lifecycle never depends on the order. */
  lemma SequencedOrderFree(events: seq<Event>, key: string, mode: IntegrationMode, parse: Parser)
    requires KeptSession(events, key, parse) && Sequenced(Own(events, key), mode)
    ensures LifecycleIsOrderFree(events, key, parse)
  {
    OwnAre(events, key);
    GreatestIsDominant(Own(events, key), mode, parse);
    OrderFreeIff(events, key, parse);
  }

  /**
   One source numbers none of its events: the final lifecycle is independent of the order of
   arrival if and only if the events' times single one of them out.
   */
  lemma UnsequencedOrderFreeIff(events: seq<Event>, key: string, mode: IntegrationMode, parse: Parser)
    requires KeptSession(events, key, parse) && Unsequenced(Own(events, key), mode)
    ensures LifecycleIsOrderFree(events, key, parse) <==> SinglesOut(Own(events, key), parse)
  {
    OrderFreeIff(events, key, parse);
    OwnDistinct(events, key);
    forall z ensures Dominant(Own(events, key), z, parse) <==> SingledOut(Own(events, key), z, parse) {
      SingledOutIsDominant(Own(events, key), z, mode, parse);
    }
  }

  /** Among numbered events the latest must bear a number too, or the order matters. */
  lemma UnnumberedLatestIsNotFree(events: seq<Event>, z: Event, w: Event, key: string, parse: Parser)
    requires KeptSession(events, key, parse) && z in Own(events, key) && w in Own(events, key)
    requires z.sequence.None? && w.sequence.Some? && Parses(z, parse)
    requires forall x | x in Own(events, key) && x != z && Parses(x, parse) :: parse(x.occurredAt).value < parse(z.occurredAt).value
    ensures !LifecycleIsOrderFree(events, key, parse)
  {
    OrderFreeIff(events, key, parse);
    forall d ensures !Dominant(Own(events, key), d, parse) {
      assert d in Own(events, key) && d != z ==> !Outdoes(d, z, parse);
    }
  }
}
