/** The session cache as the extension runs it: two insertion-ordered collections updated in place, each method proved to be the model's step. */
module CorrelationCache {
  import opened Wrappers
  import opened Correlation

  datatype SessionCorrelationUpdate = SessionCorrelationUpdate(accepted: bool, duplicate: bool, session: Session)

  class AgentSessionCorrelation {
    const parse: Parser
    var sessions: seq<Session>
    var seenEventIds: seq<string>
    ghost var acceptedIds: seq<string>
    ghost var evicted: nat

    ghost function View(): Cache
      reads this
    {
      Cache(sessions, seenEventIds, acceptedIds, evicted)
    }

    constructor (parse: Parser)
      ensures this.parse == parse && View() == EMPTY
    {
      this.parse := parse;
      sessions, seenEventIds, acceptedIds, evicted := [], [], [], 0;
    }

    method Accept(e: Event) returns (update: SessionCorrelationUpdate)
      modifies this
      ensures View() == Correlation.Accept(old(View()), e, parse)
      ensures update.accepted <==> e.eventId !in old(seenEventIds)
      ensures update.duplicate <==> !update.accepted
      ensures update.session ==
        if update.accepted then Stored(old(sessions), e, parse)
        else match Resolve(old(sessions), e, parse) case Some(s) => s case None => Create(KeyFor(e), e)
    {
      var existing := FindSession(e);
      if e.eventId in seenEventIds {
        return SessionCorrelationUpdate(false, true, if existing.Some? then existing.value else Create(KeyFor(e), e));
      }
      RememberEvent(e.eventId);
      ghost var stored := Stored(sessions, e, parse);
      var session := if existing.Some? then Merge(existing.value, e, parse) else Create(KeyFor(e), e);
      assert session == stored;
      sessions := Put(sessions, session);
      TrimSessions();
      acceptedIds := acceptedIds + [e.eventId];
      return SessionCorrelationUpdate(true, false, session);
    }

    method FindSession(e: Event) returns (r: Option<Session>)
      ensures r == Resolve(sessions, e, parse)
    {
      var exact := FindExact(e);
      if exact.Some? { return exact; }
      if Truthy(e.providerSessionHash) { return None; }
      var eventTime := parse(e.occurredAt);
      if eventTime.None? { return None; }
      var candidates: seq<Session> := [];
      for i := 0 to |sessions|
        invariant candidates == Candidates(sessions[..i], e, eventTime.value, parse)
      {
        assert sessions[..i + 1][..i] == sessions[..i];
        if IsCandidate(sessions[i], e, eventTime.value, parse) { candidates := candidates + [sessions[i]]; }
      }
      assert sessions[..|sessions|] == sessions;
      return if |candidates| == 1 then Some(candidates[0]) else None;
    }

    /** The session hash is tried before the correlation id. */
    method FindExact(e: Event) returns (r: Option<Session>)
      ensures r == Exact(sessions, e)
    {
      var exactKeys := if Truthy(e.providerSessionHash) then [e.providerSessionHash.value] else [];
      exactKeys := exactKeys + (if e.correlationId != "" then [e.correlationId] else []);
      for i := 0 to |exactKeys|
        invariant i > 0 ==> Find(sessions, ScopedKey(e, exactKeys[0])).None?
        invariant i > 1 ==> Find(sessions, ScopedKey(e, exactKeys[1])).None?
      {
        var exact := Find(sessions, ScopedKey(e, exactKeys[i]));
        if exact.Some? { return exact; }
      }
      return None;
    }

    /** The oldest ids leave first. */
    method RememberEvent(eventId: string)
      requires eventId !in seenEventIds
      modifies this`seenEventIds
      ensures seenEventIds == Drop(old(seenEventIds) + [eventId], MAX_SEEN_EVENTS)
    {
      seenEventIds := seenEventIds + [eventId];
      ghost var all := seenEventIds;
      while |seenEventIds| > MAX_SEEN_EVENTS
        invariant |seenEventIds| <= |all| && seenEventIds == all[|all| - |seenEventIds|..]
        invariant |all| >= MAX_SEEN_EVENTS ==> |seenEventIds| >= MAX_SEEN_EVENTS
        invariant |all| < MAX_SEEN_EVENTS ==> |seenEventIds| == |all|
      {
        seenEventIds := seenEventIds[1..];
      }
    }

    /** The longest-held sessions leave first. */
    method TrimSessions()
      modifies this`sessions, this`evicted
      ensures sessions == Drop(old(sessions), MAX_SESSIONS)
      ensures evicted == old(evicted) + Total(old(sessions)[..|old(sessions)| - |sessions|])
    {
      ghost var all, before := sessions, evicted;
      while |sessions| > MAX_SESSIONS
        invariant |sessions| <= |all| && sessions == all[|all| - |sessions|..]
        invariant |all| >= MAX_SESSIONS ==> |sessions| >= MAX_SESSIONS
        invariant |all| < MAX_SESSIONS ==> |sessions| == |all|
        invariant evicted == before + Total(all[..|all| - |sessions|])
      {
        TotalAppend(all, |all| - |sessions|);
        evicted := evicted + sessions[0].eventCount;
        sessions := sessions[1..];
      }
    }

    method Clear()
      modifies this
      ensures View() == EMPTY
    {
      sessions, seenEventIds, acceptedIds, evicted := [], [], [], 0;
    }
  }

  lemma TotalAppend(sessions: seq<Session>, n: nat)
    requires n < |sessions|
    ensures Total(sessions[..n + 1]) == Total(sessions[..n]) + sessions[n].eventCount
  {
    TotalSplits(sessions[..n + 1], n);
    assert sessions[..n + 1][..n] == sessions[..n];
    assert sessions[..n + 1][n..] == [sessions[n]];
  }
}
