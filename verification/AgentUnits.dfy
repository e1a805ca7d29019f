/**
 Which rows of the log make which work unit, told from the wire names, hashes and causation
 ids of the events alone.
 */
module AgentUnits {
  import opened Wrappers
  import opened AgentEvents
  import opened AgentStore
  import opened AgentInvariants
  import opened AgentRuns

  /** The hash names the unit; where it is missing or empty the causation id does, behind the kind's prefix. */
  predicate Identifies(hash: Option<string>, causation: Option<string>, prefix: string, key: string) {
    if hash.Some? && hash.value != "" then key == hash.value
    else causation.Some? && causation.value != "" && key == prefix + causation.value
  }

  /** A row of the session that is about this unit: turns by their turn hash, everything else by its task hash. */
  predicate IsAbout(e: Event, c: string, kind: UnitKind, key: string) {
    && e.correlationId == c
    && match kind
       case Turn => StartsWith(Name(e.eventType), "turn.") && Identifies(e.providerTurnHash, e.causationId, "turn:", key)
       case Tool => StartsWith(Name(e.eventType), "tool.") && Identifies(e.providerTaskHash, e.causationId, "tool:", key)
       case Subagent => StartsWith(Name(e.eventType), "subagent.") && Identifies(e.providerTaskHash, e.causationId, "subagent:", key)
       case Task => StartsWith(Name(e.eventType), "task.") && Identifies(e.providerTaskHash, e.causationId, "task:", key)
  }

  lemma AboutIsLinked(e: Event, c: string, kind: UnitKind, key: string)
    ensures IsAbout(e, c, kind, key) <==> UnitOf(e) == Some(UnitId(c, kind, key))
  {
    KindTableMatches(e.eventType);
    PrefixesEndInColons();
    if e.causationId.Some? { PrefixedBy(kind, e.causationId.value); }
  }

  lemma PrefixesEndInColons()
    ensures "turn" + ":" == "turn:" && "tool" + ":" == "tool:" && "subagent" + ":" == "subagent:" && "task" + ":" == "task:"
  {
  }

  lemma PrefixedBy(kind: UnitKind, causation: string)
    ensures KindName(kind) + ":" + causation
         == match kind
            case Turn => "turn:" + causation
            case Tool => "tool:" + causation
            case Subagent => "subagent:" + causation
            case Task => "task:" + causation
  {
    PrefixesEndInColons();
  }

  /** Positions of the rows whose event satisfies `p`. */
  function Positions(log: seq<Entry>, p: Event -> bool): set<int> {
    set i | 0 <= i < |log| && p(log[i].event)
  }

  lemma PositionsMore(front: seq<Entry>, x: Entry, p: Event -> bool)
    ensures |Positions(front + [x], p)| == |Positions(front, p)| + (if p(x.event) then 1 else 0)
  {
    var here := if p(x.event) then {|front|} else {};
    assert Positions(front + [x], p) == Positions(front, p) + here;
  }

  /** The rows about a unit of one event type. */
  function Occurrences(log: seq<Entry>, c: string, kind: UnitKind, key: string, t: EventType): set<int> {
    Positions(log, (e: Event) => IsAbout(e, c, kind, key) && e.eventType == t)
  }

  lemma {:induction false} CountIsOccurrences(log: seq<Entry>, c: string, kind: UnitKind, key: string, t: EventType)
    requires forall x | x in log :: x.workUnit == UnitOf(x.event)
    ensures CountLinked(log, UnitId(c, kind, key), t) == |Occurrences(log, c, kind, key, t)|
  {
    if log != [] {
      var front, last := log[..|log| - 1], log[|log| - 1];
      assert log == front + [last] && last in log && forall x | x in front :: x in log;
      CountIsOccurrences(front, c, kind, key, t);
      PositionsMore(front, last, (e: Event) => IsAbout(e, c, kind, key) && e.eventType == t);
      AboutIsLinked(last.event, c, kind, key);
    }
  }

  /** Row `i` is the first one about the unit. */
  ghost predicate IsFirstAbout(log: seq<Entry>, c: string, kind: UnitKind, key: string, i: int) {
    0 <= i < |log| && IsAbout(log[i].event, c, kind, key) && forall j | 0 <= j < i :: !IsAbout(log[j].event, c, kind, key)
  }

  /** Row `i` is the first one about the unit whose wire name ends in one of the terminal suffixes. */
  ghost predicate IsFirstEnding(log: seq<Entry>, c: string, kind: UnitKind, key: string, i: int) {
    && 0 <= i < |log| && IsAbout(log[i].event, c, kind, key) && TerminalByName(Name(log[i].event.eventType))
    && forall j | 0 <= j < i :: !(IsAbout(log[j].event, c, kind, key) && TerminalByName(Name(log[j].event.eventType)))
  }

  lemma {:induction false} FirstLinkedAt(log: seq<Entry>, id: UnitId, i: int)
    requires 0 <= i < |log| && log[i].workUnit == Some(id) && forall j | 0 <= j < i :: log[j].workUnit != Some(id)
    ensures FirstLinked(log, id) == Some(log[i].event)
  {
    if i < |log| - 1 {
      FirstLinkedAt(log[..|log| - 1], id, i);
    } else {
      NoneLinked(log[..i], id);
    }
  }

  lemma {:induction false} NoneLinked(log: seq<Entry>, id: UnitId)
    requires forall j | 0 <= j < |log| :: log[j].workUnit != Some(id)
    ensures FirstLinked(log, id).None?
  {
    if log != [] { NoneLinked(log[..|log| - 1], id); }
  }

  lemma FirstAboutIs(log: seq<Entry>, c: string, kind: UnitKind, key: string, i: int)
    requires IsFirstAbout(log, c, kind, key, i) && forall x | x in log :: x.workUnit == UnitOf(x.event)
    ensures FirstLinked(log, UnitId(c, kind, key)) == Some(log[i].event)
  {
    forall j | 0 <= j <= i ensures log[j].workUnit == Some(UnitId(c, kind, key)) <==> IsAbout(log[j].event, c, kind, key) {
      assert log[j] in log;
      AboutIsLinked(log[j].event, c, kind, key);
    }
    FirstLinkedAt(log, UnitId(c, kind, key), i);
  }

  lemma EndingIsTerminal(log: seq<Entry>, c: string, kind: UnitKind, key: string, i: int)
    requires IsFirstEnding(log, c, kind, key, i)
    ensures IsFirstTerminal(log, UnitId(c, kind, key), i)
  {
    forall j | 0 <= j <= i
      ensures UnitOf(log[j].event) == Some(UnitId(c, kind, key)) && IsTerminalEvent(log[j].event.eventType) <==>
                IsAbout(log[j].event, c, kind, key) && TerminalByName(Name(log[j].event.eventType))
    {
      AboutIsLinked(log[j].event, c, kind, key);
      LinkedHasKind(log[j].event);
      TablesMatchNames(log[j].event.eventType);
    }
    assert IsAbout(log[i].event, c, kind, key) && TerminalByName(Name(log[i].event.eventType));
  }

  lemma LinkedHasKind(e: Event)
    ensures UnitOf(e).Some? ==> KindOf(e.eventType).Some?
  {
  }

  /**
   In every reachable store a unit exists exactly when some row is about it. Its counters
   count the started rows about it, it starts with the first row about it, and it has the
   status, end and outcome that the first ending row about it announces; without one it is
   active.
   */
  lemma UnitsByRows(s: Store, c: string, kind: UnitKind, key: string)
    requires Inv(s)
    ensures var id := UnitId(c, kind, key); id in s.units <==> exists i :: 0 <= i < |s.log| && IsAbout(s.log[i].event, c, kind, key)
    ensures var id := UnitId(c, kind, key); id in s.units ==>
              && s.units[id].toolCallCount == |Occurrences(s.log, c, kind, key, ToolStarted)|
              && s.units[id].subagentCount == |Occurrences(s.log, c, kind, key, SubagentStarted)|
              && (forall i | IsFirstAbout(s.log, c, kind, key, i) :: s.units[id].startedAt == s.log[i].event.occurredAt)
              && (forall i | IsFirstEnding(s.log, c, kind, key, i) ::
                    && s.units[id].status == StatusByName(Name(s.log[i].event.eventType))
                    && s.units[id].endedAt == Some(s.log[i].event.occurredAt)
                    && s.units[id].outcome == OutcomeByName(Name(s.log[i].event.eventType)))
              && ((forall i :: !IsFirstEnding(s.log, c, kind, key, i)) ==>
                    s.units[id].status.UnitActive? && s.units[id].endedAt.None? && s.units[id].outcome.None?)
  {
    var id := UnitId(c, kind, key);
    UnitExistsIff(s, c, kind, key);
    if id in s.units {
      CountIsOccurrences(s.log, c, kind, key, ToolStarted);
      CountIsOccurrences(s.log, c, kind, key, SubagentStarted);
      UnitsAreConserved(s, id);
      forall i | IsFirstAbout(s.log, c, kind, key, i) ensures s.units[id].startedAt == s.log[i].event.occurredAt {
        FirstAboutIs(s.log, c, kind, key, i);
      }
      forall i | IsFirstEnding(s.log, c, kind, key, i) ensures EndsAs(s.units[id], s.log[i].event) {
        UnitEndsAs(s, c, kind, key, i);
      }
      if forall i :: !IsFirstEnding(s.log, c, kind, key, i) { NeverEnds(s, c, kind, key); }
    }
  }

  lemma UnitExistsIff(s: Store, c: string, kind: UnitKind, key: string)
    requires Inv(s)
    ensures UnitId(c, kind, key) in s.units <==> exists i :: 0 <= i < |s.log| && IsAbout(s.log[i].event, c, kind, key)
  {
    var id := UnitId(c, kind, key);
    UnitsAreConserved(s, id);
    if x :| x in s.log && UnitOf(x.event) == Some(id) {
      var i :| 0 <= i < |s.log| && s.log[i] == x;
      AboutIsLinked(x.event, c, kind, key);
    }
    if i :| 0 <= i < |s.log| && IsAbout(s.log[i].event, c, kind, key) {
      AboutIsLinked(s.log[i].event, c, kind, key);
      assert s.log[i] in s.log;
    }
  }

  predicate EndsAs(unit: WorkUnit, e: Event) {
    && unit.status == StatusByName(Name(e.eventType)) && unit.endedAt == Some(e.occurredAt)
    && unit.outcome == OutcomeByName(Name(e.eventType))
  }

  lemma UnitEndsAs(s: Store, c: string, kind: UnitKind, key: string, i: int)
    requires Inv(s) && UnitId(c, kind, key) in s.units && IsFirstEnding(s.log, c, kind, key, i)
    ensures EndsAs(s.units[UnitId(c, kind, key)], s.log[i].event)
  {
    EndingIsTerminal(s.log, c, kind, key, i);
    UnitsAreConserved(s, UnitId(c, kind, key));
    LinkedHasKind(s.log[i].event);
    TablesMatchNames(s.log[i].event.eventType);
  }

  lemma {:induction false} FirstEndingExists(log: seq<Entry>, c: string, kind: UnitKind, key: string, n: nat) returns (i: int)
    requires n < |log| && IsAbout(log[n].event, c, kind, key) && TerminalByName(Name(log[n].event.eventType))
    ensures IsFirstEnding(log, c, kind, key, i)
    decreases n
  {
    if j :| 0 <= j < n && IsAbout(log[j].event, c, kind, key) && TerminalByName(Name(log[j].event.eventType)) {
      i := FirstEndingExists(log, c, kind, key, j);
    } else {
      i := n;
    }
  }

  lemma NeverEnds(s: Store, c: string, kind: UnitKind, key: string)
    requires Inv(s) && UnitId(c, kind, key) in s.units && forall i :: !IsFirstEnding(s.log, c, kind, key, i)
    ensures var unit := s.units[UnitId(c, kind, key)]; unit.status.UnitActive? && unit.endedAt.None? && unit.outcome.None?
  {
    var id := UnitId(c, kind, key);
    LinkedRows(s.log, id);
    if x :| x in s.log && UnitOf(x.event) == Some(id) && IsTerminalEvent(x.event.eventType) {
      var n :| 0 <= n < |s.log| && s.log[n] == x;
      AboutIsLinked(x.event, c, kind, key);
      TablesMatchNames(x.event.eventType);
      var i := FirstEndingExists(s.log, c, kind, key, n);
    }
  }

  lemma AboutHasKey(e: Event, c: string, kind: UnitKind, key: string)
    requires IsAbout(e, c, kind, key)
    ensures key != ""
  {
    if e.causationId.Some? { PrefixedBy(kind, e.causationId.value); }
  }

  /** No unit has an empty key. */
  lemma KeysAreNotEmpty(s: Store, id: UnitId)
    requires Inv(s) && id in s.units
    ensures id.key != ""
  {
    UnitExistsIff(s, id.correlationId, id.kind, id.key);
    var i :| 0 <= i < |s.log| && IsAbout(s.log[i].event, id.correlationId, id.kind, id.key);
    AboutHasKey(s.log[i].event, id.correlationId, id.kind, id.key);
  }

  /** An event with neither hash nor causation id touches no unit, and neither does one that is about no turn, tool, subagent or task. */
  lemma UnidentifiedTouchesNoUnit(s: Store, userId: string, deviceId: string, event: Event, now: int)
    requires
      || (&& event.providerTurnHash in {None, Some("")} && event.providerTaskHash in {None, Some("")}
          && event.causationId in {None, Some("")})
      || (var name := Name(event.eventType);
          !StartsWith(name, "turn.") && !StartsWith(name, "tool.") && !StartsWith(name, "subagent.") && !StartsWith(name, "task."))
    ensures Ingest(s, userId, deviceId, event, now).units == s.units
  {
    KindTableMatches(event.eventType);
    if Decide(s, userId, deviceId, event).Accepted? { IngestAccepts(s, userId, deviceId, event, now); }
  }
}
