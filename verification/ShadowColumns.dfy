/**
 What stands in each column of an evaluation, a session fact and a dataset row, told from the
 events and arguments alone.
 */
module ShadowColumns {
  import opened Wrappers
  import opened Sorting
  import opened Strings
  import opened AgentEvents
  import opened Arithmetic
  import opened ShadowContract
  import opened ShadowFact
  import A = ShadowAggregation
  import T = ShadowTimeline
  import I = Intervals

  // ------------------------------------------------------------ an evaluation

  /** Allowed passive time: within the passive time, the ratio of the qualified time and the session's cap. */
  predicate Allowed(p: int, passive: int, qualified: int, policy: Policy) {
    0 <= p <= passive && p * 1_000_000 <= qualified * policy.passiveCapRatioPpm && p <= policy.passiveSessionCapMs
  }

  /**
   The columns of an evaluation. Its three durations are the input's; the qualified time is
   the given one, or what is both viewable and eligible, and none when it stays below the
   minimum; passive time is the rest of the viewable; billable is the most that is allowed.
   */
  lemma EvaluationIs(input: Input, policy: Policy)
    requires Evaluate(input, policy).Ok?
    ensures
      var m := Evaluate(input, policy).value;
      var q := if input.qualifiedMs.Some? then input.qualifiedMs.value
               else if input.viewableMs <= input.aiEligibleMs then input.viewableMs else input.aiEligibleMs;
      && m.renderedMs == input.renderedMs && m.viewableMs == input.viewableMs && m.aiEligibleMs == input.aiEligibleMs
      && m.qualifiedMs == (if q < policy.minimumQualifiedMs then 0 else q)
      && m.passiveMs + m.qualifiedMs == input.viewableMs
      && Allowed(m.passiveBillableMs, m.passiveMs, m.qualifiedMs, policy)
      && !Allowed(m.passiveBillableMs + 1, m.passiveMs, m.qualifiedMs, policy)
      && m.weightedBillablePpmMs == 1_000_000 * m.qualifiedMs + m.passiveBillableMs * policy.alphaPpm
  {
    var m := Evaluate(input, policy).value;
    PpmFloorBound(m.qualifiedMs, policy.passiveCapRatioPpm);
    FloorIs(m.qualifiedMs * policy.passiveCapRatioPpm, m.passiveBillableMs);
  }

  /** The bounds between the numbers of an evaluation, those of every fact, row and comparison. */
  lemma EvaluationIsBounded(input: Input, policy: Policy)
    requires Evaluate(input, policy).Ok?
    ensures var m := Evaluate(input, policy).value;
            && 0 <= m.qualifiedMs <= m.viewableMs <= m.renderedMs <= 0x1F_FFFF_FFFF_FFFF
            && m.qualifiedMs <= m.aiEligibleMs <= 0x1F_FFFF_FFFF_FFFF
            && 0 <= m.passiveBillableMs <= m.passiveMs <= m.viewableMs
            && (m.qualifiedMs == 0 ==> m.passiveBillableMs == 0)
            && 0 <= m.weightedBillablePpmMs
  {
    var m := Evaluate(input, policy).value;
    EvaluateSucceedsIff(input, policy);
    PpmFloorBound(m.qualifiedMs, policy.passiveCapRatioPpm);
    ProductNonNegative(m.passiveBillableMs, policy.alphaPpm);
  }

  /** Being at most the floor of a quotient is not exceeding the dividend. */
  lemma FloorIs(n: int, p: int)
    ensures p <= n / PPM_SCALE <==> p * 1_000_000 <= n
    ensures p + 1 <= n / PPM_SCALE <==> (p + 1) * 1_000_000 <= n
  {
  }

  /** Amounts that fit: no payment of less than nothing, all that is charged paid out or kept, and no reward for no qualified time. */
  lemma AmountsFitIff(qualifiedMs: int, e: Economics)
    ensures EconomicsRefinements(qualifiedMs, Some(e)) <==>
              e.rewardMinor >= 0 && e.contributionMinor >= 0 && e.chargeMinor == e.rewardMinor + e.contributionMinor
              && (qualifiedMs != 0 || e.rewardMinor == 0)
    ensures EconomicsRefinements(qualifiedMs, None)
  {
  }

  /** Facts that meet the schema: its policy and counts in range, the passive time the rest of the viewable and its billable part allowed. */
  lemma NumbersFitIff(f: Fact)
    ensures MeasurementRefinements(f) <==>
              && 1 <= f.policyVersion <= 9_007_199_254_740_991 && 0 <= f.alphaPpm <= 1_000_000 && 0 <= f.passiveCapRatioPpm <= 1_000_000
              && 0 <= f.passiveSessionCapMs <= 9_007_199_254_740_991 && 0 <= f.minimumQualifiedMs <= 9_007_199_254_740_991
              && 0 <= f.aiEligibleMs <= 9_007_199_254_740_991
              && 0 <= f.qualifiedMs <= f.viewableMs <= f.renderedMs <= 9_007_199_254_740_991 && f.qualifiedMs <= f.aiEligibleMs
              && f.passiveMs + f.qualifiedMs == f.viewableMs && 0 <= f.passiveBillableMs <= f.passiveMs
              && f.passiveBillableMs * 1_000_000 <= f.qualifiedMs * f.passiveCapRatioPpm && f.passiveBillableMs <= f.passiveSessionCapMs
              && f.weightedBillablePpmMs == 1_000_000 * f.qualifiedMs + f.passiveBillableMs * f.alphaPpm
  {
    FloorIs(f.qualifiedMs * f.passiveCapRatioPpm, f.passiveBillableMs);
    if f.qualifiedMs >= 0 && f.passiveBillableMs >= 0 && f.alphaPpm >= 0 {
      ProductNonNegative(f.passiveBillableMs, f.alphaPpm);
    }
  }

  // ------------------------------------------------------------ the numbers of a fact

  /** The numbers of a fact: bounds, policy and amounts as given, and the durations that its events make. */
  lemma FactNumbersAre(events: seq<CanonicalEvent>, policy: Policy, startedAt: int, endedAt: int, economics: Option<Economics>)
    requires A.DistinctIds(events) && |events| < AgentEvents.MAX_SAFE_INTEGER && BuildFact(events, policy, startedAt, endedAt, economics).Ok?
    ensures
      var f := BuildFact(events, policy, startedAt, endedAt, economics).value;
      var q := |T.WorkingMillis(events, endedAt) * T.ShowingMillis(events, T.ShowsIt, endedAt)|;
      && f.startedAt == startedAt && f.endedAt == endedAt && f.economics == economics
      && f.policyVersion == policy.version && f.alphaPpm == policy.alphaPpm && f.passiveCapRatioPpm == policy.passiveCapRatioPpm
      && f.passiveSessionCapMs == policy.passiveSessionCapMs && f.minimumQualifiedMs == policy.minimumQualifiedMs
      && f.aiEligibleMs == |T.WorkingMillis(events, endedAt)|
      && f.viewableMs == |T.ShowingMillis(events, T.ShowsIt, endedAt)|
      && f.renderedMs == |T.ShowingMillis(events, T.RendersIt, endedAt)|
      && f.qualifiedMs == (if q < policy.minimumQualifiedMs then 0 else q)
      && f.passiveMs + f.qualifiedMs == f.viewableMs
      && Allowed(f.passiveBillableMs, f.passiveMs, f.qualifiedMs, policy)
      && !Allowed(f.passiveBillableMs + 1, f.passiveMs, f.qualifiedMs, policy)
      && f.weightedBillablePpmMs == 1_000_000 * f.qualifiedMs + f.passiveBillableMs * policy.alphaPpm
  {
    T.DurationsFromEvents(events, endedAt);
    var r := A.AggregateCanonicalEvents(events, A.ViewabilityEventsForCanonicalEvents(events), endedAt).value;
    EvaluationIs(Input(r.renderedMs, r.viewableMs, r.aiEligibleMs, Some(r.qualifiedMs)), policy);
  }

  // ------------------------------------------------------------ dimensions and identifiers

  /** Letters and digits of an identifier. */
  const LOWER := "abcdefghijklmnopqrstuvwxyz"
  const UPPER := "ABCDEFGHIJKLMNOPQRSTUVWXYZ"
  const DIGITS := "0123456789"

  lemma LowerAre(c: char)
    ensures 'a' <= c <= 'z' <==> c in LOWER
  {
    if 'a' <= c <= 'z' { assert LOWER[c as int - 'a' as int] == c; }
  }

  lemma UpperAre(c: char)
    ensures 'A' <= c <= 'Z' <==> c in UPPER
  {
    if 'A' <= c <= 'Z' { assert UPPER[c as int - 'A' as int] == c; }
  }

  lemma DigitsAre(c: char)
    ensures '0' <= c <= '9' <==> c in DIGITS
  {
    if '0' <= c <= '9' { assert DIGITS[c as int - '0' as int] == c; }
  }

  lemma HexLettersAre(c: char)
    ensures 'a' <= c <= 'f' <==> c in "abcdef"
  {
  }

  lemma CharactersAre(c: char)
    ensures IsDimensionStart(c) <==> c in LOWER || c in DIGITS
    ensures IsDimensionChar(c) <==> c in LOWER || c in DIGITS || c in "_-"
    ensures IsEnvironmentChar(c) <==> c in LOWER || c in UPPER || c in DIGITS
  {
    LowerAre(c);
    UpperAre(c);
    DigitsAre(c);
  }

  /** A dimension has at most 64 characters, an environment at most 128, a currency three capitals, a digest 64 small hexadecimal digits. */
  lemma IdentifiersAre(s: string)
    ensures IsDimension(s) <==> s != "" && |s| <= 64 && s[0] !in "_-" && forall c | c in s :: c in LOWER || c in DIGITS || c in "_-"
    ensures IsEnvironmentId(s) <==>
              s != "" && |s| <= 128 && s[0] !in "_.-" && forall c | c in s :: c in LOWER || c in UPPER || c in DIGITS || c in "_.-"
    ensures IsCurrency(s) <==> |s| == 3 && forall c | c in s :: c in UPPER
    ensures IsDigest(s) <==> |s| == 64 && forall c | c in s :: c in DIGITS || c in "abcdef"
  {
    forall c ensures (IsDimensionStart(c) <==> c in LOWER || c in DIGITS)
                     && (IsDimensionChar(c) <==> c in LOWER || c in DIGITS || c in "_-")
                     && (IsEnvironmentChar(c) <==> c in LOWER || c in UPPER || c in DIGITS)
    {
      CharactersAre(c);
    }
    DimensionsAre(s);
    EnvironmentsAre(s);
    CurrenciesAre(s);
    DigestsAre(s);
  }

  lemma CurrenciesAre(s: string)
    ensures IsCurrency(s) <==> |s| == 3 && forall c | c in s :: c in UPPER
  {
    forall c ensures 'A' <= c <= 'Z' <==> c in UPPER {
      UpperAre(c);
    }
    if |s| == 3 && forall c | c in s :: c in UPPER {
      forall i | 0 <= i < 3 ensures 'A' <= s[i] <= 'Z' {
        assert s[i] in s;
      }
    }
  }

  lemma DigestsAre(s: string)
    ensures IsDigest(s) <==> |s| == 64 && forall c | c in s :: c in DIGITS || c in "abcdef"
  {
    forall c ensures '0' <= c <= '9' || 'a' <= c <= 'f' <==> c in DIGITS || c in "abcdef" {
      DigitsAre(c);
      HexLettersAre(c);
    }
    if |s| == 64 && forall c | c in s :: c in DIGITS || c in "abcdef" {
      forall i | 0 <= i < 64 ensures '0' <= s[i] <= '9' || 'a' <= s[i] <= 'f' {
        assert s[i] in s;
      }
    }
  }

  lemma DimensionsAre(s: string)
    requires forall c :: (IsDimensionStart(c) <==> c in LOWER || c in DIGITS) && (IsDimensionChar(c) <==> c in LOWER || c in DIGITS || c in "_-")
    ensures IsDimension(s) <==> s != "" && |s| <= 64 && s[0] !in "_-" && forall c | c in s :: c in LOWER || c in DIGITS || c in "_-"
  {
  }

  lemma EnvironmentsAre(s: string)
    requires forall c :: IsEnvironmentChar(c) <==> c in LOWER || c in UPPER || c in DIGITS
    ensures IsEnvironmentId(s) <==>
              s != "" && |s| <= 128 && s[0] !in "_.-" && forall c | c in s :: c in LOWER || c in UPPER || c in DIGITS || c in "_.-"
  {
  }

  /** A dimension is what is left of the trimmed, lowered text with an underscore for every other character. */
  lemma DimensionIs(value: string, lower: string -> string, name: string)
    ensures NormalizeDimension(value, lower) == Ok(name) <==>
              var lowered := lower(Trim(value));
              && IsDimension(name) && |name| == |lowered|
              && forall i | 0 <= i < |name| :: name[i] == if IsDimensionChar(lowered[i]) then lowered[i] else '_'
  {
    var lowered := lower(Trim(value));
    if |name| == |lowered| && forall i | 0 <= i < |name| :: name[i] == if IsDimensionChar(lowered[i]) then lowered[i] else '_' {
      assert name == Underscored(lowered);
    }
  }

  /** Days from the epoch to the first of January of a year from 0 on, in the Gregorian calendar. */
  function DaysTo(year: nat): int {
    if year == 0 then -719_528
    else
      var leap := (year - 1) % 4 == 0 && ((year - 1) % 100 != 0 || (year - 1) % 400 == 0);
      DaysTo(year - 1) + if leap then 366 else 365
  }

  /** The length of a run of centuries is what it is because of their leap years. */
  function Leaps(year: nat): nat {
    (year + 3) / 4 - (year + 99) / 100 + (year + 399) / 400
  }

  lemma {:induction false} DaysCount(year: nat)
    ensures DaysTo(year) == 365 * year + Leaps(year) - 719_528
  {
    if year > 0 {
      DaysCount(year - 1);
      LeapStep(year - 1);
    }
  }

  lemma FourStep(y: nat)
    ensures (y + 4) / 4 == (y + 3) / 4 + if y % 4 == 0 then 1 else 0
  {
  }

  lemma HundredStep(y: nat)
    ensures (y + 100) / 100 == (y + 99) / 100 + if y % 100 == 0 then 1 else 0
  {
  }

  lemma FourHundredStep(y: nat)
    ensures (y + 400) / 400 == (y + 399) / 400 + if y % 400 == 0 then 1 else 0
  {
  }

  lemma CenturiesDivide(y: nat)
    ensures y % 400 == 0 ==> y % 100 == 0
    ensures y % 100 == 0 ==> y % 4 == 0
  {
    if y % 100 == 0 { assert y == 4 * (25 * (y / 100)); }
    if y % 400 == 0 { assert y == 100 * (4 * (y / 400)); }
  }

  lemma LeapStep(y: nat)
    ensures Leaps(y + 1) == Leaps(y) + if y % 4 == 0 && (y % 100 != 0 || y % 400 == 0) then 1 else 0
  {
    FourStep(y);
    HundredStep(y);
    FourHundredStep(y);
    CenturiesDivide(y);
  }

  /** The dates the schema takes are those of the years 0 to 9999, and the epoch begins the year 1970. */
  lemma PrintableAre(ms: int)
    ensures IsPrintable(ms) <==> DaysTo(0) * 86_400_000 <= ms < DaysTo(10_000) * 86_400_000
    ensures DaysTo(1970) == 0
  {
    DaysCount(10_000);
    DaysCount(1970);
  }

  // ------------------------------------------------------------ the rate of unknown events

  /** Positions of the events with such a wire name. */
  ghost function Places(events: seq<CanonicalEvent>, p: EventType -> bool): set<int> {
    set i | 0 <= i < |events| && p(events[i].event.eventType)
  }

  lemma {:induction false} TallyCounts(events: seq<CanonicalEvent>, p: EventType -> bool)
    ensures |Tally(events, p)| == |Places(events, p)|
  {
    if events == [] {
      assert Places(events, p) == {};
    } else {
      var n := |events| - 1;
      var here := if p(events[n].event.eventType) then {n} else {};
      TallyCounts(events[..n], p);
      assert Places(events, p) == Places(events[..n], p) + here;
    }
  }

  lemma {:induction false} TallyTwice(events: seq<CanonicalEvent>, p: EventType -> bool, q: EventType -> bool)
    requires forall t | q(t) :: p(t)
    ensures Tally(Tally(events, p), q) == Tally(events, q)
  {
    if events != [] {
      var front, last := events[..|events| - 1], events[|events| - 1];
      TallyTwice(front, p, q);
      FlatMapConcat(Counting(q), Tally(front, p), Counting(p)(last));
      if p(last.event.eventType) {
        assert Tally([last], q) == Counting(q)(last);
      } else {
        assert Tally(front, p) + [] == Tally(front, p);
      }
    }
  }

  /** The events that no provider sends: of the user, the device, the surface, the connection and the queue. */
  predicate IsOfClient(t: EventType) {
    t in {UserForegrounded, UserBackgrounded, UserReturned, UserInteracted, EventType.DeviceLocked, DeviceUnlocked, SurfaceVisible,
          SurfaceHidden, IntegrationConnected, IntegrationDegraded, IntegrationDisconnected, QueueBackpressure}
  }

  /** A provider's events are all others, a rejection among them. */
  lemma ProvidersAre(t: EventType)
    ensures IsProviderLifecycleEvent(t) <==> !IsOfClient(t)
    ensures IsRejection(t) <==> t == EventRejected
  {
    RejectionNames(t);
    if IsOfClient(t) { ClientNames(t); } else { ProviderNames(t); }
  }

  lemma RejectionNames(t: EventType)
    ensures IsRejection(t) <==> t == EventRejected
  {
    if IsRejection(t) { assert |Name(t)| == 14 && Name(t)[0] == 'e'; }
  }

  lemma ProviderNames(t: EventType)
    requires !IsOfClient(t)
    ensures IsProviderLifecycleEvent(t)
  {
    KindTableMatches(t);
    if KindOf(t).None? { OtherProviderNames(t); }
  }

  lemma OtherProviderNames(t: EventType)
    requires !IsOfClient(t) && KindOf(t).None?
    ensures IsProviderLifecycleEvent(t)
  {
    assert t in {InputRequired, InputResolved} ==> StartsWith(Name(t), "input.");
    assert t in {PermissionRequired, PermissionAllowed, PermissionDenied} ==> StartsWith(Name(t), "permission.");
    assert t in {SessionStarted, SessionResumed, SessionPaused, SessionEnded} ==> StartsWith(Name(t), "session.");
  }

  lemma ClientLetters(t: EventType)
    requires IsOfClient(t)
    ensures |Name(t)| > 2 && [Name(t)[0], Name(t)[1], Name(t)[2]] in {"use", "dev", "sur", "int", "que"}
  {
  }

  lemma ClientNames(t: EventType)
    requires IsOfClient(t)
    ensures !IsProviderLifecycleEvent(t)
  {
    var name := Name(t);
    ClientLetters(t);
    RejectionNames(t);
    OtherLetters(name);
  }

  lemma OtherLetters(name: string)
    requires |name| > 2 && [name[0], name[1], name[2]] in {"use", "dev", "sur", "int", "que"}
    ensures !StartsWith(name, "session.") && !StartsWith(name, "turn.") && !StartsWith(name, "tool.") && !StartsWith(name, "input.")
    ensures !StartsWith(name, "permission.") && !StartsWith(name, "subagent.") && !StartsWith(name, "task.")
  {
    PrefixAt(name, "session.");
    PrefixAt(name, "turn.");
    PrefixAt(name, "tool.");
    PrefixAt(name, "input.");
    PrefixAt(name, "permission.");
    PrefixAt(name, "subagent.");
    PrefixAt(name, "task.");
    var letters := [name[0], name[1], name[2]];
    assert letters[0] == name[0] && letters[1] == name[1] && letters[2] == name[2];
  }

  /** The rate is the rejected part of the provider's events, in parts per million rounded down. */
  lemma RateIs(events: seq<CanonicalEvent>)
    ensures
      var n, k := |Places(events, IsProviderLifecycleEvent)|, |Places(events, IsRejection)|;
      var rate := UnknownEventRatePpm(events);
      if n == 0 then rate == 0 else rate * n <= k * 1_000_000 < (rate + 1) * n
  {
    var provider := Tally(events, IsProviderLifecycleEvent);
    TallyCounts(events, IsProviderLifecycleEvent);
    TallyCounts(events, IsRejection);
    forall t ensures IsRejection(t) ==> IsProviderLifecycleEvent(t) {
      ProvidersAre(t);
    }
    TallyTwice(events, IsProviderLifecycleEvent, IsRejection);
    if |provider| > 0 { ShareIs(|Tally(provider, IsRejection)|, |provider|); }
  }

  lemma ShareIs(part: nat, whole: nat)
    requires whole > 0
    ensures Share(part, whole) * whole <= part * 1_000_000 < (Share(part, whole) + 1) * whole
  {
    DivMod(part * 1_000_000, whole);
    Distributes(Share(part, whole), 1, whole);
  }

  // ------------------------------------------------------------ the whole fact and the whole row

  /**
   The columns of a session fact: the three keys are the keyed digests of session, user and
   device in this order, the two names the normalized provider and mode, and the
   classifications are counted from the events.
   */
  lemma FactColumnsAre(input: FactInput, events: seq<CanonicalEvent>, tools: Tools)
    requires |events| < AgentEvents.MAX_SAFE_INTEGER && BuildSessionFact(input, events, tools).Some?
    ensures
      var c := BuildSessionFact(input, events, tools).value.content; var key := input.pseudonymKey;
      && c.sessionKey == tools.keyed(key, input.sessionId) && c.userKey == tools.keyed(key, input.userId)
      && c.deviceKey == tools.keyed(key, input.deviceId)
      && c.environmentKind == input.environmentKind && c.environmentId == input.environmentId
      && NormalizeDimension(input.provider, tools.lower) == Ok(c.providerClass)
      && NormalizeDimension(input.integrationMode, tools.lower) == Ok(c.integrationMode)
      && c.classificationConfidencePpm == MinimumConfidencePpm(events) && c.unknownEventRatePpm == UnknownEventRatePpm(events)
  {
    CoarseIgnoresOrder(StableSort(events, A.CanonicalLeq), events);
  }

  lemma FinishedDates(input: FactInput, coarse: Coarse, tools: Tools, numbers: Fact)
    requires Finish(input, coarse, tools, numbers).Some?
    ensures var c := Finish(input, coarse, tools, numbers).value.content;
            && c.numbers == numbers
            && c.observedAt == (if input.observedAt.At? then input.observedAt.ms else numbers.endedAt)
            && c.recordedAt == (if input.recordedAt.At? then input.recordedAt.ms else c.observedAt)
            && (if input.hypothetical.Some?
                then c.currency == Some(input.hypothetical.value.currency) && c.economicVersion == Some(input.hypothetical.value.version)
                else c.currency == None && c.economicVersion == None)
  {
  }

  /**
   Its dates: start and end as given, or a start left out the earliest time of the events, an
   observation left out the end, a recording left out the observation. Its hypothetical
   columns are all as given or all empty.
   */
  lemma FactDatesAre(input: FactInput, events: seq<CanonicalEvent>, tools: Tools)
    requires |events| < AgentEvents.MAX_SAFE_INTEGER && BuildSessionFact(input, events, tools).Some?
    ensures
      var c := BuildSessionFact(input, events, tools).value.content;
      && input.endedAt == At(c.numbers.endedAt)
      && (if input.startedAt.At? then c.numbers.startedAt == input.startedAt.ms
          else (exists e :: e in events && e.event.occurredAt == c.numbers.startedAt)
               && forall e | e in events :: c.numbers.startedAt <= e.event.occurredAt)
      && c.observedAt == (if input.observedAt.At? then input.observedAt.ms else c.numbers.endedAt)
      && c.recordedAt == (if input.recordedAt.At? then input.recordedAt.ms else c.observedAt)
      && (if input.hypothetical.Some?
          then c.currency == Some(input.hypothetical.value.currency) && c.economicVersion == Some(input.hypothetical.value.version)
               && c.numbers.economics == Some(input.hypothetical.value.economics)
          else c.currency == None && c.economicVersion == None && c.numbers.economics == None)
  {
    FinishedDates(input, CoarseOf(StableSort(events, A.CanonicalLeq)), tools, Numbers(input, events).value);
    DefaultStartIsEarliest(events);
    NumbersAreBuiltIff(input, events);
  }

  /** The tool class of a fact is the normalized dominant family, if there is one. */
  lemma FactToolClassIs(input: FactInput, events: seq<CanonicalEvent>, tools: Tools)
    requires |events| < AgentEvents.MAX_SAFE_INTEGER && BuildSessionFact(input, events, tools).Some?
    ensures match DominantToolClass(events)
            case None => BuildSessionFact(input, events, tools).value.content.toolClass == None
            case Some(family) =>
              BuildSessionFact(input, events, tools).value.content.toolClass.Some?
              && NormalizeDimension(family, tools.lower) == Ok(BuildSessionFact(input, events, tools).value.content.toolClass.value)
  {
    CoarseIgnoresOrder(StableSort(events, A.CanonicalLeq), events);
  }

  /** A built fact's numbers are those of its bounds, policy, amounts and events. */
  lemma FactNumbersFromEvents(input: FactInput, events: seq<CanonicalEvent>, tools: Tools)
    requires A.DistinctIds(events) && |events| < AgentEvents.MAX_SAFE_INTEGER && BuildSessionFact(input, events, tools).Some?
    ensures
      var f := BuildSessionFact(input, events, tools).value.content.numbers;
      && f.policyVersion == input.policy.version && f.alphaPpm == input.policy.alphaPpm
      && f.viewableMs == |T.ShowingMillis(events, T.ShowsIt, f.endedAt)|
      && f.renderedMs == |T.ShowingMillis(events, T.RendersIt, f.endedAt)|
      && f.aiEligibleMs == |T.WorkingMillis(events, f.endedAt)|
  {
    FactNumbersAre(events, input.policy, StartOf(input, events).value, input.endedAt.ms, EconomicsOf(input.hypothetical));
  }

  /** The columns of a dataset row: its key, names and variant, the evaluation under the current policy, and then under each candidate in turn. */
  lemma RowColumnsAre(
    input: RowInput, provider: seq<I.Observation>, viewability: seq<I.Observation>, endMs: int,
    current: Policy, candidates: seq<Policy>, tools: Tools)
    requires BuildRow(input, provider, viewability, endMs, current, candidates, tools).Some?
    ensures
      var row := BuildRow(input, provider, viewability, endMs, current, candidates, tools).value;
      && row.sessionKey == tools.keyed(input.pseudonymKey, input.sessionId) && row.environmentKind == input.environmentKind
      && NormalizeDimension(input.providerClass, tools.lower) == Ok(row.providerClass)
      && NormalizeDimension(input.integrationMode, tools.lower) == Ok(row.integrationMode)
      && row.experimentVariant == input.experimentVariant
      && row.numbers.record.policyVersion == current.version
      && A.Aggregate(provider, viewability, endMs).Ok?
      && var r := A.Aggregate(provider, viewability, endMs).value;
         var measured := Input(r.renderedMs, r.viewableMs, r.aiEligibleMs, Some(r.qualifiedMs));
         && Evaluate(measured, current) == Ok(row.numbers.record.m)
         && |row.numbers.comparisons| == 1 + |candidates|
         && forall i | 0 <= i < 1 + |candidates| ::
              Evaluate(measured, if i == 0 then current else candidates[i - 1]) == Ok(row.numbers.comparisons[i])
  {
    var r := A.Aggregate(provider, viewability, endMs).value;
    EvaluatedInTurn(Input(r.renderedMs, r.viewableMs, r.aiEligibleMs, Some(r.qualifiedMs)), [current] + candidates);
  }

  lemma {:induction false} EvaluatedInTurn(input: Input, policies: seq<Policy>)
    requires EvaluateAll(input, policies).Ok?
    ensures |EvaluateAll(input, policies).value| == |policies|
    ensures forall i | 0 <= i < |policies| :: Evaluate(input, policies[i]) == Ok(EvaluateAll(input, policies).value[i])
  {
    if policies != [] { EvaluatedInTurn(input, policies[1..]); }
  }
}
