/**
 The whole session fact and the whole dataset row, with their pseudonyms, dimensions,
 times and coarse classifications around the numeric part: when each is built, that what
 is built meets its whole schema, and that the order in which events are read is
 invisible in it. Keyed digests, content digests and lower-casing are parameters.
 */
module ShadowFact {
  import opened Wrappers
  import opened Sorting
  import opened Strings
  import opened Arithmetic
  import opened AgentEvents
  import A = ShadowAggregation
  import C = ShadowContract
  import I = Intervals

  type CanonicalEvent = A.CanonicalEvent
  type ToolFamily = A.ToolFamily

  // ------------------------------------------------------------ dimensions

  predicate IsDimensionStart(c: char) {
    'a' <= c <= 'z' || '0' <= c <= '9'
  }

  predicate IsDimensionChar(c: char) {
    IsDimensionStart(c) || c == '_' || c == '-'
  }

  /** `^[a-z0-9][a-z0-9_-]{0,63}$` */
  predicate IsDimension(s: string) {
    1 <= |s| <= 64 && IsDimensionStart(s[0]) && forall i | 0 <= i < |s| :: IsDimensionChar(s[i])
  }

  function Underscored(s: string): string {
    seq(|s|, i requires 0 <= i < |s| => if IsDimensionChar(s[i]) then s[i] else '_')
  }

  function NormalizeDimension(value: string, lower: string -> string): Result<string> {
    var normalized := Underscored(lower(Trim(value)));
    if IsDimension(normalized) then Ok(normalized) else Err("dimension must be a bounded identifier")
  }

  /** A dimension is normalized to itself, so that normalizing twice is normalizing once. */
  lemma NormalizeKeepsDimensions(value: string, lower: string -> string)
    requires forall s | IsDimension(s) :: lower(s) == s
    ensures IsDimension(value) ==> NormalizeDimension(value, lower) == Ok(value)
    ensures NormalizeDimension(value, lower).Ok? ==>
              NormalizeDimension(NormalizeDimension(value, lower).value, lower) == NormalizeDimension(value, lower)
  {
    if IsDimension(value) { DimensionIsPlain(value); }
    if NormalizeDimension(value, lower).Ok? { DimensionIsPlain(NormalizeDimension(value, lower).value); }
  }

  lemma DimensionIsPlain(s: string)
    requires IsDimension(s)
    ensures Trim(s) == s && Underscored(s) == s
  {
    NothingToTrim(s);
  }

  // ------------------------------------------------------------ the dominant tool class

  function FamilyOf(e: CanonicalEvent): seq<ToolFamily> {
    match e.toolFamily
    case Some(family) => [family]
    case None => []
  }

  function FamiliesOf(events: seq<CanonicalEvent>): seq<ToolFamily> {
    FlatMap(FamilyOf, events)
  }

  /** More frequent, or as frequent and at most as large. */
  predicate Dominates(families: seq<ToolFamily>, a: ToolFamily, b: ToolFamily) {
    var (m, n) := (multiset(families)[a], multiset(families)[b]);
    m > n || (m == n && StrLeq(a, b))
  }

  /** The families in order of first appearance, which is the order a `Map` lists its keys in. */
  function Appearing(families: seq<ToolFamily>): (r: seq<ToolFamily>)
    ensures forall f :: f in r <==> f in families
  {
    if families == [] then []
    else
      var front, last := Appearing(families[..|families| - 1]), families[|families| - 1];
      assert families == families[..|families| - 1] + [last];
      if last in front then front else front + [last]
  }

  /** The family left standing after each of `order` challenged the one before. */
  function Winner(families: seq<ToolFamily>, order: seq<ToolFamily>): Option<ToolFamily> {
    if order == [] then None
    else
      var best, f := Winner(families, order[..|order| - 1]), order[|order| - 1];
      if best.None? || !Dominates(families, best.value, f) then Some(f) else best
  }

  function DominantToolClass(events: seq<CanonicalEvent>): Option<ToolFamily> {
    Winner(FamiliesOf(events), Appearing(FamiliesOf(events)))
  }

  lemma DominatesIsTotal(families: seq<ToolFamily>, a: ToolFamily, b: ToolFamily, c: ToolFamily)
    ensures Dominates(families, a, b) || Dominates(families, b, a)
    ensures Dominates(families, a, b) && Dominates(families, b, a) ==> a == b
    ensures Dominates(families, a, b) && Dominates(families, b, c) ==> Dominates(families, a, c)
  {
    StrTotal(a, b);
    if StrLeq(a, b) && StrLeq(b, c) { StrTransitive(a, b, c); }
  }

  lemma {:induction false} WinnerDominates(families: seq<ToolFamily>, order: seq<ToolFamily>)
    ensures Winner(families, order).None? <==> order == []
    ensures Winner(families, order).Some? ==>
              && Winner(families, order).value in order
              && forall f | f in order :: Dominates(families, Winner(families, order).value, f)
  {
    if order != [] {
      var front, last := order[..|order| - 1], order[|order| - 1];
      assert order == front + [last];
      WinnerDominates(families, front);
      DominatesIsTotal(families, last, last, last);
      if front != [] {
        var best := Winner(families, front).value;
        DominatesIsTotal(families, best, last, last);
        forall f | f in front && !Dominates(families, best, last) ensures Dominates(families, last, f) {
          DominatesIsTotal(families, last, best, f);
        }
      }
    }
  }

  /** The dominant class is the most frequent family, of several the smallest, and there is none exactly without families. */
  lemma DominantIsMostFrequent(events: seq<CanonicalEvent>)
    ensures var families := FamiliesOf(events);
            match DominantToolClass(events)
            case None => families == []
            case Some(w) => w in families && forall f | f in families :: Dominates(families, w, f)
  {
    var families := FamiliesOf(events);
    WinnerDominates(families, Appearing(families));
    if families != [] { assert families[0] in Appearing(families); }
  }

  lemma DominantIgnoresOrder(a: seq<CanonicalEvent>, b: seq<CanonicalEvent>)
    requires multiset(a) == multiset(b)
    ensures DominantToolClass(a) == DominantToolClass(b)
  {
    FlatMapForgetsOrder(FamilyOf, a, b);
    SameMultisetSameMembers(FamiliesOf(a), FamiliesOf(b));
    DominantIsMostFrequent(a);
    DominantIsMostFrequent(b);
    if FamiliesOf(a) != [] {
      var x, y := DominantToolClass(a).value, DominantToolClass(b).value;
      assert Dominates(FamiliesOf(a), x, y) && Dominates(FamiliesOf(a), y, x);
      DominatesIsTotal(FamiliesOf(a), x, y, y);
    }
  }

  /** What the counting pass has after the events so far: their families, counted, and the keys in order. */
  ghost predicate Counted(families: seq<ToolFamily>, counts: map<ToolFamily, nat>, keys: seq<ToolFamily>) {
    && keys == Appearing(families)
    && (forall f :: f in counts <==> f in families)
    && (forall f | f in counts :: counts[f] == multiset(families)[f])
  }

  lemma CountMore(families: seq<ToolFamily>, counts: map<ToolFamily, nat>, keys: seq<ToolFamily>, f: ToolFamily)
    requires Counted(families, counts, keys)
    ensures Counted(
              families + [f], counts[f := (if f in counts then counts[f] else 0) + 1], if f in counts then keys else keys + [f])
  {
    assert (families + [f])[..|families|] == families;
  }

  /** `dominantToolClass`: a counting map filled in one pass, and a second pass over its keys. */
  method CountDominantToolClass(events: seq<CanonicalEvent>) returns (winner: Option<ToolFamily>)
    ensures winner == DominantToolClass(events)
  {
    var counts: map<ToolFamily, nat>, keys: seq<ToolFamily> := map[], [];
    var i := 0;
    while i < |events|
      invariant 0 <= i <= |events|
      invariant Counted(FamiliesOf(events[..i]), counts, keys)
    {
      FamiliesMore(events, i);
      if events[i].toolFamily.Some? {
        var family := events[i].toolFamily.value;
        CountMore(FamiliesOf(events[..i]), counts, keys, family);
        if family !in counts { keys := keys + [family]; }
        counts := counts[family := (if family in counts then counts[family] else 0) + 1];
      }
      i := i + 1;
    }
    assert events[..i] == events;
    winner := MostCounted(events, counts, keys);
  }

  lemma FamiliesMore(events: seq<CanonicalEvent>, i: nat)
    requires i < |events|
    ensures FamiliesOf(events[..i + 1])
         == match events[i].toolFamily case Some(family) => FamiliesOf(events[..i]) + [family] case None => FamiliesOf(events[..i])
  {
    assert events[..i + 1] == events[..i] + [events[i]];
    FlatMapMore(FamilyOf, events[..i], events[i]);
  }

  /** What one challenge does, told from the counts. */
  lemma WinnerNext(families: seq<ToolFamily>, counts: map<ToolFamily, nat>, keys: seq<ToolFamily>, j: nat)
    requires Counted(families, counts, keys) && j < |keys|
    ensures keys[j] in counts
    ensures
      var best, f := Winner(families, keys[..j]), keys[j];
      && (best.Some? ==> best.value in counts)
      && Winner(families, keys[..j + 1])
           == if best.None? || counts[f] > counts[best.value] || (counts[f] == counts[best.value] && !StrLeq(best.value, f)) then Some(f)
              else best
    ensures counts[keys[j]] > 0
  {
    assert keys[..j + 1][..j] == keys[..j];
    WinnerDominates(families, keys[..j]);
    assert keys[j] in families;
  }

  /** The second pass. */
  method MostCounted(events: seq<CanonicalEvent>, counts: map<ToolFamily, nat>, keys: seq<ToolFamily>) returns (winner: Option<ToolFamily>)
    requires Counted(FamiliesOf(events), counts, keys)
    ensures winner == DominantToolClass(events)
  {
    ghost var families := FamiliesOf(events);
    winner := None;
    var count, j := 0, 0;
    while j < |keys|
      invariant 0 <= j <= |keys|
      invariant winner == Winner(families, keys[..j])
      invariant winner.Some? ==> winner.value in counts
      invariant count == if winner.Some? then counts[winner.value] else 0
    {
      var family := keys[j];
      WinnerNext(families, counts, keys, j);
      if counts[family] > count || (counts[family] == count && winner.Some? && !StrLeq(winner.value, family)) {
        winner, count := Some(family), counts[family];
      }
      j := j + 1;
    }
    assert keys[..j] == keys;
  }

  // ------------------------------------------------------------ confidence and unknown events

  function MinimumConfidencePpm(events: seq<CanonicalEvent>): (r: A.Ppm) {
    if events == [] then 1_000_000
    else
      var rest, c := MinimumConfidencePpm(events[..|events| - 1]), events[|events| - 1].confidencePpm;
      if c < rest then c else rest
  }

  lemma {:induction false} ConfidenceIsLeast(events: seq<CanonicalEvent>)
    ensures forall e | e in events :: MinimumConfidencePpm(events) <= e.confidencePpm
  {
    if events != [] {
      assert events == events[..|events| - 1] + [events[|events| - 1]];
      ConfidenceIsLeast(events[..|events| - 1]);
    }
  }

  lemma {:induction false} ConfidenceIsSomeones(events: seq<CanonicalEvent>) returns (i: nat)
    requires events != []
    ensures i < |events| && events[i].confidencePpm == MinimumConfidencePpm(events)
  {
    var n := |events| - 1;
    i := n;
    if n > 0 && events[n].confidencePpm >= MinimumConfidencePpm(events[..n]) { i := ConfidenceIsSomeones(events[..n]); }
  }

  predicate IsProviderLifecycleEvent(t: EventType) {
    || StartsWith(Name(t), "session.") || StartsWith(Name(t), "turn.") || StartsWith(Name(t), "tool.")
    || StartsWith(Name(t), "input.") || StartsWith(Name(t), "permission.") || StartsWith(Name(t), "subagent.")
    || StartsWith(Name(t), "task.") || IsRejection(t)
  }

  predicate IsRejection(t: EventType) {
    Name(t) == "event.rejected"
  }

  function Counting(kind: EventType -> bool): CanonicalEvent -> seq<CanonicalEvent> {
    (e: CanonicalEvent) => if kind(e.event.eventType) then [e] else []
  }

  function Tally(events: seq<CanonicalEvent>, kind: EventType -> bool): seq<CanonicalEvent> {
    FlatMap(Counting(kind), events)
  }

  function Share(part: nat, whole: nat): (r: nat)
    requires whole > 0
  {
    part * 1_000_000 / whole
  }

  function UnknownEventRatePpm(events: seq<CanonicalEvent>): nat {
    var provider := Tally(events, IsProviderLifecycleEvent);
    if provider == [] then 0
    else Share(|Tally(provider, IsRejection)|, |provider|)
  }

  /** Part of a tally of the same events, the rate lies between none and all. */
  lemma RateIsBounded(events: seq<CanonicalEvent>)
    ensures 0 <= UnknownEventRatePpm(events) <= 1_000_000
  {
    var provider := Tally(events, IsProviderLifecycleEvent);
    TallyIsPart(provider, IsRejection);
    if provider != [] { ShareOfPart(|Tally(provider, IsRejection)|, |provider|); }
  }

  lemma {:induction false} TallyIsPart(events: seq<CanonicalEvent>, kind: EventType -> bool)
    ensures |Tally(events, kind)| <= |events|
  {
    if events != [] { TallyIsPart(events[..|events| - 1], kind); }
  }

  lemma ShareOfPart(part: nat, whole: nat)
    requires part <= whole && whole > 0
    ensures Share(part, whole) <= 1_000_000
  {
    FloorOfPart(part * 1_000_000, whole);
  }

  lemma FloorOfPart(n: nat, whole: nat)
    requires whole > 0 && n <= 1_000_000 * whole
    ensures n / whole <= 1_000_000
  {
    if n / whole > 1_000_000 {
      Monotone(1_000_001, n / whole, whole);
      DivMod(n, whole);
    }
  }

  lemma MinimumIgnoresOrder(a: seq<CanonicalEvent>, b: seq<CanonicalEvent>)
    requires multiset(a) == multiset(b)
    ensures MinimumConfidencePpm(a) == MinimumConfidencePpm(b)
  {
    SameMultisetSameMembers(a, b);
    ConfidenceIsLeast(a);
    ConfidenceIsLeast(b);
    if a != [] {
      var i := ConfidenceIsSomeones(a);
      var j := ConfidenceIsSomeones(b);
      assert a[i] in b && b[j] in a;
    }
  }

  lemma RateIgnoresOrder(a: seq<CanonicalEvent>, b: seq<CanonicalEvent>)
    requires multiset(a) == multiset(b)
    ensures UnknownEventRatePpm(a) == UnknownEventRatePpm(b)
  {
    FlatMapForgetsOrder(Counting(IsProviderLifecycleEvent), a, b);
    var x, y := Tally(a, IsProviderLifecycleEvent), Tally(b, IsProviderLifecycleEvent);
    SameMultisetSameMembers(x, y);
    FlatMapForgetsOrder(Counting(IsRejection), x, y);
    SameMultisetSameMembers(Tally(x, IsRejection), Tally(y, IsRejection));
  }

  /** What a fact keeps of the kinds of its events. */
  datatype Coarse = Coarse(toolClass: Option<ToolFamily>, confidencePpm: A.Ppm, unknownRatePpm: nat)

  function CoarseOf(ordered: seq<CanonicalEvent>): Coarse {
    Coarse(DominantToolClass(ordered), MinimumConfidencePpm(ordered), UnknownEventRatePpm(ordered))
  }

  /** The coarse fields depend on which events there are, not on their order. */
  lemma CoarseIgnoresOrder(a: seq<CanonicalEvent>, b: seq<CanonicalEvent>)
    requires multiset(a) == multiset(b)
    ensures CoarseOf(a) == CoarseOf(b)
  {
    DominantIgnoresOrder(a, b);
    MinimumIgnoresOrder(a, b);
    RateIgnoresOrder(a, b);
  }

  // ------------------------------------------------------------ the session fact

  predicate IsDigest(s: string) {
    |s| == 64 && forall i | 0 <= i < 64 :: '0' <= s[i] <= '9' || 'a' <= s[i] <= 'f'
  }

  type Digest = s: string | IsDigest(s) witness seq(64, i => '0')

  datatype EnvironmentKind = Development | Test | Sandbox | Staging | Production

  /** The milliseconds a `Date` can hold. */
  type Instant = n: int | -8_640_000_000_000_000 <= n <= 8_640_000_000_000_000

  /** A date argument: left out, no date, or a date. */
  datatype Given = Missing | Unreadable | At(ms: Instant)

  /** The date schema takes years of four digits; other years are printed with a sign and six. */
  predicate IsPrintable(ms: int) {
    -62_167_219_200_000 <= ms <= 253_402_300_799_999
  }

  datatype Hypothetical = Hypothetical(currency: string, economics: C.Economics, version: string)

  datatype FactInput = FactInput(
    sessionId: string, userId: string, deviceId: string, pseudonymKey: string,
    environmentKind: EnvironmentKind, environmentId: string, provider: string, integrationMode: string,
    policy: C.Policy, startedAt: Given, endedAt: Given, observedAt: Given, recordedAt: Given,
    hypothetical: Option<Hypothetical>)

  /** Every field of a fact but the digest over them. `numbers` holds the durations, the policy, the two bounds and the amounts. */
  datatype Content = Content(
    sessionKey: Digest, userKey: Digest, deviceKey: Digest, observedAt: int, recordedAt: int,
    environmentKind: EnvironmentKind, environmentId: string,
    providerClass: string, integrationMode: string, toolClass: Option<string>,
    numbers: C.Fact, classificationConfidencePpm: int, unknownEventRatePpm: int,
    currency: Option<string>, economicVersion: Option<string>)

  datatype SessionFact = SessionFact(content: Content, recordDigest: Digest)

  /** What the fact is computed with: the keyed and the content digest, and lower-casing. */
  datatype Tools = Tools(keyed: (string, string) -> Digest, digest: Content -> Digest, lower: string -> string)

  predicate IsEnvironmentChar(c: char) {
    'a' <= c <= 'z' || 'A' <= c <= 'Z' || '0' <= c <= '9'
  }

  /** `^[a-z0-9][a-z0-9_.-]{0,127}$`, without regard to case. */
  predicate IsEnvironmentId(s: string) {
    1 <= |s| <= 128 && IsEnvironmentChar(s[0])
    && forall i | 0 <= i < |s| :: IsEnvironmentChar(s[i]) || s[i] == '_' || s[i] == '.' || s[i] == '-'
  }

  predicate IsCurrency(s: string) {
    |s| == 3 && forall i | 0 <= i < 3 :: 'A' <= s[i] <= 'Z'
  }

  /** The schema of a session fact with all its cross-field refinements. */
  predicate ValidContent(c: Content) {
    && C.ValidFact(c.numbers) && IsEnvironmentId(c.environmentId)
    && IsPrintable(c.observedAt) && IsPrintable(c.recordedAt)
    && IsPrintable(c.numbers.startedAt) && IsPrintable(c.numbers.endedAt)
    && IsDimension(c.providerClass) && IsDimension(c.integrationMode) && (c.toolClass.Some? ==> IsDimension(c.toolClass.value))
    && 0 <= c.classificationConfidencePpm <= 1_000_000 && 0 <= c.unknownEventRatePpm <= 1_000_000
    && (c.currency.Some? ==> IsCurrency(c.currency.value))
    && (c.economicVersion.Some? ==> 1 <= |c.economicVersion.value| <= 128)
    && c.currency.Some? == c.economicVersion.Some? == c.numbers.economics.Some?
  }

  function EconomicsOf(h: Option<Hypothetical>): Option<C.Economics> {
    match h
    case None => None
    case Some(x) => Some(x.economics)
  }

  /** The time of the first event in canonical order. */
  function FirstEventAt(events: seq<CanonicalEvent>): int
    requires events != []
  {
    StableSort(events, A.CanonicalLeq)[0].event.occurredAt
  }

  function StartOf(input: FactInput, events: seq<CanonicalEvent>): Option<int>
    requires events != []
  {
    match input.startedAt
    case Missing => Some(FirstEventAt(events))
    case Unreadable => None
    case At(ms) => Some(ms)
  }

  function InstantOr(given: Given, default: int): Option<int> {
    match given
    case Missing => Some(default)
    case Unreadable => None
    case At(ms) => Some(ms)
  }

  /** Of no class, or of a class that is normalized like every dimension. */
  function ToolClass(family: Option<ToolFamily>, lower: string -> string): Result<Option<string>> {
    match family
    case None => Ok(None)
    case Some(family) =>
      match NormalizeDimension(family, lower)
      case Ok(name) => Ok(Some(name))
      case Err(e) => Err(e)
  }

  /** `buildShadowSessionFact`, or nothing when it raises an error. */
  function BuildSessionFact(input: FactInput, events: seq<CanonicalEvent>, tools: Tools): Option<SessionFact>
    requires |events| < MAX_SAFE_INTEGER
  {
    if input.sessionId == "" || input.userId == "" || input.deviceId == "" || input.pseudonymKey == "" then None
    else if events == [] || !input.endedAt.At? || input.startedAt.Unreadable? then None
    else if Numbers(input, events).Err? then None
    else Finish(input, CoarseOf(StableSort(events, A.CanonicalLeq)), tools, Numbers(input, events).value)
  }

  function Numbers(input: FactInput, events: seq<CanonicalEvent>): Result<C.Fact>
    requires |events| < MAX_SAFE_INTEGER && events != [] && input.endedAt.At? && !input.startedAt.Unreadable?
  {
    C.BuildFact(events, input.policy, StartOf(input, events).value, input.endedAt.ms, EconomicsOf(input.hypothetical))
  }

  /** The fact around its numbers. */
  function Finish(input: FactInput, coarse: Coarse, tools: Tools, numbers: C.Fact): Option<SessionFact> {
    var observed := InstantOr(input.observedAt, numbers.endedAt);
    var recorded := if observed.None? then None else InstantOr(input.recordedAt, observed.value);
    var provider, mode := NormalizeDimension(input.provider, tools.lower), NormalizeDimension(input.integrationMode, tools.lower);
    var toolClass := ToolClass(coarse.toolClass, tools.lower);
    if recorded.None? || provider.Err? || mode.Err? || toolClass.Err? || !IsEnvironmentId(input.environmentId) then None
    else
      var content := Content(
        tools.keyed(input.pseudonymKey, input.sessionId), tools.keyed(input.pseudonymKey, input.userId),
        tools.keyed(input.pseudonymKey, input.deviceId), observed.value, recorded.value,
        input.environmentKind, input.environmentId, provider.value, mode.value, toolClass.value,
        numbers, coarse.confidencePpm, coarse.unknownRatePpm,
        if input.hypothetical.Some? then Some(input.hypothetical.value.currency) else None,
        if input.hypothetical.Some? then Some(input.hypothetical.value.version) else None);
      if ValidContent(content) then Some(SessionFact(content, tools.digest(content))) else None
  }

  // ------------------------------------------------------------ when a fact is built

  /** A session whose start is not given starts with its earliest event. */
  lemma DefaultStartIsEarliest(events: seq<CanonicalEvent>)
    requires events != []
    ensures exists e :: e in events && e.event.occurredAt == FirstEventAt(events)
    ensures forall e | e in events :: FirstEventAt(events) <= e.event.occurredAt
  {
    var ordered := StableSort(events, A.CanonicalLeq);
    SameMultisetSameMembers(ordered, events);
    assert ordered[0] in ordered;
    CanonicalIsTotal(events);
    StableSortSorted(events, A.CanonicalLeq);
    forall e | e in events ensures FirstEventAt(events) <= e.event.occurredAt {
      var i :| 0 <= i < |ordered| && ordered[i] == e;
      assert i > 0 ==> A.CanonicalLeq(ordered[0], ordered[i]);
    }
  }

  lemma CanonicalIsTotal(events: seq<CanonicalEvent>)
    ensures TotalOn(A.CanonicalLeq, events) && TransitiveOn(A.CanonicalLeq, events)
  {
    forall a, b | a in events && b in events ensures A.CanonicalLeq(a, b) || A.CanonicalLeq(b, a) {
      GateAgreesWithQueryOrder(a.event, b.event);
    }
  }

  lemma {:induction false} ProjectedTimes(ordered: seq<CanonicalEvent>)
    requires |ordered| < MAX_SAFE_INTEGER
    ensures forall v | v in A.ProjectViewability(ordered) :: exists e :: e in ordered && e.event.occurredAt == v.atMs
  {
    if ordered != [] {
      var front, last := ordered[..|ordered| - 1], ordered[|ordered| - 1];
      assert ordered == front + [last] && last in ordered;
      ProjectedTimes(front);
    }
  }

  /** The provider observations have the times of the events. */
  lemma ObservedTimes(events: seq<CanonicalEvent>, ordered: seq<CanonicalEvent>)
    requires multiset(ordered) == multiset(events)
    ensures (forall o | o in A.ProviderObservations(ordered) :: o.atMs >= 0) <==> forall e | e in events :: e.event.occurredAt >= 0
  {
    SameMultisetSameMembers(ordered, events);
    var provider := A.ProviderObservations(ordered);
    if forall o | o in provider :: o.atMs >= 0 {
      forall e | e in events ensures e.event.occurredAt >= 0 {
        var i :| 0 <= i < |ordered| && ordered[i] == e;
        assert provider[i] in provider;
      }
    }
    if forall e | e in events :: e.event.occurredAt >= 0 {
      forall o | o in provider ensures o.atMs >= 0 {
        var i :| 0 <= i < |ordered| && provider[i] == o;
        assert ordered[i] in ordered;
      }
    }
  }

  lemma ViewedTimes(events: seq<CanonicalEvent>, ordered: seq<CanonicalEvent>, views: seq<A.ViewabilityEvent>)
    requires multiset(ordered) == multiset(events) && |ordered| < MAX_SAFE_INTEGER
    requires multiset(views) == multiset(A.ProjectViewability(ordered))
    requires forall e | e in events :: e.event.occurredAt >= 0
    ensures forall o | o in A.ViewabilityObservations(views) :: o.atMs >= 0
  {
    SameMultisetSameMembers(ordered, events);
    SameMultisetSameMembers(views, A.ProjectViewability(ordered));
    ProjectedTimes(ordered);
    forall o | o in A.ViewabilityObservations(views) ensures o.atMs >= 0 {
      var i :| 0 <= i < |views| && A.ViewabilityObservations(views)[i] == o;
      assert views[i] in views;
    }
  }

  /** The durations of a session's own events exist exactly when neither its end nor an event lies before the epoch. */
  lemma AggregationSucceedsIff(events: seq<CanonicalEvent>, endMs: int)
    requires |events| < MAX_SAFE_INTEGER
    ensures A.AggregateCanonicalEvents(events, A.ViewabilityEventsForCanonicalEvents(events), endMs).Ok? <==>
              endMs >= 0 && forall e | e in events :: e.event.occurredAt >= 0
  {
    var ordered := StableSort(events, A.CanonicalLeq);
    var views := StableSort(A.ProjectViewability(ordered), A.ViewabilityLeq);
    A.AggregateSucceedsIff(A.ProviderObservations(ordered), A.ViewabilityObservations(views), endMs);
    ObservedTimes(events, ordered);
    if forall e | e in events :: e.event.occurredAt >= 0 { ViewedTimes(events, ordered, views); }
  }

  /** The qualified time that counts: none below the policy's minimum. */
  function QualifiedMs(events: seq<CanonicalEvent>, policy: C.Policy, endMs: int): int
    requires |events| < MAX_SAFE_INTEGER
  {
    match A.AggregateCanonicalEvents(events, A.ViewabilityEventsForCanonicalEvents(events), endMs)
    case Ok(r) => if r.qualifiedMs >= policy.minimumQualifiedMs then r.qualifiedMs else 0
    case Err(_) => 0
  }

  /** Hypothetical economics that the schema lets pass. */
  predicate Fits(h: Option<Hypothetical>, qualifiedMs: int) {
    h.Some? ==>
      IsCurrency(h.value.currency) && 1 <= |h.value.version| <= 128 && C.EconomicsRefinements(qualifiedMs, Some(h.value.economics))
  }

  predicate Complete(input: FactInput, lower: string -> string) {
    && input.sessionId != "" && input.userId != "" && input.deviceId != "" && input.pseudonymKey != ""
    && input.endedAt.At? && !input.startedAt.Unreadable? && !input.observedAt.Unreadable? && !input.recordedAt.Unreadable?
    && NormalizeDimension(input.provider, lower).Ok? && NormalizeDimension(input.integrationMode, lower).Ok?
    && IsEnvironmentId(input.environmentId)
  }

  /** All four dates of the fact can be printed; an observation or recording time not given is the one before it. */
  predicate Printable(input: FactInput, startedAt: int, endedAt: int) {
    var observed := InstantOr(input.observedAt, endedAt);
    && IsPrintable(startedAt) && IsPrintable(endedAt) && observed.Some? && IsPrintable(observed.value)
    && InstantOr(input.recordedAt, observed.value).Some? && IsPrintable(InstantOr(input.recordedAt, observed.value).value)
  }

  lemma NumbersAreBuiltIff(input: FactInput, events: seq<CanonicalEvent>)
    requires |events| < MAX_SAFE_INTEGER && events != [] && input.endedAt.At? && !input.startedAt.Unreadable?
    ensures Numbers(input, events).Ok? <==>
              && 0 <= input.endedAt.ms && StartOf(input, events).value <= input.endedAt.ms
              && (forall e | e in events :: e.event.occurredAt >= 0)
              && C.EconomicsRefinements(QualifiedMs(events, input.policy, input.endedAt.ms), EconomicsOf(input.hypothetical))
    ensures Numbers(input, events).Ok? ==>
              var numbers := Numbers(input, events).value;
              && C.ValidFact(numbers) && numbers.economics == EconomicsOf(input.hypothetical)
              && numbers.startedAt == StartOf(input, events).value && numbers.endedAt == input.endedAt.ms
  {
    AggregationSucceedsIff(events, input.endedAt.ms);
    C.FactIsBuiltIff(events, input.policy, StartOf(input, events).value, input.endedAt.ms, EconomicsOf(input.hypothetical));
  }

  lemma ToolClassExists(family: Option<ToolFamily>, lower: string -> string)
    requires forall s | IsDimension(s) :: lower(s) == s
    ensures ToolClass(family, lower).Ok?
    ensures ToolClass(family, lower).value.Some? ==> IsDimension(ToolClass(family, lower).value.value)
  {
    if family.Some? {
      FamilyIsDimension(family.value);
      NormalizeKeepsDimensions(family.value, lower);
    }
  }

  lemma FamilyIsDimension(family: ToolFamily)
    ensures IsDimension(family)
  {
  }

  /** Around valid numbers nothing fails but an unreadable argument or ill-formed economics. */
  lemma FinishesIff(input: FactInput, coarse: Coarse, tools: Tools, numbers: C.Fact)
    requires C.ValidFact(numbers) && numbers.economics == EconomicsOf(input.hypothetical) && coarse.unknownRatePpm <= 1_000_000
    requires forall s | IsDimension(s) :: tools.lower(s) == s
    ensures Finish(input, coarse, tools, numbers).Some? <==>
              && !input.observedAt.Unreadable? && !input.recordedAt.Unreadable?
              && NormalizeDimension(input.provider, tools.lower).Ok? && NormalizeDimension(input.integrationMode, tools.lower).Ok?
              && IsEnvironmentId(input.environmentId) && Printable(input, numbers.startedAt, numbers.endedAt)
              && (input.hypothetical.Some? ==>
                    IsCurrency(input.hypothetical.value.currency) && 1 <= |input.hypothetical.value.version| <= 128)
  {
    ToolClassExists(coarse.toolClass, tools.lower);
  }

  /**
   A session fact is built exactly when there are events, every argument is readable, the
   end and the events do not lie before the epoch, the session does not end before it
   starts, its dates have years of four digits, and the hypothetical economics fit the
   qualified time. No other check of the schema can fail.
   */
  lemma SessionFactIsBuiltIff(input: FactInput, events: seq<CanonicalEvent>, tools: Tools)
    requires |events| < MAX_SAFE_INTEGER && forall s | IsDimension(s) :: tools.lower(s) == s
    ensures BuildSessionFact(input, events, tools).Some? <==>
              && events != [] && Complete(input, tools.lower)
              && 0 <= input.endedAt.ms && StartOf(input, events).value <= input.endedAt.ms
              && (forall e | e in events :: e.event.occurredAt >= 0)
              && Printable(input, StartOf(input, events).value, input.endedAt.ms)
              && Fits(input.hypothetical, QualifiedMs(events, input.policy, input.endedAt.ms))
  {
    if events != [] && input.endedAt.At? && !input.startedAt.Unreadable? {
      NumbersAreBuiltIff(input, events);
      FitsIff(input.hypothetical, QualifiedMs(events, input.policy, input.endedAt.ms));
      if Numbers(input, events).Ok? {
        RateIsBounded(StableSort(events, A.CanonicalLeq));
        FinishesIff(input, CoarseOf(StableSort(events, A.CanonicalLeq)), tools, Numbers(input, events).value);
      }
    }
  }

  lemma FitsIff(h: Option<Hypothetical>, qualifiedMs: int)
    ensures Fits(h, qualifiedMs) <==>
              && C.EconomicsRefinements(qualifiedMs, EconomicsOf(h))
              && (h.Some? ==> IsCurrency(h.value.currency) && 1 <= |h.value.version| <= 128)
  {
  }

  /** What is built meets the whole schema and carries the digest of its own content. */
  lemma BuiltFactIsValid(input: FactInput, events: seq<CanonicalEvent>, tools: Tools)
    requires |events| < MAX_SAFE_INTEGER && BuildSessionFact(input, events, tools).Some?
    ensures var fact := BuildSessionFact(input, events, tools).value;
            ValidContent(fact.content) && fact.recordDigest == tools.digest(fact.content)
  {
  }

  /** The order in which a session's events are read changes nothing in its fact, not even the digest. */
  lemma SessionFactIgnoresEventOrder(input: FactInput, a: seq<CanonicalEvent>, b: seq<CanonicalEvent>, tools: Tools)
    requires multiset(a) == multiset(b) && A.DistinctIds(a) && |a| < MAX_SAFE_INTEGER && |b| < MAX_SAFE_INTEGER
    ensures BuildSessionFact(input, a, tools) == BuildSessionFact(input, b, tools)
  {
    SameMultisetSameMembers(a, b);
    A.CanonicalOrder(a);
    SortForgetsOrder(a, b, A.CanonicalLeq);
    if a != [] && input.endedAt.At? && !input.startedAt.Unreadable? {
      C.FactIgnoresEventOrder(a, b, input.policy, StartOf(input, a).value, input.endedAt.ms, EconomicsOf(input.hypothetical));
    }
  }

  // ------------------------------------------------------------ the dataset row

  datatype RowInput = RowInput(
    sessionId: string, pseudonymKey: string, environmentKind: EnvironmentKind, providerClass: string, integrationMode: string,
    experimentVariant: Option<string>)

  datatype FeatureRow = FeatureRow(
    sessionKey: Digest, environmentKind: EnvironmentKind, providerClass: string, integrationMode: string,
    experimentVariant: Option<string>, numbers: C.DatasetRow)

  /** `buildShadowDatasetRow`, or nothing when it raises an error. */
  function BuildRow(
    input: RowInput, provider: seq<I.Observation>, viewability: seq<I.Observation>, endMs: int,
    current: C.Policy, candidates: seq<C.Policy>, tools: Tools): Option<FeatureRow>
  {
    var numbers := C.BuildShadowDatasetRow(provider, viewability, endMs, current, candidates);
    var providerClass := NormalizeDimension(input.providerClass, tools.lower);
    var mode := NormalizeDimension(input.integrationMode, tools.lower);
    if input.sessionId == "" || input.pseudonymKey == "" || numbers.Err? || providerClass.Err? || mode.Err? then None
    else if input.experimentVariant.Some? && !IsDimension(input.experimentVariant.value) then None
    else
      Some(FeatureRow(
             tools.keyed(input.pseudonymKey, input.sessionId), input.environmentKind, providerClass.value, mode.value,
             input.experimentVariant, numbers.value))
  }

  /**
   The row is built exactly when its identities and dimensions are usable, no time is
   negative and the durations are safe integers, whatever the policies.
   */
  lemma RowIsBuiltIff(
    input: RowInput, provider: seq<I.Observation>, viewability: seq<I.Observation>, endMs: int,
    current: C.Policy, candidates: seq<C.Policy>, tools: Tools)
    ensures BuildRow(input, provider, viewability, endMs, current, candidates, tools).Some? <==>
              && input.sessionId != "" && input.pseudonymKey != ""
              && NormalizeDimension(input.providerClass, tools.lower).Ok? && NormalizeDimension(input.integrationMode, tools.lower).Ok?
              && (input.experimentVariant.Some? ==> IsDimension(input.experimentVariant.value))
              && endMs >= 0 && (forall o | o in provider || o in viewability :: o.atMs >= 0)
              && C.SafeDurations(A.Aggregate(provider, viewability, endMs).value)
    ensures BuildRow(input, provider, viewability, endMs, current, candidates, tools).Some? ==>
              var row := BuildRow(input, provider, viewability, endMs, current, candidates, tools).value;
              && IsDimension(row.providerClass) && IsDimension(row.integrationMode)
              && C.ValidFeatureRecord(row.numbers.record) && |row.numbers.comparisons| == 1 + |candidates|
              && row.numbers.comparisons[0] == row.numbers.record.m
  {
    C.DatasetRowIsTotal(provider, viewability, endMs, current, candidates);
  }
}
