/**
 The fixed-point policy evaluation and the record contracts it feeds: when the
 evaluation succeeds, that every record built from it meets every numeric refinement,
 and the end-to-end composition from observations to dataset row.
 */
module ShadowContract {
  import opened Wrappers
  import A = ShadowAggregation
  import I = Intervals

  const PPM_SCALE: int := 1_000_000
  const MAX_SAFE_INTEGER: int := 0x1F_FFFF_FFFF_FFFF

  datatype RawPolicy = Policy(
    version: int, alphaPpm: int, passiveCapRatioPpm: int, passiveSessionCapMs: int, minimumQualifiedMs: int)

  /** The integer schema admits non-negative safe integers only. */
  predicate IsCount(n: int) {
    0 <= n <= MAX_SAFE_INTEGER
  }

  /** The policy schema. */
  predicate ValidPolicy(p: RawPolicy) {
    && 0 < p.version <= MAX_SAFE_INTEGER
    && 0 <= p.alphaPpm <= PPM_SCALE
    && 0 <= p.passiveCapRatioPpm <= PPM_SCALE
    && IsCount(p.passiveSessionCapMs)
    && IsCount(p.minimumQualifiedMs)
  }

  type Policy = p: RawPolicy | ValidPolicy(p) witness Policy(1, 0, 0, 0, 0)

  datatype Input = Input(renderedMs: int, viewableMs: int, aiEligibleMs: int, qualifiedMs: Option<int>)

  datatype Measurement = Measurement(
    renderedMs: int, viewableMs: int, aiEligibleMs: int, qualifiedMs: int,
    passiveMs: int, passiveBillableMs: int, weightedBillablePpmMs: int)

  function Min(a: int, b: int): int { if a <= b then a else b }

  function MultiplyPpmFloor(value: int, ppm: int): int
    requires value >= 0 && ppm >= 0
  {
    Min(value * ppm / PPM_SCALE, MAX_SAFE_INTEGER)
  }

  predicate ValidMeasurement(m: Measurement) {
    && IsCount(m.renderedMs) && IsCount(m.viewableMs) && IsCount(m.aiEligibleMs) && IsCount(m.qualifiedMs)
    && IsCount(m.passiveMs) && IsCount(m.passiveBillableMs) && 0 <= m.weightedBillablePpmMs
  }

  function Evaluate(input: Input, policy: Policy): Result<Measurement> {
    if input.viewableMs > input.renderedMs then Err("viewableMs cannot exceed renderedMs")
    else
      var raw := match input.qualifiedMs case Some(q) => q case None => Min(input.viewableMs, input.aiEligibleMs);
      if raw < 0 || raw > input.viewableMs || raw > input.aiEligibleMs
      then Err("qualifiedMs must be within both viewable and AI-eligible time")
      else
        var qualifiedMs := if raw >= policy.minimumQualifiedMs then raw else 0;
        var passiveMs := input.viewableMs - qualifiedMs;
        var ratioCapMs := MultiplyPpmFloor(qualifiedMs, policy.passiveCapRatioPpm);
        var passiveBillableMs := Min(Min(passiveMs, ratioCapMs), policy.passiveSessionCapMs);
        var m := Measurement(
                   input.renderedMs, input.viewableMs, input.aiEligibleMs, qualifiedMs, passiveMs, passiveBillableMs,
                   qualifiedMs * PPM_SCALE + passiveBillableMs * policy.alphaPpm);
        if ValidMeasurement(m) then Ok(m) else Err("measurement schema")
  }

  lemma ProductNonNegative(x: int, y: int)
    requires 0 <= x && 0 <= y
    ensures 0 <= x * y
  {
  }

  lemma PpmProductBound(value: int, ppm: int)
    requires 0 <= value && 0 <= ppm <= PPM_SCALE
    ensures 0 <= value * ppm <= value * PPM_SCALE
  {
    ProductNonNegative(value, ppm);
    ProductNonNegative(value, PPM_SCALE - ppm);
    assert value * (PPM_SCALE - ppm) == value * PPM_SCALE - value * ppm;
  }

  /** A ratio of at most one never rounds above its argument, and never meets the safe-integer clamp below it. */
  lemma PpmFloorBound(value: int, ppm: int)
    requires 0 <= value && 0 <= ppm <= PPM_SCALE
    ensures 0 <= value * ppm / PPM_SCALE <= value
    ensures value <= MAX_SAFE_INTEGER ==> MultiplyPpmFloor(value, ppm) == value * ppm / PPM_SCALE
  {
    PpmProductBound(value, ppm);
    FloorBound(value * ppm, value);
  }

  lemma FloorBound(n: int, value: int)
    requires 0 <= n <= value * PPM_SCALE
    ensures 0 <= n / PPM_SCALE <= value
  {
  }

  /** Evaluation succeeds exactly when the durations are ordered and the two free ones are safe integers. */
  lemma EvaluateSucceedsIff(input: Input, policy: Policy)
    ensures Evaluate(input, policy).Ok? <==>
              && 0 <= input.viewableMs <= input.renderedMs <= MAX_SAFE_INTEGER
              && 0 <= input.aiEligibleMs <= MAX_SAFE_INTEGER
              && (input.qualifiedMs.Some? ==> 0 <= input.qualifiedMs.value <= Min(input.viewableMs, input.aiEligibleMs))
  {
    var raw := match input.qualifiedMs case Some(q) => q case None => Min(input.viewableMs, input.aiEligibleMs);
    if 0 <= raw <= Min(input.viewableMs, input.aiEligibleMs) {
      var q := if raw >= policy.minimumQualifiedMs then raw else 0;
      PpmFloorBound(q, policy.passiveCapRatioPpm);
      var billable := Min(Min(input.viewableMs - q, MultiplyPpmFloor(q, policy.passiveCapRatioPpm)), policy.passiveSessionCapMs);
      ProductNonNegative(billable, policy.alphaPpm);
    }
  }

  /** What an evaluation that fails complains about: the surface first, then the qualified time, then the size of the numbers. */
  lemma EvaluateComplaints(input: Input, policy: Policy)
    ensures var r, q := Evaluate(input, policy), input.qualifiedMs;
            var shown := input.viewableMs <= input.renderedMs;
            var fits := if q.Some? then 0 <= q.value <= input.viewableMs && q.value <= input.aiEligibleMs
                        else 0 <= input.viewableMs && 0 <= input.aiEligibleMs;
            && (r == Err("viewableMs cannot exceed renderedMs") <==> !shown)
            && (r == Err("qualifiedMs must be within both viewable and AI-eligible time") <==> shown && !fits)
            && (r.Err? && shown && fits ==> r == Err("measurement schema"))
  {
    assert |"viewableMs cannot exceed renderedMs"| == 35 && |"measurement schema"| == 18;
    assert |"qualifiedMs must be within both viewable and AI-eligible time"| == 61;
  }

  // ------------------------------------------------------------ the fact contract

  datatype Economics = Economics(chargeMinor: int, rewardMinor: int, contributionMinor: int)

  /** The numeric fields of a session fact. The hypothetical fields are null together or present together. */
  datatype Fact = Fact(
    policyVersion: int, alphaPpm: int, passiveCapRatioPpm: int, passiveSessionCapMs: int, minimumQualifiedMs: int,
    renderedMs: int, viewableMs: int, aiEligibleMs: int, qualifiedMs: int,
    passiveMs: int, passiveBillableMs: int, weightedBillablePpmMs: int,
    startedAt: int, endedAt: int, economics: Option<Economics>)

  predicate MeasurementRefinements(f: Fact) {
    && ValidPolicy(Policy(f.policyVersion, f.alphaPpm, f.passiveCapRatioPpm, f.passiveSessionCapMs, f.minimumQualifiedMs))
    && IsCount(f.renderedMs) && IsCount(f.viewableMs) && IsCount(f.aiEligibleMs) && IsCount(f.qualifiedMs)
    && IsCount(f.passiveMs) && IsCount(f.passiveBillableMs) && 0 <= f.weightedBillablePpmMs
    && f.viewableMs <= f.renderedMs
    && f.qualifiedMs <= f.viewableMs && f.qualifiedMs <= f.aiEligibleMs
    && f.passiveMs == f.viewableMs - f.qualifiedMs
    && f.passiveBillableMs <= f.passiveMs
    && (f.qualifiedMs == 0 ==> f.passiveBillableMs == 0)
    && f.passiveBillableMs <= f.qualifiedMs * f.passiveCapRatioPpm / PPM_SCALE
    && f.passiveBillableMs <= f.passiveSessionCapMs
    && f.weightedBillablePpmMs == f.qualifiedMs * PPM_SCALE + f.passiveBillableMs * f.alphaPpm
  }

  predicate EconomicsRefinements(qualifiedMs: int, economics: Option<Economics>) {
    economics.Some? ==>
      var e := economics.value;
      && 0 <= e.chargeMinor && 0 <= e.rewardMinor && 0 <= e.contributionMinor
      && (qualifiedMs == 0 ==> e.rewardMinor == 0)
      && e.rewardMinor <= e.chargeMinor && e.contributionMinor == e.chargeMinor - e.rewardMinor
  }

  /** The numeric part of the fact schema with all its cross-field refinements. */
  predicate ValidFact(f: Fact) {
    f.startedAt <= f.endedAt && MeasurementRefinements(f) && EconomicsRefinements(f.qualifiedMs, f.economics)
  }

  function FactOf(m: Measurement, policy: Policy, startedAt: int, endedAt: int, economics: Option<Economics>): Fact {
    Fact(
      policy.version, policy.alphaPpm, policy.passiveCapRatioPpm, policy.passiveSessionCapMs, policy.minimumQualifiedMs,
      m.renderedMs, m.viewableMs, m.aiEligibleMs, m.qualifiedMs, m.passiveMs, m.passiveBillableMs, m.weightedBillablePpmMs,
      startedAt, endedAt, economics)
  }

  /** Every successful evaluation meets every refinement on measurements. */
  lemma EvaluationMeetsContract(input: Input, policy: Policy, startedAt: int, endedAt: int, economics: Option<Economics>)
    requires Evaluate(input, policy).Ok?
    ensures MeasurementRefinements(FactOf(Evaluate(input, policy).value, policy, startedAt, endedAt, economics))
  {
    var m := Evaluate(input, policy).value;
    PpmFloorBound(m.qualifiedMs, policy.passiveCapRatioPpm);
  }

  /** Passive time never earns more than qualified time did, and weighted time never exceeds viewable time. */
  lemma WeightedTimeIsBounded(input: Input, policy: Policy)
    requires Evaluate(input, policy).Ok?
    ensures var m := Evaluate(input, policy).value;
            && m.passiveBillableMs <= m.qualifiedMs
            && m.qualifiedMs * PPM_SCALE <= m.weightedBillablePpmMs <= m.viewableMs * PPM_SCALE
  {
    var m := Evaluate(input, policy).value;
    PpmFloorBound(m.qualifiedMs, policy.passiveCapRatioPpm);
    PpmProductBound(m.passiveBillableMs, policy.alphaPpm);
  }

  /**
   The evaluation pays out all the contract allows: no fact with the same durations and
   policy that meets the contract has more passive billable or weighted time.
   */
  lemma EvaluationIsLargest(input: Input, policy: Policy, f: Fact)
    requires Evaluate(input, policy).Ok? && MeasurementRefinements(f)
    requires f.viewableMs == input.viewableMs && f.qualifiedMs == Evaluate(input, policy).value.qualifiedMs
    requires f.alphaPpm == policy.alphaPpm && f.passiveCapRatioPpm == policy.passiveCapRatioPpm
    requires f.passiveSessionCapMs == policy.passiveSessionCapMs
    ensures f.passiveBillableMs <= Evaluate(input, policy).value.passiveBillableMs
    ensures f.weightedBillablePpmMs <= Evaluate(input, policy).value.weightedBillablePpmMs
  {
    var m := Evaluate(input, policy).value;
    PpmFloorBound(m.qualifiedMs, policy.passiveCapRatioPpm);
    MoreIsWorthMore(f.passiveBillableMs, m.passiveBillableMs, policy.alphaPpm);
  }

  lemma MoreIsWorthMore(a: int, b: int, rate: int)
    requires a <= b && 0 <= rate
    ensures a * rate <= b * rate
  {
    ProductNonNegative(b - a, rate);
    assert (b - a) * rate == b * rate - a * rate;
  }

  // ------------------------------------------------------------ observations to records

  /** A session fact from canonical events. */
  function BuildFact(
    events: seq<A.CanonicalEvent>, policy: Policy, startedAt: int, endedAt: int, economics: Option<Economics>): Result<Fact>
    requires |events| < A.AgentEvents.MAX_SAFE_INTEGER
  {
    if events == [] then Err("a session fact requires at least one event")
    else if endedAt < startedAt then Err("endedAt cannot precede startedAt")
    else
      match A.AggregateCanonicalEvents(events, A.ViewabilityEventsForCanonicalEvents(events), endedAt)
      case Err(e) => Err(e)
      case Ok(aggregate) =>
        FactFrom(
          Input(aggregate.renderedMs, aggregate.viewableMs, aggregate.aiEligibleMs, Some(aggregate.qualifiedMs)),
          policy, startedAt, endedAt, economics)
  }

  /** No events are complained about first, then an end before the start. */
  lemma FactComplaints(
    events: seq<A.CanonicalEvent>, policy: Policy, startedAt: int, endedAt: int, economics: Option<Economics>)
    requires |events| < A.AgentEvents.MAX_SAFE_INTEGER
    ensures events == [] ==>
              BuildFact(events, policy, startedAt, endedAt, economics) == Err("a session fact requires at least one event")
    ensures events != [] && endedAt < startedAt ==>
              BuildFact(events, policy, startedAt, endedAt, economics) == Err("endedAt cannot precede startedAt")
  {
  }

  function FactFrom(input: Input, policy: Policy, startedAt: int, endedAt: int, economics: Option<Economics>): Result<Fact> {
    match Evaluate(input, policy)
    case Err(e) => Err(e)
    case Ok(m) =>
      var fact := FactOf(m, policy, startedAt, endedAt, economics);
      if ValidFact(fact) then Ok(fact) else Err("fact schema")
  }

  /** The two durations nothing else bounds are safe integers. */
  predicate SafeDurations(r: A.Aggregation) {
    r.renderedMs <= MAX_SAFE_INTEGER && r.aiEligibleMs <= MAX_SAFE_INTEGER
  }

  /** What an aggregation yields, evaluation accepts under every policy, as long as its durations are safe integers. */
  lemma AggregationEvaluates(provider: seq<I.Observation>, viewability: seq<I.Observation>, endMs: int, policy: Policy)
    requires A.Aggregate(provider, viewability, endMs).Ok?
    ensures var r := A.Aggregate(provider, viewability, endMs).value;
            Evaluate(Input(r.renderedMs, r.viewableMs, r.aiEligibleMs, Some(r.qualifiedMs)), policy).Ok? <==> SafeDurations(r)
    ensures endMs <= MAX_SAFE_INTEGER ==> SafeDurations(A.Aggregate(provider, viewability, endMs).value)
  {
    var r := A.Aggregate(provider, viewability, endMs).value;
    A.DurationsAreOrdered(provider, viewability, endMs);
    EvaluateSucceedsIff(Input(r.renderedMs, r.viewableMs, r.aiEligibleMs, Some(r.qualifiedMs)), policy);
  }

  datatype FeatureRecord = FeatureRecord(policyVersion: int, m: Measurement)

  predicate ValidFeatureRecord(r: FeatureRecord) {
    && 0 < r.policyVersion <= MAX_SAFE_INTEGER
    && ValidMeasurement(r.m)
    && r.m.qualifiedMs <= r.m.viewableMs <= r.m.renderedMs
    && r.m.passiveBillableMs <= r.m.passiveMs
  }

  datatype DatasetRow = DatasetRow(record: FeatureRecord, comparisons: seq<Measurement>)

  /** Evaluate one measurement under a list of policies; the first failure fails all. */
  function EvaluateAll(input: Input, policies: seq<Policy>): Result<seq<Measurement>> {
    if policies == [] then Ok([])
    else
      match Evaluate(input, policies[0])
      case Err(e) => Err(e)
      case Ok(m) =>
        match EvaluateAll(input, policies[1..])
        case Err(e) => Err(e)
        case Ok(rest) => Ok([m] + rest)
  }

  /** The numeric part of a dataset row. */
  function BuildShadowDatasetRow(
    provider: seq<I.Observation>, viewability: seq<I.Observation>, endMs: int, current: Policy, candidates: seq<Policy>): Result<DatasetRow> {
    match A.Aggregate(provider, viewability, endMs)
    case Err(e) => Err(e)
    case Ok(r) =>
      var input := Input(r.renderedMs, r.viewableMs, r.aiEligibleMs, Some(r.qualifiedMs));
      match Evaluate(input, current)
      case Err(e) => Err(e)
      case Ok(m) =>
        var record := FeatureRecord(current.version, m);
        if !ValidFeatureRecord(record) then Err("feature schema")
        else
          match EvaluateAll(input, [current] + candidates)
          case Err(e) => Err(e)
          case Ok(comparisons) => Ok(DatasetRow(record, comparisons))
  }

  lemma {:induction false} EvaluateAllSucceeds(input: Input, policies: seq<Policy>)
    requires forall p: Policy :: Evaluate(input, p).Ok?
    ensures EvaluateAll(input, policies).Ok? && |EvaluateAll(input, policies).value| == |policies|
    ensures forall i | 0 <= i < |policies| :: Evaluate(input, policies[i]) == Ok(EvaluateAll(input, policies).value[i])
  {
    if policies != [] { EvaluateAllSucceeds(input, policies[1..]); }
  }

  /**
   End to end: the row is built exactly when the end and the timestamps are non-negative
   and the durations safe integers, as they are before every safe-integer end, whatever the
   policies; no other check behind the aggregation can fail.
   */
  lemma DatasetRowIsTotal(
    provider: seq<I.Observation>, viewability: seq<I.Observation>, endMs: int, current: Policy, candidates: seq<Policy>)
    ensures BuildShadowDatasetRow(provider, viewability, endMs, current, candidates).Ok? <==>
              && endMs >= 0 && (forall e | e in provider || e in viewability :: e.atMs >= 0)
              && SafeDurations(A.Aggregate(provider, viewability, endMs).value)
    ensures endMs >= 0 && (forall e | e in provider || e in viewability :: e.atMs >= 0) && endMs <= MAX_SAFE_INTEGER ==>
              SafeDurations(A.Aggregate(provider, viewability, endMs).value)
    ensures BuildShadowDatasetRow(provider, viewability, endMs, current, candidates).Ok? ==>
              var row := BuildShadowDatasetRow(provider, viewability, endMs, current, candidates).value;
              && |row.comparisons| == 1 + |candidates| && row.comparisons[0] == row.record.m
              && row.record.m.qualifiedMs in {0, A.Aggregate(provider, viewability, endMs).value.qualifiedMs}
  {
    A.AggregateSucceedsIff(provider, viewability, endMs);
    if A.Aggregate(provider, viewability, endMs).Ok? {
      RowOfAggregation(provider, viewability, endMs, current, candidates);
      AggregationEvaluates(provider, viewability, endMs, current);
    }
  }

  /** Behind a successful aggregation only unsafe durations can fail. */
  lemma RowOfAggregation(
    provider: seq<I.Observation>, viewability: seq<I.Observation>, endMs: int, current: Policy, candidates: seq<Policy>)
    requires A.Aggregate(provider, viewability, endMs).Ok?
    ensures BuildShadowDatasetRow(provider, viewability, endMs, current, candidates).Ok? <==>
              SafeDurations(A.Aggregate(provider, viewability, endMs).value)
    ensures BuildShadowDatasetRow(provider, viewability, endMs, current, candidates).Ok? ==>
              var row := BuildShadowDatasetRow(provider, viewability, endMs, current, candidates).value;
              && |row.comparisons| == 1 + |candidates| && row.comparisons[0] == row.record.m
              && row.record.m.qualifiedMs in {0, A.Aggregate(provider, viewability, endMs).value.qualifiedMs}
  {
    var r := A.Aggregate(provider, viewability, endMs).value;
    var input := Input(r.renderedMs, r.viewableMs, r.aiEligibleMs, Some(r.qualifiedMs));
    forall p: Policy ensures Evaluate(input, p).Ok? <==> SafeDurations(r) {
      AggregationEvaluates(provider, viewability, endMs, p);
    }
    if SafeDurations(r) {
      EvaluationMeetsContract(input, current, 0, 0, None);
      EvaluateAllSucceeds(input, [current] + candidates);
    }
  }

  /**
   A fact is built exactly when there is an event, no timestamp is negative, the session
   does not end before it starts, the durations are safe integers, and the hypothetical
   economics are consistent with the qualified time; and a fact that is built meets the
   whole contract.
   */
  lemma FactIsBuiltIff(events: seq<A.CanonicalEvent>, policy: Policy, startedAt: int, endedAt: int, economics: Option<Economics>)
    requires |events| < A.AgentEvents.MAX_SAFE_INTEGER
    ensures var aggregate := A.AggregateCanonicalEvents(events, A.ViewabilityEventsForCanonicalEvents(events), endedAt);
            BuildFact(events, policy, startedAt, endedAt, economics).Ok? <==>
              && events != [] && startedAt <= endedAt && aggregate.Ok? && SafeDurations(aggregate.value)
              && EconomicsRefinements(
                   if aggregate.value.qualifiedMs >= policy.minimumQualifiedMs then aggregate.value.qualifiedMs else 0, economics)
    ensures BuildFact(events, policy, startedAt, endedAt, economics).Ok? ==>
              ValidFact(BuildFact(events, policy, startedAt, endedAt, economics).value)
    ensures var aggregate := A.AggregateCanonicalEvents(events, A.ViewabilityEventsForCanonicalEvents(events), endedAt);
            aggregate.Ok? && endedAt <= MAX_SAFE_INTEGER ==> SafeDurations(aggregate.value)
  {
    var views := A.ViewabilityEventsForCanonicalEvents(events);
    var aggregate := A.AggregateCanonicalEvents(events, views, endedAt);
    if aggregate.Ok? {
      var provider := A.ProviderObservations(A.Sorting.StableSort(events, A.CanonicalLeq));
      var viewability := A.ViewabilityObservations(A.Sorting.StableSort(views, A.ViewabilityLeq));
      AggregationEvaluates(provider, viewability, endedAt, policy);
      var r := aggregate.value;
      if SafeDurations(r) {
        FactFromIff(Input(r.renderedMs, r.viewableMs, r.aiEligibleMs, Some(r.qualifiedMs)), policy, startedAt, endedAt, economics);
      }
    }
  }

  lemma FactFromIff(input: Input, policy: Policy, startedAt: int, endedAt: int, economics: Option<Economics>)
    requires Evaluate(input, policy).Ok? && input.qualifiedMs.Some?
    ensures FactFrom(input, policy, startedAt, endedAt, economics).Ok? <==>
              && startedAt <= endedAt
              && EconomicsRefinements(
                   if input.qualifiedMs.value >= policy.minimumQualifiedMs then input.qualifiedMs.value else 0, economics)
    ensures FactFrom(input, policy, startedAt, endedAt, economics).Ok? ==>
              ValidFact(FactFrom(input, policy, startedAt, endedAt, economics).value)
  {
    EvaluationMeetsContract(input, policy, startedAt, endedAt, economics);
  }

  /** A session's fact does not depend on the order its events are read in. */
  lemma FactIgnoresEventOrder(
    a: seq<A.CanonicalEvent>, b: seq<A.CanonicalEvent>, policy: Policy, startedAt: int, endedAt: int, economics: Option<Economics>)
    requires multiset(a) == multiset(b) && A.DistinctIds(a)
    requires |a| < A.AgentEvents.MAX_SAFE_INTEGER && |b| < A.AgentEvents.MAX_SAFE_INTEGER
    ensures BuildFact(a, policy, startedAt, endedAt, economics) == BuildFact(b, policy, startedAt, endedAt, economics)
  {
    A.SessionAggregationIgnoresOrder(a, b, endedAt);
    assert |multiset(a)| == |a| && |multiset(b)| == |b|;
  }
}
