/**
 What a device signs: the batch with its events sorted, as canonical text. The text
 depends on the batch only up to the order of its events and of the keys inside them,
 and, infinite numbers aside, it determines the batch that far.
 */
module BatchSigning {
  import opened Wrappers
  import opened Sorting
  import opened Json
  import opened Strings
  import opened SignedEnvelope

  /** The two library conversions the comparator calls. `parseDate` is empty where `Date.parse` gives NaN. */
  datatype Runtime = Runtime(parseDate: string -> Option<int>, numberOf: string -> real)

  const MAX_SAFE_INTEGER := 0x1F_FFFF_FFFF_FFFF

  datatype Batch = Batch(
    schemaVersion: Value,
    environmentId: string,
    installationId: string,
    deviceId: string,
    events: seq<Value>)

  ghost predicate WellFormedBatch(b: Batch) {
    WellFormed(b.schemaVersion) && forall e | e in b.events :: WellFormed(e)
  }

  // ------------------------------------------------------------ the comparator

  /** A property of an unknown event; anything but an object has none. */
  function Property(v: Value, key: string): Option<Value> {
    if v.Obj? && key in Keys(v.fields) then Some(Lookup(v.fields, key)) else None
  }

  function TimeOf(rt: Runtime, e: Value): int {
    match Property(e, "occurredAt")
    case Some(Str(s)) => (match rt.parseDate(s) case Some(t) => t case None => MAX_SAFE_INTEGER)
    case _ => MAX_SAFE_INTEGER
  }

  function SequenceOf(rt: Runtime, e: Value): real {
    match Property(e, "sequence")
    case Some(Num(text)) => rt.numberOf(text)
    case _ => MAX_SAFE_INTEGER as real
  }

  function IdOf(e: Value): string {
    match Property(e, "eventId")
    case Some(Str(s)) => s
    case _ => ""
  }

  function CompareNumbers(left: real, right: real): int {
    if left == right then 0 else if left < right then -1 else 1
  }

  function CompareStrings(left: string, right: string): int {
    if left == right then 0 else if StrLeq(left, right) then -1 else 1
  }

  function Compare(rt: Runtime, left: Value, right: Value): int {
    var time := CompareNumbers(TimeOf(rt, left) as real, TimeOf(rt, right) as real);
    if time != 0 then time
    else
      var sequence := CompareNumbers(SequenceOf(rt, left), SequenceOf(rt, right));
      if sequence != 0 then sequence
      else
        var id := CompareStrings(IdOf(left), IdOf(right));
        if id != 0 then id
        else CompareStrings(StableSerialize(left), StableSerialize(right))
  }

  function Order(rt: Runtime): (Value, Value) -> bool {
    (left, right) => Compare(rt, left, right) <= 0
  }

  /** Comparison results of `a` with `b`, back, of `b` with `c` and of `a` with `c` that fit one order. */
  predicate Consistent(ab: int, ba: int, bc: int, ac: int) {
    ab == -ba && (ab <= 0 && bc <= 0 ==> ac <= 0 && (ac == 0 ==> ab == 0 && bc == 0)) && (ab == 0 && bc == 0 ==> ac == 0)
  }

  /** The first comparison decides unless it ties. */
  function Then(first: int, second: int): int {
    if first != 0 then first else second
  }

  lemma ThenConsistent(ab: int, ba: int, bc: int, ac: int, ab': int, ba': int, bc': int, ac': int)
    requires Consistent(ab, ba, bc, ac) && Consistent(ab', ba', bc', ac')
    ensures Consistent(Then(ab, ab'), Then(ba, ba'), Then(bc, bc'), Then(ac, ac'))
  {
  }

  lemma NumbersCompare(a: real, b: real, c: real)
    ensures Consistent(CompareNumbers(a, b), CompareNumbers(b, a), CompareNumbers(b, c), CompareNumbers(a, c))
  {
  }

  lemma StringsCompare(a: string, b: string, c: string)
    ensures Consistent(CompareStrings(a, b), CompareStrings(b, a), CompareStrings(b, c), CompareStrings(a, c))
  {
    StrTotal(a, b);
    StrTotal(b, c);
    StrTotal(a, c);
    if StrLeq(a, b) && StrLeq(b, c) { StrTransitive(a, b, c); }
  }

  function CompareTimes(rt: Runtime, a: Value, b: Value): int {
    CompareNumbers(TimeOf(rt, a) as real, TimeOf(rt, b) as real)
  }

  function CompareSequences(rt: Runtime, a: Value, b: Value): int {
    CompareNumbers(SequenceOf(rt, a), SequenceOf(rt, b))
  }

  function CompareTexts(a: Value, b: Value): int {
    Then(CompareStrings(IdOf(a), IdOf(b)), CompareStrings(StableSerialize(a), StableSerialize(b)))
  }

  lemma CompareInLayers(rt: Runtime, a: Value, b: Value)
    ensures Compare(rt, a, b) == Then(CompareTimes(rt, a, b), Then(CompareSequences(rt, a, b), CompareTexts(a, b)))
  {
  }

  lemma TextsCompare(a: Value, b: Value, c: Value)
    ensures Consistent(CompareTexts(a, b), CompareTexts(b, a), CompareTexts(b, c), CompareTexts(a, c))
  {
    StringsCompare(IdOf(a), IdOf(b), IdOf(c));
    StringsCompare(StableSerialize(a), StableSerialize(b), StableSerialize(c));
  }

  /** The comparator is antisymmetric in sign and transitive: a total preorder on any values. */
  lemma CompareIsPreorder(rt: Runtime, a: Value, b: Value, c: Value)
    ensures Compare(rt, a, b) == -Compare(rt, b, a)
    ensures Compare(rt, a, b) <= 0 && Compare(rt, b, c) <= 0 ==> Compare(rt, a, c) <= 0
  {
    CompareInLayers(rt, a, b);
    CompareInLayers(rt, b, a);
    CompareInLayers(rt, b, c);
    CompareInLayers(rt, a, c);
    NumbersCompare(TimeOf(rt, a) as real, TimeOf(rt, b) as real, TimeOf(rt, c) as real);
    NumbersCompare(SequenceOf(rt, a), SequenceOf(rt, b), SequenceOf(rt, c));
    TextsCompare(a, b, c);
    ThenConsistent(
      CompareSequences(rt, a, b), CompareSequences(rt, b, a), CompareSequences(rt, b, c), CompareSequences(rt, a, c),
      CompareTexts(a, b), CompareTexts(b, a), CompareTexts(b, c), CompareTexts(a, c));
    ThenConsistent(
      CompareTimes(rt, a, b), CompareTimes(rt, b, a), CompareTimes(rt, b, c), CompareTimes(rt, a, c),
      Then(CompareSequences(rt, a, b), CompareTexts(a, b)), Then(CompareSequences(rt, b, a), CompareTexts(b, a)),
      Then(CompareSequences(rt, b, c), CompareTexts(b, c)), Then(CompareSequences(rt, a, c), CompareTexts(a, c)));
  }

  lemma SameProperty(a: Value, b: Value, key: string)
    requires WellFormed(a) && WellFormed(b) && SameUpToKeyOrder(a, b)
    ensures Property(a, key).Some? <==> Property(b, key).Some?
    ensures Property(a, key).Some? ==> SameUpToKeyOrder(Property(a, key).value, Property(b, key).value)
  {
    if a.Obj? {
      KeysNoRepeats(a.fields);
      KeysNoRepeats(b.fields);
      forall k | k in Keys(a.fields) ensures k in Keys(b.fields) {
        assert a.fields[IndexOf(a.fields, k)].key == k;
      }
      InclusionIsPermutation(Keys(a.fields), Keys(b.fields));
      SameMultisetSameMembers(Keys(a.fields), Keys(b.fields));
      if key in Keys(a.fields) {
        assert a.fields[IndexOf(a.fields, key)].key == key;
      }
    }
  }

  /** The three properties the comparator looks at do not depend on key order. */
  lemma SameRank(rt: Runtime, a: Value, b: Value)
    requires WellFormed(a) && WellFormed(b) && SameUpToKeyOrder(a, b)
    ensures TimeOf(rt, a) == TimeOf(rt, b)
    ensures SequenceOf(rt, a) == SequenceOf(rt, b)
    ensures IdOf(a) == IdOf(b)
  {
    SameProperty(a, b, "occurredAt");
    SameProperty(a, b, "sequence");
    SameProperty(a, b, "eventId");
  }

  lemma TieOrRank(rt: Runtime, a: Value, b: Value)
    ensures Compare(rt, a, b) == 0 <==>
      && TimeOf(rt, a) == TimeOf(rt, b) && SequenceOf(rt, a) == SequenceOf(rt, b) && IdOf(a) == IdOf(b)
      && StableSerialize(a) == StableSerialize(b)
  {
  }

  /** Ties are exactly the events that differ in key order alone. */
  lemma TiesAreSame(rt: Runtime, a: Value, b: Value)
    requires WellFormed(a) && WellFormed(b)
    ensures Compare(rt, a, b) == 0 <==> SameUpToKeyOrder(a, b)
  {
    TieOrRank(rt, a, b);
    SerializerInjective(a, b);
    if SameUpToKeyOrder(a, b) { SameRank(rt, a, b); }
  }

  // ------------------------------------------------------------ events up to key order

  lemma {:induction false} SortIdempotent(v: Value)
    requires WellFormed(v)
    ensures SortKeysDeep(SortKeysDeep(v)) == SortKeysDeep(v)
  {
    match v {
      case Arr(items) =>
        forall i | 0 <= i < |items| ensures SortKeysDeep(SortKeysDeep(items[i])) == SortKeysDeep(items[i]) {
          assert items[i] in items;
          SortIdempotent(items[i]);
        }
        assert SortKeysDeep(SortKeysDeep(v)).items == SortKeysDeep(v).items;
      case Obj(fields) =>
        var keys, sorted := SortedKeys(fields), SortKeysDeep(v).fields;
        assert Keys(sorted) == keys;
        SortedKeysAgain(fields, sorted);
        forall i | 0 <= i < |keys| ensures SortKeysDeep(Lookup(sorted, keys[i])) == sorted[i].value {
          LookupFinds(sorted, i);
          var j := IndexOf(fields, keys[i]);
          assert fields[j] in fields;
          SortIdempotent(fields[j].value);
        }
        assert SortKeysDeep(Obj(sorted)).fields == sorted;
      case _ =>
    }
  }

  lemma SortedKeysAgain(fields: seq<Field>, sorted: seq<Field>)
    requires DistinctKeys(fields) && Keys(sorted) == SortedKeys(fields)
    ensures SortedKeys(sorted) == SortedKeys(fields) && DistinctKeys(sorted)
  {
    SortedKeysNoRepeats(fields);
    StringOrder(Keys(sorted));
    SortForgetsOrder(Keys(sorted), Keys(fields), StrLeq);
    forall i, j | 0 <= i < j < |sorted| ensures sorted[i].key != sorted[j].key {
      assert Keys(sorted)[i] != Keys(sorted)[j];
    }
  }

  /** The events, each with its keys sorted. */
  function Canonical(events: seq<Value>): seq<Value> {
    seq(|events|, i requires 0 <= i < |events| => SortKeysDeep(events[i]))
  }

  /** Two batches that differ in the order of events and in key order only. */
  ghost predicate SameBatch(a: Batch, b: Batch) {
    && SameUpToKeyOrder(a.schemaVersion, b.schemaVersion)
    && a.environmentId == b.environmentId && a.installationId == b.installationId && a.deviceId == b.deviceId
    && multiset(Canonical(a.events)) == multiset(Canonical(b.events))
  }

  lemma CanonicalCons(events: seq<Value>)
    requires events != []
    ensures Canonical(events) == [SortKeysDeep(events[0])] + Canonical(events[1..])
  {
  }

  /** Comparing is unaffected by key order. */
  lemma CompareCanonical(rt: Runtime, a: Value, b: Value)
    requires WellFormed(a) && WellFormed(b)
    ensures Compare(rt, a, b) <= 0 <==> Compare(rt, SortKeysDeep(a), SortKeysDeep(b)) <= 0
  {
    var ka, kb := SortKeysDeep(a), SortKeysDeep(b);
    TieWithCanonical(rt, a);
    TieWithCanonical(rt, b);
    CompareIsPreorder(rt, a, ka, kb);
    CompareIsPreorder(rt, ka, kb, b);
    CompareIsPreorder(rt, ka, a, b);
    CompareIsPreorder(rt, a, b, kb);
    CompareIsPreorder(rt, a, kb, b);
    CompareIsPreorder(rt, ka, b, kb);
  }

  lemma TieWithCanonical(rt: Runtime, v: Value)
    requires WellFormed(v)
    ensures Compare(rt, v, SortKeysDeep(v)) == 0
  {
    SortedIsWellFormed(v);
    SortIdempotent(v);
    AlikeSortedIsSame(v, SortKeysDeep(v));
    TiesAreSame(rt, v, SortKeysDeep(v));
  }

  lemma {:induction false} InsertCommutes(rt: Runtime, x: Value, s: seq<Value>)
    requires WellFormed(x) && forall e | e in s :: WellFormed(e)
    ensures Canonical(Insert(x, s, Order(rt))) == Insert(SortKeysDeep(x), Canonical(s), Order(rt))
  {
    if s != [] {
      CanonicalCons(s);
      CompareCanonical(rt, x, s[0]);
      if !Order(rt)(x, s[0]) {
        InsertCommutes(rt, x, s[1..]);
        CanonicalCons(Insert(x, s, Order(rt)));
      } else {
        CanonicalCons([x] + s);
      }
    }
  }

  /** Sorting the events and sorting their keys commute. */
  lemma {:induction false} SortCommutes(rt: Runtime, events: seq<Value>)
    requires forall e | e in events :: WellFormed(e)
    ensures Canonical(StableSort(events, Order(rt))) == StableSort(Canonical(events), Order(rt))
  {
    if events != [] {
      var rest := StableSort(events[1..], Order(rt));
      SameMultisetSameMembers(rest, events[1..]);
      SortCommutes(rt, events[1..]);
      CanonicalCons(events);
      InsertCommutes(rt, events[0], rest);
    }
  }

  /** Canonical events are totally ordered with no proper ties. */
  lemma CanonicalOrder(rt: Runtime, events: seq<Value>)
    requires forall e | e in events :: WellFormed(e)
    ensures TotalOn(Order(rt), Canonical(events)) && TransitiveOn(Order(rt), Canonical(events))
    ensures AntisymmetricOn(Order(rt), Canonical(events))
  {
    var s := Canonical(events);
    forall x, y | x in s && y in s
      ensures Order(rt)(x, y) || Order(rt)(y, x)
      ensures Order(rt)(x, y) && Order(rt)(y, x) ==> x == y
    {
      CompareIsPreorder(rt, x, y, y);
      var i :| 0 <= i < |s| && s[i] == x;
      var j :| 0 <= j < |s| && s[j] == y;
      assert events[i] in events && events[j] in events;
      CanonicalTie(rt, events[i], events[j]);
    }
    forall x, y, z | x in s && y in s && z in s && Order(rt)(x, y) && Order(rt)(y, z) ensures Order(rt)(x, z) {
      CompareIsPreorder(rt, x, y, z);
    }
  }

  lemma CanonicalTie(rt: Runtime, a: Value, b: Value)
    requires WellFormed(a) && WellFormed(b)
    ensures Compare(rt, SortKeysDeep(a), SortKeysDeep(b)) == 0 ==> SortKeysDeep(a) == SortKeysDeep(b)
  {
    SortedIsWellFormed(a);
    SortedIsWellFormed(b);
    SortIdempotent(a);
    SortIdempotent(b);
    TiesAreSame(rt, SortKeysDeep(a), SortKeysDeep(b));
    SerializerInjective(SortKeysDeep(a), SortKeysDeep(b));
  }

  /** Any two queue orders of the same events sort to the same events, key order aside. */
  lemma SortedEventsAgree(rt: Runtime, a: seq<Value>, b: seq<Value>)
    requires (forall e | e in a :: WellFormed(e)) && (forall e | e in b :: WellFormed(e))
    requires multiset(Canonical(a)) == multiset(Canonical(b))
    ensures Canonical(StableSort(a, Order(rt))) == Canonical(StableSort(b, Order(rt)))
  {
    SortCommutes(rt, a);
    SortCommutes(rt, b);
    CanonicalOrder(rt, a);
    SortForgetsOrder(Canonical(a), Canonical(b), Order(rt));
  }

  /** Earlier in time, then in sequence, then by id. */
  predicate NotLater(rt: Runtime, a: Value, b: Value) {
    && TimeOf(rt, a) <= TimeOf(rt, b)
    && (TimeOf(rt, a) == TimeOf(rt, b) ==> SequenceOf(rt, a) <= SequenceOf(rt, b))
    && (TimeOf(rt, a) == TimeOf(rt, b) && SequenceOf(rt, a) == SequenceOf(rt, b) ==> StrLeq(IdOf(a), IdOf(b)))
  }

  /** The signed events come in order of time, sequence and id, whatever else the batch holds. */
  lemma EventsComeInOrder(rt: Runtime, events: seq<Value>)
    ensures SortedBy((a, b) => NotLater(rt, a, b), StableSort(events, Order(rt)))
  {
    forall x, y | x in events && y in events ensures Order(rt)(x, y) || Order(rt)(y, x) {
      CompareIsPreorder(rt, x, y, y);
    }
    forall x, y, z | x in events && y in events && z in events && Order(rt)(x, y) && Order(rt)(y, z) ensures Order(rt)(x, z) {
      CompareIsPreorder(rt, x, y, z);
    }
    StableSortSorted(events, Order(rt));
    var sorted := StableSort(events, Order(rt));
    forall i, j | 0 <= i < j < |sorted| ensures NotLater(rt, sorted[i], sorted[j]) {
      assert Order(rt)(sorted[i], sorted[j]);
      ComparedIsNotLater(rt, sorted[i], sorted[j]);
    }
  }

  lemma ComparedIsNotLater(rt: Runtime, a: Value, b: Value)
    requires Compare(rt, a, b) <= 0
    ensures NotLater(rt, a, b)
  {
    StrTotal(IdOf(a), IdOf(b));
  }

  /** The object has this value under this key. */
  ghost predicate HasProperty(v: Value, key: string, x: Value) {
    v.Obj? && Field(key, x) in v.fields
  }

  lemma PropertyIs(v: Value, key: string, x: Value)
    requires WellFormed(v)
    ensures Property(v, key) == Some(x) <==> HasProperty(v, key, x)
  {
    if v.Obj? {
      if i :| 0 <= i < |v.fields| && v.fields[i] == Field(key, x) { LookupFinds(v.fields, i); }
      if key in Keys(v.fields) { assert v.fields[IndexOf(v.fields, key)] in v.fields; }
    }
  }

  /** Its `occurredAt` is text that parses to `t`. */
  ghost predicate ParsesTo(rt: Runtime, e: Value, t: int) {
    exists s :: HasProperty(e, "occurredAt", Str(s)) && rt.parseDate(s) == Some(t)
  }

  /** The time an event is sorted by: what its text parses to, or the greatest safe integer. */
  ghost predicate OccursAt(rt: Runtime, e: Value, t: int) {
    ParsesTo(rt, e, t) || (t == 9_007_199_254_740_991 && forall u :: !ParsesTo(rt, e, u))
  }

  /** The number it is sorted by: its finite sequence, or the greatest safe integer. */
  ghost predicate IsNumbered(rt: Runtime, e: Value, n: real) {
    || (exists text :: HasProperty(e, "sequence", Num(text)) && rt.numberOf(text) == n)
    || (n == 9_007_199_254_740_991.0 && forall text :: !HasProperty(e, "sequence", Num(text)))
  }

  /** The text it is sorted by: its id, or none. */
  ghost predicate IsNamed(e: Value, id: string) {
    HasProperty(e, "eventId", Str(id)) || (id == "" && forall s :: !HasProperty(e, "eventId", Str(s)))
  }

  lemma SortedByTime(rt: Runtime, e: Value, t: int)
    requires WellFormed(e) && OccursAt(rt, e, t)
    ensures TimeOf(rt, e) == t
  {
    var property := Property(e, "occurredAt");
    if property.Some? { PropertyIs(e, "occurredAt", property.value); }
    if s :| HasProperty(e, "occurredAt", Str(s)) && rt.parseDate(s) == Some(t) { PropertyIs(e, "occurredAt", Str(s)); }
    if property.Some? && property.value.Str? && rt.parseDate(property.value.s).Some? {
      assert ParsesTo(rt, e, rt.parseDate(property.value.s).value);
    }
  }

  lemma SortedByNumber(rt: Runtime, e: Value, n: real)
    requires WellFormed(e) && IsNumbered(rt, e, n)
    ensures SequenceOf(rt, e) == n
  {
    var property := Property(e, "sequence");
    if property.Some? { PropertyIs(e, "sequence", property.value); }
    if text :| HasProperty(e, "sequence", Num(text)) && rt.numberOf(text) == n { PropertyIs(e, "sequence", Num(text)); }
  }

  lemma SortedByName(e: Value, id: string)
    requires WellFormed(e) && IsNamed(e, id)
    ensures IdOf(e) == id
  {
    var property := Property(e, "eventId");
    if property.Some? { PropertyIs(e, "eventId", property.value); }
    PropertyIs(e, "eventId", Str(id));
  }

  /**
   Any two signed events, the first before the second: it is not later, at one time not
   greater in number, with one number not greater in id, and with one id not greater in its
   serialized text.
   */
  lemma SignedInOrder(rt: Runtime, events: seq<Value>, i: int, j: int, t: int, u: int, m: real, n: real, a: string, b: string)
    requires (forall e | e in events :: WellFormed(e)) && 0 <= i < j < |StableSort(events, Order(rt))|
    requires var x, y := StableSort(events, Order(rt))[i], StableSort(events, Order(rt))[j];
             && OccursAt(rt, x, t) && OccursAt(rt, y, u) && IsNumbered(rt, x, m) && IsNumbered(rt, y, n)
             && IsNamed(x, a) && IsNamed(y, b)
    ensures var x, y := StableSort(events, Order(rt))[i], StableSort(events, Order(rt))[j];
            && t <= u && (t == u ==> m <= n) && (t == u && m == n ==> StrLeq(a, b))
            && (t == u && m == n && a == b ==> StrLeq(StableSerialize(x), StableSerialize(y)))
  {
    var sorted := StableSort(events, Order(rt));
    SameMultisetSameMembers(sorted, events);
    assert sorted[i] in events && sorted[j] in events;
    SortedByTime(rt, sorted[i], t);
    SortedByTime(rt, sorted[j], u);
    SortedByNumber(rt, sorted[i], m);
    SortedByNumber(rt, sorted[j], n);
    SortedByName(sorted[i], a);
    SortedByName(sorted[j], b);
    OrderedPairs(rt, events, i, j);
    ComparedIsNotLater(rt, sorted[i], sorted[j]);
    StrTotal(StableSerialize(sorted[i]), StableSerialize(sorted[j]));
  }

  lemma OrderedPairs(rt: Runtime, events: seq<Value>, i: int, j: int)
    requires 0 <= i < j < |StableSort(events, Order(rt))|
    ensures Compare(rt, StableSort(events, Order(rt))[i], StableSort(events, Order(rt))[j]) <= 0
  {
    forall x, y | x in events && y in events ensures Order(rt)(x, y) || Order(rt)(y, x) {
      CompareIsPreorder(rt, x, y, y);
    }
    forall x, y, z | x in events && y in events && z in events && Order(rt)(x, y) && Order(rt)(y, z) ensures Order(rt)(x, z) {
      CompareIsPreorder(rt, x, y, z);
    }
    StableSortSorted(events, Order(rt));
    assert Order(rt)(StableSort(events, Order(rt))[i], StableSort(events, Order(rt))[j]);
  }

  // ------------------------------------------------------------ the signed text

  /** `canonicalAgentBatchPayloadFromUnknown`. */
  function Payload(rt: Runtime, b: Batch): Value {
    Obj([
      Field("schemaVersion", b.schemaVersion),
      Field("environmentId", Str(b.environmentId)),
      Field("installationId", Str(b.installationId)),
      Field("deviceId", Str(b.deviceId)),
      Field("events", Arr(StableSort(b.events, Order(rt))))
    ])
  }

  function SignedText(rt: Runtime, b: Batch): string {
    CanonicalJson(Payload(rt, b))
  }

  lemma PayloadWellFormed(rt: Runtime, b: Batch)
    requires WellFormedBatch(b)
    ensures WellFormed(Payload(rt, b))
  {
    var sorted := StableSort(b.events, Order(rt));
    SameMultisetSameMembers(sorted, b.events);
    assert WellFormed(Arr(sorted));
    var fields := Payload(rt, b).fields;
    HeaderKeysDistinct(fields);
  }

  lemma HeaderKeysDistinct(fields: seq<Field>)
    requires |fields| == 5
    requires fields[0].key == "schemaVersion" && fields[1].key == "environmentId" && fields[2].key == "installationId"
    requires fields[3].key == "deviceId" && fields[4].key == "events"
    ensures DistinctKeys(fields)
  {
    assert fields[0].key[0] == 's' && fields[2].key[0] == 'i' && fields[3].key[0] == 'd';
    assert fields[1].key[1] == 'n' && fields[4].key[1] == 'v' && fields[1].key[0] == fields[4].key[0] == 'e';
  }

  /** Two payload objects are the same up to key order when their five values are. */
  lemma SameHeaders(a: seq<Field>, b: seq<Field>)
    requires DistinctKeys(b) && |a| == |b| == 5 && forall i | 0 <= i < |a| :: a[i].key == b[i].key
    ensures SameUpToKeyOrder(Obj(a), Obj(b)) <==>
      && SameUpToKeyOrder(a[0].value, b[0].value) && SameUpToKeyOrder(a[1].value, b[1].value)
      && SameUpToKeyOrder(a[2].value, b[2].value) && SameUpToKeyOrder(a[3].value, b[3].value)
      && SameUpToKeyOrder(a[4].value, b[4].value)
  {
    forall i | 0 <= i < |a| ensures a[i].key in Keys(b) && Lookup(b, a[i].key) == b[i].value {
      LookupFinds(b, i);
    }
    assert SameUpToKeyOrder(Obj(a), Obj(b)) <==> forall i | 0 <= i < |a| :: SameUpToKeyOrder(a[i].value, b[i].value);
  }

  /** The five properties that are signed, and nothing else: the four of the header under their names, and the sorted events. */
  lemma PayloadHas(rt: Runtime, b: Batch, key: string, x: Value)
    ensures HasProperty(Payload(rt, b), key, x) <==>
              || (key == "schemaVersion" && x == b.schemaVersion)
              || (key == "environmentId" && x == Str(b.environmentId))
              || (key == "installationId" && x == Str(b.installationId))
              || (key == "deviceId" && x == Str(b.deviceId))
              || (key == "events" && x == Arr(StableSort(b.events, Order(rt))))
    ensures |Payload(rt, b).fields| == 5
  {
  }

  /** Payloads are the same up to key order exactly when their parts are. */
  lemma SamePayload(rt: Runtime, a: Batch, b: Batch)
    requires WellFormedBatch(a) && WellFormedBatch(b)
    ensures SameUpToKeyOrder(Payload(rt, a), Payload(rt, b)) <==> SameBatch(a, b)
  {
    PayloadWellFormed(rt, b);
    SameHeaders(Payload(rt, a).fields, Payload(rt, b).fields);
    SameStrings(a.environmentId, b.environmentId);
    SameStrings(a.installationId, b.installationId);
    SameStrings(a.deviceId, b.deviceId);
    EventsSame(rt, a.events, b.events);
  }

  lemma SameStrings(a: string, b: string)
    ensures SameUpToKeyOrder(Str(a), Str(b)) <==> a == b
  {
  }

  lemma EventsSame(rt: Runtime, a: seq<Value>, b: seq<Value>)
    requires (forall e | e in a :: WellFormed(e)) && (forall e | e in b :: WellFormed(e))
    ensures SameUpToKeyOrder(Arr(StableSort(a, Order(rt))), Arr(StableSort(b, Order(rt))))
       <==> multiset(Canonical(a)) == multiset(Canonical(b))
  {
    var sa, sb := StableSort(a, Order(rt)), StableSort(b, Order(rt));
    SameMultisetSameMembers(sa, a);
    SameMultisetSameMembers(sb, b);
    SortCommutes(rt, a);
    SortCommutes(rt, b);
    if multiset(Canonical(a)) == multiset(Canonical(b)) {
      SortedEventsAgree(rt, a, b);
      SamePointwise(sa, sb);
    }
    if SameUpToKeyOrder(Arr(sa), Arr(sb)) {
      SamePointwise(sa, sb);
    }
  }

  lemma SamePointwise(a: seq<Value>, b: seq<Value>)
    requires (forall e | e in a :: WellFormed(e)) && (forall e | e in b :: WellFormed(e))
    ensures SameUpToKeyOrder(Arr(a), Arr(b)) <==> Canonical(a) == Canonical(b)
  {
    if Canonical(a) == Canonical(b) {
      assert |a| == |Canonical(a)| == |b|;
      forall i | 0 <= i < |a| ensures SameUpToKeyOrder(a[i], b[i]) {
        assert Canonical(a)[i] == Canonical(b)[i] && a[i] in a && b[i] in b;
        AlikeSortedIsSame(a[i], b[i]);
      }
    }
    if SameUpToKeyOrder(Arr(a), Arr(b)) {
      forall i | 0 <= i < |a| ensures Canonical(a)[i] == Canonical(b)[i] {
        assert a[i] in a && b[i] in b;
        SameSortsAlike(a[i], b[i]);
      }
    }
  }

  /** The signed text depends neither on the order of the events nor on any key order. */
  lemma SignedTextIgnoresOrder(rt: Runtime, a: Batch, b: Batch)
    requires WellFormedBatch(a) && WellFormedBatch(b) && SameBatch(a, b)
    ensures SignedText(rt, a) == SignedText(rt, b)
  {
    SamePayload(rt, a, b);
    PayloadWellFormed(rt, a);
    PayloadWellFormed(rt, b);
    SameSortsAlike(Payload(rt, a), Payload(rt, b));
  }

  /** No infinite number anywhere in the batch. */
  ghost predicate Finite(b: Batch) {
    Nullify(b.schemaVersion) == b.schemaVersion && forall e | e in b.events :: Nullify(e) == e
  }

  lemma FinitePayload(rt: Runtime, b: Batch)
    requires Finite(b)
    ensures Nullify(Payload(rt, b)) == Payload(rt, b)
  {
    var sorted := StableSort(b.events, Order(rt));
    SameMultisetSameMembers(sorted, b.events);
    assert Nullify(Arr(sorted)).items == sorted;
    assert NullifyFields(Payload(rt, b).fields) == Payload(rt, b).fields;
  }

  /** Without infinite numbers the signed text determines the batch up to event order and key order. */
  lemma SignedTextDeterminesBatch(rt: Runtime, a: Batch, b: Batch)
    requires WellFormedBatch(a) && WellFormedBatch(b) && Finite(a) && Finite(b)
    ensures SignedText(rt, a) == SignedText(rt, b) <==> SameBatch(a, b)
  {
    FinitePayload(rt, a);
    FinitePayload(rt, b);
    SignedTextDeterminesPayload(rt, a, b);
    SamePayload(rt, a, b);
  }

  lemma NullifiedPayloads(a: seq<Field>, b: seq<Field>)
    requires |a| == |b| == 5 && a[..4] == b[..4]
    requires a[4] == Field("events", Arr([NonFinite])) && b[4] == Field("events", Arr([Null]))
    ensures NullifyFields(a) == NullifyFields(b)
  {
    var fa, fb := NullifyFields(a), NullifyFields(b);
    assert Nullify(Arr([NonFinite])).items == [Null] && Nullify(Arr([Null])).items == [Null];
    forall i | 0 <= i < 4 ensures fa[i] == fb[i] {
      assert a[..4][i] == b[..4][i];
    }
  }

  lemma PayloadOfOneEvent(rt: Runtime, b: Batch, e: Value)
    requires b.events == [e]
    ensures Payload(rt, b).fields[4] == Field("events", Arr([e]))
  {
    assert StableSort([e], Order(rt)) == [e];
  }

  /** In general two batches have one signed text exactly when their payloads are equal up to key order once infinite numbers are null. */
  lemma SignedTextDeterminesPayload(rt: Runtime, a: Batch, b: Batch)
    requires WellFormedBatch(a) && WellFormedBatch(b)
    ensures SignedText(rt, a) == SignedText(rt, b) <==> SameUpToKeyOrder(Nullify(Payload(rt, a)), Nullify(Payload(rt, b)))
  {
    PayloadWellFormed(rt, a);
    PayloadWellFormed(rt, b);
    CanonicalJsonDetermines(Payload(rt, a), Payload(rt, b));
  }

  /** An event that is an overflowing number is signed like null. */
  lemma InfinityIsSignedAsNull(rt: Runtime, header: Batch)
    ensures SignedText(rt, header.(events := [NonFinite])) == SignedText(rt, header.(events := [Null]))
    ensures !SameBatch(header.(events := [NonFinite]), header.(events := [Null]))
  {
    var a, b := header.(events := [NonFinite]), header.(events := [Null]);
    PayloadOfOneEvent(rt, a, NonFinite);
    PayloadOfOneEvent(rt, b, Null);
    NullifiedPayloads(Payload(rt, a).fields, Payload(rt, b).fields);
    CanonicalIsSerialized(Payload(rt, a));
    CanonicalIsSerialized(Payload(rt, b));
    DifferentSingletons(a.events, b.events);
  }

  lemma DifferentSingletons(a: seq<Value>, b: seq<Value>)
    requires a == [NonFinite] && b == [Null]
    ensures multiset(Canonical(a)) != multiset(Canonical(b))
  {
    assert Canonical(a) == [NonFinite] && Canonical(b) == [Null];
    assert multiset([NonFinite])[Null] == 0 && multiset([Null])[Null] == 1;
  }

  // ------------------------------------------------------------ permutations, event by event

  lemma CanonicalWithout(b: seq<Value>, j: nat)
    requires j < |b|
    ensures multiset(Canonical(b[..j] + b[j + 1..])) == multiset(Canonical(b)) - multiset{SortKeysDeep(b[j])}
  {
    RemoveAt(Canonical(b), j);
    assert Canonical(b)[..j] + Canonical(b)[j + 1..] == Canonical(b[..j] + b[j + 1..]);
  }

  lemma {:induction false} PermutationKeepsCanonical(a: seq<Value>, b: seq<Value>)
    requires multiset(a) == multiset(b)
    ensures multiset(Canonical(a)) == multiset(Canonical(b))
  {
    SameMultisetSameMembers(a, b);
    if a != [] {
      assert a[0] in a;
      var j :| 0 <= j < |b| && b[j] == a[0];
      TailMultiset(a);
      RemoveAt(b, j);
      PermutationKeepsCanonical(a[1..], b[..j] + b[j + 1..]);
      CanonicalWithout(b, j);
      CanonicalCons(a);
      TailMultiset(Canonical(a));
      PutBack(multiset(Canonical(a)), multiset(Canonical(b)), SortKeysDeep(a[0]));
    }
  }

  lemma PutBack(a: multiset<Value>, b: multiset<Value>, x: Value)
    requires x in a && x in b && a - multiset{x} == b - multiset{x}
    ensures a == b
  {
    assert a == (a - multiset{x}) + multiset{x};
    assert b == (b - multiset{x}) + multiset{x};
  }

  /** Permute the queue, then reorder keys inside each event: the signed text stays. */
  lemma ReorderingKeepsSignedText(rt: Runtime, a: Batch, permuted: seq<Value>, b: Batch)
    requires WellFormedBatch(a) && WellFormedBatch(b)
    requires multiset(permuted) == multiset(a.events) && |permuted| == |b.events|
    requires forall i | 0 <= i < |permuted| :: SameUpToKeyOrder(permuted[i], b.events[i])
    requires a.schemaVersion == b.schemaVersion
    requires a.environmentId == b.environmentId && a.installationId == b.installationId && a.deviceId == b.deviceId
    ensures SignedText(rt, a) == SignedText(rt, b)
  {
    PermutationKeepsCanonical(permuted, a.events);
    SameMultisetSameMembers(permuted, a.events);
    assert SameUpToKeyOrder(Arr(permuted), Arr(b.events));
    SamePointwise(permuted, b.events);
    SameIsReflexive(a.schemaVersion);
    SignedTextIgnoresOrder(rt, a, b);
  }

  lemma SameIsReflexive(v: Value)
    requires WellFormed(v)
    ensures SameUpToKeyOrder(v, v)
  {
    AlikeSortedIsSame(v, v);
  }
}
