/**
 The signed batch envelope. Events are sorted by a comparator whose last resort is the
 stable serializer, keys are sorted at every depth, and the result is printed. The
 signed string is shown to depend on nothing but the batch up to event order and key
 order, and to determine it.
 */
module SignedEnvelope {
  import opened Wrappers
  import opened Sorting
  import opened Json
  import opened Strings

  // ------------------------------------------------------------ equality up to key order

  /** Equal values, except that the fields of any object, at any depth, may be listed in another order. */
  ghost predicate SameUpToKeyOrder(a: Value, b: Value)
    decreases a
  {
    match a
    case Arr(items) =>
      b.Arr? && |items| == |b.items| && forall i | 0 <= i < |items| :: SameUpToKeyOrder(items[i], b.items[i])
    case Obj(fields) =>
      && b.Obj? && |fields| == |b.fields|
      && (forall i | 0 <= i < |fields| ::
           fields[i].key in Keys(b.fields) && SameUpToKeyOrder(fields[i].value, Lookup(b.fields, fields[i].key)))
    case _ => a == b
  }

  // ------------------------------------------------------------ object access

  /** `Object.keys`. */
  function Keys(fields: seq<Field>): seq<string> {
    seq(|fields|, i requires 0 <= i < |fields| => fields[i].key)
  }

  function IndexOf(fields: seq<Field>, key: string): (i: nat)
    requires key in Keys(fields)
    ensures i < |fields| && fields[i].key == key
  {
    if fields[0].key == key then 0
    else
      assert key in Keys(fields[1..]) by {
        var k :| 0 <= k < |fields| && Keys(fields)[k] == key;
        assert Keys(fields[1..])[k - 1] == key;
      }
      IndexOf(fields[1..], key) + 1
  }

  function Lookup(fields: seq<Field>, key: string): Value
    requires key in Keys(fields)
  {
    fields[IndexOf(fields, key)].value
  }

  /** With distinct keys a field is found under its key. */
  lemma LookupFinds(fields: seq<Field>, i: nat)
    requires DistinctKeys(fields) && i < |fields|
    ensures fields[i].key in Keys(fields) && IndexOf(fields, fields[i].key) == i
  {
    assert Keys(fields)[i] == fields[i].key;
    var j := IndexOf(fields, fields[i].key);
    assert fields[j].key == fields[i].key;
  }

  // ------------------------------------------------------------ deep key sorting and serializing

  /** `sortKeysDeep`: rebuild every object by reading its keys in sorted order. */
  function SortKeysDeep(v: Value): Value {
    match v
    case Arr(items) => Arr(seq(|items|, i requires 0 <= i < |items| => SortKeysDeep(items[i])))
    case Obj(fields) =>
      var keys := SortedKeys(fields);
      Obj(seq(|keys|, i requires 0 <= i < |keys| => Field(keys[i], SortKeysDeep(Lookup(fields, keys[i])))))
    case _ => v
  }

  /** The same as the program runs it: a fresh object is filled key by key. */
  method CopyWithSortedKeys(v: Value) returns (r: Value)
    ensures r == SortKeysDeep(v)
    decreases v
  {
    match v {
      case Arr(items) =>
        var copied: seq<Value> := [];
        for i := 0 to |items|
          invariant copied == SortKeysDeep(v).items[..i]
        {
          var item := CopyWithSortedKeys(items[i]);
          copied := copied + [item];
        }
        return Arr(copied);
      case Obj(fields) =>
        var keys := SortedKeys(fields);
        var sorted: seq<Field> := [];
        for i := 0 to |keys|
          invariant sorted == SortKeysDeep(v).fields[..i]
        {
          var value := CopyWithSortedKeys(Lookup(fields, keys[i]));
          sorted := sorted + [Field(keys[i], value)];
        }
        return Obj(sorted);
      case _ => return v;
    }
  }

  /** `Object.keys(obj).sort()`. */
  function SortedKeys(fields: seq<Field>): (keys: seq<string>)
    ensures |keys| == |fields| && forall k | k in keys :: k in Keys(fields)
  {
    var keys := StableSort(Keys(fields), StrLeq);
    SameMultisetSameMembers(keys, Keys(fields));
    keys
  }

  function Join(parts: seq<string>): string {
    if parts == [] then ""
    else if |parts| == 1 then parts[0]
    else parts[0] + "," + Join(parts[1..])
  }

  /** `stableSerialize`. */
  function StableSerialize(v: Value): string {
    match v
    case Null => "null"
    case NonFinite => "number:invalid"
    case Num(text) => text
    case Str(s) => Quote(s)
    case Bool(b) => if b then "true" else "false"
    case Arr(items) => "[" + Join(seq(|items|, i requires 0 <= i < |items| => StableSerialize(items[i]))) + "]"
    case Obj(fields) =>
      var keys := SortedKeys(fields);
      "{" + Join(seq(|keys|, i requires 0 <= i < |keys| =>
        Quote(keys[i]) + ":" + StableSerialize(Lookup(fields, keys[i])))) + "}"
  }

  /** `JSON.stringify` of a parsed value: an infinite number is written as null. */
  function Stringify(v: Value): string {
    match v
    case Null => "null"
    case NonFinite => "null"
    case Num(text) => text
    case Str(s) => Quote(s)
    case Bool(b) => if b then "true" else "false"
    case Arr(items) => "[" + Join(seq(|items|, i requires 0 <= i < |items| => Stringify(items[i]))) + "]"
    case Obj(fields) =>
      "{" + Join(seq(|fields|, i requires 0 <= i < |fields| =>
        Quote(fields[i].key) + ":" + Stringify(fields[i].value))) + "}"
  }

  function CanonicalJson(v: Value): string {
    Stringify(SortKeysDeep(v))
  }

  lemma {:induction false} JoinItems(items: seq<Value>, parts: seq<string>)
    requires |parts| == |items| && forall i | 0 <= i < |items| :: parts[i] == Print(items[i])
    ensures Join(parts) == PrintItems(items)
  {
    if |items| > 1 { JoinItems(items[1..], parts[1..]); }
  }

  lemma {:induction false} JoinFields(fields: seq<Field>, parts: seq<string>)
    requires |parts| == |fields| && forall i | 0 <= i < |fields| :: parts[i] == PrintField(fields[i])
    ensures Join(parts) == PrintFields(fields)
  {
    if |fields| > 1 { JoinFields(fields[1..], parts[1..]); }
  }

  /** The serializer prints the key-sorted value. */
  lemma {:induction false} SerializePrintsSorted(v: Value)
    ensures StableSerialize(v) == Print(SortKeysDeep(v))
  {
    match v {
      case Arr(items) =>
        var sorted := SortKeysDeep(v).items;
        var parts := seq(|items|, i requires 0 <= i < |items| => StableSerialize(items[i]));
        forall i | 0 <= i < |items| ensures parts[i] == Print(sorted[i]) {
          SerializePrintsSorted(items[i]);
        }
        JoinItems(sorted, parts);
      case Obj(fields) =>
        var keys := SortedKeys(fields);
        var sorted := SortKeysDeep(v).fields;
        var parts := seq(|keys|, i requires 0 <= i < |keys| =>
          Quote(keys[i]) + ":" + StableSerialize(Lookup(fields, keys[i])));
        forall i | 0 <= i < |keys| ensures parts[i] == PrintField(sorted[i]) {
          SerializePrintsSorted(Lookup(fields, keys[i]));
        }
        JoinFields(sorted, parts);
      case _ =>
    }
  }

  /** At every depth the keys of an object ascend. */
  ghost predicate KeysAscend(v: Value) {
    match v
    case Arr(items) => forall x | x in items :: KeysAscend(x)
    case Obj(fields) =>
      (forall i, j | 0 <= i < j < |fields| :: StrLeq(fields[i].key, fields[j].key)) && forall f | f in fields :: KeysAscend(f.value)
    case _ => true
  }

  /** Sorting keys makes them ascend and changes nothing else: the texts that are signed are in this one order. */
  lemma {:induction false} SortedKeysAscend(v: Value)
    ensures KeysAscend(SortKeysDeep(v))
  {
    match v {
      case Arr(items) =>
        forall x | x in SortKeysDeep(v).items ensures KeysAscend(x) {
          var i :| 0 <= i < |items| && SortKeysDeep(v).items[i] == x;
          SortedKeysAscend(items[i]);
        }
      case Obj(fields) =>
        var keys := SortedKeys(fields);
        StringOrder(Keys(fields));
        StableSortSorted(Keys(fields), StrLeq);
        forall f | f in SortKeysDeep(v).fields ensures KeysAscend(f.value) {
          var i :| 0 <= i < |keys| && SortKeysDeep(v).fields[i] == f;
          SortedKeysAscend(Lookup(fields, keys[i]));
        }
      case _ =>
    }
  }

  // ------------------------------------------------------------ sorting forgets key order and nothing else

  lemma KeysNoRepeats(fields: seq<Field>)
    requires DistinctKeys(fields)
    ensures NoRepeats(Keys(fields))
  {
    var keys := Keys(fields);
    forall i, j | 0 <= i < j < |keys| ensures keys[i] != keys[j] {
      assert fields[i].key != fields[j].key;
    }
  }

  lemma SortedKeysNoRepeats(fields: seq<Field>)
    requires DistinctKeys(fields)
    ensures NoRepeats(SortedKeys(fields))
  {
    KeysNoRepeats(fields);
    NoRepeatsCount(Keys(fields));
    CountNoRepeats(SortedKeys(fields));
  }

  /** Objects with the same keys list them alike once sorted. */
  lemma SameKeysSortAlike(a: seq<Field>, b: seq<Field>)
    requires DistinctKeys(a) && DistinctKeys(b) && |a| == |b|
    requires forall i | 0 <= i < |a| :: a[i].key in Keys(b)
    ensures SortedKeys(a) == SortedKeys(b)
  {
    KeysNoRepeats(a);
    KeysNoRepeats(b);
    InclusionIsPermutation(Keys(a), Keys(b));
    StringOrder(Keys(a));
    SortForgetsOrder(Keys(a), Keys(b), StrLeq);
  }

  lemma {:induction false} SameSortsAlike(a: Value, b: Value)
    requires WellFormed(a) && WellFormed(b) && SameUpToKeyOrder(a, b)
    ensures SortKeysDeep(a) == SortKeysDeep(b)
    decreases a
  {
    match a {
      case Arr(items) =>
        forall i | 0 <= i < |items| ensures SortKeysDeep(items[i]) == SortKeysDeep(b.items[i]) {
          assert items[i] in items && b.items[i] in b.items;
          SameSortsAlike(items[i], b.items[i]);
        }
      case Obj(fields) =>
        SameKeysSortAlike(fields, b.fields);
        var keys := SortedKeys(fields);
        forall k | k in keys
          ensures k in Keys(b.fields) && SortKeysDeep(Lookup(fields, k)) == SortKeysDeep(Lookup(b.fields, k))
        {
          var i, j := IndexOf(fields, k), IndexOf(b.fields, k);
          assert fields[i] in fields && b.fields[j] in b.fields;
          SameSortsAlike(fields[i].value, b.fields[j].value);
        }
        assert SortKeysDeep(a).fields == SortKeysDeep(b).fields;
      case _ =>
    }
  }

  lemma {:induction false} AlikeSortedIsSame(a: Value, b: Value)
    requires WellFormed(a) && WellFormed(b) && SortKeysDeep(a) == SortKeysDeep(b)
    ensures SameUpToKeyOrder(a, b)
    decreases a
  {
    match a {
      case Arr(items) =>
        forall i | 0 <= i < |items| ensures SameUpToKeyOrder(items[i], b.items[i]) {
          assert items[i] in items && b.items[i] in b.items;
          assert SortKeysDeep(a).items[i] == SortKeysDeep(b).items[i];
          AlikeSortedIsSame(items[i], b.items[i]);
        }
      case Obj(fields) =>
        assert |SortKeysDeep(a).fields| == |SortKeysDeep(b).fields|;
        forall i | 0 <= i < |fields|
          ensures fields[i].key in Keys(b.fields) && SameUpToKeyOrder(fields[i].value, Lookup(b.fields, fields[i].key))
        {
          SortedAt(a, b, i);
          var j := IndexOf(b.fields, fields[i].key);
          assert fields[i] in fields && b.fields[j] in b.fields;
          AlikeSortedIsSame(fields[i].value, b.fields[j].value);
        }
      case _ =>
    }
  }

  /** If two objects sort alike, each key of the first is a key of the second, and the values under it sort alike. */
  lemma SortedAt(a: Value, b: Value, i: nat)
    requires a.Obj? && b.Obj? && DistinctKeys(a.fields) && i < |a.fields| && SortKeysDeep(a) == SortKeysDeep(b)
    ensures a.fields[i].key in Keys(b.fields)
    ensures SortKeysDeep(a.fields[i].value) == SortKeysDeep(Lookup(b.fields, a.fields[i].key))
  {
    var key := a.fields[i].key;
    LookupFinds(a.fields, i);
    var ka, kb := SortedKeys(a.fields), SortedKeys(b.fields);
    SameMultisetSameMembers(ka, Keys(a.fields));
    var p :| 0 <= p < |ka| && ka[p] == key;
    assert SortKeysDeep(a).fields[p] == SortKeysDeep(b).fields[p];
    assert kb[p] == key;
  }

  lemma {:induction false} SortedIsWellFormed(v: Value)
    requires WellFormed(v)
    ensures WellFormed(SortKeysDeep(v))
  {
    match v {
      case Arr(items) =>
        var sorted := SortKeysDeep(v).items;
        forall x | x in sorted ensures WellFormed(x) {
          var i :| 0 <= i < |sorted| && sorted[i] == x;
          assert items[i] in items;
          SortedIsWellFormed(items[i]);
        }
      case Obj(fields) =>
        var sorted := SortKeysDeep(v).fields;
        SortedKeysNoRepeats(fields);
        forall f | f in sorted ensures WellFormed(f.value) {
          var i :| 0 <= i < |sorted| && sorted[i] == f;
          var j := IndexOf(fields, SortedKeys(fields)[i]);
          assert fields[j] in fields;
          SortedIsWellFormed(fields[j].value);
        }
        assert DistinctKeys(sorted);
      case _ =>
    }
  }

  /** The stable serializer is injective exactly up to key order. */
  lemma SerializerInjective(a: Value, b: Value)
    requires WellFormed(a) && WellFormed(b)
    ensures StableSerialize(a) == StableSerialize(b) <==> SameUpToKeyOrder(a, b)
    ensures StableSerialize(a) == StableSerialize(b) <==> SortKeysDeep(a) == SortKeysDeep(b)
  {
    SerializePrintsSorted(a);
    SerializePrintsSorted(b);
    SortedIsWellFormed(a);
    SortedIsWellFormed(b);
    if Print(SortKeysDeep(a)) == Print(SortKeysDeep(b)) {
      PrintInjective(SortKeysDeep(a), SortKeysDeep(b));
    }
    if SortKeysDeep(a) == SortKeysDeep(b) { AlikeSortedIsSame(a, b); }
    if SameUpToKeyOrder(a, b) { SameSortsAlike(a, b); }
  }

  // ------------------------------------------------------------ what the canonical text determines

  /** A value as `JSON.stringify` sees it. */
  function Nullify(v: Value): Value {
    match v
    case NonFinite => Null
    case Arr(items) => Arr(seq(|items|, i requires 0 <= i < |items| => Nullify(items[i])))
    case Obj(fields) => Obj(NullifyFields(fields))
    case _ => v
  }

  function NullifyFields(fields: seq<Field>): (r: seq<Field>)
    ensures |r| == |fields|
  {
    seq(|fields|, i requires 0 <= i < |fields| => Field(fields[i].key, Nullify(fields[i].value)))
  }

  lemma {:induction false} StringifyPrintsNullified(v: Value)
    ensures Stringify(v) == Print(Nullify(v))
  {
    match v {
      case Arr(items) =>
        var parts := seq(|items|, i requires 0 <= i < |items| => Stringify(items[i]));
        forall i | 0 <= i < |items| ensures parts[i] == Print(Nullify(v).items[i]) {
          StringifyPrintsNullified(items[i]);
        }
        JoinItems(Nullify(v).items, parts);
      case Obj(fields) =>
        var parts := seq(|fields|, i requires 0 <= i < |fields| =>
          Quote(fields[i].key) + ":" + Stringify(fields[i].value));
        forall i | 0 <= i < |fields| ensures parts[i] == PrintField(Nullify(v).fields[i]) {
          StringifyPrintsNullified(fields[i].value);
        }
        JoinFields(Nullify(v).fields, parts);
      case _ =>
    }
  }

  lemma {:induction false} NullifyWellFormed(v: Value)
    requires WellFormed(v)
    ensures WellFormed(Nullify(v))
  {
    match v {
      case Arr(items) =>
        forall x | x in Nullify(v).items ensures WellFormed(x) {
          var i :| 0 <= i < |items| && Nullify(v).items[i] == x;
          assert items[i] in items;
          NullifyWellFormed(items[i]);
        }
      case Obj(fields) =>
        var nulled := NullifyFields(fields);
        forall f | f in nulled ensures WellFormed(f.value) {
          var i :| 0 <= i < |nulled| && nulled[i] == f;
          assert fields[i] in fields && f.value == Nullify(fields[i].value);
          NullifyWellFormed(fields[i].value);
        }
        forall i, j | 0 <= i < j < |nulled| ensures nulled[i].key != nulled[j].key {
          assert fields[i].key != fields[j].key;
        }
      case _ =>
    }
  }

  lemma {:induction false} IndexOfNullified(fields: seq<Field>, key: string)
    requires key in Keys(fields)
    ensures key in Keys(NullifyFields(fields)) && IndexOf(NullifyFields(fields), key) == IndexOf(fields, key)
  {
    assert Keys(NullifyFields(fields)) == Keys(fields);
    if fields[0].key != key {
      assert key in Keys(fields[1..]) by {
        var k :| 0 <= k < |fields| && Keys(fields)[k] == key;
        assert Keys(fields[1..])[k - 1] == key;
      }
      IndexOfNullified(fields[1..], key);
      assert NullifyFields(fields)[1..] == NullifyFields(fields[1..]);
    }
  }

  lemma {:induction false} NullifyCommutesWithSorting(v: Value)
    ensures Nullify(SortKeysDeep(v)) == SortKeysDeep(Nullify(v))
  {
    match v {
      case Arr(items) =>
        forall i | 0 <= i < |items| ensures Nullify(SortKeysDeep(items[i])) == SortKeysDeep(Nullify(items[i])) {
          NullifyCommutesWithSorting(items[i]);
        }
        assert Nullify(SortKeysDeep(v)).items == SortKeysDeep(Nullify(v)).items;
      case Obj(fields) =>
        var nulled := NullifyFields(fields);
        assert Keys(nulled) == Keys(fields);
        var keys := SortedKeys(fields);
        forall i | 0 <= i < |keys|
          ensures Nullify(SortKeysDeep(Lookup(fields, keys[i]))) == SortKeysDeep(Lookup(nulled, keys[i]))
        {
          IndexOfNullified(fields, keys[i]);
          NullifyCommutesWithSorting(Lookup(fields, keys[i]));
        }
        assert Nullify(SortKeysDeep(v)).fields == SortKeysDeep(Nullify(v)).fields;
      case _ =>
    }
  }

  /** Canonical texts coincide exactly for values that differ in key order and in nulls standing for infinite numbers. */
  lemma CanonicalJsonDetermines(a: Value, b: Value)
    requires WellFormed(a) && WellFormed(b)
    ensures CanonicalJson(a) == CanonicalJson(b) <==> SameUpToKeyOrder(Nullify(a), Nullify(b))
    ensures CanonicalJson(a) == CanonicalJson(b) <==> SortKeysDeep(Nullify(a)) == SortKeysDeep(Nullify(b))
  {
    CanonicalIsSerialized(a);
    CanonicalIsSerialized(b);
    NullifyWellFormed(a);
    NullifyWellFormed(b);
    SerializerInjective(Nullify(a), Nullify(b));
  }

  /** The API's serializer and the shared canonical text agree on values without infinite numbers. */
  lemma CanonicalIsSerialized(v: Value)
    ensures CanonicalJson(v) == StableSerialize(Nullify(v))
  {
    StringifyPrintsNullified(SortKeysDeep(v));
    NullifyCommutesWithSorting(v);
    SerializePrintsSorted(Nullify(v));
  }
}
