/**
 The stable sort behind every `Array.prototype.sort` call of the models, and the
 two facts about it that the order-independence results rest on: what it returns
 is sorted, and a sorted arrangement is unique as soon as ties are equal.
 */
module Sorting {

  ghost predicate TotalOn<T>(leq: (T, T) -> bool, s: seq<T>) {
    forall x, y | x in s && y in s :: leq(x, y) || leq(y, x)
  }

  ghost predicate TransitiveOn<T>(leq: (T, T) -> bool, s: seq<T>) {
    forall x, y, z | x in s && y in s && z in s && leq(x, y) && leq(y, z) :: leq(x, z)
  }

  /** Elements that tie are the same element. */
  ghost predicate AntisymmetricOn<T>(leq: (T, T) -> bool, s: seq<T>) {
    forall x, y | x in s && y in s && leq(x, y) && leq(y, x) :: x == y
  }

  ghost predicate SortedBy<T>(leq: (T, T) -> bool, s: seq<T>) {
    forall i, j | 0 <= i < j < |s| :: leq(s[i], s[j])
  }

  /** Place `x` before the first element it does not exceed, so that `x`, which came earlier, stays first among ties. */
  function Insert<T>(x: T, s: seq<T>, leq: (T, T) -> bool): (r: seq<T>)
    ensures multiset(r) == multiset([x]) + multiset(s)
    ensures |r| == |s| + 1
  {
    if s == [] || leq(x, s[0]) then [x] + s
    else
      assert s == [s[0]] + s[1..];
      [s[0]] + Insert(x, s[1..], leq)
  }

  function StableSort<T>(s: seq<T>, leq: (T, T) -> bool): (r: seq<T>)
    ensures multiset(r) == multiset(s)
    ensures |r| == |s|
  {
    if s == [] then []
    else
      assert s == [s[0]] + s[1..];
      Insert(s[0], StableSort(s[1..], leq), leq)
  }

  lemma SameMultisetSameMembers<T>(a: seq<T>, b: seq<T>)
    requires multiset(a) == multiset(b)
    ensures |a| == |b|
    ensures forall x | x in a :: x in b
    ensures forall x | x in b :: x in a
  {
    assert |multiset(a)| == |a| && |multiset(b)| == |b|;
    forall x | x in a ensures x in b {
      assert x in multiset(a);
    }
    forall x | x in b ensures x in a {
      assert x in multiset(b);
    }
  }

  lemma {:induction false} InsertSorted<T>(x: T, s: seq<T>, leq: (T, T) -> bool)
    requires TotalOn(leq, [x] + s) && TransitiveOn(leq, [x] + s)
    requires SortedBy(leq, s)
    ensures SortedBy(leq, Insert(x, s, leq))
  {
    if s == [] {
    } else if leq(x, s[0]) {
      forall j | 0 < j < |s| + 1 ensures leq(x, ([x] + s)[j]) {
        if j > 1 { assert leq(s[0], s[j - 1]); }
        assert s[j - 1] in [x] + s && s[0] in [x] + s;
      }
    } else {
      var rest := Insert(x, s[1..], leq);
      assert forall y :: y in [x] + s[1..] ==> y in [x] + s;
      InsertSorted(x, s[1..], leq);
      assert multiset(rest) == multiset([x] + s[1..]);
      SameMultisetSameMembers(rest, [x] + s[1..]);
      forall y | y in rest ensures leq(s[0], y) {
        if y != x {
          assert y in [x] + s[1..];
          assert y in s[1..];
          var k :| 0 <= k < |s[1..]| && s[1..][k] == y;
          assert leq(s[0], s[k + 1]);
        } else {
          assert x in [x] + s && s[0] in [x] + s;
        }
      }
    }
  }

  lemma {:induction false} StableSortSorted<T>(s: seq<T>, leq: (T, T) -> bool)
    requires TotalOn(leq, s) && TransitiveOn(leq, s)
    ensures SortedBy(leq, StableSort(s, leq))
  {
    if s != [] {
      StableSortSorted(s[1..], leq);
      var rest := StableSort(s[1..], leq);
      SameMultisetSameMembers(rest, s[1..]);
      forall y | y in [s[0]] + rest ensures y in s {
        if y != s[0] { assert y in rest && y in s[1..]; }
      }
      InsertSorted(s[0], rest, leq);
    }
  }

  lemma TailMultiset<T>(s: seq<T>)
    requires s != []
    ensures multiset(s[1..]) == multiset(s) - multiset{s[0]}
  {
    assert s == [s[0]] + s[1..];
  }

  lemma RemoveAt<T>(s: seq<T>, j: nat)
    requires j < |s|
    ensures multiset(s[..j] + s[j + 1..]) == multiset(s) - multiset{s[j]}
  {
    assert s == s[..j] + [s[j]] + s[j + 1..];
  }

  /** Sorted arrangements of one multiset begin alike. */
  lemma SameHead<T>(a: seq<T>, b: seq<T>, leq: (T, T) -> bool)
    requires multiset(a) == multiset(b) && a != [] && b != []
    requires SortedBy(leq, a) && SortedBy(leq, b) && AntisymmetricOn(leq, a)
    ensures a[0] == b[0]
  {
    SameMultisetSameMembers(a, b);
    assert a[0] in a && b[0] in b;
    var j :| 0 <= j < |b| && b[j] == a[0];
    var k :| 0 <= k < |a| && a[k] == b[0];
    if j > 0 && k > 0 {
      assert leq(b[0], b[j]) && leq(a[0], a[k]);
    }
  }

  lemma SortedTail<T>(s: seq<T>, leq: (T, T) -> bool)
    requires s != [] && SortedBy(leq, s)
    ensures SortedBy(leq, s[1..])
    ensures AntisymmetricOn(leq, s) ==> AntisymmetricOn(leq, s[1..])
  {
  }

  /** A multiset has at most one sorted arrangement when ties are equal. */
  lemma {:induction false} SortedUnique<T>(a: seq<T>, b: seq<T>, leq: (T, T) -> bool)
    requires multiset(a) == multiset(b)
    requires SortedBy(leq, a) && SortedBy(leq, b)
    requires AntisymmetricOn(leq, a)
    ensures a == b
  {
    SameMultisetSameMembers(a, b);
    if a != [] {
      SameHead(a, b, leq);
      TailMultiset(a);
      TailMultiset(b);
      SortedTail(a, leq);
      SortedTail(b, leq);
      SortedUnique(a[1..], b[1..], leq);
      assert a == [a[0]] + a[1..] && b == [b[0]] + b[1..];
    }
  }

  /** Sorting forgets the order its input arrived in when ties are equal. */
  lemma SortForgetsOrder<T>(a: seq<T>, b: seq<T>, leq: (T, T) -> bool)
    requires multiset(a) == multiset(b)
    requires TotalOn(leq, a) && TransitiveOn(leq, a) && AntisymmetricOn(leq, a)
    ensures StableSort(a, leq) == StableSort(b, leq)
  {
    SameMultisetSameMembers(a, b);
    StableSortSorted(a, leq);
    StableSortSorted(b, leq);
    SameMultisetSameMembers(StableSort(a, leq), a);
    forall x, y | x in StableSort(a, leq) && y in StableSort(a, leq) && leq(x, y) && leq(y, x) ensures x == y {
      assert x in a && y in a;
    }
    SortedUnique(StableSort(a, leq), StableSort(b, leq), leq);
  }

  // ------------------------------------------------------------ element by element

  /** What `f` makes of each element, one after the other. */
  function FlatMap<T, U>(f: T -> seq<U>, s: seq<T>): seq<U> {
    if s == [] then [] else FlatMap(f, s[..|s| - 1]) + f(s[|s| - 1])
  }

  lemma {:induction false} FlatMapConcat<T, U>(f: T -> seq<U>, a: seq<T>, b: seq<T>)
    ensures FlatMap(f, a + b) == FlatMap(f, a) + FlatMap(f, b)
  {
    if b == [] {
      assert a + b == a;
    } else {
      FlatMapConcat(f, a, b[..|b| - 1]);
      assert (a + b)[..|a + b| - 1] == a + b[..|b| - 1];
    }
  }

  lemma FlatMapMore<T, U>(f: T -> seq<U>, s: seq<T>, x: T)
    ensures FlatMap(f, s + [x]) == FlatMap(f, s) + f(x)
  {
    assert (s + [x])[..|s|] == s;
  }

  lemma FlatMapAt<T, U>(f: T -> seq<U>, before: seq<T>, x: T, after: seq<T>)
    ensures multiset(FlatMap(f, before + [x] + after)) == multiset(FlatMap(f, before + after)) + multiset(f(x))
  {
    FlatMapConcat(f, before, after);
    FlatMapConcat(f, before + [x], after);
    FlatMapMore(f, before, x);
  }

  lemma SplitAtMember<T>(s: seq<T>, x: T) returns (before: seq<T>, after: seq<T>)
    requires x in multiset(s)
    ensures s == before + [x] + after
    ensures multiset(before + after) == multiset(s) - multiset{x}
  {
    assert x in s;
    var j :| 0 <= j < |s| && s[j] == x;
    before, after := s[..j], s[j + 1..];
    RemoveAt(s, j);
  }

  /** Rearranging the elements rearranges the results. */
  lemma {:induction false} FlatMapForgetsOrder<T, U>(f: T -> seq<U>, a: seq<T>, b: seq<T>)
    requires multiset(a) == multiset(b)
    ensures multiset(FlatMap(f, a)) == multiset(FlatMap(f, b))
  {
    if a == [] {
      assert |multiset(b)| == 0;
    } else {
      var front, x := a[..|a| - 1], a[|a| - 1];
      assert a == front + [x];
      var before, after := SplitAtMember(b, x);
      FlatMapForgetsOrder(f, front, before + after);
      FlatMapAt(f, before, x, after);
    }
  }

  /** Every result comes from some element, and every element's results are listed. */
  lemma {:induction false} FlatMapMembers<T, U>(f: T -> seq<U>, s: seq<T>, y: U)
    ensures y in FlatMap(f, s) <==> exists x :: x in s && y in f(x)
  {
    if s != [] {
      FlatMapMembers(f, s[..|s| - 1], y);
      assert s == s[..|s| - 1] + [s[|s| - 1]];
    }
  }
}
