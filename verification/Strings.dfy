/** White space and trimming, the order `Array.prototype.sort` and `<` use on strings, and lists of strings without repeats. */
module Strings {
  import opened Sorting

  /** Characters of the class `\s`. */
  predicate IsSpace(c: char) {
    || c == ' ' || 9 <= c as int <= 13 || c as int == 0xA0 || c as int == 0x1680 || 0x2000 <= c as int <= 0x200A
    || c as int == 0x2028 || c as int == 0x2029 || c as int == 0x202F || c as int == 0x205F || c as int == 0x3000
    || c as int == 0xFEFF
  }

  function TrimStart(s: string): string {
    if s != "" && IsSpace(s[0]) then TrimStart(s[1..]) else s
  }

  function TrimEnd(s: string): string {
    if s != "" && IsSpace(s[|s| - 1]) then TrimEnd(s[..|s| - 1]) else s
  }

  function Trim(s: string): string {
    TrimEnd(TrimStart(s))
  }

  lemma NothingToTrim(s: string)
    requires s != "" && !IsSpace(s[0]) && !IsSpace(s[|s| - 1])
    ensures Trim(s) == s
  {
  }

  /** The class `\s`, spelled out. */
  lemma SpacesAre(c: char)
    ensures IsSpace(c) <==>
              || c in " \t\n\r" || c as int in {0x0B, 0x0C, 0xA0, 0x1680, 0x2028, 0x2029, 0x202F, 0x205F, 0x3000, 0xFEFF}
              || c as int in {0x2000, 0x2001, 0x2002, 0x2003, 0x2004, 0x2005, 0x2006, 0x2007, 0x2008, 0x2009, 0x200A}
  {
  }

  predicate StrLeq(a: string, b: string) {
    a == [] || (b != [] && (a[0] < b[0] || (a[0] == b[0] && StrLeq(a[1..], b[1..]))))
  }

  /** `n` characters in, `a` ends or continues with a smaller character than `b`. */
  predicate PartsBelow(a: string, b: string, n: nat) {
    n <= |a| && n <= |b| && a[..n] == b[..n] && (n == |a| || (n < |b| && a[n] < b[n]))
  }

  /** The order of strings: a prefix comes first, otherwise the first difference decides. */
  lemma {:induction false} StrLeqMeans(a: string, b: string)
    ensures StrLeq(a, b) <==> exists n: nat :: PartsBelow(a, b, n)
  {
    if a == [] {
      assert PartsBelow(a, b, 0);
    } else if b != [] && a[0] == b[0] {
      StrLeqMeans(a[1..], b[1..]);
      if n: nat :| PartsBelow(a[1..], b[1..], n) {
        assert a[..n + 1] == [a[0]] + a[1..][..n] && b[..n + 1] == [b[0]] + b[1..][..n];
        assert PartsBelow(a, b, n + 1);
      }
      if n: nat :| PartsBelow(a, b, n) {
        assert n > 0;
        assert a[1..][..n - 1] == a[..n][1..] && b[1..][..n - 1] == b[..n][1..];
        assert PartsBelow(a[1..], b[1..], n - 1);
      }
    } else if b != [] {
      if a[0] < b[0] { assert PartsBelow(a, b, 0); }
      if n: nat :| PartsBelow(a, b, n) { assert n > 0 ==> a[..n][0] == b[..n][0]; }
    }
  }

  lemma {:induction false} StrTotal(a: string, b: string)
    ensures StrLeq(a, b) || StrLeq(b, a)
    ensures StrLeq(a, b) && StrLeq(b, a) ==> a == b
  {
    if a != [] && b != [] && a[0] == b[0] {
      StrTotal(a[1..], b[1..]);
      assert a == [a[0]] + a[1..] && b == [b[0]] + b[1..];
    }
  }

  lemma {:induction false} StrTransitive(a: string, b: string, c: string)
    requires StrLeq(a, b) && StrLeq(b, c)
    ensures StrLeq(a, c)
  {
    if a != [] && b != [] && c != [] && a[0] == b[0] == c[0] {
      StrTransitive(a[1..], b[1..], c[1..]);
    }
  }

  lemma StringOrder(s: seq<string>)
    ensures TotalOn(StrLeq, s) && TransitiveOn(StrLeq, s) && AntisymmetricOn(StrLeq, s)
  {
    forall a, b | a in s && b in s ensures (StrLeq(a, b) || StrLeq(b, a)) && (StrLeq(a, b) && StrLeq(b, a) ==> a == b) {
      StrTotal(a, b);
    }
    forall a, b, c | a in s && b in s && c in s && StrLeq(a, b) && StrLeq(b, c) ensures StrLeq(a, c) {
      StrTransitive(a, b, c);
    }
  }

  ghost predicate NoRepeats(s: seq<string>) {
    forall i, j | 0 <= i < j < |s| :: s[i] != s[j]
  }

  function Members(s: seq<string>): (r: set<string>)
    ensures forall k :: k in r <==> k in s
  {
    set k | k in s
  }

  lemma {:induction false} NoRepeatsCount(s: seq<string>)
    requires NoRepeats(s)
    ensures forall k | k in s :: multiset(s)[k] == 1
    ensures |Members(s)| == |s|
  {
    if s != [] {
      var front, last := s[..|s| - 1], s[|s| - 1];
      assert s == front + [last];
      NoRepeatsCount(front);
      assert last !in front;
      assert Members(s) == Members(front) + {last};
    }
  }

  lemma {:induction false} CountNoRepeats(s: seq<string>)
    requires forall k | k in s :: multiset(s)[k] == 1
    ensures NoRepeats(s)
  {
    forall i, j | 0 <= i < j < |s| ensures s[i] != s[j] {
      assert s == s[..j] + s[j..];
      assert multiset(s)[s[j]] == multiset(s[..j])[s[j]] + multiset(s[j..])[s[j]];
      assert s[j] == s[j..][0] && s[j] in s[j..];
      assert s[i] in s[..j];
    }
  }

  /** Lists without repeats, of one length, one inside the other, are permutations of each other. */
  lemma InclusionIsPermutation(a: seq<string>, b: seq<string>)
    requires NoRepeats(a) && NoRepeats(b) && |a| == |b| && forall k | k in a :: k in b
    ensures multiset(a) == multiset(b)
  {
    NoRepeatsCount(a);
    NoRepeatsCount(b);
    SubsetOfEqualSize(Members(a), Members(b));
    forall k ensures multiset(a)[k] == multiset(b)[k] {
      assert k in Members(a) <==> k in Members(b);
    }
  }

  lemma SubsetOfEqualSize(a: set<string>, b: set<string>)
    requires a <= b && |a| == |b|
    ensures a == b
  {
    assert b == a + (b - a) && |b| == |a| + |b - a|;
  }
}
