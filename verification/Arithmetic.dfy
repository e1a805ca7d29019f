/** Powers of two and the few facts about division by a product that the codecs and samplers need. */
module Arithmetic {

  type Byte = n: nat | n < 256

  function Pow2(n: nat): (r: nat)
    ensures r > 0
  {
    if n == 0 then 1 else 2 * Pow2(n - 1)
  }

  lemma PowersOfTwo()
    ensures Pow2(0) == 1 && Pow2(1) == 2 && Pow2(2) == 4 && Pow2(3) == 8 && Pow2(4) == 16 && Pow2(5) == 32
    ensures Pow2(8) == 256 && Pow2(32) == 0x1_0000_0000
  {
    assert Pow2(8) == 256;
    assert Pow2(16) == 0x1_0000;
    assert Pow2(24) == 0x100_0000;
  }

  lemma {:induction false} Pow2Adds(a: nat, b: nat)
    ensures Pow2(a + b) == Pow2(a) * Pow2(b)
  {
    if a > 0 {
      Pow2Adds(a - 1, b);
      Associative(2, Pow2(a - 1), Pow2(b));
    }
  }

  lemma Associative(a: int, b: int, c: int)
    ensures a * (b * c) == (a * b) * c
  {
  }

  lemma Distributes(a: int, b: int, c: int)
    ensures (a + b) * c == a * c + b * c
  {
  }

  lemma Monotone(a: int, b: int, c: nat)
    requires a <= b
    ensures a * c <= b * c
  {
    Distributes(a, b - a, c);
    NonNegative(b - a, c);
  }

  lemma NonNegative(a: nat, b: nat)
    ensures a * b >= 0
  {
  }

  /** Quotient and remainder are unique. */
  lemma DivModUnique(x: int, d: nat, q: int, r: int)
    requires d > 0 && x == q * d + r && 0 <= r < d
    ensures x / d == q && x % d == r
  {
    var p := x / d;
    assert x == p * d + x % d;
    if p < q {
      Monotone(p + 1, q, d);
      Distributes(p, 1, d);
    } else if p > q {
      Monotone(q + 1, p, d);
      Distributes(q, 1, d);
    }
  }

  lemma DivMod(x: int, d: nat)
    requires d > 0
    ensures x == (x / d) * d + x % d && 0 <= x % d < d
    ensures x >= 0 ==> x / d >= 0
  {
    if x / d < 0 { Monotone(x / d, -1, d); }
  }

  lemma PositiveProduct(a: nat, b: nat)
    requires a > 0 && b > 0
    ensures a * b > 0
  {
    Monotone(1, a, b);
  }

  /** A digit string `hi lo`, with `lo` below `d`, taken modulo `e * d` keeps `lo` and reduces `hi`. */
  lemma ModOfDigits(hi: nat, lo: nat, d: nat, e: nat)
    requires lo < d && e > 0
    ensures e * d > 0 && (hi * d + lo) % (e * d) == (hi % e) * d + lo
  {
    PositiveProduct(e, d);
    DivMod(hi, e);
    var q, r := hi / e, hi % e;
    Distributes(q * e, r, d);
    Associative(q, e, d);
    Monotone(r, e - 1, d);
    Distributes(e, -1, d);
    NonNegative(r, d);
    DivModUnique(hi * d + lo, e * d, q, r * d + lo);
  }

  /** Reducing modulo a multiple first changes nothing. */
  lemma ModMod(x: nat, d: nat, e: nat)
    requires d > 0 && e > 0
    ensures e * d > 0 && x % (e * d) % d == x % d
  {
    PositiveProduct(e, d);
    DivMod(x, e * d);
    var q, r := x / (e * d), x % (e * d);
    DivMod(r, d);
    Associative(q, e, d);
    Distributes(q * e, r / d, d);
    DivModUnique(x, d, q * e + r / d, r % d);
  }

  /** The two digits of a number's remainder can be read off by shifting. */
  lemma DigitsOfMod(x: nat, hi: nat, lo: nat, d: nat, e: nat)
    requires lo < d && hi < e && e * d > 0
    requires x % (e * d) == hi * d + lo
    ensures x / d % e == hi && x % d == lo
  {
    DivMod(x, e * d);
    var q := x / (e * d);
    Associative(q, e, d);
    Distributes(q * e, hi, d);
    DivModUnique(x, d, q * e + hi, lo);
    DivModUnique(q * e + hi, e, q, hi);
  }
}
