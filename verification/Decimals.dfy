/** Decimal text of numbers: printing, padding and reading back. */
module Decimals {
  import opened Arithmetic

  function Digit(n: nat): char
    requires n < 10
  {
    '0' + n as char
  }

  predicate IsDigits(s: string) {
    forall i | 0 <= i < |s| :: '0' <= s[i] <= '9'
  }

  /** `toString` of a natural number. */
  function Decimal(n: nat): (s: string)
    ensures s != "" && IsDigits(s)
  {
    if n < 10 then [Digit(n)] else Decimal(n / 10) + [Digit(n % 10)]
  }

  function Zeros(n: nat): (r: string)
    ensures |r| == n && forall i | 0 <= i < n :: r[i] == '0'
  {
    seq(n, i => '0')
  }

  function PadStart(s: string, length: nat): (r: string)
    ensures |r| == (if |s| < length then length else |s|)
  {
    if |s| < length then Zeros(length - |s|) + s else s
  }

  function Pow10(n: nat): (r: nat)
    ensures r > 0
  {
    if n == 0 then 1 else 10 * Pow10(n - 1)
  }

  /** The number a string of digits denotes. */
  function ValueOf(s: string): int {
    if s == "" then 0 else 10 * ValueOf(s[..|s| - 1]) + (s[|s| - 1] as int - '0' as int)
  }

  lemma {:induction false} DecimalReads(n: nat)
    ensures ValueOf(Decimal(n)) == n
  {
    if n >= 10 {
      DecimalReads(n / 10);
      assert Decimal(n)[..|Decimal(n)| - 1] == Decimal(n / 10);
    }
  }

  lemma {:induction false} DecimalLength(n: nat, digits: nat)
    requires n < Pow10(digits) && digits > 0
    ensures |Decimal(n)| <= digits
  {
    if n >= 10 { DecimalLength(n / 10, digits - 1); }
  }

  lemma {:induction false} LeadingZeros(zeros: nat, s: string)
    ensures ValueOf(Zeros(zeros) + s) == ValueOf(s)
  {
    var padded := Zeros(zeros) + s;
    if s != "" {
      assert padded[..|padded| - 1] == Zeros(zeros) + s[..|s| - 1];
      LeadingZeros(zeros, s[..|s| - 1]);
    } else if zeros > 0 {
      assert padded[..|padded| - 1] == Zeros(zeros - 1) + s;
      LeadingZeros(zeros - 1, s);
    }
  }

  lemma TenTimes(x: int, y: int, p: int)
    ensures 10 * (x * p + y) == x * (10 * p) + 10 * y
  {
  }

  /** Reading two texts one after the other shifts the first. */
  lemma {:induction false} ValueConcat(a: string, b: string)
    ensures ValueOf(a + b) == ValueOf(a) * Pow10(|b|) + ValueOf(b)
  {
    if b == "" {
      assert a + b == a;
    } else {
      var front := b[..|b| - 1];
      ValueConcat(a, front);
      assert (a + b)[..|a + b| - 1] == a + front;
      TenTimes(ValueOf(a), ValueOf(front), Pow10(|front|));
    }
  }

  lemma {:induction false} ZerosAreZero(n: nat)
    ensures ValueOf(Zeros(n)) == 0
  {
    if n > 0 {
      assert Zeros(n)[..n - 1] == Zeros(n - 1);
      ZerosAreZero(n - 1);
    }
  }
}
