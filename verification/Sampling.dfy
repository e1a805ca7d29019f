/**
 Rejection sampling below a bound. Random bytes are inputs, so uniformity is a count:
 every value below the bound has the same number of byte strings that yield it.
 */
module Sampling {
  import opened Arithmetic

  /** Length of the binary text of a positive number. */
  function BitLength(n: nat): (r: nat)
    requires n > 0
    ensures r > 0
  {
    if n == 1 then 1 else 1 + BitLength(n / 2)
  }

  lemma {:induction false} BitLengthBounds(n: nat)
    requires n > 0
    ensures Pow2(BitLength(n) - 1) <= n < Pow2(BitLength(n))
  {
    if n > 1 { BitLengthBounds(n / 2); }
  }

  function ByteLength(bits: nat): nat {
    var bytes := (bits + 7) / 8;
    if bytes < 1 then 1 else bytes
  }

  /** The fewest bytes, but at least one, that hold so many bits. */
  lemma BytesAreLeast(bits: nat, bytes: nat)
    ensures bytes >= ByteLength(bits) <==> bytes >= 1 && 8 * bytes >= bits
  {
  }

  /** Bytes as a big-endian number. */
  function Value(bytes: seq<Byte>): nat {
    if bytes == [] then 0 else Value(bytes[..|bytes| - 1]) * 256 + bytes[|bytes| - 1]
  }

  lemma ValueOfMore(bytes: seq<Byte>, last: Byte)
    ensures Value(bytes + [last]) == Value(bytes) * 256 + last
  {
    assert (bytes + [last])[..|bytes|] == bytes;
  }

  /** The low `bits` bits of a draw. */
  function Sample(bytes: seq<Byte>, bits: nat): (r: nat)
    ensures r < Pow2(bits)
  {
    Value(bytes) % Pow2(bits)
  }

  method ReadMasked(bytes: seq<Byte>, bits: nat) returns (value: nat)
    ensures value == Sample(bytes, bits)
  {
    value := 0;
    for i := 0 to |bytes|
      invariant value == Value(bytes[..i])
    {
      assert bytes[..i + 1][..i] == bytes[..i];
      value := value * 256 + bytes[i];
    }
    assert bytes[..|bytes|] == bytes;
    value := value % Pow2(bits);
  }

  const ATTEMPTS := 64

  /** The first accepted draw from attempt `i` on; after the last attempt one more draw is folded into range. */
  function Accepted(max: nat, draws: seq<seq<Byte>>, i: nat): nat
    requires max > 0 && |draws| == ATTEMPTS + 1 && i <= ATTEMPTS
    decreases ATTEMPTS - i
  {
    var value := Sample(draws[i], BitLength(max));
    if value < max then value
    else if i == ATTEMPTS then value % max
    else Accepted(max, draws, i + 1)
  }

  /** `randomBigIntBelow`, given the byte strings the generator would return. */
  method RandomBigIntBelow(max: int, draws: seq<seq<Byte>>) returns (r: int)
    requires |draws| == ATTEMPTS + 1
    ensures max <= 0 ==> r == 0
    ensures max > 0 ==> r == Accepted(max, draws, 0) && 0 <= r < max
  {
    if max <= 0 { return 0; }
    var bits := BitLength(max);
    for attempt := 0 to ATTEMPTS
      invariant Accepted(max, draws, 0) == Accepted(max, draws, attempt)
    {
      var value := ReadMasked(draws[attempt], bits);
      if value < max { return value; }
    }
    var value := ReadMasked(draws[ATTEMPTS], bits);
    return if value < max then value else value % max;
  }

  /** What is returned is the first draw below the bound, whenever one of the attempts is. */
  lemma {:induction false} FirstAcceptedWins(max: nat, draws: seq<seq<Byte>>, i: nat, k: nat)
    requires max > 0 && |draws| == ATTEMPTS + 1 && i <= k <= ATTEMPTS
    requires Sample(draws[k], BitLength(max)) < max
    requires forall j | i <= j < k :: Sample(draws[j], BitLength(max)) >= max
    ensures Accepted(max, draws, i) == Sample(draws[k], BitLength(max))
    decreases k - i
  {
    if i < k { FirstAcceptedWins(max, draws, i + 1, k); }
  }

  // ------------------------------------------------------------ byte strings and numbers

  /** The byte string of length `length` that denotes `x`. */
  function BytesFor(x: nat, length: nat): (r: seq<Byte>)
    requires x < Pow2(8 * length)
    ensures |r| == length
  {
    if length == 0 then []
    else
      ByteShift(x, length);
      BytesFor(x / 256, length - 1) + [x % 256]
  }

  lemma ByteShift(x: nat, length: nat)
    requires length > 0 && x < Pow2(8 * length)
    ensures Pow2(8 * length) == 256 * Pow2(8 * (length - 1)) && x / 256 < Pow2(8 * (length - 1))
  {
    PowersOfTwo();
    Pow2Adds(8, 8 * (length - 1));
  }

  lemma {:induction false} ValueOfBytes(x: nat, length: nat)
    requires x < Pow2(8 * length)
    ensures Value(BytesFor(x, length)) == x
  {
    if length > 0 {
      ByteShift(x, length);
      ValueOfBytes(x / 256, length - 1);
      var bytes := BytesFor(x, length);
      assert bytes[..length - 1] == BytesFor(x / 256, length - 1);
    }
  }

  lemma {:induction false} BytesOfValue(bytes: seq<Byte>)
    ensures Value(bytes) < Pow2(8 * |bytes|) && BytesFor(Value(bytes), |bytes|) == bytes
  {
    if bytes != [] {
      var n := |bytes|;
      var front := bytes[..n - 1];
      BytesOfValue(front);
      PowersOfTwo();
      Pow2Adds(8, 8 * (n - 1));
      assert Value(bytes) / 256 == Value(front) && Value(bytes) % 256 == bytes[n - 1];
    }
  }

  // ------------------------------------------------------------ uniformity

  lemma ExtensionBounds(v: nat, bits: nat, length: nat, k: nat)
    requires v < Pow2(bits) && bits <= 8 * length && k < Pow2(8 * length - bits)
    ensures k * Pow2(bits) + v < Pow2(8 * length)
    ensures (k * Pow2(bits) + v) % Pow2(bits) == v && (k * Pow2(bits) + v) / Pow2(bits) == k
  {
    Pow2Adds(8 * length - bits, bits);
    Monotone(k + 1, Pow2(8 * length - bits), Pow2(bits));
    Distributes(k, 1, Pow2(bits));
    DivModUnique(k * Pow2(bits) + v, Pow2(bits), k, v);
  }

  /** The byte strings that yield `v`. */
  function Preimages(v: nat, bits: nat, length: nat): set<seq<Byte>>
    requires v < Pow2(bits) && bits <= 8 * length
  {
    set k | 0 <= k < Pow2(8 * length - bits) :: Preimage(v, bits, length, k)
  }

  function Preimage(v: nat, bits: nat, length: nat, k: nat): (r: seq<Byte>)
    requires v < Pow2(bits) && bits <= 8 * length && k < Pow2(8 * length - bits)
    ensures |r| == length
  {
    ExtensionBounds(v, bits, length, k);
    BytesFor(k * Pow2(bits) + v, length)
  }

  lemma PreimageSamples(v: nat, bits: nat, length: nat, k: nat)
    requires v < Pow2(bits) && bits <= 8 * length && k < Pow2(8 * length - bits)
    ensures Value(Preimage(v, bits, length, k)) == k * Pow2(bits) + v
    ensures Sample(Preimage(v, bits, length, k), bits) == v
  {
    ExtensionBounds(v, bits, length, k);
    ValueOfBytes(k * Pow2(bits) + v, length);
  }

  lemma QuotientFits(x: nat, bits: nat, width: nat)
    requires bits <= width && x < Pow2(width)
    ensures x / Pow2(bits) < Pow2(width - bits)
  {
    var d := Pow2(bits);
    DivMod(x, d);
    Pow2Adds(width - bits, bits);
    if x / d >= Pow2(width - bits) {
      Monotone(Pow2(width - bits), x / d, d);
    }
  }

  lemma PreimageAt(bytes: seq<Byte>, bits: nat, v: nat, k: nat)
    requires bits <= 8 * |bytes| && v < Pow2(bits) && k < Pow2(8 * |bytes| - bits)
    requires Value(bytes) == k * Pow2(bits) + v
    ensures bytes in Preimages(v, bits, |bytes|)
  {
    BytesOfValue(bytes);
    PreimageListed(v, bits, |bytes|, k);
  }

  /** Any number splits into the part above `bits` bits and the rest. */
  lemma Split(x: nat, bits: nat, width: nat) returns (k: nat)
    requires bits <= width && x < Pow2(width)
    ensures k < Pow2(width - bits) && x == k * Pow2(bits) + x % Pow2(bits)
  {
    DivMod(x, Pow2(bits));
    QuotientFits(x, bits, width);
    k := x / Pow2(bits);
  }

  lemma SampleIsPreimage(bytes: seq<Byte>, bits: nat, v: nat)
    requires bits <= 8 * |bytes| && v == Sample(bytes, bits)
    ensures bytes in Preimages(v, bits, |bytes|)
  {
    BytesOfValue(bytes);
    var k := Split(Value(bytes), bits, 8 * |bytes|);
    PreimageAt(bytes, bits, v, k);
  }

  lemma PreimageListed(v: nat, bits: nat, length: nat, k: nat)
    requires v < Pow2(bits) && bits <= 8 * length && k < Pow2(8 * length - bits)
    ensures Preimage(v, bits, length, k) in Preimages(v, bits, length)
  {
  }

  /** A byte string is among the preimages of `v` exactly when it yields `v`. */
  lemma PreimagesAre(v: nat, bits: nat, length: nat, bytes: seq<Byte>)
    requires v < Pow2(bits) && bits <= 8 * length
    ensures bytes in Preimages(v, bits, length) <==> |bytes| == length && Sample(bytes, bits) == v
  {
    if bytes in Preimages(v, bits, length) {
      var k :| 0 <= k < Pow2(8 * length - bits) && bytes == Preimage(v, bits, length, k);
      PreimageSamples(v, bits, length, k);
    }
    if |bytes| == length && Sample(bytes, bits) == v {
      SampleIsPreimage(bytes, bits, v);
    }
  }

  lemma PreimagesDiffer(v: nat, bits: nat, length: nat, k: nat, m: nat)
    requires v < Pow2(bits) && bits <= 8 * length && k < m < Pow2(8 * length - bits)
    ensures Preimage(v, bits, length, k) != Preimage(v, bits, length, m)
  {
    PreimageSamples(v, bits, length, k);
    PreimageSamples(v, bits, length, m);
    ExtensionBounds(v, bits, length, k);
    ExtensionBounds(v, bits, length, m);
  }

  lemma {:induction false} PreimageCount(v: nat, bits: nat, length: nat, n: nat)
    requires v < Pow2(bits) && bits <= 8 * length && n <= Pow2(8 * length - bits)
    ensures |set k | 0 <= k < n :: Preimage(v, bits, length, k)| == n
  {
    if n > 0 {
      PreimageCount(v, bits, length, n - 1);
      var before := set k | 0 <= k < n - 1 :: Preimage(v, bits, length, k);
      var last := Preimage(v, bits, length, n - 1);
      forall k | 0 <= k < n - 1 ensures Preimage(v, bits, length, k) != last {
        PreimagesDiffer(v, bits, length, k, n - 1);
      }
      assert (set k | 0 <= k < n :: Preimage(v, bits, length, k)) == before + {last};
    }
  }

  /**
   One attempt is exactly uniform: of the byte strings of the drawn length, every value
   below the bound is yielded by the same number, `2^(8 * byteLength - bitLength)`, and at
   least half of the masked space is accepted.
   */
  lemma AttemptIsUniform(max: nat, v: nat)
    requires 0 < max && v < max
    ensures
      var bits := BitLength(max);
      var length := ByteLength(bits);
      && bits <= 8 * length && v < Pow2(bits) <= 2 * max
      && |Preimages(v, bits, length)| == Pow2(8 * length - bits)
      && forall bytes: seq<Byte> :: bytes in Preimages(v, bits, length) <==> |bytes| == length && Sample(bytes, bits) == v
  {
    var bits := BitLength(max);
    var length := ByteLength(bits);
    BitLengthBounds(max);
    assert Pow2(bits) == 2 * Pow2(bits - 1);
    PreimageCount(v, bits, length, Pow2(8 * length - bits));
    forall bytes: seq<Byte>
      ensures bytes in Preimages(v, bits, length) <==> |bytes| == length && Sample(bytes, bits) == v
    {
      PreimagesAre(v, bits, length, bytes);
    }
  }

  /** The masked values the final draw folds onto `v`. */
  function Folded(max: nat, v: nat): set<nat>
    requires max > 0
  {
    set x | 0 <= x < Pow2(BitLength(max)) && (if x < max then x else x % max) == v
  }

  /**
   The draw after the last attempt is not uniform in general: values below the excess of
   the masked space over the bound have two sources. It is uniform exactly for powers of two.
   */
  lemma FoldedDrawIsUniformIff(max: nat)
    requires max > 0
    ensures forall v | 0 <= v < max :: |Folded(max, v)| == (if v < Pow2(BitLength(max)) - max then 2 else 1)
    ensures (forall v, w | 0 <= v < max && 0 <= w < max :: |Folded(max, v)| == |Folded(max, w)|)
       <==> max == Pow2(BitLength(max) - 1)
  {
    BitLengthBounds(max);
    var space := Pow2(BitLength(max));
    assert space == 2 * Pow2(BitLength(max) - 1);
    forall v | 0 <= v < max ensures |Folded(max, v)| == (if v < space - max then 2 else 1) {
      FoldedAre(max, v);
    }
    if max != Pow2(BitLength(max) - 1) {
      assert |Folded(max, 0)| == 2 && |Folded(max, max - 1)| == 1;
    }
  }

  lemma FoldedAre(max: nat, v: nat)
    requires 0 <= v < max
    ensures Folded(max, v) == if v < Pow2(BitLength(max)) - max then {v, v + max} else {v}
    ensures |Folded(max, v)| == if v < Pow2(BitLength(max)) - max then 2 else 1
  {
    BitLengthBounds(max);
    assert Pow2(BitLength(max)) == 2 * Pow2(BitLength(max) - 1);
    forall x | max <= x < Pow2(BitLength(max)) ensures x % max == x - max {
      DivModUnique(x, max, 1, x - max);
    }
    if v < Pow2(BitLength(max)) - max {
      assert Folded(max, v) == {v, v + max};
    } else {
      assert Folded(max, v) == {v};
    }
  }
}
