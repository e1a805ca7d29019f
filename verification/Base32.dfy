/**
 Unpadded base32 as the secret codec writes it: bits are shifted into a 32-bit
 accumulator that wraps, and leave it in groups of five (or eight). Both loops are
 proved to regroup the bit string, as section 6 of RFC 4648 describes the encoding,
 and decoding is proved to invert encoding.
 */
module Base32 {
  import opened Wrappers
  import opened Arithmetic
  import opened Strings

  type Symbol = n: nat | n < 32
  type Bit = n: nat | n < 2
  type Word = n: nat | n < TWO_TO_32

  const TWO_TO_32 := 0x1_0000_0000

  /** The letter at an index of the alphabet. */
  function Letter(symbol: Symbol): char {
    if symbol < 26 then 'A' + symbol as char else '2' + (symbol - 26) as char
  }

  /** The position of a letter in the alphabet, as `indexOf` finds it. */
  function IndexOf(c: char): (r: Option<Symbol>)
    ensures r.Some? ==> Letter(r.value) == c
    ensures r.None? ==> forall symbol: Symbol :: Letter(symbol) != c
  {
    if 'A' <= c <= 'Z' then Some(c as int - 'A' as int)
    else if '2' <= c <= '7' then Some(c as int - '2' as int + 26)
    else None
  }

  lemma Alphabet()
    ensures seq(32, i requires 0 <= i < 32 => Letter(i)) == "ABCDEFGHIJKLMNOPQRSTUVWXYZ234567"
  {
  }

  // ------------------------------------------------------------ 32-bit operators

  /** `value << n` as an unsigned word. */
  function ShiftLeft(value: Word, n: nat): Word {
    value * Pow2(n) % TWO_TO_32
  }

  /** `value >>> n`. */
  function ShiftRight(value: Word, n: nat): nat {
    DivMod(value, Pow2(n));
    value / Pow2(n)
  }

  /** `(value << n) | low`, where `low` has at most `n` bits, on words: the shifted-in zeros make the or an addition. */
  function ShiftIn(value: Word, n: nat, low: nat): Word
    requires low < Pow2(n) && n <= 32
  {
    var shifted := ShiftLeft(value, n);
    ShiftedHasRoom(value, n);
    shifted + low
  }

  /** Shifting drops the top `n` bits and leaves `n` zeros below the others. */
  lemma ShiftedHasRoom(value: Word, n: nat)
    requires n <= 32
    ensures ShiftLeft(value, n) == (value % Pow2(32 - n)) * Pow2(n)
    ensures ShiftLeft(value, n) + Pow2(n) <= TWO_TO_32
  {
    PowersOfTwo();
    Pow2Adds(32 - n, n);
    ModOfDigits(value, 0, Pow2(n), Pow2(32 - n));
    Monotone(value % Pow2(32 - n), Pow2(32 - n) - 1, Pow2(n));
    Distributes(Pow2(32 - n), -1, Pow2(n));
  }

  // ------------------------------------------------------------ bit strings

  /** The number a bit string denotes, most significant bit first. */
  function Number(bits: seq<Bit>): (r: nat)
    ensures r < Pow2(|bits|)
  {
    if bits == [] then 0 else 2 * Number(bits[..|bits| - 1]) + bits[|bits| - 1]
  }

  /** The low `n` bits of a number, most significant first. */
  function BitsOf(x: nat, n: nat): (r: seq<Bit>)
    ensures |r| == n
  {
    if n == 0 then [] else BitsOf(x / 2, n - 1) + [x % 2]
  }

  lemma {:induction false} NumberOfBits(x: nat, n: nat)
    requires x < Pow2(n)
    ensures Number(BitsOf(x, n)) == x
  {
    if n > 0 {
      NumberOfBits(x / 2, n - 1);
      assert BitsOf(x, n)[..n - 1] == BitsOf(x / 2, n - 1);
    }
  }

  lemma {:induction false} BitsOfNumber(bits: seq<Bit>)
    ensures BitsOf(Number(bits), |bits|) == bits
  {
    if bits != [] {
      BitsOfNumber(bits[..|bits| - 1]);
      assert Number(bits) / 2 == Number(bits[..|bits| - 1]);
    }
  }

  lemma DoubleLast(x: nat, y: nat, p: nat)
    ensures 2 * (x * p + y) == x * (2 * p) + 2 * y
  {
  }

  lemma {:induction false} NumberConcat(a: seq<Bit>, b: seq<Bit>)
    ensures Number(a + b) == Number(a) * Pow2(|b|) + Number(b)
  {
    if b == [] {
      assert a + b == a;
    } else {
      var front := b[..|b| - 1];
      NumberConcat(a, front);
      assert (a + b)[..|a + b| - 1] == a + front;
      DoubleLast(Number(a), Number(front), Pow2(|front|));
    }
  }

  /** The bits of a string of `n`-bit groups. */
  function Flatten(groups: seq<nat>, n: nat): (r: seq<Bit>)
    ensures |r| == n * |groups|
  {
    if groups == [] then [] else BitsOf(groups[0], n) + Flatten(groups[1..], n)
  }

  // ------------------------------------------------------------ the encoding as regrouping

  /** Symbols of a bit string: groups of five, the last one filled up with zero bits. */
  function SymbolsOf(bits: seq<Bit>): seq<Symbol> {
    PowersOfTwo();
    if bits == [] then []
    else if |bits| < 5 then [Number(bits + Zeros(5 - |bits|))]
    else [Number(bits[..5])] + SymbolsOf(bits[5..])
  }

  /** Bytes of a bit string: groups of eight, an incomplete group being dropped. */
  function BytesOf(bits: seq<Bit>): seq<Byte> {
    PowersOfTwo();
    if |bits| < 8 then [] else [Number(bits[..8])] + BytesOf(bits[8..])
  }

  function Zeros(n: nat): (r: seq<Bit>)
    ensures |r| == n && forall i | 0 <= i < n :: r[i] == 0
  {
    seq(n, i => 0)
  }

  function Spell(symbols: seq<Symbol>): string {
    seq(|symbols|, i requires 0 <= i < |symbols| => Letter(symbols[i]))
  }

  /** Section 6 of RFC 4648, without padding characters. */
  function Encoding(buffer: seq<Byte>): string {
    Spell(SymbolsOf(Flatten(buffer, 8)))
  }

  lemma {:induction false} SymbolCount(bits: seq<Bit>)
    ensures |SymbolsOf(bits)| == (|bits| + 4) / 5
  {
    if |bits| >= 5 { SymbolCount(bits[5..]); }
  }

  /** The encoding has ceil(8n/5) characters, all from the alphabet. */
  lemma EncodingShape(buffer: seq<Byte>)
    ensures |Encoding(buffer)| == (8 * |buffer| + 4) / 5
    ensures forall c | c in Encoding(buffer) :: IndexOf(c).Some?
  {
    SymbolCount(Flatten(buffer, 8));
  }

  /** Flattening the symbols gives the bits back, followed by fewer than five zeros. */
  lemma {:induction false} SymbolsKeepBits(bits: seq<Bit>)
    ensures Flatten(SymbolsOf(bits), 5) == bits + Zeros((4 * |bits|) % 5)
  {
    if bits == [] {
    } else if |bits| < 5 {
      var full := bits + Zeros(5 - |bits|);
      BitsOfNumber(full);
      PaddingBits(|bits|);
      assert SymbolsOf(bits)[1..] == [];
      assert Flatten(SymbolsOf(bits), 5) == full;
    } else {
      BitsOfNumber(bits[..5]);
      SymbolsKeepBits(bits[5..]);
      PaddingBits(|bits|);
      assert bits == bits[..5] + bits[5..];
      assert SymbolsOf(bits)[1..] == SymbolsOf(bits[5..]);
    }
  }

  lemma PaddingBits(n: nat)
    ensures 0 < n < 5 ==> (4 * n) % 5 == 5 - n
    ensures n >= 5 ==> (4 * (n - 5)) % 5 == (4 * n) % 5
  {
  }

  /** Regrouping the bits of bytes into bytes gives the bytes; an incomplete group behind them is dropped. */
  lemma {:induction false} BytesOfFlattened(buffer: seq<Byte>, tail: seq<Bit>)
    requires |tail| < 8
    ensures BytesOf(Flatten(buffer, 8) + tail) == buffer
  {
    var bits := Flatten(buffer, 8) + tail;
    if buffer != [] {
      PowersOfTwo();
      NumberOfBits(buffer[0], 8);
      assert bits[..8] == BitsOf(buffer[0], 8);
      assert bits[8..] == Flatten(buffer[1..], 8) + tail;
      BytesOfFlattened(buffer[1..], tail);
    }
  }

  // ------------------------------------------------------------ the accumulator

  /** The accumulator's low `|pending|` bits are the pending bits; what is above them is stale. */
  ghost predicate Holds(value: Word, pending: seq<Bit>) {
    Number(pending) == value % Pow2(|pending|)
  }

  /** Shifting a group in appends its bits. */
  lemma ShiftInHolds(value: Word, pending: seq<Bit>, n: nat, group: nat)
    requires Holds(value, pending) && |pending| < 8 && (n == 5 || n == 8) && |pending| + n <= 12 && group < Pow2(n)
    ensures Holds(ShiftIn(value, n, group), pending + BitsOf(group, n))
  {
    NumberOfBits(group, n);
    NumberConcat(pending, BitsOf(group, n));
    ShiftInMod(value, |pending|, n, group);
    assert |pending + BitsOf(group, n)| == |pending| + n;
  }

  lemma ShiftInMod(value: Word, p: nat, n: nat, group: nat)
    requires p + n <= 32 && group < Pow2(n)
    ensures ShiftIn(value, n, group) % Pow2(p + n) == (value % Pow2(p)) * Pow2(n) + group
  {
    ShiftedHasRoom(value, n);
    Pow2Adds(p, n);
    Pow2Adds(32 - n - p, p);
    ModOfDigits(value % Pow2(32 - n), group, Pow2(n), Pow2(p));
    ModMod(value, Pow2(p), Pow2(32 - n - p));
  }

  /** Taking the top `n` pending bits out reads them off the accumulator, which goes on holding the rest. */
  lemma TakeHolds(value: Word, pending: seq<Bit>, n: nat)
    requires Holds(value, pending) && (n == 5 || n == 8) && n <= |pending| <= 12
    ensures ShiftRight(value, |pending| - n) % Pow2(n) == Number(pending[..n])
    ensures Holds(value, pending[n..])
  {
    assert pending == pending[..n] + pending[n..];
    NumberConcat(pending[..n], pending[n..]);
    Pow2Adds(n, |pending| - n);
    DigitsOfMod(value, Number(pending[..n]), Number(pending[n..]), Pow2(|pending| - n), Pow2(n));
  }

  /** Fewer than five bits left over are shifted up against zeros. */
  lemma LeftoverHolds(value: Word, pending: seq<Bit>)
    requires Holds(value, pending) && 0 < |pending| < 5
    ensures ShiftLeft(value, 5 - |pending|) % 32 == Number(pending + Zeros(5 - |pending|))
  {
    var p, n := |pending|, 5 - |pending|;
    ZerosAreZero(n);
    NumberConcat(pending, Zeros(n));
    LeftoverMod(value, p, n);
  }

  lemma LeftoverMod(value: Word, p: nat, n: nat)
    requires p + n == 5
    ensures ShiftLeft(value, n) % 32 == (value % Pow2(p)) * Pow2(n)
  {
    ShiftedHasRoom(value, n);
    ShiftInMod(value, p, n, 0);
    PowersOfTwo();
  }

  lemma {:induction false} ZerosAreZero(n: nat)
    ensures Number(Zeros(n)) == 0
  {
    if n > 0 {
      ZerosAreZero(n - 1);
      assert Zeros(n)[..n - 1] == Zeros(n - 1);
    }
  }

  // ------------------------------------------------------------ the loops

  /** The symbols written so far and the bits still to be written make up the whole text. */
  ghost predicate Encodes(text: string, output: string, bits: seq<Bit>) {
    text == output + Spell(SymbolsOf(bits))
  }

  lemma NextByte(pending: seq<Bit>, buffer: seq<Byte>, i: nat)
    requires i < |buffer|
    ensures pending + Flatten(buffer[i..], 8) == (pending + BitsOf(buffer[i], 8)) + Flatten(buffer[i + 1..], 8)
  {
    assert buffer[i..][1..] == buffer[i + 1..];
  }

  /** Moving one symbol from the pending bits to the output leaves the whole as it was. */
  lemma SymbolOut(text: string, output: string, pending: seq<Bit>, rest: seq<Bit>, symbol: Symbol)
    requires |pending| >= 5 && symbol == Number(pending[..5]) && Encodes(text, output, pending + rest)
    ensures Encodes(text, output + [Letter(symbol)], pending[5..] + rest)
  {
    var all := pending + rest;
    assert all[..5] == pending[..5] && all[5..] == pending[5..] + rest;
    assert Spell(SymbolsOf(all)) == [Letter(symbol)] + Spell(SymbolsOf(all[5..]));
  }

  lemma LastSymbolOut(text: string, output: string, pending: seq<Bit>, symbol: Symbol)
    requires 0 < |pending| < 5 && symbol == Number(pending + Zeros(5 - |pending|)) && Encodes(text, output, pending)
    ensures text == output + [Letter(symbol)]
  {
    assert Spell(SymbolsOf(pending)) == [Letter(symbol)];
  }

  method Encode(buffer: seq<Byte>) returns (output: string)
    ensures output == Encoding(buffer)
  {
    var bits: nat, value: Word := 0, 0;
    output := "";
    ghost var pending: seq<Bit>, rest := [], Flatten(buffer, 8);
    assert pending + rest == rest && buffer[0..] == buffer;
    PowersOfTwo();
    for i := 0 to |buffer|
      invariant bits == |pending| < 5 && Holds(value, pending)
      invariant rest == Flatten(buffer[i..], 8)
      invariant Encodes(Encoding(buffer), output, pending + rest)
    {
      ShiftInHolds(value, pending, 8, buffer[i]);
      NextByte(pending, buffer, i);
      value := ShiftIn(value, 8, buffer[i]);
      pending, rest := pending + BitsOf(buffer[i], 8), Flatten(buffer[i + 1..], 8);
      bits := bits + 8;
      while bits >= 5
        invariant bits == |pending| <= 12 && Holds(value, pending)
        invariant Encodes(Encoding(buffer), output, pending + rest)
      {
        TakeHolds(value, pending, 5);
        var symbol := ShiftRight(value, bits - 5) % 32;
        SymbolOut(Encoding(buffer), output, pending, rest, symbol);
        output := output + [Letter(symbol)];
        pending := pending[5..];
        bits := bits - 5;
      }
    }
    assert rest == [] && pending + rest == pending;
    if bits > 0 {
      LeftoverHolds(value, pending);
      var symbol := ShiftLeft(value, 5 - bits) % 32;
      LastSymbolOut(Encoding(buffer), output, pending, symbol);
      output := output + [Letter(symbol)];
    }
  }

  // ------------------------------------------------------------ decoding

  function WithoutSpaces(s: string): string {
    if s == "" then ""
    else if IsSpace(s[0]) then WithoutSpaces(s[1..])
    else [s[0]] + WithoutSpaces(s[1..])
  }

  function TrimPadding(s: string): string {
    if s != "" && s[|s| - 1] == '=' then TrimPadding(s[..|s| - 1]) else s
  }

  /** Padding is cut from the very end only, before white space goes. `upper` is `toUpperCase`. */
  function Cleaned(input: string, upper: string -> string): string {
    WithoutSpaces(upper(TrimPadding(input)))
  }

  /** Every character is a letter of the alphabet. */
  predicate Valid(s: string) {
    forall c | c in s :: IndexOf(c).Some?
  }

  function Values(s: string): seq<Symbol>
    requires Valid(s)
  {
    seq(|s|, i requires 0 <= i < |s| => IndexOf(s[i]).value)
  }

  /** The character decoding stops at. */
  function FirstInvalid(s: string): (r: Option<char>)
    ensures r.None? <==> Valid(s)
    ensures r.Some? ==> exists k :: 0 <= k < |s| && s[k] == r.value && IndexOf(s[k]).None? && Valid(s[..k])
  {
    if s == "" then None
    else if IndexOf(s[0]).None? then
      assert Valid(s[..0]);
      Some(s[0])
    else
      var r := FirstInvalid(s[1..]);
      assert s == [s[0]] + s[1..];
      assert r.Some? ==> exists k :: 0 <= k < |s| && s[k] == r.value && IndexOf(s[k]).None? && Valid(s[..k]) by {
        if r.Some? {
          var k :| 0 <= k < |s[1..]| && s[1..][k] == r.value && IndexOf(s[1..][k]).None? && Valid(s[1..][..k]);
          assert s[..k + 1] == [s[0]] + s[1..][..k];
          assert s[k + 1] == r.value;
        }
      }
      r
  }

  /** The bytes an input stands for, or the complaint about its first character outside the alphabet. */
  function Decoding(input: string, upper: string -> string): Result<seq<Byte>> {
    var cleaned := Cleaned(input, upper);
    match FirstInvalid(cleaned)
    case Some(c) => Err("Invalid base32 character: " + [c])
    case None => Ok(BytesOf(Flatten(Values(cleaned), 5)))
  }

  lemma {:induction false} FlattenAppend(groups: seq<nat>, group: nat, n: nat)
    ensures Flatten(groups + [group], n) == Flatten(groups, n) + BitsOf(group, n)
  {
    if groups == [] {
      assert (groups + [group])[1..] == [];
    } else {
      FlattenAppend(groups[1..], group, n);
      assert (groups + [group])[1..] == groups[1..] + [group];
    }
  }

  /** The bytes decoded so far and the pending bits are the bits of the symbols read so far. */
  ghost predicate Decodes(symbols: seq<Symbol>, bytes: seq<Byte>, pending: seq<Bit>) {
    Flatten(symbols, 5) == Flatten(bytes, 8) + pending
  }

  lemma ByteOut(symbols: seq<Symbol>, bytes: seq<Byte>, pending: seq<Bit>, byte: Byte)
    requires |pending| >= 8 && byte == Number(pending[..8]) && Decodes(symbols, bytes, pending)
    ensures Decodes(symbols, bytes + [byte], pending[8..])
  {
    FlattenAppend(bytes, byte, 8);
    BitsOfNumber(pending[..8]);
    Regroup(Flatten(bytes, 8), BitsOf(byte, 8), pending);
  }

  lemma Regroup(before: seq<Bit>, group: seq<Bit>, pending: seq<Bit>)
    requires |group| <= |pending| && pending[..|group|] == group
    ensures before + pending == (before + group) + pending[|group|..]
  {
    assert pending == group + pending[|group|..];
  }

  lemma SymbolIn(s: string, i: nat, symbol: Symbol, bytes: seq<Byte>, pending: seq<Bit>)
    requires i < |s| && Valid(s[..i]) && IndexOf(s[i]) == Some(symbol) && Decodes(Values(s[..i]), bytes, pending)
    ensures Valid(s[..i + 1]) && Decodes(Values(s[..i + 1]), bytes, pending + BitsOf(symbol, 5))
  {
    assert s[..i + 1] == s[..i] + [s[i]];
    assert Values(s[..i + 1]) == Values(s[..i]) + [symbol];
    FlattenAppend(Values(s[..i]), symbol, 5);
  }

  lemma {:induction false} FirstInvalidAt(s: string, i: nat)
    requires i < |s| && Valid(s[..i]) && IndexOf(s[i]).None?
    ensures FirstInvalid(s) == Some(s[i])
  {
    if i > 0 {
      assert s[0] in s[..i];
      assert s[1..][..i - 1] == s[1..i];
      forall c | c in s[1..i] ensures IndexOf(c).Some? {
        assert c in s[..i];
      }
      FirstInvalidAt(s[1..], i - 1);
    }
  }

  method Decode(input: string, upper: string -> string) returns (r: Result<seq<Byte>>)
    ensures r == Decoding(input, upper)
  {
    var end := |input|;
    assert input[..end] == input;
    while end > 0 && input[end - 1] == '='
      invariant 0 <= end <= |input|
      invariant TrimPadding(input) == TrimPadding(input[..end])
    {
      assert input[..end][..end - 1] == input[..end - 1];
      end := end - 1;
    }
    assert TrimPadding(input) == input[..end];
    var cleaned := WithoutSpaces(upper(input[..end]));
    var bits: nat, value: Word := 0, 0;
    var bytes: seq<Byte> := [];
    ghost var pending: seq<Bit> := [];
    PowersOfTwo();
    for i := 0 to |cleaned|
      invariant bits == |pending| < 8 && Holds(value, pending)
      invariant Valid(cleaned[..i]) && Decodes(Values(cleaned[..i]), bytes, pending)
    {
      var index := IndexOf(cleaned[i]);
      if index.None? {
        FirstInvalidAt(cleaned, i);
        return Err("Invalid base32 character: " + [cleaned[i]]);
      }
      SymbolIn(cleaned, i, index.value, bytes, pending);
      ShiftInHolds(value, pending, 5, index.value);
      value := ShiftIn(value, 5, index.value);
      pending := pending + BitsOf(index.value, 5);
      bits := bits + 5;
      if bits >= 8 {
        TakeHolds(value, pending, 8);
        var byte := ShiftRight(value, bits - 8) % 256;
        ByteOut(Values(cleaned[..i + 1]), bytes, pending, byte);
        bytes := bytes + [byte];
        pending := pending[8..];
        bits := bits - 8;
      }
    }
    assert cleaned[..|cleaned|] == cleaned;
    BytesOfFlattened(bytes, pending);
    return Ok(bytes);
  }

  /** Decoding fails exactly when a character outside the alphabet is left after cleaning; else every whole byte is kept. */
  lemma DecodingSucceedsIff(input: string, upper: string -> string)
    ensures Decoding(input, upper).Ok? <==> Valid(Cleaned(input, upper))
    ensures Decoding(input, upper).Ok? ==> |Decoding(input, upper).value| == 5 * |Cleaned(input, upper)| / 8
  {
    if Valid(Cleaned(input, upper)) {
      ByteCount(Flatten(Values(Cleaned(input, upper)), 5));
    }
  }

  lemma {:induction false} ByteCount(bits: seq<Bit>)
    ensures |BytesOf(bits)| == |bits| / 8
  {
    if |bits| >= 8 { ByteCount(bits[8..]); }
  }

  // ------------------------------------------------------------ the round trip

  function Padding(n: nat): (r: string)
    ensures |r| == n
  {
    seq(n, i => '=')
  }

  lemma {:induction false} TrimsPadding(s: string, n: nat)
    requires s == "" || s[|s| - 1] != '='
    ensures TrimPadding(s + Padding(n)) == s
  {
    if n == 0 {
      assert s + Padding(0) == s;
    } else {
      var padded := s + Padding(n);
      assert padded[..|padded| - 1] == s + Padding(n - 1);
      TrimsPadding(s, n - 1);
    }
  }

  lemma {:induction false} NoSpacesToDrop(s: string)
    requires Valid(s)
    ensures WithoutSpaces(s) == s
  {
    if s != "" {
      assert IndexOf(s[0]).Some? && s[0] in s;
      NoSpacesToDrop(s[1..]);
      assert s == [s[0]] + s[1..];
    }
  }

  lemma LetterFound(symbol: Symbol)
    ensures IndexOf(Letter(symbol)) == Some(symbol)
  {
  }

  /**
   Decoding inverts encoding on every byte string, with any number of padding characters
   appended. Of `toUpperCase` only this is used: it leaves letters of the alphabet alone.
   */
  lemma DecodeInvertsEncode(buffer: seq<Byte>, padding: nat, upper: string -> string)
    requires forall s :: Valid(s) ==> upper(s) == s
    ensures Decoding(Encoding(buffer) + Padding(padding), upper) == Ok(buffer)
  {
    var bits := Flatten(buffer, 8);
    var symbols, text := SymbolsOf(bits), Encoding(buffer);
    EncodingShape(buffer);
    assert text != "" ==> text[|text| - 1] in text;
    TrimsPadding(text, padding);
    NoSpacesToDrop(text);
    assert Values(text) == symbols by {
      forall i | 0 <= i < |symbols| ensures IndexOf(text[i]) == Some(symbols[i]) {
        LetterFound(symbols[i]);
      }
    }
    SymbolsKeepBits(bits);
    BytesOfFlattened(buffer, Zeros((4 * |bits|) % 5));
  }

  // ------------------------------------------------------------ what cleaning takes away

  /** `s` holds the characters of `t` at these ascending places, and white space everywhere else. */
  ghost predicate SpacedOut(s: string, t: string, places: seq<nat>) {
    && |places| == |t|
    && (forall i | 0 <= i < |t| :: places[i] < |s| && s[places[i]] == t[i] && !IsSpace(t[i]))
    && (forall i, j | 0 <= i < j < |t| :: places[i] < places[j])
    && (forall k: nat | k < |s| :: k in places || IsSpace(s[k]))
  }

  lemma {:induction false} WithoutSpacesAppends(s: string, c: char)
    ensures WithoutSpaces(s + [c]) == WithoutSpaces(s) + (if IsSpace(c) then "" else [c])
  {
    if s == "" {
      assert s + [c] == [c] && [c][1..] == "";
    } else {
      assert (s + [c])[1..] == s[1..] + [c];
      WithoutSpacesAppends(s[1..], c);
    }
  }

  lemma Ascends(places: seq<nat>, i: int, j: int)
    requires forall p, q | 0 <= p < q < |places| :: places[p] < places[q]
    ensures 0 <= i < j < |places| ==> places[i] < places[j]
  {
  }

  lemma LastPlace(s: string, t: string, places: seq<nat>)
    requires SpacedOut(s, t, places) && s != "" && !IsSpace(s[|s| - 1])
    ensures t != "" && t[|t| - 1] == s[|s| - 1] && SpacedOut(s[..|s| - 1], t[..|t| - 1], places[..|t| - 1])
  {
    var i :| 0 <= i < |places| && places[i] == |s| - 1;
    Ascends(places, i, |t| - 1);
    forall k: nat | k < |s| - 1 ensures k in places[..|t| - 1] || IsSpace(s[k]) {
      if k in places {
        var j :| 0 <= j < |places| && places[j] == k;
        assert places[..|t| - 1][j] == k;
      }
    }
  }

  lemma {:induction false} SpacesGo(s: string, t: string, places: seq<nat>)
    requires SpacedOut(s, t, places)
    ensures WithoutSpaces(s) == t
  {
    if s != "" {
      var front, last := s[..|s| - 1], s[|s| - 1];
      WithoutSpacesAppends(front, last);
      assert s == front + [last];
      if IsSpace(last) {
        assert SpacedOut(front, t, places);
        SpacesGo(front, t, places);
      } else {
        LastPlace(s, t, places);
        SpacesGo(front, t[..|t| - 1], places[..|t| - 1]);
        assert t == t[..|t| - 1] + [last];
      }
    }
  }

  /**
   Whoever types the encoding of some bytes gets them back: in any case of letters that `upper` raises, with
   white space anywhere and padding behind it all.
   */
  lemma TypedIsDecoded(body: string, padding: nat, upper: string -> string, buffer: seq<Byte>, places: seq<nat>)
    requires body != "" ==> body[|body| - 1] != '='
    requires SpacedOut(upper(body), Encoding(buffer), places)
    ensures Decoding(body + Padding(padding), upper) == Ok(buffer)
  {
    var text := Encoding(buffer);
    TrimsPadding(body, padding);
    SpacesGo(upper(body), text, places);
    EncodingShape(buffer);
    NoSpacesToDrop(text);
    TrimsText(text);
    DecodeInvertsEncode(buffer, 0, s => s);
    assert text + Padding(0) == text;
  }

  lemma TrimsText(text: string)
    requires Valid(text)
    ensures TrimPadding(text) == text
  {
    assert text != "" ==> text[|text| - 1] in text;
  }

  /** Everything else is foreign, a padding character before white space too, and the first such character is named. */
  lemma ForeignIsNamed(body: string, padding: nat, upper: string -> string, k: nat)
    requires body != "" ==> body[|body| - 1] != '='
    requires k < |upper(body)| && !IsSpace(upper(body)[k]) && IndexOf(upper(body)[k]).None?
    requires forall i | 0 <= i < k :: IsSpace(upper(body)[i]) || IndexOf(upper(body)[i]).Some?
    ensures Decoding(body + Padding(padding), upper) == Err("Invalid base32 character: " + [upper(body)[k]])
  {
    TrimsPadding(body, padding);
    FirstForeign(upper(body), k);
  }

  lemma {:induction false} FirstForeign(s: string, k: nat)
    requires k < |s| && !IsSpace(s[k]) && IndexOf(s[k]).None?
    requires forall i | 0 <= i < k :: IsSpace(s[i]) || IndexOf(s[i]).Some?
    ensures FirstInvalid(WithoutSpaces(s)) == Some(s[k])
  {
    if k > 0 {
      FirstForeign(s[1..], k - 1);
      assert !IsSpace(s[0]) ==> WithoutSpaces(s)[1..] == WithoutSpaces(s[1..]);
    }
  }
}
