/**
 Time-based one-time passwords: the dynamic truncation of RFC 4226, its decimal text,
 and the window a verifier accepts. The HMAC is an arbitrary function of algorithm, key and message.
 */
module Totp {
  import opened Wrappers
  import opened Arithmetic
  import opened Base32
  import opened Decimals
  import opened Strings
  import Sampling

  /** What the platform supplies: `toUpperCase` and a keyed hash by algorithm name. */
  datatype Platform = Platform(upper: string -> string, hmac: (string, seq<Byte>, seq<Byte>) -> seq<Byte>)

  datatype Options = Options(digits: nat, stepSeconds: nat, algorithm: string)

  // ------------------------------------------------------------ hotp

  /** A byte of the digest; past its end JavaScript reads undefined, which counts as zero. */
  function At(hmac: seq<Byte>, i: nat): Byte {
    if i < |hmac| then hmac[i] else 0
  }

  /** Dynamic truncation: 31 bits of the digest, starting where its last four bits say. */
  function Truncate(hmac: seq<Byte>): (code: nat)
    ensures code < 0x8000_0000
  {
    var offset := if hmac == [] then 0 else hmac[|hmac| - 1] % 16;
    (At(hmac, offset) % 128) * 0x100_0000 + At(hmac, offset + 1) * 0x1_0000 + At(hmac, offset + 2) * 0x100 + At(hmac, offset + 3)
  }

  /**
   Truncation reads four consecutive bytes as a big-endian number and drops its top bit,
   as section 5.3 of RFC 4226 describes it.
   */
  lemma TruncateReadsWindow(hmac: seq<Byte>, offset: nat)
    requires hmac != [] && offset == hmac[|hmac| - 1] % 16 && offset + 4 <= |hmac|
    ensures Truncate(hmac) == Sampling.Sample(hmac[offset..offset + 4], 31)
  {
    var a: nat, b: nat, c: nat, d: nat := hmac[offset], hmac[offset + 1], hmac[offset + 2], hmac[offset + 3];
    assert hmac[offset..offset + 4] == [a, b, c, d];
    FourBytes(a, b, c, d);
    TopBitDrops(a, b * 0x1_0000 + c * 0x100 + d);
  }

  /** Of any digest, however short: bytes it does not have count as zero, and of an empty one all are. */
  lemma TruncateReadsPadded(hmac: seq<Byte>)
    ensures var offset := if hmac == [] then 0 else hmac[|hmac| - 1] % 16;
            var padded := hmac + seq(19, i => 0 as Byte);
            Truncate(hmac) == Sampling.Sample(padded[offset..offset + 4], 31)
  {
    var offset := if hmac == [] then 0 else hmac[|hmac| - 1] % 16;
    var padded := hmac + seq(19, i => 0 as Byte);
    var a: nat, b: nat, c: nat, d: nat := padded[offset], padded[offset + 1], padded[offset + 2], padded[offset + 3];
    assert padded[offset..offset + 4] == [a, b, c, d];
    FourBytes(a, b, c, d);
    TopBitDrops(a, b * 0x1_0000 + c * 0x100 + d);
  }

  lemma FourBytes(a: nat, b: nat, c: nat, d: nat)
    requires a < 256 && b < 256 && c < 256 && d < 256
    ensures Sampling.Value([a, b, c, d]) == a * 0x100_0000 + b * 0x1_0000 + c * 0x100 + d
  {
    Sampling.ValueOfMore([], a);
    Sampling.ValueOfMore([a], b);
    Sampling.ValueOfMore([a, b], c);
    Sampling.ValueOfMore([a, b, c], d);
    assert [] + [a] == [a] && [a] + [b] == [a, b] && [a, b] + [c] == [a, b, c] && [a, b, c] + [d] == [a, b, c, d];
  }

  lemma TopBitDrops(top: nat, low: nat)
    requires top < 256 && low < 0x100_0000
    ensures (top * 0x100_0000 + low) % Pow2(31) == (top % 128) * 0x100_0000 + low
  {
    PowersOfTwo();
    assert Pow2(31) == 0x8000_0000;
  }

  /** `writeBigUInt64BE`. */
  function CounterBytes(counter: nat): (r: seq<Byte>)
    requires counter < TWO_TO_64
    ensures |r| == 8 && Sampling.Value(r) == counter
  {
    SixtyFourBits();
    Sampling.ValueOfBytes(counter, 8);
    Sampling.BytesFor(counter, 8)
  }

  const TWO_TO_64 := 0x1_0000_0000_0000_0000

  lemma SixtyFourBits()
    ensures Pow2(8 * 8) == TWO_TO_64
  {
    PowersOfTwo();
    Pow2Adds(32, 32);
  }

  function Password(code: nat, digits: nat): string {
    PadStart(Decimal(code % Pow10(digits)), digits)
  }

  /** A password has the asked-for number of decimal digits, which spell the code modulo that power of ten. */
  lemma PasswordShape(code: nat, digits: nat)
    requires digits > 0
    ensures IsToken(Password(code, digits), digits)
    ensures ValueOf(Password(code, digits)) == code % Pow10(digits)
  {
    var n := code % Pow10(digits);
    DecimalReads(n);
    DecimalLength(n, digits);
    LeadingZeros(digits - |Decimal(n)|, Decimal(n));
  }

  /** Digits only, and as many as asked for. */
  predicate IsToken(cleaned: string, digits: nat) {
    cleaned != "" && |cleaned| == digits && IsDigits(cleaned)
  }

  function Hotp(p: Platform, secret: string, counter: int, digits: nat, algorithm: string): Result<string> {
    match Decoding(secret, p.upper)
    case Err(e) => Err(e)
    case Ok(key) =>
      if 0 <= counter < TWO_TO_64 then
        Ok(Password(Truncate(p.hmac(algorithm, key, CounterBytes(counter))), digits))
      else Err("counter out of range")
  }

  /** A password is computed exactly when the secret can be read and the counter written; it spells the truncated digest. */
  lemma HotpShape(p: Platform, secret: string, counter: int, digits: nat, algorithm: string)
    requires digits > 0
    ensures Hotp(p, secret, counter, digits, algorithm).Ok? <==> Decoding(secret, p.upper).Ok? && 0 <= counter < TWO_TO_64
    ensures Hotp(p, secret, counter, digits, algorithm).Ok? ==>
      && IsToken(Hotp(p, secret, counter, digits, algorithm).value, digits)
      && ValueOf(Hotp(p, secret, counter, digits, algorithm).value)
         == Truncate(p.hmac(algorithm, Decoding(secret, p.upper).value, CounterBytes(counter))) % Pow10(digits)
  {
    if Decoding(secret, p.upper).Ok? && 0 <= counter < TWO_TO_64 {
      PasswordShape(Truncate(p.hmac(algorithm, Decoding(secret, p.upper).value, CounterBytes(counter))), digits);
    }
  }

  // ------------------------------------------------------------ generating and verifying

  /** The counter of an instant in milliseconds. */
  function CounterAt(at: int, stepSeconds: nat): int
    requires stepSeconds > 0
  {
    at / (1000 * stepSeconds)
  }

  function Generate(p: Platform, secret: string, options: Options, at: int): Result<string>
    requires options.stepSeconds > 0
  {
    Hotp(p, secret, CounterAt(at, options.stepSeconds), options.digits, options.algorithm)
  }

  /** The password of every counter. */
  function Passwords(p: Platform, secret: string, options: Options): int -> Result<string> {
    counter => Hotp(p, secret, counter, options.digits, options.algorithm)
  }

  /** Try the counters in order; the first password that fails to compute or that matches decides. */
  function Scan(passwords: int -> Result<string>, cleaned: string, first: int, last: int): Result<bool>
    decreases last - first
  {
    if first > last then Ok(false)
    else
      match passwords(first)
      case Err(e) => Err(e)
      case Ok(expected) => if expected == cleaned then Ok(true) else Scan(passwords, cleaned, first + 1, last)
  }

  /** A malformed token is refused before anything is computed; otherwise the window around the counter is scanned. */
  function Check(passwords: int -> Result<string>, token: string, digits: nat, counter: int, window: int): Result<bool> {
    var cleaned := WithoutSpaces(token);
    if !IsToken(cleaned, digits) then Ok(false) else Scan(passwords, cleaned, counter - window, counter + window)
  }

  /** `verifyTotp`. */
  function Verification(p: Platform, secret: string, token: string, options: Options, at: int, window: int): Result<bool>
    requires options.stepSeconds > 0
  {
    Check(Passwords(p, secret, options), token, options.digits, CounterAt(at, options.stepSeconds), window)
  }

  /** `verifyTotp` as a loop, for any table of passwords. */
  method Verify(passwords: int -> Result<string>, token: string, digits: nat, counter: int, window: int) returns (r: Result<bool>)
    ensures r == Check(passwords, token, digits, counter, window)
  {
    var cleaned := WithoutSpaces(token);
    if !IsToken(cleaned, digits) { return Ok(false); }
    var i := -window;
    while i <= window
      invariant Scan(passwords, cleaned, counter - window, counter + window) == Scan(passwords, cleaned, counter + i, counter + window)
    {
      var expected := passwords(counter + i);
      if expected.Err? { return Err(expected.error); }
      if expected.value == cleaned { return Ok(true); }
      i := i + 1;
    }
    return Ok(false);
  }

  /** Some counter from `first` to `last` yields the token. */
  ghost predicate Matches(passwords: int -> Result<string>, cleaned: string, first: int, last: int) {
    exists k | first <= k <= last :: passwords(k) == Ok(cleaned)
  }

  /** Over counters that all have a password the scan says whether any of them matches. */
  lemma {:induction false} ScanFinds(passwords: int -> Result<string>, cleaned: string, first: int, last: int)
    requires forall k | first <= k <= last :: passwords(k).Ok?
    ensures Scan(passwords, cleaned, first, last) == Ok(Matches(passwords, cleaned, first, last))
    decreases last - first
  {
    if first <= last && passwords(first) != Ok(cleaned) {
      ScanFinds(passwords, cleaned, first + 1, last);
      assert Matches(passwords, cleaned, first, last) <==> Matches(passwords, cleaned, first + 1, last);
    }
  }

  /** Which counters have a password. */
  lemma PasswordsExist(p: Platform, secret: string, options: Options, counter: int)
    ensures Passwords(p, secret, options)(counter).Ok? <==> Decoding(secret, p.upper).Ok? && 0 <= counter < TWO_TO_64
  {
  }

  lemma CheckMeans(passwords: int -> Result<string>, readable: bool, token: string, digits: nat, counter: int, window: int)
    requires forall k | k <= counter + window :: passwords(k).Ok? <==> readable && 0 <= k
    ensures
      var cleaned, r := WithoutSpaces(token), Check(passwords, token, digits, counter, window);
      var computes := IsToken(cleaned, digits) && window >= 0;
      && (r.Err? <==> computes && (!readable || counter < window))
      && (r.Ok? ==> (r.value <==> computes && Matches(passwords, cleaned, counter - window, counter + window)))
  {
    var cleaned := WithoutSpaces(token);
    if IsToken(cleaned, digits) && window >= 0 {
      assert passwords(counter - window).Ok? <==> readable && counter >= window;
      if readable && counter >= window {
        ScanFinds(passwords, cleaned, counter - window, counter + window);
      }
    }
  }

  /**
   Verification throws exactly when a well-formed token meets an unreadable secret or a
   window that reaches below counter zero; otherwise it tells whether one of the window's
   counters yields the token.
   */
  lemma VerificationMeans(p: Platform, secret: string, token: string, options: Options, counter: int, window: int)
    requires counter + window < TWO_TO_64
    ensures
      var cleaned, passwords := WithoutSpaces(token), Passwords(p, secret, options);
      var r := Check(passwords, token, options.digits, counter, window);
      var computes := IsToken(cleaned, options.digits) && window >= 0;
      && (r.Err? <==> computes && (Decoding(secret, p.upper).Err? || counter < window))
      && (r.Ok? ==> (r.value <==> computes && Matches(passwords, cleaned, counter - window, counter + window)))
  {
    forall k | k <= counter + window
      ensures Passwords(p, secret, options)(k).Ok? <==> Decoding(secret, p.upper).Ok? && 0 <= k
    {
      PasswordsExist(p, secret, options, k);
    }
    CheckMeans(Passwords(p, secret, options), Decoding(secret, p.upper).Ok?, token, options.digits, counter, window);
  }

  lemma {:induction false} DigitsHaveNoSpaces(s: string)
    requires IsDigits(s)
    ensures WithoutSpaces(s) == s
  {
    if s != "" {
      assert !IsSpace(s[0]);
      DigitsHaveNoSpaces(s[1..]);
      assert s == [s[0]] + s[1..];
    }
  }

  /** Instants at most `window` steps apart have counters at most `window` apart. */
  lemma CountersStayClose(a: int, b: int, step: nat, window: nat)
    requires step > 0 && a <= b <= a + window * (1000 * step)
    ensures CounterAt(a, step) <= CounterAt(b, step) <= CounterAt(a, step) + window
  {
    var d := 1000 * step;
    DivMod(a, d);
    DivMod(b, d);
    var p, q := a / d, b / d;
    if q < p {
      Monotone(q + 1, p, d);
      Distributes(q, 1, d);
    }
    if q > p + window {
      Monotone(p + window + 1, q, d);
      Distributes(p + window, 1, d);
      Distributes(p, window, d);
    }
  }

  /** The counter of an instant is the number of whole steps since the epoch. */
  lemma CounterMeans(at: int, step: nat, k: int)
    requires step > 0
    ensures CounterAt(at, step) == k <==> k * (1000 * step) <= at < (k + 1) * (1000 * step)
  {
    var d := 1000 * step;
    DivMod(at, d);
    Distributes(k, 1, d);
    if k * d <= at < (k + 1) * d { DivModUnique(at, d, k, at - k * d); }
  }

  /**
   In the step numbered `k` a readable secret generates exactly when `k` fits 64 bits: as many
   digits as asked for, which spell the truncated digest of the eight big-endian bytes of `k`.
   */
  lemma GeneratedSpells(p: Platform, secret: string, options: Options, at: int, k: int)
    requires options.stepSeconds > 0 && options.digits > 0
    requires k * (1000 * options.stepSeconds) <= at < (k + 1) * (1000 * options.stepSeconds)
    ensures Generate(p, secret, options, at).Ok? <==> Decoding(secret, p.upper).Ok? && 0 <= k < TWO_TO_64
    ensures Generate(p, secret, options, at).Ok? ==>
      && IsToken(Generate(p, secret, options, at).value, options.digits)
      && exists message: seq<Byte> :: |message| == 8 && Sampling.Value(message) == k
           && ValueOf(Generate(p, secret, options, at).value)
              == Truncate(p.hmac(options.algorithm, Decoding(secret, p.upper).value, message)) % Pow10(options.digits)
  {
    CounterMeans(at, options.stepSeconds, k);
    HotpShape(p, secret, k, options.digits, options.algorithm);
    if Decoding(secret, p.upper).Ok? && 0 <= k < TWO_TO_64 {
      assert |CounterBytes(k)| == 8 && Sampling.Value(CounterBytes(k)) == k;
    }
  }

  /**
   Verification in the step numbered `k`. It throws exactly when a token of the right shape
   meets an unreadable secret or a window below step zero; otherwise it accepts exactly when
   the token, without its spaces, is what a step at most the window away generates.
   */
  lemma VerificationAt(p: Platform, secret: string, token: string, options: Options, at: int, window: int, k: int)
    requires options.stepSeconds > 0 && k + window < TWO_TO_64
    requires k * (1000 * options.stepSeconds) <= at < (k + 1) * (1000 * options.stepSeconds)
    ensures
      var cleaned, r := WithoutSpaces(token), Verification(p, secret, token, options, at, window);
      var computes := IsToken(cleaned, options.digits) && window >= 0;
      && (r.Err? <==> computes && (Decoding(secret, p.upper).Err? || k < window))
      && (r.Ok? ==> (r.value <==> computes && exists n | k - window <= n <= k + window ::
                                    Hotp(p, secret, n, options.digits, options.algorithm) == Ok(cleaned)))
  {
    CounterMeans(at, options.stepSeconds, k);
    VerificationMeans(p, secret, token, options, k, window);
    var cleaned, passwords := WithoutSpaces(token), Passwords(p, secret, options);
    if n :| k - window <= n <= k + window && Hotp(p, secret, n, options.digits, options.algorithm) == Ok(cleaned) {
      assert passwords(n) == Ok(cleaned);
    }
  }

  /** A token that is the password of a counter inside the window is accepted. */
  lemma AcceptedInWindow(passwords: int -> Result<string>, token: string, digits: nat, counter: int, window: nat, k: int)
    requires IsToken(token, digits) && passwords(k) == Ok(token) && counter - window <= k <= counter + window
    requires forall n | counter - window <= n <= counter + window :: passwords(n).Ok?
    ensures Check(passwords, token, digits, counter, window) == Ok(true)
  {
    DigitsHaveNoSpaces(token);
    ScanFinds(passwords, token, counter - window, counter + window);
  }

  /** A generated password is accepted by any verifier whose clock is off by at most `window` steps either way. */
  lemma GeneratedIsAccepted(p: Platform, secret: string, options: Options, generatedAt: int, verifiedAt: int, window: nat)
    requires options.stepSeconds > 0 && options.digits > 0
    requires Decoding(secret, p.upper).Ok?
    requires generatedAt - window * (1000 * options.stepSeconds) <= verifiedAt <= generatedAt + window * (1000 * options.stepSeconds)
    requires window <= CounterAt(verifiedAt, options.stepSeconds) && CounterAt(verifiedAt, options.stepSeconds) + window < TWO_TO_64
    ensures Generate(p, secret, options, generatedAt).Ok?
    ensures Verification(p, secret, Generate(p, secret, options, generatedAt).value, options, verifiedAt, window) == Ok(true)
  {
    if generatedAt <= verifiedAt {
      CountersStayClose(generatedAt, verifiedAt, options.stepSeconds, window);
    } else {
      CountersStayClose(verifiedAt, generatedAt, options.stepSeconds, window);
    }
    var made, checked := CounterAt(generatedAt, options.stepSeconds), CounterAt(verifiedAt, options.stepSeconds);
    GeneratedInWindow(p, secret, options, made, checked, window);
  }

  lemma GeneratedInWindow(p: Platform, secret: string, options: Options, made: int, checked: int, window: nat)
    requires options.digits > 0 && Decoding(secret, p.upper).Ok?
    requires checked - window <= made <= checked + window && window <= checked && checked + window < TWO_TO_64
    ensures Hotp(p, secret, made, options.digits, options.algorithm).Ok?
    ensures Check(Passwords(p, secret, options), Hotp(p, secret, made, options.digits, options.algorithm).value,
                  options.digits, checked, window) == Ok(true)
  {
    HotpShape(p, secret, made, options.digits, options.algorithm);
    var passwords := Passwords(p, secret, options);
    forall n | checked - window <= n <= checked + window ensures passwords(n).Ok? {
      PasswordsExist(p, secret, options, n);
    }
    AcceptedInWindow(passwords, Hotp(p, secret, made, options.digits, options.algorithm).value, options.digits, checked, window, made);
  }
}
