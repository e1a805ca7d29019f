/**
 Exact money text: major-unit input read as integer minor units, and minor units written
 back as input text. The reader is characterized by the texts it accepts, and it inverts
 the writer.
 */
module Money {
  import opened Wrappers
  import opened Arithmetic
  import opened Decimals
  import opened Strings

  // ------------------------------------------------------------ reading

  /** Length of the longest run of digits a text begins with. */
  function DigitRun(s: string): (n: nat)
    ensures n <= |s| && IsDigits(s[..n]) && (n < |s| ==> !('0' <= s[n] <= '9'))
  {
    if s != "" && '0' <= s[0] <= '9' then
      var n := DigitRun(s[1..]);
      assert s[..n + 1] == [s[0]] + s[1..][..n];
      n + 1
    else 0
  }

  datatype Amount = Amount(negative: bool, whole: string, frac: string)

  /** The groups of `^([+-]?)(\d+)(?:\.(\d*))?$`, if the text matches. */
  function MatchAmount(raw: string): Option<Amount> {
    var signed := raw != "" && (raw[0] == '+' || raw[0] == '-');
    var body := if signed then raw[1..] else raw;
    var n := DigitRun(body);
    var rest := body[n..];
    if n == 0 then None
    else if rest == "" then Some(Amount(signed && raw[0] == '-', body[..n], ""))
    else if rest[0] == '.' && IsDigits(rest[1..]) then Some(Amount(signed && raw[0] == '-', body[..n], rest[1..]))
    else None
  }

  function StripLeadingZeros(s: string): string {
    if |s| > 1 && s[0] == '0' then StripLeadingZeros(s[1..]) else s
  }

  /** `parseMajorToMinor` on text. */
  function ParseMajorToMinor(input: string, exponent: int): Result<int> {
    if exponent < 0 || exponent > 18 then Err("unsupported exponent")
    else
      var raw := Trim(input);
      if raw == "" then Err("empty amount")
      else if exists i | 0 <= i < |raw| :: raw[i] == 'e' || raw[i] == 'E' || raw[i] == ',' then
        Err("exponent notation or commas are not allowed")
      else
        match MatchAmount(raw)
        case None => Err("malformed amount")
        case Some(m) => ReadAmount(m, exponent)
  }

  function ReadAmount(m: Amount, exponent: nat): Result<int> {
    if |m.frac| > exponent then Err("too many decimal places")
    else
      var digits := StripLeadingZeros(m.whole) + (m.frac + Zeros(exponent - |m.frac|));
      var minorAbs := if digits == "" then 0 else ValueOf(digits);
      Ok(if m.negative then -minorAbs else minorAbs)
  }

  /** `parseMinor` on text. */
  function ParseMinor(value: string): Result<int> {
    var trimmed := Trim(value);
    var signed := trimmed != "" && (trimmed[0] == '+' || trimmed[0] == '-');
    var digits := if signed then trimmed[1..] else trimmed;
    if digits == "" || !IsDigits(digits) then Err("invalid minor-unit string")
    else Ok(if signed && trimmed[0] == '-' then -ValueOf(digits) else ValueOf(digits))
  }

  /** An amount as it may be written: an optional sign, digits, and optionally a point with more digits. */
  datatype Written = Written(sign: string, whole: string, point: bool, frac: string)

  function AmountOf(w: Written): Amount {
    Amount(w.sign == "-", w.whole, w.frac)
  }

  predicate WellWritten(w: Written) {
    && (w.sign == "" || w.sign == "+" || w.sign == "-") && w.whole != "" && IsDigits(w.whole) && IsDigits(w.frac)
    && (!w.point ==> w.frac == "")
  }

  /** What follows the whole digits. */
  function Tail(w: Written): string {
    if w.point then "." + w.frac else ""
  }

  function Text(w: Written): string {
    w.sign + w.whole + Tail(w)
  }

  lemma {:induction false} RunOfDigits(s: string, rest: string)
    requires IsDigits(s) && (rest == "" || !('0' <= rest[0] <= '9'))
    ensures DigitRun(s + rest) == |s|
  {
    if s == "" {
      assert s + rest == rest;
    } else {
      RunOfDigits(s[1..], rest);
      assert (s + rest)[1..] == s[1..] + rest;
    }
  }

  /** Every well-written amount matches, with its own groups. */
  lemma WrittenMatches(w: Written)
    requires WellWritten(w)
    ensures MatchAmount(Text(w)) == Some(AmountOf(w))
  {
    var raw, body := Text(w), w.whole + Tail(w);
    SignSplits(w, raw, body);
    BodySplits(w, body);
  }

  lemma SignSplits(w: Written, raw: string, body: string)
    requires WellWritten(w) && raw == Text(w) && body == w.whole + Tail(w)
    ensures raw != "" && (w.sign == "" <==> raw[0] != '+' && raw[0] != '-')
    ensures w.sign != "" ==> raw[0] == w.sign[0] && raw[1..] == body
    ensures w.sign == "" ==> raw == body
  {
    assert raw == w.sign + body;
    assert body[0] == w.whole[0];
  }

  lemma BodySplits(w: Written, body: string)
    requires WellWritten(w) && body == w.whole + Tail(w)
    ensures DigitRun(body) == |w.whole| && body[..|w.whole|] == w.whole && body[|w.whole|..] == Tail(w)
    ensures w.point ==> Tail(w) != "" && Tail(w)[0] == '.' && Tail(w)[1..] == w.frac
  {
    RunOfDigits(w.whole, Tail(w));
  }

  /** Whatever matches is well written. */
  lemma MatchIsWritten(raw: string) returns (w: Written)
    requires MatchAmount(raw).Some?
    ensures WellWritten(w) && Text(w) == raw
    ensures MatchAmount(raw).value == AmountOf(w)
  {
    var signed := raw != "" && (raw[0] == '+' || raw[0] == '-');
    var body := if signed then raw[1..] else raw;
    var n := DigitRun(body);
    var rest := body[n..];
    w := Written(if signed then [raw[0]] else "", body[..n], rest != "", if rest == "" then "" else rest[1..]);
    TextRejoins(raw, w.sign, body, w.whole, rest);
    WrittenMatches(w);
  }

  lemma TextRejoins(raw: string, sign: string, body: string, whole: string, rest: string)
    requires raw == sign + body && body == whole + rest && (rest != "" ==> rest[0] == '.')
    ensures raw == Text(Written(sign, whole, rest != "", if rest == "" then "" else rest[1..]))
  {
    assert rest != "" ==> rest == "." + rest[1..];
    assert sign + (whole + rest) == sign + whole + rest;
  }

  lemma {:induction false} LeadingZerosDrop(s: string)
    ensures ValueOf(StripLeadingZeros(s)) == ValueOf(s)
    ensures s != "" ==> StripLeadingZeros(s) != ""
  {
    if |s| > 1 && s[0] == '0' {
      LeadingZerosDrop(s[1..]);
      assert s == "0" + s[1..];
      ValueConcat("0", s[1..]);
      assert "0"[..0] == "";
    }
  }

  /** What an amount is worth in minor units. */
  function Worth(m: Amount, exponent: nat): int
    requires |m.frac| <= exponent
  {
    var minor := ValueOf(m.whole) * Pow10(exponent) + ValueOf(m.frac) * Pow10(exponent - |m.frac|);
    if m.negative then -minor else minor
  }

  /** Padding and gluing the digits computes the worth. */
  lemma ReadIsExact(m: Amount, exponent: nat)
    requires m.whole != "" && |m.frac| <= exponent
    ensures ReadAmount(m, exponent) == Ok(Worth(m, exponent))
  {
    var padded := m.frac + Zeros(exponent - |m.frac|);
    LeadingZerosDrop(m.whole);
    ZerosAreZero(exponent - |m.frac|);
    ValueConcat(m.frac, Zeros(exponent - |m.frac|));
    ValueConcat(StripLeadingZeros(m.whole), padded);
  }

  predicate IsBlank(s: string) {
    forall i | 0 <= i < |s| :: IsSpace(s[i])
  }

  /** A text that neither begins nor ends with white space survives trimming, whatever blanks surround it. */
  lemma TrimsBlanks(before: string, s: string, after: string)
    requires IsBlank(before) && IsBlank(after) && s != "" && !IsSpace(s[0]) && !IsSpace(s[|s| - 1])
    ensures Trim(before + s + after) == s
  {
    TrimsStart(before, s + after);
    assert before + s + after == before + (s + after);
    TrimsEnd(s, after);
  }

  lemma {:induction false} TrimsStart(before: string, s: string)
    requires IsBlank(before) && s != "" && !IsSpace(s[0])
    ensures TrimStart(before + s) == s
  {
    if before == "" {
      assert before + s == s;
    } else {
      TrimsStart(before[1..], s);
      assert (before + s)[1..] == before[1..] + s;
    }
  }

  lemma {:induction false} TrimsEnd(s: string, after: string)
    requires IsBlank(after) && s != "" && !IsSpace(s[|s| - 1])
    ensures TrimEnd(s + after) == s
  {
    if after == "" {
      assert s + after == s;
    } else {
      TrimsEnd(s, after[..|after| - 1]);
      assert (s + after)[..|s + after| - 1] == s + after[..|after| - 1];
    }
  }

  /** No character of an amount is white space, a comma or an exponent sign. */
  lemma WrittenIsPlain(w: Written)
    requires WellWritten(w)
    ensures forall i | 0 <= i < |Text(w)| ::
              !IsSpace(Text(w)[i]) && Text(w)[i] != 'e' && Text(w)[i] != 'E' && Text(w)[i] != ','
  {
    forall i | 0 <= i < |Text(w)| ensures PlainChar(Text(w)[i]) {
      if i < |w.sign| {
        assert Text(w)[i] == w.sign[i];
      } else if i < |w.sign| + |w.whole| {
        assert Text(w)[i] == w.whole[i - |w.sign|];
      } else if i > |w.sign| + |w.whole| {
        assert Text(w)[i] == w.frac[i - |w.sign| - |w.whole| - 1];
      }
    }
  }

  predicate PlainChar(c: char) {
    '0' <= c <= '9' || c == '.' || c == '+' || c == '-'
  }

  /** Every amount with few enough decimals is accepted, blanks around it ignored, and is worth exactly what it says. */
  lemma WrittenIsParsed(w: Written, before: string, after: string, exponent: nat)
    requires WellWritten(w) && IsBlank(before) && IsBlank(after) && |w.frac| <= exponent <= 18
    ensures ParseMajorToMinor(before + Text(w) + after, exponent) == Ok(Worth(AmountOf(w), exponent))
  {
    WrittenIsPlain(w);
    TrimsBlanks(before, Text(w), after);
    WrittenMatches(w);
    PlainIsRead(before + Text(w) + after, Text(w), AmountOf(w), exponent);
  }

  lemma PlainIsRead(input: string, raw: string, m: Amount, exponent: nat)
    requires exponent <= 18 && raw == Trim(input) && raw != "" && MatchAmount(raw) == Some(m)
    requires forall i | 0 <= i < |raw| :: raw[i] != 'e' && raw[i] != 'E' && raw[i] != ','
    requires m.whole != "" && |m.frac| <= exponent
    ensures ParseMajorToMinor(input, exponent) == Ok(Worth(m, exponent))
  {
    ReadIsExact(m, exponent);
  }

  lemma {:induction false} TrimStartSplits(s: string) returns (before: string)
    ensures IsBlank(before) && s == before + TrimStart(s)
  {
    before := "";
    if s != "" && IsSpace(s[0]) {
      var rest := TrimStartSplits(s[1..]);
      before := [s[0]] + rest;
      assert s == [s[0]] + s[1..];
    }
  }

  lemma {:induction false} TrimEndSplits(s: string) returns (after: string)
    ensures IsBlank(after) && s == TrimEnd(s) + after
  {
    after := "";
    if s != "" && IsSpace(s[|s| - 1]) {
      var rest := TrimEndSplits(s[..|s| - 1]);
      after := rest + [s[|s| - 1]];
      assert s == s[..|s| - 1] + [s[|s| - 1]];
    }
  }

  lemma TrimSplits(s: string) returns (before: string, after: string)
    ensures IsBlank(before) && IsBlank(after) && s == before + Trim(s) + after
  {
    before := TrimStartSplits(s);
    after := TrimEndSplits(TrimStart(s));
    assert before + (Trim(s) + after) == before + Trim(s) + after;
  }

  lemma ParsedMatches(input: string, exponent: int)
    requires ParseMajorToMinor(input, exponent).Ok?
    ensures 0 <= exponent <= 18 && MatchAmount(Trim(input)).Some?
    ensures |MatchAmount(Trim(input)).value.frac| <= exponent
    ensures ParseMajorToMinor(input, exponent) == ReadAmount(MatchAmount(Trim(input)).value, exponent)
  {
  }

  /** Only such amounts are accepted. */
  lemma ParsedIsWritten(input: string, exponent: int) returns (w: Written, before: string, after: string)
    requires ParseMajorToMinor(input, exponent).Ok?
    ensures WellWritten(w) && IsBlank(before) && IsBlank(after) && 0 <= exponent <= 18 && |w.frac| <= exponent
    ensures input == before + Text(w) + after
    ensures ParseMajorToMinor(input, exponent) == Ok(Worth(AmountOf(w), exponent))
  {
    ParsedMatches(input, exponent);
    w := MatchIsWritten(Trim(input));
    before, after := TrimSplits(input);
    ReadIsExact(AmountOf(w), exponent);
  }

  lemma MinorAsWritten(s: string) returns (w: Written)
    requires ParseMinor(s).Ok?
    ensures WellWritten(w) && w.frac == "" && Text(w) == Trim(s) && '.' !in Trim(s)
    ensures ParseMinor(s).value == if w.sign == "-" then -ValueOf(w.whole) else ValueOf(w.whole)
  {
    var raw := Trim(s);
    var signed := raw[0] == '+' || raw[0] == '-';
    w := Written(if signed then [raw[0]] else "", if signed then raw[1..] else raw, false, "");
    assert w.sign + w.whole == raw && w.sign + w.whole + "" == w.sign + w.whole;
  }

  lemma MinorIsPlainMajor(s: string)
    requires ParseMinor(s).Ok?
    ensures ParseMinor(s) == ParseMajorToMinor(s, 0) && '.' !in Trim(s)
  {
    var w := MinorAsWritten(s);
    var before, after := TrimSplits(s);
    WrittenIsParsed(w, before, after, 0);
    ZeroDecimals(AmountOf(w));
  }

  lemma ZeroDecimals(m: Amount)
    requires m.frac == ""
    ensures Worth(m, 0) == if m.negative then -ValueOf(m.whole) else ValueOf(m.whole)
  {
  }

  lemma PointShows(w: Written)
    ensures w.point ==> '.' in Text(w)
  {
    if w.point { assert Text(w)[|w.sign| + |w.whole|] == '.'; }
  }

  lemma PlainMajorIsMinor(s: string)
    requires ParseMajorToMinor(s, 0).Ok? && '.' !in Trim(s)
    ensures ParseMinor(s).Ok?
  {
    var w := MatchIsWritten(Trim(s));
    PointShows(w);
    assert Text(w) == w.sign + w.whole;
    assert w.sign != "" ==> Text(w)[1..] == w.whole;
    assert w.sign == "" ==> Text(w) == w.whole;
  }

  /** The minor-unit parser is the major-unit parser for currencies without decimals, minus the decimal point. */
  lemma MinorParserAgrees(s: string)
    ensures ParseMinor(s).Ok? <==> ParseMajorToMinor(s, 0).Ok? && '.' !in Trim(s)
    ensures ParseMinor(s).Ok? ==> ParseMinor(s) == ParseMajorToMinor(s, 0)
  {
    if ParseMinor(s).Ok? { MinorIsPlainMajor(s); }
    if ParseMajorToMinor(s, 0).Ok? && '.' !in Trim(s) { PlainMajorIsMinor(s); }
  }

  // ------------------------------------------------------------ what is complained about

  lemma BlankIsTrimmed(s: string)
    ensures Trim(s) == "" <==> IsBlank(s)
  {
    var before, after := TrimSplits(s);
    if IsBlank(s) { AllTrimmed(s); }
    assert Trim(s) == "" ==> s == before + after;
  }

  lemma {:induction false} AllTrimmed(s: string)
    requires IsBlank(s)
    ensures TrimStart(s) == ""
  {
    if s != "" { AllTrimmed(s[1..]); }
  }

  lemma TrimmedHas(s: string, c: char)
    requires !IsSpace(c)
    ensures c in Trim(s) <==> c in s
  {
    var before, after := TrimSplits(s);
    assert forall x | x in before :: IsSpace(x);
  }

  predicate Supports(exponent: int) {
    0 <= exponent <= 18
  }

  /** No text is read for an exponent beyond 18; white space alone is no amount; an exponent sign or a comma is named wherever it is. */
  lemma FirstComplaints(input: string, exponent: int)
    ensures var r := ParseMajorToMinor(input, exponent);
            && (r == Err("unsupported exponent") <==> !Supports(exponent))
            && (r == Err("empty amount") <==> Supports(exponent) && IsBlank(input))
            && (r == Err("exponent notation or commas are not allowed") <==>
                  Supports(exponent) && ('e' in input || 'E' in input || ',' in input))
  {
    BlankIsTrimmed(input);
    TrimmedHas(input, 'e');
    TrimmedHas(input, 'E');
    TrimmedHas(input, ',');
    TextsDiffer(ParseMajorToMinor(input, exponent));
  }

  lemma TextsDiffer(r: Result<int>)
    ensures forall s | r == Err(s) :: r.error == s
    ensures |"unsupported exponent"| == 20 && |"empty amount"| == 12 && |"malformed amount"| == 16
    ensures |"too many decimal places"| == 23 && |"exponent notation or commas are not allowed"| == 43
  {
  }

  /** An amount with more decimals than the currency has is refused for that, and every other text as malformed. */
  lemma TooFineIsRefused(w: Written, before: string, after: string, exponent: nat)
    requires WellWritten(w) && IsBlank(before) && IsBlank(after) && exponent <= 18 && |w.frac| > exponent
    ensures ParseMajorToMinor(before + Text(w) + after, exponent) == Err("too many decimal places")
  {
    WrittenIsPlain(w);
    TrimsBlanks(before, Text(w), after);
    WrittenMatches(w);
  }

  lemma OnlyTooFineIsRefused(input: string, exponent: int) returns (w: Written, before: string, after: string)
    requires ParseMajorToMinor(input, exponent) == Err("too many decimal places")
    ensures WellWritten(w) && IsBlank(before) && IsBlank(after) && |w.frac| > exponent && input == before + Text(w) + after
  {
    TextsDiffer(ParseMajorToMinor(input, exponent));
    w := MatchIsWritten(Trim(input));
    before, after := TrimSplits(input);
  }

  lemma OthersAreMalformed(input: string, exponent: int)
    requires ParseMajorToMinor(input, exponent).Err?
    ensures ParseMajorToMinor(input, exponent).error in {
              "unsupported exponent", "empty amount", "exponent notation or commas are not allowed", "too many decimal places",
              "malformed amount"}
  {
  }

  const MAX_SAFE_INTEGER: int := 0x1F_FFFF_FFFF_FFFF

  /** What a response body can hold where minor units are expected; a number is none when it is NaN or infinite. */
  datatype MinorInput = Absent | BigInteger(n: int) | Number(x: Option<real>) | Characters(s: string)

  /** `parseMinor` on all its inputs. */
  function ParseMinorInput(value: MinorInput): Result<int> {
    match value
    case Absent => Ok(0)
    case BigInteger(n) => Ok(n)
    case Number(None) => Err("non-integer minor value")
    case Number(Some(x)) =>
      if x.Floor as real != x then Err("non-integer minor value")
      else if x.Floor < -MAX_SAFE_INTEGER || x.Floor > MAX_SAFE_INTEGER then Err("minor value exceeds safe integer range")
      else Ok(x.Floor)
    case Characters(s) => ParseMinor(s)
  }

  predicate IsWhole(x: real) {
    x == x.Floor as real
  }

  /** Nothing at all is worth nothing, and each kind of input has its own complaint. */
  lemma MinorComplaintsAre(value: MinorInput)
    ensures value.Absent? ==> ParseMinorInput(value) == Ok(0)
    ensures value.Number? ==>
              var r := ParseMinorInput(value);
              && (r == Err("non-integer minor value") <==> value.x.None? || !IsWhole(value.x.value))
              && (r == Err("minor value exceeds safe integer range") <==>
                    && value.x.Some? && IsWhole(value.x.value)
                    && !(-(0x1F_FFFF_FFFF_FFFF as real) <= value.x.value <= 0x1F_FFFF_FFFF_FFFF as real))
    ensures value.Characters? && ParseMinorInput(value).Err? ==> ParseMinorInput(value) == Err("invalid minor-unit string")
  {
    assert |"non-integer minor value"| == 23 && |"minor value exceeds safe integer range"| == 38;
  }

  /** `toString` of an integer, the text the API sends. */
  function IntegerText(n: int): string {
    if n < 0 then "-" + Decimal(-n) else Decimal(n)
  }

  /** Every integer survives as an integer and as its text, and as a number exactly when it is safe; no other number is read. */
  lemma MinorInputIsExact(n: int, x: real)
    ensures ParseMinorInput(BigInteger(n)) == ParseMinorInput(Characters(IntegerText(n))) == Ok(n)
    ensures ParseMinorInput(Number(Some(x))) == Ok(n) <==> x == n as real && -MAX_SAFE_INTEGER <= n <= MAX_SAFE_INTEGER
    ensures ParseMinorInput(Number(Some(x))).Ok? ==> ParseMinorInput(Number(Some(x))).value as real == x
  {
    IntegerTextReads(n);
    NumberIsExact(n, x);
  }

  lemma NumberIsExact(n: int, x: real)
    ensures ParseMinorInput(Number(Some(x))) == Ok(n) <==> x == n as real && -MAX_SAFE_INTEGER <= n <= MAX_SAFE_INTEGER
    ensures ParseMinorInput(Number(Some(x))).Ok? ==> ParseMinorInput(Number(Some(x))).value as real == x
  {
  }

  lemma IntegerTextReads(n: int)
    ensures ParseMinor(IntegerText(n)) == Ok(n)
  {
    if n < 0 {
      DecimalReads(-n);
      DigitsRead("-", Decimal(-n));
    } else {
      DecimalReads(n);
      DigitsRead("", Decimal(n));
      assert "" + Decimal(n) == Decimal(n);
    }
  }

  lemma DigitsRead(sign: string, digits: string)
    requires (sign == "" || sign == "-") && digits != "" && IsDigits(digits)
    ensures ParseMinor(sign + digits) == Ok(if sign == "-" then -ValueOf(digits) else ValueOf(digits))
  {
    NothingToTrim(sign + digits);
    if sign == "" {
      assert sign + digits == digits;
      UnsignedRead(digits);
    } else {
      SignedRead(sign + digits, digits);
    }
  }

  lemma UnsignedRead(digits: string)
    requires digits != "" && IsDigits(digits) && Trim(digits) == digits
    ensures ParseMinor(digits) == Ok(ValueOf(digits))
  {
  }

  lemma SignedRead(text: string, digits: string)
    requires digits != "" && IsDigits(digits) && text == "-" + digits && Trim(text) == text
    ensures ParseMinor(text) == Ok(-ValueOf(digits))
  {
    assert text[1..] == digits;
  }

  // ------------------------------------------------------------ writing

  function TrimZeros(s: string): string {
    if s != "" && s[|s| - 1] == '0' then TrimZeros(s[..|s| - 1]) else s
  }

  /** `minorToMajorInputValue` for a currency of this exponent. */
  function MinorToMajorInputValue(minorUnits: int, exponent: nat): string {
    var absolute := if minorUnits < 0 then -minorUnits else minorUnits;
    DivMod(absolute, Pow10(exponent));
    WriteAmount(minorUnits < 0, absolute / Pow10(exponent), absolute % Pow10(exponent), exponent)
  }

  function FractionText(rest: nat, exponent: nat): string {
    if exponent > 0 then PadStart(Decimal(rest), exponent) else ""
  }

  function WriteAmount(negative: bool, whole: nat, rest: nat, exponent: nat): string {
    var trimmed := TrimZeros(FractionText(rest, exponent));
    var sign := if negative then "-" else "";
    if |trimmed| > 0 then sign + Decimal(whole) + "." + trimmed else sign + Decimal(whole)
  }

  lemma {:induction false} TrimmedFraction(s: string)
    requires IsDigits(s)
    ensures |TrimZeros(s)| <= |s| && IsDigits(TrimZeros(s))
    ensures ValueOf(s) == ValueOf(TrimZeros(s)) * Pow10(|s| - |TrimZeros(s)|)
    ensures TrimZeros(s) != "" ==> TrimZeros(s)[|TrimZeros(s)| - 1] != '0'
  {
    if s != "" && s[|s| - 1] == '0' {
      var front := s[..|s| - 1];
      TrimmedFraction(front);
      TenTimes(ValueOf(TrimZeros(front)), 0, Pow10(|front| - |TrimZeros(front)|));
    }
  }

  /** The fraction digits of an amount spell its remainder. */
  lemma FractionDigits(rest: nat, exponent: nat)
    requires rest < Pow10(exponent)
    ensures |FractionText(rest, exponent)| == exponent && IsDigits(FractionText(rest, exponent))
    ensures ValueOf(FractionText(rest, exponent)) == rest
  {
    if exponent > 0 {
      DecimalReads(rest);
      DecimalLength(rest, exponent);
      LeadingZeros(exponent - |Decimal(rest)|, Decimal(rest));
    }
  }

  /** What is left of the fraction digits after trimming still spells the remainder. */
  lemma TrimmedDigits(rest: nat, exponent: nat, frac: string)
    requires rest < Pow10(exponent) && frac == TrimZeros(FractionText(rest, exponent))
    ensures |frac| <= exponent && IsDigits(frac) && ValueOf(frac) * Pow10(exponent - |frac|) == rest
    ensures frac != "" ==> frac[|frac| - 1] != '0'
  {
    FractionDigits(rest, exponent);
    TrimmedFraction(FractionText(rest, exponent));
  }

  lemma AmountIsWritten(negative: bool, whole: nat, rest: nat, exponent: nat, n: int) returns (w: Written)
    requires rest < Pow10(exponent) && n == whole * Pow10(exponent) + rest
    ensures WellWritten(w) && |w.frac| <= exponent && WriteAmount(negative, whole, rest, exponent) == Text(w)
    ensures Worth(AmountOf(w), exponent) == if negative then -n else n
    ensures w.sign == (if negative then "-" else "")
    ensures w.point <==> w.frac != ""
    ensures w.frac != "" ==> w.frac[|w.frac| - 1] != '0'
  {
    var frac := TrimZeros(FractionText(rest, exponent));
    TrimmedDigits(rest, exponent, frac);
    DecimalReads(whole);
    var sign := if negative then "-" else "";
    w := Written(sign, Decimal(whole), frac != "", frac);
    PointAssociates(sign + Decimal(whole), frac);
  }

  lemma PointAssociates(head: string, frac: string)
    ensures head + ("." + frac) == head + "." + frac
    ensures head + "" == head
  {
  }

  /** The written form of minor units: no superfluous zero, and worth exactly those units. */
  lemma MinorIsWritten(minorUnits: int, exponent: nat) returns (w: Written)
    ensures WellWritten(w) && |w.frac| <= exponent && MinorToMajorInputValue(minorUnits, exponent) == Text(w)
    ensures Worth(AmountOf(w), exponent) == minorUnits
    ensures w.point <==> w.frac != ""
    ensures w.frac != "" ==> w.frac[|w.frac| - 1] != '0'
    ensures w.sign == (if minorUnits < 0 then "-" else "")
  {
    var absolute := if minorUnits < 0 then -minorUnits else minorUnits;
    var whole, rest := Divide(absolute, Pow10(exponent));
    w := AmountIsWritten(minorUnits < 0, whole, rest, exponent, absolute);
  }

  lemma Divide(n: nat, factor: nat) returns (whole: nat, rest: nat)
    requires factor > 0
    ensures whole == n / factor && rest == n % factor && rest < factor && whole * factor + rest == n
  {
    DivMod(n, factor);
    whole, rest := n / factor, n % factor;
  }

  /** Reading inverts writing for every integer and every exponent from 0 to 18. */
  lemma ParseInvertsPrint(minorUnits: int, exponent: nat)
    requires exponent <= 18
    ensures ParseMajorToMinor(MinorToMajorInputValue(minorUnits, exponent), exponent) == Ok(minorUnits)
  {
    var w := MinorIsWritten(minorUnits, exponent);
    WrittenIsParsed(w, "", "", exponent);
    assert "" + Text(w) + "" == Text(w);
  }
}
