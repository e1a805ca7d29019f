/**
 JSON values as the signing code sees them: the stable serializer, deep key sorting and
 `JSON.stringify`. The main result is that the serializer is injective up to key order,
 proved by reading its output back from the left.
 */
module Json {
  import opened Wrappers
  import opened Strings

  datatype Field = Field(key: string, value: Value)

  /**
   A parsed value. A finite number is identified with the text `String` prints for it;
   a literal that overflows to infinity is `NonFinite`.
   */
  datatype Value =
    | Null
    | Bool(b: bool)
    | Num(text: string)
    | NonFinite
    | Str(s: string)
    | Arr(items: seq<Value>)
    | Obj(fields: seq<Field>)

  predicate IsNumberChar(c: char) {
    '0' <= c <= '9' || c == '-' || c == '+' || c == '.' || c == 'e'
  }

  predicate IsNumberText(s: string) {
    s != "" && ('0' <= s[0] <= '9' || s[0] == '-') && forall c | c in s :: IsNumberChar(c)
  }

  ghost predicate DistinctKeys(fields: seq<Field>) {
    forall i, j | 0 <= i < j < |fields| :: fields[i].key != fields[j].key
  }

  /** Number texts are texts of numbers, and no object has a key twice. */
  ghost predicate WellFormed(v: Value) {
    match v
    case Num(text) => IsNumberText(text)
    case Arr(items) => forall x | x in items :: WellFormed(x)
    case Obj(fields) => DistinctKeys(fields) && forall f | f in fields :: WellFormed(f.value)
    case _ => true
  }

  // ------------------------------------------------------------ quoting

  function HexDigit(n: nat): char
    requires n < 16
  {
    "0123456789abcdef"[n]
  }

  function EscapeChar(c: char): string {
    if c == '\"' then "\\\""
    else if c == '\\' then "\\\\"
    else if c as int == 8 then "\\b"
    else if c as int == 12 then "\\f"
    else if c == '\n' then "\\n"
    else if c == '\r' then "\\r"
    else if c == '\t' then "\\t"
    else if c as int < 32 then ['\\', 'u', '0', '0', HexDigit(c as int / 16), HexDigit(c as int % 16)]
    else [c]
  }

  function Escape(s: string): string {
    if s == "" then "" else EscapeChar(s[0]) + Escape(s[1..])
  }

  /** `JSON.stringify` of a string. */
  function Quote(s: string): string {
    "\"" + Escape(s) + "\""
  }

  lemma HexInjective(a: nat, b: nat)
    requires a < 16 && b < 16 && HexDigit(a) == HexDigit(b)
    ensures a == b
  {
  }

  /** The escapes form a prefix code, and none begins with the closing quote. */
  lemma EscapeCharPrefix(c: char, d: char, u: string, w: string)
    requires EscapeChar(c) + u == EscapeChar(d) + w
    ensures c == d && u == w
  {
    var x, y := EscapeChar(c) + u, EscapeChar(d) + w;
    assert x[0] == y[0];
    assert EscapeChar(c)[0] == EscapeChar(d)[0];
    if EscapeChar(c)[0] == '\\' {
      assert x[1] == y[1] && EscapeChar(c)[1] == EscapeChar(d)[1];
      if EscapeChar(c)[1] == 'u' {
        assert x[4] == y[4] && x[5] == y[5];
        HexInjective(c as int / 16, d as int / 16);
        HexInjective(c as int % 16, d as int % 16);
        assert c as int == d as int;
      }
    }
    assert |EscapeChar(c)| == |EscapeChar(d)|;
    assert u == x[|EscapeChar(c)|..] && w == y[|EscapeChar(d)|..];
  }

  lemma Associate(a: string, b: string, c: string)
    ensures a + b + c == a + (b + c)
  {
  }

  /** Dropping equal heads of equal length leaves equal tails. */
  lemma SameTail(h: string, u: string, w: string)
    requires h + u == h + w
    ensures u == w
  {
    assert u == (h + u)[|h|..] && w == (h + w)[|h|..];
  }

  predicate StartsWith(x: string, c: char) {
    x != "" && x[0] == c
  }

  /** An escaped string can be read back up to its closing quote. */
  lemma {:induction false} EscapePrefix(s: string, t: string, u: string, w: string)
    requires StartsWith(u, '\"') && StartsWith(w, '\"')
    requires Escape(s) + u == Escape(t) + w
    ensures s == t && u == w
    decreases |s| + |t|
  {
    var x, y := Escape(s) + u, Escape(t) + w;
    assert s != "" ==> x[0] == EscapeChar(s[0])[0];
    assert t != "" ==> y[0] == EscapeChar(t[0])[0];
    if s == "" || t == "" {
      assert s == "" && t == "";
      assert u == x && w == y;
    } else {
      Associate(EscapeChar(s[0]), Escape(s[1..]), u);
      Associate(EscapeChar(t[0]), Escape(t[1..]), w);
      EscapeCharPrefix(s[0], t[0], Escape(s[1..]) + u, Escape(t[1..]) + w);
      EscapePrefix(s[1..], t[1..], u, w);
      assert s == [s[0]] + s[1..] && t == [t[0]] + t[1..];
    }
  }

  lemma QuotePrefix(s: string, t: string, u: string, w: string)
    requires Quote(s) + u == Quote(t) + w
    ensures s == t && u == w
  {
    QuoteOpens(s, u);
    QuoteOpens(t, w);
    SameTail("\"", Escape(s) + ("\"" + u), Escape(t) + ("\"" + w));
    EscapePrefix(s, t, "\"" + u, "\"" + w);
    SameTail("\"", u, w);
  }

  lemma QuoteOpens(s: string, u: string)
    ensures Quote(s) + u == "\"" + (Escape(s) + ("\"" + u))
  {
  }

  // ------------------------------------------------------------ reading strings

  function HexValue(c: char): Option<nat> {
    if '0' <= c <= '9' then Some(c as int - '0' as int)
    else if 'a' <= c <= 'f' then Some(c as int - 'a' as int + 10)
    else if 'A' <= c <= 'F' then Some(c as int - 'A' as int + 10)
    else None
  }

  /** One character of a JSON string and what follows it, as section 7 of RFC 8259 reads it. */
  function ReadChar(x: string): Option<(char, string)> {
    if x == "" || x[0] == '\"' || x[0] as int < 32 then None
    else if x[0] != '\\' then Some((x[0], x[1..]))
    else if |x| < 2 then None
    else if x[1] in "\"\\/" then Some((x[1], x[2..]))
    else if x[1] == 'b' then Some((8 as char, x[2..]))
    else if x[1] == 'f' then Some((12 as char, x[2..]))
    else if x[1] == 'n' then Some((10 as char, x[2..]))
    else if x[1] == 'r' then Some((13 as char, x[2..]))
    else if x[1] == 't' then Some((9 as char, x[2..]))
    else if x[1] == 'u' && |x| >= 6 && x[2] == '0' && x[3] == '0' && HexValue(x[4]).Some? && HexValue(x[5]).Some? then
      Some(((16 * HexValue(x[4]).value + HexValue(x[5]).value) as char, x[6..]))
    else None
  }

  /** The characters up to the closing quote and what follows it. */
  function ReadChars(x: string): Option<(string, string)>
    decreases |x|
  {
    if x != "" && x[0] == '\"' then Some(("", x[1..]))
    else
      match ReadChar(x)
      case None => None
      case Some((c, rest)) =>
        if |rest| >= |x| then None
        else
          match ReadChars(rest)
          case None => None
          case Some((s, after)) => Some(([c] + s, after))
  }

  lemma HexReads(n: nat)
    requires n < 16
    ensures HexValue(HexDigit(n)) == Some(n)
  {
  }

  /** A reader of JSON gets every escaped character back. */
  lemma EscapeIsRead(c: char, u: string)
    ensures ReadChar(EscapeChar(c) + u) == Some((c, u)) && EscapeChar(c)[0] != '\"'
  {
    var x := EscapeChar(c) + u;
    assert x[|EscapeChar(c)|..] == u && x[..|EscapeChar(c)|] == EscapeChar(c);
    assert x[0] == EscapeChar(c)[0];
    if |EscapeChar(c)| > 1 { assert x[1] == EscapeChar(c)[1]; }
    if |EscapeChar(c)| == 6 {
      assert x[2] == '0' && x[3] == '0' && x[4] == HexDigit(c as int / 16) && x[5] == HexDigit(c as int % 16);
      HexReads(c as int / 16);
      HexReads(c as int % 16);
    }
  }

  /** A quoted string is a JSON string, and reading it gives the string back, whatever follows. */
  lemma {:induction false} QuoteIsRead(s: string, u: string)
    ensures StartsWith(Quote(s) + u, '\"') && ReadChars((Quote(s) + u)[1..]) == Some((s, u))
  {
    QuoteOpens(s, u);
    assert (Quote(s) + u)[1..] == Escape(s) + ("\"" + u);
    EscapedIsRead(s, u);
  }

  lemma {:induction false} EscapedIsRead(s: string, u: string)
    ensures ReadChars(Escape(s) + ("\"" + u)) == Some((s, u))
  {
    if s == "" {
      assert Escape(s) + ("\"" + u) == "\"" + u;
    } else {
      var rest := Escape(s[1..]) + ("\"" + u);
      Associate(EscapeChar(s[0]), Escape(s[1..]), "\"" + u);
      EscapeIsRead(s[0], rest);
      EscapedIsRead(s[1..], u);
      assert s == [s[0]] + s[1..];
    }
  }

  /** Every character is escaped as briefly as the grammar allows: itself, a letter, or, for the other controls, small hexadecimal digits. */
  lemma EscapesAreShort(c: char)
    ensures |EscapeChar(c)| == 1 <==> c as int >= 32 && c != '\"' && c != '\\'
    ensures |EscapeChar(c)| == 2 <==> c in {'\"', '\\', 8 as char, 9 as char, 10 as char, 12 as char, 13 as char}
    ensures forall i | 0 <= i < |EscapeChar(c)| :: |EscapeChar(c)| == 6 ==> !('A' <= EscapeChar(c)[i] <= 'F')
  {
  }

  // ------------------------------------------------------------ printing in field order

  /** Print a value with its fields in the order they are stored. */
  function Print(v: Value): string
    decreases v, 1
  {
    match v
    case Null => "null"
    case Bool(b) => if b then "true" else "false"
    case Num(text) => text
    case NonFinite => "number:invalid"
    case Str(s) => Quote(s)
    case Arr(items) => "[" + PrintItems(items) + "]"
    case Obj(fields) => "{" + PrintFields(fields) + "}"
  }

  function PrintItems(items: seq<Value>): string
    decreases items, 0
  {
    if items == [] then ""
    else if |items| == 1 then Print(items[0])
    else Print(items[0]) + "," + PrintItems(items[1..])
  }

  function PrintField(f: Field): string
    decreases f, 0
  {
    Quote(f.key) + ":" + Print(f.value)
  }

  function PrintFields(fields: seq<Field>): string
    decreases fields, 0
  {
    if fields == [] then ""
    else if |fields| == 1 then PrintField(fields[0])
    else PrintField(fields[0]) + "," + PrintFields(fields[1..])
  }

  /** What follows a printed value: nothing, or a separator or closing bracket. */
  predicate Terminated(x: string) {
    x == "" || x[0] == ',' || x[0] == ']' || x[0] == '}'
  }

  /** The first character tells the kinds of values apart, except that null and an invalid number share theirs. */
  function KindOf(v: Value): nat {
    match v
    case Null => 0
    case NonFinite => 0
    case Bool(b) => if b then 1 else 2
    case Num(_) => 3
    case Str(_) => 4
    case Arr(_) => 5
    case Obj(_) => 6
  }

  function KindOfChar(c: char): nat {
    if c == 'n' then 0
    else if c == 't' then 1
    else if c == 'f' then 2
    else if c == '\"' then 4
    else if c == '[' then 5
    else if c == '{' then 6
    else 3
  }

  lemma FirstChar(v: Value)
    requires WellFormed(v)
    ensures Print(v) != "" && KindOfChar(Print(v)[0]) == KindOf(v)
    ensures Print(v)[0] != ']' && Print(v)[0] != '}' && Print(v)[0] != ','
  {
  }

  /** Two number texts followed by terminators end at the same place. */
  lemma {:induction false} NumberPrefix(s: string, t: string, u: string, w: string)
    requires (forall c | c in s :: IsNumberChar(c)) && (forall c | c in t :: IsNumberChar(c))
    requires Terminated(u) && Terminated(w) && s + u == t + w
    ensures s == t && u == w
    decreases |s| + |t|
  {
    var x, y := s + u, t + w;
    assert s != "" ==> x[0] == s[0] && s[0] in s;
    assert t != "" ==> y[0] == t[0] && t[0] in t;
    if s == "" || t == "" {
      assert s == "" ==> x == u;
      assert t == "" ==> y == w;
      assert s == "" && t == "";
    } else {
      assert x[0] == y[0];
      assert x[1..] == s[1..] + u && y[1..] == t[1..] + w;
      NumberPrefix(s[1..], t[1..], u, w);
      assert s == [s[0]] + s[1..] && t == [t[0]] + t[1..];
    }
  }

  lemma Brackets(open: string, body: string, close: string, u: string)
    ensures open + body + close + u == open + (body + (close + u))
  {
  }

  /** Values of one kind that print a fixed text are read back at once. */
  lemma LiteralPrefix(a: Value, b: Value, u: string, w: string)
    requires (a.Null? || a.NonFinite? || a.Bool?) && KindOf(a) == KindOf(b)
    requires Print(a) + u == Print(b) + w
    ensures a == b && u == w
  {
    var x, y := Print(a) + u, Print(b) + w;
    assert x[2] == y[2] && x[2] == Print(a)[2] && y[2] == Print(b)[2];
    assert a == b;
    SameTail(Print(a), u, w);
  }

  /** A printed value can be read back from the front of any text in which a terminator follows it. */
  lemma {:induction false} PrintPrefix(a: Value, b: Value, u: string, w: string)
    requires WellFormed(a) && WellFormed(b) && Terminated(u) && Terminated(w)
    requires Print(a) + u == Print(b) + w
    ensures a == b && u == w
    decreases a, 1
  {
    FirstChar(a);
    FirstChar(b);
    assert (Print(a) + u)[0] == Print(a)[0] && (Print(b) + w)[0] == Print(b)[0];
    assert KindOf(a) == KindOf(b);
    match a {
      case Null | NonFinite | Bool(_) => LiteralPrefix(a, b, u, w);
      case Num(text) => NumberPrefix(text, b.text, u, w);
      case Str(s) => QuotePrefix(s, b.s, u, w);
      case Arr(items) =>
        Brackets("[", PrintItems(items), "]", u);
        Brackets("[", PrintItems(b.items), "]", w);
        SameTail("[", PrintItems(items) + ("]" + u), PrintItems(b.items) + ("]" + w));
        ItemsPrefix(items, b.items, "]" + u, "]" + w);
        SameTail("]", u, w);
      case Obj(fields) =>
        Brackets("{", PrintFields(fields), "}", u);
        Brackets("{", PrintFields(b.fields), "}", w);
        SameTail("{", PrintFields(fields) + ("}" + u), PrintFields(b.fields) + ("}" + w));
        FieldsPrefix(fields, b.fields, "}" + u, "}" + w);
        SameTail("}", u, w);
    }
  }

  /** What follows the first item, given what follows the list. */
  function AfterItem(rest: seq<Value>, u: string): string {
    if rest == [] then u else "," + (PrintItems(rest) + u)
  }

  lemma ItemsUnfold(items: seq<Value>, u: string)
    requires items != []
    ensures PrintItems(items) + u == Print(items[0]) + AfterItem(items[1..], u)
  {
  }

  /** The first character tells whether a list is empty. */
  lemma ItemsStart(items: seq<Value>, u: string)
    requires (items != [] ==> WellFormed(items[0])) && StartsWith(u, ']')
    ensures items == [] <==> StartsWith(PrintItems(items) + u, ']')
    ensures items == [] ==> PrintItems(items) + u == u
  {
    if items != [] {
      ItemsUnfold(items, u);
      FirstChar(items[0]);
    } else {
      assert PrintItems(items) + u == u;
    }
  }

  lemma AfterItemStart(rest: seq<Value>, u: string)
    requires StartsWith(u, ']')
    ensures Terminated(AfterItem(rest, u))
    ensures rest == [] <==> StartsWith(AfterItem(rest, u), ']')
  {
  }

  lemma {:induction false} ItemsPrefix(a: seq<Value>, b: seq<Value>, u: string, w: string)
    requires (forall x | x in a :: WellFormed(x)) && (forall x | x in b :: WellFormed(x))
    requires StartsWith(u, ']') && StartsWith(w, ']')
    requires PrintItems(a) + u == PrintItems(b) + w
    ensures a == b && u == w
    decreases a, 0
  {
    ItemsStart(a, u);
    ItemsStart(b, w);
    if a != [] && b != [] {
      ItemsUnfold(a, u);
      ItemsUnfold(b, w);
      AfterItemStart(a[1..], u);
      AfterItemStart(b[1..], w);
      PrintPrefix(a[0], b[0], AfterItem(a[1..], u), AfterItem(b[1..], w));
      if a[1..] != [] {
        SameTail(",", PrintItems(a[1..]) + u, PrintItems(b[1..]) + w);
        ItemsPrefix(a[1..], b[1..], u, w);
      }
      assert a == [a[0]] + a[1..] && b == [b[0]] + b[1..];
    }
  }

  function AfterField(rest: seq<Field>, u: string): string {
    if rest == [] then u else "," + (PrintFields(rest) + u)
  }

  lemma FieldsUnfold(fields: seq<Field>, u: string)
    requires fields != []
    ensures PrintFields(fields) + u == PrintField(fields[0]) + AfterField(fields[1..], u)
  {
  }

  lemma FieldsStart(fields: seq<Field>, u: string)
    requires StartsWith(u, '}')
    ensures fields == [] <==> StartsWith(PrintFields(fields) + u, '}')
    ensures fields == [] ==> PrintFields(fields) + u == u
  {
    if fields != [] {
      FieldsUnfold(fields, u);
      FieldUnfold(fields[0], AfterField(fields[1..], u));
    } else {
      assert PrintFields(fields) + u == u;
    }
  }

  lemma AfterFieldStart(rest: seq<Field>, u: string)
    requires StartsWith(u, '}')
    ensures Terminated(AfterField(rest, u))
    ensures rest == [] <==> StartsWith(AfterField(rest, u), '}')
  {
  }

  lemma FieldUnfold(f: Field, p: string)
    ensures PrintField(f) + p == Quote(f.key) + (":" + (Print(f.value) + p))
  {
  }

  lemma FieldPrefix(f: Field, g: Field, p: string, q: string)
    requires WellFormed(f.value) && WellFormed(g.value) && Terminated(p) && Terminated(q)
    requires PrintField(f) + p == PrintField(g) + q
    ensures f == g && p == q
    decreases f, 0
  {
    FieldUnfold(f, p);
    FieldUnfold(g, q);
    var c, d := Print(f.value) + p, Print(g.value) + q;
    QuotePrefix(f.key, g.key, ":" + c, ":" + d);
    SameTail(":", c, d);
    PrintPrefix(f.value, g.value, p, q);
  }

  lemma {:induction false} FieldsPrefix(a: seq<Field>, b: seq<Field>, u: string, w: string)
    requires (forall f | f in a :: WellFormed(f.value)) && (forall f | f in b :: WellFormed(f.value))
    requires StartsWith(u, '}') && StartsWith(w, '}')
    requires PrintFields(a) + u == PrintFields(b) + w
    ensures a == b && u == w
    decreases a, 0
  {
    FieldsStart(a, u);
    FieldsStart(b, w);
    if a != [] && b != [] {
      FieldsUnfold(a, u);
      FieldsUnfold(b, w);
      AfterFieldStart(a[1..], u);
      AfterFieldStart(b[1..], w);
      FieldPrefix(a[0], b[0], AfterField(a[1..], u), AfterField(b[1..], w));
      if a[1..] != [] {
        SameTail(",", PrintFields(a[1..]) + u, PrintFields(b[1..]) + w);
        FieldsPrefix(a[1..], b[1..], u, w);
      }
      assert a == [a[0]] + a[1..] && b == [b[0]] + b[1..];
    }
  }

  /** Printing in field order loses nothing. */
  lemma PrintInjective(a: Value, b: Value)
    requires WellFormed(a) && WellFormed(b) && Print(a) == Print(b)
    ensures a == b
  {
    assert Print(a) + "" == Print(b) + "";
    PrintPrefix(a, b, "", "");
  }
}
