/** JSON values and their compact text, as `JSON.stringify` writes it, over UTF-16 code units.
    Printing is inverted by a parser, so printed values are self-delimiting and printing is injective.
 */
module JsonText {

  type Unit = n: int | 0 <= n < 0x10000
  type Text = seq<Unit>

  datatype Entry<T> = Entry(key: Text, value: T)

  /** A finite number is represented by its shortest round-trip lexeme, which determines it. */
  datatype Json =
    | Null
    | Bool(b: bool)
    | Number(lexeme: Text)
    | Str(s: Text)
    | Arr(items: seq<Json>)
    | Obj(fields: seq<Entry<Json>>)

  datatype Parsed<T> = Failure | Success(value: T, rest: Text)

  const QUOTE: Unit := 0x22
  const BACKSLASH: Unit := 0x5C
  const COMMA: Unit := 0x2C
  const COLON: Unit := 0x3A
  const LBRACKET: Unit := 0x5B
  const RBRACKET: Unit := 0x5D
  const LBRACE: Unit := 0x7B
  const RBRACE: Unit := 0x7D
  const MINUS: Unit := 0x2D
  const LETTER_U: Unit := 0x75

  const NULL_TEXT: Text := [0x6E, 0x75, 0x6C, 0x6C]
  const TRUE_TEXT: Text := [0x74, 0x72, 0x75, 0x65]
  const FALSE_TEXT: Text := [0x66, 0x61, 0x6C, 0x73, 0x65]

  predicate IsDigit(u: Unit) { 0x30 <= u <= 0x39 }

  /** Digits, sign, point and exponent: the alphabet of number lexemes. */
  predicate IsNumberUnit(u: Unit) { IsDigit(u) || u == MINUS || u == 0x2B || u == 0x2E || u == 0x65 }

  predicate IsLexeme(t: Text)
  {
    t != [] && (IsDigit(t[0]) || t[0] == MINUS) && forall i :: 0 <= i < |t| ==> IsNumberUnit(t[i])
  }

  /** Well-formed values: number lexemes, and no key twice in one object. */
  ghost predicate Valid(v: Json)
  {
    match v
    case Number(l) => IsLexeme(l)
    case Arr(items) => forall i :: 0 <= i < |items| ==> Valid(items[i])
    case Obj(fields) => DistinctKeys(fields) && forall i :: 0 <= i < |fields| ==> Valid(fields[i].value)
    case _ => true
  }

  ghost predicate DistinctKeys<T>(fields: seq<Entry<T>>)
  {
    forall i, j :: 0 <= i < j < |fields| ==> fields[i].key != fields[j].key
  }

  // ---------------------------------------------------------------------------------------------
  // Strings
  // ---------------------------------------------------------------------------------------------

  predicate IsHigh(u: Unit) { 0xD800 <= u <= 0xDBFF }

  predicate IsLow(u: Unit) { 0xDC00 <= u <= 0xDFFF }

  function HexDigit(n: int): Unit
    requires 0 <= n < 16
  {
    if n < 10 then 0x30 + n else 0x61 + (n - 10)
  }

  function HexValue(u: Unit): int
  {
    if IsDigit(u) then u - 0x30 else if 0x61 <= u <= 0x66 then u - 0x61 + 10 else -1
  }

  /** The letter of a two-character escape, if the unit has one. */
  function ShortEscape(u: Unit): int
  {
    if u == QUOTE || u == BACKSLASH then u
    else if u == 8 then 0x62
    else if u == 9 then 0x74
    else if u == 10 then 0x6E
    else if u == 12 then 0x66
    else if u == 13 then 0x72
    else -1
  }

  function ShortUnescape(e: Unit): int
  {
    if e == QUOTE || e == BACKSLASH then e
    else if e == 0x62 then 8
    else if e == 0x74 then 9
    else if e == 0x6E then 10
    else if e == 0x66 then 12
    else if e == 0x72 then 13
    else -1
  }

  function UnicodeEscape(u: Unit): Text
  {
    [BACKSLASH, LETTER_U, HexDigit(u / 16 / 16 / 16), HexDigit(u / 16 / 16 % 16), HexDigit(u / 16 % 16), HexDigit(u % 16)]
  }

  function EscapeUnit(u: Unit): Text
  {
    if ShortEscape(u) >= 0 then [BACKSLASH, ShortEscape(u)]
    else if u < 0x20 || IsHigh(u) || IsLow(u) then UnicodeEscape(u)
    else [u]
  }

  /** Surrogate pairs stay, lone surrogates and control characters are escaped. */
  function Escape(s: Text): Text
  {
    if s == [] then []
    else if |s| > 1 && IsHigh(s[0]) && IsLow(s[1]) then [s[0], s[1]] + Escape(s[2..])
    else EscapeUnit(s[0]) + Escape(s[1..])
  }

  function Quote(s: Text): Text
  {
    [QUOTE] + Escape(s) + [QUOTE]
  }

  function Prepend(u: Unit, p: Parsed<Text>): Parsed<Text>
  {
    if p.Success? then Success([u] + p.value, p.rest) else Failure
  }

  /** Read a string body up to and including its closing quote. */
  function ParseString(t: Text): (p: Parsed<Text>)
    ensures p.Success? ==> |p.rest| < |t|
  {
    if t == [] then Failure
    else if t[0] == QUOTE then Success([], t[1..])
    else if t[0] != BACKSLASH then Prepend(t[0], ParseString(t[1..]))
    else if |t| < 2 then Failure
    else if ShortUnescape(t[1]) >= 0 then Prepend(ShortUnescape(t[1]), ParseString(t[2..]))
    else if t[1] == LETTER_U && |t| >= 6 &&
            HexValue(t[2]) >= 0 && HexValue(t[3]) >= 0 && HexValue(t[4]) >= 0 && HexValue(t[5]) >= 0 then
      Prepend(HexValue(t[2]) * 4096 + HexValue(t[3]) * 256 + HexValue(t[4]) * 16 + HexValue(t[5]), ParseString(t[6..]))
    else Failure
  }

  lemma HexDigitRoundTrip(n: int)
    requires 0 <= n < 16
    ensures HexValue(HexDigit(n)) == n
  {
  }

  lemma UnicodeEscapeRoundTrip(u: Unit, rest: Text)
    ensures ParseString(UnicodeEscape(u) + rest) == Prepend(u, ParseString(rest))
  {
    var t := UnicodeEscape(u) + rest;
    var a := u / 16;
    var b := a / 16;
    var c := b / 16;
    HexDigitRoundTrip(c);
    HexDigitRoundTrip(b % 16);
    HexDigitRoundTrip(a % 16);
    HexDigitRoundTrip(u % 16);
    assert t[0] == BACKSLASH && t[1] == LETTER_U && t[6..] == rest;
    assert t[2] == HexDigit(c) && t[3] == HexDigit(b % 16) && t[4] == HexDigit(a % 16) && t[5] == HexDigit(u % 16);
  }

  lemma RawUnitRoundTrip(u: Unit, rest: Text)
    requires u != QUOTE && u != BACKSLASH
    ensures ParseString([u] + rest) == Prepend(u, ParseString(rest))
  {
    assert ([u] + rest)[1..] == rest;
  }

  lemma EscapedUnitRoundTrip(u: Unit, rest: Text)
    ensures ParseString(EscapeUnit(u) + rest) == Prepend(u, ParseString(rest))
  {
    if ShortEscape(u) >= 0 {
      var t := EscapeUnit(u) + rest;
      assert t[0] == BACKSLASH && t[1] == ShortEscape(u) && t[2..] == rest;
    } else if u < 0x20 || IsHigh(u) || IsLow(u) {
      UnicodeEscapeRoundTrip(u, rest);
    } else {
      RawUnitRoundTrip(u, rest);
    }
  }

  lemma Regroup(a: Text, b: Text, c: Text, d: Text)
    ensures a + b + c + d == a + (b + c + d)
  {
  }

  lemma {:induction false} StringRoundTrip(s: Text, rest: Text)
    ensures ParseString(Escape(s) + [QUOTE] + rest) == Success(s, rest)
    decreases |s|
  {
    if s == [] {
      assert Escape(s) + [QUOTE] + rest == [QUOTE] + rest;
      assert ([QUOTE] + rest)[1..] == rest;
    } else if |s| > 1 && IsHigh(s[0]) && IsLow(s[1]) {
      var tail := Escape(s[2..]) + [QUOTE] + rest;
      StringRoundTrip(s[2..], rest);
      Regroup([s[0], s[1]], Escape(s[2..]), [QUOTE], rest);
      assert [s[0], s[1]] + tail == [s[0]] + ([s[1]] + tail);
      RawUnitRoundTrip(s[1], tail);
      RawUnitRoundTrip(s[0], [s[1]] + tail);
      assert s == [s[0]] + ([s[1]] + s[2..]);
    } else {
      var tail := Escape(s[1..]) + [QUOTE] + rest;
      StringRoundTrip(s[1..], rest);
      Regroup(EscapeUnit(s[0]), Escape(s[1..]), [QUOTE], rest);
      EscapedUnitRoundTrip(s[0], tail);
      assert s == [s[0]] + s[1..];
    }
  }

  // ---------------------------------------------------------------------------------------------
  // Values
  // ---------------------------------------------------------------------------------------------

  function Print(v: Json): Text
  {
    match v
    case Null => NULL_TEXT
    case Bool(b) => if b then TRUE_TEXT else FALSE_TEXT
    case Number(l) => l
    case Str(s) => Quote(s)
    case Arr(items) => [LBRACKET] + PrintItems(items) + [RBRACKET]
    case Obj(fields) => [LBRACE] + PrintFields(fields) + [RBRACE]
  }

  function PrintItems(items: seq<Json>): Text
  {
    if items == [] then []
    else if |items| == 1 then Print(items[0])
    else Print(items[0]) + [COMMA] + PrintItems(items[1..])
  }

  function PrintField(f: Entry<Json>): Text
  {
    Quote(f.key) + [COLON] + Print(f.value)
  }

  function PrintFields(fields: seq<Entry<Json>>): Text
  {
    if fields == [] then []
    else if |fields| == 1 then PrintField(fields[0])
    else PrintField(fields[0]) + [COMMA] + PrintFields(fields[1..])
  }

  /** Length of the longest prefix over the number alphabet. */
  function NumberSpan(t: Text): (n: nat)
    ensures n <= |t|
  {
    if t == [] || !IsNumberUnit(t[0]) then 0 else 1 + NumberSpan(t[1..])
  }

  predicate StartsWith(t: Text, prefix: Text)
  {
    |t| >= |prefix| && t[..|prefix|] == prefix
  }

  function ParseValue(t: Text): (p: Parsed<Json>)
    ensures p.Success? ==> |p.rest| < |t|
    decreases |t|, 0
  {
    if t == [] then Failure
    else if StartsWith(t, NULL_TEXT) then Success(Null, t[4..])
    else if StartsWith(t, TRUE_TEXT) then Success(Bool(true), t[4..])
    else if StartsWith(t, FALSE_TEXT) then Success(Bool(false), t[5..])
    else if t[0] == QUOTE then
      var p := ParseString(t[1..]);
      if p.Success? then Success(Str(p.value), p.rest) else Failure
    else if t[0] == LBRACKET then
      if |t| > 1 && t[1] == RBRACKET then Success(Arr([]), t[2..])
      else
        var p := ParseItems(t[1..]);
        if p.Success? then Success(Arr(p.value), p.rest) else Failure
    else if t[0] == LBRACE then
      if |t| > 1 && t[1] == RBRACE then Success(Obj([]), t[2..])
      else
        var p := ParseFields(t[1..]);
        if p.Success? then Success(Obj(p.value), p.rest) else Failure
    else if IsDigit(t[0]) || t[0] == MINUS then Success(Number(t[..NumberSpan(t)]), t[NumberSpan(t)..])
    else Failure
  }

  /** One or more items and the closing bracket. */
  function ParseItems(t: Text): (p: Parsed<seq<Json>>)
    ensures p.Success? ==> |p.rest| < |t|
    decreases |t|, 1
  {
    var first := ParseValue(t);
    if first.Failure? || first.rest == [] then Failure
    else if first.rest[0] == RBRACKET then Success([first.value], first.rest[1..])
    else if first.rest[0] != COMMA then Failure
    else
      var more := ParseItems(first.rest[1..]);
      if more.Success? then Success([first.value] + more.value, more.rest) else Failure
  }

  function ParseField(t: Text): (p: Parsed<Entry<Json>>)
    ensures p.Success? ==> |p.rest| < |t|
    decreases |t|, 1
  {
    if t == [] || t[0] != QUOTE then Failure
    else
      var key := ParseString(t[1..]);
      if key.Failure? || key.rest == [] || key.rest[0] != COLON then Failure
      else
        var value := ParseValue(key.rest[1..]);
        if value.Success? then Success(Entry(key.value, value.value), value.rest) else Failure
  }

  function ParseFields(t: Text): (p: Parsed<seq<Entry<Json>>>)
    ensures p.Success? ==> |p.rest| < |t|
    decreases |t|, 2
  {
    var first := ParseField(t);
    if first.Failure? || first.rest == [] then Failure
    else if first.rest[0] == RBRACE then Success([first.value], first.rest[1..])
    else if first.rest[0] != COMMA then Failure
    else
      var more := ParseFields(first.rest[1..]);
      if more.Success? then Success([first.value] + more.value, more.rest) else Failure
  }

  /** Text that may follow a value: nothing, or something that does not continue a number. */
  predicate Follows(rest: Text)
  {
    rest == [] || !IsNumberUnit(rest[0])
  }

  lemma {:induction false} LexemeSpan(l: Text, rest: Text)
    requires (forall i :: 0 <= i < |l| ==> IsNumberUnit(l[i])) && Follows(rest)
    ensures NumberSpan(l + rest) == |l|
    decreases |l|
  {
    if l == [] {
      assert l + rest == rest;
    } else {
      assert (l + rest)[1..] == l[1..] + rest;
      LexemeSpan(l[1..], rest);
    }
  }

  /** The first unit of a printed value tells its kind. */
  lemma PrintStarts(v: Json)
    requires Valid(v)
    ensures Print(v) != []
    ensures var u := Print(v)[0];
            match v
            case Null => u == 0x6E
            case Bool(b) => u == if b then 0x74 else 0x66
            case Number(_) => IsDigit(u) || u == MINUS
            case Str(_) => u == QUOTE
            case Arr(_) => u == LBRACKET
            case Obj(_) => u == LBRACE
  {
  }

  lemma KeywordParses(v: Json, rest: Text)
    requires v.Null? || v.Bool?
    ensures ParseValue(Print(v) + rest) == Success(v, rest)
  {
    var t := Print(v) + rest;
    assert t[..|Print(v)|] == Print(v) && t[|Print(v)|..] == rest;
    if v.Bool? {
      assert t[0] == Print(v)[0] && !StartsWith(t, NULL_TEXT);
      if !v.b {
        assert !StartsWith(t, TRUE_TEXT);
      }
    }
  }

  /** No keyword starts with `u`. */
  lemma NotAKeyword(u: Unit, rest: Text)
    requires u != 0x6E && u != 0x74 && u != 0x66
    ensures !StartsWith([u] + rest, NULL_TEXT) && !StartsWith([u] + rest, TRUE_TEXT) && !StartsWith([u] + rest, FALSE_TEXT)
  {
    var t := [u] + rest;
    if |t| >= 4 {
      assert t[..4][0] == u;
    }
    if |t| >= 5 {
      assert t[..5][0] == u;
    }
  }

  lemma NumberParses(l: Text, rest: Text)
    requires IsLexeme(l) && Follows(rest)
    ensures ParseValue(l + rest) == Success(Number(l), rest)
  {
    var t := l + rest;
    LexemeSpan(l, rest);
    assert t == [l[0]] + (l[1..] + rest);
    NotAKeyword(l[0], l[1..] + rest);
    assert t[..|l|] == l && t[|l|..] == rest;
  }

  lemma StrParses(s: Text, rest: Text)
    ensures ParseValue(Quote(s) + rest) == Success(Str(s), rest)
  {
    StringRoundTrip(s, rest);
    var body := Escape(s) + [QUOTE] + rest;
    var t := [QUOTE] + body;
    Regroup([QUOTE], Escape(s), [QUOTE], rest);
    NotAKeyword(QUOTE, body);
    assert t[1..] == body;
  }

  lemma ArrayParses(items: seq<Json>, body: Text, rest: Text)
    requires items != [] && body != [] && body[0] != RBRACKET
    requires ParseItems(body + [RBRACKET] + rest) == Success(items, rest)
    ensures ParseValue([LBRACKET] + body + [RBRACKET] + rest) == Success(Arr(items), rest)
  {
    var inner := body + [RBRACKET] + rest;
    Regroup([LBRACKET], body, [RBRACKET], rest);
    NotAKeyword(LBRACKET, inner);
    assert ([LBRACKET] + inner)[1..] == inner && inner[0] == body[0];
  }

  lemma ObjectParses(fields: seq<Entry<Json>>, body: Text, rest: Text)
    requires fields != [] && body != [] && body[0] != RBRACE
    requires ParseFields(body + [RBRACE] + rest) == Success(fields, rest)
    ensures ParseValue([LBRACE] + body + [RBRACE] + rest) == Success(Obj(fields), rest)
  {
    var inner := body + [RBRACE] + rest;
    Regroup([LBRACE], body, [RBRACE], rest);
    NotAKeyword(LBRACE, inner);
    assert ([LBRACE] + inner)[1..] == inner && inner[0] == body[0];
  }

  lemma EmptyParses(rest: Text)
    ensures ParseValue(Print(Arr([])) + rest) == Success(Arr([]), rest)
    ensures ParseValue(Print(Obj([])) + rest) == Success(Obj([]), rest)
  {
    NotAKeyword(LBRACKET, [RBRACKET] + rest);
    NotAKeyword(LBRACE, [RBRACE] + rest);
    var a, o := [LBRACKET] + ([RBRACKET] + rest), [LBRACE] + ([RBRACE] + rest);
    assert Print(Arr([])) + rest == a && a[2..] == rest && a[1] == RBRACKET;
    assert Print(Obj([])) + rest == o && o[2..] == rest && o[1] == RBRACE;
  }

  /** Printing is inverted by parsing, and the text of a value ends where the value ends. */
  lemma {:induction false} PrintParses(v: Json, rest: Text)
    requires Valid(v) && Follows(rest)
    ensures ParseValue(Print(v) + rest) == Success(v, rest)
    decreases v, 1
  {
    match v
    case Number(l) => NumberParses(l, rest);
    case Str(s) => StrParses(s, rest);
    case Arr(items) =>
      if items == [] {
        EmptyParses(rest);
      } else {
        ItemsParse(items, rest);
        PrintStarts(items[0]);
        assert PrintItems(items)[0] == Print(items[0])[0];
        ArrayParses(items, PrintItems(items), rest);
      }
    case Obj(fields) =>
      if fields == [] {
        EmptyParses(rest);
      } else {
        FieldsParse(fields, rest);
        assert PrintFields(fields)[0] == QUOTE;
        ObjectParses(fields, PrintFields(fields), rest);
      }
    case _ => KeywordParses(v, rest);
  }

  lemma LastItemParses(v: Json, text: Text, rest: Text)
    requires ParseValue(text + ([RBRACKET] + rest)) == Success(v, [RBRACKET] + rest)
    ensures ParseItems(text + [RBRACKET] + rest) == Success([v], rest)
  {
    assert text + [RBRACKET] + rest == text + ([RBRACKET] + rest);
    assert ([RBRACKET] + rest)[1..] == rest;
  }

  lemma NextItemParses(v: Json, text: Text, items: seq<Json>, others: Text, rest: Text)
    requires ParseItems(others + [RBRACKET] + rest) == Success(items, rest)
    requires var tail := [COMMA] + (others + [RBRACKET] + rest); ParseValue(text + tail) == Success(v, tail)
    ensures ParseItems(text + [COMMA] + others + [RBRACKET] + rest) == Success([v] + items, rest)
  {
    RegroupList(text, others, [RBRACKET], rest);
    assert ([COMMA] + (others + [RBRACKET] + rest))[1..] == others + [RBRACKET] + rest;
  }

  lemma {:induction false} ItemsParse(items: seq<Json>, rest: Text)
    requires items != [] && forall i :: 0 <= i < |items| ==> Valid(items[i])
    ensures ParseItems(PrintItems(items) + [RBRACKET] + rest) == Success(items, rest)
    decreases items, 0
  {
    if |items| == 1 {
      PrintParses(items[0], [RBRACKET] + rest);
      LastItemParses(items[0], Print(items[0]), rest);
      assert [items[0]] == items;
    } else {
      ItemsParse(items[1..], rest);
      PrintParses(items[0], [COMMA] + (PrintItems(items[1..]) + [RBRACKET] + rest));
      NextItemParses(items[0], Print(items[0]), items[1..], PrintItems(items[1..]), rest);
      assert [items[0]] + items[1..] == items;
    }
  }

  lemma RegroupList(first: Text, more: Text, close: Text, rest: Text)
    ensures first + [COMMA] + more + close + rest == first + ([COMMA] + (more + close + rest))
  {
  }

  lemma LastFieldParses(f: Entry<Json>, text: Text, rest: Text)
    requires ParseField(text + ([RBRACE] + rest)) == Success(f, [RBRACE] + rest)
    ensures ParseFields(text + [RBRACE] + rest) == Success([f], rest)
  {
    assert text + [RBRACE] + rest == text + ([RBRACE] + rest);
    assert ([RBRACE] + rest)[1..] == rest;
  }

  lemma NextFieldParses(f: Entry<Json>, text: Text, fields: seq<Entry<Json>>, others: Text, rest: Text)
    requires ParseFields(others + [RBRACE] + rest) == Success(fields, rest)
    requires var tail := [COMMA] + (others + [RBRACE] + rest); ParseField(text + tail) == Success(f, tail)
    ensures ParseFields(text + [COMMA] + others + [RBRACE] + rest) == Success([f] + fields, rest)
  {
    RegroupList(text, others, [RBRACE], rest);
    assert ([COMMA] + (others + [RBRACE] + rest))[1..] == others + [RBRACE] + rest;
  }

  lemma {:induction false} FieldParses(f: Entry<Json>, rest: Text)
    requires Valid(f.value) && Follows(rest)
    ensures ParseField(PrintField(f) + rest) == Success(f, rest)
    decreases f, 0
  {
    PrintParses(f.value, rest);
    FieldSplits(f, Print(f.value), rest);
  }

  lemma FieldSplits(f: Entry<Json>, printed: Text, rest: Text)
    requires ParseValue(printed + rest) == Success(f.value, rest)
    ensures ParseField(Quote(f.key) + [COLON] + printed + rest) == Success(f, rest)
  {
    var value := [COLON] + (printed + rest);
    RegroupField(Escape(f.key), printed, rest);
    StringRoundTrip(f.key, value);
    assert value[1..] == printed + rest;
  }

  lemma RegroupField(key: Text, printed: Text, rest: Text)
    ensures var t := [QUOTE] + key + [QUOTE] + [COLON] + printed + rest;
            t[0] == QUOTE && t[1..] == key + [QUOTE] + ([COLON] + (printed + rest))
  {
  }

  lemma {:induction false} FieldsParse(fields: seq<Entry<Json>>, rest: Text)
    requires fields != [] && forall i :: 0 <= i < |fields| ==> Valid(fields[i].value)
    ensures ParseFields(PrintFields(fields) + [RBRACE] + rest) == Success(fields, rest)
    decreases fields, 0
  {
    if |fields| == 1 {
      FieldParses(fields[0], [RBRACE] + rest);
      LastFieldParses(fields[0], PrintField(fields[0]), rest);
      assert [fields[0]] == fields;
    } else {
      FieldsParse(fields[1..], rest);
      FieldParses(fields[0], [COMMA] + (PrintFields(fields[1..]) + [RBRACE] + rest));
      NextFieldParses(fields[0], PrintField(fields[0]), fields[1..], PrintFields(fields[1..]), rest);
      assert [fields[0]] + fields[1..] == fields;
    }
  }

  /** Different values print differently. */
  lemma PrintIsInjective(x: Json, y: Json)
    requires Valid(x) && Valid(y) && Print(x) == Print(y)
    ensures x == y
  {
    PrintParses(x, []);
    PrintParses(y, []);
  }
}
