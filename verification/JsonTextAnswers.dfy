/** What JSON text looks like, unit by unit. */
module JsonTextAnswers {
  import opened JsonText

  /** The code units of a text that is written with plain characters. */
  function Units(s: string): (t: Text)
    requires forall i :: 0 <= i < |s| ==> s[i] < 128 as char
    ensures |t| == |s| && forall i :: 0 <= i < |s| ==> t[i] == s[i] as int
  {
    seq(|s|, i requires 0 <= i < |s| => s[i] as int)
  }

  lemma {:induction false} ItemsAreSeparated(xs: seq<Json>, ys: seq<Json>)
    requires xs != [] && ys != []
    ensures PrintItems(xs + ys) == PrintItems(xs) + Units(",") + PrintItems(ys)
    decreases |xs|
  {
    if |xs| == 1 {
      assert (xs + ys)[1..] == ys;
    } else {
      ItemsAreSeparated(xs[1..], ys);
      assert (xs + ys)[1..] == xs[1..] + ys;
    }
  }

  lemma {:induction false} FieldsAreSeparated(xs: seq<Entry<Json>>, ys: seq<Entry<Json>>)
    requires xs != [] && ys != []
    ensures PrintFields(xs + ys) == PrintFields(xs) + Units(",") + PrintFields(ys)
    decreases |xs|
  {
    if |xs| == 1 {
      assert (xs + ys)[1..] == ys;
    } else {
      FieldsAreSeparated(xs[1..], ys);
      assert (xs + ys)[1..] == xs[1..] + ys;
    }
  }

  lemma MarksAreUnits()
    ensures Units("[") == [LBRACKET] && Units("]") == [RBRACKET] && Units("{") == [LBRACE] && Units("}") == [RBRACE]
    ensures Units("\"") == [QUOTE] && Units("\":") == [QUOTE, COLON]
  {
  }

  lemma KeywordsAreUnits()
    ensures Units("null") == NULL_TEXT && Units("true") == TRUE_TEXT && Units("false") == FALSE_TEXT
  {
  }

  /** Keywords, brackets and braces around the parts, and quotes around a string. */
  lemma ValuesAreWritten(v: Json)
    ensures match v
            case Null => Print(v) == Units("null")
            case Bool(b) => Print(v) == Units(if b then "true" else "false")
            case Number(l) => Print(v) == l
            case Str(s) => Print(v) == Units("\"") + Escape(s) + Units("\"")
            case Arr(items) => Print(v) == Units("[") + PrintItems(items) + Units("]")
            case Obj(fields) => Print(v) == Units("{") + PrintFields(fields) + Units("}")
  {
    MarksAreUnits();
    KeywordsAreUnits();
  }

  /** A single item is its text, a single field its quoted key, a colon and its value's text. */
  lemma SinglesAreWritten(v: Json, e: Entry<Json>)
    ensures PrintItems([]) == [] == PrintFields([]) && PrintItems([v]) == Print(v)
    ensures PrintFields([e]) == Units("\"") + Escape(e.key) + Units("\":") + Print(e.value)
  {
    MarksAreUnits();
    assert [QUOTE, COLON] == [QUOTE] + [COLON];
  }

  /** The two-character escapes. */
  function Escapes(): map<Unit, string>
  {
    map[0x22 := "\\\"", 0x5C := "\\\\", 8 := "\\b", 9 := "\\t", 10 := "\\n", 12 := "\\f", 13 := "\\r"]
  }

  /** One unit by itself: the seven short escapes, \u and four hexadecimal digits for the other control
      characters and for lone surrogates, and otherwise the unit as it is. */
  lemma UnitsAreEscaped(u: Unit)
    ensures var e := Escape([u]);
            if u in Escapes() then
              var letters := Escapes()[u];
              |letters| == 2 && |e| == 2 && e[0] == letters[0] as int && e[1] == letters[1] as int
            else if u < 0x20 || 0xD800 <= u < 0xE000 then
              |e| == 6 && e[..2] == Units("\\u") && IsHexOf(e[2..], u)
            else e == [u]
  {
    assert Escape([u]) == EscapeUnit(u) + Escape([u][1..]);
    if u !in Escapes() && (u < 0x20 || 0xD800 <= u < 0xE000) {
      assert Escape([u]) == UnicodeEscape(u);
      HexOfUnit(u);
    }
  }

  const HEX_DIGITS := "0123456789abcdef"

  /** Four digits that stand for `n` in base sixteen. */
  ghost predicate IsHexOf(t: Text, n: int)
  {
    |t| == 4 && exists a, b, c, d | 0 <= a < 16 && 0 <= b < 16 && 0 <= c < 16 && 0 <= d < 16 ::
      && n == 4096 * a + 256 * b + 16 * c + d
      && t[0] == HEX_DIGITS[a] as int && t[1] == HEX_DIGITS[b] as int
      && t[2] == HEX_DIGITS[c] as int && t[3] == HEX_DIGITS[d] as int
  }

  lemma HexOfUnit(u: Unit)
    ensures IsHexOf(UnicodeEscape(u)[2..], u)
  {
    var a, b, c, d := u / 16 / 16 / 16, u / 16 / 16 % 16, u / 16 % 16, u % 16;
    assert u == 4096 * a + 256 * b + 16 * c + d;
    HexDigitIsWritten(a);
    HexDigitIsWritten(b);
    HexDigitIsWritten(c);
    HexDigitIsWritten(d);
  }

  lemma HexDigitIsWritten(n: int)
    requires 0 <= n < 16
    ensures HexDigit(n) == HEX_DIGITS[n] as int
  {
  }

  /** Strings are escaped unit by unit, save that a surrogate pair stays as it is. */
  lemma StringsAreEscapedUnitByUnit(s: Text)
    ensures Escape([]) == []
    ensures s != [] ==>
            Escape(s) == if |s| > 1 && 0xD800 <= s[0] < 0xDC00 <= s[1] < 0xE000 then s[..2] + Escape(s[2..])
                         else Escape([s[0]]) + Escape(s[1..])
  {
    if s != [] {
      assert [s[0]][1..] == [];
      assert Escape([s[0]]) == EscapeUnit(s[0]) + [] == EscapeUnit(s[0]);
      if |s| > 1 {
        assert s[..2] == [s[0], s[1]];
      }
    }
  }
}
