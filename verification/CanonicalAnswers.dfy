/** What the key orders of canonical JSON mean: texts by their first difference, and index keys as the
    numbers that they write.
 */
module CanonicalAnswers {
  import opened JsonText
  import opened CanonicalJson
  import opened JsonTextAnswers

  /** The first difference of two texts, if neither continues the other. */
  predicate DifferAt(a: Text, b: Text, i: nat)
  {
    i < |a| && i < |b| && a[..i] == b[..i] && a[i] != b[i]
  }

  /** Code-unit order: a prefix comes first, and otherwise the first difference decides. */
  lemma {:induction false} TextsOrderByFirstDifference(a: Text, b: Text)
    ensures TextLe(a, b) <==> a <= b || exists i: nat :: DifferAt(a, b, i) && a[i] < b[i]
    decreases |a|
  {
    if a == [] || b == [] {
    } else if a[0] != b[0] {
      assert a[..0] == b[..0] && DifferAt(a, b, 0);
      assert forall i: nat :: DifferAt(a, b, i) && i > 0 ==> a[..i][0] == b[..i][0];
    } else {
      var x, y := a[1..], b[1..];
      TextsOrderByFirstDifference(x, y);
      forall i: nat ensures DifferAt(a, b, i + 1) <==> DifferAt(x, y, i) {
        DifferLater(a, b, i);
      }
      assert a == [a[0]] + x && b == [b[0]] + y;
      assert forall i: nat :: DifferAt(x, y, i) ==> a[i + 1] == x[i] && b[i + 1] == y[i];
      assert forall i: nat :: DifferAt(a, b, i) ==> i > 0 && DifferAt(x, y, i - 1);
    }
  }

  lemma DifferLater(a: Text, b: Text, i: nat)
    requires a != [] && b != [] && a[0] == b[0]
    ensures DifferAt(a, b, i + 1) <==> DifferAt(a[1..], b[1..], i)
  {
    if i < |a| - 1 && i < |b| - 1 {
      assert a[..i + 1] == [a[0]] + a[1..][..i] && b[..i + 1] == [b[0]] + b[1..][..i];
      assert a[1..][..i] == a[..i + 1][1..] && b[1..][..i] == b[..i + 1][1..];
    }
  }

  // ---------------------------------------------------------------------------------------------
  // Index keys are numbers
  // ---------------------------------------------------------------------------------------------

  function Power(n: nat): (p: nat)
    ensures p >= 1
  {
    if n == 0 then 1 else 10 * Power(n - 1)
  }

  predicate AllDigits(t: Text)
  {
    forall i :: 0 <= i < |t| ==> 0x30 <= t[i] <= 0x39
  }

  /** The number that a text of digits writes. */
  function Value(t: Text): (n: nat)
    requires AllDigits(t)
  {
    if t == [] then 0 else (t[0] - 0x30) * Power(|t| - 1) + Value(t[1..])
  }

  /** A numeral without leading zeros. */
  predicate Numeral(t: Text)
  {
    t != [] && AllDigits(t) && (t[0] == 0x30 ==> |t| == 1)
  }

  lemma FirstDigit(d: int, p: nat, rest: nat)
    requires 0 <= d <= 9 && rest < p
    ensures d * p <= d * p + rest < 10 * p && (d >= 1 ==> p <= d * p + rest)
  {
    assert (d + 1) * p <= 10 * p;
    if d >= 1 {
      assert p <= d * p;
    }
  }

  lemma {:induction false} ValueFits(t: Text)
    requires AllDigits(t)
    ensures Value(t) < Power(|t|)
    ensures t != [] && t[0] != 0x30 ==> Value(t) >= Power(|t| - 1)
    decreases |t|
  {
    if t != [] {
      ValueFits(t[1..]);
      FirstDigit(t[0] - 0x30, Power(|t| - 1), Value(t[1..]));
    }
  }

  lemma FirstDigitsDecide(d: int, e: int, p: nat, x: nat, y: nat)
    requires x < p && y < p
    ensures d * p + x <= e * p + y <==> d < e || (d == e && x <= y)
  {
    if d < e {
      assert (d + 1) * p <= e * p;
    }
    if e < d {
      assert (e + 1) * p <= d * p;
    }
  }

  lemma {:induction false} SameLengthOrder(a: Text, b: Text)
    requires AllDigits(a) && AllDigits(b) && |a| == |b|
    ensures TextLe(a, b) <==> Value(a) <= Value(b)
    decreases |a|
  {
    if a != [] {
      SameLengthOrder(a[1..], b[1..]);
      ValueFits(a[1..]);
      ValueFits(b[1..]);
      FirstDigitsDecide(a[0] - 0x30, b[0] - 0x30, Power(|a| - 1), Value(a[1..]), Value(b[1..]));
    }
  }

  lemma {:induction false} PowerGrows(m: nat, n: nat)
    requires m <= n
    ensures Power(m) <= Power(n)
    decreases n
  {
    if m < n {
      PowerGrows(m, n - 1);
    }
  }

  lemma ShorterIsSmaller(a: Text, b: Text)
    requires Numeral(a) && Numeral(b) && |a| < |b|
    ensures Value(a) < Value(b)
  {
    ValueFits(a);
    ValueFits(b);
    PowerGrows(|a|, |b| - 1);
  }

  /** Index keys are listed by the numbers that they write. */
  lemma IndexKeysOrderAsNumbers(a: Text, b: Text)
    requires Numeral(a) && Numeral(b)
    ensures IndexLe(a, b) <==> Value(a) <= Value(b)
  {
    if |a| == |b| {
      SameLengthOrder(a, b);
    } else if |a| < |b| {
      ShorterIsSmaller(a, b);
    } else {
      ShorterIsSmaller(b, a);
    }
  }

  lemma {:induction false} ValueAppend(t: Text, d: Unit)
    requires AllDigits(t) && 0x30 <= d <= 0x39
    ensures AllDigits(t + [d]) && Value(t + [d]) == 10 * Value(t) + (d - 0x30)
    decreases |t|
  {
    var all := t + [d];
    if t == [] {
      assert all[1..] == [];
      assert Value(all) == (d - 0x30) * Power(0) + Value([]);
    } else {
      ValueAppend(t[1..], d);
      assert all[1..] == t[1..] + [d];
      Shift(t[0] - 0x30, Power(|t| - 1));
    }
  }

  lemma Shift(d: int, p: nat)
    ensures d * (10 * p) == 10 * (d * p)
  {
  }

  lemma {:induction false} PrefixValue(n: nat)
    requires n <= 10
    ensures AllDigits(Units("4294967294")[..n])
    ensures Value(Units("4294967294")[..n]) == Leading(n)
    decreases n
  {
    var t := Units("4294967294");
    if n > 0 {
      PrefixValue(n - 1);
      assert t[..n] == t[..n - 1] + [t[n - 1]];
      ValueAppend(t[..n - 1], t[n - 1]);
    }
  }

  function Leading(n: nat): nat
    requires n <= 10
  {
    [0, 4, 42, 429, 4294, 42949, 429496, 4294967, 42949672, 429496729, 4294967294][n]
  }

  /** The greatest index is 2^32 - 2. */
  lemma GreatestIndex()
    ensures MAX_INDEX_TEXT == Units("4294967294") && AllDigits(MAX_INDEX_TEXT) && Value(MAX_INDEX_TEXT) == 4294967294
  {
    var t := Units("4294967294");
    assert |"4294967294"| == 10;
    PrefixValue(10);
    assert t[..10] == t;
    assert MAX_INDEX_TEXT == t;
  }

  /** A key is an index key exactly when it is the numeral of an array index, a number below 2^32 - 1. */
  lemma IndexKeysAreIndices(k: Text)
    ensures IsIndexKey(k) <==> Numeral(k) && Value(k) < 0x1_0000_0000 - 1
  {
    GreatestIndex();
    if Numeral(k) {
      if |k| < 10 {
        ShorterIsSmaller(k, MAX_INDEX_TEXT);
      } else if |k| == 10 {
        SameLengthOrder(k, MAX_INDEX_TEXT);
      } else {
        ShorterIsSmaller(MAX_INDEX_TEXT, k);
      }
    }
  }

  /** In an object, index keys come before all others and by number, the others by their texts. */
  lemma OwnKeysAreOrdered(a: Text, b: Text)
    ensures IsIndexKey(a) && IsIndexKey(b) ==> (OwnKeyLe(a, b) <==> Value(a) <= Value(b))
    ensures IsIndexKey(a) && !IsIndexKey(b) ==> OwnKeyLe(a, b) && !OwnKeyLe(b, a)
    ensures !IsIndexKey(a) && !IsIndexKey(b) ==> (OwnKeyLe(a, b) <==> TextLe(a, b))
  {
    IndexKeysAreIndices(a);
    IndexKeysAreIndices(b);
    if IsIndexKey(a) && IsIndexKey(b) {
      IndexKeysOrderAsNumbers(a, b);
    }
  }
}
