/** The key that orders trajectories by their start: a time stamp as a text whose lexical order is the
    order of instants, with every fractional digit that was supplied.
 */
module TrajectoryTime {
  import opened JsonText
  import opened Wrappers

  type Digit = d: nat | d < 10

  /** A canonical time stamp: the second since the epoch, after its offset, and the fractional digits. Years
      have four digits and offsets stay below a day. */
  datatype Stamp = Stamp(second: int, fraction: seq<Digit>)

  const FIRST_SECOND := -62167305600
  const LAST_SECOND := 253402387199

  type Timestamp = t: Stamp | FIRST_SECOND <= t.second <= LAST_SECOND witness Stamp(0, [])

  const SHIFT := 1000000000000
  const WIDTH := 13

  function Letter(d: Digit): char
  {
    "0123456789"[d]
  }

  function Letters(ds: seq<Digit>): (s: string)
    ensures |s| == |ds|
  {
    seq(|ds|, i requires 0 <= i < |ds| => Letter(ds[i]))
  }

  /** The decimal numeral of `n`, padded with zeros to `width` digits. */
  function Padded(n: nat, width: nat): (s: string)
    ensures |s| == width
  {
    if width == 0 then "" else Padded(n / 10, width - 1) + [Letter(n % 10)]
  }

  /** Without trailing zeros. */
  function Stripped(ds: seq<Digit>): (r: seq<Digit>)
    ensures Trimmed(r)
  {
    if ds != [] && ds[|ds| - 1] == 0 then Stripped(ds[..|ds| - 1]) else ds
  }

  predicate Trimmed(ds: seq<Digit>)
  {
    ds != [] ==> ds[|ds| - 1] != 0
  }

  function Tail(ds: seq<Digit>): string
  {
    if ds == [] then "" else "." + Letters(ds)
  }

  function TimestampKey(t: Timestamp): string
  {
    Padded(t.second + SHIFT, WIDTH) + Tail(Stripped(t.fraction))
  }

  // ---------------------------------------------------------------------------------------------
  // Lexical order
  // ---------------------------------------------------------------------------------------------

  predicate LexLess(a: string, b: string)
  {
    b != [] && (a == [] || a[0] < b[0] || (a[0] == b[0] && LexLess(a[1..], b[1..])))
  }

  lemma {:induction false} LexIsTotal(a: string, b: string)
    ensures !(LexLess(a, b) && LexLess(b, a))
    ensures a == b <==> !LexLess(a, b) && !LexLess(b, a)
    decreases |a|
  {
    if a != [] && b != [] {
      LexIsTotal(a[1..], b[1..]);
      assert a == [a[0]] + a[1..] && b == [b[0]] + b[1..];
    }
  }

  lemma {:induction false} LexIsTransitive(a: string, b: string, c: string)
    requires LexLess(a, b) && LexLess(b, c)
    ensures LexLess(a, c)
    decreases |a|
  {
    if a != [] && a[0] == b[0] == c[0] {
      LexIsTransitive(a[1..], b[1..], c[1..]);
    }
  }

  /** Texts that agree up to some point are ordered by what comes after it. */
  lemma {:induction false} LexAfterPrefix(p: string, a: string, b: string)
    ensures LexLess(p + a, p + b) <==> LexLess(a, b)
    decreases |p|
  {
    if p == [] {
      assert p + a == a && p + b == b;
    } else {
      assert (p + a)[1..] == p[1..] + a && (p + b)[1..] == p[1..] + b;
      LexAfterPrefix(p[1..], a, b);
    }
  }

  /** Texts of one length that differ decide the order whatever comes after them. */
  lemma {:induction false} LexByPrefix(p: string, q: string, a: string, b: string)
    requires |p| == |q| && p != q
    ensures LexLess(p + a, q + b) <==> LexLess(p, q)
    decreases |p|
  {
    assert (p + a)[1..] == p[1..] + a && (q + b)[1..] == q[1..] + b;
    if p[0] == q[0] {
      assert p == [p[0]] + p[1..] && q == [q[0]] + q[1..];
      LexByPrefix(p[1..], q[1..], a, b);
    }
  }

  // ---------------------------------------------------------------------------------------------
  // Whole seconds
  // ---------------------------------------------------------------------------------------------

  function Power(width: nat): nat
  {
    if width == 0 then 1 else 10 * Power(width - 1)
  }

  lemma {:induction false} PaddedOrder(m: nat, n: nat, width: nat)
    requires m < Power(width) && n < Power(width)
    ensures LexLess(Padded(m, width), Padded(n, width)) <==> m < n
    ensures Padded(m, width) == Padded(n, width) <==> m == n
    decreases width
  {
    if width > 0 {
      var p, q := Padded(m / 10, width - 1), Padded(n / 10, width - 1);
      PaddedOrder(m / 10, n / 10, width - 1);
      if m / 10 == n / 10 {
        LexAfterPrefix(p, [Letter(m % 10)], [Letter(n % 10)]);
        assert Padded(m, width)[width - 1] == Letter(m % 10) && Padded(n, width)[width - 1] == Letter(n % 10);
      } else {
        LexByPrefix(p, q, [Letter(m % 10)], [Letter(n % 10)]);
        assert Padded(m, width)[..width - 1] == p && Padded(n, width)[..width - 1] == q;
      }
    }
  }

  // ---------------------------------------------------------------------------------------------
  // Fractions
  // ---------------------------------------------------------------------------------------------

  function Fraction(ds: seq<Digit>): (f: real)
    ensures 0.0 <= f < 1.0
  {
    if ds == [] then 0.0 else (ds[0] as real + Fraction(ds[1..])) / 10.0
  }

  /** The instant in seconds. */
  function Instant(t: Stamp): real
  {
    t.second as real + Fraction(t.fraction)
  }

  lemma {:induction false} TrailingZeroIsNothing(ds: seq<Digit>)
    requires ds != [] && ds[|ds| - 1] == 0
    ensures Fraction(ds) == Fraction(ds[..|ds| - 1])
    decreases |ds|
  {
    if |ds| > 1 {
      TrailingZeroIsNothing(ds[1..]);
      assert ds[1..][..|ds| - 2] == ds[..|ds| - 1][1..];
    }
  }

  lemma {:induction false} StrippedKeepsFraction(ds: seq<Digit>)
    ensures Fraction(Stripped(ds)) == Fraction(ds)
    decreases |ds|
  {
    if ds != [] && ds[|ds| - 1] == 0 {
      TrailingZeroIsNothing(ds);
      StrippedKeepsFraction(ds[..|ds| - 1]);
    }
  }

  lemma {:induction false} TrimmedIsPositive(ds: seq<Digit>)
    requires ds != [] && Trimmed(ds)
    ensures Fraction(ds) > 0.0
    decreases |ds|
  {
    if |ds| > 1 {
      TrimmedIsPositive(ds[1..]);
    }
  }

  lemma LetterOrder(a: Digit, b: Digit)
    ensures Letter(a) < Letter(b) <==> a < b
    ensures Letter(a) == Letter(b) <==> a == b
  {
  }

  lemma FirstDigitDecides(a: Digit, b: Digit, f: real, g: real)
    requires 0.0 <= f < 1.0 && 0.0 <= g < 1.0
    ensures (a as real + f) / 10.0 < (b as real + g) / 10.0 <==> a < b || (a == b && f < g)
  {
  }

  lemma {:induction false} FractionOrder(x: seq<Digit>, y: seq<Digit>)
    requires Trimmed(x) && Trimmed(y)
    ensures LexLess(Letters(x), Letters(y)) <==> Fraction(x) < Fraction(y)
    decreases |x|
  {
    if y == [] {
    } else if x == [] {
      TrimmedIsPositive(y);
    } else {
      assert Letters(x)[1..] == Letters(x[1..]) && Letters(y)[1..] == Letters(y[1..]);
      FractionOrder(x[1..], y[1..]);
      LetterOrder(x[0], y[0]);
      FirstDigitDecides(x[0], y[0], Fraction(x[1..]), Fraction(y[1..]));
    }
  }

  lemma TailOrder(x: seq<Digit>, y: seq<Digit>)
    requires Trimmed(x) && Trimmed(y)
    ensures LexLess(Tail(x), Tail(y)) <==> Fraction(x) < Fraction(y)
  {
    if x != [] {
      TrimmedIsPositive(x);
    }
    if y != [] {
      TrimmedIsPositive(y);
    }
    if x != [] && y != [] {
      LexAfterPrefix(".", Letters(x), Letters(y));
      FractionOrder(x, y);
    }
  }

  // ---------------------------------------------------------------------------------------------
  // Keys
  // ---------------------------------------------------------------------------------------------

  lemma KeyBefore(a: Timestamp, b: Timestamp)
    ensures LexLess(TimestampKey(a), TimestampKey(b)) <==> Instant(a) < Instant(b)
  {
    var m, n := a.second + SHIFT, b.second + SHIFT;
    var x, y := Stripped(a.fraction), Stripped(b.fraction);
    assert Power(WIDTH) == 10000000000000;
    PaddedOrder(m, n, WIDTH);
    StrippedKeepsFraction(a.fraction);
    StrippedKeepsFraction(b.fraction);
    if m == n {
      LexAfterPrefix(Padded(m, WIDTH), Tail(x), Tail(y));
      TailOrder(x, y);
    } else {
      LexByPrefix(Padded(m, WIDTH), Padded(n, WIDTH), Tail(x), Tail(y));
    }
  }

  /** Keys order exactly as instants do, and time stamps of one instant share one key however their
      fractions are written. */
  lemma KeysOrderAsInstants(a: Timestamp, b: Timestamp)
    ensures LexLess(TimestampKey(a), TimestampKey(b)) <==> Instant(a) < Instant(b)
    ensures TimestampKey(a) == TimestampKey(b) <==> Instant(a) == Instant(b)
  {
    KeyBefore(a, b);
    KeyBefore(b, a);
    LexIsTotal(TimestampKey(a), TimestampKey(b));
  }

  // ---------------------------------------------------------------------------------------------
  // The calendar
  // ---------------------------------------------------------------------------------------------

  datatype Date = Date(year: nat, month: nat, day: nat)

  predicate Leap(year: nat)
  {
    year % 4 == 0 && (year % 100 != 0 || year % 400 == 0)
  }

  function DaysInMonth(year: nat, month: nat): nat
  {
    if month == 2 then (if Leap(year) then 29 else 28)
    else if month == 4 || month == 6 || month == 9 || month == 11 then 30
    else 31
  }

  predicate ValidDate(d: Date)
  {
    1 <= d.month <= 12 && 1 <= d.day <= DaysInMonth(d.year, d.month)
  }

  /** Days from the first day of year 0 to the first day of the year. */
  function DaysBeforeYear(year: nat): nat
  {
    365 * year + (year + 3) / 4 - (year + 99) / 100 + (year + 399) / 400
  }

  function DaysBeforeMonth(year: nat, month: nat): (days: nat)
    ensures days <= 31 * month
  {
    if month <= 1 then 0 else DaysBeforeMonth(year, month - 1) + DaysInMonth(year, month - 1)
  }

  const EPOCH_DAY := 719528

  /** Days since 1970-01-01. */
  function DayNumber(d: Date): int
  {
    DaysBeforeYear(d.year) + DaysBeforeMonth(d.year, d.month) + d.day - 1 - EPOCH_DAY
  }

  function NextDay(d: Date): Date
  {
    if d.day < DaysInMonth(d.year, d.month) then Date(d.year, d.month, d.day + 1)
    else if d.month < 12 then Date(d.year, d.month + 1, 1)
    else Date(d.year + 1, 1, 1)
  }

  lemma FourthYear(year: nat)
    ensures (year + 4) / 4 == (year + 3) / 4 + if year % 4 == 0 then 1 else 0
  {
  }

  lemma HundredthYear(year: nat)
    ensures (year + 100) / 100 == (year + 99) / 100 + if year % 100 == 0 then 1 else 0
    ensures (year + 400) / 400 == (year + 399) / 400 + if year % 400 == 0 then 1 else 0
  {
  }

  lemma CenturyIsFourthYear(year: nat)
    ensures year % 400 == 0 ==> year % 100 == 0
    ensures year % 100 == 0 ==> year % 4 == 0
  {
    if year % 100 == 0 {
      assert year == 4 * (25 * (year / 100));
    }
    if year % 400 == 0 {
      assert year == 100 * (4 * (year / 400));
    }
  }

  lemma YearLengthAt(year: nat)
    ensures 365 + (year + 4) / 4 - (year + 100) / 100 + (year + 400) / 400 ==
            (year + 3) / 4 - (year + 99) / 100 + (year + 399) / 400 + if Leap(year) then 366 else 365
  {
    FourthYear(year);
    HundredthYear(year);
    CenturyIsFourthYear(year);
  }

  lemma YearLength(year: nat)
    ensures DaysBeforeYear(year + 1) == DaysBeforeYear(year) + if Leap(year) then 366 else 365
  {
    YearLengthAt(year);
  }

  lemma MonthsMakeYear(year: nat)
    ensures DaysBeforeMonth(year, 12) + 31 == if Leap(year) then 366 else 365
  {
    var february := DaysInMonth(year, 2);
    assert DaysBeforeMonth(year, 2) == 31 && DaysBeforeMonth(year, 4) == 62 + february;
    assert DaysBeforeMonth(year, 6) == 123 + february && DaysBeforeMonth(year, 8) == 184 + february;
    assert DaysBeforeMonth(year, 10) == 245 + february && DaysBeforeMonth(year, 12) == 306 + february;
  }

  lemma EpochIsDayZero()
    ensures DayNumber(Date(1970, 1, 1)) == 0
  {
  }

  /** Day numbers count the days of the calendar one by one, from 0 at the epoch. */
  lemma DayNumbersCountDays(d: Date)
    requires ValidDate(d)
    ensures ValidDate(NextDay(d)) && DayNumber(NextDay(d)) == DayNumber(d) + 1
    ensures DayNumber(Date(1970, 1, 1)) == 0
  {
    EpochIsDayZero();
    if d.day == DaysInMonth(d.year, d.month) && d.month == 12 {
      YearLength(d.year);
      MonthsMakeYear(d.year);
    }
  }

  // ---------------------------------------------------------------------------------------------
  // Reading a time stamp
  // ---------------------------------------------------------------------------------------------

  const POINT: Unit := 0x2E
  const PLUS: Unit := 0x2B
  const LETTER_T: Unit := 0x54
  const LETTER_Z: Unit := 0x5A

  predicate DigitsAt(t: Text, i: nat, n: nat)
  {
    i + n <= |t| && forall k :: i <= k < i + n ==> IsDigit(t[k])
  }

  function DigitAt(t: Text, i: nat): Digit
    requires DigitsAt(t, i, 1)
  {
    t[i] - 0x30
  }

  function TwoAt(t: Text, i: nat): (n: nat)
    requires DigitsAt(t, i, 2)
    ensures n < 100
  {
    10 * (DigitAt(t, i) as int) + DigitAt(t, i + 1) as int
  }

  /** YYYY-MM-DDThh:mm:ss */
  predicate DateTimeShape(t: Text)
  {
    && DigitsAt(t, 0, 4) && DigitsAt(t, 5, 2) && DigitsAt(t, 8, 2)
    && DigitsAt(t, 11, 2) && DigitsAt(t, 14, 2) && DigitsAt(t, 17, 2)
    && t[4] == MINUS && t[7] == MINUS && t[10] == LETTER_T && t[13] == COLON && t[16] == COLON
  }

  function DateOf(t: Text): (d: Date)
    requires DateTimeShape(t)
    ensures d.year <= 9999
  {
    Date(100 * TwoAt(t, 0) + TwoAt(t, 2), TwoAt(t, 5), TwoAt(t, 8))
  }

  /** How many digits follow at `i`. */
  function DigitSpan(t: Text, i: nat): (n: nat)
    requires i <= |t|
    ensures DigitsAt(t, i, n)
    decreases |t| - i
  {
    if i < |t| && IsDigit(t[i]) then 1 + DigitSpan(t, i + 1) else 0
  }

  /** Z, +hh:mm or +hhmm: the minutes by which the local time is ahead. */
  function ZoneMinutes(z: Text): (r: Option<int>)
    ensures r.Some? ==> -1440 < r.value < 1440
  {
    if z == [LETTER_Z] then Some(0)
    else
      var at := if |z| == 6 && z[3] == COLON then 4 else 3;
      if |z| != at + 2 || (z[0] != PLUS && z[0] != MINUS) || !DigitsAt(z, 1, 2) || !DigitsAt(z, at, 2) then None
      else if TwoAt(z, 1) > 23 || TwoAt(z, at) > 59 then None
      else
        var minutes := 60 * TwoAt(z, 1) + TwoAt(z, at);
        Some(if z[0] == PLUS then minutes else -minutes)
  }

  lemma DayNumberFits(d: Date)
    requires ValidDate(d) && d.year <= 9999
    ensures -EPOCH_DAY <= DayNumber(d) <= 2932896
  {
    MonthsMakeYear(d.year);
    YearLength(d.year);
    YearEnds(d);
  }

  lemma {:induction false} MonthsAdvance(year: nat, m: nat, n: nat)
    requires 1 <= m <= n
    ensures n == m || DaysBeforeMonth(year, m) + DaysInMonth(year, m) <= DaysBeforeMonth(year, n)
    decreases n
  {
    if m < n - 1 {
      MonthsAdvance(year, m, n - 1);
    }
  }

  /** A date lies before the next year begins. */
  lemma YearEnds(d: Date)
    requires ValidDate(d)
    ensures DayNumber(d) < DaysBeforeYear(d.year + 1) - EPOCH_DAY
  {
    YearLength(d.year);
    MonthsMakeYear(d.year);
    MonthsAdvance(d.year, d.month, 12);
  }

  /** The second since the epoch; it always fits the key's thirteen digits. */
  function SecondOf(d: Date, hour: nat, minute: nat, second: nat, zone: int): (n: int)
    requires ValidDate(d) && d.year <= 9999 && hour <= 23 && minute <= 59 && second <= 59 && -1440 < zone < 1440
    ensures FIRST_SECOND <= n <= LAST_SECOND
  {
    DayNumberFits(d);
    86400 * DayNumber(d) + 3600 * hour + 60 * minute + second - 60 * zone
  }

  function FractionAt(t: Text, i: nat, n: nat): seq<Digit>
    requires DigitsAt(t, i, n)
    decreases n
  {
    if n == 0 then [] else [DigitAt(t, i)] + FractionAt(t, i + 1, n - 1)
  }

  /** A canonical time stamp, or nothing. */
  function ParseStamp(t: Text): Option<Timestamp>
  {
    if !DateTimeShape(t) then None
    else
      var d, h, m, s := DateOf(t), TwoAt(t, 11), TwoAt(t, 14), TwoAt(t, 17);
      var digits := if |t| > 19 && t[19] == POINT then DigitSpan(t, 20) else 0;
      var zone := ZoneMinutes(if digits > 0 then t[20 + digits..] else t[19..]);
      if !ValidDate(d) || h > 23 || m > 59 || s > 59 || zone.None? then None
      else Some(Stamp(SecondOf(d, h, m, s, zone.value), if digits > 0 then FractionAt(t, 20, digits) else []))
  }

  /** Date.parse: milliseconds, later digits cut off. */
  function Millis(t: Stamp): int
  {
    var f := t.fraction;
    1000 * t.second + (if |f| > 0 then 100 * (f[0] as int) else 0) + (if |f| > 1 then 10 * (f[1] as int) else 0) +
    (if |f| > 2 then f[2] as int else 0)
  }
}
