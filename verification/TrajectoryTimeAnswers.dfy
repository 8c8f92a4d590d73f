/** Which texts are time stamps and what instant each of them names; what keys and milliseconds say of it.
 */
module TrajectoryTimeAnswers {
  import opened JsonText
  import opened TrajectoryTime
  import opened Wrappers

  // ---------------------------------------------------------------------------------------------
  // How a time stamp is written
  // ---------------------------------------------------------------------------------------------

  datatype Zone = Zulu | Offset(ahead: bool, hours: nat, minutes: nat, colon: bool)

  datatype Parts = Parts(date: Date, hour: nat, minute: nat, second: nat, fraction: seq<Digit>, zone: Zone)

  predicate ZoneOk(z: Zone)
  {
    z.Offset? ==> z.hours < 24 && z.minutes < 60
  }

  /** A day of the calendar in a year of four digits, a time of that day, and an offset below a day. */
  predicate PartsOk(p: Parts)
  {
    ValidDate(p.date) && p.date.year <= 9999 && p.hour < 24 && p.minute < 60 && p.second < 60 && ZoneOk(p.zone)
  }

  function DigitUnit(d: nat): Unit
    requires d < 10
  {
    0x30 + d
  }

  function DigitUnits(ds: seq<Digit>): (t: Text)
    ensures |t| == |ds| && forall i :: 0 <= i < |ds| ==> t[i] == DigitUnit(ds[i])
  {
    seq(|ds|, i requires 0 <= i < |ds| => DigitUnit(ds[i]))
  }

  /** YYYY-MM-DDThh:mm:ss */
  function Head(p: Parts): (t: Text)
    requires PartsOk(p)
    ensures |t| == 19
  {
    var y := p.date.year;
    [DigitUnit(y / 1000), DigitUnit(y / 100 % 10), DigitUnit(y / 10 % 10), DigitUnit(y % 10), 0x2D,
     DigitUnit(p.date.month / 10), DigitUnit(p.date.month % 10), 0x2D,
     DigitUnit(p.date.day / 10), DigitUnit(p.date.day % 10), 0x54,
     DigitUnit(p.hour / 10), DigitUnit(p.hour % 10), 0x3A,
     DigitUnit(p.minute / 10), DigitUnit(p.minute % 10), 0x3A,
     DigitUnit(p.second / 10), DigitUnit(p.second % 10)]
  }

  function FractionText(ds: seq<Digit>): Text
  {
    if ds == [] then [] else [0x2E] + DigitUnits(ds)
  }

  /** Z, or a sign, hours and minutes, with or without a colon. */
  function ZoneText(z: Zone): (t: Text)
    requires ZoneOk(z)
    ensures t != [] && !IsDigit(t[0]) && t[0] != 0x2E
  {
    match z
    case Zulu => [0x5A]
    case Offset(ahead, h, m, colon) =>
      [if ahead then 0x2B else 0x2D, DigitUnit(h / 10), DigitUnit(h % 10)] + (if colon then [0x3A] else []) +
      [DigitUnit(m / 10), DigitUnit(m % 10)]
  }

  function Written(p: Parts): Text
    requires PartsOk(p)
  {
    Head(p) + FractionText(p.fraction) + ZoneText(p.zone)
  }

  /** Seconds since the epoch, in universal time. */
  function SecondsOf(p: Parts): int
    requires PartsOk(p)
  {
    86400 * DayNumber(p.date) + 3600 * p.hour + 60 * p.minute + p.second - 60 * Ahead(p.zone)
  }

  /** By how many minutes the zone is ahead of universal time. */
  function Ahead(z: Zone): int
  {
    match z
    case Zulu => 0
    case Offset(ahead, h, m, _) => if ahead then 60 * h + m else -(60 * h + m)
  }

  // ---------------------------------------------------------------------------------------------
  // Date and time of day
  // ---------------------------------------------------------------------------------------------

  lemma TwoDigits(n: nat)
    requires n < 100
    ensures n / 10 < 10 && 10 * (n / 10) + n % 10 == n
  {
  }

  lemma YearDigits(y: nat)
    requires y <= 9999
    ensures y / 1000 < 10 && 100 * (10 * (y / 1000) + y / 100 % 10) + (10 * (y / 10 % 10) + y % 10) == y
  {
  }

  lemma HeadHasShape(p: Parts, rest: Text)
    requires PartsOk(p)
    ensures DateTimeShape(Head(p) + rest)
  {
    var t, h := Head(p) + rest, Head(p);
    assert forall i :: 0 <= i < 19 ==> t[i] == h[i];
  }

  lemma HeadReads(p: Parts, rest: Text)
    requires PartsOk(p) && DateTimeShape(Head(p) + rest)
    ensures var t := Head(p) + rest;
            DateOf(t) == p.date && TwoAt(t, 11) == p.hour && TwoAt(t, 14) == p.minute && TwoAt(t, 17) == p.second
  {
    var t, h := Head(p) + rest, Head(p);
    assert forall i :: 0 <= i < 19 ==> t[i] == h[i];
    YearDigits(p.date.year);
    TwoDigits(p.date.month);
    TwoDigits(p.date.day);
    TwoDigits(p.hour);
    TwoDigits(p.minute);
    TwoDigits(p.second);
  }

  lemma TwoUnits(t: Text, i: nat)
    requires DigitsAt(t, i, 2)
    ensures t[i] == DigitUnit(TwoAt(t, i) / 10) && t[i + 1] == DigitUnit(TwoAt(t, i) % 10)
  {
  }

  lemma YearUnits(a: nat, b: nat)
    requires a < 100 && b < 100
    ensures var y := 100 * a + b;
            y / 1000 == a / 10 && y / 100 % 10 == a % 10 && y / 10 % 10 == b / 10 && y % 10 == b % 10
  {
  }

  lemma HeadIsWritten(t: Text, p: Parts)
    requires DateTimeShape(t) && PartsOk(p) && p.date == DateOf(t)
    requires p.hour == TwoAt(t, 11) && p.minute == TwoAt(t, 14) && p.second == TwoAt(t, 17)
    ensures t[..19] == Head(p)
  {
    TwoUnits(t, 0);
    TwoUnits(t, 2);
    YearUnits(TwoAt(t, 0), TwoAt(t, 2));
    TwoUnits(t, 5);
    TwoUnits(t, 8);
    TwoUnits(t, 11);
    TwoUnits(t, 14);
    TwoUnits(t, 17);
    var h := Head(p);
    assert h[0] == t[0] && h[1] == t[1] && h[2] == t[2] && h[3] == t[3] && h[4] == t[4] && h[5] == t[5];
    assert h[6] == t[6] && h[7] == t[7] && h[8] == t[8] && h[9] == t[9] && h[10] == t[10] && h[11] == t[11];
    assert h[12] == t[12] && h[13] == t[13] && h[14] == t[14] && h[15] == t[15] && h[16] == t[16];
    assert h[17] == t[17] && h[18] == t[18];
  }

  // ---------------------------------------------------------------------------------------------
  // Fraction and zone
  // ---------------------------------------------------------------------------------------------

  lemma {:induction false} SpanIsLongest(t: Text, i: nat, n: nat)
    requires DigitsAt(t, i, n) && (i + n == |t| || !IsDigit(t[i + n]))
    ensures DigitSpan(t, i) == n
    decreases n
  {
    if n > 0 {
      SpanIsLongest(t, i + 1, n - 1);
    }
  }

  lemma {:induction false} SpanEnds(t: Text, i: nat)
    requires i <= |t|
    ensures i + DigitSpan(t, i) == |t| || !IsDigit(t[i + DigitSpan(t, i)])
    decreases |t| - i
  {
    if i < |t| && IsDigit(t[i]) {
      SpanEnds(t, i + 1);
    }
  }

  lemma {:induction false} FractionReads(t: Text, i: nat, ds: seq<Digit>)
    requires DigitsAt(t, i, |ds|) && forall k :: 0 <= k < |ds| ==> t[i + k] == DigitUnit(ds[k])
    ensures FractionAt(t, i, |ds|) == ds
    decreases |ds|
  {
    if ds != [] {
      assert forall k :: 0 <= k < |ds[1..]| ==> t[i + 1 + k] == DigitUnit(ds[1..][k]);
      FractionReads(t, i + 1, ds[1..]);
    }
  }

  lemma {:induction false} FractionIsWritten(t: Text, i: nat, n: nat)
    requires DigitsAt(t, i, n)
    ensures |FractionAt(t, i, n)| == n && DigitUnits(FractionAt(t, i, n)) == t[i..i + n]
    decreases n
  {
    if n > 0 {
      FractionIsWritten(t, i + 1, n - 1);
      var rest := FractionAt(t, i + 1, n - 1);
      assert FractionAt(t, i, n) == [DigitAt(t, i)] + rest;
      assert DigitUnits([DigitAt(t, i)] + rest) == [t[i]] + DigitUnits(rest);
      assert t[i..i + n] == [t[i]] + t[i + 1..i + n];
    }
  }

  lemma ZoneReads(z: Zone)
    requires ZoneOk(z)
    ensures ZoneMinutes(ZoneText(z)) == Some(Ahead(z))
  {
    if z.Offset? {
      var t := ZoneText(z);
      TwoDigits(z.hours);
      TwoDigits(z.minutes);
      var at := if z.colon then 4 else 3;
      assert |t| == at + 2 && t[at] == DigitUnit(z.minutes / 10) && t[at + 1] == DigitUnit(z.minutes % 10);
      assert t[1] == DigitUnit(z.hours / 10) && t[2] == DigitUnit(z.hours % 10);
      assert TwoAt(t, 1) == z.hours && TwoAt(t, at) == z.minutes;
    }
  }

  lemma ZoneIsWritten(t: Text) returns (z: Zone)
    requires ZoneMinutes(t).Some?
    ensures ZoneOk(z) && ZoneText(z) == t
  {
    if t == [LETTER_Z] {
      z := Zulu;
    } else {
      var colon := |t| == 6 && t[3] == COLON;
      var at := if colon then 4 else 3;
      TwoUnits(t, 1);
      TwoUnits(t, at);
      z := Offset(t[0] == PLUS, TwoAt(t, 1), TwoAt(t, at), colon);
      assert ZoneText(z) == t;
    }
  }

  // ---------------------------------------------------------------------------------------------
  // Time stamps
  // ---------------------------------------------------------------------------------------------

  lemma NoFractionReads(h: Text, z: Text)
    requires |h| == 19 && z != [] && z[0] != POINT
    ensures var t := h + [] + z; t[19..] == z && t[19] != POINT
  {
  }

  lemma Layout(h: Text, u: Text, z: Text)
    requires |h| == 19 && z != []
    ensures var t, n := h + ([POINT] + u) + z, |u|;
            && t[19] == POINT && (forall k :: 0 <= k < n ==> t[20 + k] == u[k])
            && t[20 + n..] == z && t[20 + n] == z[0]
  {
    var t := h + ([POINT] + u) + z;
    assert t == h + [POINT] + u + z;
  }

  lemma DigitsOfUnits(t: Text, i: nat, ds: seq<Digit>)
    requires i + |ds| <= |t| && forall k :: 0 <= k < |ds| ==> t[i + k] == DigitUnits(ds)[k]
    ensures DigitsAt(t, i, |ds|) && FractionAt(t, i, |ds|) == ds
  {
    forall k | i <= k < i + |ds| ensures IsDigit(t[k]) {
      assert t[i + (k - i)] == DigitUnits(ds)[k - i];
    }
    forall k | 0 <= k < |ds| ensures t[i + k] == DigitUnit(ds[k]) {
      assert t[i + k] == DigitUnits(ds)[k];
    }
    FractionReads(t, i, ds);
  }

  lemma FractionThenZone(h: Text, ds: seq<Digit>, z: Text)
    requires |h| == 19 && ds != [] && z != [] && !IsDigit(z[0])
    ensures var t, n := h + FractionText(ds) + z, |ds|;
            && t[19] == POINT && DigitsAt(t, 20, n) && DigitSpan(t, 20) == n
            && FractionAt(t, 20, n) == ds && t[20 + n..] == z
  {
    var t, n := h + FractionText(ds) + z, |ds|;
    Layout(h, DigitUnits(ds), z);
    DigitsOfUnits(t, 20, ds);
    SpanIsLongest(t, 20, n);
  }

  lemma RestReads(p: Parts)
    requires PartsOk(p)
    ensures var t := Written(p);
            var digits := if |t| > 19 && t[19] == POINT then DigitSpan(t, 20) else 0;
            && digits == |p.fraction| && t[if digits > 0 then 20 + digits else 19..] == ZoneText(p.zone)
            && (digits > 0 ==> DigitsAt(t, 20, digits) && FractionAt(t, 20, digits) == p.fraction)
  {
    if p.fraction == [] {
      NoFractionReads(Head(p), ZoneText(p.zone));
    } else {
      FractionThenZone(Head(p), p.fraction, ZoneText(p.zone));
    }
  }

  /** Every date, time, fraction and offset, written out, is read as the instant that it names, with all of
      its digits. */
  lemma WrittenStampIsRead(p: Parts)
    requires PartsOk(p)
    ensures var stamp := ParseStamp(Written(p));
            stamp.Some? && stamp.value.second == SecondsOf(p) && stamp.value.fraction == p.fraction
  {
    var rest := FractionText(p.fraction) + ZoneText(p.zone);
    assert Written(p) == Head(p) + rest;
    HeadHasShape(p, rest);
    HeadReads(p, rest);
    RestReads(p);
    ZoneReads(p.zone);
  }

  lemma ThreeParts(t: Text, n: nat, a: Text, b: Text, c: Text)
    requires 19 <= n <= |t| && t[..19] == a && t[19..n] == b && t[n..] == c
    ensures t == a + b + c
  {
  }

  lemma FractionIsRead(t: Text, n: nat)
    requires |t| > 19 && t[19] == POINT && n > 0 && DigitsAt(t, 20, n)
    ensures t[19..20 + n] == FractionText(FractionAt(t, 20, n))
  {
    FractionIsWritten(t, 20, n);
    assert t[19..20 + n] == [0x2E] + t[20..20 + n];
  }

  /** And nothing else is read. */
  lemma ReadStampIsWritten(t: Text) returns (p: Parts)
    requires ParseStamp(t).Some?
    ensures PartsOk(p) && Written(p) == t
  {
    var digits := if |t| > 19 && t[19] == POINT then DigitSpan(t, 20) else 0;
    var at := if digits > 0 then 20 + digits else 19;
    var zone := ZoneIsWritten(t[at..]);
    var fraction := [];
    if digits > 0 {
      fraction := FractionAt(t, 20, digits);
      FractionIsRead(t, digits);
    }
    p := Parts(DateOf(t), TwoAt(t, 11), TwoAt(t, 14), TwoAt(t, 17), fraction, zone);
    HeadIsWritten(t, p);
    ThreeParts(t, at, Head(p), FractionText(fraction), ZoneText(zone));
  }

  // ---------------------------------------------------------------------------------------------
  // The calendar
  // ---------------------------------------------------------------------------------------------

  /** The lengths of the months in the Gregorian calendar. */
  lemma MonthLengths(year: nat, month: nat)
    requires 1 <= month <= 12
    ensures var leap := (year % 4 == 0 && year % 100 != 0) || year % 400 == 0;
            DaysInMonth(year, month) == [31, if leap then 29 else 28, 31, 30, 31, 30, 31, 31, 30, 31, 30, 31][month - 1]
  {
    CenturyIsFourthYear(year);
  }

  // ---------------------------------------------------------------------------------------------
  // Keys and milliseconds
  // ---------------------------------------------------------------------------------------------

  /** The number that decimal digits write. */
  function NumeralValue(s: string): int
  {
    if s == "" then 0 else 10 * NumeralValue(s[..|s| - 1]) + (s[|s| - 1] as int - '0' as int)
  }

  lemma AppendDigit(s: string, d: Digit)
    ensures NumeralValue(s + [Letter(d)]) == 10 * NumeralValue(s) + d as int && '0' <= Letter(d) <= '9'
  {
    assert (s + [Letter(d)])[..|s|] == s;
  }

  lemma {:induction false} PaddedWrites(n: nat, width: nat)
    requires n < Power(width)
    ensures NumeralValue(Padded(n, width)) == n
    ensures forall i :: 0 <= i < width ==> '0' <= Padded(n, width)[i] <= '9'
    decreases width
  {
    if width > 0 {
      PaddedWrites(n / 10, width - 1);
      AppendDigit(Padded(n / 10, width - 1), n % 10);
    }
  }

  /** A key is the second, moved up by 10^12 and written with 13 digits, and the digits of the fraction after
      a point, up to the last that is not zero; without such a digit there is no point. */
  lemma KeyIsWritten(t: Timestamp)
    ensures var key, f := TimestampKey(t), Stripped(t.fraction);
            && |key| >= 13 && (forall i :: 0 <= i < 13 ==> '0' <= key[i] <= '9')
            && NumeralValue(key[..13]) == t.second + 1000000000000
            && |key| == 13 + (if f == [] then 0 else 1 + |f|)
            && (f != [] ==> key[13] == '.' && forall k :: 0 <= k < |f| ==> key[14 + k] == "0123456789"[f[k]])
            && f <= t.fraction && (forall k :: |f| <= k < |t.fraction| ==> t.fraction[k] == 0)
            && (f != [] ==> f[|f| - 1] != 0)
  {
    assert Power(13) == 10000000000000;
    PaddedWrites(t.second + SHIFT, 13);
    assert TimestampKey(t)[..13] == Padded(t.second + SHIFT, 13);
    StrippedIsPrefix(t.fraction);
  }

  lemma {:induction false} StrippedIsPrefix(ds: seq<Digit>)
    ensures Stripped(ds) <= ds && forall k :: |Stripped(ds)| <= k < |ds| ==> ds[k] == 0
    decreases |ds|
  {
    if ds != [] && ds[|ds| - 1] == 0 {
      StrippedIsPrefix(ds[..|ds| - 1]);
    }
  }

  lemma ThreeDigits(a: Digit, b: Digit, c: Digit, f: real, g: real, h: real, rest: real)
    requires f == (a as real + g) / 10.0 && g == (b as real + h) / 10.0 && h == (c as real + rest) / 10.0
    requires 0.0 <= rest < 1.0
    ensures var n := 100 * (a as int) + 10 * (b as int) + (c as int);
            n as real <= 1000.0 * f < n as real + 1.0
  {
  }

  /** Milliseconds are the instant rounded down to the millisecond. */
  lemma MillisRoundDown(t: Stamp)
    ensures Millis(t) as real <= 1000.0 * Instant(t) < Millis(t) as real + 1.0
  {
    var f := t.fraction;
    var a := if |f| > 0 then f[0] else 0;
    var b := if |f| > 1 then f[1] else 0;
    var c := if |f| > 2 then f[2] else 0;
    var g := if |f| > 0 then Fraction(f[1..]) else 0.0;
    var h := if |f| > 1 then Fraction(f[1..][1..]) else 0.0;
    var rest := if |f| > 2 then Fraction(f[1..][1..][1..]) else 0.0;
    ThreeDigits(a, b, c, Fraction(f), g, h, rest);
  }
}
