/** Timestamps as the daemon writes them (iso8601 in daemon/policy/policy.go and its copies): UTC, fixed width,
    zero padded, truncated to the millisecond. Expiry checks, canary evidence and page cursors compare these
    strings; here is why that compares times. */
module Timestamps {
  import opened Decimal

  /** A point in time, broken down in UTC. */
  datatype Utc = Utc(year: nat, month: nat, day: nat, hour: nat, minute: nat, second: nat, nanos: nat)

  predicate IsLeap(y: nat) {
    y % 4 == 0 && (y % 100 != 0 || y % 400 == 0)
  }

  function DaysIn(y: nat, m: nat): (d: nat)
    ensures 28 <= d <= 31
  {
    if m == 2 then (if IsLeap(y) then 29 else 28)
    else if m == 4 || m == 6 || m == 9 || m == 11 then 30
    else 31
  }

  predicate Valid(t: Utc) {
    && 1 <= t.month <= 12 && 1 <= t.day <= DaysIn(t.year, t.month)
    && t.hour < 24 && t.minute < 60 && t.second < 60 && t.nanos < 1_000_000_000
  }

  /** Days from the start of year 0 to the start of year `y`. */
  function DaysBeforeYear(y: nat): nat {
    if y == 0 then 0 else DaysBeforeYear(y - 1) + if IsLeap(y - 1) then 366 else 365
  }

  /** Days from the start of the year to the start of month `m`. */
  function DaysBeforeMonth(y: nat, m: nat): nat {
    if m <= 1 then 0 else DaysBeforeMonth(y, m - 1) + DaysIn(y, m - 1)
  }

  function DayNumber(t: Utc): int {
    DaysBeforeYear(t.year) + DaysBeforeMonth(t.year, t.month) + t.day - 1
  }

  /** Whole milliseconds since the start of year 0: what is left of the time after truncation. */
  function Millis(t: Utc): int {
    (((DayNumber(t) * 24 + t.hour) * 60 + t.minute) * 60 + t.second) * 1000 + t.nanos / 1_000_000
  }

  /** The numbers the layout 2006-01-02T15:04:05.000Z writes. */
  function Fields(t: Utc): (f: seq<nat>)
    ensures |f| == 7
  {
    [t.year, t.month, t.day, t.hour, t.minute, t.second, t.nanos / 1_000_000]
  }

  const LAYOUT := [(4, "-"), (2, "-"), (2, "T"), (2, ":"), (2, ":"), (2, "."), (3, "Z")]

  function Format(t: Utc): string {
    Render(Fields(t), LAYOUT)
  }

  // ---- the calendar ------------------------------------------------------------------------------------

  lemma {:induction false} MonthsAdvance(y: nat, m: nat, n: nat)
    requires 1 <= m < n <= 12
    ensures DaysBeforeMonth(y, m) + DaysIn(y, m) <= DaysBeforeMonth(y, n)
    decreases n
  {
    if m < n - 1 {
      MonthsAdvance(y, m, n - 1);
    }
  }

  lemma YearLength(y: nat)
    ensures DaysBeforeMonth(y, 12) + DaysIn(y, 12) == if IsLeap(y) then 366 else 365
  {
    assert DaysBeforeMonth(y, 2) == 31;
    var feb := DaysIn(y, 2);
    assert DaysBeforeMonth(y, 4) == 62 + feb;
    assert DaysBeforeMonth(y, 6) == 123 + feb;
    assert DaysBeforeMonth(y, 8) == 184 + feb;
    assert DaysBeforeMonth(y, 10) == 245 + feb;
    assert DaysBeforeMonth(y, 12) == 306 + feb;
  }

  lemma {:induction false} YearsAdvance(y: nat, z: nat)
    requires y < z
    ensures DaysBeforeYear(y) + (if IsLeap(y) then 366 else 365) <= DaysBeforeYear(z)
    decreases z
  {
    if y < z - 1 {
      YearsAdvance(y, z - 1);
    }
  }

  predicate DateLess(s: Utc, t: Utc) {
    || s.year < t.year
    || (s.year == t.year && (s.month < t.month || (s.month == t.month && s.day < t.day)))
  }

  predicate SameDate(s: Utc, t: Utc) {
    s.year == t.year && s.month == t.month && s.day == t.day
  }

  lemma EarlierDatesCountLess(s: Utc, t: Utc)
    requires Valid(s) && Valid(t) && DateLess(s, t)
    ensures DayNumber(s) < DayNumber(t)
  {
    if s.year < t.year {
      YearsAdvance(s.year, t.year);
      YearLength(s.year);
      if s.month < 12 { MonthsAdvance(s.year, s.month, 12); }
    } else if s.month < t.month {
      MonthsAdvance(s.year, s.month, t.month);
    }
  }

  // ---- the order ---------------------------------------------------------------------------------------

  /** After the date, the fields of the clock. */
  predicate ClockLess(s: Utc, t: Utc) {
    || s.hour < t.hour
    || (s.hour == t.hour &&
        (s.minute < t.minute || (s.minute == t.minute &&
         (s.second < t.second || (s.second == t.second && s.nanos / 1_000_000 < t.nanos / 1_000_000)))))
  }

  lemma FieldsDecide(s: Utc, t: Utc)
    ensures FirstLess(Fields(s), Fields(t)) <==> DateLess(s, t) || (SameDate(s, t) && ClockLess(s, t))
  {
    var a, b := Fields(s), Fields(t);
    assert a[1..][1..][1..] == a[3..] && b[1..][1..][1..] == b[3..];
    assert a[3..][1..][1..][1..] == [a[6]] && b[3..][1..][1..][1..] == [b[6]];
    assert FirstLess([a[6]], [b[6]]) <==> a[6] < b[6];
    assert FirstLess(a[3..][1..][1..], b[3..][1..][1..]) <==> a[5] < b[5] || (a[5] == b[5] && a[6] < b[6]);
    assert FirstLess(a[3..], b[3..]) <==> ClockLess(s, t);
    assert FirstLess(a[1..][1..], b[1..][1..]) <==> a[2] < b[2] || (a[2] == b[2] && ClockLess(s, t));
    assert FirstLess(a[1..], b[1..]) <==> a[1] < b[1] || (a[1] == b[1] && FirstLess(a[1..][1..], b[1..][1..]));
    assert FirstLess(a, b) <==> a[0] < b[0] || (a[0] == b[0] && FirstLess(a[1..], b[1..]));
  }

  lemma EarlierCountsLess(s: Utc, t: Utc)
    requires Valid(s) && Valid(t)
    requires DateLess(s, t) || (SameDate(s, t) && ClockLess(s, t))
    ensures Millis(s) < Millis(t)
  {
    if DateLess(s, t) {
      EarlierDatesCountLess(s, t);
    }
  }

  lemma YearFits(t: Utc)
    requires Valid(t) && t.year <= 9999
    ensures Fits(Fields(t), LAYOUT)
  {
    assert Pow10(2) == 100 && Pow10(3) == 1000 && Pow10(4) == 10_000;
  }

  /** For years 0 to 9999 comparing two timestamp strings compares the times to the millisecond, in the real
      calendar: earlier, equal and later all agree. */
  lemma LexIsChronological(s: Utc, t: Utc)
    requires Valid(s) && Valid(t) && s.year <= 9999 && t.year <= 9999
    ensures Less(Format(s), Format(t)) <==> Millis(s) < Millis(t)
    ensures Format(s) == Format(t) <==> Millis(s) == Millis(t)
  {
    YearFits(s);
    YearFits(t);
    RenderKeepsOrder(Fields(s), Fields(t), LAYOUT);
    FieldsDecide(s, t);
    if FirstLess(Fields(s), Fields(t)) {
      EarlierCountsLess(s, t);
    } else if Fields(s) != Fields(t) {
      EarlierCountsLess(t, s);
    }
  }

  // ---- the text ----------------------------------------------------------------------------------------

  lemma Offsets()
    ensures Offset(LAYOUT, 0) == 0 && Offset(LAYOUT, 1) == 5 && Offset(LAYOUT, 2) == 8 && Offset(LAYOUT, 3) == 11
    ensures Offset(LAYOUT, 4) == 14 && Offset(LAYOUT, 5) == 17 && Offset(LAYOUT, 6) == 20 && Offset(LAYOUT, 7) == 24
  {
    OffsetOfNext(LAYOUT, 0);
    OffsetOfNext(LAYOUT, 1);
    OffsetOfNext(LAYOUT, 2);
    OffsetOfNext(LAYOUT, 3);
    OffsetOfNext(LAYOUT, 4);
    OffsetOfNext(LAYOUT, 5);
    OffsetOfNext(LAYOUT, 6);
  }

  /** From here to there the text is this number. */
  predicate Reads(s: string, from: nat, to: nat, n: nat) {
    from <= to <= |s| && IsNumeral(s[from..to], n)
  }

  lemma FieldReadsBack(t: Utc, k: nat)
    requires Valid(t) && t.year <= 9999 && k < 7
    ensures var (s, from) := (Format(t), Offset(LAYOUT, k));
      && |s| == 24 && Reads(s, from, from + LAYOUT[k].0, Fields(t)[k])
      && from + LAYOUT[k].0 < 24 && [s[from + LAYOUT[k].0]] == LAYOUT[k].1
  {
    YearFits(t);
    Offsets();
    ValuesReadBack(Fields(t), LAYOUT, k);
    RestFits(Fields(t), LAYOUT);
    OffsetOfNext(LAYOUT, k);
  }

  /** For years 0 to 9999 the text is 24 characters in the one layout, from which every field, to the millisecond, reads
      back. */
  lemma ReadsBack(t: Utc)
    requires Valid(t) && t.year <= 9999
    ensures var s := Format(t);
      && |s| == 24 && s[4] == '-' && s[7] == '-' && s[10] == 'T' && s[13] == ':' && s[16] == ':' && s[19] == '.' && s[23] == 'Z'
      && Reads(s, 0, 4, t.year) && Reads(s, 5, 7, t.month) && Reads(s, 8, 10, t.day)
      && Reads(s, 11, 13, t.hour) && Reads(s, 14, 16, t.minute) && Reads(s, 17, 19, t.second)
      && Reads(s, 20, 23, t.nanos / 1_000_000)
  {
    Offsets();
    FieldReadsBack(t, 0);
    FieldReadsBack(t, 1);
    FieldReadsBack(t, 2);
    FieldReadsBack(t, 3);
    FieldReadsBack(t, 4);
    FieldReadsBack(t, 5);
    FieldReadsBack(t, 6);
  }

  // ---- beyond year 9999 --------------------------------------------------------------------------------

  /** The first four digits of a year. */
  function Leading(y: nat): (n: nat)
    ensures n <= 9999
  {
    if y <= 9999 then y else Leading(y / 10)
  }

  /** Padding does nothing to a number that is long enough. */
  lemma {:induction false} LongEnough(n: nat, width: nat)
    requires n >= Pow10(width)
    ensures Pad(n, width) == Pad(n, width + 1)
    decreases width
  {
    if width > 0 {
      LongEnough(n / 10, width - 1);
    }
  }

  lemma {:induction false} LeadingDigits(y: nat)
    requires y >= 10_000
    ensures |Pad(y, 4)| > 4 && Pad(y, 4)[..4] == Pad(Leading(y), 4)
    decreases y
  {
    assert Pow10(3) == 1000 && Pow10(4) == 10_000;
    LongEnough(y / 10, 3);
    assert Pad(y, 4) == Pad(y / 10, 4) + [Digit(y % 10)];
    if y / 10 >= 10_000 {
      LeadingDigits(y / 10);
      assert Pad(y, 4)[..4] == Pad(y / 10, 4)[..4];
    } else {
      PadWidth(y / 10, 4);
      assert Pad(y, 4)[..4] == Pad(y / 10, 4);
    }
  }

  function AfterYear(t: Utc): string {
    Render(Fields(t)[1..], LAYOUT[1..])
  }

  lemma YearFirst(t: Utc)
    ensures Format(t) == Pad(t.year, 4) + ("-" + AfterYear(t))
  {
  }

  /** The bound is real, and this is what happens beyond it: a year with five digits or more is compared by its first
      four, so a time in it is taken to be before a time in an earlier, four-digit year exactly when those first four
      digits are a lesser number. */
  lemma FiveDigitYearsComeTooEarly(s: Utc, t: Utc)
    requires Valid(s) && Valid(t) && s.year >= 10_000 && t.year <= 9999
    ensures Millis(t) < Millis(s)
    ensures Less(Format(s), Format(t)) <==> Leading(s.year) < t.year
  {
    EarlierCountsLess(t, s);
    LeadingDigits(s.year);
    assert Pow10(4) == 10_000;
    PadWidth(t.year, 4);
    PadKeepsOrder(Leading(s.year), t.year, 4);
    YearFirst(s);
    YearFirst(t);
    var a, b := Pad(s.year, 4), Pad(t.year, 4);
    var (c, d) := (a[4..] + ("-" + AfterYear(s)), "-" + AfterYear(t));
    assert Format(s) == a[..4] + c;
    LessOfConcat(a[..4], b, c, d);
    assert c[0] == a[4] && a[4] in a && d[0] == '-';
  }
}
