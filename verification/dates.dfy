/**
 * Calendar dates as the dashboard handles them (lib/utils/date.ts): strings
 * in `YYYY-MM-DD` form read as the local midnight of that day, compared with
 * "today" at local midnight. The clock is a parameter: every predicate takes
 * `today` explicitly. An unparseable string is JavaScript's Invalid Date,
 * whose every comparison is false; it is `None` here.
 */
module Dates {
  import opened Wrappers
  import opened Text

  datatype Date = Date(year: int, month: int, day: int)

  predicate IsLeapYear(y: int) {
    (y % 4 == 0 && y % 100 != 0) || y % 400 == 0
  }

  function DaysInMonth(y: int, m: int): int
    requires 1 <= m <= 12
  {
    if m == 2 then (if IsLeapYear(y) then 29 else 28)
    else if m == 4 || m == 6 || m == 9 || m == 11 then 30
    else 31
  }

  /** A real calendar day with a four-digit year. */
  predicate Valid(d: Date) {
    0 <= d.year <= 9999 && 1 <= d.month <= 12 && 1 <= d.day <= DaysInMonth(d.year, d.month)
  }

  /** A real calendar day: what the clock can show as today. */
  type Day = d: Date | Valid(d) witness Date(1970, 1, 1)

  /** Strict order of local midnights: the order of calendar days. */
  predicate Before(a: Date, b: Date) {
    || a.year < b.year
    || (a.year == b.year && a.month < b.month)
    || (a.year == b.year && a.month == b.month && a.day < b.day)
  }

  predicate AtOrBefore(a: Date, b: Date) {
    a == b || Before(a, b)
  }

  /** The calendar day before `d`: the latest day that comes before it. */
  function PrevDay(d: Date): (r: Date)
    requires Valid(d)
    ensures Before(r, d)
    ensures d != Date(0, 1, 1) ==> Valid(r)
    ensures forall x :: Valid(x) && Before(x, d) ==> AtOrBefore(x, r)
  {
    if d.day > 1 then Date(d.year, d.month, d.day - 1)
    else if d.month > 1 then Date(d.year, d.month - 1, DaysInMonth(d.year, d.month - 1))
    else Date(d.year - 1, 12, 31)
  }

  // ----- Fixed-width decimal numerals -----

  function Pow10(n: nat): nat {
    if n == 0 then 1 else 10 * Pow10(n - 1)
  }

  function DigitChar(n: int): char
    requires 0 <= n < 10
  {
    ('0' as int + n) as char
  }

  function DigitValue(c: char): int
    requires IsDigit(c)
  {
    c as int - '0' as int
  }

  /** The value of a string of decimal digits. */
  function Number(s: string): nat
    requires AllDigits(s)
  {
    if s == [] then 0 else 10 * Number(s[..|s| - 1]) + DigitValue(s[|s| - 1])
  }

  /** `n` written with exactly `width` digits, zero-padded on the left. */
  function Pad(n: nat, width: nat): (r: string)
    ensures |r| == width && AllDigits(r)
  {
    if width == 0 then "" else Pad(n / 10, width - 1) + [DigitChar(n % 10)]
  }

  /** Reading a padded numeral back gives the number, while it fits the width. */
  lemma {:induction false} NumberOfPad(n: nat, width: nat)
    requires n < Pow10(width)
    ensures Number(Pad(n, width)) == n
  {
    if width > 0 {
      NumberOfPad(n / 10, width - 1);
      var p := Pad(n, width);
      assert p[..|p| - 1] == Pad(n / 10, width - 1);
    }
  }

  /** Padding the value of a digit string to its own width gives the string back. */
  lemma {:induction false} PadOfNumber(s: string)
    requires AllDigits(s)
    ensures Number(s) < Pow10(|s|)
    ensures Pad(Number(s), |s|) == s
  {
    if s != [] {
      var init := s[..|s| - 1];
      PadOfNumber(init);
      var n := Number(s);
      assert n / 10 == Number(init) && n % 10 == DigitValue(s[|s| - 1]);
      assert s == init + [s[|s| - 1]];
    }
  }

  /** Comparing two same-length strings after equal-length prefixes. */
  lemma {:induction false} LexAppend(a: string, b: string, a': string, b': string)
    requires |a| == |a'|
    ensures LexLess(a + b, a' + b') <==> LexLess(a, a') || (a == a' && LexLess(b, b'))
    decreases |a|
  {
    if |a| == 0 {
      assert a + b == b && a' + b' == b';
    } else {
      assert (a + b)[1..] == a[1..] + b && (a' + b')[1..] == a'[1..] + b';
      LexAppend(a[1..], b, a'[1..], b');
      if a[0] == a'[0] && a[1..] == a'[1..] {
        assert a == [a[0]] + a[1..] && a' == [a'[0]] + a'[1..];
      }
    }
  }

  /** Fixed-width numerals are ordered as the numbers they denote. */
  lemma {:induction false} PadOrder(x: nat, y: nat, width: nat)
    requires x < Pow10(width) && y < Pow10(width)
    ensures LexLess(Pad(x, width), Pad(y, width)) <==> x < y
  {
    if width > 0 {
      PadOrder(x / 10, y / 10, width - 1);
      LexAppend(Pad(x / 10, width - 1), [DigitChar(x % 10)], Pad(y / 10, width - 1), [DigitChar(y % 10)]);
      if x / 10 != y / 10 {
        NumberOfPad(x / 10, width - 1);
        NumberOfPad(y / 10, width - 1);
      }
    }
  }

  // ----- The YYYY-MM-DD form -----

  /** The shape `DDDD-DD-DD` of the strings the backend sends. */
  predicate WellFormed(s: string) {
    && |s| == 10
    && AllDigits(s[0..4]) && s[4] == '-'
    && AllDigits(s[5..7]) && s[7] == '-'
    && AllDigits(s[8..10])
  }

  /** The year, month and day fields of a well-formed string. */
  function Fields(s: string): Date
    requires WellFormed(s)
  {
    Date(Number(s[0..4]), Number(s[5..7]), Number(s[8..10]))
  }

  /** The canonical text of a date: `YYYY-MM-DD`. */
  function Format(d: Date): (r: string)
    requires Valid(d)
    ensures WellFormed(r)
  {
    var r := Pad(d.year, 4) + "-" + Pad(d.month, 2) + "-" + Pad(d.day, 2);
    assert r[0..4] == Pad(d.year, 4) && r[5..7] == Pad(d.month, 2) && r[8..10] == Pad(d.day, 2);
    r
  }

  /**
   * `parseDateSafe`: `new Date(s + "T00:00:00")`, the local midnight of the
   * day `s` names, or Invalid Date (`None`).
   */
  function ParseDateSafe(s: string): (r: Option<Date>)
    ensures r.Some? ==> Valid(r.value)
  {
    if WellFormed(s) && Valid(Fields(s)) then Some(Fields(s)) else None
  }

  /** Parsing is the inverse of formatting, in both directions. */
  lemma ParseFormat(d: Date)
    requires Valid(d)
    ensures ParseDateSafe(Format(d)) == Some(d)
  {
    var s := Format(d);
    assert s[0..4] == Pad(d.year, 4) && s[5..7] == Pad(d.month, 2) && s[8..10] == Pad(d.day, 2);
    NumberOfPad(d.year, 4);
    NumberOfPad(d.month, 2);
    NumberOfPad(d.day, 2);
  }

  lemma FormatParse(s: string)
    requires ParseDateSafe(s).Some?
    ensures Format(ParseDateSafe(s).value) == s
  {
    var y, m, d := s[0..4], s[5..7], s[8..10];
    PadOfNumber(y);
    PadOfNumber(m);
    PadOfNumber(d);
    var f := ParseDateSafe(s).value;
    assert f == Date(Number(y), Number(m), Number(d));
    assert Format(f) == y + "-" + m + "-" + d;
    assert s == y + "-" + m + "-" + d by {
      assert s == s[..4] + s[4..];
      assert s[4..] == "-" + s[5..];
      assert s[5..] == m + s[7..];
      assert s[7..] == "-" + d;
    }
  }

  /**
   * On well-formed date strings, JavaScript's string `<` is the calendar
   * order; this is what makes the string comparisons of the mock queries and
   * the season auto-selection meaningful.
   */
  lemma FormatOrder(a: Date, b: Date)
    requires Valid(a) && Valid(b)
    ensures LexLess(Format(a), Format(b)) <==> Before(a, b)
  {
    var ya, yb := Pad(a.year, 4), Pad(b.year, 4);
    var ma, mb := Pad(a.month, 2), Pad(b.month, 2);
    var da, db := Pad(a.day, 2), Pad(b.day, 2);
    PadOrder(a.year, b.year, 4);
    PadOrder(a.month, b.month, 2);
    PadOrder(a.day, b.day, 2);
    NumberOfPad(a.year, 4); NumberOfPad(b.year, 4);
    NumberOfPad(a.month, 2); NumberOfPad(b.month, 2);
    assert Format(a) == ya + ("-" + ma + "-" + da);
    assert Format(b) == yb + ("-" + mb + "-" + db);
    LexAppend(ya, "-" + ma + "-" + da, yb, "-" + mb + "-" + db);
    assert "-" + ma + "-" + da == "-" + (ma + ("-" + da));
    assert "-" + mb + "-" + db == "-" + (mb + ("-" + db));
    LexAppend("-", ma + ("-" + da), "-", mb + ("-" + db));
    LexAppend(ma, "-" + da, mb, "-" + db);
    LexAppend("-", da, "-", db);
  }

  // ----- Predicates relative to today -----

  /** `isDatePast`: the day is strictly before today. */
  predicate IsDatePast(s: string, today: Date) {
    match ParseDateSafe(s)
    case None => false
    case Some(d) => Before(d, today)
  }

  /** `isDateFuture`: the day is strictly after today. */
  predicate IsDateFuture(s: string, today: Date) {
    match ParseDateSafe(s)
    case None => false
    case Some(d) => Before(today, d)
  }

  /** `isDateToday`: the day is today. */
  predicate IsDateToday(s: string, today: Date) {
    match ParseDateSafe(s)
    case None => false
    case Some(d) => d == today
  }

  /** `isDateRangeActive`: start <= today <= end. */
  predicate IsDateRangeActive(start: string, end: string, today: Date) {
    match (ParseDateSafe(start), ParseDateSafe(end))
    case (Some(s), Some(e)) => AtOrBefore(s, today) && AtOrBefore(today, e)
    case _ => false
  }

  /** A parseable day is exactly one of past, today and future; an unparseable one is none. */
  lemma PastTodayFuture(s: string, today: Date)
    ensures ParseDateSafe(s).Some? ==>
      (IsDatePast(s, today) || IsDateToday(s, today) || IsDateFuture(s, today))
    ensures !(IsDatePast(s, today) && IsDateToday(s, today))
    ensures !(IsDatePast(s, today) && IsDateFuture(s, today))
    ensures !(IsDateToday(s, today) && IsDateFuture(s, today))
    ensures ParseDateSafe(s).None? ==>
      !IsDatePast(s, today) && !IsDateToday(s, today) && !IsDateFuture(s, today)
  {
  }

  /** An active range never ends in the past, and a reversed range is never active. */
  lemma RangeActiveFacts(start: string, end: string, today: Date)
    ensures IsDateRangeActive(start, end, today) ==> !IsDatePast(end, today)
    ensures IsDateRangeActive(start, end, today) ==> !IsDateFuture(start, today)
    ensures ParseDateSafe(start).Some? && ParseDateSafe(end).Some? &&
            Before(ParseDateSafe(end).value, ParseDateSafe(start).value) ==>
            !IsDateRangeActive(start, end, today)
  {
  }

  // ----- Formatting -----

  /** The three styles of `formatDate`. */
  datatype DateStyle = Long | Short | Numeric

  /** The `format` argument: "long" and "numeric" select their style, anything else is short. */
  function StyleOf(format: string): (r: DateStyle)
    ensures r == Long <==> format == "long"
    ensures r == Numeric <==> format == "numeric"
  {
    if format == "long" then Long else if format == "numeric" then Numeric else Short
  }

  /**
   * `formatDate`: the locale rendering (`toLocaleDateString("es-ES")`) is a
   * parameter; an Invalid Date renders as "Invalid Date".
   */
  function FormatDate(s: string, format: string, render: (DateStyle, Date) -> string): (r: string)
    ensures ParseDateSafe(s).None? ==> r == "Invalid Date"
    ensures ParseDateSafe(s).Some? ==> r == render(StyleOf(format), ParseDateSafe(s).value)
  {
    match ParseDateSafe(s)
    case None => "Invalid Date"
    case Some(d) => render(StyleOf(format), d)
  }

  /** `formatDateRange`: both ends in the same style, joined by " - ". */
  function FormatDateRange(start: string, end: string, format: string,
                           render: (DateStyle, Date) -> string): (r: string)
    ensures var a, b := FormatDate(start, format, render), FormatDate(end, format, render);
      && |r| == |a| + 3 + |b|
      && r[..|a|] == a && r[|a|..|a| + 3] == " - " && r[|a| + 3..] == b
  {
    FormatDate(start, format, render) + " - " + FormatDate(end, format, render)
  }

  // ----- Instants -----

  /**
   * A point in time: a day and the milliseconds elapsed since its midnight.
   * `new Date()` is an arbitrary instant; `new Date(s)` on a date-only
   * string is the midnight of that day.
   */
  datatype Instant = Instant(date: Date, millis: int)

  predicate InstantBefore(a: Instant, b: Instant) {
    Before(a.date, b.date) || (a.date == b.date && a.millis < b.millis)
  }

  /**
   * The minutes a local clock is ahead of UTC: negative west of Greenwich
   * (`-180` in Argentina). Real offsets are less than a day either way.
   */
  type UtcOffset = o: int | -1440 < o < 1440

  /**
   * `new Date(s)` for a `YYYY-MM-DD` string, as the local clock shows it.
   * ECMAScript reads the date-only form as UTC midnight, which a clock
   * `offset` minutes ahead of UTC shows `offset` minutes into the same day,
   * and a clock behind UTC shows in the evening of the day before.
   */
  function UtcMidnightOf(s: string, offset: UtcOffset): (r: Option<Instant>)
    ensures r.Some? <==> ParseDateSafe(s).Some?
    ensures r.Some? ==> 0 <= r.value.millis < 24 * 60 * 60000
    ensures r.Some? && offset >= 0 ==> r.value == Instant(ParseDateSafe(s).value, offset * 60000)
    ensures r.Some? && offset < 0 ==>
      r.value == Instant(PrevDay(ParseDateSafe(s).value), (24 * 60 + offset) * 60000)
  {
    match ParseDateSafe(s)
    case None => None
    case Some(d) =>
      if offset >= 0 then Some(Instant(d, offset * 60000))
      else Some(Instant(PrevDay(d), (24 * 60 + offset) * 60000))
  }

  /** `new Date(s)` for a date-only string `s`. */
  function MidnightOf(s: string): (r: Option<Instant>)
    ensures r.Some? <==> ParseDateSafe(s).Some?
    ensures r.Some? ==> r.value.millis == 0 && r.value.date == ParseDateSafe(s).value
  {
    match ParseDateSafe(s)
    case None => None
    case Some(d) => Some(Instant(d, 0))
  }
}
