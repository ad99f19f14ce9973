/** The parts of `java.time` the app relies on: `LocalDate` and
    `LocalDateTime` values, `LocalDateTime.parse` with the ISO_LOCAL_DATE_TIME
    format (ISO 8601:2004 section 4.3.2, extended format, strict resolution),
    `toEpochDay`, `getDayOfWeek` (ISO 8601:2004 section 4.1.4: Monday is day 1),
    `minusDays`, `compareTo`, and `ChronoUnit.MINUTES.between`. */
module JavaTime {
  import opened Wrappers
  import opened KotlinStd

  datatype LocalDate = LocalDate(year: int, month: int, day: int)

  /** A date-time as the parser builds it; the nano-of-second field is
      always zero here, because the app cuts timestamps before any fraction. */
  datatype LocalDateTime = LocalDateTime(date: LocalDate, hour: int, minute: int, second: int)

  // ---------------------------------------------------------------------------
  // The proleptic Gregorian calendar

  predicate IsLeapYear(y: int) {
    y % 4 == 0 && (y % 100 != 0 || y % 400 == 0)
  }

  function LengthOfYear(y: int): int {
    if IsLeapYear(y) then 366 else 365
  }

  function LengthOfMonth(y: int, m: int): int {
    if m == 2 then (if IsLeapYear(y) then 29 else 28)
    else if m == 4 || m == 6 || m == 9 || m == 11 then 30
    else 31
  }

  predicate ValidDate(d: LocalDate) {
    1 <= d.month <= 12 && 1 <= d.day <= LengthOfMonth(d.year, d.month)
  }

  predicate ValidTime(t: LocalDateTime) {
    0 <= t.hour <= 23 && 0 <= t.minute <= 59 && 0 <= t.second <= 59
  }

  predicate ValidDateTime(t: LocalDateTime) {
    ValidDate(t.date) && ValidTime(t)
  }

  /** Days from 0000-01-01 to the first of January of year `y`. */
  function DaysBeforeYear(y: int): int {
    365 * y + (y + 3) / 4 - (y + 99) / 100 + (y + 399) / 400
  }

  /** Days from the first of January of year `y` to the first of month `m`. */
  function DaysBeforeMonth(y: int, m: int): int {
    var leap := if IsLeapYear(y) then 1 else 0;
    if m <= 1 then 0
    else if m == 2 then 31
    else if m == 3 then 59 + leap
    else if m == 4 then 90 + leap
    else if m == 5 then 120 + leap
    else if m == 6 then 151 + leap
    else if m == 7 then 181 + leap
    else if m == 8 then 212 + leap
    else if m == 9 then 243 + leap
    else if m == 10 then 273 + leap
    else if m == 11 then 304 + leap
    else 334 + leap
  }

  const DaysFrom0000To1970: int := 719528

  /** `LocalDate.toEpochDay()`, written as the JDK computes it (with the
      JVM's truncating `/`); 1970-01-01 is day 0. */
  function ToEpochDay(d: LocalDate): int {
    var y := d.year;
    var m := d.month;
    var total := 365 * y
      + (if y >= 0 then TruncDiv(y + 3, 4) - TruncDiv(y + 99, 100) + TruncDiv(y + 399, 400)
         else -(TruncDiv(y, -4) - TruncDiv(y, -100) + TruncDiv(y, -400)))
      + TruncDiv(367 * m - 362, 12)
      + d.day - 1;
    var adjusted := if m > 2 then (if IsLeapYear(y) then total - 1 else total - 2) else total;
    adjusted - DaysFrom0000To1970
  }

  /** The JDK's formula counts the days of the calendar: the years before,
      the months before, then the day of the month. */
  lemma ToEpochDayCountsDays(d: LocalDate)
    requires ValidDate(d)
    ensures ToEpochDay(d) == DaysBeforeYear(d.year) + DaysBeforeMonth(d.year, d.month) + d.day - 1 - DaysFrom0000To1970
  {
    var y := d.year;
    if y < 0 {
      assert TruncDiv(y, -4) == (-y) / 4 && -((-y) / 4) == (y + 3) / 4;
      assert TruncDiv(y, -100) == (-y) / 100 && -((-y) / 100) == (y + 99) / 100;
      assert TruncDiv(y, -400) == (-y) / 400 && -((-y) / 400) == (y + 399) / 400;
    }
  }

  lemma UnixEpoch()
    ensures ToEpochDay(LocalDate(1970, 1, 1)) == 0
  {
  }

  /** Consecutive first-of-Januaries are a year's length apart. */
  lemma YearLength(y: int)
    ensures DaysBeforeYear(y + 1) == DaysBeforeYear(y) + LengthOfYear(y)
  {
    LeapCountSteps(y);
    DivisibleDown(y);
  }

  /** A multiple of 400 is one of 100, and a multiple of 100 one of 4. */
  lemma DivisibleDown(y: int)
    ensures y % 400 == 0 ==> y % 100 == 0
    ensures y % 100 == 0 ==> y % 4 == 0
  {
    if y % 400 == 0 { MultipleOf400(y); }
    if y % 100 == 0 { MultipleOf100(y); }
  }

  lemma MultipleOf400(y: int)
    requires y % 400 == 0
    ensures y % 100 == 0
  {
    var k := y / 400;
    assert y == 100 * (4 * k);
  }

  lemma MultipleOf100(y: int)
    requires y % 100 == 0
    ensures y % 4 == 0
  {
    var k := y / 100;
    assert y == 4 * (25 * k);
  }

  /** Each of the three leap-day counts grows by one exactly at a multiple. */
  lemma LeapCountSteps(y: int)
    ensures (y + 4) / 4 == (y + 3) / 4 + (if y % 4 == 0 then 1 else 0)
    ensures (y + 100) / 100 == (y + 99) / 100 + (if y % 100 == 0 then 1 else 0)
    ensures (y + 400) / 400 == (y + 399) / 400 + (if y % 400 == 0 then 1 else 0)
  {
    var q4, q100, q400 := y / 4, y / 100, y / 400;
    assert y + 4 == 4 * (q4 + 1) + y % 4;
    assert y + 100 == 100 * (q100 + 1) + y % 100;
    assert y + 400 == 400 * (q400 + 1) + y % 400;
  }

  lemma {:induction false} YearsIncrease(y1: int, y2: int)
    requires y1 < y2
    ensures DaysBeforeYear(y1) + LengthOfYear(y1) <= DaysBeforeYear(y2)
    decreases y2 - y1
  {
    YearLength(y1);
    if y1 + 1 < y2 {
      YearsIncrease(y1 + 1, y2);
    }
  }

  lemma DayOfYearInRange(d: LocalDate)
    requires ValidDate(d)
    ensures 0 <= DaysBeforeMonth(d.year, d.month) + d.day - 1 < LengthOfYear(d.year)
  {
  }

  /** The table of month starts agrees with the month lengths: January
      starts the year and each month starts where the one before ends. */
  lemma MonthStep(y: int, m: int)
    requires 1 <= m < 12
    ensures DaysBeforeMonth(y, 1) == 0
    ensures DaysBeforeMonth(y, m + 1) == DaysBeforeMonth(y, m) + LengthOfMonth(y, m)
  {
  }

  lemma MonthsIncrease(y: int, m1: int, m2: int)
    requires 1 <= m1 < m2 <= 12
    ensures DaysBeforeMonth(y, m1) + LengthOfMonth(y, m1) <= DaysBeforeMonth(y, m2)
  {
  }

  // ---------------------------------------------------------------------------
  // compareTo, minusDays, getDayOfWeek

  /** `a.isBefore(b)`, i.e. `a.compareTo(b) < 0`: by year, then month, then day. */
  predicate IsBefore(a: LocalDate, b: LocalDate) {
    a.year < b.year || (a.year == b.year && (a.month < b.month || (a.month == b.month && a.day < b.day)))
  }

  /** The epoch day orders dates as `compareTo` does: this is what lets the
      model compare dates as day numbers. */
  lemma {:induction false} EpochDayOrder(a: LocalDate, b: LocalDate)
    requires ValidDate(a) && ValidDate(b)
    ensures IsBefore(a, b) <==> ToEpochDay(a) < ToEpochDay(b)
    ensures a == b <==> ToEpochDay(a) == ToEpochDay(b)
  {
    ToEpochDayCountsDays(a);
    ToEpochDayCountsDays(b);
    DayOfYearInRange(a);
    DayOfYearInRange(b);
    if a.year < b.year {
      YearsIncrease(a.year, b.year);
    } else if b.year < a.year {
      YearsIncrease(b.year, a.year);
    } else if a.month < b.month {
      MonthsIncrease(a.year, a.month, b.month);
    } else if b.month < a.month {
      MonthsIncrease(a.year, b.month, a.month);
    }
  }

  /** `getDayOfWeek().getValue()` of the date with this epoch day:
      `floorMod(epochDay + 3, 7) + 1`, 1 for Monday through 7 for Sunday
      (1970-01-01 was a Thursday). */
  function DayOfWeekOfEpochDay(epochDay: int): (dow: int)
    ensures 1 <= dow <= 7
  {
    (epochDay + 3) % 7 + 1
  }

  function DayOfWeek(d: LocalDate): (dow: int)
    ensures 1 <= dow <= 7
  {
    DayOfWeekOfEpochDay(ToEpochDay(d))
  }

  /** The next day is the next day of the week, Sunday wrapping to Monday. */
  lemma DayOfWeekSucc(e: int)
    ensures DayOfWeekOfEpochDay(e + 1) == if DayOfWeekOfEpochDay(e) == 7 then 1 else DayOfWeekOfEpochDay(e) + 1
  {
  }

  lemma UnixEpochIsThursday()
    ensures DayOfWeek(LocalDate(1970, 1, 1)) == 4
  {
  }

  // ---------------------------------------------------------------------------
  // LocalDateTime.parse with ISO_LOCAL_DATE_TIME

  predicate DigitsAt(s: string, i: nat, n: nat) {
    i + n <= |s| && forall k :: i <= k < i + n ==> IsDigit(s[k])
  }

  function Num2(s: string, i: nat): int
    requires DigitsAt(s, i, 2)
  {
    10 * DigitValue(s[i]) + DigitValue(s[i + 1])
  }

  function Num4(s: string, i: nat): int
    requires DigitsAt(s, i, 4)
  {
    100 * Num2(s, i) + Num2(s, i + 2)
  }

  /** The character shape ISO_LOCAL_DATE_TIME accepts for an unsigned
      four-digit year: `uuuu-MM-ddTHH:mm`, optionally followed by `:ss`; the
      formatter parses case-insensitively, so the separator may also be 't'.
      A fraction can only follow the seconds, and nothing may follow the end. */
  predicate IsoShape(s: string) {
    && (|s| == 16 || |s| == 19)
    && DigitsAt(s, 0, 4) && s[4] == '-' && DigitsAt(s, 5, 2) && s[7] == '-' && DigitsAt(s, 8, 2)
    && (s[10] == 'T' || s[10] == 't')
    && DigitsAt(s, 11, 2) && s[13] == ':' && DigitsAt(s, 14, 2)
    && (|s| == 19 ==> s[16] == ':' && DigitsAt(s, 17, 2))
  }

  /** `LocalDateTime.parse(s)`: `None` where the JDK throws. Strict resolution
      rejects a month outside 1..12, a day past the month's length (leap years
      included), hour 24, minute or second 60. */
  function ParseLocalDateTime(s: string): (r: Option<LocalDateTime>)
    ensures r.Some? ==> ValidDateTime(r.value) && 0 <= r.value.date.year <= 9999
  {
    if !IsoShape(s) then None
    else
      var t := LocalDateTime(LocalDate(Num4(s, 0), Num2(s, 5), Num2(s, 8)),
                             Num2(s, 11), Num2(s, 14), if |s| == 19 then Num2(s, 17) else 0);
      if ValidDateTime(t) then Some(t) else None
  }

  predicate Printable(t: LocalDateTime) {
    ValidDateTime(t) && 0 <= t.date.year <= 9999
  }

  /** The canonical rendering `uuuu-MM-dd<sep>HH:mm:ss`, every field
      zero-padded. */
  function FormatIso(t: LocalDateTime, sep: char): (r: string)
    requires Printable(t)
    ensures |r| == 19
  {
    var hi := t.date.year / 100;
    var lo := t.date.year % 100;
    [DigitChar(hi / 10), DigitChar(hi % 10), DigitChar(lo / 10), DigitChar(lo % 10), '-',
     DigitChar(t.date.month / 10), DigitChar(t.date.month % 10), '-',
     DigitChar(t.date.day / 10), DigitChar(t.date.day % 10), sep,
     DigitChar(t.hour / 10), DigitChar(t.hour % 10), ':',
     DigitChar(t.minute / 10), DigitChar(t.minute % 10), ':',
     DigitChar(t.second / 10), DigitChar(t.second % 10)]
  }

  /** Two digit characters written for `n` read back as `n`. */
  lemma Num2OfDigits(s: string, i: nat, n: int)
    requires 0 <= n <= 99 && i + 2 <= |s|
    requires s[i] == DigitChar(n / 10) && s[i + 1] == DigitChar(n % 10)
    ensures DigitsAt(s, i, 2) && Num2(s, i) == n
  {
  }

  /** Two digit characters are the rendering of the number they denote. */
  lemma DigitsOfNum2(s: string, i: nat)
    requires DigitsAt(s, i, 2)
    ensures 0 <= Num2(s, i) <= 99
    ensures DigitChar(Num2(s, i) / 10) == s[i] && DigitChar(Num2(s, i) % 10) == s[i + 1]
  {
    var n := Num2(s, i);
    assert n / 10 == DigitValue(s[i]) && n % 10 == DigitValue(s[i + 1]);
  }

  /** Every printable date-time, written in the canonical form with either
      separator, parses back to itself. */
  lemma ParseFormatRoundTrip(t: LocalDateTime, sep: char)
    requires Printable(t) && (sep == 'T' || sep == 't')
    ensures ParseLocalDateTime(FormatIso(t, sep)) == Some(t)
  {
    var s := FormatIso(t, sep);
    var y := t.date.year;
    Num2OfDigits(s, 0, y / 100);
    Num2OfDigits(s, 2, y % 100);
    Num2OfDigits(s, 5, t.date.month);
    Num2OfDigits(s, 8, t.date.day);
    Num2OfDigits(s, 11, t.hour);
    Num2OfDigits(s, 14, t.minute);
    Num2OfDigits(s, 17, t.second);
    assert IsoShape(s);
  }

  /** The minute-precision prefix of the canonical form parses to the same
      date-time with zero seconds. */
  lemma ParseFormatMinutesRoundTrip(t: LocalDateTime, sep: char)
    requires Printable(t) && (sep == 'T' || sep == 't')
    ensures ParseLocalDateTime(FormatIso(t, sep)[..16]) == Some(t.(second := 0))
  {
    var s := FormatIso(t, sep)[..16];
    var y := t.date.year;
    Num2OfDigits(s, 0, y / 100);
    Num2OfDigits(s, 2, y % 100);
    Num2OfDigits(s, 5, t.date.month);
    Num2OfDigits(s, 8, t.date.day);
    Num2OfDigits(s, 11, t.hour);
    Num2OfDigits(s, 14, t.minute);
    assert IsoShape(s);
  }

  /** Conversely, the only strings that parse are canonical renderings: the
      full form, or its minute-precision prefix with zero seconds. */
  lemma ParsedIsCanonical(s: string)
    requires ParseLocalDateTime(s).Some?
    ensures var t := ParseLocalDateTime(s).value;
      (s[10] == 'T' || s[10] == 't') &&
      if |s| == 19 then s == FormatIso(t, s[10])
      else |s| == 16 && t.second == 0 && s == FormatIso(t, s[10])[..16]
  {
    var t := ParseLocalDateTime(s).value;
    var f := FormatIso(t, s[10]);
    DigitsOfNum2(s, 0);
    DigitsOfNum2(s, 2);
    DigitsOfNum2(s, 5);
    DigitsOfNum2(s, 8);
    DigitsOfNum2(s, 11);
    DigitsOfNum2(s, 14);
    assert t.date.year / 100 == Num2(s, 0) && t.date.year % 100 == Num2(s, 2);
    assert f[..16] == s[..16];
    if |s| == 19 {
      DigitsOfNum2(s, 17);
      assert f == s;
    }
  }

  // ---------------------------------------------------------------------------
  // ChronoUnit.MINUTES.between

  function SecondOfDay(t: LocalDateTime): int {
    t.hour * 3600 + t.minute * 60 + t.second
  }

  /** Seconds since 1970-01-01T00:00:00 (local time, no zone). */
  function EpochSecond(t: LocalDateTime): int {
    ToEpochDay(t.date) * 86400 + SecondOfDay(t)
  }

  /** `a.until(b, ChronoUnit.MINUTES)` as the JDK computes it for a time-based
      unit: whole days first, then the time part brought to the same sign,
      each divided with the JVM's truncating `/`. */
  function MinutesBetween(a: LocalDateTime, b: LocalDateTime): int {
    var days := ToEpochDay(b.date) - ToEpochDay(a.date);
    var timePart := SecondOfDay(b) - SecondOfDay(a);
    if days == 0 then TruncDiv(timePart, 60)
    else if days > 0 then (days - 1) * 1440 + TruncDiv(timePart + 86400, 60)
    else (days + 1) * 1440 + TruncDiv(timePart - 86400, 60)
  }

  /** `MINUTES.between` is the elapsed time in whole minutes, truncated
      toward zero: negative when `b` is a minute or more before `a`. */
  lemma MinutesBetweenTruncates(a: LocalDateTime, b: LocalDateTime)
    requires ValidTime(a) && ValidTime(b)
    ensures MinutesBetween(a, b) == TruncDiv(EpochSecond(b) - EpochSecond(a), 60)
  {
    var days := ToEpochDay(b.date) - ToEpochDay(a.date);
    var timePart := SecondOfDay(b) - SecondOfDay(a);
    var diff := EpochSecond(b) - EpochSecond(a);
    assert diff == days * 86400 + timePart;
    assert -86400 < timePart < 86400;
    if days > 0 {
      var x := timePart + 86400;
      assert diff == (days - 1) * 86400 + x && x > 0;
      DivShift(x, days - 1);
    } else if days < 0 {
      var x := 86400 - timePart;
      assert -diff == (-days - 1) * 86400 + x && x > 0;
      DivShift(x, -days - 1);
    }
  }

  lemma DivShift(x: int, k: int)
    requires x >= 0 && k >= 0
    ensures (k * 86400 + x) / 60 == k * 1440 + x / 60
  {
    assert k * 86400 + x == 60 * (k * 1440) + x;
  }

  /** Swapping the two ends negates the count. */
  lemma MinutesBetweenAntisymmetric(a: LocalDateTime, b: LocalDateTime)
    requires ValidTime(a) && ValidTime(b)
    ensures MinutesBetween(b, a) == -MinutesBetween(a, b)
  {
    MinutesBetweenTruncates(a, b);
    MinutesBetweenTruncates(b, a);
    TruncDivNegate(EpochSecond(b) - EpochSecond(a), 60);
  }
}
