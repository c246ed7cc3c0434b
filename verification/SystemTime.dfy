/** Calendar arithmetic: dates and times of day as a count of 100-nanosecond units since the start
    of the year 1601. */
module SystemTime {

  const BASE_YEAR: nat := 1601
  const BASE_YEAR_LEAPYEAR_ADJUST: nat := 388
  const DAYS_IN_NORMAL_YEAR: nat := 365
  const BASE_YEAR_DAYOFWEEK_SHIFT: nat := 1

  const TIMEUNIT_TO_MILLISECONDS: nat := 10000
  const MILLISECONDS_TO_SECONDS: nat := 1000
  const SECONDS_TO_MINUTES: nat := 60
  const MINUTES_TO_HOUR: nat := 60
  const HOURS_TO_DAY: nat := 24

  const CUMULATIVE_DAYS_FOR_MONTH: seq<nat> := [0, 31, 59, 90, 120, 151, 181, 212, 243, 273, 304, 334, 365]
  const DAYS_IN_MONTH: seq<nat> := [31, 28, 31, 30, 31, 30, 31, 31, 30, 31, 30, 31]

  datatype SystemTime = SystemTime(year: nat, month: nat, dayOfWeek: nat, day: nat, hour: nat, minute: nat, second: nat,
      milliseconds: nat)

  predicate IsLeapYear(y: nat) {
    (y % 4 == 0 && y % 100 != 0) || y % 400 == 0
  }

  /** The leap years from the base year up to, but not including, y. */
  function NumberOfLeapYears(y: nat): int
    requires 1 <= y
  {
    (y - 1) / 4 - (y - 1) / 100 + (y - 1) / 400 - BASE_YEAR_LEAPYEAR_ADJUST
  }

  function YearsToDays(y: nat): int
    requires 1 <= y
  {
    (y - BASE_YEAR) * DAYS_IN_NORMAL_YEAR + NumberOfLeapYears(y)
  }

  function MonthToDays(y: nat, m: nat): nat
    requires 1 <= m <= 13
  {
    CUMULATIVE_DAYS_FOR_MONTH[m - 1] + if IsLeapYear(y) && m > 2 then 1 else 0
  }

  /** The last day of a month in the Gregorian calendar. */
  function LastDay(y: nat, m: nat): nat
    requires 1 <= m <= 12
  {
    if m == 4 || m == 6 || m == 9 || m == 11 then 30
    else if m != 2 then 31
    else if y % 4 == 0 && (y % 100 != 0 || y % 400 == 0) then 29
    else 28
  }

  function DaysInMonth(y: nat, m: nat): (r: nat)
    requires 1 <= m <= 12
    ensures r == LastDay(y, m)
  {
    DAYS_IN_MONTH[m - 1] + if IsLeapYear(y) && m == 2 then 1 else 0
  }

  function DaysInYear(y: nat): nat {
    if IsLeapYear(y) then 366 else 365
  }

  // ---------------------------------------------------------------- the calendar

  /** A date of the calendar from the base year on. */
  predicate ValidDate(y: nat, m: nat, d: nat) {
    1601 <= y && 1 <= m <= 12 && 1 <= d <= LastDay(y, m)
  }

  predicate ValidTimeOfDay(st: SystemTime) {
    st.hour < 24 && st.minute < 60 && st.second < 60 && st.milliseconds < 1000
  }

  /** The day after a date. */
  function NextDay(y: nat, m: nat, d: nat): (nat, nat, nat)
    requires ValidDate(y, m, d)
  {
    if d < LastDay(y, m) then (y, m, d + 1) else if m < 12 then (y, m + 1, 1) else (y + 1, 1, 1)
  }

  function DayNumber(y: nat, m: nat, d: nat): int
    requires 1 <= y && 1 <= m <= 12
  {
    YearsToDays(y) + MonthToDays(y, m) + d - 1
  }

  lemma QuotientStep(y: nat, k: nat)
    requires 1 <= y && (k == 4 || k == 100 || k == 400)
    ensures y / k == (y - 1) / k + if y % k == 0 then 1 else 0
  {
    var q, r := (y - 1) / k, (y - 1) % k;
    if k == 4 {
      assert y == 4 * q + (r + 1);
    } else if k == 100 {
      assert y == 100 * q + (r + 1);
    } else {
      assert y == 400 * q + (r + 1);
    }
  }

  lemma By100(y: nat, q: nat)
    requires y == 400 * q
    ensures y % 100 == 0
  {
    assert y == 100 * (4 * q);
  }

  lemma By4(y: nat, q: nat)
    requires y == 100 * q
    ensures y % 4 == 0
  {
    assert y == 4 * (25 * q);
  }

  lemma Divisors(y: nat)
    ensures y % 400 == 0 ==> y % 100 == 0
    ensures y % 100 == 0 ==> y % 4 == 0
  {
    if y % 400 == 0 { By100(y, y / 400); }
    if y % 100 == 0 { By4(y, y / 100); }
  }

  lemma YearLength(y: nat)
    requires BASE_YEAR <= y
    ensures YearsToDays(y + 1) == YearsToDays(y) + DaysInYear(y)
  {
    QuotientStep(y, 4);
    QuotientStep(y, 100);
    QuotientStep(y, 400);
    Divisors(y);
  }

  lemma MonthLength(y: nat, m: nat)
    requires 1 <= m <= 12
    ensures MonthToDays(y, m + 1) == MonthToDays(y, m) + DaysInMonth(y, m)
    ensures MonthToDays(y, 13) == DaysInYear(y) && MonthToDays(y, 1) == 0
  {
  }

  /** The days of the calendar are numbered one after the other, from 0 on 1 January 1601. */
  lemma {:induction false} DaysFollow(y: nat, m: nat, d: nat)
    requires ValidDate(y, m, d)
    ensures DayNumber(1601, 1, 1) == 0
    ensures
      var n := NextDay(y, m, d);
      ValidDate(n.0, n.1, n.2) && DayNumber(n.0, n.1, n.2) == DayNumber(y, m, d) + 1
  {
    YearLength(y);
    MonthLength(y, m);
  }

  /** The day of the week of the day with this number, from 0 for Sunday. */
  function DayOfWeek(day: nat): nat {
    (day + BASE_YEAR_DAYOFWEEK_SHIFT) % 7
  }

  /** 1 January 1601 was a Monday, and along the calendar the days of the week go round. */
  lemma {:induction false} WeekdaysFollow(y: nat, m: nat, d: nat)
    requires ValidDate(y, m, d)
    ensures 0 <= DayNumber(y, m, d) && DayNumber(1601, 1, 1) == 0 && DayOfWeek(0) == 1
    ensures
      var n := NextDay(y, m, d);
      && ValidDate(n.0, n.1, n.2) && 0 <= DayNumber(n.0, n.1, n.2)
      && DayOfWeek(DayNumber(n.0, n.1, n.2)) == (DayOfWeek(DayNumber(y, m, d)) + 1) % 7
  {
    DaysFollow(y, m, d);
    DateInYear(y, m, d);
    NextResidue(DayNumber(y, m, d) + BASE_YEAR_DAYOFWEEK_SHIFT);
  }

  lemma NextResidue(n: nat)
    ensures (n + 1) % 7 == (n % 7 + 1) % 7
  {
  }

  lemma {:induction false} YearsAscend(y: nat, y': nat)
    requires BASE_YEAR <= y < y'
    ensures YearsToDays(y) + DaysInYear(y) <= YearsToDays(y')
    decreases y'
  {
    YearLength(y' - 1);
    if y < y' - 1 { YearsAscend(y, y' - 1); }
  }

  lemma {:induction false} MonthsAscend(y: nat, m: nat, m': nat)
    requires 1 <= m < m' <= 13
    ensures MonthToDays(y, m) + DaysInMonth(y, m) <= MonthToDays(y, m')
    decreases m'
  {
    MonthLength(y, m' - 1);
    if m < m' - 1 { MonthsAscend(y, m, m' - 1); }
  }

  /** The year to which a day number belongs. */
  ghost function YearOf(day: nat, from: nat): (y: nat)
    requires BASE_YEAR <= from && YearsToDays(from) <= day
    ensures from <= y && YearsToDays(y) <= day < YearsToDays(y + 1)
    decreases day - YearsToDays(from)
  {
    YearLength(from);
    if day < YearsToDays(from + 1) then from else YearOf(day, from + 1)
  }

  ghost predicate InYear(day: nat, y: nat) {
    BASE_YEAR <= y && YearsToDays(y) <= day < YearsToDays(y) + DaysInYear(y)
  }

  lemma {:induction false} OneYear(day: nat, y: nat, y': nat)
    requires InYear(day, y) && InYear(day, y')
    ensures y == y'
  {
    if y < y' { YearsAscend(y, y'); }
    if y' < y { YearsAscend(y', y); }
  }

  lemma {:induction false} YearAtMost(day: nat, y: nat, limit: nat)
    requires InYear(day, y) && BASE_YEAR <= limit && day < YearsToDays(limit) + DaysInYear(limit)
    ensures y <= limit
  {
    if limit < y { YearsAscend(limit, y); }
  }

  // ---------------------------------------------------------------- there

  const UNITS_PER_DAY: nat := 864000000000

  function TimeOfDay(st: SystemTime): nat {
    ((st.hour * MINUTES_TO_HOUR + st.minute) * SECONDS_TO_MINUTES + st.second) * MILLISECONDS_TO_SECONDS
        + st.milliseconds
  }

  /** `HAL_Time_ConvertFromSystemTime`. */
  function ConvertFromSystemTime(st: SystemTime): int
    requires 1 <= st.year && 1 <= st.month <= 12
  {
    var r := YearsToDays(st.year) + MonthToDays(st.year, st.month) + st.day - 1;
    (((((r * HOURS_TO_DAY) + st.hour) * MINUTES_TO_HOUR + st.minute) * SECONDS_TO_MINUTES
        + st.second) * MILLISECONDS_TO_SECONDS
      + st.milliseconds) * TIMEUNIT_TO_MILLISECONDS
  }

  lemma ConvertSplits(st: SystemTime)
    requires 1 <= st.year && 1 <= st.month <= 12
    ensures ConvertFromSystemTime(st) == DayNumber(st.year, st.month, st.day) * UNITS_PER_DAY
              + TimeOfDay(st) * TIMEUNIT_TO_MILLISECONDS
    ensures ValidTimeOfDay(st) ==> TimeOfDay(st) * TIMEUNIT_TO_MILLISECONDS <= UNITS_PER_DAY - TIMEUNIT_TO_MILLISECONDS
  {
  }

  /** The conversion in units of 100 nanoseconds: so many to a day, an hour, a minute, a second and a millisecond. */
  lemma ConvertIs(st: SystemTime)
    requires 1 <= st.year && 1 <= st.month <= 12
    ensures ConvertFromSystemTime(st) == DayNumber(st.year, st.month, st.day) * 864000000000 + st.hour * 36000000000
              + st.minute * 600000000 + st.second * 10000000 + st.milliseconds * 10000
  {
    ConvertSplits(st);
  }

  /** Dates and times in calendar order. */
  predicate Earlier(a: SystemTime, b: SystemTime) {
    || a.year < b.year
    || (a.year == b.year && a.month < b.month)
    || (a.year == b.year && a.month == b.month && a.day < b.day)
    || (a.year == b.year && a.month == b.month && a.day == b.day && EarlierInDay(a, b))
  }

  predicate EarlierInDay(a: SystemTime, b: SystemTime) {
    || a.hour < b.hour
    || (a.hour == b.hour && a.minute < b.minute)
    || (a.hour == b.hour && a.minute == b.minute && a.second < b.second)
    || (a.hour == b.hour && a.minute == b.minute && a.second == b.second && a.milliseconds < b.milliseconds)
  }

  lemma EarlierMeans(a: SystemTime, b: SystemTime)
    requires ValidTimeOfDay(a) && ValidTimeOfDay(b)
    ensures EarlierInDay(a, b) <==> TimeOfDay(a) < TimeOfDay(b)
  {
  }

  predicate Valid(st: SystemTime) {
    ValidDate(st.year, st.month, st.day) && ValidTimeOfDay(st)
  }

  lemma {:induction false} DaysAscend(a: SystemTime, b: SystemTime)
    requires Valid(a) && Valid(b) && Earlier(a, b)
    ensures DayNumber(a.year, a.month, a.day) <= DayNumber(b.year, b.month, b.day)
    ensures (a.year, a.month, a.day) != (b.year, b.month, b.day) ==>
              DayNumber(a.year, a.month, a.day) < DayNumber(b.year, b.month, b.day)
  {
    if a.year < b.year {
      YearsAscend(a.year, b.year);
      DateInYear(a.year, a.month, a.day);
      DateInYear(b.year, b.month, b.day);
    } else if a.month < b.month {
      MonthsAscend(a.year, a.month, b.month);
    }
  }

  lemma {:induction false} DateInYear(y: nat, m: nat, d: nat)
    requires ValidDate(y, m, d)
    ensures 0 <= YearsToDays(y) <= DayNumber(y, m, d) < YearsToDays(y) + DaysInYear(y)
    ensures 0 <= DayNumber(y, m, d) && InYear(DayNumber(y, m, d), y)
  {
    MonthLength(y, m);
    if m < 12 { MonthsAscend(y, m, 13); }
    if BASE_YEAR < y { YearsAscend(BASE_YEAR, y); }
  }

  /** The conversion keeps the order, and nothing falls on the same instant. */
  lemma {:induction false} ConversionAscends(a: SystemTime, b: SystemTime)
    requires Valid(a) && Valid(b)
    ensures Earlier(a, b) <==> ConvertFromSystemTime(a) < ConvertFromSystemTime(b)
  {
    ConvertSplits(a);
    ConvertSplits(b);
    EarlierMeans(a, b);
    EarlierMeans(b, a);
    if Earlier(a, b) { DaysAscend(a, b); }
    if Earlier(b, a) { DaysAscend(b, a); }
  }

  /** Dates up to the year 3000 stay well inside 63 bits. */
  lemma {:induction false} Fits63Bits(st: SystemTime)
    requires Valid(st) && st.year <= 3000
    ensures 0 <= ConvertFromSystemTime(st) < 0x8000_0000_0000_0000
  {
    ConvertSplits(st);
    DateInYear(st.year, st.month, st.day);
    if st.year < 3000 { YearsAscend(st.year, 3000); }
    YearLength(3000);
  }

  // ---------------------------------------------------------------- and back

  /** The year first guessed from a day number, corrected once. */
  function EstimatedYear(day: nat): nat {
    var y := day / DAYS_IN_NORMAL_YEAR + BASE_YEAR;
    if YearsToDays(y) > day then y - 1 else y
  }

  /** The leap days before the year and the days into it amount to less than two years. */
  ghost predicate Supported(day: nat) {
    var y := YearOf(day, BASE_YEAR);
    NumberOfLeapYears(y) + (day - YearsToDays(y)) < 2 * DAYS_IN_NORMAL_YEAR
  }

  lemma {:induction false} LeapYearsGrow(y: nat, y': nat)
    requires BASE_YEAR <= y <= y'
    ensures 0 <= NumberOfLeapYears(y) <= NumberOfLeapYears(y')
    decreases y'
  {
    if y < y' {
      YearLength(y' - 1);
      LeapYearsGrow(y, y' - 1);
    } else if BASE_YEAR < y {
      YearLength(y - 1);
      LeapYearsGrow(y - 1, y - 1);
    }
  }

  lemma DivideYears(n: nat, e: nat)
    ensures (365 * n + e) / 365 == n + e / 365
  {
    assert 365 * n + e == 365 * (n + e / 365) + e % 365;
  }

  /** One correction of the year is enough exactly while fewer than two years' worth of leap days
      have piled up. */
  lemma {:induction false} OneCorrection(day: nat)
    ensures EstimatedYear(day) == YearOf(day, BASE_YEAR) <==> Supported(day)
  {
    var y := YearOf(day, BASE_YEAR);
    LeapYearsGrow(BASE_YEAR, y);
    var e := NumberOfLeapYears(y) + (day - YearsToDays(y));
    assert day == 365 * (y - BASE_YEAR) + e;
    DivideYears(y - BASE_YEAR, e);
    assert e < 365 ==> e / 365 == 0;
    assert 365 <= e < 730 ==> e / 365 == 1;
    assert e >= 730 ==> e / 365 >= 2;
  }

  /** Every day up to the end of the year 3000 is supported; the limit is reached on the last day of
      the year 3112. */
  lemma {:induction false} SupportedUntil3112(day: nat)
    ensures day < DayNumber(3112, 12, 31) ==> Supported(day)
    ensures day == DayNumber(3112, 12, 31) ==> !Supported(day)
    ensures DayNumber(3000, 12, 31) < DayNumber(3112, 12, 31)
  {
    var y := YearOf(day, BASE_YEAR);
    YearLength(y);
    YearLength(3112);
    assert NumberOfLeapYears(3112) == 365 && IsLeapYear(3112);
    if day < DayNumber(3112, 12, 31) {
      YearAtMost(day, y, 3112);
      LeapYearsGrow(y, 3112);
      if y < 3112 && IsLeapYear(y) {
        YearLength(y);
        LeapYearsGrow(y + 1, 3112);
      }
    } else if day == DayNumber(3112, 12, 31) {
      OneYear(day, y, 3112);
    }
  }

  /** The month first guessed from the day of the year, corrected once, is right in every year. */
  lemma {:induction false} MonthIsRight(y: nat, days: nat)
    requires days < DaysInYear(y)
    ensures
      var guess := days / 31 + 1;
      guess <= 12 &&
      var m := if days >= MonthToDays(y, guess + 1) then guess + 1 else guess;
      m <= 12 && MonthToDays(y, m) <= days < MonthToDays(y, m) + DaysInMonth(y, m)
  {
    var guess := days / 31 + 1;
    if guess <= 6 { FirstHalf(y, days, guess); } else { SecondHalf(y, days, guess); }
  }

  lemma FirstHalf(y: nat, days: nat, guess: nat)
    requires days < DaysInYear(y) && guess == days / 31 + 1 <= 6
    ensures MonthFits(y, days, if days >= MonthToDays(y, guess + 1) then guess + 1 else guess)
  {
    assert 31 * (guess - 1) <= days < 31 * guess;
    if guess == 1 {} else if guess == 2 {} else if guess == 3 {} else if guess == 4 {} else if guess == 5 {} else {}
  }

  lemma SecondHalf(y: nat, days: nat, guess: nat)
    requires days < DaysInYear(y) && 6 < guess == days / 31 + 1
    ensures guess <= 12 && MonthFits(y, days, if days >= MonthToDays(y, guess + 1) then guess + 1 else guess)
  {
    assert 31 * (guess - 1) <= days < 31 * guess;
    if guess == 7 {} else if guess == 8 {} else if guess == 9 {} else if guess == 10 {} else if guess == 11 {} else {}
  }

  predicate MonthFits(y: nat, days: nat, m: nat) {
    1 <= m <= 12 && MonthToDays(y, m) <= days < MonthToDays(y, m) + DaysInMonth(y, m)
  }

  lemma {:induction false} Unique(a: SystemTime, b: SystemTime)
    requires Valid(a) && Valid(b) && ConvertFromSystemTime(a) == ConvertFromSystemTime(b)
    ensures a == b.(dayOfWeek := a.dayOfWeek)
  {
    ConversionAscends(a, b);
    ConversionAscends(b, a);
    EarlierMeans(a, b);
    EarlierMeans(b, a);
    assert TimeOfDay(a) == TimeOfDay(b);
    SameTimeOfDay(a, b);
  }

  lemma SameTimeOfDay(a: SystemTime, b: SystemTime)
    requires ValidTimeOfDay(a) && ValidTimeOfDay(b) && TimeOfDay(a) == TimeOfDay(b)
    ensures a.hour == b.hour && a.minute == b.minute && a.second == b.second && a.milliseconds == b.milliseconds
  {
  }

  /** Splits a number of units into the fields of a date and time. */
  method ToSystemTime(time: nat) returns (st: SystemTime)
    requires Supported(time / UNITS_PER_DAY)
    ensures Valid(st) && ConvertFromSystemTime(st) == time - time % TIMEUNIT_TO_MILLISECONDS
    ensures DayNumber(st.year, st.month, st.day) * 864000000000 + st.hour * 36000000000 + st.minute * 600000000
              + st.second * 10000000 + st.milliseconds * 10000 == time - time % 10000
    ensures 0 <= DayNumber(st.year, st.month, st.day) && st.dayOfWeek == DayOfWeek(DayNumber(st.year, st.month, st.day))
    ensures forall s | Valid(s) && ConvertFromSystemTime(s) == time :: st == s.(dayOfWeek := st.dayOfWeek)
  {
    var t := time / TIMEUNIT_TO_MILLISECONDS;
    var milliseconds := t % MILLISECONDS_TO_SECONDS;
    t := t / MILLISECONDS_TO_SECONDS;
    var second := t % SECONDS_TO_MINUTES;
    t := t / SECONDS_TO_MINUTES;
    var minute := t % MINUTES_TO_HOUR;
    t := t / MINUTES_TO_HOUR;
    var hour := t % HOURS_TO_DAY;
    t := t / HOURS_TO_DAY;
    DaysLeft(time);
    ghost var day := t;
    var dayOfWeek := (t + BASE_YEAR_DAYOFWEEK_SHIFT) % 7;
    var year := Year(t);
    t := t - YearsToDays(year);
    var month, date := MonthAndDay(year, t);
    st := SystemTime(year, month, dayOfWeek, date, hour, minute, second, milliseconds);
    assert DayNumber(year, month, date) == day;
    Assembled(time, st);
    ConvertIs(st);
    forall s | Valid(s) && ConvertFromSystemTime(s) == time ensures st == s.(dayOfWeek := st.dayOfWeek) {
      Multiple(s);
      Unique(st, s);
    }
  }

  method Year(day: nat) returns (year: nat)
    requires Supported(day)
    ensures InYear(day, year)
  {
    OneCorrection(day);
    year := day / DAYS_IN_NORMAL_YEAR + BASE_YEAR;
    if YearsToDays(year) > day { year := year - 1; }
    YearLength(YearOf(day, BASE_YEAR));
  }

  method MonthAndDay(year: nat, days: nat) returns (month: nat, date: nat)
    requires days < DaysInYear(year) && BASE_YEAR <= year
    ensures ValidDate(year, month, date) && MonthToDays(year, month) + date - 1 == days
  {
    MonthIsRight(year, days);
    month := days / 31 + 1;
    if days >= MonthToDays(year, month + 1) { month := month + 1; }
    date := days - MonthToDays(year, month) + 1;
  }

  /** The successive divisions leave the number of whole days. */
  lemma DaysLeft(time: nat)
    ensures time / 10000 / 1000 / 60 / 60 / 24 == time / UNITS_PER_DAY
  {
  }

  lemma Multiple(s: SystemTime)
    requires Valid(s)
    ensures 0 <= ConvertFromSystemTime(s) && ConvertFromSystemTime(s) % TIMEUNIT_TO_MILLISECONDS == 0
  {
    DateInYear(s.year, s.month, s.day);
  }

  lemma Assembled(time: nat, st: SystemTime)
    requires Valid(st) && DayNumber(st.year, st.month, st.day) == time / 10000 / 1000 / 60 / 60 / 24
    requires st.milliseconds == time / 10000 % 1000 && st.second == time / 10000 / 1000 % 60
    requires st.minute == time / 10000 / 1000 / 60 % 60 && st.hour == time / 10000 / 1000 / 60 / 60 % 24
    ensures ConvertFromSystemTime(st) == time - time % TIMEUNIT_TO_MILLISECONDS
  {
  }

  /** Whatever fields a caller passes that the conversion accepts, they come back unchanged exactly if
      they are a date of the calendar and a time of day. */
  lemma {:induction false} RoundTripExactly(st: SystemTime, back: SystemTime)
    requires BASE_YEAR <= st.year && 1 <= st.month <= 12
    requires Valid(back) && ConvertFromSystemTime(back) == ConvertFromSystemTime(st)
    ensures st == back.(dayOfWeek := st.dayOfWeek) <==> Valid(st)
  {
    if Valid(st) { Unique(st, back); }
  }
}
