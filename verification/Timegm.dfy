/** lib/timegm.c: calendar arithmetic. Arithmetic is over unbounded integers; DaysFitInt says when `int` suffices. */
module Timegm {

  /** C's division truncates toward zero. */
  function Div(a: int, b: int): int
    requires b > 0
  {
    if a >= 0 then a / b else -(-a / b)
  }

  /** count_leap_year: leap years before y */
  function CountLeapYear(y: int): int {
    Div(y - 1, 4) - Div(y - 1, 100) + Div(y - 1, 400)
  }

  predicate IsLeapYear(y: int) {
    y % 4 == 0 && (y % 100 != 0 || y % 400 == 0)
  }

  /** The fields of struct tm; year counts from 1900 and mon from 0. */
  datatype Tm = Tm(sec: int, min: int, hour: int, mday: int, mon: int, year: int, yday: int)

  const DAYSUM: seq<int> := [0, 31, 59, 90, 120, 151, 181, 212, 243, 273, 304, 334]

  function YearDays(tm: Tm): int {
    (tm.year - 70) * 365 + (CountLeapYear(tm.year + 1900) - CountLeapYear(1970))
  }

  function Seconds(days: int, tm: Tm): int {
    (days * 24 + tm.hour) * 3600 + tm.min * 60 + tm.sec
  }

  /** nghttp2_timegm */
  function Timegm(tm: Tm): int {
    if tm.mon > 11 then -1 else Seconds(YearDays(tm) + tm.yday, tm)
  }

  /** nghttp2_timegm_without_yday; a negative month would index before the table. */
  function TimegmWithoutYday(tm: Tm): int
    requires tm.mon >= 0
  {
    if tm.mon > 11 then -1 else Seconds(Days(tm), tm)
  }

  function Days(tm: Tm): int
    requires 0 <= tm.mon <= 11
  {
    YearDays(tm) + DAYSUM[tm.mon] + tm.mday - 1 + if tm.mon >= 2 && IsLeapYear(tm.year + 1900) then 1 else 0
  }

  // ---------------------------------------------------------------- the civil calendar

  /** A date as people write it; months count from 1. */
  datatype Date = Date(year: int, month: int, day: int)

  function MonthLength(leap: bool, month: int): int {
    if month == 2 then (if leap then 29 else 28)
    else if month == 4 || month == 6 || month == 9 || month == 11 then 30
    else 31
  }

  predicate ValidIn(leap: bool, d: Date) {
    1 <= d.month <= 12 && 1 <= d.day <= MonthLength(leap, d.month)
  }

  predicate ValidDate(d: Date) {
    ValidIn(IsLeapYear(d.year), d)
  }

  function NextIn(leap: bool, d: Date): Date {
    if d.day < MonthLength(leap, d.month) then d.(day := d.day + 1)
    else if d.month < 12 then Date(d.year, d.month + 1, 1)
    else Date(d.year + 1, 1, 1)
  }

  function NextDay(d: Date): Date {
    NextIn(IsLeapYear(d.year), d)
  }

  /** The number of days of the year before the month begins, counted month by month. */
  function DaysBefore(leap: bool, month: int): int
    requires 1 <= month <= 12
  {
    if month == 1 then 0 else DaysBefore(leap, month - 1) + MonthLength(leap, month - 1)
  }

  predicate Before(a: Date, b: Date) {
    a.year < b.year || (a.year == b.year && (a.month < b.month || (a.month == b.month && a.day < b.day)))
  }

  /** A date and a time of day as struct tm, with yday as given. */
  function ToTm(d: Date, hour: int, min: int, sec: int, yday: int): Tm {
    Tm(sec, min, hour, d.day, d.month - 1, d.year - 1900, yday)
  }

  predicate TimeOfDay(hour: int, min: int, sec: int) {
    0 <= hour < 24 && 0 <= min < 60 && 0 <= sec < 60
  }

  function DayNumber(d: Date): int
    requires ValidDate(d)
  {
    Days(ToTm(d, 0, 0, 0, 0))
  }

  // ---------------------------------------------------------------- leap years

  /** daysum and the leap day agree with counting month by month. */
  lemma {:induction false} MonthTable(leap: bool, month: int)
    requires 1 <= month <= 12
    ensures DaysBefore(leap, month) == DAYSUM[month - 1] + if month > 2 && leap then 1 else 0
  {
    if month > 1 { MonthTable(leap, month - 1); }
  }

  /** The leap years among 1..n, or less those among n + 1..0. Division rounds down, whatever the sign. */
  function LeapsUpTo(n: int): int {
    n / 4 - n / 100 + n / 400
  }

  lemma Quotients(n: int)
    ensures n / 4 == (n - 1) / 4 + if n % 4 == 0 then 1 else 0
    ensures n / 100 == (n - 1) / 100 + if n % 100 == 0 then 1 else 0
    ensures n / 400 == (n - 1) / 400 + if n % 400 == 0 then 1 else 0
  {
    Quotient4(n);
    Quotient100(n);
    Quotient400(n);
  }

  lemma Quotient4(n: int)
    ensures n / 4 == (n - 1) / 4 + if n % 4 == 0 then 1 else 0
    ensures -n / 4 == -(n / 4) - if n % 4 == 0 then 0 else 1
  {
  }

  lemma Quotient100(n: int)
    ensures n / 100 == (n - 1) / 100 + if n % 100 == 0 then 1 else 0
    ensures -n / 100 == -(n / 100) - if n % 100 == 0 then 0 else 1
  {
  }

  lemma Quotient400(n: int)
    ensures n / 400 == (n - 1) / 400 + if n % 400 == 0 then 1 else 0
    ensures -n / 400 == -(n / 400) - if n % 400 == 0 then 0 else 1
  {
  }

  lemma Centuries(n: int)
    ensures (n % 400 == 0 ==> n % 100 == 0) && (n % 100 == 0 ==> n % 4 == 0)
  {
  }

  lemma LeapsStep(n: int)
    ensures LeapsUpTo(n) == LeapsUpTo(n - 1) + if IsLeapYear(n) then 1 else 0
  {
    Quotients(n);
    Centuries(n);
  }

  /** From year 1 on, the next year counts one more leap year exactly after a leap year. */
  lemma LeapStep(y: int)
    requires y >= 1
    ensures CountLeapYear(y + 1) == CountLeapYear(y) + if IsLeapYear(y) then 1 else 0
  {
    LeapsStep(y);
    assert CountLeapYear(y + 1) == LeapsUpTo(y) && CountLeapYear(y) == LeapsUpTo(y - 1);
  }

  lemma LeapMirror(y: int)
    ensures IsLeapYear(-y) <==> IsLeapYear(y)
  {
  }

  /** Before year 1 truncation toward zero counts the leap year one year late. */
  lemma LeapStepBefore(y: int)
    requires y <= 0
    ensures CountLeapYear(y + 1) == CountLeapYear(y) + if IsLeapYear(y - 1) then 1 else 0
  {
    LeapsStep(1 - y);
    LeapMirror(y - 1);
    assert CountLeapYear(y + 1) == -LeapsUpTo(-y) && CountLeapYear(y) == -LeapsUpTo(1 - y);
  }

  lemma LeapYearsApart(y: int)
    ensures !(IsLeapYear(y) && IsLeapYear(y - 1))
  {
  }

  // ---------------------------------------------------------------- day numbers
  // N, C and L below stand for DayNumber, CountLeapYear and IsLeapYear, known only by the two predicates.

  /** A day's number: 365 days a year, the leap days of earlier years, and the days of this year. */
  predicate NumberAt(N: Date -> int, C: int -> int, L: int -> bool, d: Date) {
    && 1 <= d.month <= 12
    && N(d) == (d.year - 1970) * 365 + C(d.year) - C(1970) + DaysBefore(L(d.year), d.month) + d.day - 1
  }

  /** How one more year changes the count of leap years. */
  predicate LeapAt(C: int -> int, L: int -> bool, y: int) {
    C(y + 1) == C(y) + if L(if y >= 1 then y else y - 1) then 1 else 0
  }

  function NumberOf(d: Date): int {
    if ValidDate(d) then DayNumber(d) else 0
  }

  lemma NumberOfAt(d: Date)
    requires ValidDate(d)
    ensures NumberAt(NumberOf, CountLeapYear, IsLeapYear, d)
  {
    MonthTable(IsLeapYear(d.year), d.month);
  }

  lemma CountLeapAt(y: int)
    ensures LeapAt(CountLeapYear, IsLeapYear, y)
  {
    if y >= 1 { LeapStep(y); } else { LeapStepBefore(y); }
  }

  lemma Epoch()
    ensures DayNumber(Date(1970, 1, 1)) == 0
    ensures TimegmWithoutYday(ToTm(Date(1970, 1, 1), 0, 0, 0, 0)) == 0
  {
  }

  /** From the last day of a year to the first of the next. */
  lemma YearEnd(N: Date -> int, C: int -> int, L: int -> bool, d: Date, next: Date)
    requires d.month == 12 && d.day == 31 && next == Date(d.year + 1, 1, 1)
    requires NumberAt(N, C, L, d) && NumberAt(N, C, L, next) && LeapAt(C, L, d.year)
    ensures d.year >= 1 ==> N(next) == N(d) + 1
    ensures d.year <= 0 ==> N(next) == N(d) + 1 + (if L(d.year - 1) then 1 else 0) - if L(d.year) then 1 else 0
  {
    MonthTable(L(d.year), 12);
  }

  /** From one day of a year to the next. */
  lemma WithinYearCounts(N: Date -> int, C: int -> int, L: int -> bool, d: Date, next: Date)
    requires NumberAt(N, C, L, d) && NumberAt(N, C, L, next)
    requires ValidIn(L(d.year), d) && !(d.month == 12 && d.day == 31) && next == NextIn(L(d.year), d)
    ensures N(next) == N(d) + 1
  {
  }

  /** The last day of a year up to 0 that is a leap year or follows one: the only days after which the count is wrong. */
  predicate Miscounted(L: int -> bool, d: Date) {
    d.year <= 0 && d.month == 12 && d.day == 31 && (L(d.year) || L(d.year - 1))
  }

  /** How far the count is off after a day: one short after a leap year, one over after the year that follows it. */
  function Drift(L: int -> bool, d: Date): int {
    if !Miscounted(L, d) then 0 else if L(d.year) then -1 else 1
  }

  ghost predicate IsCalendar(N: Date -> int, C: int -> int, L: int -> bool) {
    && (forall d: Date :: ValidIn(L(d.year), d) ==> NumberAt(N, C, L, d))
    && (forall y: int :: LeapAt(C, L, y))
    && (forall y: int :: Apart(L, y))
  }

  predicate Apart(L: int -> bool, y: int) {
    !(L(y) && L(y - 1))
  }

  lemma CalendarHolds()
    ensures IsCalendar(NumberOf, CountLeapYear, IsLeapYear)
  {
    forall d: Date | ValidIn(IsLeapYear(d.year), d) ensures NumberAt(NumberOf, CountLeapYear, IsLeapYear, d) {
      NumberOfAt(d);
    }
    forall y: int ensures LeapAt(CountLeapYear, IsLeapYear, y) { CountLeapAt(y); }
    forall y: int ensures Apart(IsLeapYear, y) { LeapYearsApart(y); }
  }

  lemma NextNumber(N: Date -> int, C: int -> int, L: int -> bool, d: Date)
    requires IsCalendar(N, C, L) && ValidIn(L(d.year), d)
    ensures N(NextIn(L(d.year), d)) == N(d) + 1 + Drift(L, d)
  {
    var next := NextIn(L(d.year), d);
    assert ValidIn(L(next.year), next);
    assert NumberAt(N, C, L, d) && NumberAt(N, C, L, next);
    if d.month == 12 && d.day == 31 {
      assert LeapAt(C, L, d.year) && Apart(L, d.year);
      YearEnd(N, C, L, d, next);
    } else {
      WithinYearCounts(N, C, L, d, next);
    }
  }

  lemma NextDayValid(d: Date)
    requires ValidDate(d)
    ensures ValidDate(NextDay(d))
  {
  }

  /** Over every valid date, year 0 and before included: the next day counts one more, give or take Drift. */
  lemma NextDayExactly(d: Date)
    requires ValidDate(d)
    ensures ValidDate(NextDay(d))
    ensures NumberOf(NextDay(d)) == NumberOf(d) + 1 + Drift(IsLeapYear, d)
  {
    NextDayValid(d);
    CalendarHolds();
    NextNumber(NumberOf, CountLeapYear, IsLeapYear, d);
  }

  /** From year 1 on, each next day counts one more, through month ends, leap days and year ends. */
  lemma NextDayCounts(d: Date)
    requires ValidDate(d) && d.year >= 1
    ensures ValidDate(NextDay(d)) && DayNumber(NextDay(d)) == DayNumber(d) + 1
  {
    NextDayExactly(d);
  }

  /** A miscounted day: the last day of year 0 and the first of year 1 get the same number. */
  lemma YearZeroMiscounts(d: Date)
    requires d == Date(0, 12, 31)
    ensures ValidDate(d) && ValidDate(NextDay(d)) && NumberOf(NextDay(d)) == NumberOf(d)
  {
    assert Drift(IsLeapYear, d) == -1;
    NextDayExactly(d);
  }

  // ---------------------------------------------------------------- which dates are numbered right

  /** Mirrored at 0, rounding down counts one less unless n is a leap year. */
  lemma LeapsMirror(n: int)
    ensures -LeapsUpTo(n) == LeapsUpTo(-n) + if IsLeapYear(n) then 0 else 1
  {
    Quotient4(n);
    Quotient100(n);
    Quotient400(n);
    Centuries(n);
  }

  /** count_leap_year against the true count of leap years before y. */
  lemma CountAgainstTrue(y: int)
    ensures CountLeapYear(y) == LeapsUpTo(y - 1) + if y >= 1 || IsLeapYear(y - 1) then 0 else 1
  {
    if y >= 1 {
      assert CountLeapYear(y) == LeapsUpTo(y - 1);
    } else {
      LeapsMirror(1 - y);
      LeapMirror(y - 1);
      assert CountLeapYear(y) == -LeapsUpTo(1 - y);
    }
  }

  function TrueLeaps(y: int): int {
    LeapsUpTo(y - 1)
  }

  /** The true number of a day, which TrueNumberCounts characterises: 1970-01-01 is 0 and every next day counts one more. */
  function TrueNumber(d: Date): int
    requires ValidDate(d)
  {
    (d.year - 1970) * 365 + TrueLeaps(d.year) - TrueLeaps(1970) + DaysBefore(IsLeapYear(d.year), d.month) + d.day - 1
  }

  function TrueNumberOf(d: Date): int {
    if ValidDate(d) then TrueNumber(d) else 0
  }

  lemma NextTrue(N: Date -> int, C: int -> int, L: int -> bool, d: Date, next: Date)
    requires ValidIn(L(d.year), d) && next == NextIn(L(d.year), d)
    requires NumberAt(N, C, L, d) && NumberAt(N, C, L, next) && C(d.year + 1) == C(d.year) + if L(d.year) then 1 else 0
    ensures N(next) == N(d) + 1
  {
    if d.month == 12 && d.day == 31 {
      MonthTable(L(d.year), 12);
    } else {
      WithinYearCounts(N, C, L, d, next);
    }
  }

  lemma TrueNumberAt(d: Date)
    requires ValidDate(d)
    ensures NumberAt(TrueNumberOf, TrueLeaps, IsLeapYear, d)
  {
  }

  lemma TrueNumberCounts(d: Date)
    requires ValidDate(d)
    ensures ValidDate(NextDay(d)) && TrueNumberOf(NextDay(d)) == TrueNumberOf(d) + 1
    ensures d == Date(1970, 1, 1) ==> TrueNumberOf(d) == 0
  {
    NextDayValid(d);
    TrueNumberAt(d);
    TrueNumberAt(NextDay(d));
    LeapsStep(d.year);
    NextTrue(TrueNumberOf, TrueLeaps, IsLeapYear, d, NextDay(d));
  }

  /** A date is numbered right if and only if its year is past 0 or follows a leap year; else its number is one too large. */
  lemma NumberedRight(d: Date)
    requires ValidDate(d)
    ensures NumberOf(d) == TrueNumberOf(d) <==> d.year >= 1 || IsLeapYear(d.year - 1)
    ensures NumberOf(d) == TrueNumberOf(d) || NumberOf(d) == TrueNumberOf(d) + 1
  {
    NumberOfAt(d);
    TrueNumberAt(d);
    CountAgainstTrue(d.year);
    CountAgainstTrue(1970);
    Compare(NumberOf, CountLeapYear, TrueNumberOf, TrueLeaps, IsLeapYear, d);
  }

  lemma Compare(N: Date -> int, C: int -> int, T: Date -> int, D: int -> int, L: int -> bool, d: Date)
    requires NumberAt(N, C, L, d) && NumberAt(T, D, L, d) && C(1970) == D(1970)
    ensures N(d) - T(d) == C(d.year) - D(d.year)
  {
  }

  // ---------------------------------------------------------------- seconds

  /** A month past December is refused with -1, whatever the other fields. */
  lemma MonthPastDecember(tm: Tm)
    requires tm.mon >= 12
    ensures Timegm(tm) == TimegmWithoutYday(tm) == -1
  {
  }

  /** The result is the day number in seconds plus the time of day. */
  lemma SecondsIs(d: Date, hour: int, min: int, sec: int, yday: int)
    requires ValidDate(d)
    ensures TimegmWithoutYday(ToTm(d, hour, min, sec, yday)) == DayNumber(d) * 86400 + hour * 3600 + min * 60 + sec
  {
    assert Days(ToTm(d, hour, min, sec, yday)) == DayNumber(d);
  }

  /** So the result counts true seconds: one day later is 86400 seconds later. */
  lemma NextDayAdds(d: Date, hour: int, min: int, sec: int, yday: int, yday': int)
    requires ValidDate(d) && d.year >= 1
    ensures ValidDate(NextDay(d))
    ensures TimegmWithoutYday(ToTm(NextDay(d), hour, min, sec, yday'))
         == TimegmWithoutYday(ToTm(d, hour, min, sec, yday)) + 86400
  {
    NextDayCounts(d);
    SecondsIs(d, hour, min, sec, yday);
    SecondsIs(NextDay(d), hour, min, sec, yday');
  }

  lemma {:induction false} YearStart(C: int -> int, L: int -> bool, a: int, b: int)
    requires 1 <= a < b && forall y: int :: LeapAt(C, L, y)
    ensures b * 365 + C(b) >= a * 365 + C(a) + 365 + if L(a) then 1 else 0
    decreases b - a
  {
    assert LeapAt(C, L, b - 1);
    if a + 1 < b { YearStart(C, L, a, b - 1); }
  }

  lemma {:induction false} MonthStart(leap: bool, m: int, n: int)
    requires 1 <= m < n <= 12
    ensures DaysBefore(leap, n) >= DaysBefore(leap, m) + MonthLength(leap, m)
  {
    if m + 1 < n { MonthStart(leap, m, n - 1); }
  }

  /** The day of the year never reaches the year's length. */
  lemma WithinYear(leap: bool, month: int, day: int)
    requires 1 <= month <= 12 && 1 <= day <= MonthLength(leap, month)
    ensures 0 <= DaysBefore(leap, month) + day - 1 < 365 + if leap then 1 else 0
  {
    MonthTable(leap, month);
  }

  lemma LaterCounts(N: Date -> int, C: int -> int, L: int -> bool, a: Date, b: Date)
    requires a.year >= 1 && Before(a, b) && IsCalendar(N, C, L)
    requires ValidIn(L(a.year), a) && ValidIn(L(b.year), b)
    ensures N(a) < N(b)
  {
    assert NumberAt(N, C, L, a) && NumberAt(N, C, L, b);
    if a.year < b.year {
      WithinYear(L(a.year), a.month, a.day);
      WithinYear(L(b.year), b.month, b.day);
      YearStart(C, L, a.year, b.year);
    } else if a.month < b.month {
      MonthStart(L(a.year), a.month, b.month);
    }
  }

  lemma DayNumberMonotone(a: Date, b: Date)
    requires ValidDate(a) && ValidDate(b) && a.year >= 1 && Before(a, b)
    ensures DayNumber(a) < DayNumber(b)
  {
    CalendarHolds();
    LaterCounts(NumberOf, CountLeapYear, IsLeapYear, a, b);
  }

  /** Later moments have larger results, so different moments have different results. */
  lemma Injective(a: Date, ha: int, ma: int, sa: int, b: Date, hb: int, mb: int, sb: int)
    requires ValidDate(a) && ValidDate(b) && a.year >= 1 && b.year >= 1
    requires TimeOfDay(ha, ma, sa) && TimeOfDay(hb, mb, sb)
    ensures TimegmWithoutYday(ToTm(a, ha, ma, sa, 0)) == TimegmWithoutYday(ToTm(b, hb, mb, sb, 0))
       <==> a == b && ha == hb && ma == mb && sa == sb
    ensures Before(a, b) ==> TimegmWithoutYday(ToTm(a, ha, ma, sa, 0)) < TimegmWithoutYday(ToTm(b, hb, mb, sb, 0))
  {
    SecondsIs(a, ha, ma, sa, 0);
    SecondsIs(b, hb, mb, sb, 0);
    if Before(a, b) { DayNumberMonotone(a, b); }
    if Before(b, a) { DayNumberMonotone(b, a); }
    TimesDiffer(DayNumber(a), ha, ma, sa, DayNumber(b), hb, mb, sb);
  }

  lemma TimesDiffer(m: int, ha: int, ma: int, sa: int, n: int, hb: int, mb: int, sb: int)
    requires TimeOfDay(ha, ma, sa) && TimeOfDay(hb, mb, sb)
    ensures m < n ==> m * 86400 + ha * 3600 + ma * 60 + sa < n * 86400 + hb * 3600 + mb * 60 + sb
    ensures m > n ==> m * 86400 + ha * 3600 + ma * 60 + sa > n * 86400 + hb * 3600 + mb * 60 + sb
    ensures m == n ==> (ha * 3600 + ma * 60 + sa == hb * 3600 + mb * 60 + sb <==> ha == hb && ma == mb && sa == sb)
  {
  }

  /** With a consistent tm_yday both functions agree. */
  lemma Agree(d: Date, hour: int, min: int, sec: int)
    requires ValidDate(d)
    ensures var yday := DaysBefore(IsLeapYear(d.year), d.month) + d.day - 1;
            Timegm(ToTm(d, hour, min, sec, yday)) == TimegmWithoutYday(ToTm(d, hour, min, sec, yday))
  {
    MonthTable(IsLeapYear(d.year), d.month);
  }

  /** Years from 1 to 5881579 keep every intermediate value of days within a 32-bit int. */
  lemma DaysFitInt(d: Date)
    requires ValidDate(d) && 1 <= d.year <= 5_881_579
    ensures -0x8000_0000 <= (d.year - 1970) * 365 <= 0x7fff_ffff
    ensures -0x8000_0000 <= DayNumber(d) <= 0x7fff_ffff
  {
    NumberOfAt(d);
    WithinYear(IsLeapYear(d.year), d.month, d.day);
  }
}
