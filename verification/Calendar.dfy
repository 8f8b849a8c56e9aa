/**
  kernel_mktime of kernel/time.c against a calendar that counts day by day, and
  against the formula of section 4.16 of the POSIX.1-2017 Base Definitions.
 */
module Calendar {

  // ------------------------------------------------------- the Gregorian calendar

  /** mon counts from 0, day from 1. */
  datatype Date = Date(year: int, mon: int, day: int)

  predicate IsLeap(y: int) {
    y % 4 == 0 && (y % 100 != 0 || y % 400 == 0)
  }

  function DaysIn(y: int, mon: int): int {
    if mon == 1 then (if IsLeap(y) then 29 else 28)
    else if mon == 3 || mon == 5 || mon == 8 || mon == 10 then 30
    else 31
  }

  predicate IsDate(d: Date) {
    1970 <= d.year && 0 <= d.mon < 12 && 1 <= d.day <= DaysIn(d.year, d.mon)
  }

  function Next(d: Date): Date {
    if d.day < DaysIn(d.year, d.mon) then Date(d.year, d.mon, d.day + 1)
    else if d.mon < 11 then Date(d.year, d.mon + 1, 1)
    else Date(d.year + 1, 0, 1)
  }

  /** The date n days after 1 January 1970. */
  function DateAfter(n: nat): (d: Date)
    ensures IsDate(d)
  {
    if n == 0 then Date(1970, 0, 1) else Next(DateAfter(n - 1))
  }

  predicate Before(d: Date, e: Date) {
    d.year < e.year || (d.year == e.year && (d.mon < e.mon || (d.mon == e.mon && d.day < e.day)))
  }

  // ------------------------------------------------------------- the kernel's sum

  const MINUTE := 60
  const HOUR := 60 * MINUTE
  const DAY := 24 * HOUR
  const YEAR := 365 * DAY

  const MONTH := [
    0, DAY * 31, DAY * (31 + 29), DAY * (31 + 29 + 31), DAY * (31 + 29 + 31 + 30),
    DAY * (31 + 29 + 31 + 30 + 31), DAY * (31 + 29 + 31 + 30 + 31 + 30),
    DAY * (31 + 29 + 31 + 30 + 31 + 30 + 31), DAY * (31 + 29 + 31 + 30 + 31 + 30 + 31 + 31),
    DAY * (31 + 29 + 31 + 30 + 31 + 30 + 31 + 31 + 30), DAY * (31 + 29 + 31 + 30 + 31 + 30 + 31 + 31 + 30 + 31),
    DAY * (31 + 29 + 31 + 30 + 31 + 30 + 31 + 31 + 30 + 31 + 30)]

  /** Division and remainder of C, towards zero. */
  function Quotient(a: int, b: int): int
    requires b > 0
  {
    if a >= 0 then a / b else -(-a / b)
  }

  function Remainder(a: int, b: int): int
    requires b > 0
  {
    a - b * Quotient(a, b)
  }

  /** The calendar year of tm_year after the two-digit adjustment. */
  function YearOf(tmYear: int): int {
    1900 + if tmYear < 70 then tmYear + 100 else tmYear
  }

  /** The month table, less a day after February of a year that 4 does not divide. */
  function MonthTerm(y: int, mon: int): int
    requires 0 <= mon < 12
  {
    MONTH[mon] - if mon > 1 && Remainder(y - 1970 + 2, 4) != 0 then DAY else 0
  }

  /** The seconds up to the start of a month: the terms of year and month. */
  function MonthSum(y: int, mon: int): int
    requires 0 <= mon < 12
  {
    YEAR * (y - 1970) + DAY * Quotient(y - 1970 + 1, 4) + MonthTerm(y, mon)
  }

  function Sum(d: Date): int
    requires 0 <= d.mon < 12
  {
    MonthSum(d.year, d.mon) + DAY * (d.day - 1)
  }

  datatype Time = Time(hour: int, min: int, sec: int)

  predicate IsTime(t: Time) {
    0 <= t.hour < 24 && 0 <= t.min < 60 && 0 <= t.sec < 60
  }

  function Seconds(t: Time): int {
    HOUR * t.hour + MINUTE * t.min + t.sec
  }

  class Tm {
    var sec: int
    var min: int
    var hour: int
    var mday: int
    var mon: int
    var year: int

    function AsDate(): Date
      reads this
    {
      Date(YearOf(year), mon, mday)
    }

    function AsTime(): Time
      reads this
    {
      Time(hour, min, sec)
    }
  }

  /** kernel_mktime.  For every valid date with a two-digit year the result is
      the second of the day-by-day calendar; fits tells whether every value on
      the way was a long. */
  method KernelMktime(tm: Tm) returns (res: int, ghost fits: bool)
    requires 0 <= tm.mon < 12
    modifies tm`year
    ensures tm.year == if old(tm.year) < 70 then old(tm.year) + 100 else old(tm.year)
    ensures res == Sum(old(tm.AsDate())) + Seconds(tm.AsTime())
    ensures fits == Fits(old(tm.AsDate()), tm.AsTime())
    ensures 0 <= old(tm.year) < 100 && IsDate(old(tm.AsDate())) && IsTime(tm.AsTime()) ==>
              && res >= 0 && DateAfter(res / DAY) == old(tm.AsDate()) && res % DAY == Seconds(tm.AsTime())
  {
    hide DateAfter, IsDate, IsTime, InInt, Quotient;
    ghost var d := tm.AsDate();
    if tm.year < 70 {
      tm.year := tm.year + 100;
    }
    var year := tm.year - 70;
    res := YEAR * year + DAY * Quotient(year + 1, 4);
    fits := InInt(YEAR * year) && InInt(DAY * Quotient(year + 1, 4)) && InInt(res);
    res := res + MONTH[tm.mon];
    fits := fits && InInt(res);
    if tm.mon > 1 && Remainder(year + 2, 4) != 0 {
      res := res - DAY;
      fits := fits && InInt(res);
    }
    res := res + DAY * (tm.mday - 1);
    fits := fits && InInt(DAY * (tm.mday - 1)) && InInt(res);
    res := res + HOUR * tm.hour;
    fits := fits && InInt(HOUR * tm.hour) && InInt(res);
    res := res + MINUTE * tm.min;
    fits := fits && InInt(MINUTE * tm.min) && InInt(res);
    res := res + tm.sec;
    fits := fits && InInt(res);
    if 0 <= old(tm.year) < 100 && IsDate(d) && IsTime(tm.AsTime()) {
      SumIsSecond(d, tm.AsTime());
    }
  }

  // ------------------------------------------------------------ counting the days

  function YearStart(y: int): nat
    requires 1970 <= y
    decreases y
  {
    if y == 1970 then 0 else YearStart(y - 1) + (if IsLeap(y - 1) then 366 else 365)
  }

  function MonthStart(y: int, mon: nat): (n: nat)
    ensures mon == 0 ==> n == 0
  {
    if mon == 0 then 0 else MonthStart(y, mon - 1) + DaysIn(y, mon - 1)
  }

  /** How many days d is after 1 January 1970: whole years, months and days. */
  function Count(d: Date): nat
    requires IsDate(d)
  {
    YearStart(d.year) + MonthStart(d.year, d.mon) + d.day - 1
  }

  /** The days before each month. */
  lemma MonthStarts(y: int)
    ensures var l := if IsLeap(y) then 1 else 0;
            && MonthStart(y, 1) == 31 && MonthStart(y, 2) == 59 + l && MonthStart(y, 3) == 90 + l
            && MonthStart(y, 4) == 120 + l && MonthStart(y, 5) == 151 + l && MonthStart(y, 6) == 181 + l
            && MonthStart(y, 7) == 212 + l && MonthStart(y, 8) == 243 + l && MonthStart(y, 9) == 273 + l
            && MonthStart(y, 10) == 304 + l && MonthStart(y, 11) == 334 + l && MonthStart(y, 12) == 365 + l
  {
    assert MonthStart(y, 2) == MonthStart(y, 1) + DaysIn(y, 1);
    assert MonthStart(y, 4) == MonthStart(y, 3) + DaysIn(y, 3);
    assert MonthStart(y, 6) == MonthStart(y, 5) + DaysIn(y, 5);
    assert MonthStart(y, 8) == MonthStart(y, 7) + DaysIn(y, 7);
    assert MonthStart(y, 10) == MonthStart(y, 9) + DaysIn(y, 9);
  }

  /** The next date is one day later. */
  lemma NextIsOneLater(d: Date)
    requires IsDate(d)
    ensures IsDate(Next(d)) && Count(Next(d)) == Count(d) + 1
  {
    MonthStarts(d.year);
    assert MonthStart(d.year, d.mon + 1) == MonthStart(d.year, d.mon) + DaysIn(d.year, d.mon);
  }

  lemma {:induction false} CountAfter(n: nat)
    ensures Count(DateAfter(n)) == n
  {
    if n > 0 {
      CountAfter(n - 1);
      NextIsOneLater(DateAfter(n - 1));
    }
  }

  lemma WithinYear(d: Date)
    requires IsDate(d)
    ensures YearStart(d.year) <= Count(d) < YearStart(d.year + 1)
  {
    MonthStarts(d.year);
  }

  lemma {:induction false} YearsGrow(y: int, z: int)
    requires 1970 <= y <= z
    ensures YearStart(y) <= YearStart(z)
    decreases z - y
  {
    if y < z {
      YearsGrow(y, z - 1);
    }
  }

  /** A later date counts more days. */
  lemma CountGrows(d: Date, e: Date)
    requires IsDate(d) && IsDate(e) && Before(d, e)
    ensures Count(d) < Count(e)
  {
    WithinYear(d);
    WithinYear(e);
    if d.year < e.year {
      YearsGrow(d.year + 1, e.year);
    } else {
      MonthStarts(d.year);
      assert MonthStart(d.year, d.mon + 1) == MonthStart(d.year, d.mon) + DaysIn(d.year, d.mon);
    }
  }

  /** Counting day by day reaches every date at its count, and at no other. */
  lemma CountsBack(d: Date)
    requires IsDate(d)
    ensures DateAfter(Count(d)) == d
    ensures forall n: nat :: DateAfter(n) == d ==> n == Count(d)
  {
    var e := DateAfter(Count(d));
    CountAfter(Count(d));
    if Before(d, e) {
      CountGrows(d, e);
    } else if Before(e, d) {
      CountGrows(e, d);
    }
    forall n: nat | DateAfter(n) == d ensures n == Count(d) {
      CountAfter(n);
    }
  }

  // ------------------------------------------------------- the kernel's sum is it

  /** Leap days among the years before y, by division. */
  lemma {:induction false} YearStartIs(y: int)
    requires 1970 <= y
    ensures YearStart(y) == 365 * (y - 1970) + (y - 1969) / 4 - (y - 1901) / 100 + (y - 1601) / 400
    decreases y
  {
    if y > 1970 {
      YearStartIs(y - 1);
      LeapStep(y - 1);
    }
  }

  lemma LeapStep(y: int)
    ensures (y - 1968) / 4 - (y - 1969) / 4 == if y % 4 == 0 then 1 else 0
    ensures (y - 1900) / 100 - (y - 1901) / 100 == if y % 100 == 0 then 1 else 0
    ensures (y - 1600) / 400 - (y - 1601) / 400 == if y % 400 == 0 then 1 else 0
    ensures y % 400 == 0 ==> y % 100 == 0
    ensures y % 100 == 0 ==> y % 4 == 0
  {
    Step4(y);
    Step100(y);
    Step400(y);
  }

  lemma Step4(y: int)
    ensures (y - 1968) / 4 - (y - 1969) / 4 == if y % 4 == 0 then 1 else 0
  {
  }

  lemma Step100(y: int)
    ensures (y - 1900) / 100 - (y - 1901) / 100 == if y % 100 == 0 then 1 else 0
    ensures y % 100 == 0 ==> y % 4 == 0
  {
  }

  lemma Step400(y: int)
    ensures (y - 1600) / 400 - (y - 1601) / 400 == if y % 400 == 0 then 1 else 0
    ensures y % 400 == 0 ==> y % 100 == 0
  {
  }

  /** The days the kernel's sum is ahead: a 29 February in each century year
      that has none, from 2100 on. */
  function Ahead(d: Date): int {
    (d.year - 1901) / 100 - (d.year - 1601) / 400 + (if d.mon > 1 && d.year % 4 == 0 && !IsLeap(d.year) then 1 else 0)
  }

  /** The month term counts the days of the year before the month, and one more
      after February of a century year that is no leap year. */
  lemma MonthTermIs(y: int, mon: int)
    requires 1970 <= y && 0 <= mon < 12
    ensures MonthTerm(y, mon) == DAY * (MonthStart(y, mon) + (if mon > 1 && y % 4 == 0 && !IsLeap(y) then 1 else 0))
  {
    MonthStarts(y);
    assert Remainder(y - 1970 + 2, 4) == y % 4;
    assert DAY == 86400;
    if mon <= 3 {
    } else if mon <= 6 {
    } else if mon <= 9 {
    } else {
    }
  }

  lemma Factor(a: int, b: int, c: int)
    ensures YEAR * a + DAY * b + DAY * c == DAY * (365 * a + b + c)
  {
  }

  lemma {:induction false} MonthSumIs(y: int, mon: int)
    requires 1970 <= y && 0 <= mon < 12
    ensures var extra := if mon > 1 && y % 4 == 0 && !IsLeap(y) then 1 else 0;
            MonthSum(y, mon) == DAY * (365 * (y - 1970) + (y - 1969) / 4 + MonthStart(y, mon) + extra)
  {
    hide MonthStart, IsLeap, MonthTerm;
    MonthTermIs(y, mon);
    var extra := if mon > 1 && y % 4 == 0 && !IsLeap(y) then 1 else 0;
    Factor(y - 1970, (y - 1969) / 4, MonthStart(y, mon) + extra);
  }

  lemma Distribute(a: int, b: int)
    ensures DAY * a + DAY * b == DAY * (a + b)
  {
  }

  lemma SumIs(d: Date)
    requires IsDate(d)
    ensures Sum(d) == DAY * (Count(d) + Ahead(d))
  {
    hide MonthSum, MonthStart, YearStart;
    YearStartIs(d.year);
    MonthSumIs(d.year, d.mon);
    Distribute(Count(d) + Ahead(d) - (d.day - 1), d.day - 1);
  }

  lemma AheadIs(d: Date)
    requires IsDate(d)
    ensures Ahead(d) >= 0 && (Ahead(d) == 0 <==> Before(d, Date(2100, 2, 1)))
  {
    var a := (d.year - 1901) / 100;
    assert (d.year - 1601) / 400 <= (a + 3) / 4;
  }

  lemma Scale(n: int, k: int)
    ensures DAY * (n + k) == DAY * n <==> k == 0
    ensures k >= 0 ==> DAY * (n + k) >= DAY * n
  {
    Distribute(n, k);
  }

  /** The sum is the second of the calendar exactly before 1 March 2100. */
  lemma SumIsCalendarExactly(d: Date)
    requires IsDate(d)
    ensures Sum(d) == DAY * Count(d) <==> Before(d, Date(2100, 2, 1))
    ensures Sum(d) >= DAY * Count(d)
  {
    hide Sum, Count, Ahead, Before;
    SumIs(d);
    AheadIs(d);
    Scale(Count(d), Ahead(d));
  }

  lemma SecondOfDay(n: nat, t: Time)
    requires IsTime(t)
    ensures (DAY * n + Seconds(t)) / DAY == n && (DAY * n + Seconds(t)) % DAY == Seconds(t)
  {
    assert 0 <= Seconds(t) < DAY;
  }

  lemma SumIsSecond(d: Date, t: Time)
    requires IsDate(d) && d.year < 2070 && IsTime(t)
    ensures var res := Sum(d) + Seconds(t);
            res >= 0 && DateAfter(res / DAY) == d && res % DAY == Seconds(t)
  {
    hide Sum, Count, Seconds;
    SumIsCalendarExactly(d);
    CountsBack(d);
    SecondOfDay(Count(d), t);
  }

  // ----------------------------------------------------------------- the formula

  /** Seconds since the Epoch as section 4.16 of POSIX.1-2017 defines them, from
      tm_year (since 1900), tm_yday and the time of day. */
  function Posix(year: int, yday: int, t: Time): int {
    t.sec + t.min * 60 + t.hour * 3600 + yday * 86400 + (year - 70) * 31536000
    + ((year - 69) / 4) * 86400 - ((year - 1) / 100) * 86400 + ((year + 299) / 400) * 86400
  }

  function YearDay(d: Date): int
    requires IsDate(d)
  {
    MonthStart(d.year, d.mon) + d.day - 1
  }

  lemma PosixTerms(a: int, b: int, c: int, e: int, n: int)
    ensures n * 86400 + a * 31536000 + b * 86400 - c * 86400 + e * 86400 == DAY * (365 * a + b - c + e + n)
  {
  }

  /** The formula counts the days of the calendar, whatever the year. */
  lemma PosixIsCalendar(d: Date, t: Time)
    requires IsDate(d)
    ensures Posix(d.year - 1900, YearDay(d), t) == DAY * Count(d) + Seconds(t)
  {
    hide YearStart, MonthStart;
    YearStartIs(d.year);
    PosixTerms(d.year - 1970, (d.year - 1969) / 4, (d.year - 1901) / 100, (d.year - 1601) / 400, YearDay(d));
  }

  /** The kernel's sum is the formula's value exactly before 1 March 2100. */
  lemma SumIsPosixExactly(d: Date, t: Time)
    requires IsDate(d)
    ensures Sum(d) + Seconds(t) == Posix(d.year - 1900, YearDay(d), t) <==> Before(d, Date(2100, 2, 1))
  {
    hide Sum, Posix, Count, Before;
    PosixIsCalendar(d, t);
    SumIsCalendarExactly(d);
  }

  // ------------------------------------------------------------------------ order

  predicate Sooner(t: Time, u: Time) {
    t.hour < u.hour || (t.hour == u.hour && (t.min < u.min || (t.min == u.min && t.sec < u.sec)))
  }

  lemma CenturiesAre(y: int)
    ensures (y - 1601) / 400 == ((y - 1901) / 100 + 3) / 4
  {
  }

  lemma AheadGrows(d: Date, e: Date)
    requires IsDate(d) && IsDate(e) && Before(d, e)
    ensures Ahead(d) <= Ahead(e)
  {
    CenturiesAre(d.year);
    CenturiesAre(e.year);
    Step100(d.year);
    Step400(d.year);
    CenturiesAre(d.year + 1);
    if d.year < e.year {
      assert (d.year + 1 - 1901) / 100 <= (e.year - 1901) / 100;
    }
  }

  /** A later moment has a larger sum, in every year. */
  lemma SumGrows(d: Date, t: Time, e: Date, u: Time)
    requires IsDate(d) && IsDate(e) && IsTime(t) && IsTime(u)
    requires Before(d, e) || (d == e && Sooner(t, u))
    ensures Sum(d) + Seconds(t) < Sum(e) + Seconds(u)
  {
    if d != e {
      CountGrows(d, e);
      AheadGrows(d, e);
      SumIs(d);
      SumIs(e);
      DayApart(Count(d) + Ahead(d), t, Count(e) + Ahead(e), u);
    }
  }

  lemma DayApart(n: int, t: Time, k: int, u: Time)
    requires n < k && IsTime(t) && IsTime(u)
    ensures DAY * n + Seconds(t) < DAY * k + Seconds(u)
  {
    Distribute(n, 1);
    assert DAY * (n + 1) <= DAY * k;
  }

  // --------------------------------------------------------------- 32-bit integers

  const INT_MAX := 0x7fff_ffff

  predicate InInt(x: int) {
    -0x8000_0000 <= x <= INT_MAX
  }

  /** Every product and every partial sum of kernel_mktime fits a long. */
  predicate Fits(d: Date, t: Time)
    requires 0 <= d.mon < 12
  {
    var year := d.year - 1970;
    var s0 := YEAR * year + DAY * Quotient(year + 1, 4);
    && InInt(YEAR * year) && InInt(DAY * Quotient(year + 1, 4)) && InInt(s0)
    && InInt(s0 + MONTH[d.mon]) && InInt(MonthSum(d.year, d.mon))
    && InInt(DAY * (d.day - 1)) && InInt(Sum(d))
    && InInt(HOUR * t.hour) && InInt(Sum(d) + HOUR * t.hour)
    && InInt(MINUTE * t.min) && InInt(Sum(d) + HOUR * t.hour + MINUTE * t.min)
    && InInt(Sum(d) + Seconds(t))
  }

  lemma MonthTermBounds(y: int, mon: int)
    requires 1970 <= y && 0 <= mon < 12
    ensures 0 <= MonthTerm(y, mon) <= MONTH[mon] <= 28944000
    ensures mon >= 1 ==> MonthTerm(y, mon) >= 2678400
    ensures mon == 0 ==> MONTH[mon] == 0
  {
  }

  lemma YearTermBounds(y: int)
    requires 1970 <= y
    ensures var a := YEAR * (y - 1970); var b := DAY * Quotient(y - 1970 + 1, 4);
            && a >= 0 && b >= 0
            && (y <= 2037 ==> a <= 2112912000 && b <= 1468800)
            && (y == 2038 ==> a == 2144448000 && b == 1468800)
            && (y >= 2039 ==> a > INT_MAX)
  {
    assert YEAR == 31536000 && DAY == 86400;
    if y <= 2037 {
      assert Quotient(y - 1970 + 1, 4) <= 17;
    }
  }

  lemma SmallTermBounds(d: Date, t: Time)
    requires 1 <= d.day <= 31 && IsTime(t)
    ensures 0 <= DAY * (d.day - 1) <= 2592000 && 0 <= HOUR * t.hour <= 82800 && 0 <= MINUTE * t.min <= 3540
  {
    assert DAY == 86400 && HOUR == 3600;
  }

  lemma FitsIfSmall(d: Date, t: Time)
    requires IsDate(d) && IsTime(t)
    ensures Fits(d, t) <==> Sum(d) + Seconds(t) <= INT_MAX
  {
    hide MonthTerm, Quotient;
    MonthTermBounds(d.year, d.mon);
    YearTermBounds(d.year);
    SmallTermBounds(d, t);
  }

  lemma LastSecond()
    ensures Sum(Date(2038, 0, 19)) + Seconds(Time(3, 14, 7)) == INT_MAX
  {
  }

  /** No product and no partial sum leaves signed 32 bits exactly up to
      19 January 2038, 03:14:07. */
  lemma FitsExactly(d: Date, t: Time)
    requires IsDate(d) && IsTime(t)
    ensures var last := Date(2038, 0, 19);
            Fits(d, t) <==> Before(d, last) || (d == last && !Sooner(Time(3, 14, 7), t))
  {
    hide Fits, Sum, Seconds;
    var last, end := Date(2038, 0, 19), Time(3, 14, 7);
    FitsIfSmall(d, t);
    LastSecond();
    if Before(d, last) || (d == last && Sooner(t, end)) {
      SumGrows(d, t, last, end);
    } else if Before(last, d) || (d == last && Sooner(end, t)) {
      SumGrows(last, end, d, t);
    } else {
      assert d == last && t == end;
    }
  }
}
