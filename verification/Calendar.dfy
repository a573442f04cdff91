/** The calendar of lib/time.c: seconds since 1970 as a date and a time of day. */
module Calendar {
  import opened Arithmetic

  // ---------------------------------------------------------------- the Gregorian calendar

  predicate IsLeap(year: nat) {
    year % 4 == 0 && (year % 100 != 0 || year % 400 == 0)
  }

  function YearLength(year: nat): nat {
    if IsLeap(year) then 366 else 365
  }

  /** The length of a month; January is month 0. */
  function MonthLength(year: nat, month: nat): nat
    requires month < 12
  {
    if month == 1 then (if IsLeap(year) then 29 else 28)
    else if month == 3 || month == 5 || month == 8 || month == 10 then 30
    else 31
  }

  /** The days from the start of 1970 to the start of a year. */
  function YearStart(year: nat): nat
    requires year >= 1970
  {
    if year == 1970 then 0 else YearStart(year - 1) + YearLength(year - 1)
  }

  /** The days from the start of a year to the start of a month. */
  function MonthStart(year: nat, month: nat): nat
    requires month <= 12
  {
    if month == 0 then 0 else MonthStart(year, month - 1) + MonthLength(year, month - 1)
  }

  predicate IsDate(year: nat, month: nat, day: nat) {
    year >= 1970 && month < 12 && 1 <= day <= MonthLength(year, month)
  }

  function DayOfYear(year: nat, month: nat, day: nat): nat
    requires IsDate(year, month, day)
  {
    MonthStart(year, month) + day - 1
  }

  /** The days from 1 January 1970 to a date. */
  function DayNumber(year: nat, month: nat, day: nat): nat
    requires IsDate(year, month, day)
  {
    YearStart(year) + DayOfYear(year, month, day)
  }

  /** The first of January 1970 was a Thursday; Sunday is day 0. */
  function WeekDay(day: nat): nat {
    (4 + day) % 7
  }

  /** The months make up the year. */
  lemma TwelveMonths(year: nat)
    ensures MonthStart(year, 12) == YearLength(year)
  {
    MonthStartIs(year);
  }

  /** The day after a date has the next number and the next day of the week. */
  lemma NextDay(year: nat, month: nat, day: nat)
    requires IsDate(year, month, day)
    ensures var n := DayNumber(year, month, day);
            && WeekDay(n + 1) == (if WeekDay(n) == 6 then 0 else WeekDay(n) + 1)
            && if day < MonthLength(year, month) then IsDate(year, month, day + 1) && DayNumber(year, month, day + 1) == n + 1
               else if month < 11 then IsDate(year, month + 1, 1) && DayNumber(year, month + 1, 1) == n + 1
               else IsDate(year + 1, 0, 1) && DayNumber(year + 1, 0, 1) == n + 1
  {
    TwelveMonths(year);
  }

  lemma {:induction false} MonthBefore(year: nat, m: nat, m': nat)
    requires m < m' < 12
    ensures MonthStart(year, m) + MonthLength(year, m) <= MonthStart(year, m')
  {
    if m + 1 < m' {
      MonthBefore(year, m, m' - 1);
    }
  }

  lemma {:induction false} YearBefore(y: nat, y': nat)
    requires 1970 <= y < y'
    ensures YearStart(y) + YearLength(y) <= YearStart(y')
  {
    if y + 1 < y' {
      YearBefore(y, y' - 1);
    }
  }

  lemma InYear(year: nat, month: nat, day: nat)
    requires IsDate(year, month, day)
    ensures DayOfYear(year, month, day) < YearLength(year)
  {
    hide MonthStart, IsLeap;
    TwelveMonths(year);
    assert MonthStart(year, 12) == MonthStart(year, 11) + MonthLength(year, 11) by { LastMonth(year); }
    if month < 11 {
      MonthBefore(year, month, 11);
    }
  }

  lemma LastMonth(year: nat)
    ensures MonthStart(year, 12) == MonthStart(year, 11) + MonthLength(year, 11)
  {
  }

  /** The later date has the larger number, so a number belongs to one date. */
  lemma LaterDates(year: nat, month: nat, day: nat, year': nat, month': nat, day': nat)
    requires IsDate(year, month, day) && IsDate(year', month', day')
    ensures DayNumber(year, month, day) < DayNumber(year', month', day') <==>
              year < year' || (year == year' && (month < month' || (month == month' && day < day')))
  {
    hide YearStart, MonthStart, MonthLength, IsLeap;
    InYear(year, month, day);
    InYear(year', month', day');
    if year < year' {
      YearBefore(year, year');
    } else if year' < year {
      YearBefore(year', year);
    } else if month < month' {
      MonthBefore(year, month, month');
    } else if month' < month {
      MonthBefore(year, month', month);
    }
  }

  /** 29 February 2000 was a Tuesday. */
  lemma KnownDay(year: nat)
    requires year == 2000
    ensures IsDate(year, 1, 29) && DayNumber(year, 1, 29) == 11016 && WeekDay(11016) == 2
  {
    hide YearStart, MonthStart;
    March2000();
    MonthStartIs(year);
  }

  // ---------------------------------------------------------------- years that start in March

  const DAYS_PER_400Y := 146097
  const DAYS_PER_100Y := 36524
  const DAYS_PER_4Y := 1461
  /** An `unsigned long`. */
  const WORD := 0x1_0000_0000_0000_0000
  const LEAPOCH := 951868800

  /** The days from 1 March 2000 to 1 March of the year `k` years later: every fourth has a leap day. */
  function MarchStart(k: nat): int {
    365 * k + k / 4 - k / 100 + k / 400
  }

  lemma {:induction false} MarchStartIs(k: nat)
    ensures YearStart(2000 + k) + MonthStart(2000 + k, 2) == 11017 + MarchStart(k)
  {
    hide YearStart, MonthStart, MarchStart;
    if k == 0 {
      March2000();
    } else {
      MarchStartIs(k - 1);
      MonthStartIs(2000 + k - 1);
      MonthStartIs(2000 + k);
      Next(k - 1);
      MarchNext(k);
    }
  }

  lemma MarchNext(k: nat)
    requires k > 0
    ensures MarchStart(k) == MarchStart(k - 1) + YearLength(2000 + k)
  {
    CountsUp4(k);
    CountsUp100(k);
    CountsUp400(k);
  }

  lemma CountsUp4(k: nat)
    requires k > 0
    ensures k / 4 == (k - 1) / 4 + (if (2000 + k) % 4 == 0 then 1 else 0)
  {
  }

  lemma CountsUp100(k: nat)
    requires k > 0
    ensures k / 100 == (k - 1) / 100 + (if (2000 + k) % 100 == 0 then 1 else 0)
    ensures (2000 + k) % 100 == 0 ==> (2000 + k) % 4 == 0
  {
  }

  lemma CountsUp400(k: nat)
    requires k > 0
    ensures k / 400 == (k - 1) / 400 + (if (2000 + k) % 400 == 0 then 1 else 0)
    ensures (2000 + k) % 400 == 0 ==> (2000 + k) % 100 == 0
  {
  }

  lemma Next(years: nat)
    ensures YearStart(2000 + years + 1) == YearStart(2000 + years) + YearLength(2000 + years)
  {
  }

  lemma {:induction false} YearStartFrom(n: nat)
    requires n <= 7
    ensures YearStart(1972 + 4 * n) == 730 + 1461 * n
  {
    if n == 0 {
      assert YearStart(1970) == 0;
    } else {
      YearStartFrom(n - 1);
      assert YearStart(1972 + 4 * n - 1) == YearStart(1972 + 4 * n - 3) + 365 + 365;
    }
  }

  lemma March2000()
    ensures YearStart(2000) + MonthStart(2000, 2) == 11017 && MarchStart(0) == 0
  {
    YearStartFrom(7);
  }

  /** The days before a month that is `k` months after March. */
  function FromMarch(k: nat): nat
    requires k <= 12
  {
    if k == 0 then 0 else FromMarch(k - 1) + MarchMonth(k - 1)
  }

  /** The table of month lengths, from March on. */
  function MarchMonth(k: nat): nat
    requires k < 12
  {
    [31, 30, 31, 30, 31, 31, 30, 31, 30, 31, 31, 29][k]
  }

  lemma FromMarchIs()
    ensures FromMarch(0) == 0 && FromMarch(1) == 31 && FromMarch(2) == 61 && FromMarch(3) == 92 && FromMarch(4) == 122
    ensures FromMarch(5) == 153 && FromMarch(6) == 184 && FromMarch(7) == 214 && FromMarch(8) == 245
    ensures FromMarch(9) == 275 && FromMarch(10) == 306 && FromMarch(11) == 337 && FromMarch(12) == 366
  {
  }

  lemma MonthStartIs(year: nat)
    ensures var leap := if IsLeap(year) then 1 else 0;
            && MonthStart(year, 0) == 0 && MonthStart(year, 1) == 31 && MonthStart(year, 2) == 59 + leap
            && MonthStart(year, 3) == 90 + leap && MonthStart(year, 4) == 120 + leap && MonthStart(year, 5) == 151 + leap
            && MonthStart(year, 6) == 181 + leap && MonthStart(year, 7) == 212 + leap && MonthStart(year, 8) == 243 + leap
            && MonthStart(year, 9) == 273 + leap && MonthStart(year, 10) == 304 + leap && MonthStart(year, 11) == 334 + leap
  {
  }

  // ---------------------------------------------------------------- the conversion

  datatype Tm = Tm(sec: nat, min: nat, hour: nat, mday: nat, mon: nat, year: nat, wday: nat, yday: nat)

  lemma CycleParts(n: nat, qc: nat, c: nat, q: nat, y: nat)
    requires c <= 3 && q <= 24 && y <= 3 && n == y + 4 * q + 100 * c + 400 * qc
    ensures n / 4 == q + 25 * c + 100 * qc && n / 100 == c + 4 * qc && n / 400 == qc
    ensures n % 4 == y && n % 100 == y + 4 * q && n % 400 == y + 4 * q + 100 * c
  {
    DivMod(n, 4, q + 25 * c + 100 * qc, y);
    DivMod(n, 100, c + 4 * qc, y + 4 * q);
    DivMod(n, 400, qc, y + 4 * q + 100 * c);
  }

  /** What the cycles of 400, 100, 4 and 1 years leave: a year that starts in March, and a day in it. */
  lemma Cycles(days: nat, qc: nat, c: nat, q: nat, y: nat, rem: int)
    requires c <= 3 && q <= 24 && y <= 3 && days == qc * DAYS_PER_400Y + c * DAYS_PER_100Y + q * DAYS_PER_4Y + y * 365 + rem
    requires 0 <= rem && (rem < 365 || (rem == 365 && y == 3 && (q == 24 ==> c == 3)))
    ensures var years := y + 4 * q + 100 * c + 400 * qc;
            && days == MarchStart(years) + rem && rem < YearLength(2000 + years + 1)
            && (IsLeap(2000 + years) <==> y == 0 && (q != 0 || c == 0))
  {
    var years := y + 4 * q + 100 * c + 400 * qc;
    CycleParts(years, qc, c, q, y);
    CycleParts(2000 + years, qc + 5, c, q, y);
    NextLeap(2000 + years, y, q, c);
  }

  /** Whether the next year is a leap year. */
  lemma NextLeap(year: nat, y: nat, q: nat, c: nat)
    requires c <= 3 && q <= 24 && y <= 3
    requires year % 4 == y && year % 100 == y + 4 * q && year % 400 == y + 4 * q + 100 * c
    ensures IsLeap(year + 1) <==> y == 3 && (q == 24 ==> c == 3)
  {
    NextMod(year, 4);
    NextMod(year, 100);
    NextMod(year, 400);
  }

  /** The date that is `rem` days, or `k` months and `d` days, after 1 March of the year `y` years after 2000. */
  lemma DateIs(years: nat, rem: nat, k: nat, d: nat)
    requires k < 12 && rem == FromMarch(k) + d && d < MarchMonth(k) && rem < YearLength(2000 + years + 1)
    ensures var year, month := if k < 10 then 2000 + years else 2000 + years + 1, (k + 2) % 12;
            && IsDate(year, month, d + 1) && month == (if k < 10 then k + 2 else k - 10)
            && DayNumber(year, month, d + 1) == 11017 + MarchStart(years) + rem
            && DayOfYear(year, month, d + 1) ==
                 (var leap := if IsLeap(2000 + years) then 1 else 0;
                  if rem + 59 + leap >= 365 + leap then rem - 306 else rem + 59 + leap)
  {
    hide FromMarch, MonthStart, YearStart, MarchStart;
    FromMarchIs();
    if k < 10 {
      MonthStartIs(2000 + years);
      MarchStartIs(years);
    } else {
      MonthStartIs(2000 + years + 1);
      MonthStartIs(2000 + years);
      MarchStartIs(years);
      Next(years);
    }
  }

  /** Splits the days after a 400-year cycle started. */
  method SplitDays(days: nat) returns (years: nat, remdays: nat, leap: nat)
    ensures days == MarchStart(years) + remdays && remdays < YearLength(2000 + years + 1)
    ensures leap == if IsLeap(2000 + years) then 1 else 0
  {
    var qcCycles := days / DAYS_PER_400Y;
    remdays := days % DAYS_PER_400Y;
    var cCycles := remdays / DAYS_PER_100Y;
    if cCycles == 4 {
      cCycles := cCycles - 1;
    }
    remdays := remdays - cCycles * DAYS_PER_100Y;
    var qCycles := remdays / DAYS_PER_4Y;
    if qCycles == 25 {
      qCycles := qCycles - 1;
    }
    remdays := remdays - qCycles * DAYS_PER_4Y;
    var remyears := remdays / 365;
    if remyears == 4 {
      remyears := remyears - 1;
    }
    remdays := remdays - remyears * 365;
    leap := if remyears == 0 && (qCycles != 0 || cCycles == 0) then 1 else 0;
    years := remyears + 4 * qCycles + 100 * cCycles + 400 * qcCycles;
    Cycles(days, qcCycles, cCycles, qCycles, remyears, remdays);
  }

  /** The seconds that the result stands for: the difference to 1 March 2000 is taken in an unsigned word. */
  function Elapsed(t: nat): nat {
    if t >= LEAPOCH then t else t + WORD
  }

  /** The result is a date and a time of day, with the right day of the week and of the year, exactly `Elapsed(t)`
      seconds after the start of 1970: so it is right exactly from 1 March 2000 on.  The table of months is not
      left. */
  method SecsToTm(t: nat) returns (tm: Tm)
    requires t < WORD
    ensures tm.sec < 60 && tm.min < 60 && tm.hour < 24 && IsDate(1900 + tm.year, tm.mon, tm.mday)
    ensures var s := 86400 * DayNumber(1900 + tm.year, tm.mon, tm.mday) + 3600 * tm.hour + 60 * tm.min + tm.sec;
            s == Elapsed(t) && (s == t <==> t >= LEAPOCH)
    ensures tm.wday == WeekDay(DayNumber(1900 + tm.year, tm.mon, tm.mday))
    ensures tm.yday == DayOfYear(1900 + tm.year, tm.mon, tm.mday)
  {
    hide MarchMonth, FromMarch, DayNumber, DayOfYear, IsDate, MarchStart, WeekDay;
    var secs: nat := (t - LEAPOCH) % WORD;
    assert LEAPOCH + secs == Elapsed(t);
    var days, remsecs := secs / 86400, secs % 86400;
    var wday := (3 + days) % 7;
    var years: nat, remdays: nat, leap: nat := SplitDays(days);
    var yday := remdays + 31 + 28 + leap;
    if yday >= 365 + leap {
      yday := yday - (365 + leap);
    }
    var months: nat := 0;
    ghost var rem: nat := remdays;
    NoMonths();
    while MarchMonth(months) <= remdays
      invariant 0 <= months < 12 && rem == FromMarch(months) + remdays && rem < 366
      decreases 12 - months
    {
      OneMonth(months, rem, remdays);
      remdays := remdays - MarchMonth(months);
      months := months + 1;
    }
    DateIs(years, rem, months, remdays);
    TimeIs(secs, days, remsecs);
    var year, mon := years + 100, months + 2;
    if mon >= 12 {
      mon := mon - 12;
      year := year + 1;
    }
    tm := Tm(remsecs % 60, remsecs / 60 % 60, remsecs / 3600, remdays + 1, mon, year, wday, yday);
  }

  lemma NoMonths()
    ensures FromMarch(0) == 0
  {
  }

  /** The twelve months have 366 days. */
  lemma OneMonth(k: nat, rem: nat, d: nat)
    requires k < 12 && rem == FromMarch(k) + d && rem < 366 && MarchMonth(k) <= d
    ensures k + 1 < 12 && rem == FromMarch(k + 1) + (d - MarchMonth(k))
  {
    FromMarchIs();
  }

  lemma TimeIs(secs: nat, days: nat, remsecs: nat)
    requires days == secs / 86400 && remsecs == secs % 86400
    ensures remsecs == 3600 * (remsecs / 3600) + 60 * (remsecs / 60 % 60) + remsecs % 60 && remsecs / 3600 < 24
    ensures LEAPOCH + secs == 86400 * (11017 + days) + remsecs
    ensures (3 + days) % 7 == WeekDay(11017 + days)
  {
    DivMod(remsecs, 3600, remsecs / 60 / 60, remsecs / 60 % 60 * 60 + remsecs % 60);
    var q := (3 + days) / 7;
    DivMod(4 + (11017 + days), 7, 1574 + q, (3 + days) % 7);
  }
}
