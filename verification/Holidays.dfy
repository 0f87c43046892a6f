/** The Czech holidays of the forecaster, and the Easter computation behind them. */
module Holidays {
  import opened CivilDate

  datatype Date = Date(year: int, month: int, day: int)

  /** The anonymous Gregorian algorithm, as the source writes it. */
  function EasterSunday(year: int): Date
    requires year >= 0
  {
    var a := year % 19;
    var b := year / 100;
    var c := year % 100;
    var d := b / 4;
    var e := b % 4;
    var f := (b + 8) / 25;
    var g := (b - f + 1) / 3;
    var h := (19 * a + b - d - g + 15) % 30;
    var i := c / 4;
    var k := c % 4;
    var l := (32 + 2 * e + 2 * i - h - k) % 7;
    var m := (a + 11 * h + 22 * l) / 451;
    var n := h + l - 7 * m + 114;
    Date(year, n / 31, n % 31 + 1)
  }

  function DayOf(date: Date): int {
    DayNumber(date.year, date.month, date.day)
  }

  // ---- what Easter is: the Sunday after the ecclesiastical full moon ----

  /** Days from 21 March to the Gregorian paschal full moon: the golden number, the
      solar correction (three skipped leap days in 400 years) and the lunar correction
      (eight days in 2500 years), with the two classical exceptions. */
  function MoonOffset(year: int): int
    requires year >= 0
  {
    var golden := year % 19;
    var century := year / 100;
    var solar := century - century / 4;
    var lunar := (8 * century + 13) / 25;
    var h := (19 * golden + solar - lunar + 15) % 30;
    if h == 29 || (h == 28 && golden > 10) then h - 1 else h
  }

  function PaschalFullMoon(year: int): int
    requires year >= 0
  {
    DayNumber(year, 3, 21) + MoonOffset(year)
  }

  lemma LunarCorrections(b: int)
    requires b >= 0
    ensures (b - (b + 8) / 25 + 1) / 3 == (8 * b + 13) / 25
  {
    var q, r := b / 25, b % 25;
    assert b == 25 * q + r;
    assert (b + 8) / 25 == q + (if r >= 17 then 1 else 0);
    assert (8 * b + 13) / 25 == 8 * q + (8 * r + 13) / 25;
  }

  /** A year split the way the algorithm splits it. */
  lemma YearParts(year: int, d: int, e: int, i: int, k: int)
    requires year == 400 * d + 100 * e + 4 * i + k && 0 <= e < 4 && 0 <= i < 25 && 0 <= k < 4
    ensures year / 400 == d && year / 100 == 4 * d + e && year / 4 == 100 * d + 25 * e + i
    ensures year / 100 / 4 == d && year / 100 % 4 == e && year % 100 / 4 == i && year % 100 % 4 == k
  {
    assert year / 100 == 4 * d + e;
  }

  /** The weekday of 1 March, in the parts of the year. */
  lemma MarchWeekday(year: int, d: int, e: int, i: int, k: int)
    requires year == 400 * d + 100 * e + 4 * i + k && 0 <= e < 4 && 0 <= i < 25 && 0 <= k < 4
    ensures Weekday(DayNumber(year, 3, 1)) == (5 * e + 5 * i + k + 3) % 7
  {
    MarchFirst(year);
    YearParts(year, d, e, i, k);
    hide DayNumber;
    var weeks := 20871 * d + 5217 * e + 208 * i + 52 * k - 102781;
    assert DayNumber(year, 3, 1) + 4 == 7 * weeks + (5 * e + 5 * i + k + 3);
    WholeWeeks(weeks, 5 * e + 5 * i + k + 3);
  }

  lemma MarchFirst(year: int)
    ensures DayNumber(year, 3, 1) == 365 * (year - 1969) + year / 4 - year / 100 + year / 400 - 783
  {
    YearLength(year);
    assert DayNumber(year, 3, 1) == YearStart(year + 1) - 306;
  }

  lemma WholeWeeks(weeks: int, rest: int)
    ensures (7 * weeks + rest) % 7 == rest % 7
  {
  }

  /** The algorithm's `l` counts the days from the day after the moon to a Sunday. */
  lemma SundayLetter(weekday: int, e: int, i: int, k: int, h: int)
    requires 0 <= h < 30 && 0 <= e < 4 && 0 <= i < 25 && 0 <= k < 4 && weekday == (5 * e + 5 * i + k + 3) % 7
    ensures var l := (32 + 2 * e + 2 * i - h - k) % 7; (weekday + 21 + h + l) % 7 == 0
  {
    var l := (32 + 2 * e + 2 * i - h - k) % 7;
    var q, p := (32 + 2 * e + 2 * i - h - k) / 7, (5 * e + 5 * i + k + 3) / 7;
    assert weekday + 21 + h + l == 7 * (e + i + 8 - q - p);
  }

  /** The correction term moves the Sunday back by a week exactly when the exceptional
      full moon, one day earlier, falls on a Saturday. */
  lemma CorrectionTerm(a: int, h: int, l: int)
    requires 0 <= a < 19 && 0 <= h < 30 && 0 <= l < 7
    ensures var m := (a + 11 * h + 22 * l) / 451;
      m == if l == 6 && (h == 29 || (h == 28 && a > 10)) then 1 else 0
  {
  }

  lemma EasterDay(year: int, n: int)
    requires year >= 0 && 114 <= n <= 148
    ensures DayOf(Date(year, n / 31, n % 31 + 1)) == DayNumber(year, 3, 1) + n - 93
    ensures n / 31 == (if n < 124 then 3 else 4) && n % 31 == (if n < 124 then n - 93 else n - 124)
  {
  }

  /** EASTER. In every year the computed date is a Sunday between 22 March and 25 April,
      and it is the first Sunday after the paschal full moon. */
  lemma EasterIsTheSundayAfterTheFullMoon(year: int)
    requires year >= 0
    ensures var date := EasterSunday(year);
      && Weekday(DayOf(date)) == 0
      && PaschalFullMoon(year) < DayOf(date) <= PaschalFullMoon(year) + 7
      && DayNumber(year, 3, 22) <= DayOf(date) <= DayNumber(year, 4, 25)
      && date.year == year
      && ((date.month == 3 && 22 <= date.day <= 31) || (date.month == 4 && 1 <= date.day <= 25))
  {
    hide DayNumber, EasterSunday, MoonOffset, Weekday;
    var a, b, c := year % 19, year / 100, year % 100;
    LunarCorrections(b);
    var h := (19 * a + b - b / 4 - (b - (b + 8) / 25 + 1) / 3 + 15) % 30;
    var l := (32 + 2 * (b % 4) + 2 * (c / 4) - h - c % 4) % 7;
    var m := (a + 11 * h + 22 * l) / 451;
    CorrectionTerm(a, h, l);
    EasterDay(year, h + l - 7 * m + 114);
    MoonOf(year, a, b, h);
    EasterOf(year, h, l, m);
    MarchAndApril(year);
    EasterWeekday(year, h, l, m);
  }

  lemma EasterWeekday(year: int, h: int, l: int, m: int)
    requires year >= 0 && 0 <= h < 30
    requires l == (32 + 2 * (year / 100 % 4) + 2 * (year % 100 / 4) - h - year % 100 % 4) % 7
    ensures Weekday(DayNumber(year, 3, 1) + 21 + h + l - 7 * m) == 0
  {
    hide DayNumber;
    var b, c := year / 100, year % 100;
    var d, e, i, k := b / 4, b % 4, c / 4, c % 4;
    assert year == 400 * d + 100 * e + 4 * i + k;
    MarchWeekday(year, d, e, i, k);
    var march := DayNumber(year, 3, 1);
    SundayLetter(Weekday(march), e, i, k, h);
    hide Weekday;
    WeekdayAfter(march, 21 + h + l - 7 * m);
    WholeWeeks(-m, Weekday(march) + 21 + h + l);
  }

  lemma MoonOf(year: int, a: int, b: int, h: int)
    requires year >= 0 && a == year % 19 && b == year / 100
    requires h == (19 * a + b - b / 4 - (8 * b + 13) / 25 + 15) % 30
    ensures MoonOffset(year) == if h == 29 || (h == 28 && a > 10) then h - 1 else h
  {
    assert 19 * a + (b - b / 4) - (8 * b + 13) / 25 + 15 == 19 * a + b - b / 4 - (8 * b + 13) / 25 + 15;
  }

  lemma EasterOf(year: int, h: int, l: int, m: int)
    requires year >= 0
    requires var b := year / 100;
      && h == (19 * (year % 19) + b - b / 4 - (b - (b + 8) / 25 + 1) / 3 + 15) % 30
      && l == (32 + 2 * (b % 4) + 2 * (year % 100 / 4) - h - year % 100 % 4) % 7
      && m == (year % 19 + 11 * h + 22 * l) / 451
    ensures var n := h + l - 7 * m + 114; EasterSunday(year) == Date(year, n / 31, n % 31 + 1)
  {
  }

  lemma MarchAndApril(year: int)
    ensures DayNumber(year, 3, 21) == DayNumber(year, 3, 1) + 20
    ensures DayNumber(year, 3, 22) == DayNumber(year, 3, 1) + 21
    ensures DayNumber(year, 4, 25) == DayNumber(year, 3, 1) + 55
  {
  }

  lemma WeekdayAfter(day: int, days: int)
    ensures Weekday(day + days) == (Weekday(day) + days) % 7
  {
  }

  // ---- holidays ----

  predicate FixedHoliday(month: int, day: int) {
    (month, day) in {(1, 1), (5, 1), (5, 8), (7, 5), (7, 6), (9, 28), (10, 28), (11, 17), (12, 24), (12, 25), (12, 26)}
  }

  predicate MovableHoliday(date: Date)
    requires date.year >= 0
  {
    var easter := DayOf(EasterSunday(date.year));
    DayOf(date) == easter - 2 || DayOf(date) == easter + 1
  }

  predicate IsCzechHoliday(date: Date)
    requires date.year >= 0
  {
    FixedHoliday(date.month, date.day) || MovableHoliday(date)
  }

  /** The movable holidays are a Friday and a Monday in spring, so they take away two
      working days in every year. */
  lemma MovableHolidaysAreWeekdays(date: Date)
    requires date.year >= 0 && MovableHoliday(date)
    ensures Weekday(DayOf(date)) == 5 || Weekday(DayOf(date)) == 1
    ensures DayNumber(date.year, 3, 20) <= DayOf(date) <= DayNumber(date.year, 4, 26)
  {
    hide EasterSunday, DayNumber, DayOf, Weekday, PaschalFullMoon;
    EasterIsTheSundayAfterTheFullMoon(date.year);
    EasterBounds(date.year);
    var easter := DayOf(EasterSunday(date.year));
    WeekdayAfter(easter, -2);
    WeekdayAfter(easter, 1);
  }

  lemma EasterBounds(year: int)
    ensures DayNumber(year, 3, 20) == DayNumber(year, 3, 22) - 2
    ensures DayNumber(year, 4, 26) == DayNumber(year, 4, 25) + 1
  {
  }
}
