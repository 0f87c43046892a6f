/** The proleptic Gregorian calendar as `Date.UTC` counts it, in days since 1970. */
module CivilDate {
  const DAY_MS := 86400000

  predicate LeapYear(year: int) {
    year % 4 == 0 && (year % 100 != 0 || year % 400 == 0)
  }

  /** The day number of 1 January. */
  function YearStart(year: int): int {
    365 * (year - 1970) + (year - 1) / 4 - (year - 1) / 100 + (year - 1) / 400 - 477
  }

  function DaysBeforeMonth(year: int, month: int): int {
    var leap := if LeapYear(year) then 1 else 0;
    if month <= 1 then 0
    else if month == 2 then 31
    else if month == 3 then 59 + leap
    else if month == 4 then 90 + leap
    else if month == 5 then 120 + leap
    else if month == 6 then 151 + leap
    else if month == 7 then 181 + leap
    else if month == 8 then 212 + leap
    else if month == 9 then 243 + leap
    else if month == 10 then 273 + leap
    else if month == 11 then 304 + leap
    else 334 + leap
  }

  function DayNumber(year: int, month: int, day: int): int {
    YearStart(year) + DaysBeforeMonth(year, month) + day - 1
  }

  /** 0 is Sunday; the epoch was a Thursday. */
  function Weekday(dayNumber: int): int {
    (dayNumber + 4) % 7
  }

  lemma FourYears(year: int)
    ensures year / 4 - (year - 1) / 4 == if year % 4 == 0 then 1 else 0
  {
  }

  lemma HundredYears(year: int)
    ensures year / 100 - (year - 1) / 100 == if year % 100 == 0 then 1 else 0
    ensures year % 100 == 0 ==> year % 4 == 0
  {
    var q, r := year / 100, year % 100;
    InCentury(year, q, r);
    if r == 0 {
      InCentury(year - 1, q - 1, 99);
      FourDividesCentury(year, q);
    } else {
      InCentury(year - 1, q, r - 1);
    }
  }

  lemma FourDividesCentury(year: int, q: int)
    requires year == 100 * q
    ensures year % 4 == 0
  {
    assert year == 4 * (25 * q);
  }

  lemma InCentury(n: int, q: int, r: int)
    requires n == 100 * q + r && 0 <= r < 100
    ensures n / 100 == q && n % 100 == r
  {
  }

  lemma FourHundredYears(year: int)
    ensures year / 400 - (year - 1) / 400 == if year % 400 == 0 then 1 else 0
    ensures year % 400 == 0 ==> year % 100 == 0
  {
    var q, r := year / 400, year % 400;
    if r == 0 {
      InFourCenturies(year - 1, q - 1, 399);
      InCentury(year, 4 * q, 0);
    } else {
      InFourCenturies(year - 1, q, r - 1);
    }
  }

  lemma InFourCenturies(n: int, q: int, r: int)
    requires n == 400 * q + r && 0 <= r < 400
    ensures n / 400 == q && n % 400 == r
  {
  }

  lemma YearLength(year: int)
    ensures YearStart(year + 1) - YearStart(year) == if LeapYear(year) then 366 else 365
  {
    FourYears(year);
    HundredYears(year);
    FourHundredYears(year);
  }
}
