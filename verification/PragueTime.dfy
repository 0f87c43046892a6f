/** Local time in Prague under the summer-time rule of Articles 2 and 3 of Directive
    2000/84/EC: summer time from 01:00 UTC on the last Sunday of March to 01:00 UTC on
    the last Sunday of October. */
module PragueTime {
  import opened CivilDate

  const HOUR := 3600000

  function LastSunday(year: int, month: int): int {
    var last := DayNumber(year, month, 31);
    last - Weekday(last)
  }

  function SummerStart(year: int): int {
    LastSunday(year, 3) * DAY_MS + HOUR
  }

  function SummerEnd(year: int): int {
    LastSunday(year, 10) * DAY_MS + HOUR
  }

  ghost predicate Summer(t: int) {
    exists year :: SummerStart(year) <= t < SummerEnd(year)
  }

  /** What `Intl` answers: local clock reading minus instant, in milliseconds. */
  ghost predicate FollowsDirective(offset: int -> int) {
    forall t :: offset(t) == if Summer(t) then 2 * HOUR else HOUR
  }

  // ---- the order of the transitions ----

  lemma SummerWithinYear(year: int)
    ensures DayNumber(year, 3, 25) * DAY_MS + HOUR <= SummerStart(year) <= DayNumber(year, 3, 31) * DAY_MS + HOUR
    ensures DayNumber(year, 10, 25) * DAY_MS + HOUR <= SummerEnd(year) <= DayNumber(year, 10, 31) * DAY_MS + HOUR
  {
    hide Weekday;
    WeekdayRange(DayNumber(year, 3, 31));
    WeekdayRange(DayNumber(year, 10, 31));
  }

  lemma WeekdayRange(day: int)
    ensures 0 <= Weekday(day) <= 6
  {
  }

  /** Months of a year in a row, and the year that follows. */
  lemma YearLayout(year: int)
    ensures var start := DayNumber(year, 1, 1);
      && start + 59 <= DayNumber(year, 3, 1) <= start + 60
      && DayNumber(year, 3, 25) == DayNumber(year, 3, 1) + 24 && DayNumber(year, 3, 31) == DayNumber(year, 3, 1) + 30
      && DayNumber(year, 10, 25) == DayNumber(year, 3, 1) + 238
      && DayNumber(year, 10, 31) == DayNumber(year, 3, 1) + 244
      && DayNumber(year + 1, 1, 1) == DayNumber(year, 3, 1) + 306
  {
    YearLength(year);
  }

  lemma SeasonsAlternate(year: int)
    ensures SummerStart(year) + 100 * DAY_MS <= SummerEnd(year)
    ensures SummerEnd(year) + 100 * DAY_MS <= SummerStart(year + 1)
  {
    hide SummerStart, SummerEnd, DayNumber;
    SummerWithinYear(year);
    SummerWithinYear(year + 1);
    YearLayout(year);
    YearLayout(year + 1);
  }

  lemma {:induction false} SeasonsInOrder(year: int, later: int)
    requires year < later
    ensures SummerEnd(year) < SummerStart(later)
    decreases later - year
  {
    hide SummerStart, SummerEnd;
    SeasonsAlternate(later - 1);
    if year < later - 1 {
      SeasonsInOrder(year, later - 1);
    }
  }

  /** Every instant lies between the ends of two successive summers. */
  lemma {:induction false} SeasonOf(t: int, guess: int) returns (year: int)
    ensures SummerEnd(year - 1) <= t < SummerEnd(year)
    decreases if t < SummerEnd(guess - 1) then SummerEnd(guess - 1) - t
              else if t >= SummerEnd(guess) then t - SummerEnd(guess) + 1 else 0
  {
    hide SummerStart, SummerEnd;
    SeasonsAlternate(guess - 2);
    SeasonsAlternate(guess - 1);
    SeasonsAlternate(guess);
    SeasonsAlternate(guess + 1);
    if t < SummerEnd(guess - 1) {
      year := SeasonOf(t, guess - 1);
    } else if t >= SummerEnd(guess) {
      year := SeasonOf(t, guess + 1);
    } else {
      year := guess;
    }
  }

  /** Around one season the offset depends on two transitions only. */
  lemma OffsetInSeason(offset: int -> int, year: int, x: int)
    requires FollowsDirective(offset)
    requires SummerEnd(year - 1) - 2 * HOUR <= x < SummerEnd(year)
    ensures offset(x) == if x < SummerEnd(year - 1) || x >= SummerStart(year) then 2 * HOUR else HOUR
  {
    hide SummerStart, SummerEnd;
    SeasonsAlternate(year - 1);
    if Summer(x) {
      var y :| SummerStart(y) <= x < SummerEnd(y);
      if y < year - 1 { SeasonsInOrder(y, year - 1); }
      if year < y { SeasonsInOrder(year, y); }
    }
  }

  // ---- wall-clock time to an instant ----

  /** The instant `t` shows as the clock reading `local` in Prague. */
  predicate Renders(offset: int -> int, t: int, local: int) {
    t + offset(t) == local
  }

  /** `pragueLocalToIso` on a parsed reading: one guess, refined once. */
  function PragueLocalToInstant(offset: int -> int, guess: int): int {
    var result := guess - offset(guess);
    guess - offset(result)
  }

  /** The hour the clocks skip in March. */
  ghost predicate InSkippedHour(local: int) {
    exists year :: SummerStart(year) + HOUR <= local < SummerStart(year) + 2 * HOUR
  }

  lemma SkippedInSeason(year: int, local: int)
    requires SummerEnd(year - 1) <= local < SummerEnd(year)
    ensures InSkippedHour(local) <==> SummerStart(year) + HOUR <= local < SummerStart(year) + 2 * HOUR
  {
    hide SummerStart, SummerEnd;
    SeasonsAlternate(year - 1);
    SeasonsAlternate(year);
    if InSkippedHour(local) {
      var y :| SummerStart(y) + HOUR <= local < SummerStart(y) + 2 * HOUR;
      SeasonsAlternate(y);
      if y < year { EndsInOrder(y, year - 1); }
      if year < y { SeasonsInOrder(year, y); }
    }
  }

  lemma EndsInOrder(year: int, later: int)
    requires year <= later
    ensures SummerEnd(year) <= SummerEnd(later)
  {
    hide SummerStart, SummerEnd;
    if year < later {
      SeasonsInOrder(year, later);
      SeasonsAlternate(later);
    }
  }

  /** THE CONVERSION. The instant found shows the reading it was made from exactly when
      that reading exists, that is outside the skipped hour of March; and when a reading
      occurs twice in October the later instant is the one found. */
  lemma LocalToInstantIsRight(offset: int -> int, local: int)
    requires FollowsDirective(offset)
    ensures Renders(offset, PragueLocalToInstant(offset, local), local) <==> !InSkippedHour(local)
    ensures (exists t :: Renders(offset, t, local)) <==> !InSkippedHour(local)
    ensures forall t :: Renders(offset, t, local) ==> t <= PragueLocalToInstant(offset, local)
  {
    var year := SeasonOf(local, 1970);
    SkippedInSeason(year, local);
    SeasonsAlternate(year - 1);
    OffsetInSeason(offset, year, local);
    OffsetInSeason(offset, year, local - HOUR);
    OffsetInSeason(offset, year, local - 2 * HOUR);
    hide SummerStart, SummerEnd, InSkippedHour, Summer;
    forall t | Renders(offset, t, local) ensures t == local - HOUR || t == local - 2 * HOUR {
    }
  }

  /** In the skipped hour the instant found shows the reading one hour later. */
  lemma SkippedHourShowsOneLater(offset: int -> int, local: int)
    requires FollowsDirective(offset) && InSkippedHour(local)
    ensures Renders(offset, PragueLocalToInstant(offset, local), local + HOUR)
  {
    var year := SeasonOf(local, 1970);
    SkippedInSeason(year, local);
    SeasonsAlternate(year - 1);
    OffsetInSeason(offset, year, local);
    OffsetInSeason(offset, year, local - HOUR);
    OffsetInSeason(offset, year, local - 2 * HOUR);
    hide SummerStart, SummerEnd, InSkippedHour, Summer;
  }

  // Half past two in the night of 29 March 2026.
  const SKIPPED_READING := DayNumber(2026, 3, 29) * DAY_MS + 5 * HOUR / 2

  /** Such a reading. */
  lemma SkippedReading()
    ensures InSkippedHour(SKIPPED_READING)
  {
    assert DayNumber(2026, 3, 31) == 20543;
    assert SummerStart(2026) == DayNumber(2026, 3, 29) * DAY_MS + HOUR;
  }

  // ---- the start of a month ----

  function MonthGuess(year: int, month: int): int {
    DayNumber(year, month, 1) * DAY_MS
  }

  function PragueMonthStart(offset: int -> int, year: int, month: int): int {
    var guess := MonthGuess(year, month);
    guess - offset(guess)
  }

  lemma MonthBounds(year: int, month: int)
    requires 1 <= month <= 12
    ensures var day, march := DayNumber(year, month, 1), DayNumber(year, 3, 1);
      && (month <= 3 ==> DayNumber(year, 1, 1) <= day <= march)
      && (4 <= month <= 10 ==> march + 31 <= day <= march + 214)
      && (11 <= month ==> march + 245 <= day <= march + 275)
      && MonthGuess(year, month) == day * DAY_MS
  {
  }

  /** Every turn of a month is hours away from any transition. */
  lemma MonthInSeason(year: int, month: int)
    requires 1 <= month <= 12
    ensures var guess := MonthGuess(year, month);
      && (month <= 3 ==> SummerEnd(year - 1) + 2 * HOUR <= guess < SummerStart(year))
      && (4 <= month <= 10 ==> SummerStart(year) + 2 * HOUR <= guess < SummerEnd(year))
      && (11 <= month ==> SummerEnd(year) + 2 * HOUR <= guess < SummerStart(year + 1))
  {
    hide SummerStart, SummerEnd, DayNumber, MonthGuess;
    MonthBounds(year, month);
    SummerWithinYear(year);
    YearLayout(year);
    if month <= 3 {
      SummerWithinYear(year - 1);
      YearLayout(year - 1);
    } else if month >= 11 {
      SummerWithinYear(year + 1);
      YearLayout(year + 1);
    }
  }

  /** The offset does not change within two hours before the turn of a month. */
  lemma MonthTurnIsQuiet(offset: int -> int, year: int, month: int)
    requires FollowsDirective(offset) && 1 <= month <= 12
    ensures var guess := MonthGuess(year, month);
      && offset(guess) == (if 4 <= month <= 10 then 2 * HOUR else HOUR)
      && offset(guess - HOUR) == offset(guess) && offset(guess - 2 * HOUR) == offset(guess)
  {
    hide SummerStart, SummerEnd, MonthGuess, FollowsDirective;
    MonthInSeason(year, month);
    var guess := MonthGuess(year, month);
    var season := if month <= 10 then year else year + 1;
    SeasonsAlternate(season - 1);
    SeasonsAlternate(season);
    OffsetInSeason(offset, season, guess);
    OffsetInSeason(offset, season, guess - 2 * HOUR);
    OffsetInSeason(offset, season, guess - HOUR);
  }

  /** `pragueMonthStart` is exact, in one step: it is the only instant at which the clock
      shows midnight on the first of the month. */
  lemma MonthStartIsExact(offset: int -> int, year: int, month: int)
    requires FollowsDirective(offset) && 1 <= month <= 12
    ensures var start := PragueMonthStart(offset, year, month);
      && Renders(offset, start, MonthGuess(year, month))
      && PragueLocalToInstant(offset, MonthGuess(year, month)) == start
      && forall t :: Renders(offset, t, MonthGuess(year, month)) ==> t == start
  {
    MonthTurnIsQuiet(offset, year, month);
    var guess := MonthGuess(year, month);
    var start := PragueMonthStart(offset, year, month);
    hide MonthGuess;
    forall t | Renders(offset, t, guess) ensures t == start {
      assert t == guess - HOUR || t == guess - 2 * HOUR;
    }
  }

  /** The twelve-month cycle of calendar months. */
  function NextYear(year: int, month: int): int {
    if month == 12 then year + 1 else year
  }

  function NextMonth(month: int): int {
    if month == 12 then 1 else month + 1
  }

  lemma MonthStartsIncrease(offset: int -> int, year: int, month: int)
    requires FollowsDirective(offset) && 1 <= month <= 12
    ensures PragueMonthStart(offset, year, month)
      < PragueMonthStart(offset, NextYear(year, month), NextMonth(month))
  {
    MonthTurnIsQuiet(offset, year, month);
    MonthTurnIsQuiet(offset, NextYear(year, month), NextMonth(month));
    MonthsIncrease(year, month);
    hide MonthGuess, FollowsDirective;
  }

  lemma MonthsIncrease(year: int, month: int)
    requires 1 <= month <= 12
    ensures MonthGuess(year, month) + 28 * DAY_MS <= MonthGuess(NextYear(year, month), NextMonth(month))
  {
    YearLength(year);
  }
}
