/** The walk-forward forecaster: bounded windows, lag lookups and the evaluation. */
module Forecast {
  import opened Basics
  import opened CivilDate
  import opened Holidays
  import opened DispatchModel

  datatype Signal = ProductionKwh | ConsumptionKwh

  datatype ForecastMethod = DayType28d | Slot28d | Persistence24h | Persistence168h

  datatype DayType = Free | Work

  /** Local date, weekday (0 is Sunday) and quarter-hour of an instant. */
  datatype Parts = Parts(date: Date, weekday: int, slot: int)

  type Calendar = int -> Parts

  datatype SlotKey = All(slot: int) | OfDay(day: DayType, slot: int)

  datatype Observation = Observation(at: int, value: real)

  const WINDOW := 56
  const USED := 28

  function DayTypeOf(parts: Parts): DayType {
    if parts.weekday == 6 || parts.weekday == 0 || (parts.date.year >= 0 && IsCzechHoliday(parts.date)) then Free
    else Work
  }

  function ValueOf(signal: Signal, point: Point): real {
    match signal
    case ProductionKwh => point.productionKwh
    case ConsumptionKwh => point.consumptionKwh
  }

  function Tail<T>(s: seq<T>, n: nat): seq<T> {
    if |s| > n then s[|s| - n..] else s
  }

  /** What `observations.push(...)` followed by the bounded `shift` does. */
  function PushBounded(window: seq<Observation>, o: Observation): seq<Observation> {
    var grown := window + [o];
    if |grown| > WINDOW then grown[1..] else grown
  }

  function SumValues(s: seq<Observation>): real {
    if s == [] then 0.0 else SumValues(s[..|s| - 1]) + s[|s| - 1].value
  }

  function Mean(s: seq<Observation>): Option<real> {
    if s == [] then None else Some(SumValues(s) / |s| as real)
  }

  // ---- the meaning of the state: functions of everything observed so far ----

  function LastAt(history: seq<Point>): Option<int> {
    if history == [] then None
    else
      var before := LastAt(history[..|history| - 1]);
      var at := history[|history| - 1].startAt;
      if before.Some? && before.value > at then before else Some(at)
  }

  /** The value observed last for a timestamp. */
  function ObservedAt(history: seq<Point>, signal: Signal, at: int): Option<real> {
    if history == [] then None
    else if history[|history| - 1].startAt == at then Some(ValueOf(signal, history[|history| - 1]))
    else ObservedAt(history[..|history| - 1], signal, at)
  }

  predicate Matches(parts: Parts, key: SlotKey) {
    key == All(parts.slot) || key == OfDay(DayTypeOf(parts), parts.slot)
  }

  /** Every observation ever made for a slot key. */
  function KeyHistory(calendar: Calendar, history: seq<Point>, signal: Signal, key: SlotKey): seq<Observation> {
    if history == [] then []
    else
      var last := history[|history| - 1];
      KeyHistory(calendar, history[..|history| - 1], signal, key)
      + if Matches(calendar(last.startAt), key) then [Observation(last.startAt, ValueOf(signal, last))] else []
  }

  /** What is left in a slot's window after pushing every observation and dropping the
      oldest beyond the bound, one at a time. */
  function StoredWindow(calendar: Calendar, history: seq<Point>, signal: Signal, key: SlotKey): seq<Observation> {
    if history == [] then []
    else
      var last := history[|history| - 1];
      var before := StoredWindow(calendar, history[..|history| - 1], signal, key);
      if Matches(calendar(last.startAt), key)
      then PushBounded(before, Observation(last.startAt, ValueOf(signal, last))) else before
  }

  function LastValue(history: seq<Point>, signal: Signal): real {
    if history == [] then 0.0 else ValueOf(signal, history[|history| - 1])
  }

  function LagOf(m: ForecastMethod): int {
    if m.Persistence24h? then DAY_MS else 7 * DAY_MS
  }

  /** Step back by whole lags until the source is not after the last observation. */
  function LagSource(source: int, lag: int, lastAt: int): int
    requires lag > 0
    decreases if source > lastAt then source - lastAt else 0
  {
    if source > lastAt then LagSource(source - lag, lag, lastAt) else source
  }

  function KeyFor(m: ForecastMethod, parts: Parts): SlotKey {
    if m.DayType28d? then OfDay(DayTypeOf(parts), parts.slot) else All(parts.slot)
  }

  /** What a method predicts from a complete history. */
  function Prediction(calendar: Calendar, history: seq<Point>, signal: Signal, m: ForecastMethod, target: int)
    : Option<real>
  {
    match LastAt(history)
    case None => None
    case Some(lastAt) =>
      if m.Persistence24h? || m.Persistence168h?
      then ObservedAt(history, signal, LagSource(target - LagOf(m), LagOf(m), lastAt))
      else Mean(Tail(KeyHistory(calendar, history, signal, KeyFor(m, calendar(target))), USED))
  }

  function ForecastValue(
    calendar: Calendar, history: seq<Point>, signal: Signal, m: ForecastMethod, target: int): real
  {
    match Prediction(calendar, history, signal, m, target)
    case Some(value) => Max(0.0, value)
    case None => Max(0.0, LastValue(history, signal))
  }

  // ---- window arithmetic ----

  lemma PushKeepsTail(full: seq<Observation>, o: Observation)
    ensures PushBounded(Tail(full, WINDOW), o) == Tail(full + [o], WINDOW)
  {
  }

  lemma TailOfTail(full: seq<Observation>)
    ensures Tail(Tail(full, WINDOW), USED) == Tail(full, USED)
  {
  }

  /** The bounded window is the end of the complete history of its slot. */
  lemma {:induction false} StoredWindowIsTail(calendar: Calendar, history: seq<Point>, signal: Signal, key: SlotKey)
    ensures StoredWindow(calendar, history, signal, key) == Tail(KeyHistory(calendar, history, signal, key), WINDOW)
  {
    hide Matches, PushBounded, Tail;
    if history == [] {
      NothingToDrop();
    } else {
      var init, last := history[..|history| - 1], history[|history| - 1];
      StoredWindowIsTail(calendar, init, signal, key);
      var full := KeyHistory(calendar, init, signal, key);
      PushKeepsTail(full, Observation(last.startAt, ValueOf(signal, last)));
      assert full + [] == full;
    }
  }

  lemma NothingToDrop()
    ensures Tail<Observation>([], WINDOW) == []
  {
  }

  function UpTo(s: seq<Observation>, lastAt: int): seq<Observation> {
    if s == [] then []
    else UpTo(s[..|s| - 1], lastAt) + if s[|s| - 1].at <= lastAt then [s[|s| - 1]] else []
  }

  ghost predicate AllBy(s: seq<Observation>, moment: Option<int>) {
    forall i :: 0 <= i < |s| ==> moment.Some? && s[i].at <= moment.value
  }

  lemma {:induction false} UpToKeepsAll(s: seq<Observation>, lastAt: int)
    requires AllBy(s, Some(lastAt))
    ensures UpTo(s, lastAt) == s
  {
    if s != [] {
      var init, last := s[..|s| - 1], s[|s| - 1];
      assert s == init + [last];
      assert last.at <= lastAt;
      UpToKeepsAll(init, lastAt);
    }
  }

  lemma {:induction false} KeyHistoryIsPast(calendar: Calendar, history: seq<Point>, signal: Signal, key: SlotKey)
    ensures AllBy(KeyHistory(calendar, history, signal, key), LastAt(history))
  {
    if history != [] {
      var init := history[..|history| - 1];
      KeyHistoryIsPast(calendar, init, signal, key);
      var s, before := KeyHistory(calendar, history, signal, key), KeyHistory(calendar, init, signal, key);
      assert forall i :: 0 <= i < |before| ==> s[i] == before[i];
    }
  }

  /** What one more observation does to each of the four summaries. */
  lemma HistoryGrows(calendar: Calendar, before: seq<Point>, point: Point)
    ensures var after := before + [point];
      && LastAt(after) == (if LastAt(before).Some? && LastAt(before).value > point.startAt then LastAt(before)
                           else Some(point.startAt))
      && (forall signal :: LastValue(after, signal) == ValueOf(signal, point))
      && (forall signal, at :: ObservedAt(after, signal, at)
            == if at == point.startAt then Some(ValueOf(signal, point)) else ObservedAt(before, signal, at))
      && (forall signal, key :: StoredWindow(calendar, after, signal, key)
            == if Matches(calendar(point.startAt), key)
               then PushBounded(StoredWindow(calendar, before, signal, key),
                                Observation(point.startAt, ValueOf(signal, point)))
               else StoredWindow(calendar, before, signal, key))
  {
    assert (before + [point])[..|before + [point]| - 1] == before;
  }

  // ---- the state object ----

  type Windows = map<(Signal, SlotKey), seq<Observation>>

  function WindowOf(windows: Windows, signal: Signal, key: SlotKey): seq<Observation> {
    if (signal, key) in windows then windows[(signal, key)] else []
  }

  class ForecastState {
    const calendar: Calendar
    var byTimestamp: map<(Signal, int), real>
    var slots: Windows
    var lastAt: Option<int>
    var lastValue: map<Signal, real>
    ghost var history: seq<Point>

    /** The fields are a bounded summary of the history: each window is the fold of its pushes. */
    ghost predicate Valid()
      reads this
    {
      && lastAt == LastAt(history)
      && lastValue == map[ProductionKwh := LastValue(history, ProductionKwh),
                          ConsumptionKwh := LastValue(history, ConsumptionKwh)]
      && (forall signal, at ::
            (if (signal, at) in byTimestamp then Some(byTimestamp[(signal, at)]) else None)
            == ObservedAt(history, signal, at))
      && (forall signal, key :: WindowOf(slots, signal, key) == StoredWindow(calendar, history, signal, key))
    }

    constructor (calendar: Calendar)
      ensures Valid() && history == [] && this.calendar == calendar
    {
      this.calendar := calendar;
      byTimestamp := map[];
      slots := map[];
      lastAt := None;
      lastValue := map[ProductionKwh := 0.0, ConsumptionKwh := 0.0];
      history := [];
    }

    method Observe(point: Point)
      requires Valid()
      modifies this
      ensures Valid() && history == old(history) + [point]
    {
      ghost var before := history;
      HistoryGrows(calendar, before, point);
      hide LastAt, ObservedAt, StoredWindow;
      hide DayTypeOf, Matches, PushBounded;
      var windows := PushAll(calendar, slots, ProductionKwh, point, before);
      assert forall key :: WindowOf(windows, ConsumptionKwh, key) == WindowOf(slots, ConsumptionKwh, key);
      windows := PushAll(calendar, windows, ConsumptionKwh, point, before);
      byTimestamp := byTimestamp[(ProductionKwh, point.startAt) := point.productionKwh]
                                [(ConsumptionKwh, point.startAt) := point.consumptionKwh];
      slots := windows;
      lastValue := map[ProductionKwh := point.productionKwh, ConsumptionKwh := point.consumptionKwh];
      lastAt := if lastAt.Some? && lastAt.value > point.startAt then lastAt else Some(point.startAt);
      history := before + [point];
    }

    method Predict(signal: Signal, m: ForecastMethod, target: int) returns (r: Option<real>)
      requires Valid()
      ensures r == Prediction(calendar, history, signal, m, target)
    {
      if lastAt.None? {
        return None;
      }
      if m == Persistence24h || m == Persistence168h {
        var lag := if m == Persistence24h then DAY_MS else 7 * DAY_MS;
        var source := target - lag;
        while source > lastAt.value
          invariant LagSource(source, lag, lastAt.value) == LagSource(target - lag, lag, lastAt.value)
          decreases source - lastAt.value
        {
          source := source - lag;
        }
        return if (signal, source) in byTimestamp then Some(byTimestamp[(signal, source)]) else None;
      }
      var key := KeyFor(m, calendar(target));
      var stored := WindowOf(slots, signal, key);
      WindowPredictsLikeHistory(calendar, history, signal, key);
      var observations := Tail(UpTo(stored, lastAt.value), USED);
      r := Mean(observations);
    }

    method Forecast(signal: Signal, m: ForecastMethod, target: int) returns (value: real)
      requires Valid()
      ensures value == ForecastValue(calendar, history, signal, m, target)
    {
      var predicted := Predict(signal, m, target);
      value := Max(0.0, if predicted.Some? then predicted.value else lastValue[signal]);
    }
  }

  /** Both windows of one signal take the new observation. */
  method PushAll(calendar: Calendar, windows: Windows, signal: Signal, point: Point, ghost before: seq<Point>)
    returns (after: Windows)
    requires forall key :: WindowOf(windows, signal, key) == StoredWindow(calendar, before, signal, key)
    ensures forall key :: WindowOf(after, signal, key) == StoredWindow(calendar, before + [point], signal, key)
    ensures forall other, key :: other != signal ==> WindowOf(after, other, key) == WindowOf(windows, other, key)
  {
    hide DayTypeOf, StoredWindow, PushBounded;
    var parts := calendar(point.startAt);
    var o := Observation(point.startAt, ValueOf(signal, point));
    var everyDay, typed := All(parts.slot), OfDay(DayTypeOf(parts), parts.slot);
    after := windows[(signal, everyDay) := PushBounded(WindowOf(windows, signal, everyDay), o)];
    after := after[(signal, typed) := PushBounded(WindowOf(after, signal, typed), o)];
    HistoryGrows(calendar, before, point);
  }

  // ---- what the predictions promise ----

  /** What an averaging method reads: the stored window of its slot, without observations
      after the last instant, and of these the last 28. */
  function WindowMean(calendar: Calendar, history: seq<Point>, signal: Signal, key: SlotKey): Option<real> {
    match LastAt(history)
    case None => None
    case Some(lastAt) => Mean(Tail(UpTo(StoredWindow(calendar, history, signal, key), lastAt), USED))
  }

  lemma WindowPredictsLikeHistory(calendar: Calendar, history: seq<Point>, signal: Signal, key: SlotKey)
    ensures LastAt(history).Some? ==>
      Tail(UpTo(StoredWindow(calendar, history, signal, key), LastAt(history).value), USED)
      == Tail(KeyHistory(calendar, history, signal, key), USED)
    ensures LastAt(history).None? ==> KeyHistory(calendar, history, signal, key) == []
  {
    var full := KeyHistory(calendar, history, signal, key);
    StoredWindowIsTail(calendar, history, signal, key);
    KeyHistoryIsPast(calendar, history, signal, key);
    assert LastAt(history).None? ==> history == [] && full == [];
    hide KeyHistory, StoredWindow, LastAt;
    if LastAt(history).Some? {
      assert AllBy(Tail(full, WINDOW), LastAt(history));
      UpToKeepsAll(Tail(full, WINDOW), LastAt(history).value);
      TailOfTail(full);
    }
  }

  /** THE SLIDING WINDOW IS EXACT. From windows that keep 56 observations and forget the
      rest, an averaging method gets the mean of the last min(28, n) of all n observations
      ever made for its slot, and nothing exactly if there was none. */
  lemma WindowedPredictionIsFullMean(calendar: Calendar, history: seq<Point>, signal: Signal, key: SlotKey)
    ensures var full := KeyHistory(calendar, history, signal, key);
      WindowMean(calendar, history, signal, key)
      == if full == [] then None
         else Some(SumValues(Tail(full, USED)) / (if |full| < USED then |full| else USED) as real)
  {
    hide KeyHistory, StoredWindow, UpTo, LastAt;
    WindowPredictsLikeHistory(calendar, history, signal, key);
  }

  /** The lag lookup reads the latest instant a whole number of lags before the target
      that is not after the last observation, and at least one lag back. */
  lemma {:induction false} LagSourceIsLatest(source: int, lag: int, lastAt: int)
    requires lag > 0
    ensures var s := LagSource(source, lag, lastAt);
      && s <= source && s <= lastAt && (source - s) % lag == 0
      && (s == source || s + lag > lastAt)
    decreases if source > lastAt then source - lastAt else 0
  {
    if source > lastAt {
      LagSourceIsLatest(source - lag, lag, lastAt);
      var s := LagSource(source, lag, lastAt);
      AddLag(source - lag - s, lag);
    }
  }

  lemma AddLag(n: int, lag: int)
    requires lag > 0 && n % lag == 0
    ensures (n + lag) % lag == 0
  {
    var q := n / lag;
    assert n + lag == lag * (q + 1);
    MultipleIsZero(q + 1, lag);
  }

  lemma MultipleIsZero(q: int, lag: int)
    requires lag > 0
    ensures lag * q % lag == 0
  {
    var r, d := lag * q % lag, lag * q / lag;
    assert r == lag * (q - d);
    if q - d >= 1 {
      MulAtLeast(lag, q - d);
    } else if q - d <= -1 {
      MulAtLeast(lag, d - q);
    }
  }

  lemma MulAtLeast(a: int, b: int)
    requires a > 0 && b >= 1
    ensures a * b >= a
  {
  }

  ghost predicate ValuesWithin(history: seq<Point>, signal: Signal, maximum: real) {
    forall i :: 0 <= i < |history| ==> 0.0 <= ValueOf(signal, history[i]) <= maximum
  }

  ghost predicate AllWithin(s: seq<Observation>, maximum: real) {
    forall i :: 0 <= i < |s| ==> 0.0 <= s[i].value <= maximum
  }

  lemma {:induction false} KeyHistoryWithin(calendar: Calendar, history: seq<Point>, signal: Signal, key: SlotKey,
                                            maximum: real)
    requires ValuesWithin(history, signal, maximum)
    ensures AllWithin(KeyHistory(calendar, history, signal, key), maximum)
  {
    if history != [] {
      var init := history[..|history| - 1];
      KeyHistoryWithin(calendar, init, signal, key, maximum);
      var s, before := KeyHistory(calendar, history, signal, key), KeyHistory(calendar, init, signal, key);
      assert forall i :: 0 <= i < |before| ==> s[i] == before[i];
    }
  }

  lemma {:induction false} SumWithin(s: seq<Observation>, maximum: real)
    requires AllWithin(s, maximum)
    ensures 0.0 <= SumValues(s) <= |s| as real * maximum
  {
    if s != [] {
      SumWithin(s[..|s| - 1], maximum);
      assert |s| as real * maximum == (|s| - 1) as real * maximum + maximum;
    }
  }

  lemma MeanWithin(s: seq<Observation>, maximum: real)
    requires s != [] && AllWithin(s, maximum)
    ensures 0.0 <= Mean(s).value <= maximum
  {
    SumWithin(s, maximum);
    var n := |s| as real;
    DivNonNegative(SumValues(s), n);
    DivMonotone(SumValues(s), maximum * n, n);
    TimesDiv(maximum, n);
  }

  lemma {:induction false} ObservedWithin(history: seq<Point>, signal: Signal, at: int, maximum: real)
    requires ValuesWithin(history, signal, maximum) && ObservedAt(history, signal, at).Some?
    ensures 0.0 <= ObservedAt(history, signal, at).value <= maximum
  {
    if history[|history| - 1].startAt != at {
      ObservedWithin(history[..|history| - 1], signal, at, maximum);
    }
  }

  /** From non-negative data no method ever forecasts below zero or above the largest
      value observed. */
  lemma ForecastStaysInObservedRange(calendar: Calendar, history: seq<Point>, signal: Signal, m: ForecastMethod,
                                     target: int, maximum: real)
    requires maximum >= 0.0 && ValuesWithin(history, signal, maximum)
    ensures 0.0 <= ForecastValue(calendar, history, signal, m, target) <= maximum
  {
    hide SumValues;
    var p := Prediction(calendar, history, signal, m, target);
    if p.Some? {
      if m.Persistence24h? || m.Persistence168h? {
        ObservedWithin(history, signal, LagSource(target - LagOf(m), LagOf(m), LastAt(history).value), maximum);
      } else {
        var full := KeyHistory(calendar, history, signal, KeyFor(m, calendar(target)));
        KeyHistoryWithin(calendar, history, signal, KeyFor(m, calendar(target)), maximum);
        hide Mean;
        MeanOfTailWithin(full, maximum);
      }
    }
  }

  lemma MeanOfTailWithin(full: seq<Observation>, maximum: real)
    requires AllWithin(full, maximum)
    ensures Mean(Tail(full, USED)).Some? ==> 0.0 <= Mean(Tail(full, USED)).value <= maximum
  {
    if full != [] {
      MeanWithin(Tail(full, USED), maximum);
    }
  }
}
