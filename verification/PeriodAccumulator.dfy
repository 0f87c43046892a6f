/** The day and month accumulators the dispatch feeds, and what they conserve. */
module Periods {
  import opened Basics
  import opened Rounding

  datatype Amounts = Amounts(
    importKwh: real,
    exportKwh: real,
    chargedKwh: real,
    dischargedKwh: real,
    importCostCzk: real,
    exportRevenueCzk: real)

  datatype Period = Period(
    intervals: nat,
    importKwh: real,
    exportKwh: real,
    chargedKwh: real,
    dischargedKwh: real,
    importCostCzk: real,
    exportRevenueCzk: real,
    variableCostCzk: real)

  datatype Entry = Entry(startAt: int, amounts: Amounts)

  const EMPTY := Period(0, 0.0, 0.0, 0.0, 0.0, 0.0, 0.0, 0.0)

  function AddAmounts(current: Period, value: Amounts): Period {
    var cost := current.importCostCzk + value.importCostCzk;
    var revenue := current.exportRevenueCzk + value.exportRevenueCzk;
    Period(
      current.intervals + 1,
      current.importKwh + value.importKwh,
      current.exportKwh + value.exportKwh,
      current.chargedKwh + value.chargedKwh,
      current.dischargedKwh + value.dischargedKwh,
      cost,
      revenue,
      cost - revenue)
  }

  function AddTo(target: map<string, Period>, key: string, value: Amounts): map<string, Period> {
    target[key := AddAmounts(if key in target then target[key] else EMPTY, value)]
  }

  /** `dayKey.slice(0, 7)`: the year and month of a date key. */
  function MonthKey(dayKey: string): string {
    if |dayKey| >= 7 then dayKey[..7] else dayKey
  }

  function Daily(localDate: int -> string, entries: seq<Entry>): map<string, Period> {
    if entries == [] then map[]
    else
      var last := entries[|entries| - 1];
      AddTo(Daily(localDate, entries[..|entries| - 1]), localDate(last.startAt), last.amounts)
  }

  function Monthly(localDate: int -> string, entries: seq<Entry>): map<string, Period> {
    if entries == [] then map[]
    else
      var last := entries[|entries| - 1];
      AddTo(Monthly(localDate, entries[..|entries| - 1]), MonthKey(localDate(last.startAt)), last.amounts)
  }

  function RoundedPeriod(p: Period): Period {
    Period(
      p.intervals,
      Round(p.importKwh, ENERGY),
      Round(p.exportKwh, ENERGY),
      Round(p.chargedKwh, ENERGY),
      Round(p.dischargedKwh, ENERGY),
      Round(p.importCostCzk, HALER),
      Round(p.exportRevenueCzk, HALER),
      Round(p.variableCostCzk, HALER))
  }

  function Rounded(items: map<string, Period>): map<string, Period> {
    map key | key in items :: RoundedPeriod(items[key])
  }

  datatype PeriodReport = PeriodReport(monthly: map<string, Period>, daily: map<string, Period>)

  // ---- conservation ----

  function Plus(a: Period, b: Period): Period {
    Period(
      a.intervals + b.intervals,
      a.importKwh + b.importKwh,
      a.exportKwh + b.exportKwh,
      a.chargedKwh + b.chargedKwh,
      a.dischargedKwh + b.dischargedKwh,
      a.importCostCzk + b.importCostCzk,
      a.exportRevenueCzk + b.exportRevenueCzk,
      a.variableCostCzk + b.variableCostCzk)
  }

  /** All buckets of a map added up, in whatever order. */
  ghost function Sum(items: map<string, Period>): Period {
    if items == map[] then EMPTY
    else
      var key :| key in items;
      Plus(items[key], Sum(items - {key}))
  }

  lemma {:induction false} SumPicks(items: map<string, Period>, key: string)
    requires key in items
    ensures Sum(items) == Plus(items[key], Sum(items - {key}))
  {
    hide Plus;
    var first :| first in items && Sum(items) == Plus(items[first], Sum(items - {first}));
    if first != key {
      var rest := items - {first} - {key};
      SumPicks(items - {first}, key);
      SumPicks(items - {key}, first);
      assert items - {key} - {first} == rest;
      PlusSwaps(items[first], items[key], Sum(rest));
    }
  }

  lemma PlusSwaps(a: Period, b: Period, c: Period)
    ensures Plus(a, Plus(b, c)) == Plus(b, Plus(a, c))
  {
  }

  predicate Consistent(p: Period) {
    p.variableCostCzk == p.importCostCzk - p.exportRevenueCzk
  }

  ghost predicate AllConsistent(items: map<string, Period>) {
    forall key :: key in items ==> Consistent(items[key])
  }

  /** Adding to one bucket adds the same amounts to the sum of all buckets. */
  lemma SumAfterAddTo(items: map<string, Period>, key: string, value: Amounts)
    requires AllConsistent(items)
    ensures AllConsistent(AddTo(items, key, value))
    ensures Sum(AddTo(items, key, value)) == Plus(Sum(items), AddAmounts(EMPTY, value))
  {
    hide Plus, AddAmounts, Sum;
    var after := AddTo(items, key, value);
    SumPicks(after, key);
    AddIsPlus(if key in items then items[key] else EMPTY, value, Sum(items - {key}));
    AddKeepsConsistent(if key in items then items[key] else EMPTY, value);
    if key in items {
      SumPicks(items, key);
      assert after - {key} == items - {key};
    } else {
      assert after - {key} == items - {key} == items;
      PlusEmpty(Sum(items));
    }
  }

  lemma PlusEmpty(a: Period)
    ensures Plus(EMPTY, a) == a
  {
  }

  lemma PlusEmptyRight(a: Period)
    ensures Plus(a, EMPTY) == a
  {
  }

  lemma AddKeepsConsistent(p: Period, value: Amounts)
    ensures Consistent(AddAmounts(p, value))
  {
  }

  lemma AddIsPlus(p: Period, value: Amounts, rest: Period)
    requires Consistent(p)
    ensures Plus(AddAmounts(p, value), rest) == Plus(Plus(p, rest), AddAmounts(EMPTY, value))
  {
  }

  function Total(entries: seq<Entry>): Period {
    if entries == [] then EMPTY
    else Plus(Total(entries[..|entries| - 1]), AddAmounts(EMPTY, entries[|entries| - 1].amounts))
  }

  // ---- the accumulator ----

  /** The intervals of one local day. */
  function OfDay(localDate: int -> string, entries: seq<Entry>, day: string): seq<Entry> {
    if entries == [] then []
    else
      var last := entries[|entries| - 1];
      OfDay(localDate, entries[..|entries| - 1], day) + if localDate(last.startAt) == day then [last] else []
  }

  /** The intervals of one local month. */
  function OfMonth(localDate: int -> string, entries: seq<Entry>, month: string): seq<Entry> {
    if entries == [] then []
    else
      var last := entries[|entries| - 1];
      OfMonth(localDate, entries[..|entries| - 1], month)
      + if MonthKey(localDate(last.startAt)) == month then [last] else []
  }

  /** What a published report owes to the intervals it was given: one bucket for every day
      and month with an interval, and in it the rounded sums of exactly those intervals and
      their number. */
  ghost predicate Reports(localDate: int -> string, entries: seq<Entry>, report: PeriodReport) {
    && (forall day :: day in report.daily <==> OfDay(localDate, entries, day) != [])
    && (forall day :: day in report.daily ==>
          && report.daily[day] == RoundedPeriod(Total(OfDay(localDate, entries, day)))
          && report.daily[day].intervals == |OfDay(localDate, entries, day)|)
    && (forall month :: month in report.monthly <==> OfMonth(localDate, entries, month) != [])
    && (forall month :: month in report.monthly ==>
          && report.monthly[month] == RoundedPeriod(Total(OfMonth(localDate, entries, month)))
          && report.monthly[month].intervals == |OfMonth(localDate, entries, month)|)
  }

  /** The two maps are updated together, one interval at a time. */
  class PeriodAccumulator {
    const localDate: int -> string
    var monthly: map<string, Period>
    var daily: map<string, Period>
    ghost var entries: seq<Entry>

    /** Both maps are the grouping of all intervals added so far. */
    ghost predicate Valid()
      reads this
    {
      daily == Daily(localDate, entries) && monthly == Monthly(localDate, entries)
    }

    constructor (localDate: int -> string)
      ensures this.localDate == localDate
      ensures Valid() && entries == []
    {
      this.localDate := localDate;
      monthly := map[];
      daily := map[];
      entries := [];
    }

    method Add(startAt: int, value: Amounts)
      requires Valid()
      modifies this
      ensures Valid() && entries == old(entries) + [Entry(startAt, value)]
    {
      var dayKey := localDate(startAt);
      daily := AddTo(daily, dayKey, value);
      monthly := AddTo(monthly, MonthKey(dayKey), value);
      entries := entries + [Entry(startAt, value)];
      assert entries[..|entries| - 1] == old(entries);
    }

    method Result() returns (report: PeriodReport)
      requires Valid()
      ensures report == PeriodReport(Rounded(Monthly(localDate, entries)), Rounded(Daily(localDate, entries)))
      ensures Reports(localDate, entries, report)
    {
      report := PeriodReport(Rounded(monthly), Rounded(daily));
      BucketsAreReported(localDate, entries);
    }
  }

  function InMonth(daily: map<string, Period>, month: string): map<string, Period> {
    map key | key in daily && MonthKey(key) == month :: daily[key]
  }

  /** Both maps hold every interval exactly once. */
  lemma {:induction false} BucketsSumToTotal(localDate: int -> string, entries: seq<Entry>)
    ensures AllConsistent(Daily(localDate, entries)) && AllConsistent(Monthly(localDate, entries))
    ensures Sum(Daily(localDate, entries)) == Total(entries)
    ensures Sum(Monthly(localDate, entries)) == Total(entries)
    ensures Total(entries).intervals == |entries|
  {
    if entries != [] {
      var before, last := entries[..|entries| - 1], entries[|entries| - 1];
      BucketsSumToTotal(localDate, before);
      SumAfterAddTo(Daily(localDate, before), localDate(last.startAt), last.amounts);
      SumAfterAddTo(Monthly(localDate, before), MonthKey(localDate(last.startAt)), last.amounts);
    }
  }

  lemma NothingSums()
    ensures Sum(map[]) == EMPTY
  {
  }

  lemma MonthGrows(monthly: map<string, Period>, month: string, value: Amounts)
    requires AllConsistent(monthly)
    ensures var bucket := if month in monthly then monthly[month] else EMPTY;
      AddTo(monthly, month, value)[month] == Plus(bucket, AddAmounts(EMPTY, value))
  {
    hide Plus, AddAmounts;
    var bucket := if month in monthly then monthly[month] else EMPTY;
    AddIsPlus(bucket, value, EMPTY);
    PlusEmptyRight(bucket);
    PlusEmptyRight(AddAmounts(bucket, value));
  }

  lemma {:induction false} TotalCounts(entries: seq<Entry>)
    ensures Total(entries).intervals == |entries|
  {
    if entries != [] {
      TotalCounts(entries[..|entries| - 1]);
    }
  }

  /** One more interval for a bucket that holds the total of `group`. */
  lemma BucketGrows(items: map<string, Period>, key: string, group: seq<Entry>, last: Entry)
    requires AllConsistent(items)
    requires key in items <==> group != []
    requires key in items ==> items[key] == Total(group)
    ensures AddTo(items, key, last.amounts)[key] == Total(group + [last])
  {
    hide Plus, AddAmounts;
    MonthGrows(items, key, last.amounts);
    assert (group + [last])[..|group|] == group;
  }

  /** A day has a bucket exactly if it has an interval, and the bucket is their total. */
  lemma {:induction false} DayBucketIsItsIntervals(localDate: int -> string, entries: seq<Entry>, day: string)
    ensures day in Daily(localDate, entries) <==> OfDay(localDate, entries, day) != []
    ensures day in Daily(localDate, entries) ==>
      Daily(localDate, entries)[day] == Total(OfDay(localDate, entries, day))
  {
    hide Plus, AddAmounts, Total;
    if entries != [] {
      var before, last := entries[..|entries| - 1], entries[|entries| - 1];
      DayBucketIsItsIntervals(localDate, before, day);
      BucketsSumToTotal(localDate, before);
      if localDate(last.startAt) == day {
        BucketGrows(Daily(localDate, before), day, OfDay(localDate, before, day), last);
      } else {
        assert OfDay(localDate, entries, day) == OfDay(localDate, before, day);
      }
    }
  }

  lemma {:induction false} MonthBucketIsItsIntervals(localDate: int -> string, entries: seq<Entry>, month: string)
    ensures month in Monthly(localDate, entries) <==> OfMonth(localDate, entries, month) != []
    ensures month in Monthly(localDate, entries) ==>
      Monthly(localDate, entries)[month] == Total(OfMonth(localDate, entries, month))
  {
    hide Plus, AddAmounts, Total;
    if entries != [] {
      var before, last := entries[..|entries| - 1], entries[|entries| - 1];
      MonthBucketIsItsIntervals(localDate, before, month);
      BucketsSumToTotal(localDate, before);
      if MonthKey(localDate(last.startAt)) == month {
        BucketGrows(Monthly(localDate, before), month, OfMonth(localDate, before, month), last);
      } else {
        assert OfMonth(localDate, entries, month) == OfMonth(localDate, before, month);
      }
    }
  }

  /** The rounded maps report exactly the intervals that were added. */
  lemma BucketsAreReported(localDate: int -> string, entries: seq<Entry>)
    ensures Reports(localDate, entries,
                    PeriodReport(Rounded(Monthly(localDate, entries)), Rounded(Daily(localDate, entries))))
  {
    hide Daily, Monthly, OfDay, OfMonth, Total, Round;
    forall day
      ensures day in Daily(localDate, entries) <==> OfDay(localDate, entries, day) != []
      ensures day in Daily(localDate, entries) ==>
        && Daily(localDate, entries)[day] == Total(OfDay(localDate, entries, day))
        && Daily(localDate, entries)[day].intervals == |OfDay(localDate, entries, day)|
    {
      DayBucketIsItsIntervals(localDate, entries, day);
      TotalCounts(OfDay(localDate, entries, day));
    }
    forall month
      ensures month in Monthly(localDate, entries) <==> OfMonth(localDate, entries, month) != []
      ensures month in Monthly(localDate, entries) ==>
        && Monthly(localDate, entries)[month] == Total(OfMonth(localDate, entries, month))
        && Monthly(localDate, entries)[month].intervals == |OfMonth(localDate, entries, month)|
    {
      MonthBucketIsItsIntervals(localDate, entries, month);
      TotalCounts(OfMonth(localDate, entries, month));
    }
  }

  /** A new entry reaches the days of its own month only. */
  lemma InMonthGrows(daily: map<string, Period>, month: string, key: string, value: Amounts)
    ensures InMonth(AddTo(daily, key, value), month)
      == if MonthKey(key) == month then AddTo(InMonth(daily, month), key, value) else InMonth(daily, month)
  {
    hide AddAmounts;
    if MonthKey(key) == month {
      assert InMonth(AddTo(daily, key, value), month) == AddTo(InMonth(daily, month), key, value);
    } else {
      assert InMonth(AddTo(daily, key, value), month) == InMonth(daily, month);
    }
  }

  /** The days of a month add up to that month, for every quantity and the interval
      count; a month without an entry has no days. */
  lemma {:induction false} DaysSumToMonth(localDate: int -> string, entries: seq<Entry>, month: string)
    ensures var monthly := Monthly(localDate, entries);
      var days := InMonth(Daily(localDate, entries), month);
      && AllConsistent(days)
      && (month in monthly ==> Sum(days) == monthly[month])
      && (month !in monthly ==> days == map[])
  {
    hide Plus, AddAmounts, Sum;
    NothingSums();
    if entries == [] {
      assert InMonth(map[], month) == map[];
    } else {
      var before, last := entries[..|entries| - 1], entries[|entries| - 1];
      var key := localDate(last.startAt);
      DaysSumToMonth(localDate, before, month);
      BucketsSumToTotal(localDate, before);
      InMonthGrows(Daily(localDate, before), month, key, last.amounts);
      if MonthKey(key) == month {
        hide InMonth;
        SumAfterAddTo(InMonth(Daily(localDate, before), month), key, last.amounts);
        MonthGrows(Monthly(localDate, before), month, last.amounts);
      }
    }
  }

  /** Every published bucket shows the amounts of its own key, each to half a unit of its
      last digit. */
  lemma PublishedBucketsAreNear(items: map<string, Period>, key: string)
    requires key in items
    ensures Rounded(items).Keys == items.Keys
    ensures var shown, p := Rounded(items)[key], items[key];
      && shown.intervals == p.intervals
      && Abs(shown.importKwh - (p.importKwh + EPSILON)) <= 0.5 / ENERGY
      && Abs(shown.exportKwh - (p.exportKwh + EPSILON)) <= 0.5 / ENERGY
      && Abs(shown.chargedKwh - (p.chargedKwh + EPSILON)) <= 0.5 / ENERGY
      && Abs(shown.dischargedKwh - (p.dischargedKwh + EPSILON)) <= 0.5 / ENERGY
      && Abs(shown.importCostCzk - (p.importCostCzk + EPSILON)) <= 0.5 / HALER
      && Abs(shown.exportRevenueCzk - (p.exportRevenueCzk + EPSILON)) <= 0.5 / HALER
      && Abs(shown.variableCostCzk - (p.variableCostCzk + EPSILON)) <= 0.5 / HALER
  {
    hide Round, Abs;
    var p := items[key];
    RoundNear(p.importKwh, ENERGY);
    RoundNear(p.exportKwh, ENERGY);
    RoundNear(p.chargedKwh, ENERGY);
    RoundNear(p.dischargedKwh, ENERGY);
    RoundNear(p.importCostCzk, HALER);
    RoundNear(p.exportRevenueCzk, HALER);
    RoundNear(p.variableCostCzk, HALER);
  }

  /** In every published bucket, day or month, the variable cost agrees with import cost
      minus export revenue to the haler. */
  lemma PublishedBucketsDecompose(localDate: int -> string, entries: seq<Entry>, items: map<string, Period>,
                                  key: string)
    requires items == Daily(localDate, entries) || items == Monthly(localDate, entries)
    requires key in Rounded(items)
    ensures var p := Rounded(items)[key];
      Abs(p.variableCostCzk - (p.importCostCzk - p.exportRevenueCzk)) <= 0.01
  {
    hide Round, Plus, AddAmounts, AddTo, Daily, Monthly;
    BucketsSumToTotal(localDate, entries);
    DecompositionWithinOneHaler(items[key].importCostCzk, items[key].exportRevenueCzk);
  }
}
