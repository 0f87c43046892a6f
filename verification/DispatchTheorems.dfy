/** The laws of the dispatch, stated for the plant, the points and the published
    report a caller sees. */
module DispatchTheorems {
  import opened Basics
  import opened Rounding
  import opened DispatchModel
  import opened DispatchLaws
  import opened GreedyOptimality
  import opened Periods
  import opened DispatchRun

  function SumProduction(points: seq<Point>, n: nat): real
    requires n <= |points|
  {
    if n == 0 then 0.0 else SumProduction(points, n - 1) + points[n - 1].productionKwh
  }

  function SumConsumption(points: seq<Point>, n: nat): real
    requires n <= |points|
  {
    if n == 0 then 0.0 else SumConsumption(points, n - 1) + points[n - 1].consumptionKwh
  }

  lemma {:induction false} SurplusAndDeficit(plant: Plant, points: seq<Point>, n: nat)
    requires n <= |points|
    ensures var slots := Slots(plant, points);
      SumSurplus(slots, n) - SumDeficit(slots, n) == SumProduction(points, n) - SumConsumption(points, n)
  {
    if n > 0 {
      SurplusAndDeficit(plant, points, n - 1);
    }
  }

  /** The running totals of a run of `strategy` over the first `n` points. */
  function TotalsOf(plant: Plant, strategy: Strategy, points: seq<Point>, n: nat): Energy
    requires plant.eta > 0.0 && n <= |points|
  {
    EnergyAfter(StoreOf(plant), Slots(plant, points), Plans(plant.eta, strategy, points), n)
  }

  function SocOf(plant: Plant, strategy: Strategy, points: seq<Point>, n: nat): real
    requires plant.eta > 0.0 && n <= |points|
  {
    SocBefore(StoreOf(plant), Slots(plant, points), Plans(plant.eta, strategy, points), n)
  }

  /** THE LEDGER. After any prefix of any run of either strategy the energy that came in
      equals the energy that went out, and the state of charge is between its limits. */
  lemma {:induction false} RunLedger(plant: Plant, strategy: Strategy, points: seq<Point>, n: nat)
    requires plant.Valid() && ValidSeries(points) && n <= |points|
    ensures var t := TotalsOf(plant, strategy, points, n);
      && SumProduction(points, n) + t.importKwh + t.unservedKwh + t.dischargedKwh
         == SumConsumption(points, n) + t.exportKwh + t.chargedKwh + t.curtailedKwh
      && plant.MinSoc() <= SocOf(plant, strategy, points, n) <= plant.MaxSoc()
  {
    hide Into, OutOf, EnergyAfter, SocBefore, SumSurplus, SumDeficit, Plans, SlotOf;
    var store, slots, plans := StoreOf(plant), Slots(plant, points), Plans(plant.eta, strategy, points);
    StoreIsValid(plant);
    SlotsAreValid(plant, points);
    RunBalances(store, slots, plans, n);
    SocStaysInRange(store, slots, plans, n);
    SurplusAndDeficit(plant, points, n);
  }

  /** The battery side of the ledger: the state of charge is what the battery totals say,
      and the battery gave back no more than the round-trip share of what it took. */
  lemma {:induction false} RunBatteryLedger(plant: Plant, strategy: Strategy, points: seq<Point>, n: nat)
    requires plant.Valid() && ValidSeries(points) && n <= |points|
    ensures var t := TotalsOf(plant, strategy, points, n);
      && SocOf(plant, strategy, points, n)
         == plant.MinSoc() + Into(plant.eta, t.chargedKwh) - OutOf(plant.eta, t.dischargedKwh)
      && t.dischargedKwh <= plant.battery.roundtripEfficiencyPct / 100.0 * t.chargedKwh
  {
    hide Into, OutOf, EnergyAfter, SocBefore, Plans, SlotOf;
    var store, slots, plans := StoreOf(plant), Slots(plant, points), Plans(plant.eta, strategy, points);
    StoreIsValid(plant);
    SlotsAreValid(plant, points);
    RunStateOfCharge(store, slots, plans, n);
    DischargeIsCovered(store, slots, plans, n);
  }

  /** OPTIMALITY for the caller's inputs: against any feasible schedule of the plant, at any
      moment, SELF_USE has taken no more from the grid. */
  lemma {:induction false} SelfUseIsOptimal(plant: Plant, points: seq<Point>, schedule: seq<Action>, n: nat)
    requires plant.Valid() && ValidSeries(points) && n <= |points|
    requires FeasibleSchedule(StoreOf(plant), Slots(plant, points), schedule)
    ensures NeedOf(TotalsOf(plant, SelfUse, points, n)) <= ScheduleNeed(schedule, n)
  {
    hide EnergyAfter, SlotOf, FeasibleSchedule, Into, NeedOf;
    StoreIsValid(plant);
    SlotsAreValid(plant, points);
    assert Plans(plant.eta, SelfUse, points) == SelfUsePlans(|points|);
    SelfUseNeedsLeast(StoreOf(plant), Slots(plant, points), schedule, n);
  }

  /** In every interval of every run the battery and the grid connection stay within what
      the plant allows: rated discharge power, both breaker limits, no export where none is
      allowed. */
  lemma RunRespectsThePlant(plant: Plant, strategy: Strategy, points: seq<Point>, i: nat)
    requires plant.Valid() && ValidSeries(points) && i < |points|
    ensures var f := FlowAt(StoreOf(plant), Slots(plant, points), Plans(plant.eta, strategy, points), i);
      var hours := Hours(points[i]);
      && f.delivered <= plant.battery.maxDischargeKw * hours
      && f.gridCharged <= plant.battery.maxChargeKw * hours
      && (plant.grid.maxImportKw.Some? ==> f.imported <= plant.grid.maxImportKw.value * hours)
      && (!plant.grid.exportAllowed ==> f.exported == 0.0)
      && (plant.grid.exportAllowed && plant.grid.maxExportKw.Some? ==>
            f.exported <= plant.grid.maxExportKw.value * hours)
      && f.stored + f.exported + f.curtailed == Max(0.0, points[i].productionKwh - points[i].consumptionKwh)
  {
    hide FlowAt, Plans, Hours;
    StoreIsValid(plant);
    SlotsAreValid(plant, points);
    FlowIsPhysical(StoreOf(plant), Slots(plant, points), Plans(plant.eta, strategy, points), i);
  }

  /** SMART may move money, but at no moment has it asked less of the grid than
      SELF_USE would have. */
  lemma {:induction false} SmartNeedsAtLeastSelfUse(plant: Plant, points: seq<Point>, n: nat)
    requires plant.Valid() && ValidSeries(points) && n <= |points|
    ensures NeedOf(TotalsOf(plant, SelfUse, points, n)) <= NeedOf(TotalsOf(plant, SmartHeuristic, points, n))
  {
    hide EnergyAfter, SlotOf, NeedOf;
    StoreIsValid(plant);
    SlotsAreValid(plant, points);
    assert Plans(plant.eta, SelfUse, points) == SelfUsePlans(|points|);
    EveryRunNeedsAtLeastSelfUse(StoreOf(plant), Slots(plant, points), Plans(plant.eta, SmartHeuristic, points), n);
  }

  // ---- prices ----

  /** Two slots that differ in nothing but their prices. */
  predicate SameEnergy(a: Slot, b: Slot) {
    a.(buy := b.buy, sell := b.sell) == b
  }

  /** SELF_USE looks at energy only: other prices give the same flows. */
  lemma {:induction false} SelfUseIgnoresPrices(store: Store, slots: seq<Slot>, others: seq<Slot>, n: nat)
    requires store.Valid() && |others| == |slots| && n <= |slots|
    requires forall i :: 0 <= i < |slots| ==> SameEnergy(slots[i], others[i])
    ensures var plans := SelfUsePlans(|slots|);
      && SocBefore(store, slots, plans, n) == SocBefore(store, others, plans, n)
      && EnergyAfter(store, slots, plans, n) == EnergyAfter(store, others, plans, n)
      && (n < |slots| ==> FlowAt(store, slots, plans, n) == FlowAt(store, others, plans, n))
  {
    hide Into, OutOf;
    if n > 0 {
      SelfUseIgnoresPrices(store, slots, others, n - 1);
    }
    if n < |slots| {
      StepIgnoresPrices(store, slots[n], others[n], SocBefore(store, slots, SelfUsePlans(|slots|), n));
    }
  }

  lemma StepIgnoresPrices(store: Store, slot: Slot, other: Slot, soc: real)
    requires store.Valid() && SameEnergy(slot, other)
    ensures Step(store, slot, SELF_USE, soc) == Step(store, other, SELF_USE, soc)
  {
    hide Into, OutOf;
  }

  // ---- the accumulated periods against the run ----

  /** The buckets hold what the run moved: their sum is the run's totals. */
  lemma {:induction false} EntriesTotalTheRun(store: Store, points: seq<Point>, slots: seq<Slot>, plans: seq<Plan>,
                                              n: nat)
    requires Runnable(store, slots, plans) && |points| == |slots| && n <= |slots|
    ensures var t := EnergyAfter(store, slots, plans, n);
      var cost, revenue := ImportCostAfter(store, slots, plans, n), ExportRevenueAfter(store, slots, plans, n);
      Total(Entries(store, points, slots, plans, n))
      == Period(n, t.importKwh, t.exportKwh, t.chargedKwh, t.dischargedKwh, cost, revenue, cost - revenue)
  {
    hide Step, FlowAt, ImportCost, ExportRevenue;
    if n > 0 {
      EntriesTotalTheRun(store, points, slots, plans, n - 1);
      var before := Entries(store, points, slots, plans, n - 1);
      assert Entries(store, points, slots, plans, n)[..n - 1] == before;
    }
  }

  /** CONSERVATION. Days and months each add up to the totals of the run. */
  lemma PeriodsSumToRun(plant: Plant, strategy: Strategy, points: seq<Point>, localDate: int -> string)
    requires plant.Valid() && ValidSeries(points)
    ensures var store, slots, plans := StoreOf(plant), Slots(plant, points), Plans(plant.eta, strategy, points);
      var n := |points|;
      var entries := Entries(store, points, slots, plans, n);
      var t := EnergyAfter(store, slots, plans, n);
      var sum := Sum(Daily(localDate, entries));
      && sum == Sum(Monthly(localDate, entries))
      && sum.intervals == n
      && sum.importKwh == t.importKwh && sum.exportKwh == t.exportKwh
      && sum.chargedKwh == t.chargedKwh && sum.dischargedKwh == t.dischargedKwh
      && sum.importCostCzk == ImportCostAfter(store, slots, plans, n)
      && sum.exportRevenueCzk == ExportRevenueAfter(store, slots, plans, n)
      && sum.variableCostCzk == VariableCost(plant, strategy, points)
  {
    hide EnergyAfter, ImportCostAfter, ExportRevenueAfter, Entries, Sum, Daily, Monthly, Total, SlotOf, Plans;
    var store, slots, plans := StoreOf(plant), Slots(plant, points), Plans(plant.eta, strategy, points);
    EntriesTotalTheRun(store, points, slots, plans, |points|);
    BucketsSumToTotal(localDate, Entries(store, points, slots, plans, |points|));
  }

  // ---- the published figures ----

  /** `shown` is `exact` to half a unit of its last digit, up to the rounding epsilon. */
  predicate Shows(shown: real, exact: real, factor: real)
    requires factor > 0.0
  {
    Abs(shown - (exact + EPSILON)) <= 0.5 / factor
  }

  lemma RoundShows(value: real, factor: real)
    requires factor > 0.0
    ensures Shows(Round(value, factor), value, factor)
    ensures value >= 0.0 ==> Round(value, factor) >= 0.0
  {
    RoundNear(value, factor);
    if value >= 0.0 {
      RoundNonNegative(value, factor);
    }
  }

  /** Every figure of a report is the figure of its own name in the run. */
  lemma ReportShowsTheRun(plant: Plant, strategy: Strategy, points: seq<Point>, localDate: int -> string)
    requires plant.Valid() && ValidSeries(points)
    ensures var r := ReportOf(plant, strategy, points, localDate);
      var store, slots, plans := StoreOf(plant), Slots(plant, points), Plans(plant.eta, strategy, points);
      var n := |points|;
      var t := TotalsOf(plant, strategy, points, n);
      && Shows(r.importKwh, t.importKwh, ENERGY) && Shows(r.exportKwh, t.exportKwh, ENERGY)
      && Shows(r.chargedKwh, t.chargedKwh, ENERGY) && Shows(r.dischargedKwh, t.dischargedKwh, ENERGY)
      && Shows(r.curtailedKwh, t.curtailedKwh, ENERGY) && Shows(r.unservedKwh, t.unservedKwh, ENERGY)
      && Shows(r.endingSocKwh, SocOf(plant, strategy, points, n), ENERGY)
      && Shows(r.variableCostCzk, VariableCost(plant, strategy, points), HALER)
      && Shows(r.importCostCzk, ImportCostAfter(store, slots, plans, n), HALER)
      && Shows(r.exportRevenueCzk, ExportRevenueAfter(store, slots, plans, n), HALER)
      && (plant.battery.capacityKwh > 0.0 ==>
            Shows(r.batteryCycles, t.dischargedKwh / plant.battery.capacityKwh, KILOWATT))
      && r.importKwh >= 0.0 && r.exportKwh >= 0.0 && r.chargedKwh >= 0.0 && r.dischargedKwh >= 0.0
      && r.curtailedKwh >= 0.0 && r.unservedKwh >= 0.0
  {
    hide Round, Shows, EnergyAfter, SocBefore, ImportCostAfter, ExportRevenueAfter, PeakAfter, Entries, Daily,
         Monthly, Rounded, SlotOf, Plans, StoreOf;
    var store, slots, plans := StoreOf(plant), Slots(plant, points), Plans(plant.eta, strategy, points);
    var n := |points|;
    StoreIsValid(plant);
    SlotsAreValid(plant, points);
    var t := EnergyAfter(store, slots, plans, n);
    RunBalances(store, slots, plans, n);
    RoundShows(t.importKwh, ENERGY);
    RoundShows(t.exportKwh, ENERGY);
    RoundShows(t.chargedKwh, ENERGY);
    RoundShows(t.dischargedKwh, ENERGY);
    RoundShows(t.curtailedKwh, ENERGY);
    RoundShows(t.unservedKwh, ENERGY);
    RoundShows(SocBefore(store, slots, plans, n), ENERGY);
    RoundShows(VariableCost(plant, strategy, points), HALER);
    RoundShows(ImportCostAfter(store, slots, plans, n), HALER);
    RoundShows(ExportRevenueAfter(store, slots, plans, n), HALER);
    if plant.battery.capacityKwh > 0.0 {
      RoundShows(t.dischargedKwh / plant.battery.capacityKwh, KILOWATT);
    }
  }

  /** The published peak bounds, to the watt, the power drawn in every interval. */
  lemma PublishedPeakCovers(plant: Plant, strategy: Strategy, points: seq<Point>, localDate: int -> string, i: nat)
    requires plant.Valid() && ValidSeries(points) && i < |points|
    ensures var f := FlowAt(StoreOf(plant), Slots(plant, points), Plans(plant.eta, strategy, points), i);
      Round(f.imported / Hours(points[i]), KILOWATT) <= ReportOf(plant, strategy, points, localDate).peakImportKw
  {
    hide Round, FlowAt, EnergyAfter, SocBefore, ImportCostAfter, ExportRevenueAfter, PeakAfter, Entries, Daily,
         Monthly, Rounded, Plans, StoreOf;
    var store, slots, plans := StoreOf(plant), Slots(plant, points), Plans(plant.eta, strategy, points);
    StoreIsValid(plant);
    SlotsAreValid(plant, points);
    PeakIsReached(store, slots, plans, |points|);
    var power := PowerKw(slots[i], FlowAt(store, slots, plans, i));
    RoundMonotone(power, PeakAfter(store, slots, plans, |points|), KILOWATT);
  }

  /** A SELF_USE run over two intervals, written out. */
  lemma TwoIntervals(plant: Plant, first: Point, second: Point)
    requires plant.eta > 0.0
    ensures var store, points := StoreOf(plant), [first, second];
      var f := Step(store, SlotOf(plant, first), SELF_USE, store.minSoc);
      var g := Step(store, SlotOf(plant, second), SELF_USE, f.soc);
      && TotalsOf(plant, SelfUse, points, 2) == AddFlow(AddFlow(NO_ENERGY, f), g)
      && SocOf(plant, SelfUse, points, 2) == g.soc
  {
    var points := [first, second];
    var store, slots, plans := StoreOf(plant), Slots(plant, points), Plans(plant.eta, SelfUse, points);
    hide Step, SlotOf;
    FirstFlow(plant, SelfUse, points);
    SecondFlow(plant, SelfUse, points);
    assert EnergyAfter(store, slots, plans, 0) == NO_ENERGY;
    assert EnergyAfter(store, slots, plans, 1) == AddFlow(NO_ENERGY, FlowAt(store, slots, plans, 0));
    assert EnergyAfter(store, slots, plans, 2)
      == AddFlow(EnergyAfter(store, slots, plans, 1), FlowAt(store, slots, plans, 1));
  }

  /** The published costs of a run decompose to the haler. */
  lemma PublishedCostDecomposes(plant: Plant, strategy: Strategy, points: seq<Point>, localDate: int -> string)
    requires plant.Valid() && ValidSeries(points)
    ensures var r := ReportOf(plant, strategy, points, localDate);
      Abs(r.variableCostCzk - (r.importCostCzk - r.exportRevenueCzk)) <= 0.01
  {
    hide Round, EnergyAfter, ImportCostAfter, ExportRevenueAfter, PeakAfter, Entries, Daily, Monthly, Rounded;
    var store, slots, plans := StoreOf(plant), Slots(plant, points), Plans(plant.eta, strategy, points);
    DecompositionWithinOneHaler(ImportCostAfter(store, slots, plans, |points|),
                                ExportRevenueAfter(store, slots, plans, |points|));
  }

  /** `simulateSmartEstimate`: SMART, unless SELF_USE publishes the lower cost. */
  method SimulateSmartEstimate(points: seq<Point>, battery: Battery, grid: Grid, eta: real, localDate: int -> string)
    returns (result: Result<Report, DispatchError>)
    requires battery.roundtripEfficiencyPct > 0.0 ==> IsEta(eta, battery)
    ensures match Validate(points, battery, grid)
      case Some(error) => result == Err(error)
      case None =>
        && Plant(battery, grid, eta).Valid() && ValidSeries(points) && result.Ok?
        && var selfUse := ReportOf(Plant(battery, grid, eta), SelfUse, points, localDate);
        var smart := ReportOf(Plant(battery, grid, eta), SmartHeuristic, points, localDate);
        && result.value.variableCostCzk == Min(selfUse.variableCostCzk, smart.variableCostCzk)
        && (result.value == smart || result.value == selfUse.(strategy := SmartSelfUseFallbackLabel))
        && (result.value.strategy == SmartHeuristicLabel <==> smart.variableCostCzk <= selfUse.variableCostCzk)
  {
    hide ReportOf, Plant.Valid;
    var selfUse := Dispatch(points, battery, grid, SelfUse, eta, localDate);
    if selfUse.Err? {
      return selfUse;
    }
    var smart := Dispatch(points, battery, grid, SmartHeuristic, eta, localDate);
    LabelsOfReports(Plant(battery, grid, eta), points, localDate);
    if smart.value.variableCostCzk <= selfUse.value.variableCostCzk {
      return smart;
    }
    result := Ok(selfUse.value.(strategy := SmartSelfUseFallbackLabel));
  }

  lemma LabelsOfReports(plant: Plant, points: seq<Point>, localDate: int -> string)
    requires plant.Valid() && ValidSeries(points)
    ensures ReportOf(plant, SmartHeuristic, points, localDate).strategy == SmartHeuristicLabel
  {
  }
}
