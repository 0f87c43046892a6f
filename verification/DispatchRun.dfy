/** The dispatch loop itself, proved against the functions of `DispatchModel`. */
module DispatchRun {
  import opened Basics
  import opened Rounding
  import opened DispatchModel
  import opened DispatchLaws
  import opened Periods

  datatype StrategyLabel = SelfUseLabel | SmartHeuristicLabel | SmartSelfUseFallbackLabel

  datatype Report = Report(
    importKwh: real,
    exportKwh: real,
    chargedKwh: real,
    dischargedKwh: real,
    curtailedKwh: real,
    unservedKwh: real,
    variableCostCzk: real,
    importCostCzk: real,
    exportRevenueCzk: real,
    peakImportKw: real,
    batteryCycles: real,
    endingSocKwh: real,
    strategy: StrategyLabel,
    periods: PeriodReport)

  function EntryOf(point: Point, slot: Slot, f: Flow): Entry {
    Entry(
      point.startAt,
      Amounts(f.imported, f.exported, f.stored + f.gridCharged, f.delivered, ImportCost(slot, f),
              ExportRevenue(slot, f)))
  }

  /** What the accumulator has been told after `n` intervals. */
  function Entries(store: Store, points: seq<Point>, slots: seq<Slot>, plans: seq<Plan>, n: nat): (entries: seq<Entry>)
    requires Runnable(store, slots, plans) && |points| == |slots| && n <= |slots|
    ensures |entries| == n
  {
    if n == 0 then []
    else Entries(store, points, slots, plans, n - 1)
         + [EntryOf(points[n - 1], slots[n - 1], FlowAt(store, slots, plans, n - 1))]
  }

  function LabelOf(strategy: Strategy): StrategyLabel {
    match strategy
    case SelfUse => SelfUseLabel
    case SmartHeuristic => SmartHeuristicLabel
  }

  function VariableCost(plant: Plant, strategy: Strategy, points: seq<Point>): real
    requires plant.eta > 0.0
  {
    var store, slots, plans := StoreOf(plant), Slots(plant, points), Plans(plant.eta, strategy, points);
    ImportCostAfter(store, slots, plans, |points|) - ExportRevenueAfter(store, slots, plans, |points|)
  }

  /** The rounding of the returned object. */
  function Publish(battery: Battery, strategy: Strategy, soc: real, t: Energy, importCostCzk: real,
                   exportRevenueCzk: real, variableCostCzk: real, peakImportKw: real, periods: PeriodReport): Report
  {
    Report(
      Round(t.importKwh, ENERGY),
      Round(t.exportKwh, ENERGY),
      Round(t.chargedKwh, ENERGY),
      Round(t.dischargedKwh, ENERGY),
      Round(t.curtailedKwh, ENERGY),
      Round(t.unservedKwh, ENERGY),
      Round(variableCostCzk, HALER),
      Round(importCostCzk, HALER),
      Round(exportRevenueCzk, HALER),
      Round(peakImportKw, KILOWATT),
      if battery.capacityKwh > 0.0 then Round(t.dischargedKwh / battery.capacityKwh, KILOWATT) else 0.0,
      Round(soc, ENERGY),
      LabelOf(strategy),
      periods)
  }

  /** The published result of a run. */
  function ReportOf(plant: Plant, strategy: Strategy, points: seq<Point>, localDate: int -> string): Report
    requires plant.Valid() && ValidSeries(points)
  {
    var store, slots, plans := StoreOf(plant), Slots(plant, points), Plans(plant.eta, strategy, points);
    var n := |points|;
    SlotsAreValid(plant, points);
    var t := EnergyAfter(store, slots, plans, n);
    var entries := Entries(store, points, slots, plans, n);
    Publish(
      plant.battery, strategy, SocBefore(store, slots, plans, n), t,
      ImportCostAfter(store, slots, plans, n), ExportRevenueAfter(store, slots, plans, n),
      VariableCost(plant, strategy, points), PeakAfter(store, slots, plans, n),
      PeriodReport(Rounded(Monthly(localDate, entries)), Rounded(Daily(localDate, entries))))
  }

  /** The inner loop of SMART: the dearest price and the deficit of the next 34 hours. */
  method LookAhead(points: seq<Point>, index: nat) returns (futureMaximumBuy: real, futureDeficit: real)
    requires index < |points|
    ensures var end := WindowEnd(points, index, index + 1);
      futureMaximumBuy == MaximumBuy(points, index, end) && futureDeficit == DeficitAhead(points, index, end)
  {
    futureMaximumBuy := points[index].totalBuyCzkKwh;
    futureDeficit := 0.0;
    var horizonEnd := points[index].startAt + HORIZON_MS;
    var futureIndex := index + 1;
    while futureIndex < |points| && points[futureIndex].startAt < horizonEnd
      invariant index < futureIndex <= |points|
      invariant WindowEnd(points, index, futureIndex) == WindowEnd(points, index, index + 1)
      invariant futureMaximumBuy == MaximumBuy(points, index, futureIndex)
      invariant futureDeficit == DeficitAhead(points, index, futureIndex)
    {
      futureMaximumBuy := Max(futureMaximumBuy, points[futureIndex].totalBuyCzkKwh);
      futureDeficit := futureDeficit + Max(0.0, points[futureIndex].consumptionKwh - points[futureIndex].productionKwh);
      futureIndex := futureIndex + 1;
    }
  }

  /** What the body of the loop does to one interval, with the locals it updates. */
  method MoveEnergy(store: Store, slot: Slot, plan: Plan, socIn: real)
    returns (soc: real, charged: real, discharged: real, imported: real, unmet: real, exported: real, curtailed: real)
    requires store.Valid()
    ensures var f := Step(store, slot, plan, socIn);
      && soc == f.soc && charged == f.stored + f.gridCharged && discharged == f.delivered
      && imported == f.imported && unmet == f.unserved && exported == f.exported && curtailed == f.curtailed
  {
    hide Into, OutOf;
    NothingMoved(store.eta);
    soc, charged, discharged := socIn, 0.0, 0.0;
    var surplus, deficit := slot.surplus, slot.deficit;
    var chargeLimit := Min(slot.chargePower, OutOf(store.eta, store.maxSoc - soc));
    var dischargeLimit := Min(slot.dischargePower, Into(store.eta, soc - store.minSoc));
    if surplus > 0.0 && store.present {
      var stored := Min(surplus, chargeLimit);
      soc := soc + Into(store.eta, stored);
      charged := charged + stored;
      surplus := surplus - stored;
    }
    if deficit == 0.0 && store.present && plan.arbitrage {
      var remainingChargeLimit := Min(slot.chargePower, OutOf(store.eta, store.maxSoc - soc));
      var desiredStored := Min(store.maxSoc - soc, plan.deficitAhead / Max(store.eta, 0.01));
      var gridCharge := Min(remainingChargeLimit, OutOf(store.eta, desiredStored));
      if gridCharge > 0.0 {
        soc := soc + Into(store.eta, gridCharge);
        charged := charged + gridCharge;
        deficit := deficit + gridCharge;
      }
    }
    if deficit > 0.0 && store.present {
      if !plan.preserve {
        var deliver := Min(deficit, dischargeLimit);
        soc := soc - OutOf(store.eta, deliver);
        discharged := discharged + deliver;
        deficit := deficit - deliver;
      }
    }
    imported := Cap(deficit, slot.importLimit);
    unmet := Max(0.0, deficit - imported);
    exported := Cap(surplus, slot.exportLimit);
    curtailed := Max(0.0, surplus - exported);
  }

  /** `dispatch`: validate, walk the intervals, publish. `eta` is the value of
      `Math.sqrt`, which the source computes after validation. */
  method Dispatch(points: seq<Point>, battery: Battery, grid: Grid, strategy: Strategy, eta: real,
                  localDate: int -> string)
    returns (result: Result<Report, DispatchError>)
    requires battery.roundtripEfficiencyPct > 0.0 ==> IsEta(eta, battery)
    ensures match Validate(points, battery, grid)
      case Some(error) => result == Err(error)
      case None =>
        && Plant(battery, grid, eta).Valid() && ValidSeries(points)
        && result == Ok(ReportOf(Plant(battery, grid, eta), strategy, points, localDate))
  {
    var invalid := Validate(points, battery, grid);
    if invalid.Some? {
      return Err(invalid.value);
    }
    ValidateAcceptsExactly(points, battery, grid, eta);
    hide Validate, ValidatePoints;
    var plant := Plant(battery, grid, eta);
    var store := StoreOf(plant);
    StoreIsValid(plant);
    SlotsAreValid(plant, points);
    ghost var slots, plans := Slots(plant, points), Plans(eta, strategy, points);
    var soc, total, importCostCzk, exportRevenueCzk, variableCostCzk, peakImportKw, periods :=
      WalkIntervals(plant, store, strategy, points, localDate, slots, plans);
    hide Publish, Plant.Valid;
    result := Ok(Publish(battery, strategy, soc, total, importCostCzk, exportRevenueCzk, variableCostCzk,
                         peakImportKw, periods));
  }

  /** One more interval, in every running total at once. */
  lemma RunExtends(store: Store, points: seq<Point>, slots: seq<Slot>, plans: seq<Plan>, index: nat)
    requires Runnable(store, slots, plans) && ValidSlots(slots) && |points| == |slots| && index < |slots|
    ensures var f := FlowAt(store, slots, plans, index);
      var slot := slots[index];
      var entries := Entries(store, points, slots, plans, index);
      && f == Step(store, slot, plans[index], SocBefore(store, slots, plans, index))
      && SocBefore(store, slots, plans, index + 1) == f.soc
      && EnergyAfter(store, slots, plans, index + 1) == AddFlow(EnergyAfter(store, slots, plans, index), f)
      && ImportCostAfter(store, slots, plans, index + 1)
         == ImportCostAfter(store, slots, plans, index) + ImportCost(slot, f)
      && ExportRevenueAfter(store, slots, plans, index + 1)
         == ExportRevenueAfter(store, slots, plans, index) + ExportRevenue(slot, f)
      && PeakAfter(store, slots, plans, index + 1)
         == Max(PeakAfter(store, slots, plans, index), PowerKw(slot, f))
      && Entries(store, points, slots, plans, index + 1) == entries + [EntryOf(points[index], slot, f)]
  {
    hide Step, ImportCost, ExportRevenue, PowerKw;
  }

  method WalkIntervals(plant: Plant, store: Store, strategy: Strategy, points: seq<Point>, localDate: int -> string,
                       ghost slots: seq<Slot>, ghost plans: seq<Plan>)
    returns (soc: real, total: Energy, importCostCzk: real, exportRevenueCzk: real, variableCostCzk: real,
             peakImportKw: real, periodReport: PeriodReport)
    requires plant.Valid() && ValidSeries(points)
    requires store == StoreOf(plant) && store.Valid() && ValidSlots(slots)
    requires slots == Slots(plant, points) && plans == Plans(plant.eta, strategy, points)
    ensures soc == SocBefore(store, slots, plans, |points|)
    ensures total == EnergyAfter(store, slots, plans, |points|)
    ensures importCostCzk == ImportCostAfter(store, slots, plans, |points|)
    ensures exportRevenueCzk == ExportRevenueAfter(store, slots, plans, |points|)
    ensures variableCostCzk == importCostCzk - exportRevenueCzk
    ensures peakImportKw == PeakAfter(store, slots, plans, |points|)
    ensures var entries := Entries(store, points, slots, plans, |points|);
      periodReport == PeriodReport(Rounded(Monthly(localDate, entries)), Rounded(Daily(localDate, entries)))
  {
    hide Step, FlowAt, SocBefore, EnergyAfter, ImportCostAfter, ExportRevenueAfter, PeakAfter, Entries,
         Round, Rounded, Daily, Monthly, Reports, StoreOf, SlotOf;
    soc := store.minSoc;
    var importKwh, exportKwh, chargedKwh, dischargedKwh, curtailedKwh, unservedKwh := 0.0, 0.0, 0.0, 0.0, 0.0, 0.0;
    importCostCzk, exportRevenueCzk, variableCostCzk, peakImportKw := 0.0, 0.0, 0.0, 0.0;
    var periods := new PeriodAccumulator(localDate);
    NothingYet(store, points, slots, plans);
    for index := 0 to |points|
      invariant fresh(periods) && periods.localDate == localDate
      invariant soc == SocBefore(store, slots, plans, index)
      invariant Energy(importKwh, exportKwh, chargedKwh, dischargedKwh, curtailedKwh, unservedKwh)
                == EnergyAfter(store, slots, plans, index)
      invariant importCostCzk == ImportCostAfter(store, slots, plans, index)
      invariant exportRevenueCzk == ExportRevenueAfter(store, slots, plans, index)
      invariant variableCostCzk == importCostCzk - exportRevenueCzk
      invariant peakImportKw == PeakAfter(store, slots, plans, index)
      invariant periods.Valid() && periods.entries == Entries(store, points, slots, plans, index)
    {
      var point := points[index];
      var slot := SlotOf(plant, point);
      var plan := ChoosePlan(plant.eta, strategy, points, index);
      assert slot == slots[index] && plan == plans[index];
      RunExtends(store, points, slots, plans, index);
      var charged, discharged, imported, unmet, exported, curtailed;
      soc, charged, discharged, imported, unmet, exported, curtailed := MoveEnergy(store, slot, plan, soc);
      unservedKwh := unservedKwh + unmet;
      curtailedKwh := curtailedKwh + curtailed;
      importKwh := importKwh + imported;
      exportKwh := exportKwh + exported;
      chargedKwh := chargedKwh + charged;
      dischargedKwh := dischargedKwh + discharged;
      peakImportKw := Max(peakImportKw, imported / slot.hours);
      importCostCzk := importCostCzk + imported * slot.buy;
      exportRevenueCzk := exportRevenueCzk + exported * slot.sell;
      variableCostCzk := importCostCzk - exportRevenueCzk;
      periods.Add(point.startAt, Amounts(imported, exported, charged, discharged, imported * slot.buy,
                                         exported * slot.sell));
    }
    total := Energy(importKwh, exportKwh, chargedKwh, dischargedKwh, curtailedKwh, unservedKwh);
    periodReport := periods.Result();
  }

  lemma NothingYet(store: Store, points: seq<Point>, slots: seq<Slot>, plans: seq<Plan>)
    requires Runnable(store, slots, plans) && ValidSlots(slots) && |points| == |slots|
    ensures SocBefore(store, slots, plans, 0) == store.minSoc
    ensures EnergyAfter(store, slots, plans, 0) == NO_ENERGY
    ensures ImportCostAfter(store, slots, plans, 0) == 0.0 && ExportRevenueAfter(store, slots, plans, 0) == 0.0
    ensures PeakAfter(store, slots, plans, 0) == 0.0 && Entries(store, points, slots, plans, 0) == []
  {
  }

  /** The strategy's decision for one interval, made before any energy moves. */
  method ChoosePlan(eta: real, strategy: Strategy, points: seq<Point>, index: nat) returns (plan: Plan)
    requires eta > 0.0 && index < |points|
    ensures plan == PlanFor(eta, strategy, points, index)
  {
    plan := SELF_USE;
    if strategy == SmartHeuristic {
      var futureMaximumBuy, futureDeficit := LookAhead(points, index);
      var buy := points[index].totalBuyCzkKwh;
      plan := Plan(ArbitrageWorthwhile(eta, buy, futureMaximumBuy),
                   PreserveForMoreExpensive(eta, buy, futureMaximumBuy),
                   futureDeficit);
    }
  }
}
