/** The battery dispatch engine as a function: what one interval does, and what a
    run over a series of intervals adds up to. The imperative loop that computes
    it is `DispatchRun.Dispatch`. */
module DispatchModel {
  import opened Basics

  const HOUR_MS := 3600000
  const HORIZON_MS := 34 * HOUR_MS

  datatype Strategy = SelfUse | SmartHeuristic

  datatype Point = Point(
    startAt: int,
    endAt: int,
    productionKwh: real,
    consumptionKwh: real,
    totalBuyCzkKwh: real,
    totalSellCzkKwh: real)

  datatype Battery = Battery(
    capacityKwh: real,
    maxChargeKw: real,
    maxDischargeKw: real,
    minSocPct: real,
    maxSocPct: real,
    roundtripEfficiencyPct: real)

  datatype Grid = Grid(maxImportKw: Option<real>, maxExportKw: Option<real>, exportAllowed: bool)

  datatype DispatchError =
    | InvalidBatteryCapacity
    | InvalidChargePower
    | InvalidDischargePower
    | InvalidSocLimits
    | InvalidEfficiency
    | InvalidGridImport
    | InvalidGridExport
    | InvalidProduction
    | InvalidConsumption
    | InvalidInterval

  // ---- input validation ----

  function ValidatePoints(points: seq<Point>): Option<DispatchError> {
    if points == [] then None
    else if points[0].productionKwh < 0.0 then Some(InvalidProduction)
    else if points[0].consumptionKwh < 0.0 then Some(InvalidConsumption)
    else if points[0].endAt <= points[0].startAt then Some(InvalidInterval)
    else ValidatePoints(points[1..])
  }

  function Validate(points: seq<Point>, battery: Battery, grid: Grid): Option<DispatchError> {
    if battery.capacityKwh < 0.0 then Some(InvalidBatteryCapacity)
    else if battery.maxChargeKw < 0.0 then Some(InvalidChargePower)
    else if battery.maxDischargeKw < 0.0 then Some(InvalidDischargePower)
    else if battery.minSocPct < 0.0 || battery.maxSocPct > 100.0 || battery.minSocPct > battery.maxSocPct then
      Some(InvalidSocLimits)
    else if battery.roundtripEfficiencyPct <= 0.0 || battery.roundtripEfficiencyPct > 100.0 then
      Some(InvalidEfficiency)
    else if grid.maxImportKw.Some? && grid.maxImportKw.value < 0.0 then Some(InvalidGridImport)
    else if grid.maxExportKw.Some? && grid.maxExportKw.value < 0.0 then Some(InvalidGridExport)
    else ValidatePoints(points)
  }

  predicate ValidPoint(point: Point) {
    && point.productionKwh >= 0.0
    && point.consumptionKwh >= 0.0
    && point.startAt < point.endAt
  }

  ghost predicate ValidSeries(points: seq<Point>) {
    forall i :: 0 <= i < |points| ==> ValidPoint(points[i])
  }

  /** A percentage of a capacity. */
  function Share(whole: real, percent: real): real {
    whole * percent / 100.0
  }

  /** What a run keeps fixed: the battery, the grid connection, and `eta`, the
      value of `Math.sqrt(roundtripEfficiencyPct / 100)`. */
  datatype Plant = Plant(battery: Battery, grid: Grid, eta: real) {
    function MinSoc(): real { Share(battery.capacityKwh, battery.minSocPct) }

    function MaxSoc(): real { Share(battery.capacityKwh, battery.maxSocPct) }

    predicate Valid() {
      && 0.0 < eta
      && eta * eta == battery.roundtripEfficiencyPct / 100.0
      && battery.roundtripEfficiencyPct <= 100.0
      && 0.0 <= battery.capacityKwh
      && 0.0 <= battery.maxChargeKw
      && 0.0 <= battery.maxDischargeKw
      && 0.0 <= battery.minSocPct <= battery.maxSocPct <= 100.0
      && (grid.maxImportKw.Some? ==> 0.0 <= grid.maxImportKw.value)
      && (grid.maxExportKw.Some? ==> 0.0 <= grid.maxExportKw.value)
    }
  }

  /** The efficiency the loop works with: the non-negative root of the percentage. */
  predicate IsEta(eta: real, battery: Battery) {
    eta >= 0.0 && eta * eta == battery.roundtripEfficiencyPct / 100.0
  }

  lemma ValidatePointsAcceptsExactly(points: seq<Point>)
    ensures ValidatePoints(points).None? <==> ValidSeries(points)
  {
    if points != [] {
      ValidatePointsAcceptsExactly(points[1..]);
      assert points == [points[0]] + points[1..];
      assert ValidSeries(points) <==> ValidPoint(points[0]) && ValidSeries(points[1..]);
    }
  }

  lemma PositiveSquare(root: real, square: real)
    requires root > 0.0 && root * root == square
    ensures square > 0.0
  {
    calc {
      square;
      root * root;
    > { MulPositive(root, root); }
      0.0;
    }
  }

  lemma EtaPositive(eta: real, battery: Battery)
    requires IsEta(eta, battery)
    ensures eta > 0.0 <==> battery.roundtripEfficiencyPct > 0.0
  {
    var share := battery.roundtripEfficiencyPct / 100.0;
    if eta > 0.0 {
      PositiveSquare(eta, share);
    }
    assert share > 0.0 <==> battery.roundtripEfficiencyPct > 0.0;
  }

  /** The validator accepts exactly the inputs the theorems below speak about. */
  lemma ValidateAcceptsExactly(points: seq<Point>, battery: Battery, grid: Grid, eta: real)
    requires IsEta(eta, battery)
    ensures Validate(points, battery, grid).None? <==> Plant(battery, grid, eta).Valid() && ValidSeries(points)
  {
    ValidatePointsAcceptsExactly(points);
    EtaPositive(eta, battery);
  }

  /** What is wrong with an input, said apart from the order in which it is looked for. */
  ghost predicate Fault(error: DispatchError, points: seq<Point>, battery: Battery, grid: Grid) {
    match error
    case InvalidBatteryCapacity => battery.capacityKwh < 0.0
    case InvalidChargePower => battery.maxChargeKw < 0.0
    case InvalidDischargePower => battery.maxDischargeKw < 0.0
    case InvalidSocLimits => !(0.0 <= battery.minSocPct <= battery.maxSocPct <= 100.0)
    case InvalidEfficiency => !(0.0 < battery.roundtripEfficiencyPct <= 100.0)
    case InvalidGridImport => grid.maxImportKw.Some? && grid.maxImportKw.value < 0.0
    case InvalidGridExport => grid.maxExportKw.Some? && grid.maxExportKw.value < 0.0
    case InvalidProduction => exists i :: 0 <= i < |points| && points[i].productionKwh < 0.0
    case InvalidConsumption => exists i :: 0 <= i < |points| && points[i].consumptionKwh < 0.0
    case InvalidInterval => exists i :: 0 <= i < |points| && points[i].startAt >= points[i].endAt
  }

  lemma {:induction false} PointErrorIsAFault(points: seq<Point>, battery: Battery, grid: Grid)
    ensures ValidatePoints(points).Some? ==> Fault(ValidatePoints(points).value, points, battery, grid)
  {
    if points != [] {
      PointErrorIsAFault(points[1..], battery, grid);
      assert forall i :: 0 <= i < |points| - 1 ==> points[1..][i] == points[i + 1];
      if ValidPoint(points[0]) && ValidatePoints(points[1..]).Some? {
        FaultInTail(ValidatePoints(points[1..]).value, points, battery, grid);
      }
    }
  }

  lemma FaultInTail(error: DispatchError, points: seq<Point>, battery: Battery, grid: Grid)
    requires points != [] && Fault(error, points[1..], battery, grid)
    ensures Fault(error, points, battery, grid)
  {
    var tail := points[1..];
    if error.InvalidProduction? {
      var i :| 0 <= i < |tail| && tail[i].productionKwh < 0.0;
      assert points[i + 1] == tail[i];
    } else if error.InvalidConsumption? {
      var i :| 0 <= i < |tail| && tail[i].consumptionKwh < 0.0;
      assert points[i + 1] == tail[i];
    } else if error.InvalidInterval? {
      var i :| 0 <= i < |tail| && tail[i].startAt >= tail[i].endAt;
      assert points[i + 1] == tail[i];
    }
  }

  /** An input is rejected exactly when it has a fault, and the error names one it has. */
  lemma ErrorNamesAFault(points: seq<Point>, battery: Battery, grid: Grid)
    ensures Validate(points, battery, grid).Some? <==> exists error :: Fault(error, points, battery, grid)
    ensures Validate(points, battery, grid).Some? ==>
      Fault(Validate(points, battery, grid).value, points, battery, grid)
  {
    PointErrorIsAFault(points, battery, grid);
    ValidatePointsAcceptsExactly(points);
    hide ValidatePoints;
    if Validate(points, battery, grid).Some? {
      assert Fault(Validate(points, battery, grid).value, points, battery, grid);
    }
  }

  lemma EtaAtMostOne(plant: Plant)
    requires plant.Valid()
    ensures plant.eta <= 1.0 && plant.eta * plant.eta <= 1.0
  {
    if plant.eta > 1.0 {
      LargeSquare(plant.eta);
    } else {
      MulMonotone(plant.eta, 1.0, plant.eta);
    }
  }

  lemma LargeSquare(x: real)
    requires x > 1.0
    ensures x * x > 1.0
  {
    MulMonotone(1.0, x, x);
  }

  lemma SocLimitsOrdered(plant: Plant)
    requires plant.Valid()
    ensures 0.0 <= plant.MinSoc() <= plant.MaxSoc() <= plant.battery.capacityKwh
  {
    hide Share;
    var c := plant.battery.capacityKwh;
    WholeAndNothing(c);
    ShareMonotone(c, 0.0, plant.battery.minSocPct);
    ShareMonotone(c, plant.battery.minSocPct, plant.battery.maxSocPct);
    ShareMonotone(c, plant.battery.maxSocPct, 100.0);
  }

  lemma ShareMonotone(whole: real, a: real, b: real)
    requires whole >= 0.0 && a <= b
    ensures Share(whole, a) <= Share(whole, b)
  {
    MulMonotone(a, b, whole);
  }

  lemma WholeAndNothing(whole: real)
    ensures Share(whole, 0.0) == 0.0 && Share(whole, 100.0) == whole
  {
  }

  // ---- what one interval offers ----

  function Hours(point: Point): real {
    (point.endAt - point.startAt) as real / HOUR_MS as real
  }

  function Surplus(point: Point): real {
    Max(0.0, point.productionKwh - point.consumptionKwh)
  }

  function Deficit(point: Point): real {
    Max(0.0, point.consumptionKwh - point.productionKwh)
  }

  function ImportLimit(grid: Grid, hours: real): Option<real> {
    match grid.maxImportKw
    case None => None
    case Some(kw) => Some(kw * hours)
  }

  function ExportLimit(grid: Grid, hours: real): Option<real> {
    if !grid.exportAllowed then Some(0.0)
    else match grid.maxExportKw
      case None => None
      case Some(kw) => Some(kw * hours)
  }

  /** The battery as the loop sees it. */
  datatype Store = Store(present: bool, minSoc: real, maxSoc: real, eta: real) {
    predicate Valid() {
      0.0 < eta <= 1.0 && eta * eta <= 1.0 && minSoc <= maxSoc && (!present ==> minSoc == maxSoc)
    }
  }

  /** One interval as the loop sees it: energies, the power limits as energies,
      and the two prices. */
  datatype Slot = Slot(
    surplus: real,
    deficit: real,
    chargePower: real,
    dischargePower: real,
    importLimit: Option<real>,
    exportLimit: Option<real>,
    hours: real,
    buy: real,
    sell: real)
  {
    predicate Valid() {
      && surplus >= 0.0 && deficit >= 0.0 && (surplus == 0.0 || deficit == 0.0)
      && chargePower >= 0.0 && dischargePower >= 0.0
      && (importLimit.Some? ==> importLimit.value >= 0.0)
      && (exportLimit.Some? ==> exportLimit.value >= 0.0)
      && hours > 0.0
    }
  }

  /** What the battery's cells gain from `energy` at its terminals. */
  function Into(eta: real, energy: real): real {
    energy * eta
  }

  /** What the battery's cells lose when `energy` leaves its terminals. */
  function OutOf(eta: real, energy: real): real
    requires eta > 0.0
  {
    energy / eta
  }

  /** What the strategy decided for an interval before any energy moves: whether to
      charge from the grid, whether to keep the charge for later, and the deficit
      expected ahead. */
  datatype Plan = Plan(arbitrage: bool, preserve: bool, deficitAhead: real)

  const SELF_USE := Plan(false, false, 0.0)

  function StoreOf(plant: Plant): Store {
    Store(plant.battery.capacityKwh > 0.0, plant.MinSoc(), plant.MaxSoc(), plant.eta)
  }

  function SlotOf(plant: Plant, point: Point): Slot {
    var hours := Hours(point);
    Slot(
      Surplus(point),
      Deficit(point),
      plant.battery.maxChargeKw * hours,
      plant.battery.maxDischargeKw * hours,
      ImportLimit(plant.grid, hours),
      ExportLimit(plant.grid, hours),
      hours,
      point.totalBuyCzkKwh,
      point.totalSellCzkKwh)
  }

  function Slots(plant: Plant, points: seq<Point>): (slots: seq<Slot>)
    ensures |slots| == |points|
  {
    seq(|points|, i requires 0 <= i < |points| => SlotOf(plant, points[i]))
  }

  lemma StoreIsValid(plant: Plant)
    requires plant.Valid()
    ensures StoreOf(plant).Valid()
  {
    EtaAtMostOne(plant);
    SocLimitsOrdered(plant);
  }

  lemma SlotIsValid(plant: Plant, point: Point)
    requires plant.Valid() && ValidPoint(point)
    ensures SlotOf(plant, point).Valid()
  {
    var hours := Hours(point);
    MulNonNegative(plant.battery.maxChargeKw, hours);
    MulNonNegative(plant.battery.maxDischargeKw, hours);
    if plant.grid.maxImportKw.Some? { MulNonNegative(plant.grid.maxImportKw.value, hours); }
    if plant.grid.maxExportKw.Some? { MulNonNegative(plant.grid.maxExportKw.value, hours); }
  }

  ghost predicate ValidSlots(slots: seq<Slot>) {
    forall i :: 0 <= i < |slots| ==> slots[i].Valid()
  }

  lemma SlotsAreValid(plant: Plant, points: seq<Point>)
    requires plant.Valid() && ValidSeries(points)
    ensures ValidSlots(Slots(plant, points))
  {
    forall i | 0 <= i < |points| ensures Slots(plant, points)[i].Valid() {
      SlotIsValid(plant, points[i]);
    }
  }

  // ---- one interval of dispatch ----

  /** The energy one interval moves, and the state of charge it leaves. */
  datatype Flow = Flow(
    stored: real,
    gridCharged: real,
    delivered: real,
    imported: real,
    unserved: real,
    exported: real,
    curtailed: real,
    soc: real)

  function StoredFromSun(store: Store, slot: Slot, soc: real): real
    requires store.eta > 0.0
  {
    if slot.surplus > 0.0 && store.present
    then Min(slot.surplus, Min(slot.chargePower, OutOf(store.eta, store.maxSoc - soc)))
    else 0.0
  }

  /** The charge the SMART branch takes from the grid, given the state of charge
      `soc` that storing the solar surplus has left. Its power limit is the full
      one again, whatever the sun already used of it. */
  function ChargedFromGrid(store: Store, slot: Slot, plan: Plan, soc: real): real
    requires store.eta > 0.0
  {
    if plan.arbitrage && slot.deficit == 0.0 && store.present then
      var remaining := Min(slot.chargePower, OutOf(store.eta, store.maxSoc - soc));
      var desiredStored := Min(store.maxSoc - soc, plan.deficitAhead / Max(store.eta, 0.01));
      Max(0.0, Min(remaining, OutOf(store.eta, desiredStored)))
    else 0.0
  }

  /** What the battery gives back; the limit comes from the state of charge `soc`
      at the start of the interval, before any charging. */
  function Delivered(store: Store, slot: Slot, plan: Plan, demand: real, soc: real): real {
    if demand > 0.0 && store.present && !plan.preserve
    then Min(demand, Min(slot.dischargePower, Into(store.eta, soc - store.minSoc)))
    else 0.0
  }

  function Step(store: Store, slot: Slot, plan: Plan, soc: real): Flow
    requires store.eta > 0.0
  {
    var stored := StoredFromSun(store, slot, soc);
    var gridCharged := ChargedFromGrid(store, slot, plan, soc + Into(store.eta, stored));
    var demand := slot.deficit + gridCharged;
    var delivered := Delivered(store, slot, plan, demand, soc);
    var imported := Cap(demand - delivered, slot.importLimit);
    var exported := Cap(slot.surplus - stored, slot.exportLimit);
    Flow(
      stored,
      gridCharged,
      delivered,
      imported,
      Max(0.0, demand - delivered - imported),
      exported,
      Max(0.0, slot.surplus - stored - exported),
      soc + Into(store.eta, stored) + Into(store.eta, gridCharged) - OutOf(store.eta, delivered))
  }

  // ---- what SMART sees of the coming 34 hours ----

  /** The first position at or after `from` that starts 34 hours or more after `index`. */
  function WindowEnd(points: seq<Point>, index: nat, from: nat): (end: nat)
    requires index < from <= |points|
    ensures from <= end <= |points|
    ensures forall j :: from <= j < end ==> points[j].startAt < points[index].startAt + HORIZON_MS
    ensures end < |points| ==> points[end].startAt >= points[index].startAt + HORIZON_MS
    decreases |points| - from
  {
    if from < |points| && points[from].startAt < points[index].startAt + HORIZON_MS
    then WindowEnd(points, index, from + 1)
    else from
  }

  function MaximumBuy(points: seq<Point>, index: nat, end: nat): (maximum: real)
    requires index < end <= |points|
    ensures forall j :: index <= j < end ==> points[j].totalBuyCzkKwh <= maximum
    ensures exists j :: index <= j < end && points[j].totalBuyCzkKwh == maximum
  {
    if end == index + 1 then points[index].totalBuyCzkKwh
    else Max(MaximumBuy(points, index, end - 1), points[end - 1].totalBuyCzkKwh)
  }

  function DeficitAhead(points: seq<Point>, index: nat, end: nat): (total: real)
    requires index < end <= |points|
    ensures total >= 0.0
  {
    if end == index + 1 then 0.0
    else DeficitAhead(points, index, end - 1) + Deficit(points[end - 1])
  }

  predicate ArbitrageWorthwhile(eta: real, buy: real, maximumBuy: real)
    requires eta > 0.0
  {
    maximumBuy * eta > buy / eta + 0.01
  }

  predicate PreserveForMoreExpensive(eta: real, buy: real, maximumBuy: real) {
    maximumBuy > buy / Max(eta, 0.01) + 0.05
  }

  function PlanFor(eta: real, strategy: Strategy, points: seq<Point>, index: nat): Plan
    requires eta > 0.0 && index < |points|
  {
    if strategy.SelfUse? then SELF_USE
    else
      var end := WindowEnd(points, index, index + 1);
      var buy := points[index].totalBuyCzkKwh;
      var maximumBuy := MaximumBuy(points, index, end);
      Plan(ArbitrageWorthwhile(eta, buy, maximumBuy),
           PreserveForMoreExpensive(eta, buy, maximumBuy),
           DeficitAhead(points, index, end))
  }

  function Plans(eta: real, strategy: Strategy, points: seq<Point>): (plans: seq<Plan>)
    requires eta > 0.0
    ensures |plans| == |points|
  {
    seq(|points|, i requires 0 <= i < |points| => PlanFor(eta, strategy, points, i))
  }

  // ---- a whole run ----

  predicate Runnable(store: Store, slots: seq<Slot>, plans: seq<Plan>) {
    store.eta > 0.0 && |plans| == |slots|
  }

  function SocBefore(store: Store, slots: seq<Slot>, plans: seq<Plan>, n: nat): real
    requires Runnable(store, slots, plans) && n <= |slots|
    decreases n, 0
  {
    if n == 0 then store.minSoc else FlowAt(store, slots, plans, n - 1).soc
  }

  function FlowAt(store: Store, slots: seq<Slot>, plans: seq<Plan>, index: nat): Flow
    requires Runnable(store, slots, plans) && index < |slots|
    decreases index, 1
  {
    Step(store, slots[index], plans[index], SocBefore(store, slots, plans, index))
  }

  datatype Energy = Energy(
    importKwh: real,
    exportKwh: real,
    chargedKwh: real,
    dischargedKwh: real,
    curtailedKwh: real,
    unservedKwh: real)

  const NO_ENERGY := Energy(0.0, 0.0, 0.0, 0.0, 0.0, 0.0)

  function AddFlow(t: Energy, f: Flow): Energy {
    Energy(
      t.importKwh + f.imported,
      t.exportKwh + f.exported,
      t.chargedKwh + (f.stored + f.gridCharged),
      t.dischargedKwh + f.delivered,
      t.curtailedKwh + f.curtailed,
      t.unservedKwh + f.unserved)
  }

  /** The running energy totals after the first `n` intervals. */
  function EnergyAfter(store: Store, slots: seq<Slot>, plans: seq<Plan>, n: nat): Energy
    requires Runnable(store, slots, plans) && n <= |slots|
  {
    if n == 0 then NO_ENERGY
    else AddFlow(EnergyAfter(store, slots, plans, n - 1), FlowAt(store, slots, plans, n - 1))
  }

  function ImportCost(slot: Slot, f: Flow): real {
    f.imported * slot.buy
  }

  function ExportRevenue(slot: Slot, f: Flow): real {
    f.exported * slot.sell
  }

  function ImportCostAfter(store: Store, slots: seq<Slot>, plans: seq<Plan>, n: nat): real
    requires Runnable(store, slots, plans) && n <= |slots|
  {
    if n == 0 then 0.0
    else ImportCostAfter(store, slots, plans, n - 1) + ImportCost(slots[n - 1], FlowAt(store, slots, plans, n - 1))
  }

  function ExportRevenueAfter(store: Store, slots: seq<Slot>, plans: seq<Plan>, n: nat): real
    requires Runnable(store, slots, plans) && n <= |slots|
  {
    if n == 0 then 0.0
    else
      ExportRevenueAfter(store, slots, plans, n - 1)
      + ExportRevenue(slots[n - 1], FlowAt(store, slots, plans, n - 1))
  }

  function PowerKw(slot: Slot, f: Flow): real
    requires slot.hours > 0.0
  {
    f.imported / slot.hours
  }

  function PeakAfter(store: Store, slots: seq<Slot>, plans: seq<Plan>, n: nat): real
    requires Runnable(store, slots, plans) && n <= |slots| && ValidSlots(slots)
  {
    if n == 0 then 0.0
    else
      Max(PeakAfter(store, slots, plans, n - 1), PowerKw(slots[n - 1], FlowAt(store, slots, plans, n - 1)))
  }
}
