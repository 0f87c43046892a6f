/** What SMART_HEURISTIC adds to SELF_USE: when its interval breaks the charge-power
    limit, and when it does nothing different at all. */
module SmartStrategy {
  import opened Basics
  import opened DispatchModel
  import opened DispatchLaws
  import opened GreedyOptimality

  // ---- charge power ----

  /** The terminal energy the expected deficit asks for. */
  function Wanted(store: Store, plan: Plan): real
    requires store.eta > 0.0
  {
    OutOf(store.eta, plan.deficitAhead / Max(store.eta, 0.01))
  }

  /** Sun and grid both charge in the interval and there is room for more than the
      rated power: the grid branch starts from the full power limit again. */
  predicate ChargesTwice(store: Store, slot: Slot, plan: Plan, soc: real)
    requires store.eta > 0.0
  {
    && plan.arbitrage
    && slot.surplus > 0.0
    && 0.0 < slot.chargePower < OutOf(store.eta, store.maxSoc - soc)
    && Min(slot.surplus, slot.chargePower) + Wanted(store, plan) > slot.chargePower
  }

  lemma OutOfDifference(eta: real, a: real, b: real)
    requires eta > 0.0
    ensures OutOf(eta, a - Into(eta, b)) == OutOf(eta, a) - b
  {
    TimesDiv(b, eta);
  }

  lemma OutOfMin(eta: real, a: real, b: real)
    requires eta > 0.0
    ensures OutOf(eta, Min(a, b)) == Min(OutOf(eta, a), OutOf(eta, b))
  {
    if a <= b { DivMonotone(a, b, eta); } else { DivMonotone(b, a, eta); }
  }

  /** An interval keeps the rated charge power exactly when it does not charge
      twice; it never exceeds double the rated power. SELF_USE always keeps it. */
  lemma ChargePowerKeptExactly(store: Store, slot: Slot, plan: Plan, soc: real)
    requires store.Valid() && slot.Valid() && SocInRange(store, soc) && plan.deficitAhead >= 0.0
    ensures var f := Step(store, slot, plan, soc);
      && (f.stored + f.gridCharged <= slot.chargePower <==> !ChargesTwice(store, slot, plan, soc))
      && f.stored + f.gridCharged <= 2.0 * slot.chargePower
      && (plan == SELF_USE ==> f.stored + f.gridCharged <= slot.chargePower)
  {
    hide Into, OutOf, Delivered;
    var eta := store.eta;
    var f := Step(store, slot, plan, soc);
    StepIsPhysical(store, slot, plan, soc);
    var after := soc + Into(eta, f.stored);
    var ahead := plan.deficitAhead / Max(eta, 0.01);
    DivNonNegative(plan.deficitAhead, Max(eta, 0.01));
    OutOfNonNegative(eta, ahead);
    OutOfNonNegative(eta, store.maxSoc - soc);
    NothingMoved(eta);
    OutOfDifference(eta, store.maxSoc - soc, f.stored);
    assert store.maxSoc - soc - Into(eta, f.stored) == store.maxSoc - after;
    OutOfMin(eta, store.maxSoc - after, ahead);
  }

  const SUNNY_HOUR := Point(0, HOUR_MS, 2.0, 0.0, 1.0, 0.0)
  const DEAR_HOUR := Point(HOUR_MS, 2 * HOUR_MS, 0.0, 8.0, 5.0, 0.0)
  const SMALL_PLANT := Plant(Battery(10.0, 2.0, 2.0, 0.0, 100.0, 100.0), Grid(None, None, true), 1.0)

  /** Double the rated power is really reached: a sunny cheap hour before a dear one. */
  lemma DoublePowerIsReached()
    ensures SMALL_PLANT.Valid() && ValidSeries([SUNNY_HOUR, DEAR_HOUR])
    ensures var points := [SUNNY_HOUR, DEAR_HOUR];
      var f := FlowAt(StoreOf(SMALL_PLANT), Slots(SMALL_PLANT, points), Plans(1.0, SmartHeuristic, points), 0);
      f.stored + f.gridCharged == 2.0 * SMALL_PLANT.battery.maxChargeKw * Hours(SUNNY_HOUR)
  {
    var points := [SUNNY_HOUR, DEAR_HOUR];
    SmallPlantIsValid();
    SunnyHourPlan();
    SunnyHourFlow();
    hide Step, PlanFor, SlotOf, StoreOf, FlowAt, Hours;
    FirstFlow(SMALL_PLANT, SmartHeuristic, points);
  }

  lemma SmallPlantIsValid()
    ensures SMALL_PLANT.Valid() && ValidSeries([SUNNY_HOUR, DEAR_HOUR]) && Hours(SUNNY_HOUR) == 1.0
  {
  }

  lemma SunnyHourPlan()
    ensures PlanFor(1.0, SmartHeuristic, [SUNNY_HOUR, DEAR_HOUR], 0) == Plan(true, true, 8.0)
  {
    var points := [SUNNY_HOUR, DEAR_HOUR];
    assert WindowEnd(points, 0, 2) == 2;
    assert MaximumBuy(points, 0, 1) == 1.0 && DeficitAhead(points, 0, 1) == 0.0;
  }

  lemma SunnyHourFlow()
    ensures var f := Step(StoreOf(SMALL_PLANT), SlotOf(SMALL_PLANT, SUNNY_HOUR), Plan(true, true, 8.0),
                          StoreOf(SMALL_PLANT).minSoc);
      f.stored + f.gridCharged == 4.0
  {
    assert StoreOf(SMALL_PLANT) == Store(true, 0.0, 10.0, 1.0);
    assert SlotOf(SMALL_PLANT, SUNNY_HOUR) == Slot(2.0, 0.0, 2.0, 2.0, None, None, 1.0, 1.0, 0.0);
  }

  /** The same for the intervals of a run: SELF_USE never exceeds the rated power, SMART
      exceeds it in exactly the intervals that charge twice and never more than doubles it. */
  lemma RunChargePower(plant: Plant, strategy: Strategy, points: seq<Point>, n: nat)
    requires plant.Valid() && ValidSeries(points) && n < |points|
    ensures var store, slots, plans := StoreOf(plant), Slots(plant, points), Plans(plant.eta, strategy, points);
      var f := FlowAt(store, slots, plans, n);
      var rated := plant.battery.maxChargeKw * Hours(points[n]);
      && f.stored + f.gridCharged <= 2.0 * rated
      && (f.stored + f.gridCharged <= rated
          <==> !ChargesTwice(store, slots[n], plans[n], SocBefore(store, slots, plans, n)))
      && (strategy == SelfUse ==> f.stored + f.gridCharged <= rated)
  {
    hide Step, ChargesTwice, PlanFor;
    var store, slots, plans := StoreOf(plant), Slots(plant, points), Plans(plant.eta, strategy, points);
    StoreIsValid(plant);
    SlotsAreValid(plant, points);
    SocStaysInRange(store, slots, plans, n);
    PlanExpectsNoSurplus(plant.eta, strategy, points, n);
    ChargePowerKeptExactly(store, slots[n], plans[n], SocBefore(store, slots, plans, n));
  }

  lemma PlanExpectsNoSurplus(eta: real, strategy: Strategy, points: seq<Point>, index: nat)
    requires eta > 0.0 && index < |points|
    ensures PlanFor(eta, strategy, points, index).deficitAhead >= 0.0
    ensures strategy == SelfUse ==> PlanFor(eta, strategy, points, index) == SELF_USE
  {
    hide DeficitAhead;
  }

  // ---- what an interval asks of the battery and the grid, read off its inputs ----

  /** The solar energy the battery has power and room for. */
  function SunShare(store: Store, slot: Slot, soc: real): real
    requires store.eta > 0.0
  {
    Min(slot.surplus, Min(slot.chargePower, OutOf(store.eta, store.maxSoc - soc)))
  }

  /** What SMART wants to buy ahead: limited by the rated power, by the room the sun has
      left and by the deficit it expects. */
  function AskedFromGrid(store: Store, slot: Slot, plan: Plan, soc: real): real
    requires store.eta > 0.0
  {
    if plan.arbitrage && store.present
    then Min(Min(slot.chargePower, OutOf(store.eta, store.maxSoc - soc) - SunShare(store, slot, soc)),
             Wanted(store, plan))
    else 0.0
  }

  /** What the battery can give in the interval. */
  function FromBattery(store: Store, slot: Slot, plan: Plan, soc: real): real {
    if plan.preserve then 0.0 else Min(slot.dischargePower, Into(store.eta, soc - store.minSoc))
  }

  function Demand(store: Store, slot: Slot, plan: Plan, soc: real): real
    requires store.eta > 0.0
  {
    if slot.deficit > 0.0 then slot.deficit else AskedFromGrid(store, slot, plan, soc)
  }

  /** The flows of an interval in terms of these: the sun's share is stored, what is asked
      for is charged, and the battery gives what it can of the demand. */
  lemma FlowFromInputs(store: Store, slot: Slot, plan: Plan, soc: real)
    requires store.Valid() && slot.Valid() && SocInRange(store, soc) && plan.deficitAhead >= 0.0
    ensures var f := Step(store, slot, plan, soc);
      && f.stored == SunShare(store, slot, soc)
      && f.gridCharged == (if slot.deficit > 0.0 then 0.0 else AskedFromGrid(store, slot, plan, soc))
      && f.delivered == Min(Demand(store, slot, plan, soc), FromBattery(store, slot, plan, soc))
      && f.stored + f.gridCharged >= 0.0 && f.delivered >= 0.0
  {
    hide Into, OutOf;
    var eta, room := store.eta, store.maxSoc - soc;
    StoredBounds(store, slot, soc);
    NothingMoved(eta);
    OutOfNonNegative(eta, room);
    IntoNonNegative(eta, soc - store.minSoc);
    var stored := StoredFromSun(store, slot, soc);
    assert stored == SunShare(store, slot, soc);
    GridChargeBounds(store, slot, plan, soc + Into(eta, stored));
    var ahead := plan.deficitAhead / Max(eta, 0.01);
    DivNonNegative(plan.deficitAhead, Max(eta, 0.01));
    OutOfNonNegative(eta, ahead);
    OutOfDifference(eta, room, stored);
    assert room - Into(eta, stored) == store.maxSoc - (soc + Into(eta, stored));
    OutOfMin(eta, room - Into(eta, stored), ahead);
  }

  // ---- charge and discharge in one interval ----

  /** The battery is charged and discharged in one interval exactly when SMART asks the grid
      for energy without keeping its charge, and the battery was neither empty nor without
      discharge power before. SELF_USE never does both. */
  lemma ChargesAndDischargesExactly(store: Store, slot: Slot, plan: Plan, soc: real)
    requires store.Valid() && slot.Valid() && SocInRange(store, soc) && plan.deficitAhead >= 0.0
    ensures var f := Step(store, slot, plan, soc);
      && (f.stored + f.gridCharged > 0.0 && f.delivered > 0.0
          <==> && slot.deficit == 0.0 && AskedFromGrid(store, slot, plan, soc) > 0.0
               && !plan.preserve && slot.dischargePower > 0.0 && soc > store.minSoc)
      && (plan == SELF_USE ==> f.stored == 0.0 || f.delivered == 0.0)
  {
    FlowFromInputs(store, slot, plan, soc);
    NothingMoved(store.eta);
    StoredBounds(store, slot, soc);
    if soc > store.minSoc {
      IntoPositive(store.eta, soc - store.minSoc);
    }
    hide Into, OutOf, AskedFromGrid, SunShare, Step;
  }

  lemma IntoPositive(eta: real, energy: real)
    requires eta > 0.0 && energy > 0.0
    ensures Into(eta, energy) > 0.0
  {
    MulPositive(energy, eta);
  }

  /** Energy goes unserved exactly when the demand of the interval, be it the site's deficit
      or, without one, what SMART asks for ahead, exceeds what battery and import limit bring
      together. Under SELF_USE an interval without a deficit serves everything. */
  lemma ChargingBeyondTheBreaker(store: Store, slot: Slot, plan: Plan, soc: real)
    requires store.Valid() && slot.Valid() && SocInRange(store, soc) && plan.deficitAhead >= 0.0
    ensures var f := Step(store, slot, plan, soc);
      && (f.unserved > 0.0 <==>
            && slot.importLimit.Some?
            && Demand(store, slot, plan, soc) > FromBattery(store, slot, plan, soc) + slot.importLimit.value)
      && (plan == SELF_USE && slot.deficit == 0.0 ==> f.unserved == 0.0)
  {
    FlowFromInputs(store, slot, plan, soc);
    StepIsPhysical(store, slot, plan, soc);
    hide Into, OutOf, AskedFromGrid, SunShare, FromBattery, StoredFromSun, ChargedFromGrid, Delivered;
    DemandIsWhole(store, slot, plan, soc);
    SelfUseAsksNothing(store, slot, soc);
  }

  lemma DemandIsWhole(store: Store, slot: Slot, plan: Plan, soc: real)
    requires store.Valid() && slot.Valid() && SocInRange(store, soc) && plan.deficitAhead >= 0.0
    ensures slot.deficit + Step(store, slot, plan, soc).gridCharged == Demand(store, slot, plan, soc)
  {
    FlowFromInputs(store, slot, plan, soc);
    hide Step, AskedFromGrid;
  }

  lemma SelfUseAsksNothing(store: Store, slot: Slot, soc: real)
    requires store.Valid()
    ensures AskedFromGrid(store, slot, SELF_USE, soc) == 0.0
  {
  }

  /** Both conditions for the intervals of a run. */
  lemma RunBatteryAndBreaker(plant: Plant, strategy: Strategy, points: seq<Point>, n: nat)
    requires plant.Valid() && ValidSeries(points) && n < |points|
    ensures var store, slots, plans := StoreOf(plant), Slots(plant, points), Plans(plant.eta, strategy, points);
      var slot, plan, soc := slots[n], plans[n], SocBefore(store, slots, plans, n);
      var f := FlowAt(store, slots, plans, n);
      && (f.unserved > 0.0 <==>
            && plant.grid.maxImportKw.Some?
            && Demand(store, slot, plan, soc)
               > FromBattery(store, slot, plan, soc) + plant.grid.maxImportKw.value * Hours(points[n]))
      && (f.stored + f.gridCharged > 0.0 && f.delivered > 0.0
          <==> && slot.deficit == 0.0 && AskedFromGrid(store, slot, plan, soc) > 0.0
               && !plan.preserve && slot.dischargePower > 0.0 && soc > plant.MinSoc())
      && (strategy == SelfUse && slot.deficit == 0.0 ==> f.unserved == 0.0)
      && (strategy == SelfUse ==> f.stored == 0.0 || f.delivered == 0.0)
  {
    hide Step, PlanFor, AskedFromGrid, FromBattery, Demand, Hours;
    var store, slots, plans := StoreOf(plant), Slots(plant, points), Plans(plant.eta, strategy, points);
    StoreIsValid(plant);
    SlotsAreValid(plant, points);
    SocStaysInRange(store, slots, plans, n);
    PlanExpectsNoSurplus(plant.eta, strategy, points, n);
    ChargesAndDischargesExactly(store, slots[n], plans[n], SocBefore(store, slots, plans, n));
    ChargingBeyondTheBreaker(store, slots[n], plans[n], SocBefore(store, slots, plans, n));
  }

  // ---- both happen ----

  const SMALL_BREAKER := SMALL_PLANT.(grid := Grid(Some(1.0), None, true))

  /** The sunny hour behind a breaker of one kilowatt: two kilowatt-hours are charged from a
      grid that brings one, and the other is reported as unserved although nothing was
      consumed. */
  lemma UnservedWhileCharging()
    ensures SMALL_BREAKER.Valid() && ValidSeries([SUNNY_HOUR, DEAR_HOUR])
    ensures var points := [SUNNY_HOUR, DEAR_HOUR];
      var f := FlowAt(StoreOf(SMALL_BREAKER), Slots(SMALL_BREAKER, points), Plans(1.0, SmartHeuristic, points), 0);
      SUNNY_HOUR.consumptionKwh == 0.0 && f.gridCharged == 2.0 && f.imported == 1.0 && f.unserved == 1.0
  {
    SmallPlantIsValid();
    SmallBreakerIsValid();
    SunnyHourPlan();
    SunnyHourBehindBreaker();
    hide Step, PlanFor, SlotOf, StoreOf, FlowAt, Hours;
    FirstFlow(SMALL_BREAKER, SmartHeuristic, [SUNNY_HOUR, DEAR_HOUR]);
  }

  lemma SmallBreakerIsValid()
    ensures SMALL_BREAKER.Valid()
  {
  }

  lemma SunnyHourBehindBreaker()
    ensures var f := Step(StoreOf(SMALL_BREAKER), SlotOf(SMALL_BREAKER, SUNNY_HOUR), Plan(true, true, 8.0),
                          StoreOf(SMALL_BREAKER).minSoc);
      f.gridCharged == 2.0 && f.imported == 1.0 && f.unserved == 1.0
  {
    assert StoreOf(SMALL_BREAKER) == Store(true, 0.0, 10.0, 1.0);
    assert SlotOf(SMALL_BREAKER, SUNNY_HOUR) == Slot(2.0, 0.0, 2.0, 2.0, Some(1.0), None, 1.0, 1.0, 0.0);
  }

  const DEAR_SUN := Point(0, HOUR_MS, 2.0, 0.0, 5.0, 0.0)
  const QUIET_HOUR := Point(HOUR_MS, 2 * HOUR_MS, 0.0, 0.0, 1.0, 0.0)
  const EVENING := Point(2 * HOUR_MS, 3 * HOUR_MS, 0.0, 8.0, 1.05, 0.0)

  /** A price advantage above the threshold for buying and not above the one for keeping: in
      the quiet hour the battery takes two kilowatt-hours from the grid and gives two back. */
  lemma ChargesWhileDischarging()
    ensures SMALL_PLANT.Valid() && ValidSeries([DEAR_SUN, QUIET_HOUR, EVENING])
    ensures var points := [DEAR_SUN, QUIET_HOUR, EVENING];
      var f := FlowAt(StoreOf(SMALL_PLANT), Slots(SMALL_PLANT, points), Plans(1.0, SmartHeuristic, points), 1);
      f.gridCharged == 2.0 && f.delivered == 2.0
  {
    SmallPlantIsValid();
    QuietSeriesIsValid();
    DearSunPlan();
    QuietHourPlan();
    QuietHourFlows();
    hide Step, PlanFor, SlotOf, StoreOf, FlowAt, Hours;
    FirstFlow(SMALL_PLANT, SmartHeuristic, [DEAR_SUN, QUIET_HOUR, EVENING]);
    SecondFlow(SMALL_PLANT, SmartHeuristic, [DEAR_SUN, QUIET_HOUR, EVENING]);
  }

  lemma QuietSeriesIsValid()
    ensures ValidSeries([DEAR_SUN, QUIET_HOUR, EVENING])
  {
  }

  lemma DearSunPlan()
    ensures PlanFor(1.0, SmartHeuristic, [DEAR_SUN, QUIET_HOUR, EVENING], 0) == Plan(false, false, 8.0)
  {
    var points := [DEAR_SUN, QUIET_HOUR, EVENING];
    assert WindowEnd(points, 0, 3) == 3 && WindowEnd(points, 0, 2) == 3;
    assert MaximumBuy(points, 0, 1) == 5.0 && MaximumBuy(points, 0, 2) == 5.0;
    assert DeficitAhead(points, 0, 1) == 0.0 && DeficitAhead(points, 0, 2) == 0.0;
  }

  lemma QuietHourPlan()
    ensures PlanFor(1.0, SmartHeuristic, [DEAR_SUN, QUIET_HOUR, EVENING], 1) == Plan(true, false, 8.0)
  {
    var points := [DEAR_SUN, QUIET_HOUR, EVENING];
    assert WindowEnd(points, 1, 3) == 3;
    assert MaximumBuy(points, 1, 2) == 1.0 && DeficitAhead(points, 1, 2) == 0.0;
  }

  lemma QuietHourFlows()
    ensures var store := StoreOf(SMALL_PLANT);
      var first := Step(store, SlotOf(SMALL_PLANT, DEAR_SUN), Plan(false, false, 8.0), store.minSoc);
      var f := Step(store, SlotOf(SMALL_PLANT, QUIET_HOUR), Plan(true, false, 8.0), first.soc);
      f.gridCharged == 2.0 && f.delivered == 2.0
  {
    hide Step, StoreOf, SlotOf;
    QuietSlots();
    DearSunStores();
    QuietHourTurnsOver();
  }

  lemma QuietSlots()
    ensures StoreOf(SMALL_PLANT) == Store(true, 0.0, 10.0, 1.0)
    ensures SlotOf(SMALL_PLANT, DEAR_SUN) == Slot(2.0, 0.0, 2.0, 2.0, None, None, 1.0, 5.0, 0.0)
    ensures SlotOf(SMALL_PLANT, QUIET_HOUR) == Slot(0.0, 0.0, 2.0, 2.0, None, None, 1.0, 1.0, 0.0)
  {
  }

  lemma DearSunStores()
    ensures Step(Store(true, 0.0, 10.0, 1.0), Slot(2.0, 0.0, 2.0, 2.0, None, None, 1.0, 5.0, 0.0),
                 Plan(false, false, 8.0), 0.0).soc == 2.0
  {
  }

  lemma QuietHourTurnsOver()
    ensures var f := Step(Store(true, 0.0, 10.0, 1.0), Slot(0.0, 0.0, 2.0, 2.0, None, None, 1.0, 1.0, 0.0),
                          Plan(true, false, 8.0), 2.0);
      f.gridCharged == 2.0 && f.delivered == 2.0
  {
  }

  // ---- when SMART is SELF_USE ----

  /** Plans that ask for nothing special give SELF_USE flows. */
  lemma {:induction false} QuietPlansAreSelfUse(store: Store, slots: seq<Slot>, plans: seq<Plan>, n: nat)
    requires store.Valid() && |plans| == |slots| && n <= |slots|
    requires forall i :: 0 <= i < |plans| ==> !plans[i].arbitrage && !plans[i].preserve
    ensures SocBefore(store, slots, plans, n) == SocBefore(store, slots, SelfUsePlans(|slots|), n)
    ensures n < |slots| ==> FlowAt(store, slots, plans, n) == FlowAt(store, slots, SelfUsePlans(|slots|), n)
  {
    hide Into, OutOf;
    if n > 0 {
      QuietPlansAreSelfUse(store, slots, plans, n - 1);
    }
  }

  /** Buying at this price to use the energy at the same price is not worthwhile. It holds for
      every price that is not negative, and for the others unless they are so low, or the
      battery so lossy, that taking energy and losing it is paid for. */
  predicate QuietPrice(eta: real, buy: real)
    requires eta > 0.0
  {
    buy * (1.0 / eta - eta) >= -0.01
  }

  /** With no dearer price ahead SMART buys exactly at a price that is not quiet; and it keeps
      its charge at no other. */
  lemma FlatPriceIsQuietExactly(eta: real, buy: real)
    requires 0.0 < eta <= 1.0
    ensures ArbitrageWorthwhile(eta, buy, buy) <==> !QuietPrice(eta, buy)
    ensures PreserveForMoreExpensive(eta, buy, buy) ==> !QuietPrice(eta, buy)
    ensures buy >= 0.0 || eta == 1.0 ==> QuietPrice(eta, buy)
  {
    var share := 1.0 / eta;
    assert buy / eta == buy * share;
    assert share >= 1.0 by { DivBound(1.0, 1.0, eta); }
    if buy >= 0.0 {
      MulNonNegative(buy, share - eta);
    } else if PreserveForMoreExpensive(eta, buy, buy) {
      KeepingCostsMore(eta, buy);
    }
  }

  lemma KeepingCostsMore(eta: real, buy: real)
    requires 0.0 < eta <= 1.0 && buy < 0.0 && PreserveForMoreExpensive(eta, buy, buy)
    ensures buy * (1.0 / eta - eta) < -0.05
  {
    var floor := Max(eta, 0.01);
    var kept, share := 1.0 / floor, 1.0 / eta;
    assert buy / floor == buy * kept;
    assert kept <= share by { DivByLarger(eta, floor); }
    assert (share - eta) - (kept - 1.0) >= 0.0;
    MulNonNegative(-buy, (share - eta) - (kept - 1.0));
  }

  lemma DivByLarger(a: real, b: real)
    requires 0.0 < a <= b
    ensures 1.0 / b <= 1.0 / a
  {
    DivBound(1.0 / b, 1.0, a);
    MulMonotone(a, b, 1.0 / b);
    DivTimes(1.0, b);
  }

  /** SMART counts a purchase as worthwhile exactly when what comes back of it after the
      round trip is worth, at the dearest coming price, at least a margin more than it cost. */
  lemma ArbitragePaysExactly(eta: real, buy: real, maximumBuy: real)
    requires 0.0 < eta
    ensures ArbitrageWorthwhile(eta, buy, maximumBuy) <==> RoundTrip(eta, maximumBuy) > buy + 0.01 * eta
  {
    var cost, gain := buy / eta + 0.01, maximumBuy * eta;
    assert cost * eta == buy + 0.01 * eta by {
      DivTimes(buy, eta);
      assert (buy / eta + 0.01) * eta == buy / eta * eta + 0.01 * eta;
    }
    if gain > cost {
      MulPositive(gain - cost, eta);
      assert (gain - cost) * eta == gain * eta - cost * eta;
    } else {
      MulMonotone(gain, cost, eta);
    }
  }

  /** A strictly dearer interval starts within the coming 34 hours. */
  ghost predicate DearerAhead(points: seq<Point>, index: nat)
    requires index < |points|
  {
    exists j ::
      && index < j < |points|
      && points[j].startAt < points[index].startAt + HORIZON_MS
      && points[j].totalBuyCzkKwh > points[index].totalBuyCzkKwh
  }

  /** SMART asks for something SELF_USE does not. */
  predicate Deviates(plan: Plan) {
    plan.arbitrage || plan.preserve
  }

  lemma WindowIsFlat(points: seq<Point>, index: nat)
    requires index < |points|
    ensures var end := WindowEnd(points, index, index + 1);
      !DearerAhead(points, index) ==> MaximumBuy(points, index, end) == points[index].totalBuyCzkKwh
  {
    var end := WindowEnd(points, index, index + 1);
    var j :| index <= j < end && points[j].totalBuyCzkKwh == MaximumBuy(points, index, end);
  }

  /** With no dearer interval ahead SMART deviates from SELF_USE exactly at a price that is not
      quiet; so whenever it deviates at a quiet price, a non-negative one for instance, it
      waits for a dearer interval. */
  lemma SmartWaitsForADearerInterval(eta: real, points: seq<Point>, index: nat)
    requires 0.0 < eta <= 1.0 && index < |points|
    ensures var plan, buy := PlanFor(eta, SmartHeuristic, points, index), points[index].totalBuyCzkKwh;
      && (!DearerAhead(points, index) ==> (Deviates(plan) <==> !QuietPrice(eta, buy)))
      && (Deviates(plan) && buy >= 0.0 ==> DearerAhead(points, index))
  {
    WindowIsFlat(points, index);
    FlatPriceIsQuietExactly(eta, points[index].totalBuyCzkKwh);
    hide ArbitrageWorthwhile, PreserveForMoreExpensive, DeficitAhead, QuietPrice, DearerAhead;
  }

  ghost predicate NeverRising(points: seq<Point>) {
    forall i, j :: 0 <= i <= j < |points| ==> points[j].totalBuyCzkKwh <= points[i].totalBuyCzkKwh
  }

  ghost predicate QuietPrices(eta: real, points: seq<Point>)
    requires eta > 0.0
  {
    forall i :: 0 <= i < |points| ==> QuietPrice(eta, points[i].totalBuyCzkKwh)
  }

  /** When prices never rise, SMART plans like SELF_USE throughout if and only if all of them
      are quiet. */
  lemma PlansAreQuietExactly(eta: real, points: seq<Point>)
    requires 0.0 < eta <= 1.0 && NeverRising(points)
    ensures var plans := Plans(eta, SmartHeuristic, points);
      (forall i :: 0 <= i < |points| ==> !Deviates(plans[i])) <==> QuietPrices(eta, points)
  {
    var plans := Plans(eta, SmartHeuristic, points);
    hide PlanFor, Deviates, QuietPrice;
    forall i | 0 <= i < |points|
      ensures plans[i] == PlanFor(eta, SmartHeuristic, points, i)
      ensures Deviates(plans[i]) <==> !QuietPrice(eta, points[i].totalBuyCzkKwh)
    {
      SmartWaitsForADearerInterval(eta, points, i);
    }
  }

  /** With quiet prices that never rise, SMART_HEURISTIC moves exactly the energy SELF_USE
      moves, interval by interval. */
  lemma SmartCollapsesWhenPricesFall(plant: Plant, points: seq<Point>, n: nat)
    requires plant.Valid() && ValidSeries(points) && n < |points|
    requires NeverRising(points) && QuietPrices(plant.eta, points)
    ensures var store, slots := StoreOf(plant), Slots(plant, points);
      FlowAt(store, slots, Plans(plant.eta, SmartHeuristic, points), n)
      == FlowAt(store, slots, Plans(plant.eta, SelfUse, points), n)
  {
    hide FlowAt, SocBefore, Step, QuietPrices;
    StoreIsValid(plant);
    EtaAtMostOne(plant);
    PlansAreQuietExactly(plant.eta, points);
    QuietPlansAreSelfUse(StoreOf(plant), Slots(plant, points), Plans(plant.eta, SmartHeuristic, points), n);
    assert Plans(plant.eta, SelfUse, points) == SelfUsePlans(|points|);
  }
}
