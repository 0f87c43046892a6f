/** When SMART_HEURISTIC does nothing at a price that never changes, and what it does
    otherwise. */
module FlatPrices {
  import opened Basics
  import opened DispatchModel
  import opened DispatchLaws
  import opened GreedyOptimality
  import opened SmartStrategy

  ghost predicate Flat(points: seq<Point>, price: real) {
    forall i :: 0 <= i < |points| ==> points[i].totalBuyCzkKwh == price
  }

  /** Whatever the battery of this efficiency and the site, SMART moves what SELF_USE moves. */
  ghost predicate CollapsesAtFlatPrice(eta: real, price: real) {
    forall plant: Plant, points, n: nat ::
      plant.Valid() && plant.eta == eta && ValidSeries(points) && Flat(points, price) && n < |points|
      ==> SameFlows(plant, points, n)
  }

  ghost predicate SameFlows(plant: Plant, points: seq<Point>, n: nat)
    requires plant.Valid() && n < |points|
  {
    FlowAt(StoreOf(plant), Slots(plant, points), Plans(plant.eta, SmartHeuristic, points), n)
    == FlowAt(StoreOf(plant), Slots(plant, points), Plans(plant.eta, SelfUse, points), n)
  }

  // ---- the failing case ----

  function FlatPlant(eta: real): Plant {
    Plant(Battery(10.0, 2.0, 2.0, 0.0, 100.0, 100.0 * (eta * eta)), Grid(None, None, true), eta)
  }

  function IdleHour(price: real): Point {
    Point(0, HOUR_MS, 0.0, 0.0, price, 0.0)
  }

  function LaterHour(price: real): Point {
    Point(HOUR_MS, 2 * HOUR_MS, 0.0, 1.0, price, 0.0)
  }

  lemma FlatPlantIsValid(eta: real)
    requires 0.0 < eta <= 1.0
    ensures FlatPlant(eta).Valid() && StoreOf(FlatPlant(eta)) == Store(true, 0.0, 10.0, eta)
  {
    SquareOfShare(eta);
    var square := eta * eta;
    assert 100.0 * square / 100.0 == square;
    WholeAndNothing(10.0);
  }

  lemma IdleHourSlot(eta: real, price: real)
    ensures SlotOf(FlatPlant(eta), IdleHour(price)) == Slot(0.0, 0.0, 2.0, 2.0, None, None, 1.0, price, 0.0)
    ensures Flat([IdleHour(price), LaterHour(price)], price)
    ensures ValidSeries([IdleHour(price), LaterHour(price)])
  {
  }

  lemma IdleHourPlan(eta: real, price: real)
    requires 0.0 < eta <= 1.0 && !QuietPrice(eta, price)
    ensures var plan := PlanFor(eta, SmartHeuristic, [IdleHour(price), LaterHour(price)], 0);
      plan.arbitrage && plan.deficitAhead == 1.0
  {
    var points := [IdleHour(price), LaterHour(price)];
    FlatPriceIsQuietExactly(eta, price);
    assert WindowEnd(points, 0, 2) == 2;
    assert MaximumBuy(points, 0, 1) == price && DeficitAhead(points, 0, 1) == 0.0;
    hide QuietPrice, ArbitrageWorthwhile;
  }

  /** The battery asks for energy whenever it may, has room and expects a deficit. */
  lemma AsksForEnergy(store: Store, slot: Slot, plan: Plan)
    requires store == Store(true, 0.0, 10.0, store.eta) && 0.0 < store.eta <= 1.0
    requires plan.arbitrage && plan.deficitAhead == 1.0 && slot.chargePower == 2.0 && slot.surplus == 0.0
    ensures AskedFromGrid(store, slot, plan, 0.0) > 0.0
  {
    var eta := store.eta;
    DivPositive(10.0, eta);
    DivPositive(1.0, Max(eta, 0.01));
    DivPositive(1.0 / Max(eta, 0.01), eta);
  }

  /** With nothing to do and one kilowatt-hour to be consumed an hour later at the same price,
      SMART buys; SELF_USE waits. */
  lemma BuysAheadAtAFlatPrice(eta: real, price: real)
    requires 0.0 < eta <= 1.0 && !QuietPrice(eta, price)
    ensures FlatPlant(eta).Valid() && ValidSeries([IdleHour(price), LaterHour(price)])
    ensures var plant, points := FlatPlant(eta), [IdleHour(price), LaterHour(price)];
      var store, slots := StoreOf(plant), Slots(plant, points);
      && FlowAt(store, slots, Plans(eta, SmartHeuristic, points), 0).gridCharged > 0.0
      && FlowAt(store, slots, Plans(eta, SelfUse, points), 0).gridCharged == 0.0
  {
    var plant, points := FlatPlant(eta), [IdleHour(price), LaterHour(price)];
    FlatPlantIsValid(eta);
    IdleHourSlot(eta, price);
    IdleHourPlan(eta, price);
    var store, slot := StoreOf(plant), SlotOf(plant, IdleHour(price));
    var plan := PlanFor(eta, SmartHeuristic, points, 0);
    StoreIsValid(plant);
    hide Step, PlanFor, SlotOf, StoreOf, FlowAt, Hours, AskedFromGrid, SunShare, Demand, FromBattery, QuietPrice;
    FirstFlow(plant, SmartHeuristic, points);
    FirstFlow(plant, SelfUse, points);
    AsksForEnergy(store, slot, plan);
    SelfUseAsksNothing(store, slot, 0.0);
    FlowFromInputs(store, slot, plan, 0.0);
    FlowFromInputs(store, slot, SELF_USE, 0.0);
    PlanExpectsNoSurplus(eta, SelfUse, points, 0);
  }

  // ---- exactly ----

  /** FLAT PRICES, EXACTLY. At a price that never changes SMART_HEURISTIC moves the energy
      SELF_USE moves, for every battery of an efficiency and every site, if and only if the
      price is quiet for that efficiency. */
  lemma FlatPriceCollapsesExactly(eta: real, price: real)
    requires 0.0 < eta <= 1.0
    ensures CollapsesAtFlatPrice(eta, price) <==> QuietPrice(eta, price)
  {
    hide QuietPrice, FlowAt, Slots, StoreOf;
    if QuietPrice(eta, price) {
      forall plant: Plant, points, n: nat |
        plant.Valid() && plant.eta == eta && ValidSeries(points) && Flat(points, price) && n < |points|
        ensures SameFlows(plant, points, n)
      {
        SmartCollapsesWhenPricesFall(plant, points, n);
      }
    } else {
      BuysAheadAtAFlatPrice(eta, price);
      var points := [IdleHour(price), LaterHour(price)];
      IdleHourSlot(eta, price);
      assert !SameFlows(FlatPlant(eta), points, 0);
    }
  }

  /** A price of minus one crown at an efficiency of nine tenths each way is not quiet. */
  lemma MinusOneCrown()
    ensures !QuietPrice(0.9, -1.0)
  {
  }
}
