/** The physics gate of the yearly study, applied to the figures the dispatch publishes:
    which batteries pass it whatever they are used for. */
module PhysicsGate {
  import opened Basics
  import opened Rounding
  import opened DispatchModel
  import opened DispatchLaws
  import opened DispatchRun
  import opened DispatchTheorems
  import opened Periods

  // What the validation of the yearly study allows, in kWh.
  const PHYSICS_GATE := 0.01

  // Half a unit of the last published digit of an energy.
  const HALF := 0.0000005

  // What it allows to go unserved, in kWh.
  const UNSERVED_GATE := 0.000001

  /** By how much the published energies fail to balance, as the study adds them up: it has
      refused unserved energy separately and leaves it out of the sum. */
  function BalanceGap(plant: Plant, strategy: Strategy, points: seq<Point>, localDate: int -> string): real
    requires plant.Valid() && ValidSeries(points)
  {
    var r := ReportOf(plant, strategy, points, localDate);
    SumProduction(points, |points|) - SumConsumption(points, |points|)
    + r.importKwh + r.dischargedKwh - r.exportKwh - r.chargedKwh - r.curtailedKwh
  }

  /** By how much the published ending state of charge misses the one that the published
      battery energies give. */
  function ChargeGap(plant: Plant, strategy: Strategy, points: seq<Point>, localDate: int -> string): real
    requires plant.Valid() && ValidSeries(points)
  {
    var r := ReportOf(plant, strategy, points, localDate);
    r.endingSocKwh - (plant.MinSoc() + Into(plant.eta, r.chargedKwh) - OutOf(plant.eta, r.dischargedKwh))
  }

  // ---- what rounding does to one energy ----

  /** A published energy exceeds the exact one by the epsilon and at most half a unit, and
      falls short of that by less than half a unit. */
  predicate ErrorOf(error: real) {
    -HALF < error - EPSILON <= HALF
  }

  lemma RoundingError(value: real)
    ensures ErrorOf(Round(value, ENERGY) - value)
  {
    ScaledBounds(value, ENERGY);
  }

  lemma RoundsTo(value: real, n: int)
    requires n as real - 0.5 <= (value + EPSILON) * ENERGY < n as real + 0.5
    ensures Round(value, ENERGY) == n as real / ENERGY
  {
    assert Scaled(value, ENERGY) == n;
  }

  /** The published figures of the energies that both gaps speak of. */
  lemma PublishedErrors(plant: Plant, strategy: Strategy, points: seq<Point>, localDate: int -> string)
    requires plant.Valid() && ValidSeries(points)
    ensures var r, t := ReportOf(plant, strategy, points, localDate), TotalsOf(plant, strategy, points, |points|);
      && r.importKwh == Round(t.importKwh, ENERGY) && r.exportKwh == Round(t.exportKwh, ENERGY)
      && r.chargedKwh == Round(t.chargedKwh, ENERGY) && r.dischargedKwh == Round(t.dischargedKwh, ENERGY)
      && r.curtailedKwh == Round(t.curtailedKwh, ENERGY) && r.unservedKwh == Round(t.unservedKwh, ENERGY)
      && r.endingSocKwh == Round(SocOf(plant, strategy, points, |points|), ENERGY)
  {
    hide Round, Entries, Daily, Monthly, Rounded, SlotOf, EnergyAfter, ImportCostAfter, ExportRevenueAfter, PeakAfter,
         SocBefore, Plans;
  }

  // ---- the balance ----

  /** What the published report calls unserved. */
  function Unserved(plant: Plant, strategy: Strategy, points: seq<Point>, localDate: int -> string): real
    requires plant.Valid() && ValidSeries(points)
  {
    ReportOf(plant, strategy, points, localDate).unservedKwh
  }

  /** In every run the gap of the published balance is the published unserved energy, within
      six rounding errors: the balance closes if nothing goes unserved, and misses the gate
      whenever more than the gate and those errors does. */
  lemma BalanceClosesUpToUnserved(plant: Plant, strategy: Strategy, points: seq<Point>, localDate: int -> string)
    requires plant.Valid() && ValidSeries(points)
    ensures var gap, unserved :=
        BalanceGap(plant, strategy, points, localDate), Unserved(plant, strategy, points, localDate);
      && Abs(gap + unserved) < 6.0 * HALF
      && (unserved <= UNSERVED_GATE ==> Abs(gap) <= PHYSICS_GATE)
      && (Abs(gap) <= PHYSICS_GATE ==> unserved < PHYSICS_GATE + 6.0 * HALF)
  {
    hide ReportOf, TotalsOf, SocOf, Round, SumProduction, SumConsumption;
    UnservedIsNotNegative(plant, strategy, points, localDate);
    var t := TotalsOf(plant, strategy, points, |points|);
    PublishedErrors(plant, strategy, points, localDate);
    RunLedger(plant, strategy, points, |points|);
    RoundingError(t.importKwh);
    RoundingError(t.exportKwh);
    RoundingError(t.chargedKwh);
    RoundingError(t.dischargedKwh);
    RoundingError(t.curtailedKwh);
    RoundingError(t.unservedKwh);
  }

  lemma UnservedIsNotNegative(plant: Plant, strategy: Strategy, points: seq<Point>, localDate: int -> string)
    requires plant.Valid() && ValidSeries(points)
    ensures Unserved(plant, strategy, points, localDate) >= 0.0
  {
    hide ReportOf, TotalsOf, SocOf, Shows, ImportCostAfter, ExportRevenueAfter, VariableCost;
    ReportShowsTheRun(plant, strategy, points, localDate);
  }

  // ---- the state of charge ----

  function Reciprocal(eta: real): real
    requires eta > 0.0
  {
    1.0 / eta
  }

  /** What the three rounding errors can add up to for a one-way efficiency: the charged
      energy counts by `eta`, the discharged energy by its reciprocal. */
  function GateBound(eta: real): real
    requires eta > 0.0
  {
    HALF * (1.0 + eta + Reciprocal(eta)) + EPSILON * (1.0 - eta + Reciprocal(eta))
  }

  lemma ReciprocalAtLeastOne(eta: real)
    requires 0.0 < eta <= 1.0
    ensures Reciprocal(eta) >= 1.0
  {
    DivMonotone(eta, 1.0, eta);
  }

  lemma Conversions(eta: real, soc: real, minSoc: real, charged: real, discharged: real,
                    d1: real, d2: real, d3: real)
    requires eta > 0.0 && soc == minSoc + Into(eta, charged) - OutOf(eta, discharged)
    ensures soc + d1 - (minSoc + Into(eta, charged + d2) - OutOf(eta, discharged + d3))
      == d1 - Into(eta, d2) + OutOf(eta, d3)
  {
    assert Into(eta, charged + d2) == Into(eta, charged) + Into(eta, d2);
    assert OutOf(eta, discharged + d3) == OutOf(eta, discharged) + OutOf(eta, d3);
  }

  /** The gap is what three rounding errors make of it. */
  lemma GapOfErrors(plant: Plant, strategy: Strategy, points: seq<Point>, localDate: int -> string)
    returns (d1: real, d2: real, d3: real)
    requires plant.Valid() && ValidSeries(points)
    ensures ErrorOf(d1) && ErrorOf(d2) && ErrorOf(d3)
    ensures ChargeGap(plant, strategy, points, localDate) == d1 - Into(plant.eta, d2) + OutOf(plant.eta, d3)
  {
    hide ReportOf, TotalsOf, SocOf, Round, Into, OutOf, ErrorOf;
    var t, soc := TotalsOf(plant, strategy, points, |points|), SocOf(plant, strategy, points, |points|);
    PublishedErrors(plant, strategy, points, localDate);
    RunBatteryLedger(plant, strategy, points, |points|);
    RoundingError(soc);
    RoundingError(t.chargedKwh);
    RoundingError(t.dischargedKwh);
    d1 := Round(soc, ENERGY) - soc;
    d2 := Round(t.chargedKwh, ENERGY) - t.chargedKwh;
    d3 := Round(t.dischargedKwh, ENERGY) - t.dischargedKwh;
    Conversions(plant.eta, soc, plant.MinSoc(), t.chargedKwh, t.dischargedKwh, d1, d2, d3);
  }

  lemma IntoGrows(eta: real, a: real, b: real)
    requires eta > 0.0
    ensures a < b ==> Into(eta, a) < Into(eta, b)
    ensures a <= b ==> Into(eta, a) <= Into(eta, b)
  {
    assert Into(eta, b) - Into(eta, a) == (b - a) * eta;
    if a < b {
      MulPositive(b - a, eta);
    }
  }

  lemma OutOfGrows(eta: real, a: real, b: real)
    requires eta > 0.0
    ensures a < b ==> OutOf(eta, a) < OutOf(eta, b)
    ensures a <= b ==> OutOf(eta, a) <= OutOf(eta, b)
  {
    if OutOf(eta, b) <= OutOf(eta, a) {
      MulMonotone(b / eta, a / eta, eta);
      DivTimes(a, eta);
      DivTimes(b, eta);
    }
  }

  lemma QuotientIsProduct(d: real, eta: real)
    requires eta > 0.0
    ensures OutOf(eta, d) == d * Reciprocal(eta)
  {
  }

  /** The gap of any run stays strictly below the bound of its efficiency. */
  lemma GapBelowBound(plant: Plant, strategy: Strategy, points: seq<Point>, localDate: int -> string)
    requires plant.Valid() && ValidSeries(points)
    ensures Abs(ChargeGap(plant, strategy, points, localDate)) < GateBound(plant.eta)
  {
    hide ChargeGap, Into, OutOf, GateBound;
    var eta := plant.eta;
    EtaAtMostOne(plant);
    var d1, d2, d3 := GapOfErrors(plant, strategy, points, localDate);
    IntoGrows(eta, EPSILON - HALF, d2);
    IntoGrows(eta, d2, EPSILON + HALF);
    OutOfGrows(eta, EPSILON - HALF, d3);
    OutOfGrows(eta, d3, EPSILON + HALF);
    BoundWrittenOut(eta);
  }

  /** The bound as the worst three errors, and as more than the worst in the other direction. */
  lemma BoundWrittenOut(eta: real)
    requires 0.0 < eta <= 1.0
    ensures GateBound(eta) == HALF + EPSILON - Into(eta, EPSILON - HALF) + OutOf(eta, EPSILON + HALF)
    ensures GateBound(eta) >= HALF - EPSILON + Into(eta, EPSILON + HALF) - OutOf(eta, EPSILON - HALF)
  {
    ReciprocalAtLeastOne(eta);
    QuotientIsProduct(EPSILON + HALF, eta);
    QuotientIsProduct(EPSILON - HALF, eta);
    hide Reciprocal, OutOf;
  }

  // ---- and nothing less will do ----

  /** How far the charged energy stays from the exact half. */
  function Slack(eta: real): real
    requires eta > 0.0
  {
    Min(HALF, (GateBound(eta) - PHYSICS_GATE) / 2.0)
  }

  // The energy that is published as a whole unit although it is just half of one.
  const TAKEN := HALF - EPSILON

  /** Enough whole units to discharge `TAKEN` again after both losses. */
  function Units(eta: real): int
    requires eta > 0.0
  {
    (Reciprocal(eta) * Reciprocal(eta)).Floor + 1
  }

  /** The energy that is published without the almost half unit it has. */
  function Given(eta: real, slack: real): real
    requires eta > 0.0
  {
    Units(eta) as real / ENERGY + TAKEN - slack
  }

  /** What remains in the cells of the energy given, after `TAKEN` was taken out. */
  function Remains(eta: real, slack: real): real
    requires eta > 0.0
  {
    Into(eta, Given(eta, slack)) - OutOf(eta, TAKEN)
  }

  function EndUnits(eta: real, slack: real): int
    requires eta > 0.0
  {
    (Remains(eta, slack) * ENERGY).Floor + 1
  }

  /** The lower limit that makes the ending charge just half a unit more than whole ones. */
  function LowerLimit(eta: real, slack: real): real
    requires eta > 0.0
  {
    EndUnits(eta, slack) as real / ENERGY + TAKEN - Remains(eta, slack)
  }

  function UpperLimit(eta: real, slack: real): real
    requires eta > 0.0
  {
    LowerLimit(eta, slack) + Into(eta, Given(eta, slack))
  }

  /** A battery that the hour below fills exactly. */
  function LeakyPlant(eta: real, slack: real): Plant
    requires eta > 0.0 && UpperLimit(eta, slack) != 0.0
  {
    var lower, upper := LowerLimit(eta, slack), UpperLimit(eta, slack);
    Plant(Battery(upper, Given(eta, slack), TAKEN, 100.0 * lower / upper, 100.0, 100.0 * (eta * eta)),
          Grid(None, None, true), eta)
  }

  function FloodHour(eta: real, slack: real): Point
    requires eta > 0.0
  {
    Point(0, HOUR_MS, Given(eta, slack), 0.0, 0.0, 0.0)
  }

  const DRY_HOUR := Point(HOUR_MS, 2 * HOUR_MS, 0.0, TAKEN, 0.0, 0.0)

  lemma SlackBounds(eta: real)
    requires 0.0 < eta <= 1.0
    ensures GateBound(eta) > PHYSICS_GATE
      ==> 0.0 < Slack(eta) <= HALF && 2.0 * Slack(eta) <= GateBound(eta) - PHYSICS_GATE
  {
    hide GateBound;
  }

  lemma UnitsSuffice(eta: real)
    requires 0.0 < eta <= 1.0
    ensures Units(eta) >= 1 && Units(eta) as real * (eta * eta) >= 1.0
  {
    ReciprocalAtLeastOne(eta);
    var q, k := Reciprocal(eta), Units(eta) as real;
    MulPositive(eta, eta);
    MulMonotone(1.0, q, q);
    assert q * eta == 1.0;
    SquaresCancel(q, eta);
    hide Reciprocal;
    assert k > q * q;
    MulMonotone(q * q, k, eta * eta);
  }

  lemma SquaresCancel(q: real, eta: real)
    requires q * eta == 1.0
    ensures q * q * (eta * eta) == 1.0
  {
    calc {
      q * q * (eta * eta);
      (q * eta) * (q * eta);
      1.0;
    }
  }

  /** The hour gives enough to take `TAKEN` out again. */
  lemma GivenSuffices(eta: real, slack: real)
    requires 0.0 < eta <= 1.0 && 0.0 < slack <= HALF
    ensures Given(eta, slack) > 0.0 && Into(eta, Into(eta, Given(eta, slack))) >= TAKEN
    ensures Into(eta, Given(eta, slack)) > 0.0 && Remains(eta, slack) >= 0.0
  {
    UnitsSuffice(eta);
    var k, g, square := Units(eta) as real, Given(eta, slack), eta * eta;
    SquareOfShare(eta);
    assert g >= k / ENERGY - EPSILON;
    hide Units, Given;
    RoundTripOf(eta, g, k, square);
    MulPositive(g, eta);
    hide Into;
    BackThroughTheBattery(eta, g);
  }

  lemma RoundTripOf(eta: real, g: real, k: real, square: real)
    requires square == eta * eta && 0.0 < square <= 1.0 && k * square >= 1.0 && g >= k / ENERGY - EPSILON
    ensures Into(eta, Into(eta, g)) >= TAKEN
  {
    assert Into(eta, Into(eta, g)) == g * square;
    MulMonotone(k / ENERGY - EPSILON, g, square);
    assert (k / ENERGY - EPSILON) * square == k * square / ENERGY - EPSILON * square;
    MulMonotone(square, 1.0, EPSILON);
  }

  lemma BackThroughTheBattery(eta: real, g: real)
    requires 0.0 < eta && Into(eta, Into(eta, g)) >= TAKEN
    ensures Into(eta, g) - OutOf(eta, TAKEN) >= 0.0
  {
    DivMonotone(TAKEN, Into(eta, Into(eta, g)), eta);
    TimesDiv(Into(eta, g), eta);
  }

  lemma LimitsOfLeaky(eta: real, slack: real)
    requires 0.0 < eta <= 1.0 && 0.0 < slack <= HALF
    ensures 0.0 < LowerLimit(eta, slack) < UpperLimit(eta, slack)
  {
    GivenSuffices(eta, slack);
    var w := Remains(eta, slack);
    hide Remains, Into;
    assert EndUnits(eta, slack) as real > w * ENERGY;
    assert EndUnits(eta, slack) as real / ENERGY > w;
  }

  lemma LeakyPlantIsValid(eta: real, slack: real)
    requires 0.0 < eta <= 1.0 && 0.0 < slack <= HALF
    ensures 0.0 < LowerLimit(eta, slack) < UpperLimit(eta, slack)
    ensures LeakyPlant(eta, slack).Valid() && ValidSeries([FloodHour(eta, slack), DRY_HOUR])
    ensures StoreOf(LeakyPlant(eta, slack)) == Store(true, LowerLimit(eta, slack), UpperLimit(eta, slack), eta)
  {
    LimitsOfLeaky(eta, slack);
    GivenSuffices(eta, slack);
    SquareOfShare(eta);
    hide LowerLimit, UpperLimit, Given, Plant.Valid, StoreOf;
    assert ValidPoint(FloodHour(eta, slack)) && ValidPoint(DRY_HOUR);
    var lower, upper := LowerLimit(eta, slack), UpperLimit(eta, slack);
    PercentOf(lower, upper);
    PlantWithLimits(lower, upper, 100.0 * lower / upper, Given(eta, slack), eta, eta * eta);
  }

  /** A battery with one limit at a percentage and the other at its capacity. */
  lemma PlantWithLimits(low: real, capacity: real, percent: real, power: real, eta: real, square: real)
    requires 0.0 < low < capacity && Share(capacity, percent) == low && 0.0 <= percent <= 100.0
    requires power > 0.0 && eta > 0.0 && square == eta * eta && square <= 1.0
    ensures var plant := Plant(Battery(capacity, power, TAKEN, percent, 100.0, 100.0 * square),
                               Grid(None, None, true), eta);
      plant.Valid() && StoreOf(plant) == Store(true, low, capacity, eta)
  {
    WholeAndNothing(capacity);
    hide Share;
    assert 100.0 * square / 100.0 == square;
  }

  lemma PercentOf(part: real, whole: real)
    requires 0.0 < part < whole
    ensures Share(whole, 100.0 * part / whole) == part
    ensures 0.0 <= 100.0 * part / whole <= 100.0
  {
    DivTimes(100.0 * part, whole);
    DivNonNegative(100.0 * part, whole);
    DivMonotone(100.0 * part, 100.0 * whole, whole);
    TimesDiv(100.0, whole);
  }

  lemma LeakySlots(eta: real, slack: real)
    requires 0.0 < eta <= 1.0 && 0.0 < slack <= HALF && UpperLimit(eta, slack) != 0.0 && Given(eta, slack) > 0.0
    ensures SlotOf(LeakyPlant(eta, slack), FloodHour(eta, slack))
      == Slot(Given(eta, slack), 0.0, Given(eta, slack), TAKEN, None, None, 1.0, 0.0, 0.0)
    ensures SlotOf(LeakyPlant(eta, slack), DRY_HOUR)
      == Slot(0.0, TAKEN, Given(eta, slack), TAKEN, None, None, 1.0, 0.0, 0.0)
  {
    hide Given, UpperLimit, LowerLimit;
    assert Hours(FloodHour(eta, slack)) == 1.0 && Hours(DRY_HOUR) == 1.0;
    hide Hours;
  }

  /** The flood fills the battery. */
  lemma FloodFlow(eta: real, floor: real, ceiling: real, given: real)
    requires 0.0 < eta <= 1.0 && given > 0.0 && floor < ceiling && ceiling == floor + Into(eta, given)
    ensures var f := Step(Store(true, floor, ceiling, eta), Slot(given, 0.0, given, TAKEN, None, None, 1.0, 0.0, 0.0),
                          SELF_USE, floor);
      f.stored == given && f.gridCharged == 0.0 && f.delivered == 0.0 && f.soc == ceiling
  {
    hide Into, OutOf;
    NothingMoved(eta);
    ThereAndBack(eta, given);
    assert ceiling - floor == Into(eta, given);
  }

  /** The dry hour takes `TAKEN` out of it. */
  lemma DryFlow(eta: real, floor: real, ceiling: real, given: real)
    requires 0.0 < eta <= 1.0 && given > 0.0 && floor < ceiling && Into(eta, ceiling - floor) >= TAKEN
    ensures var f := Step(Store(true, floor, ceiling, eta), Slot(0.0, TAKEN, given, TAKEN, None, None, 1.0, 0.0, 0.0),
                          SELF_USE, ceiling);
      f.stored == 0.0 && f.gridCharged == 0.0 && f.delivered == TAKEN && f.soc == ceiling - OutOf(eta, TAKEN)
  {
    hide Into, OutOf;
    NothingMoved(eta);
  }

  /** What the two hours add up to. */
  lemma LeakyTotals(eta: real, slack: real)
    requires 0.0 < eta <= 1.0 && 0.0 < slack <= HALF
    ensures UpperLimit(eta, slack) != 0.0
    ensures var points := [FloodHour(eta, slack), DRY_HOUR];
      var t := TotalsOf(LeakyPlant(eta, slack), SelfUse, points, 2);
      && t.chargedKwh == Given(eta, slack) && t.dischargedKwh == TAKEN
      && SocOf(LeakyPlant(eta, slack), SelfUse, points, 2) == EndUnits(eta, slack) as real / ENERGY + TAKEN
  {
    LeakyPlantIsValid(eta, slack);
    GivenSuffices(eta, slack);
    LeakySlots(eta, slack);
    assert UpperLimit(eta, slack) - LowerLimit(eta, slack) == Into(eta, Given(eta, slack));
    assert UpperLimit(eta, slack) - OutOf(eta, TAKEN) == EndUnits(eta, slack) as real / ENERGY + TAKEN;
    FloodFlow(eta, LowerLimit(eta, slack), UpperLimit(eta, slack), Given(eta, slack));
    DryFlow(eta, LowerLimit(eta, slack), UpperLimit(eta, slack), Given(eta, slack));
    hide TotalsOf, SocOf, Step, SlotOf, StoreOf, Given, UpperLimit, LowerLimit, EndUnits, Into,
         OutOf, Remains, LeakyPlant, FloodHour, Plant.Valid;
    TwoIntervals(LeakyPlant(eta, slack), FloodHour(eta, slack), DRY_HOUR);
  }

  /** All three figures are rounded the unlucky way. */
  lemma LeakyFigures(eta: real, slack: real)
    requires 0.0 < eta <= 1.0 && 0.0 < slack <= HALF
    ensures Round(TAKEN, ENERGY) - TAKEN == EPSILON + HALF
    ensures Round(Given(eta, slack), ENERGY) - Given(eta, slack) == EPSILON - HALF + slack
    ensures var end := EndUnits(eta, slack) as real / ENERGY + TAKEN; Round(end, ENERGY) - end == EPSILON + HALF
  {
    var k, n := Units(eta), EndUnits(eta, slack);
    RoundsTo(TAKEN, 1);
    RoundsTo(Given(eta, slack), k);
    RoundsTo(n as real / ENERGY + TAKEN, n + 1);
    hide Round, Units, EndUnits;
    assert 1.0 / ENERGY == 2.0 * HALF;
    assert (n + 1) as real / ENERGY == n as real / ENERGY + 2.0 * HALF;
  }

  /** The battery for the slack its efficiency leaves. */
  function UnluckyPlant(eta: real): Plant
    requires eta > 0.0 && UpperLimit(eta, Slack(eta)) != 0.0
  {
    LeakyPlant(eta, Slack(eta))
  }

  function UnluckyHours(eta: real): seq<Point>
    requires eta > 0.0
  {
    [FloodHour(eta, Slack(eta)), DRY_HOUR]
  }

  /** Beyond the bound the gate fails, for every such efficiency: an hour of sun that is
      published too small, and an hour of consumption and an ending charge that are published
      too large, leave more between the figures than the gate allows. */
  lemma GateFailsForLeakyBattery(eta: real, localDate: int -> string)
    requires 0.0 < eta <= 1.0
    ensures GateBound(eta) > PHYSICS_GATE ==>
      && UpperLimit(eta, Slack(eta)) != 0.0 && UnluckyPlant(eta).Valid() && ValidSeries(UnluckyHours(eta))
      && ChargeGap(UnluckyPlant(eta), SelfUse, UnluckyHours(eta), localDate) > PHYSICS_GATE
  {
    SlackBounds(eta);
    if GateBound(eta) > PHYSICS_GATE {
      LeakyPlantIsValid(eta, Slack(eta));
      LeakyGap(eta, Slack(eta), localDate);
    }
  }

  /** How far the published charge of that battery is off. */
  lemma LeakyGap(eta: real, slack: real, localDate: int -> string)
    requires 0.0 < eta <= 1.0 && 0.0 < slack <= HALF
    requires UpperLimit(eta, slack) != 0.0 && LeakyPlant(eta, slack).Valid()
    requires ValidSeries([FloodHour(eta, slack), DRY_HOUR])
    ensures ChargeGap(LeakyPlant(eta, slack), SelfUse, [FloodHour(eta, slack), DRY_HOUR], localDate)
      > GateBound(eta) - 2.0 * slack
  {
    LeakyTotals(eta, slack);
    LeakyFigures(eta, slack);
    var plant, points := LeakyPlant(eta, slack), [FloodHour(eta, slack), DRY_HOUR];
    var t, soc := TotalsOf(plant, SelfUse, points, 2), SocOf(plant, SelfUse, points, 2);
    hide TotalsOf, SocOf, Round, ReportOf, Into, OutOf, GateBound, Slack, Given, EndUnits, UpperLimit,
         LowerLimit, StoreOf, LeakyPlant, FloodHour, Plant.Valid;
    PublishedErrors(plant, SelfUse, points, localDate);
    RunBatteryLedger(plant, SelfUse, points, 2);
    var d1, d2, d3 := EPSILON + HALF, EPSILON - HALF + slack, EPSILON + HALF;
    LeakyEta(eta, slack);
    Conversions(eta, soc, plant.MinSoc(), t.chargedKwh, t.dischargedKwh, d1, d2, d3);
    UnluckyErrors(eta, slack);
  }

  lemma LeakyEta(eta: real, slack: real)
    requires eta > 0.0 && UpperLimit(eta, slack) != 0.0
    ensures LeakyPlant(eta, slack).eta == eta
  {
  }

  lemma UnluckyErrors(eta: real, slack: real)
    requires 0.0 < eta <= 1.0 && 0.0 < slack
    ensures EPSILON + HALF - Into(eta, EPSILON - HALF + slack) + OutOf(eta, EPSILON + HALF)
      > GateBound(eta) - 2.0 * slack
  {
    BoundWrittenOut(eta);
    MulMonotone(eta, 1.0, slack);
    assert Into(eta, EPSILON - HALF + slack) == Into(eta, EPSILON - HALF) + eta * slack;
    hide Into, OutOf, GateBound;
  }

  // ---- the gate, exactly ----

  /** Every run of every plant with this one-way efficiency passes the gate. */
  ghost predicate GateHolds(eta: real) {
    forall plant: Plant, strategy, points, localDate: int -> string ::
      plant.Valid() && plant.eta == eta && ValidSeries(points)
      ==> Abs(ChargeGap(plant, strategy, points, localDate)) <= PHYSICS_GATE
  }

  /** THE PHYSICS GATE, EXACTLY. Whatever a battery is used for, its published state of
      charge agrees with its published energies within the gate, if and only if the bound of
      its efficiency is within the gate. */
  lemma GateHoldsExactly(eta: real)
    requires 0.0 < eta <= 1.0
    ensures GateHolds(eta) <==> GateBound(eta) <= PHYSICS_GATE
  {
    hide GateBound, ChargeGap;
    if GateBound(eta) <= PHYSICS_GATE {
      forall plant: Plant, strategy, points, localDate: int -> string |
        plant.Valid() && plant.eta == eta && ValidSeries(points)
        ensures Abs(ChargeGap(plant, strategy, points, localDate)) <= PHYSICS_GATE
      {
        GapBelowBound(plant, strategy, points, localDate);
      }
    } else {
      var localDate: int -> string := t => "";
      GateFailsForLeakyBattery(eta, localDate);
      LeakyEta(eta, Slack(eta));
      assert !(Abs(ChargeGap(UnluckyPlant(eta), SelfUse, UnluckyHours(eta), localDate)) <= PHYSICS_GATE);
    }
  }

  /** A better battery has the smaller bound, so there is one efficiency from which on the
      gate holds. */
  lemma BoundFalls(eta: real, better: real)
    requires 0.0 < eta <= better <= 1.0
    ensures GateBound(better) <= GateBound(eta)
  {
    ReciprocalFalls(eta, better);
    hide Reciprocal;
  }

  lemma ReciprocalFalls(eta: real, better: real)
    requires 0.0 < eta <= better <= 1.0
    ensures Reciprocal(eta) - Reciprocal(better) >= better - eta
  {
    var p, q := Reciprocal(eta), Reciprocal(better);
    ReciprocalAtLeastOne(eta);
    ReciprocalAtLeastOne(better);
    assert p * eta == 1.0 && q * better == 1.0;
    hide Reciprocal;
    calc {
      p - q;
      p * (q * better) - q * (p * eta);
      p * q * (better - eta);
    }
    MulMonotone(1.0, q, p);
    MulMonotone(1.0, p * q, better - eta);
  }

  // From a millionth of a percent on every battery passes.
  const ENOUGH_EFFICIENCY_PCT := 0.000001

  /** In particular every run of a battery of at least that round-trip efficiency passes. */
  lemma PublishedPhysics(plant: Plant, strategy: Strategy, points: seq<Point>, localDate: int -> string)
    requires plant.Valid() && ValidSeries(points)
    requires plant.battery.roundtripEfficiencyPct >= ENOUGH_EFFICIENCY_PCT
    ensures Unserved(plant, strategy, points, localDate) <= UNSERVED_GATE
      ==> Abs(BalanceGap(plant, strategy, points, localDate)) <= PHYSICS_GATE
    ensures Abs(ChargeGap(plant, strategy, points, localDate)) <= PHYSICS_GATE
  {
    hide BalanceGap, Unserved, ChargeGap, GateBound;
    BalanceClosesUpToUnserved(plant, strategy, points, localDate);
    GapBelowBound(plant, strategy, points, localDate);
    EtaAtMostOne(plant);
    if plant.eta < 0.0001 {
      SmallSquare(plant.eta);
    }
    BoundFalls(0.0001, plant.eta);
    BoundAtEnough();
  }

  lemma SmallSquare(x: real)
    requires 0.0 < x < 0.0001
    ensures x * x < 0.00000001
  {
    MulMonotone(x, 0.0001, x);
  }

  lemma BoundAtEnough()
    ensures GateBound(0.0001) <= PHYSICS_GATE
  {
    assert Reciprocal(0.0001) == 10000.0;
  }
}
