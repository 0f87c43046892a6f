/** The two HDO tariff extremes, and when they bracket the cost of a real
    ripple-control calendar. */
module HdoSensitivity {
  import opened Basics
  import opened Rounding
  import opened DispatchModel
  import opened DispatchLaws
  import opened GreedyOptimality
  import opened DispatchRun
  import opened DispatchTheorems

  datatype HdoPoint = HdoPoint(
    point: Point,
    commodityBuyCzkKwh: real,
    commoditySellCzkKwh: real,
    otherRegulatedCzkKwh: real)

  datatype Direction = Direction(mode: string, vtCzkKwh: Option<real>, ntCzkKwh: Option<real>)

  datatype Definition = Definition(
    distributionVtCzkKwh: real,
    distributionNtCzkKwh: real,
    buy: Direction,
    sell: Direction)

  datatype HdoError = PriceMissing

  // ---- the modelled curve ----

  /** A field of a stored JSON value; only finite numbers are of interest. */
  datatype Json = Number(value: real) | OtherJson

  function Finite(prices: map<string, Json>, key: string): Option<real> {
    if key in prices && prices[key].Number? then Some(prices[key].value) else None
  }

  /** `None` stands for a value that is not an object at all. */
  function ModeledHdoDefinition(value: Option<map<string, Json>>): Option<Definition> {
    match value
    case None => None
    case Some(prices) =>
      match (Finite(prices, "distributionVtCzkKwh"), Finite(prices, "distributionNtCzkKwh"),
             Finite(prices, "commodityBuyVtCzkKwh"), Finite(prices, "commodityBuyNtCzkKwh"),
             Finite(prices, "commoditySellCzkKwh"))
      case (Some(dVt), Some(dNt), Some(bVt), Some(bNt), Some(s)) =>
        Some(Definition(dVt, dNt, Direction("FIX", Some(bVt), Some(bNt)), Direction("FIX", Some(s), Some(s))))
      case _ => None
  }

  // ---- prices of an interval under one tariff ----

  function FixedPrice(direction: Direction, lowTariff: bool, fallback: real): Result<real, HdoError> {
    if direction.mode != "FIX" then Ok(fallback)
    else
      var value := if lowTariff && direction.ntCzkKwh.Some? then direction.ntCzkKwh else direction.vtCzkKwh;
      match value
      case None => Err(PriceMissing)
      case Some(price) => Ok(price)
  }

  function Reprice(p: HdoPoint, definition: Definition, lowTariff: bool): Result<Point, HdoError> {
    var distribution := if lowTariff then definition.distributionNtCzkKwh else definition.distributionVtCzkKwh;
    match FixedPrice(definition.buy, lowTariff, p.commodityBuyCzkKwh)
    case Err(e) => Err(e)
    case Ok(buy) =>
      match FixedPrice(definition.sell, lowTariff, p.commoditySellCzkKwh)
      case Err(e) => Err(e)
      case Ok(sell) =>
        Ok(p.point.(totalBuyCzkKwh := buy + distribution + p.otherRegulatedCzkKwh, totalSellCzkKwh := sell))
  }

  function ApplyHdoExtreme(points: seq<HdoPoint>, definition: Definition, lowTariff: bool)
    : Result<seq<Point>, HdoError>
  {
    if points == [] then Ok([])
    else
      match Reprice(points[0], definition, lowTariff)
      case Err(e) => Err(e)
      case Ok(first) =>
        match ApplyHdoExtreme(points[1..], definition, lowTariff)
        case Err(e) => Err(e)
        case Ok(rest) => Ok([first] + rest)
  }

  predicate PriceKnown(direction: Direction, lowTariff: bool) {
    direction.mode == "FIX" ==> direction.vtCzkKwh.Some? || (lowTariff && direction.ntCzkKwh.Some?)
  }

  /** Both directions have a price under either tariff. */
  predicate FullyPriced(definition: Definition) {
    && (definition.buy.mode == "FIX" ==> definition.buy.vtCzkKwh.Some?)
    && (definition.sell.mode == "FIX" ==> definition.sell.vtCzkKwh.Some?)
  }

  /** A series under a calendar that says for every interval whether NT is on: what
      the two extremes stand for. */
  function UnderCalendar(points: seq<HdoPoint>, definition: Definition, calendar: seq<bool>): seq<Point>
    requires |calendar| == |points| && FullyPriced(definition)
  {
    seq(|points|, i requires 0 <= i < |points| => Reprice(points[i], definition, calendar[i]).value)
  }

  function Always(n: nat, lowTariff: bool): (calendar: seq<bool>)
    ensures |calendar| == n
  {
    seq(n, i => lowTariff)
  }

  /** An extreme is computable exactly when its two prices are known, and is then the
      calendar that never switches. */
  lemma {:induction false} ExtremeIsConstantCalendar(points: seq<HdoPoint>, definition: Definition, lowTariff: bool)
    ensures ApplyHdoExtreme(points, definition, lowTariff).Ok?
      <==> points == [] || (PriceKnown(definition.buy, lowTariff) && PriceKnown(definition.sell, lowTariff))
    ensures FullyPriced(definition) ==>
      ApplyHdoExtreme(points, definition, lowTariff)
      == Ok(UnderCalendar(points, definition, Always(|points|, lowTariff)))
  {
    if points == [] {
      assert FullyPriced(definition) ==> UnderCalendar(points, definition, Always(0, lowTariff)) == [];
    } else {
      ExtremeIsConstantCalendar(points[1..], definition, lowTariff);
      if FullyPriced(definition) {
        assert UnderCalendar(points, definition, Always(|points|, lowTariff))
          == [Reprice(points[0], definition, lowTariff).value]
             + UnderCalendar(points[1..], definition, Always(|points| - 1, lowTariff));
      }
    }
  }

  // ---- the bracket ----

  /** What switching to NT adds to the price of one direction. */
  function NightStep(direction: Direction): real {
    if direction.mode == "FIX" && direction.vtCzkKwh.Some? && direction.ntCzkKwh.Some?
    then direction.ntCzkKwh.value - direction.vtCzkKwh.value
    else 0.0
  }

  /** NT is the cheaper tariff: it buys for no more and sells for no less. */
  predicate NightIsCheaper(definition: Definition) {
    && NightStep(definition.buy) + definition.distributionNtCzkKwh - definition.distributionVtCzkKwh <= 0.0
    && NightStep(definition.sell) >= 0.0
  }

  /** The cost of a SELF_USE run under a calendar. */
  function CalendarCost(plant: Plant, points: seq<HdoPoint>, definition: Definition, calendar: seq<bool>): real
    requires plant.eta > 0.0 && FullyPriced(definition) && |calendar| == |points|
  {
    VariableCost(plant, SelfUse, UnderCalendar(points, definition, calendar))
  }

  ghost predicate ValidHdoSeries(points: seq<HdoPoint>) {
    forall i :: 0 <= i < |points| ==> ValidPoint(points[i].point)
  }

  predicate Bracketed(plant: Plant, points: seq<HdoPoint>, definition: Definition, calendar: seq<bool>)
    requires plant.eta > 0.0 && FullyPriced(definition) && |calendar| == |points|
  {
    CalendarCost(plant, points, definition, Always(|points|, true))
    <= CalendarCost(plant, points, definition, calendar)
    <= CalendarCost(plant, points, definition, Always(|points|, false))
  }

  lemma CostStep(imported: real, exported: real, buyLow: real, buyHigh: real, sellLow: real, sellHigh: real)
    requires imported >= 0.0 && exported >= 0.0 && buyLow <= buyHigh && sellLow <= sellHigh
    ensures imported * buyLow - exported * sellHigh <= imported * buyHigh - exported * sellLow
  {
    MulMonotone(buyLow, buyHigh, imported);
    MulMonotone(sellLow, sellHigh, exported);
  }

  /** Dearer purchases and poorer sales cannot make the same SELF_USE run cheaper. */
  lemma {:induction false} DearerPricesCostMore(store: Store, cheap: seq<Slot>, dear: seq<Slot>, n: nat)
    requires store.Valid() && ValidSlots(cheap) && |dear| == |cheap| && n <= |cheap|
    requires forall i :: 0 <= i < |cheap| ==>
      SameEnergy(cheap[i], dear[i]) && cheap[i].buy <= dear[i].buy && dear[i].sell <= cheap[i].sell
    ensures var plans := SelfUsePlans(|cheap|);
      ImportCostAfter(store, cheap, plans, n) - ExportRevenueAfter(store, cheap, plans, n)
      <= ImportCostAfter(store, dear, plans, n) - ExportRevenueAfter(store, dear, plans, n)
  {
    hide Step, FlowAt, Slot.Valid;
    if n > 0 {
      DearerPricesCostMore(store, cheap, dear, n - 1);
      SelfUseIgnoresPrices(store, cheap, dear, n - 1);
      var f := FlowAt(store, cheap, SelfUsePlans(|cheap|), n - 1);
      FlowIsPhysical(store, cheap, SelfUsePlans(|cheap|), n - 1);
      CostStep(f.imported, f.exported, cheap[n - 1].buy, dear[n - 1].buy, dear[n - 1].sell, cheap[n - 1].sell);
    }
  }

  lemma DearerCalendar(plant: Plant, points: seq<HdoPoint>, definition: Definition, cheap: seq<bool>, dear: seq<bool>)
    requires plant.Valid() && ValidHdoSeries(points) && FullyPriced(definition) && NightIsCheaper(definition)
    requires |cheap| == |dear| == |points|
    requires forall i :: 0 <= i < |points| && dear[i] ==> cheap[i]
    ensures CalendarCost(plant, points, definition, cheap) <= CalendarCost(plant, points, definition, dear)
  {
    hide ImportCostAfter, ExportRevenueAfter;
    var a, b := UnderCalendar(points, definition, cheap), UnderCalendar(points, definition, dear);
    StoreIsValid(plant);
    SlotsAreValid(plant, a);
    assert Plans(plant.eta, SelfUse, a) == SelfUsePlans(|points|) == Plans(plant.eta, SelfUse, b);
    DearerPricesCostMore(StoreOf(plant), Slots(plant, a), Slots(plant, b), |points|);
  }

  /** THE BRACKET. When NT is the cheaper tariff, the cost of every calendar lies
      between all-NT and all-VT, before and after rounding to the haler. */
  lemma ExtremesBracketEveryCalendar(plant: Plant, points: seq<HdoPoint>, definition: Definition, calendar: seq<bool>)
    requires plant.Valid() && ValidHdoSeries(points) && FullyPriced(definition) && |calendar| == |points|
    requires NightIsCheaper(definition)
    ensures Bracketed(plant, points, definition, calendar)
    ensures Round(CalendarCost(plant, points, definition, Always(|points|, true)), HALER)
      <= Round(CalendarCost(plant, points, definition, calendar), HALER)
      <= Round(CalendarCost(plant, points, definition, Always(|points|, false)), HALER)
  {
    hide CalendarCost, Round;
    DearerCalendar(plant, points, definition, Always(|points|, true), calendar);
    DearerCalendar(plant, points, definition, calendar, Always(|points|, false));
    RoundMonotone(CalendarCost(plant, points, definition, Always(|points|, true)),
                  CalendarCost(plant, points, definition, calendar), HALER);
    RoundMonotone(CalendarCost(plant, points, definition, calendar),
                  CalendarCost(plant, points, definition, Always(|points|, false)), HALER);
  }

  // ---- and only then ----

  const BARE_SITE := Plant(Battery(0.0, 0.0, 0.0, 0.0, 100.0, 100.0), Grid(None, None, true), 1.0)

  /** One hour of a site without a battery costs what it buys less what it sells. */
  lemma BareHourCost(point: Point)
    requires ValidPoint(point)
    ensures BARE_SITE.Valid()
    ensures VariableCost(BARE_SITE, SelfUse, [point])
      == Deficit(point) * point.totalBuyCzkKwh - Surplus(point) * point.totalSellCzkKwh
  {
    var store, slots, plans := StoreOf(BARE_SITE), Slots(BARE_SITE, [point]), Plans(1.0, SelfUse, [point]);
    var f := FlowAt(store, slots, plans, 0);
    assert f.imported == Deficit(point) && f.exported == Surplus(point);
    assert ImportCostAfter(store, slots, plans, 0) == 0.0 && ExportRevenueAfter(store, slots, plans, 0) == 0.0;
    assert ImportCostAfter(store, slots, plans, 1) == ImportCost(slots[0], f);
    assert ExportRevenueAfter(store, slots, plans, 1) == ExportRevenue(slots[0], f);
  }

  const BUYING_HOUR := HdoPoint(Point(0, HOUR_MS, 0.0, 1.0, 0.0, 0.0), 0.0, 0.0, 0.0)
  const SELLING_HOUR := HdoPoint(Point(0, HOUR_MS, 1.0, 0.0, 0.0, 0.0), 0.0, 0.0, 0.0)

  /** What one hour of the bare site costs under a tariff. */
  lemma HourCost(p: HdoPoint, definition: Definition, lowTariff: bool)
    requires FullyPriced(definition) && ValidPoint(p.point)
    ensures BARE_SITE.Valid()
    ensures var q := Reprice(p, definition, lowTariff).value;
      CalendarCost(BARE_SITE, [p], definition, [lowTariff])
      == Deficit(p.point) * q.totalBuyCzkKwh - Surplus(p.point) * q.totalSellCzkKwh
  {
    hide VariableCost;
    var q := Reprice(p, definition, lowTariff).value;
    BareHourCost(q);
    assert UnderCalendar([p], definition, [lowTariff]) == [q];
  }

  lemma DearNightHour(p: HdoPoint, definition: Definition)
    requires FullyPriced(definition) && ValidPoint(p.point)
    requires var nt, vt := Reprice(p, definition, true).value, Reprice(p, definition, false).value;
      Deficit(p.point) * nt.totalBuyCzkKwh - Surplus(p.point) * nt.totalSellCzkKwh
      > Deficit(p.point) * vt.totalBuyCzkKwh - Surplus(p.point) * vt.totalSellCzkKwh
    ensures BARE_SITE.Valid()
    ensures ValidHdoSeries([p]) && !Bracketed(BARE_SITE, [p], definition, [true])
  {
    HourCost(p, definition, true);
    HourCost(p, definition, false);
    hide CalendarCost, Reprice, Deficit, Surplus;
    assert Always(1, true) == [true] && Always(1, false) == [false];
  }

  /** If NT is not the cheaper tariff the extremes fail to bracket even a single hour
      of a bare site: the all-NT cost is above the all-VT cost. */
  lemma DearNightBreaksTheBracket(definition: Definition)
    requires FullyPriced(definition) && !NightIsCheaper(definition)
    ensures BARE_SITE.Valid()
    ensures exists p :: ValidHdoSeries([p]) && !Bracketed(BARE_SITE, [p], definition, [true])
  {
    var p := if NightStep(definition.sell) < 0.0 then SELLING_HOUR else BUYING_HOUR;
    NightCostsMore(definition);
    hide Bracketed, NightIsCheaper, NightStep, Reprice, Deficit, Surplus;
    DearNightHour(p, definition);
  }

  lemma NightCostsMore(definition: Definition)
    requires FullyPriced(definition) && !NightIsCheaper(definition)
    ensures var p := if NightStep(definition.sell) < 0.0 then SELLING_HOUR else BUYING_HOUR;
      var nt, vt := Reprice(p, definition, true).value, Reprice(p, definition, false).value;
      Deficit(p.point) * nt.totalBuyCzkKwh - Surplus(p.point) * nt.totalSellCzkKwh
      > Deficit(p.point) * vt.totalBuyCzkKwh - Surplus(p.point) * vt.totalSellCzkKwh
  {
    assert Deficit(BUYING_HOUR.point) == 1.0 && Surplus(BUYING_HOUR.point) == 0.0;
    assert Deficit(SELLING_HOUR.point) == 0.0 && Surplus(SELLING_HOUR.point) == 1.0;
    hide Deficit, Surplus;
  }

  ghost predicate BracketsEverything(definition: Definition)
    requires FullyPriced(definition)
  {
    forall plant: Plant, points, calendar ::
      plant.Valid() && ValidHdoSeries(points) && |calendar| == |points|
      ==> Bracketed(plant, points, definition, calendar)
  }

  /** The extremes bracket every run of every calendar if and only if NT is the
      cheaper tariff. */
  lemma BracketHoldsExactlyWhenNightIsCheaper(definition: Definition)
    requires FullyPriced(definition)
    ensures BracketsEverything(definition) <==> NightIsCheaper(definition)
  {
    hide Bracketed, NightIsCheaper;
    if NightIsCheaper(definition) {
      forall plant: Plant, points, calendar |
        plant.Valid() && ValidHdoSeries(points) && |calendar| == |points|
        ensures Bracketed(plant, points, definition, calendar)
      {
        ExtremesBracketEveryCalendar(plant, points, definition, calendar);
      }
    } else {
      DearNightBreaksTheBracket(definition);
    }
  }

  /** A modelled curve sells at one price, so for it the condition is about buying alone. */
  lemma ModeledCurveBrackets(value: Option<map<string, Json>>)
    requires ModeledHdoDefinition(value).Some?
    ensures var d := ModeledHdoDefinition(value).value;
      && FullyPriced(d)
      && (BracketsEverything(d) <==>
          d.buy.ntCzkKwh.value + d.distributionNtCzkKwh <= d.buy.vtCzkKwh.value + d.distributionVtCzkKwh)
  {
    BracketHoldsExactlyWhenNightIsCheaper(ModeledHdoDefinition(value).value);
  }
}
