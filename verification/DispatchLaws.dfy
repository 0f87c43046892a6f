/** What every interval and every run of the dispatch keeps, for both strategies. */
module DispatchLaws {
  import opened Basics
  import opened DispatchModel

  // ---- arithmetic of the one-way efficiency ----

  lemma IntoNonNegative(eta: real, energy: real)
    requires eta > 0.0 && energy >= 0.0
    ensures Into(eta, energy) >= 0.0
  {
  }

  lemma OutOfNonNegative(eta: real, energy: real)
    requires eta > 0.0 && energy >= 0.0
    ensures OutOf(eta, energy) >= 0.0
  {
  }

  lemma IntoBound(eta: real, energy: real, room: real)
    requires eta > 0.0 && energy <= OutOf(eta, room)
    ensures Into(eta, energy) <= room
  {
    DivBound(energy, room, eta);
  }

  lemma OutOfBound(eta: real, energy: real, room: real)
    requires eta > 0.0 && energy <= Into(eta, room)
    ensures OutOf(eta, energy) <= room
  {
    DivMonotone(energy, room * eta, eta);
    TimesDiv(room, eta);
  }

  // ---- one interval ----

  predicate SocInRange(store: Store, soc: real) {
    store.minSoc <= soc <= store.maxSoc
  }

  /** Storing never overfills the battery. */
  lemma StoredBounds(store: Store, slot: Slot, soc: real)
    requires store.Valid() && slot.Valid() && SocInRange(store, soc)
    ensures var stored := StoredFromSun(store, slot, soc);
      && 0.0 <= stored <= slot.surplus
      && stored <= slot.chargePower
      && 0.0 <= Into(store.eta, stored) <= store.maxSoc - soc
  {
    hide Into, OutOf;
    var stored := StoredFromSun(store, slot, soc);
    OutOfNonNegative(store.eta, store.maxSoc - soc);
    IntoNonNegative(store.eta, stored);
    OutOfNonNegative(store.eta, 0.0);
    IntoBound(store.eta, stored, store.maxSoc - soc);
  }

  lemma GridChargeBounds(store: Store, slot: Slot, plan: Plan, soc: real)
    requires store.Valid() && slot.Valid() && SocInRange(store, soc)
    ensures var charged := ChargedFromGrid(store, slot, plan, soc);
      && 0.0 <= charged <= slot.chargePower
      && 0.0 <= Into(store.eta, charged) <= store.maxSoc - soc
      && (!plan.arbitrage || slot.deficit > 0.0 ==> charged == 0.0)
  {
    hide Into, OutOf;
    var charged := ChargedFromGrid(store, slot, plan, soc);
    OutOfNonNegative(store.eta, store.maxSoc - soc);
    IntoNonNegative(store.eta, charged);
    IntoBound(store.eta, charged, store.maxSoc - soc);
  }

  lemma DeliveredBounds(store: Store, slot: Slot, plan: Plan, demand: real, soc: real)
    requires store.Valid() && slot.Valid() && SocInRange(store, soc) && demand >= 0.0
    ensures var delivered := Delivered(store, slot, plan, demand, soc);
      && 0.0 <= delivered <= demand
      && delivered <= slot.dischargePower
      && 0.0 <= OutOf(store.eta, delivered) <= soc - store.minSoc
  {
    hide Into, OutOf;
    var delivered := Delivered(store, slot, plan, demand, soc);
    IntoNonNegative(store.eta, soc - store.minSoc);
    OutOfNonNegative(store.eta, delivered);
    OutOfBound(store.eta, delivered, soc - store.minSoc);
  }

  /** Every flow respects the physical limits of its interval. */
  predicate WithinLimits(store: Store, slot: Slot, f: Flow) {
    && 0.0 <= f.stored <= slot.surplus && f.stored <= slot.chargePower
    && 0.0 <= f.gridCharged <= slot.chargePower
    && 0.0 <= f.delivered <= slot.dischargePower
    && 0.0 <= f.imported && 0.0 <= f.unserved && 0.0 <= f.exported && 0.0 <= f.curtailed
    && (slot.importLimit.Some? ==> f.imported <= slot.importLimit.value)
    && (slot.exportLimit.Some? ==> f.exported <= slot.exportLimit.value)
    && SocInRange(store, f.soc)
  }

  /** No energy appears or disappears in the interval. */
  predicate Balanced(slot: Slot, f: Flow) {
    && slot.surplus == f.exported + f.curtailed + f.stored
    && slot.deficit + f.gridCharged == f.imported + f.unserved + f.delivered
  }

  lemma StepIsPhysical(store: Store, slot: Slot, plan: Plan, soc: real)
    requires store.Valid() && slot.Valid() && SocInRange(store, soc)
    ensures var f := Step(store, slot, plan, soc);
      WithinLimits(store, slot, f) && Balanced(slot, f)
  {
    hide Into, OutOf, StoredFromSun, ChargedFromGrid, Delivered;
    var stored := StoredFromSun(store, slot, soc);
    StoredBounds(store, slot, soc);
    var charged := ChargedFromGrid(store, slot, plan, soc + Into(store.eta, stored));
    GridChargeBounds(store, slot, plan, soc + Into(store.eta, stored));
    DeliveredBounds(store, slot, plan, slot.deficit + charged, soc);
  }

  /** No limit is left unused: energy goes unserved or is curtailed only at a full grid
      connection, and a SELF_USE battery lets the grid bring or take energy only when it
      runs at its rated power or stands at its own limit. */
  lemma EveryLimitIsUsed(store: Store, slot: Slot, plan: Plan, soc: real)
    requires store.Valid() && slot.Valid() && SocInRange(store, soc)
    ensures var f := Step(store, slot, plan, soc);
      && (f.unserved > 0.0 ==> slot.importLimit == Some(f.imported))
      && (f.curtailed > 0.0 ==> slot.exportLimit == Some(f.exported))
      && (plan == SELF_USE && f.exported + f.curtailed > 0.0 ==>
            f.stored == slot.chargePower || f.soc == store.maxSoc)
      && (plan == SELF_USE && f.imported + f.unserved > 0.0 ==>
            f.delivered == slot.dischargePower || f.soc == store.minSoc)
  {
    hide Into, OutOf;
    StepIsPhysical(store, slot, plan, soc);
    NothingMoved(store.eta);
    ThereAndBack(store.eta, store.maxSoc - soc);
    ThereAndBack(store.eta, soc - store.minSoc);
  }

  lemma ThereAndBack(eta: real, x: real)
    requires eta > 0.0
    ensures OutOf(eta, Into(eta, x)) == x && Into(eta, OutOf(eta, x)) == x
  {
    TimesDiv(x, eta);
    DivTimes(x, eta);
  }

  lemma StepChargesSoc(store: Store, slot: Slot, plan: Plan, soc: real)
    requires store.Valid()
    ensures var f := Step(store, slot, plan, soc);
      f.soc == soc + Into(store.eta, f.stored) + Into(store.eta, f.gridCharged) - OutOf(store.eta, f.delivered)
  {
  }

  // ---- every run ----

  lemma {:induction false} SocStaysInRange(store: Store, slots: seq<Slot>, plans: seq<Plan>, n: nat)
    requires store.Valid() && ValidSlots(slots) && |plans| == |slots| && n <= |slots|
    ensures SocInRange(store, SocBefore(store, slots, plans, n))
  {
    hide Step;
    if n > 0 {
      SocStaysInRange(store, slots, plans, n - 1);
      StepIsPhysical(store, slots[n - 1], plans[n - 1], SocBefore(store, slots, plans, n - 1));
    }
  }

  lemma FlowIsPhysical(store: Store, slots: seq<Slot>, plans: seq<Plan>, index: nat)
    requires store.Valid() && ValidSlots(slots) && |plans| == |slots| && index < |slots|
    ensures var f := FlowAt(store, slots, plans, index);
      WithinLimits(store, slots[index], f) && Balanced(slots[index], f)
  {
    hide Step;
    SocStaysInRange(store, slots, plans, index);
    StepIsPhysical(store, slots[index], plans[index], SocBefore(store, slots, plans, index));
  }

  function SumSurplus(slots: seq<Slot>, n: nat): real
    requires n <= |slots|
  {
    if n == 0 then 0.0 else SumSurplus(slots, n - 1) + slots[n - 1].surplus
  }

  function SumDeficit(slots: seq<Slot>, n: nat): real
    requires n <= |slots|
  {
    if n == 0 then 0.0 else SumDeficit(slots, n - 1) + slots[n - 1].deficit
  }

  /** The energy side of a run: all that came in went somewhere. */
  lemma {:induction false} RunBalances(store: Store, slots: seq<Slot>, plans: seq<Plan>, n: nat)
    requires store.Valid() && ValidSlots(slots) && |plans| == |slots| && n <= |slots|
    ensures var t := EnergyAfter(store, slots, plans, n);
      && SumSurplus(slots, n) + t.importKwh + t.unservedKwh + t.dischargedKwh
         == SumDeficit(slots, n) + t.exportKwh + t.chargedKwh + t.curtailedKwh
      && t.importKwh >= 0.0 && t.exportKwh >= 0.0 && t.chargedKwh >= 0.0 && t.dischargedKwh >= 0.0
      && t.curtailedKwh >= 0.0 && t.unservedKwh >= 0.0
  {
    hide Step;
    if n > 0 {
      RunBalances(store, slots, plans, n - 1);
      FlowIsPhysical(store, slots, plans, n - 1);
      hide FlowAt;
    }
  }

  lemma ChargeStep(eta: real, minSoc: real, charged: real, discharged: real, f: Flow, before: real)
    requires eta > 0.0
    requires before == minSoc + Into(eta, charged) - OutOf(eta, discharged)
    ensures before + Into(eta, f.stored) + Into(eta, f.gridCharged) - OutOf(eta, f.delivered)
      == minSoc + Into(eta, charged + (f.stored + f.gridCharged)) - OutOf(eta, discharged + f.delivered)
  {
  }

  /** The battery side of a run: the state of charge is the efficiency-weighted
      difference of the two battery totals. */
  lemma {:induction false} RunStateOfCharge(store: Store, slots: seq<Slot>, plans: seq<Plan>, n: nat)
    requires store.Valid() && ValidSlots(slots) && |plans| == |slots| && n <= |slots|
    ensures var t := EnergyAfter(store, slots, plans, n);
      SocBefore(store, slots, plans, n)
      == store.minSoc + Into(store.eta, t.chargedKwh) - OutOf(store.eta, t.dischargedKwh)
  {
    hide Step, Into, OutOf;
    if n == 0 {
      NothingMoved(store.eta);
    } else {
      RunStateOfCharge(store, slots, plans, n - 1);
      var t := EnergyAfter(store, slots, plans, n - 1);
      StepChargesSoc(store, slots[n - 1], plans[n - 1], SocBefore(store, slots, plans, n - 1));
      ChargeStep(store.eta, store.minSoc, t.chargedKwh, t.dischargedKwh, FlowAt(store, slots, plans, n - 1),
                 SocBefore(store, slots, plans, n - 1));
    }
  }

  lemma NothingMoved(eta: real)
    requires eta > 0.0
    ensures Into(eta, 0.0) == 0.0 && OutOf(eta, 0.0) == 0.0
  {
  }

  lemma RoundTripShare(eta: real, charged: real, discharged: real)
    requires eta > 0.0 && OutOf(eta, discharged) <= Into(eta, charged)
    ensures discharged <= eta * eta * charged
  {
    MulMonotone(discharged / eta, charged * eta, eta);
    assert charged * eta * eta == eta * eta * charged;
  }

  /** A discharged kilowatt-hour was charged before: a run never takes more out of
      the battery than the round-trip share of what it put in. */
  lemma DischargeIsCovered(store: Store, slots: seq<Slot>, plans: seq<Plan>, n: nat)
    requires store.Valid() && ValidSlots(slots) && |plans| == |slots| && n <= |slots|
    ensures var t := EnergyAfter(store, slots, plans, n);
      t.dischargedKwh <= store.eta * store.eta * t.chargedKwh
  {
    hide Step, FlowAt, SocBefore, EnergyAfter, Into, OutOf;
    RunStateOfCharge(store, slots, plans, n);
    SocStaysInRange(store, slots, plans, n);
    var t := EnergyAfter(store, slots, plans, n);
    RoundTripShare(store.eta, t.chargedKwh, t.dischargedKwh);
  }

  lemma PowerNonNegative(slot: Slot, f: Flow)
    requires slot.hours > 0.0 && f.imported >= 0.0
    ensures PowerKw(slot, f) >= 0.0
  {
    DivNonNegative(f.imported, slot.hours);
  }

  /** The peak bounds the power of every interval, and unless it is zero some
      interval reaches it. */
  lemma {:induction false} PeakIsReached(store: Store, slots: seq<Slot>, plans: seq<Plan>, n: nat)
    requires store.Valid() && ValidSlots(slots) && |plans| == |slots| && n <= |slots|
    ensures var peak := PeakAfter(store, slots, plans, n);
      && peak >= 0.0
      && (forall i :: 0 <= i < n ==> PowerKw(slots[i], FlowAt(store, slots, plans, i)) <= peak)
      && (peak == 0.0 || exists i :: 0 <= i < n && PowerKw(slots[i], FlowAt(store, slots, plans, i)) == peak)
  {
    hide Step, FlowAt, PowerKw;
    if n > 0 {
      PeakIsReached(store, slots, plans, n - 1);
      FlowIsPhysical(store, slots, plans, n - 1);
      PowerNonNegative(slots[n - 1], FlowAt(store, slots, plans, n - 1));
    }
  }

  // ---- the first intervals of a run ----

  lemma FirstFlow(plant: Plant, strategy: Strategy, points: seq<Point>)
    requires plant.eta > 0.0 && points != []
    ensures FlowAt(StoreOf(plant), Slots(plant, points), Plans(plant.eta, strategy, points), 0)
      == Step(StoreOf(plant), SlotOf(plant, points[0]), PlanFor(plant.eta, strategy, points, 0), StoreOf(plant).minSoc)
  {
    hide Step, PlanFor, SlotOf;
  }

  lemma SecondFlow(plant: Plant, strategy: Strategy, points: seq<Point>)
    requires plant.eta > 0.0 && |points| > 1
    ensures var store, slots, plans := StoreOf(plant), Slots(plant, points), Plans(plant.eta, strategy, points);
      FlowAt(store, slots, plans, 1)
      == Step(store, SlotOf(plant, points[1]), PlanFor(plant.eta, strategy, points, 1),
              FlowAt(store, slots, plans, 0).soc)
  {
    hide Step, PlanFor, SlotOf;
  }
}
