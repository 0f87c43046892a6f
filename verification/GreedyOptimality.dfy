/** SELF_USE takes as little from the grid as any schedule of the same battery can,
    at every moment of the series. */
module GreedyOptimality {
  import opened Basics
  import opened DispatchModel
  import opened DispatchLaws

  /** What some other controller does with the battery in one interval: charge from
      the solar surplus, charge from the grid, discharge, and the energy the grid
      has to bring (imported or left unserved). */
  datatype Action = Action(fromSun: real, fromGrid: real, discharged: real, need: real)

  predicate Feasible(slot: Slot, a: Action) {
    && 0.0 <= a.fromSun <= slot.surplus && a.fromSun <= slot.chargePower
    && 0.0 <= a.fromGrid
    && 0.0 <= a.discharged <= slot.dischargePower
    && 0.0 <= a.need
    && slot.deficit + a.fromGrid - a.discharged <= a.need
  }

  function Charge(store: Store, a: Action, soc: real): real
    requires store.eta > 0.0
  {
    soc + Into(store.eta, a.fromSun) + Into(store.eta, a.fromGrid) - OutOf(store.eta, a.discharged)
  }

  function ScheduleSoc(store: Store, schedule: seq<Action>, n: nat): real
    requires store.eta > 0.0 && n <= |schedule|
  {
    if n == 0 then store.minSoc else Charge(store, schedule[n - 1], ScheduleSoc(store, schedule, n - 1))
  }

  function ScheduleNeed(schedule: seq<Action>, n: nat): real
    requires n <= |schedule|
  {
    if n == 0 then 0.0 else ScheduleNeed(schedule, n - 1) + schedule[n - 1].need
  }

  /** Any way to run the same battery from the same start. Charging from the sun
      obeys the power limit; charging from the grid may exceed it, which makes the
      comparison harder for SELF_USE. */
  ghost predicate FeasibleSchedule(store: Store, slots: seq<Slot>, schedule: seq<Action>) {
    && store.eta > 0.0
    && |schedule| == |slots|
    && (forall i :: 0 <= i < |slots| ==> Feasible(slots[i], schedule[i]))
    && (forall n :: 0 <= n <= |slots| ==> SocInRange(store, ScheduleSoc(store, schedule, n)))
  }

  function SelfUsePlans(n: nat): (plans: seq<Plan>)
    ensures |plans| == n
  {
    seq(n, i => SELF_USE)
  }

  // ---- arithmetic of one comparison step ----

  /** Through the battery and back: what of `energy` charged can be discharged again. */
  function RoundTrip(eta: real, energy: real): real {
    Into(eta, Into(eta, energy))
  }

  lemma RoundTripLoses(eta: real, energy: real, bound: real)
    requires 0.0 < eta && eta * eta <= 1.0 && energy <= bound && 0.0 <= bound
    ensures RoundTrip(eta, energy) <= bound
  {
    assert RoundTrip(eta, energy) == energy * (eta * eta);
    MulNonNegative(eta, eta);
    MulMonotone(energy, bound, eta * eta);
    MulMonotone(eta * eta, 1.0, bound);
  }

  lemma GapAfter(eta: real, gap: real, fs: real, fg: real, d: real, s: real, g: real)
    requires eta > 0.0
    ensures Into(eta, gap + Into(eta, fs) + Into(eta, fg) - OutOf(eta, d) - Into(eta, s) + OutOf(eta, g))
      == Into(eta, gap) + RoundTrip(eta, fs + fg - s) - d + g
  {
    DivTimes(d, eta);
    DivTimes(g, eta);
    var a, b := fs * eta + fg * eta - s * eta, g / eta - d / eta;
    assert (gap + a + b) * eta == gap * eta + a * eta + b * eta;
    assert a == (fs + fg - s) * eta;
  }

  lemma IntoSign(eta: real, x: real)
    requires eta > 0.0
    ensures x <= 0.0 ==> Into(eta, x) <= 0.0
    ensures x >= 0.0 ==> Into(eta, x) >= 0.0
  {
  }

  function GridNeed(f: Flow): real {
    f.imported + f.unserved
  }

  /** One step of the potential argument: `lead` is what the other schedule has
      needed so far beyond SELF_USE, and it always pays for the charge the other
      schedule is ahead by. */
  lemma GreedyStep(store: Store, slot: Slot, a: Action, other: real, greedy: real, lead: real)
    requires store.Valid() && slot.Valid() && Feasible(slot, a)
    requires SocInRange(store, other) && SocInRange(store, greedy) && SocInRange(store, Charge(store, a, other))
    requires lead >= 0.0 && lead >= Into(store.eta, other - greedy)
    ensures var f := Step(store, slot, SELF_USE, greedy);
      && lead + a.need - GridNeed(f) >= 0.0
      && lead + a.need - GridNeed(f) >= Into(store.eta, Charge(store, a, other) - f.soc)
  {
    hide Into, OutOf, RoundTrip;
    var eta := store.eta;
    var f := Step(store, slot, SELF_USE, greedy);
    StepIsPhysical(store, slot, SELF_USE, greedy);
    NothingMoved(eta);
    var gap := Charge(store, a, other) - f.soc;
    GapAfter(eta, other - greedy, a.fromSun, a.fromGrid, a.discharged, f.stored, f.delivered);
    assert f.soc == greedy + Into(eta, f.stored) - OutOf(eta, f.delivered);
    ThereAndBack(eta, greedy - store.minSoc);
    ThereAndBack(eta, store.maxSoc - greedy);
    IntoSign(eta, gap);
    if a.fromSun <= f.stored {
      RoundTripLoses(eta, a.fromSun + a.fromGrid - f.stored, a.fromGrid);
    }
  }

  /** The potential, carried through a run: SELF_USE has needed less so far by at least what
      the other schedule's fuller battery could still deliver. */
  lemma {:induction false} SelfUseLeads(store: Store, slots: seq<Slot>, schedule: seq<Action>, n: nat)
    requires store.Valid() && ValidSlots(slots) && FeasibleSchedule(store, slots, schedule) && n <= |slots|
    ensures var lead := ScheduleNeed(schedule, n) - SelfUseNeed(store, slots, n);
      && lead >= 0.0
      && lead >= Into(store.eta, ScheduleSoc(store, schedule, n) - SocBefore(store, slots, SelfUsePlans(|slots|), n))
  {
    hide Into, OutOf, Step;
    var plans := SelfUsePlans(|slots|);
    if n == 0 {
      NothingMoved(store.eta);
    } else {
      SelfUseLeads(store, slots, schedule, n - 1);
      var other, greedy := ScheduleSoc(store, schedule, n - 1), SocBefore(store, slots, plans, n - 1);
      SocStaysInRange(store, slots, plans, n - 1);
      assert SocInRange(store, ScheduleSoc(store, schedule, n));
      GreedyStep(store, slots[n - 1], schedule[n - 1], other, greedy,
                 ScheduleNeed(schedule, n - 1) - SelfUseNeed(store, slots, n - 1));
    }
  }

  /** What the grid had to bring in the first `n` intervals of a SELF_USE run. */
  function SelfUseNeed(store: Store, slots: seq<Slot>, n: nat): real
    requires store.eta > 0.0 && n <= |slots|
  {
    NeedOf(EnergyAfter(store, slots, SelfUsePlans(|slots|), n))
  }

  function NeedOf(t: Energy): real {
    t.importKwh + t.unservedKwh
  }

  /** GREEDY OPTIMALITY. Against every feasible schedule, at every prefix of the series,
      SELF_USE has needed no more energy from the grid. */
  lemma SelfUseNeedsLeast(store: Store, slots: seq<Slot>, schedule: seq<Action>, n: nat)
    requires store.Valid() && ValidSlots(slots) && FeasibleSchedule(store, slots, schedule) && n <= |slots|
    ensures SelfUseNeed(store, slots, n) <= ScheduleNeed(schedule, n)
  {
    hide SelfUseNeed, FeasibleSchedule;
    SelfUseLeads(store, slots, schedule, n);
  }

  // ---- who the theorem applies to ----

  function ActionOf(f: Flow): Action {
    Action(f.stored, f.gridCharged, f.delivered, GridNeed(f))
  }

  function ActionsOf(store: Store, slots: seq<Slot>, plans: seq<Plan>): (actions: seq<Action>)
    requires Runnable(store, slots, plans)
    ensures |actions| == |slots|
  {
    seq(|slots|, i requires 0 <= i < |slots| => ActionOf(FlowAt(store, slots, plans, i)))
  }

  lemma {:induction false} RunIsSchedule(store: Store, slots: seq<Slot>, plans: seq<Plan>, n: nat)
    requires store.Valid() && ValidSlots(slots) && |plans| == |slots| && n <= |slots|
    ensures var actions := ActionsOf(store, slots, plans);
      && ScheduleSoc(store, actions, n) == SocBefore(store, slots, plans, n)
      && ScheduleNeed(actions, n) == NeedOf(EnergyAfter(store, slots, plans, n))
  {
    hide Into, OutOf, Step;
    if n > 0 {
      RunIsSchedule(store, slots, plans, n - 1);
      var actions, before := ActionsOf(store, slots, plans), SocBefore(store, slots, plans, n - 1);
      var f := FlowAt(store, slots, plans, n - 1);
      StepChargesSoc(store, slots[n - 1], plans[n - 1], before);
      assert actions[n - 1] == ActionOf(f);
      assert SocBefore(store, slots, plans, n) == f.soc;
      assert EnergyAfter(store, slots, plans, n) == AddFlow(EnergyAfter(store, slots, plans, n - 1), f);
      hide ActionsOf, Runnable, FlowAt, EnergyAfter, SocBefore;
    }
  }

  lemma RunIsFeasible(store: Store, slots: seq<Slot>, plans: seq<Plan>)
    requires store.Valid() && ValidSlots(slots) && |plans| == |slots|
    ensures FeasibleSchedule(store, slots, ActionsOf(store, slots, plans))
  {
    hide Into, OutOf, Step, FlowAt, SocBefore, ScheduleSoc;
    var actions := ActionsOf(store, slots, plans);
    forall i | 0 <= i < |slots| ensures Feasible(slots[i], actions[i]) {
      FlowIsPhysical(store, slots, plans, i);
    }
    forall n | 0 <= n <= |slots| ensures SocInRange(store, ScheduleSoc(store, actions, n)) {
      RunIsSchedule(store, slots, plans, n);
      SocStaysInRange(store, slots, plans, n);
    }
  }

  /** No dispatch of this engine, whatever its plans, takes less from the grid than
      SELF_USE at any moment; what SMART saves it saves in money only. */
  lemma EveryRunNeedsAtLeastSelfUse(store: Store, slots: seq<Slot>, plans: seq<Plan>, n: nat)
    requires store.Valid() && ValidSlots(slots) && |plans| == |slots| && n <= |slots|
    ensures SelfUseNeed(store, slots, n) <= NeedOf(EnergyAfter(store, slots, plans, n))
  {
    hide Into, OutOf, Step, FlowAt, SocBefore, ScheduleSoc, EnergyAfter, ScheduleNeed;
    RunIsFeasible(store, slots, plans);
    RunIsSchedule(store, slots, plans, n);
    SelfUseNeedsLeast(store, slots, ActionsOf(store, slots, plans), n);
  }

  /** A controller described only by its total charge: it is feasible in the sense
      above as soon as it obeys the power limits and the energy balance, wherever
      the charge came from. */
  lemma AnyChargingIsCovered(slot: Slot, charged: real, discharged: real, need: real)
    requires slot.Valid()
    requires 0.0 <= charged <= slot.chargePower && 0.0 <= discharged <= slot.dischargePower
    requires 0.0 <= need && slot.deficit - slot.surplus + charged - discharged <= need
    ensures var fromSun := Min(charged, slot.surplus);
      Feasible(slot, Action(fromSun, charged - fromSun, discharged, need))
  {
  }

  lemma {:induction false} IdleSchedule(store: Store, slots: seq<Slot>, n: nat)
    requires store.Valid() && ValidSlots(slots) && n <= |slots|
    ensures var idle := seq(|slots|, i requires 0 <= i < |slots| => Action(0.0, 0.0, 0.0, slots[i].deficit));
      && ScheduleSoc(store, idle, n) == store.minSoc
      && ScheduleNeed(idle, n) == SumDeficit(slots, n)
  {
    hide Into, OutOf;
    NothingMoved(store.eta);
    if n > 0 {
      IdleSchedule(store, slots, n - 1);
    }
  }

  /** A SELF_USE battery never makes the grid bring more than the bare site needs. */
  lemma SelfUseBeatsNoBattery(store: Store, slots: seq<Slot>, n: nat)
    requires store.Valid() && ValidSlots(slots) && n <= |slots|
    ensures SelfUseNeed(store, slots, n) <= SumDeficit(slots, n)
  {
    hide Into, OutOf, Step, FlowAt, SocBefore, ScheduleSoc, EnergyAfter, ScheduleNeed;
    var idle := seq(|slots|, i requires 0 <= i < |slots| => Action(0.0, 0.0, 0.0, slots[i].deficit));
    forall k | 0 <= k <= |slots| ensures SocInRange(store, ScheduleSoc(store, idle, k)) {
      IdleSchedule(store, slots, k);
    }
    IdleSchedule(store, slots, n);
    SelfUseNeedsLeast(store, slots, idle, n);
  }
}
