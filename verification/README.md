# Spottex energy analysis: a verified model

This project models the calculating core and the two crash-prone work queues of
Spottex in Dafny 4.11 and proves what they promise. `dafny verify dfyconfig.toml`
checks all of it within the default limits.

## The parts

| modules | what they model |
|---|---|
| `Rounding`, `DispatchModel`, `DispatchLaws`, `DispatchRun`, `DispatchTheorems`, `Periods` | the battery dispatch engine: one interval, whole runs, the loop with its accumulators, the published report |
| `PhysicsGate`, `GreedyOptimality`, `SmartStrategy`, `FlatPrices`, `HdoSensitivity` | how well the published figures fit together, what SELF_USE is best at, what SMART_HEURISTIC changes, and the two HDO tariff extremes |
| `EmailOutbox`, `OutboxProtocol`, `OutboxTiming`, `OutboxWithoutLease`, `OutboxSafety`, `OutboxDrain`, `OutboxDelivery` | the e-mail outbox as a class and as a step system of any number of workers with crashes |
| `InvoiceClaims`, `InvoiceProtocol` | the invoice agent: claims, drafts, failures, several agents at once beside uploads, reviews and deletions |
| `LoadProfile`, `SiteSeries`, `Timestamps` | the site load derived by loops, and the SQL query that has to agree with it |
| `CivilDate`, `Holidays`, `Forecast`, `ForecastEvaluation` | the walk-forward forecaster, its holidays and the choice of method |
| `PragueTime`, `EvaluationWindow` | local time across daylight-saving changes, the evaluated period |
| `Investment`, `Csv`, `CurveSelection`, `MarketGrid` | loans and grants, the CSV export, the tariff selection, the price grid |

Code of the repository that updates things step by step is a class or a method here,
proved against a function that says what it computes; the theorems are about those
functions. Energy, money and prices are reals, time is milliseconds since 1970.

## What the proofs say about the code

Main results:

* SELF_USE is optimal: no feasible schedule of the same battery, at any moment, has
  taken less from the grid (`GreedyOptimality.SelfUseNeedsLeast`).
* The ledger of a run closes, in the exact totals (`DispatchTheorems.RunLedger`,
  `DispatchTheorems.RunBatteryLedger`) and in the published figures
  (`PhysicsGate.PublishedPhysics`).
* The outbox bounds its attempts in every run, whatever crashes and throws
  (`OutboxProtocol.AttemptsAreBounded`, `OutboxProtocol.HandedAtMostFiveTimes`), what it mails
  and which rows are final is known exactly (`OutboxProtocol.MarkIsHandedExactly`,
  `OutboxProtocol.TerminalRowStaysExactly`), and every run can be continued until all
  messages are settled (`OutboxDrain.EveryRunDrains`, `OutboxDrain.EveryRunCanBeDrained`).
* The SQL chart query refines the analysis loops (`SiteSeries.FastPathRefinesLoops`).
* The forecaster never looks ahead: its loops compute the statistics of predictions from
  earlier points only (`ForecastEvaluation.EvaluateSignal`,
  `ForecastEvaluation.EvaluateHorizon`, `ForecastEvaluation.NoLookAhead`). Its bounded state
  predicts what the complete history does (`Forecast.ForecastState.Observe`,
  `Forecast.ForecastState.Predict`, `Forecast.WindowedPredictionIsFullMean`).

Places where an expected property does not hold, each with its exact condition and an
input or a run that shows the failure:

* SMART_HEURISTIC can charge with up to twice the rated power: the limit at line 218 of
  `dispatch.ts` does not count what line 210 stored (`SmartStrategy.ChargePowerKeptExactly`,
  `SmartStrategy.DoublePowerIsReached`).
* The comment at lines 244-246 of `dispatch.ts` speaks of an overloaded breaker, but grid
  charging beyond the import limit is also reported as unserved while the battery holds the
  energy (`SmartStrategy.ChargingBeyondTheBreaker`, `SmartStrategy.UnservedWhileCharging`).
* One interval can charge and discharge at once, because the discharge limit of line 192 is
  taken before any charging (`SmartStrategy.ChargesAndDischargesExactly`,
  `SmartStrategy.ChargesWhileDischarging`).
* The HDO extremes bracket the cost of a calendar only if NT is the cheaper tariff
  (`HdoSensitivity.BracketHoldsExactlyWhenNightIsCheaper`,
  `HdoSensitivity.DearNightBreaksTheBracket`).
* Outbox safety needs a single worker or the runner lease that `README.md` (line 110)
  describes and `src/app/api/internal/jobs/run/route.ts` (lines 34-53) takes, and no recording
  that is committed and throws, because the `catch` of line 104 of `email.ts` puts such a row
  back into the queue with its text already redacted (`OutboxSafety.SafeExactly`,
  `OutboxWithoutLease.WithoutLeaseRedactedBodyIsSent`,
  `OutboxSafety.UnconfirmedRecordingMailsTheMark`). For the same reason a sent row is final
  exactly when nobody is about to give it back (`OutboxProtocol.TerminalRowStaysExactly`).
* At a constant price SMART_HEURISTIC still buys if the price is negative enough for the losses
  of the battery to pay (`FlatPrices.FlatPriceCollapsesExactly`,
  `FlatPrices.BuysAheadAtAFlatPrice`).
* A message marked as sent was taken by the mailer more than once, and one marked as failed
  was taken at all, exactly when an acceptance of it was lost, before it was recorded or after
  (`OutboxDelivery.LossesExactly`, `OutboxDelivery.TakenTwiceAfterACrash`,
  `OutboxDelivery.FailedAlthoughTaken`).
* A parser that answers in the superseded schema version leaves its document open
  (`InvoiceClaims.TurnSettlesOneExactly`, `InvoiceProtocol.SupersededAnswerIsTakenAgain`).
* Claims of invoice documents exclude each other until a held claim passes its two hours, or
  an upload or a review sends a held request back (`InvoiceProtocol.RunExcludesExactly`, with
  runs in `InvoiceProtocol.SlowWorkerBreaksExclusion`, `InvoiceProtocol.UploadBreaksExclusion`
  and `InvoiceProtocol.ReviewBreaksExclusion`).
* A draft that comes late reopens a confirmed request
  (`InvoiceProtocol.ConfirmationUndoneExactly`, `InvoiceProtocol.LateDraftReopensConfirmed`).
* The physics gate of the study fails for the published figures of batteries of almost no
  efficiency: exactly those whose bound, a function of the efficiency, exceeds the gate
  (`PhysicsGate.GateHoldsExactly`, `PhysicsGate.GateFailsForLeakyBattery`).
* A local time in the hour skipped in March is converted to an instant that shows the time
  one hour later (`PragueTime.LocalToInstantIsRight`, `PragueTime.SkippedHourShowsOneLater`,
  `PragueTime.SkippedReading`).
* An exported formula and the same text written with an apostrophe look alike
  (`Csv.TextsCollideExactly`, `Csv.CollidingTexts`).
* The comment in `curve-selection.ts` (lines 10-14) speaks of pairs of mode and rate; the
  code, and the model, tell apart two families and the two modes of buying and selling
  (`CurveSelection.GroupKeyIsTheTuple`).

## Model

| member | source | states |
|---|---|---|
| Rounding.RoundNear | src/lib/analysis/dispatch.ts:78-81 | a rounded figure lies within half a unit of its last digit of the epsilon-shifted input |
| Rounding.RoundMonotone | src/lib/analysis/dispatch.ts:78-81 | rounding keeps the order of any two amounts |
| Rounding.DecompositionWithinOneHaler | src/lib/analysis/dispatch.ts:276-278 | rounded variable cost and rounded import cost minus rounded export revenue differ by at most 0.01 CZK, a fifth of the 0.05 CZK that the control audit tolerates (src/lib/admin/control-audit.ts, line 788) |
| DispatchModel.ValidateAcceptsExactly | src/lib/analysis/dispatch.ts:62-76 | the validator lets through exactly the plants and series all other theorems are about |
| DispatchModel.ErrorNamesAFault | src/lib/analysis/dispatch.ts:62-76 | an input is rejected if and only if it has one of the ten faults, and the reported error is a fault it really has |
| DispatchModel.WindowEnd | src/lib/analysis/dispatch.ts:200-201 | the look-ahead ends at the first later interval that starts 34 hours or more after the current one |
| DispatchModel.MaximumBuy | src/lib/analysis/dispatch.ts:203 | the look-ahead price is a price of the window and none in the window is higher |
| DispatchLaws.StoredBounds | src/lib/analysis/dispatch.ts:209-215 | storing solar surplus never exceeds the surplus, the rated power or the room left in the battery |
| DispatchLaws.GridChargeBounds | src/lib/analysis/dispatch.ts:217-227 | grid charging happens only for a SMART plan without a deficit and never overfills the battery |
| DispatchLaws.DeliveredBounds | src/lib/analysis/dispatch.ts:229-239 | discharging never exceeds the demand, the rated power or what the cells hold above the minimum |
| DispatchLaws.StepIsPhysical | src/lib/analysis/dispatch.ts:187-267 | every interval keeps all physical limits and both energy balances (surplus side and demand side), for any plan |
| DispatchLaws.EveryLimitIsUsed | src/lib/analysis/dispatch.ts:209-252 | energy is unserved or curtailed only at a full grid connection; a SELF_USE battery leaves import or export only at rated power or at its own limit |
| DispatchLaws.SocStaysInRange | src/lib/analysis/dispatch.ts:173-267 | after every prefix of every run the state of charge is between its two limits |
| DispatchLaws.FlowIsPhysical | src/lib/analysis/dispatch.ts:186-267 | the same limits and balances hold in every interval a run reaches |
| DispatchLaws.RunBalances | src/lib/analysis/dispatch.ts:247-254 | over any prefix, surplus + import + unserved + discharge equals deficit + export + charge + curtailment, and no total is negative |
| DispatchLaws.RunStateOfCharge | src/lib/analysis/dispatch.ts:209-239 | the state of charge equals the start plus eta times the charged total minus the discharged total over eta |
| DispatchLaws.DischargeIsCovered | src/lib/analysis/dispatch.ts:209-239 | a run never takes more out of the battery than the round-trip share of what it put in |
| DispatchLaws.PeakIsReached | src/lib/analysis/dispatch.ts:255 | the peak bounds the power of every interval and, unless zero, is the power of one of them |
| GreedyOptimality.GreedyStep | src/lib/analysis/dispatch.ts:190-243 | one interval of SELF_USE keeps its lead over any other feasible action, the lead being worth the charge the other battery is ahead by |
| GreedyOptimality.SelfUseNeedsLeast | src/lib/analysis/dispatch.ts:186-250 | against every feasible schedule and at every prefix of the series SELF_USE has needed no more imported plus unserved energy |
| GreedyOptimality.SelfUseLeads | src/lib/analysis/dispatch.ts:186-250 | at every prefix SELF_USE is ahead in grid need by at least what the other schedule's fuller battery could still deliver |
| GreedyOptimality.RunIsFeasible | src/lib/analysis/dispatch.ts:186-250 | every run of this engine, whatever its plans, is one of the schedules the optimality theorem compares with |
| GreedyOptimality.RunIsSchedule | src/lib/analysis/dispatch.ts:186-250 | read as a schedule, a run has the same state of charge and the same grid need as the run itself |
| GreedyOptimality.EveryRunNeedsAtLeastSelfUse | src/lib/analysis/dispatch.ts:186-250 | no plan of any kind lowers the grid need below that of SELF_USE at any moment |
| GreedyOptimality.AnyChargingIsCovered | src/lib/analysis/dispatch.ts:190-243 | a controller known only by its total charge and discharge is feasible as soon as it obeys the power limits and the balance |
| GreedyOptimality.SelfUseBeatsNoBattery | src/lib/analysis/dispatch.ts:186-250 | a SELF_USE battery never raises the grid need above the deficit of the bare site |
| SmartStrategy.ChargePowerKeptExactly | src/lib/analysis/dispatch.ts:209-227 | an interval keeps the rated charge power if and only if sun and grid do not both charge with room to spare; it never exceeds double |
| SmartStrategy.DoublePowerIsReached | src/lib/analysis/dispatch.ts:217-220 | a concrete plant and series in which SMART charges with exactly twice the rated power |
| SmartStrategy.RunChargePower | src/lib/analysis/dispatch.ts:186-227 | in every interval of a run SELF_USE keeps the rated power, and SMART breaks it in exactly the intervals named above |
| SmartStrategy.FlowFromInputs | src/lib/analysis/dispatch.ts:188-239 | what an interval stores, charges and delivers, in terms of its inputs alone: surplus, power limits, room, expected deficit and charge at its start |
| SmartStrategy.ChargesAndDischargesExactly | src/lib/analysis/dispatch.ts:192-239 | one interval both charges and discharges if and only if, without a deficit, SMART asks the grid for energy, does not keep its charge, and the battery held something and may discharge; SELF_USE never does |
| SmartStrategy.ChargingBeyondTheBreaker | src/lib/analysis/dispatch.ts:217-247 | energy is unserved if and only if the deficit, or without one what SMART asks for ahead, exceeds what the battery can give plus the import limit |
| SmartStrategy.RunBatteryAndBreaker | src/lib/analysis/dispatch.ts:186-247 | both conditions at every interval of every run, with the import limit of the plant |
| SmartStrategy.UnservedWhileCharging | src/lib/analysis/dispatch.ts:217-247 | a concrete plant and series: an hour without consumption reports unserved energy that the battery has taken |
| SmartStrategy.ChargesWhileDischarging | src/lib/analysis/dispatch.ts:192-239 | a concrete plant and series in which one interval charges and discharges |
| SmartStrategy.ArbitragePaysExactly | src/lib/analysis/dispatch.ts:206 | a purchase counts as worthwhile if and only if its round-trip return at the dearest coming price exceeds its cost by the margin |
| SmartStrategy.FlatPriceIsQuietExactly | src/lib/analysis/dispatch.ts:207-232 | with no dearer price ahead SMART buys if and only if the price times (1/eta - eta) is below -0.01, and keeps its charge at no other price; non-negative prices and a lossless battery never are |
| SmartStrategy.SmartWaitsForADearerInterval | src/lib/analysis/dispatch.ts:198-232 | with no dearer interval within 34 hours SMART deviates from SELF_USE if and only if the price is not quiet, so at a non-negative price it always waits for a dearer one |
| SmartStrategy.QuietPlansAreSelfUse | src/lib/analysis/dispatch.ts:196-239 | plans that neither buy ahead nor keep charge give the flows of SELF_USE in every interval |
| SmartStrategy.PlansAreQuietExactly | src/lib/analysis/dispatch.ts:198-232 | when prices never rise SMART plans like SELF_USE throughout if and only if all of them are quiet |
| SmartStrategy.SmartCollapsesWhenPricesFall | src/lib/analysis/dispatch.ts:186-267 | with quiet prices that never rise SMART_HEURISTIC moves exactly the energy SELF_USE moves, interval by interval |
| FlatPrices.BuysAheadAtAFlatPrice | src/lib/analysis/dispatch.ts:207-227 | at every price that is not quiet, two hours of a valid battery in which SMART buys ahead and SELF_USE does not |
| FlatPrices.FlatPriceCollapsesExactly | src/lib/analysis/dispatch.ts:198-243 | at a price that never changes both strategies move the same energy, for every battery of an efficiency and every site, if and only if the price is quiet for that efficiency |
| Periods.PeriodAccumulator.constructor | src/lib/analysis/dispatch.ts:92-93 | a new accumulator groups no intervals |
| Periods.PeriodAccumulator.Add | src/lib/analysis/dispatch.ts:144-154 | both maps stay the grouping, by local day and by its month, of all intervals added, the new one included |
| Periods.PeriodAccumulator.Result | src/lib/analysis/dispatch.ts:130-157 | the report has a bucket for exactly the days and months with an interval, and in it the rounded sums and the number of exactly those intervals |
| Periods.DayBucketIsItsIntervals | src/lib/analysis/dispatch.ts:103-154 | a day has a bucket if and only if it has an interval, and the bucket is the total of its intervals |
| Periods.MonthBucketIsItsIntervals | src/lib/analysis/dispatch.ts:103-154 | the same for months |
| Periods.SumAfterAddTo | src/lib/analysis/dispatch.ts:103-129 | adding to one bucket adds exactly those amounts to the sum over all buckets |
| Periods.BucketsSumToTotal | src/lib/analysis/dispatch.ts:103-154 | days and months each hold every interval exactly once: their sums agree in all quantities and in the interval count |
| Periods.DaysSumToMonth | src/lib/analysis/dispatch.ts:103-154 | the days of a month add up to that month in all quantities and in the interval count |
| Periods.PublishedBucketsAreNear | src/lib/analysis/dispatch.ts:130-142 | every published bucket shows the amounts of its own key to half a unit of the last digit, and its exact interval count |
| Periods.PublishedBucketsDecompose | src/lib/analysis/dispatch.ts:126-142 | in every published day and month the variable cost agrees with import cost minus export revenue to the haler |
| DispatchRun.LookAhead | src/lib/analysis/dispatch.ts:200-205 | the inner loop finds the dearest price and the summed deficit of the coming 34 hours |
| DispatchRun.ChoosePlan | src/lib/analysis/dispatch.ts:196-207 | the decision made before energy moves is the plan the theorems speak about |
| DispatchRun.MoveEnergy | src/lib/analysis/dispatch.ts:188-252 | the local updates of one interval, with charge and discharge limits taken where the code takes them, move exactly the flows of the model |
| DispatchRun.WalkIntervals | src/lib/analysis/dispatch.ts:173-267 | the loop, all running totals and both bucket maps equal the model after every interval |
| DispatchRun.Dispatch | src/lib/analysis/dispatch.ts:161-285 | invalid input gives the validator's error, any other input the published report of the modelled run |
| DispatchTheorems.RunLedger | src/lib/analysis/dispatch.ts:170-267 | production + import + unserved + discharge = consumption + export + charge + curtailment, and the state of charge stays in range, for both strategies and every prefix |
| DispatchTheorems.RunBatteryLedger | src/lib/analysis/dispatch.ts:209-239 | the state of charge follows from the charged and discharged totals, and a run gives back no more than the round-trip percentage of what it charged |
| DispatchTheorems.SelfUseIsOptimal | src/lib/analysis/dispatch.ts:186-250 | greedy optimality for the plant and points a caller passes in |
| DispatchTheorems.RunRespectsThePlant | src/lib/analysis/dispatch.ts:190-251 | in every interval discharge and grid charge each stay within rated power, import and export within the breaker limits, and nothing is exported where export is not allowed |
| DispatchTheorems.SmartNeedsAtLeastSelfUse | src/lib/analysis/dispatch.ts:186-250 | at no moment has SMART_HEURISTIC asked less of the grid than SELF_USE |
| DispatchTheorems.SelfUseIgnoresPrices | src/lib/analysis/dispatch.ts:186-267 | SELF_USE moves the same energy under any prices |
| DispatchTheorems.EntriesTotalTheRun | src/lib/analysis/dispatch.ts:259-266 | what the accumulator was told adds up to the running totals |
| DispatchTheorems.PeriodsSumToRun | src/lib/analysis/dispatch.ts:247-266 | daily and monthly buckets each sum to the energies, import cost, export revenue and variable cost of the run, and count every interval |
| DispatchTheorems.ReportShowsTheRun | src/lib/analysis/dispatch.ts:269-285 | every published figure is the figure of its own name in the run to half a unit of its last digit |
| DispatchTheorems.PublishedPeakCovers | src/lib/analysis/dispatch.ts:255 | the published peak is at least the published power of every interval |
| PhysicsGate.BalanceClosesUpToUnserved | scripts/validate-study-smart-annual.ts:72-79 | the balance the study adds up, without unserved energy, is off by the published unserved energy within three millionths of a kWh in every run: it closes within the gate if unserved energy passes its own gate, and only if less than 0.010003 kWh went unserved |
| PhysicsGate.GapBelowBound | scripts/validate-study-smart-annual.ts:76-79 | in every run the published state of charge misses the one that the published battery energies give by less than a bound that depends on the efficiency alone |
| PhysicsGate.GateFailsForLeakyBattery | scripts/validate-study-smart-annual.ts:76-79 | for every efficiency whose bound exceeds the gate, a battery the validator accepts and two hours of which the published state of charge misses the gate |
| PhysicsGate.GateHoldsExactly | scripts/validate-study-smart-annual.ts:76-79 | all runs of all plants with an efficiency pass the gate for the state of charge if and only if the bound of that efficiency is within the gate |
| PhysicsGate.BoundFalls | scripts/validate-study-smart-annual.ts:76-79 | a better efficiency has the smaller bound, so there is one from which on the gate holds |
| PhysicsGate.PublishedPhysics | scripts/validate-study-smart-annual.ts:72-79 | every run of a battery of at least 0.000001 percent round-trip efficiency passes the gate for the state of charge, and the one for the balance unless its unserved energy is refused already |
| DispatchTheorems.PublishedCostDecomposes | src/lib/analysis/dispatch.ts:276-278 | the published costs of any run decompose to the haler |
| DispatchTheorems.SimulateSmartEstimate | src/lib/analysis/dispatch.ts:296-301 | the estimate has the lower of the two published costs and is labelled as a fallback exactly when SMART is dearer |
| HdoSensitivity.ExtremeIsConstantCalendar | src/lib/analysis/hdo-sensitivity.ts:44-69 | an extreme can be computed if and only if its prices are known, and is then the calendar that never switches tariff |
| HdoSensitivity.DearerPricesCostMore | src/lib/analysis/hdo-sensitivity.ts:51-69 | dearer purchases and poorer sales cannot make the same SELF_USE run cheaper |
| HdoSensitivity.ExtremesBracketEveryCalendar | src/lib/analysis/hdo-sensitivity.ts:51-69 | when NT is the cheaper tariff, the cost of every VT/NT calendar lies between all-NT and all-VT, before and after rounding |
| HdoSensitivity.DearNightBreaksTheBracket | src/lib/analysis/hdo-sensitivity.ts:51-69 | when NT is not the cheaper tariff, one hour of a bare site already falls outside the bracket |
| HdoSensitivity.BracketHoldsExactlyWhenNightIsCheaper | src/lib/analysis/hdo-sensitivity.ts:36-69 | the extremes bracket every plant, series and calendar if and only if NT buys for no more and sells for no less |
| HdoSensitivity.ModeledCurveBrackets | src/lib/analysis/hdo-sensitivity.ts:21-42 | for a curve accepted by the model the bracket holds if and only if the NT commodity plus distribution price is not above the VT one |
| EmailOutbox.Outbox.QueueEmail | src/lib/email.ts:16-29 | every row stays as it was, the one under a known key included; a new key gets a waiting, untried row with the sealed text |
| EmailOutbox.QueueingTwice | src/lib/email.ts:17-20 | a second message under the same key changes nothing, whatever it says |
| EmailOutbox.Outbox.FindMany | src/lib/email.ts:84-88 | the answer holds distinct due rows, earliest first, at most the limit, and leaves out none that is earlier than one it returns |
| EmailOutbox.Outbox.ProcessEmailOutbox | src/lib/email.ts:74-111 | one undisturbed pass: stale rows are recovered or failed, due rows are fetched, and each fetched row goes through claim, delivery and recording; both counters are exact |
| EmailOutbox.Outbox.DeliverAll | src/lib/email.ts:89-109 | the delivery loop processes every fetched message once, in order |
| EmailOutbox.Outbox.ProcessOne | src/lib/email.ts:91-108 | one message changes its own row only, and counts as sent exactly when it was claimed and accepted |
| OutboxProtocol.EveryRunKeepsInv | src/lib/email.ts:74-111 | the invariant of table, mailer log and workers holds in every run with the lease, with any crashes, delays and refusals |
| OutboxProtocol.AttemptsAreBounded | src/lib/email.ts:74-111 | in every run attempts never exceed five, waiting rows have at most four, failed rows exactly five, and a row is marked as sent only if the mailer took it |
| OutboxProtocol.HandedAtMostFiveTimes | src/lib/email.ts:90-108 | in every run a message reaches the mailer at most five times |
| OutboxProtocol.QueuedTextIsHanded | src/lib/email.ts:96-101 | whatever reached the mailer is the text that was queued, or the mark left by a recording of that message that was committed but not confirmed; in a run without such a recording it is the text |
| OutboxProtocol.MarkIsHandedExactly | src/lib/email.ts:91-101 | at every moment of every run a worker hands over the mark if and only if a recording of that message once went unconfirmed, and its queued text otherwise |
| OutboxProtocol.UnconfirmedExactly | src/lib/email.ts:98-105 | a message counts as recorded without confirmation if and only if a step of the run committed its update while the worker saw it throw |
| OutboxProtocol.TerminalRowStaysForever | src/lib/email.ts:74-111 | a sent or failed row that no worker is about to give back is never changed again in any continuation of a run |
| OutboxProtocol.TerminalRowStaysExactly | src/lib/email.ts:74-111 | no continuation changes a sent or failed row if and only if no worker is about to give its message back |
| OutboxProtocol.GivingBackReopens | src/lib/email.ts:103-106 | giving back reopens a sent row, with the mark for its text, or marks it as failed after the fifth attempt |
| OutboxTiming.NothingIsSentEarly | src/lib/email.ts:84-97 | with or without the lease no message is handed over before its send time |
| OutboxTiming.RowsAreKept | src/lib/email.ts:74-111 | no run loses a row or changes its recipient, subject or send time, and attempts never go down |
| OutboxWithoutLease.WithoutLeaseRedactedBodyIsSent | src/lib/email.ts:98-107 | without the lease any two or more workers have a run that mails the redaction mark: the writes that record an outcome are guarded by the id alone |
| OutboxWithoutLease.LoneWorkerNeedsNoLease | src/lib/email.ts:74-111 | the runs of at most one worker are the same with and without the lease |
| OutboxSafety.UnconfirmedRecordingMailsTheMark | src/lib/email.ts:96-106 | a run, for any positive number of workers, with the lease and without it, in which a recording is committed and throws, the catch gives the row back, and the next pass mails the mark |
| OutboxSafety.SafeExactly | src/lib/email.ts:74-111 | for every number of workers, every run is safe if and only if there is no worker, or every recording is confirmed and passes are serialised, by the lease or by a single worker |
| OutboxDrain.SweepLightens | src/lib/email.ts:75-83 | the two bulk statements leave no row running, make no row heavier and every interrupted row lighter |
| OutboxDrain.LoopLightens | src/lib/email.ts:90-109 | each fetched message makes the table lighter by at least one |
| OutboxDrain.PassMakesProgress | src/lib/email.ts:74-111 | a pass over ready rows settles them all or makes the table lighter, and what it leaves open is ready for any later pass |
| OutboxDrain.PassesDrain | src/lib/email.ts:74-111 | as many passes as the weight of the table leave every row sent or failed, whatever the mailer answers |
| OutboxDrain.EveryRunDrains | src/lib/email.ts:74-111 | from whatever a run with crashes left behind, eleven passes per row over ready rows settle every message |
| OutboxDrain.EventuallyReady | src/lib/email.ts:75-88 | from some moment on every open row is waiting and due, or abandoned for more than ten minutes |
| OutboxDrain.PassIsARun | src/lib/email.ts:74-111 | the undisturbed pass is one of the runs of the protocol |
| OutboxDrain.PassesAreARun | src/lib/email.ts:74-111 | any number of undisturbed passes, with time passing between them, is one run of the protocol |
| OutboxDrain.DrainingContinuesTheRun | src/lib/email.ts:74-111 | a run at rest, whatever crashes it went through, is continued by eleven passes per row to a state in which every message is sent or failed |
| OutboxDrain.EveryRunCanBeDrained | src/lib/email.ts:74-111 | every run, stopped at any point and whatever the mailer answers afterwards, has a continuation that settles every message |
| OutboxDelivery.TakenExactly | src/lib/email.ts:90-108 | in every run with the lease the mailer took a message once per acceptance lost, before it was recorded or by giving a recorded one back, and once more if it is marked as sent or just being recorded |
| OutboxDelivery.LossesExactly | src/lib/email.ts:90-108 | a sent message was taken more than once, and a failed one was taken at all, if and only if an acceptance of it was lost to a crash, a failing update or one that went unconfirmed; without a loss no message is taken twice |
| OutboxDelivery.TakenTwiceAfterACrash | src/lib/email.ts:96-97 | a run in which a worker dies between delivery and recording and the message is taken again |
| OutboxDelivery.FailedAlthoughTaken | src/lib/email.ts:96-108 | a run in which a message the mailer took is marked as failed in the end |
| LoadProfile.AggregateSiteIntervals | src/lib/analysis/load-profile.ts:27-46 | exactly one interval per start and kind that occurs, with the summed energy and the latest end, in ascending order |
| LoadProfile.DeriveIndependentLoadProfile | src/lib/analysis/load-profile.ts:62-127 | points and provenance of the buckets in time order |
| LoadProfile.DerivePoints | src/lib/analysis/load-profile.ts:78-114 | the second loop keeps, counts and clamps each bucket as the balance rule says |
| LoadProfile.ProvenanceIsHonest | src/lib/analysis/load-profile.ts:78-126 | every point is counted as direct or reconstructed, every mismatch was reconstructed, and a profile labelled direct violates the balance nowhere |
| SiteSeries.LoopSumsLikeSql | src/lib/analysis/detail.ts:83-87 | the aggregation loop and the filtered SQL sum agree for every start and kind, NULL included |
| SiteSeries.CaseAgreesWithLoop | src/lib/analysis/detail.ts:99-121 | the CASE expression and the loop keep the same quarter-hours and choose the same reading |
| SiteSeries.FastPathRefinesLoops | src/lib/analysis/detail.ts:78-121 | for any rows in any order the query keeps exactly the quarter-hours of the loops, with equal production, and consumption equal up to the clamp of readings above -0.000001 kWh |
| SiteSeries.OrderDoesNotMatter | src/lib/analysis/load-profile.ts:27-46 | lists with the same rows in different orders have the same aggregate |
| SiteSeries.ChartBucketsAgree | src/lib/analysis/detail.ts:122-136 | for every truncation of time, chart buckets have equal production and counts, and a consumption low by at most 0.000001 kWh per interval |
| Holidays.EasterIsTheSundayAfterTheFullMoon | src/lib/analysis/forecast.ts:53-62 | in every year the computed date is the first Sunday after the ecclesiastical full moon, between 22 March and 25 April |
| Holidays.MovableHolidaysAreWeekdays | src/lib/analysis/forecast.ts:64-71 | the two movable holidays are a Friday and a Monday |
| Forecast.ForecastState.constructor | src/lib/analysis/forecast.ts:78-84 | a new state summarises an empty history |
| Forecast.ForecastState.Observe | src/lib/analysis/forecast.ts:86-101 | the fields stay the summary of the history extended by the new point, each window being the fold of its bounded pushes |
| Forecast.ForecastState.Predict | src/lib/analysis/forecast.ts:103-116 | a prediction from the bounded fields equals the prediction from the complete history |
| Forecast.ForecastState.Forecast | src/lib/analysis/forecast.ts:118-120 | the forecast is the prediction, or else the last value, and never below zero |
| Forecast.StoredWindowIsTail | src/lib/analysis/forecast.ts:92-97 | pushing every observation and dropping the oldest beyond 56 leaves exactly the last 56 of the full history of the slot |
| Forecast.WindowedPredictionIsFullMean | src/lib/analysis/forecast.ts:92-115 | from the bounded window, filtered and cut to 28, an averaging method gets the mean of the last min(28, n) of the full history, and nothing exactly for a slot never observed |
| Forecast.LagSourceIsLatest | src/lib/analysis/forecast.ts:105-109 | the lag lookup reads the latest instant, whole lags back, that is not after the last observation |
| Forecast.ForecastStaysInObservedRange | src/lib/analysis/forecast.ts:103-120 | from non-negative data no method forecasts below zero or above the largest observation |
| ForecastEvaluation.EvaluateSignal | src/lib/analysis/forecast.ts:126-162 | each metric is that of the statistics of its method over every fourth origin and all horizons |
| ForecastEvaluation.EvaluateOrigin | src/lib/analysis/forecast.ts:133-146 | one origin counts each method once per horizon with a target, predicting from the earlier points only |
| ForecastEvaluation.EvaluateHorizon | src/lib/analysis/forecast.ts:134-145 | one horizon counts each method once if its target exists and not at all otherwise |
| ForecastEvaluation.NoLookAhead | src/lib/analysis/forecast.ts:130-149 | series with equal timestamps that agree before an origin give identical predictions there, for every method and horizon |
| ForecastEvaluation.CoverageIgnoresValues | src/lib/analysis/forecast.ts:137-144 | samples and opportunities depend on timestamps alone, and samples never exceed opportunities |
| ForecastEvaluation.SelectIsBest | src/lib/analysis/forecast.ts:164-168 | the fallback is chosen if no method qualifies; otherwise exactly the method that no qualifying one beats on error, or on coverage at equal error, and that is listed before all its equals |
| PragueTime.SeasonsAlternate | src/lib/analysis/evaluation-window.ts:20-25 | summer and winter time alternate, each at least 100 days long, under the rule of Directive 2000/84/EC |
| PragueTime.LocalToInstantIsRight | src/components/consultation/AdminConsultations.tsx:25-37 | the two-step conversion renders back to its local time if and only if that time exists, and finds the later instant when it occurs twice |
| PragueTime.SkippedHourShowsOneLater | src/components/consultation/AdminConsultations.tsx:25-37 | a local time of the skipped hour is converted to the instant that shows the time one hour later |
| PragueTime.SkippedReading | src/components/consultation/AdminConsultations.tsx:25-37 | half past two on 29 March 2026 is such a time |
| PragueTime.MonthStartIsExact | src/lib/analysis/evaluation-window.ts:28-31 | the one-step conversion is the only instant at which clocks show midnight on the first of the month |
| PragueTime.MonthStartsIncrease | src/lib/analysis/evaluation-window.ts:28-31 | each month starts strictly before the next one |
| EvaluationWindow.LongestConsecutiveBlock | src/lib/analysis/evaluation-window.ts:74-83 | the block is the longest unbroken stretch of the list, the latest of equally long ones |
| EvaluationWindow.LongestIsUnique | src/lib/analysis/evaluation-window.ts:74-83 | there is only one such stretch |
| EvaluationWindow.SortedCompleteMonths | src/lib/analysis/evaluation-window.ts:43-51 | the sorted list holds exactly the finished months with at least 90 percent coverage |
| EvaluationWindow.ChooseEvaluationWindow | src/lib/analysis/evaluation-window.ts:33-67 | the branch taken and the window returned; a non-empty input window always gives a non-empty window inside it |
| EvaluationWindow.ChosenBlockIsLongestRun | src/lib/analysis/evaluation-window.ts:55-58 | the chosen months are complete and consecutive, no run of consecutive complete months is longer, and none as long begins later |
| EvaluationWindow.WindowIsInside | src/lib/analysis/evaluation-window.ts:59-66 | the whole-month window ends exactly with its last month and falls back exactly when that month ends before the input window begins |
| Investment.GrantWithinCapex | src/lib/analysis/investment.ts:26-49 | a grant is between zero and the investment, and within its published maximum, to the haler |
| Investment.PaymentClearsTheLoan | src/lib/analysis/investment.ts:80-85 | paying the computed amount for the whole term leaves a balance of exactly zero |
| Investment.TotalPaidCoversPrincipal | src/lib/analysis/investment.ts:80-89 | the instalments together cover the principal if and only if the rate is not negative, and exceed it if and only if it is positive |
| Investment.Bernoulli | src/lib/analysis/investment.ts:84-85 | the growth bound that makes the annuity dearer than its principal |
| Investment.AcceptedLoanKeepsItsTerms | src/lib/analysis/investment.ts:64-90 | an accepted loan keeps its term range and all amount limits, and the published payment is the rounding of one that repays it to zero |
| Investment.AssessmentFailsExactly | src/lib/analysis/investment.ts:57-79 | each error is returned exactly for its own fault, the first fault winning |
| Investment.FinancingCostsAtLeastItsFees | src/lib/analysis/investment.ts:86-89 | financing costs at least its fees exactly if the yearly rate is not negative or nothing is borrowed, the sign turning round for a negative amount |
| Investment.PublishedEffectiveInvestment | src/lib/analysis/investment.ts:91-100 | the published effective investment is at least the published net investment, also with the fees added, a loan of zero included |
| InvoiceClaims.Agent.ClaimNext | scripts/invoice-agent/coordinator.ts:49-109 | the oldest claimable document is claimed, and none only if none is claimable |
| InvoiceClaims.Agent.ProcessOne | scripts/invoice-agent/coordinator.ts:204-223 | one turn claims, stores or marks as failed, and reports whether there was anything to do |
| InvoiceClaims.ClaimClosesTheRequest | scripts/invoice-agent/coordinator.ts:49-89 | a claim closes its request for exactly two hours and leaves every other request as claimable as before |
| InvoiceClaims.TurnSettlesOneExactly | scripts/invoice-agent/coordinator.ts:204-223 | an uninterrupted turn settles exactly the claimed document, if and only if the parser did not answer in the superseded version |
| InvoiceClaims.TurnLowersClaimable | scripts/invoice-agent/coordinator.ts:204-223 | the number of documents claimable at that moment falls with the turn, unless exactly the parser brought a first draft in the superseded version; no other document becomes claimable |
| InvoiceClaims.BacklogShrinks | scripts/invoice-agent/coordinator.ts:225-233 | without superseded answers every turn takes one document off the backlog, so turns are bounded by the backlog |
| InvoiceClaims.TurnReleasesRequest | scripts/invoice-agent/coordinator.ts:175-183 | a turn leaves the request free, except exactly when its superseded draft was already stored |
| InvoiceProtocol.DraftsAreStoredOnce | src/lib/energy/invoice-ai.ts:83-94 | in every continuation of every state no document has two drafts of one version, no document and no draft is lost, and a document with a current draft is never claimable again |
| InvoiceProtocol.MarkerLiftedExactly | scripts/invoice-agent/coordinator.ts:59-68 | a failure marker is lifted if and only if a worker stores a new draft of the document or a review names it; the exact condition for the document to be open again |
| InvoiceProtocol.SupersededAnswerIsTakenAgain | scripts/invoice-agent/coordinator.ts:55-76 | a run in which a draft of the superseded version is stored and the same document is the next to be claimed |
| InvoiceProtocol.ConfirmationUndoneExactly | src/lib/energy/invoice-ai.ts:120-123 | a confirmed request is opened again if and only if a review does it, or a worker that claimed one of its documents earlier stores a new draft |
| InvoiceProtocol.LateDraftReopensConfirmed | src/lib/energy/invoice-ai.ts:120-123 | a run in which a review confirms a request while its document is parsed, and the draft then puts it back to NEEDS_INPUT |
| InvoiceProtocol.EventExcludesExactly | scripts/invoice-agent/coordinator.ts:49-89 | from an exclusive state any event leads to one again if and only if it is no passing of a held claim's two hours, no effective upload to a held request and no review that sends a held request back |
| InvoiceProtocol.RunExcludesExactly | scripts/invoice-agent/coordinator.ts:49-89 | a run with uploads, reviews and passing time excludes at every moment if and only if none of its events is one of those |
| InvoiceProtocol.WorkersExclude | scripts/invoice-agent/coordinator.ts:49-89 | in every such run from the start two workers never hold documents of one request |
| InvoiceProtocol.BreakFreesARequest | scripts/invoice-agent/coordinator.ts:69-78 | each of those events leaves a request free that a live worker holds |
| InvoiceProtocol.BreakLetsAnotherIn | scripts/invoice-agent/coordinator.ts:55-89 | once the oldest claimable document belongs to a request somebody holds, the next worker to take it shares that request |
| InvoiceProtocol.ReviewBreaksExclusion | src/lib/energy/invoice-review.ts:192-204 | a run in which a review lets a second worker claim the very document being parsed |
| InvoiceProtocol.UploadBreaksExclusion | src/lib/energy/invoice-document.ts:109-112 | a run in which an upload lets a second worker claim the very document being parsed |
| InvoiceProtocol.SlowWorkerBreaksExclusion | scripts/invoice-agent/coordinator.ts:50-76 | a run in which a worker that is still alive after two hours shares its document with another |
| Csv.CellIsRead | src/lib/analysis/csv.ts:1-6 | a reader of the quoting rules of section 2 of RFC 4180 recovers exactly the guarded text of a cell |
| Csv.RowIsRead | src/lib/analysis/csv.ts:8-10 | it recovers every cell of a row, and stops where the row ends |
| Csv.FileRoundTrips | src/lib/analysis/export.ts:118 | it recovers all texts of all rows of the exported file, whatever quotes, separators and line breaks they hold, blank lines included |
| Csv.NoCellIsAFormula | src/lib/analysis/csv.ts:4 | no recovered cell starts like a formula |
| Csv.TextsCollideExactly | src/lib/analysis/csv.ts:3-5 | two texts are exported alike only if equal, or one is a formula and the other that formula behind an apostrophe |
| Csv.CollidingTexts | src/lib/analysis/csv.ts:3-5 | a formula of four characters and the text of five that is exported like it |
| CurveSelection.SelectAnalysisCurveIds | src/lib/analysis/curve-selection.ts:15-48 | all ids on request, otherwise the ids of the chosen curves in order |
| CurveSelection.Collect | src/lib/analysis/curve-selection.ts:20-43 | the loop selects every baseline and keeps the first cheapest curve of every group |
| CurveSelection.ListedExactlyIfChosen | src/lib/analysis/curve-selection.ts:44-47 | with distinct ids a curve is listed if and only if it is a baseline or the first cheapest of its group |
| CurveSelection.ExactlyOnePerGroup | src/lib/analysis/curve-selection.ts:33-47 | of every group that occurs exactly one curve is listed |
| CurveSelection.ListKeepsOrder | src/lib/analysis/curve-selection.ts:45-47 | the list is a subsequence of the input |
| CurveSelection.GroupKeyIsTheTuple | src/lib/analysis/curve-selection.ts:33-34 | for codes without a colon two curves share a group if and only if family, both modes and the rate agree |
| MarketGrid.Normalize | scripts/import-ote-market-stdin.ts:26-51 | fewer than 96 rows are refused; otherwise the slots follow each other without a gap from the first start and just reach the end of the last row |
| MarketGrid.SortKeepsRows | scripts/import-ote-market-stdin.ts:25-30 | sorting keeps all rows, and of several rows for one start the one read last still wins |
| MarketGrid.SlotHasLastKnownPrice | scripts/import-ote-market-stdin.ts:34-51 | every slot has the price of the latest slot at or before it for which there was a row; rows off the grid are ignored |

## Left out

- Floating point: reals are exact here, so overflow, NaN and infinities do not occur and the finiteness checks of the validators have no counterpart; `Number.EPSILON` is kept as a constant.
- `Math.sqrt`: the one-way efficiency is a parameter whose square is the round-trip share, the non-negative root.
- `Intl` formatting: the local date, weekday, quarter-hour and offset of an instant are function parameters; for Prague the offset follows Directive 2000/84/EC in every year.
- Text formats: parsing of local times, ISO instants and import lines is not modelled; a month key is a pair of year and month, and a cell of the export is missing or a text.
- Years before 100: `Date.UTC` reads years 0 to 99 as 1900 to 1999, the calendar here is the Gregorian one throughout.
- Periods.PeriodAccumulator.Result: the published buckets are maps by key; the order of the two lists is that of their keys and adds nothing.
- Investment.CalculateInvestmentAssessment: an assessment with no month of term or a monthly rate of -100 percent or less has no finite payment; callers pass terms of 1 to 600 months (`src/lib/analysis/service.ts`, line 209) and published rates of 0 to 200 percent.
- EvaluationWindow: months are distinct and real calendar months, as `src/lib/energy/data-quality.ts` (lines 224-234) builds them.
- CurveSelection: the winners of the groups are positions in the list instead of references to curve objects.
- CurveSelection.GroupKeyIsTheTuple: holds for mode codes without a colon, which the pricing modes, an enumeration in the database, never contain.
- ForecastEvaluation: rounding of the metrics is that of the source; the method lists and horizons are parameters.
- EmailOutbox: the HTML body, error texts and delivery timestamps of a row are not modelled, and encryption is the constructor `Sealed`; rows that retention deletes are left out.
- OutboxProtocol: consultation reminders that `src/lib/consultation/service.ts` (lines 159-166) cancels are a status, CANCELED, and a writer of waiting rows that the model does not have; rows that registration, payments and consultations write are queued rows like any other.
- EmailOutbox.Outbox.ProcessEmailOutbox: the clock stands still during the undisturbed pass of the class; in `OutboxProtocol` time passes between any two steps.
- OutboxProtocol: the lease is the assumption that a pass begins only when none is under way; its own expiry after 50 minutes, its renewal and its release are not modelled.
- InvoiceClaims: audit logs, notes, extracted data, billing periods and content hashes are not modelled; the parser's answer is a parameter.
- InvoiceProtocol: the limit of three documents is left out, and an upload may restore any deleted document of its request; a review is one step, whose look-up that the named document is not deleted came earlier, and its changes to the site and its price curves are not modelled. The older shell driver (`scripts/invoice-agent/run.sh`), which claims and marks by its own statements, is not part of this model.
- SiteSeries: the grid and battery columns of the chart, rounding to watt-hours and the filter for days with fewer than 92 intervals come after the modelled query.
- LoadProfile: the mean difference in the provenance is a quotient of two modelled counters.
- MarketGrid: the fingerprint, the database writes and the reuse of a published series.
- The rolling MILP optimiser, the analysis service, catalog import, payments, retention, sessions and all user interface code.
