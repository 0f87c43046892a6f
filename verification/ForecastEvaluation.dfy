/** Walk-forward evaluation of the forecast methods and the choice among them. */
module ForecastEvaluation {
  import opened Basics
  import opened Rounding
  import opened DispatchModel
  import opened Forecast

  datatype Stat = Stat(absoluteError: real, actual: real, samples: nat, opportunities: nat)

  const NO_STAT := Stat(0.0, 0.0, 0, 0)

  datatype Metric = Metric(
    name: ForecastMethod,
    maeKwh: Option<real>,
    normalizedMaePct: Option<real>,
    coveragePct: real,
    samples: nat)

  /** What happens to one method at one origin and horizon (in milliseconds). */
  datatype Attempt = NoTarget | Abstained(actual: real) | Predicted(value: real, actual: real)

  /** `new Map(points.map(...)).get(at)`: the last point with that start. */
  function LookUp(points: seq<Point>, at: int): Option<Point> {
    if points == [] then None
    else if points[|points| - 1].startAt == at then Some(points[|points| - 1])
    else LookUp(points[..|points| - 1], at)
  }

  function AttemptAt(points: seq<Point>, calendar: Calendar, signal: Signal, m: ForecastMethod, index: nat,
                     horizon: int): Attempt
    requires index < |points|
  {
    var at := points[index].startAt + horizon;
    match LookUp(points, at)
    case None => NoTarget
    case Some(target) =>
      match Prediction(calendar, points[..index], signal, m, at)
      case None => Abstained(ValueOf(signal, target))
      case Some(value) => Predicted(value, ValueOf(signal, target))
  }

  function Count(stat: Stat, attempt: Attempt): Stat {
    match attempt
    case NoTarget => stat
    case Abstained(_) => stat.(opportunities := stat.opportunities + 1)
    case Predicted(value, actual) =>
      Stat(stat.absoluteError + Abs(value - actual), stat.actual + actual, stat.samples + 1, stat.opportunities + 1)
  }

  function CountHorizons(stat: Stat, points: seq<Point>, calendar: Calendar, signal: Signal, m: ForecastMethod,
                         index: nat, horizons: seq<int>): Stat
    requires index < |points|
  {
    if horizons == [] then stat
    else
      Count(CountHorizons(stat, points, calendar, signal, m, index, horizons[..|horizons| - 1]),
            AttemptAt(points, calendar, signal, m, index, horizons[|horizons| - 1]))
  }

  /** The statistics of a method after the first `n` origins; every fourth origin counts. */
  function StatAfter(points: seq<Point>, calendar: Calendar, signal: Signal, m: ForecastMethod, horizons: seq<int>,
                     n: nat): Stat
    requires n <= |points|
  {
    if n == 0 then NO_STAT
    else
      var before := StatAfter(points, calendar, signal, m, horizons, n - 1);
      if (n - 1) % 4 == 0 then CountHorizons(before, points, calendar, signal, m, n - 1, horizons) else before
  }

  function MetricOf(m: ForecastMethod, stat: Stat): Metric {
    var mae := if stat.samples > 0 then stat.absoluteError / stat.samples as real else 0.0;
    var meanActual := if stat.samples > 0 then stat.actual / stat.samples as real else 0.0;
    Metric(
      m,
      if stat.samples > 0 then Some(Round(mae, 100000.0)) else None,
      if stat.samples == 0 || meanActual <= 0.0 then None else Some(Round(mae / meanActual * 100.0, 10.0)),
      if stat.opportunities > 0
      then Round(stat.samples as real / stat.opportunities as real * 100.0, 10.0) else 0.0,
      stat.samples)
  }

  ghost predicate Distinct(methods: seq<ForecastMethod>) {
    forall i, j :: 0 <= i < j < |methods| ==> methods[i] != methods[j]
  }

  ghost predicate StatsAre(
    stats: map<ForecastMethod, Stat>, methods: seq<ForecastMethod>, expected: ForecastMethod -> Stat)
  {
    forall i :: 0 <= i < |methods| ==> methods[i] in stats && stats[methods[i]] == expected(methods[i])
  }

  /** `evaluateSignal`: at every fourth origin each method predicts from what was
      observed before it; only then is the origin itself observed. */
  method EvaluateSignal(points: seq<Point>, calendar: Calendar, signal: Signal, methods: seq<ForecastMethod>,
                        horizons: seq<int>)
    returns (metrics: seq<Metric>)
    requires Distinct(methods)
    ensures |metrics| == |methods|
    ensures forall i :: 0 <= i < |methods| ==>
      metrics[i] == MetricOf(methods[i], StatAfter(points, calendar, signal, methods[i], horizons, |points|))
  {
    var state := new ForecastState(calendar);
    var stats: map<ForecastMethod, Stat> := map m | m in methods :: NO_STAT;
    assert forall i :: 0 <= i < |methods| ==> methods[i] in methods;
    hide CountHorizons;
    for index := 0 to |points|
      invariant fresh(state) && state.Valid() && state.calendar == calendar && state.history == points[..index]
      invariant StatsAre(stats, methods, m => StatAfter(points, calendar, signal, m, horizons, index))
    {
      if index % 4 == 0 {
        stats := EvaluateOrigin(state, stats, points, index, signal, methods, horizons);
      }
      assert points[..index + 1] == points[..index] + [points[index]];
      state.Observe(points[index]);
    }
    hide StatAfter;
    metrics := seq(|methods|, i requires 0 <= i < |methods| && methods[i] in stats =>
                                MetricOf(methods[i], stats[methods[i]]));
  }

  /** One origin: all horizons, all methods. */
  method EvaluateOrigin(state: ForecastState, before: map<ForecastMethod, Stat>, points: seq<Point>, index: nat,
                        signal: Signal, methods: seq<ForecastMethod>, horizons: seq<int>)
    returns (stats: map<ForecastMethod, Stat>)
    requires index < |points| && state.Valid() && state.history == points[..index] && Distinct(methods)
    requires forall i :: 0 <= i < |methods| ==> methods[i] in before
    ensures forall i :: 0 <= i < |methods| ==>
      && methods[i] in stats
      && stats[methods[i]]
         == CountHorizons(before[methods[i]], points, state.calendar, signal, methods[i], index, horizons)
  {
    stats := before;
    hide AttemptAt, Count;
    for h := 0 to |horizons|
      invariant forall i :: 0 <= i < |methods| ==>
        && methods[i] in stats
        && stats[methods[i]]
           == CountHorizons(before[methods[i]], points, state.calendar, signal, methods[i], index, horizons[..h])
    {
      assert horizons[..h + 1][..h] == horizons[..h];
      stats := EvaluateHorizon(state, stats, points, index, signal, methods, horizons[h]);
    }
    assert horizons[..|horizons|] == horizons;
  }

  /** One origin and horizon: all methods, if there is a target. */
  method EvaluateHorizon(state: ForecastState, before: map<ForecastMethod, Stat>, points: seq<Point>, index: nat,
                         signal: Signal, methods: seq<ForecastMethod>, horizon: int)
    returns (stats: map<ForecastMethod, Stat>)
    requires index < |points| && state.Valid() && state.history == points[..index] && Distinct(methods)
    requires forall i :: 0 <= i < |methods| ==> methods[i] in before
    ensures forall i :: 0 <= i < |methods| ==>
      && methods[i] in stats
      && stats[methods[i]]
         == Count(before[methods[i]], AttemptAt(points, state.calendar, signal, methods[i], index, horizon))
  {
    hide ForecastState.Valid, Prediction, Count;
    stats := before;
    var targetAt := points[index].startAt + horizon;
    var target := LookUp(points, targetAt);
    if target.None? {
      CountNothing(before, methods);
      return;
    }
    for j := 0 to |methods|
      invariant forall i :: 0 <= i < |methods| ==>
        && methods[i] in stats
        && stats[methods[i]]
           == if i < j then Count(before[methods[i]],
                                  AttemptAt(points, state.calendar, signal, methods[i], index, horizon))
              else before[methods[i]]
    {
      var predicted := state.Predict(signal, methods[j], targetAt);
      var actual := ValueOf(signal, target.value);
      var attempt := match predicted
        case None => Abstained(actual)
        case Some(value) => Predicted(value, actual);
      stats := stats[methods[j] := Count(stats[methods[j]], attempt)];
    }
  }

  lemma CountNothing(before: map<ForecastMethod, Stat>, methods: seq<ForecastMethod>)
    requires forall i :: 0 <= i < |methods| ==> methods[i] in before
    ensures forall i :: 0 <= i < |methods| ==> Count(before[methods[i]], NoTarget) == before[methods[i]]
  {
  }

  // ---- no look-ahead ----

  /** Same outcome for the forecaster, whatever the target turned out to be. */
  predicate SameForecast(a: Attempt, b: Attempt) {
    match (a, b)
    case (NoTarget, NoTarget) => true
    case (Abstained(_), Abstained(_)) => true
    case (Predicted(x, _), Predicted(y, _)) => x == y
    case _ => false
  }

  ghost predicate SameTimes(points: seq<Point>, others: seq<Point>) {
    |points| == |others| && forall i :: 0 <= i < |points| ==> points[i].startAt == others[i].startAt
  }

  lemma {:induction false} LookUpByTimes(points: seq<Point>, others: seq<Point>, at: int)
    requires SameTimes(points, others)
    ensures LookUp(points, at).Some? <==> LookUp(others, at).Some?
  {
    if points != [] {
      LookUpByTimes(points[..|points| - 1], others[..|others| - 1], at);
    }
  }

  /** NO LOOK-AHEAD. Two series with the same timestamps that agree up to an origin give
      identical predictions at that origin, for every method and horizon: nothing at or
      after the origin is read. */
  lemma NoLookAhead(points: seq<Point>, others: seq<Point>, calendar: Calendar, signal: Signal, m: ForecastMethod,
                    index: nat, horizon: int)
    requires SameTimes(points, others) && index < |points| && points[..index] == others[..index]
    ensures SameForecast(AttemptAt(points, calendar, signal, m, index, horizon),
                         AttemptAt(others, calendar, signal, m, index, horizon))
  {
    LookUpByTimes(points, others, points[index].startAt + horizon);
  }

  lemma {:induction false} PredictsByTimes(points: seq<Point>, others: seq<Point>, calendar: Calendar, signal: Signal,
                                           key: SlotKey, at: int)
    requires SameTimes(points, others)
    ensures LastAt(points) == LastAt(others)
    ensures |KeyHistory(calendar, points, signal, key)| == |KeyHistory(calendar, others, signal, key)|
    ensures ObservedAt(points, signal, at).Some? <==> ObservedAt(others, signal, at).Some?
  {
    hide Matches;
    if points != [] {
      PredictsByTimes(points[..|points| - 1], others[..|others| - 1], calendar, signal, key, at);
    }
  }

  lemma PredictionByTimes(points: seq<Point>, others: seq<Point>, calendar: Calendar, signal: Signal,
                          m: ForecastMethod, target: int)
    requires SameTimes(points, others)
    ensures Prediction(calendar, points, signal, m, target).Some?
      <==> Prediction(calendar, others, signal, m, target).Some?
  {
    hide LastAt, KeyHistory, ObservedAt, LagSource, KeyFor;
    var key := KeyFor(m, calendar(target));
    PredictsByTimes(points, others, calendar, signal, key, 0);
    if LastAt(points).Some? {
      PredictsByTimes(points, others, calendar, signal, key,
                      LagSource(target - LagOf(m), LagOf(m), LastAt(points).value));
    }
  }

  /** Coverage is a fact about timestamps: which samples a method is judged on never
      depends on the measured values, so no method can win by its luck with gaps. */
  lemma {:induction false} CoverageIgnoresValues(points: seq<Point>, others: seq<Point>, calendar: Calendar,
                                                 signal: Signal, m: ForecastMethod, horizons: seq<int>, n: nat)
    requires SameTimes(points, others) && n <= |points|
    ensures var a := StatAfter(points, calendar, signal, m, horizons, n);
      var b := StatAfter(others, calendar, signal, m, horizons, n);
      SameCounts(a, b)
  {
    if n > 0 {
      CoverageIgnoresValues(points, others, calendar, signal, m, horizons, n - 1);
      HorizonsIgnoreValues(StatAfter(points, calendar, signal, m, horizons, n - 1),
                           StatAfter(others, calendar, signal, m, horizons, n - 1),
                           points, others, calendar, signal, m, n - 1, horizons);
    }
  }

  /** The same samples and opportunities so far. */
  predicate SameCounts(a: Stat, b: Stat) {
    a.samples == b.samples && a.opportunities == b.opportunities && a.samples <= a.opportunities
  }

  /** The same kind of outcome, whatever the values. */
  predicate SameKind(a: Attempt, b: Attempt) {
    (a.NoTarget? <==> b.NoTarget?) && (a.Predicted? <==> b.Predicted?)
  }

  lemma CountsAlike(a: Stat, b: Stat, x: Attempt, y: Attempt)
    requires SameCounts(a, b) && SameKind(x, y)
    ensures SameCounts(Count(a, x), Count(b, y))
  {
  }

  lemma AttemptsAlike(points: seq<Point>, others: seq<Point>, calendar: Calendar, signal: Signal, m: ForecastMethod,
                      index: nat, horizon: int)
    requires SameTimes(points, others) && index < |points|
    ensures SameKind(AttemptAt(points, calendar, signal, m, index, horizon),
                     AttemptAt(others, calendar, signal, m, index, horizon))
  {
    hide Prediction, LookUp;
    var at := points[index].startAt + horizon;
    LookUpByTimes(points, others, at);
    PredictionByTimes(points[..index], others[..index], calendar, signal, m, at);
  }

  lemma {:induction false} HorizonsIgnoreValues(a: Stat, b: Stat, points: seq<Point>, others: seq<Point>,
                                                calendar: Calendar, signal: Signal, m: ForecastMethod, index: nat,
                                                horizons: seq<int>)
    requires SameTimes(points, others) && index < |points| && SameCounts(a, b)
    ensures SameCounts(CountHorizons(a, points, calendar, signal, m, index, horizons),
                       CountHorizons(b, others, calendar, signal, m, index, horizons))
  {
    hide SameCounts, SameKind, AttemptAt, Count, SameTimes;
    if horizons != [] {
      var init, horizon := horizons[..|horizons| - 1], horizons[|horizons| - 1];
      HorizonsIgnoreValues(a, b, points, others, calendar, signal, m, index, init);
      SameLength(points, others);
      AttemptsAlike(points, others, calendar, signal, m, index, horizon);
      CountsAlike(CountHorizons(a, points, calendar, signal, m, index, init),
                  CountHorizons(b, others, calendar, signal, m, index, init),
                  AttemptAt(points, calendar, signal, m, index, horizon),
                  AttemptAt(others, calendar, signal, m, index, horizon));
    }
  }

  lemma SameLength(points: seq<Point>, others: seq<Point>)
    requires SameTimes(points, others)
    ensures |points| == |others|
  {
  }

  // ---- the choice ----

  predicate Qualifies(metric: Metric) {
    metric.maeKwh.Some? && metric.coveragePct >= 70.0 && metric.samples >= 24
  }

  /** The comparator is negative: a smaller error, or an equal one with more coverage. */
  predicate Better(a: Metric, b: Metric) {
    && a.maeKwh.Some? && b.maeKwh.Some?
    && (a.maeKwh.value < b.maeKwh.value || (a.maeKwh.value == b.maeKwh.value && a.coveragePct > b.coveragePct))
  }

  function Qualified(metrics: seq<Metric>): (q: seq<Metric>)
    ensures forall i :: 0 <= i < |q| ==> Qualifies(q[i])
  {
    if metrics == [] then []
    else Qualified(metrics[..|metrics| - 1])
         + if Qualifies(metrics[|metrics| - 1]) then [metrics[|metrics| - 1]] else []
  }

  /** Stable sorting: an element goes before the first one it is better than. */
  function Insert(sorted: seq<Metric>, x: Metric): (r: seq<Metric>)
    requires Qualifies(x) && forall i :: 0 <= i < |sorted| ==> Qualifies(sorted[i])
    ensures |r| == |sorted| + 1
    ensures forall i :: 0 <= i < |r| ==> Qualifies(r[i])
  {
    if sorted == [] then [x]
    else if Better(x, sorted[0]) then [x] + sorted
    else [sorted[0]] + Insert(sorted[1..], x)
  }

  function Sorted(s: seq<Metric>): (r: seq<Metric>)
    requires forall i :: 0 <= i < |s| ==> Qualifies(s[i])
    ensures |r| == |s|
    ensures forall i :: 0 <= i < |r| ==> Qualifies(r[i])
  {
    if s == [] then [] else Insert(Sorted(s[..|s| - 1]), s[|s| - 1])
  }

  function Select(metrics: seq<Metric>, fallback: ForecastMethod): ForecastMethod {
    var sorted := Sorted(Qualified(metrics));
    if sorted == [] then fallback else sorted[0].name
  }

  /** The first of the best, in the order given. */
  ghost predicate FirstBest(s: seq<Metric>, i: nat)
    requires forall j :: 0 <= j < |s| ==> Qualifies(s[j])
  {
    && i < |s|
    && (forall j :: 0 <= j < |s| ==> !Better(s[j], s[i]))
    && (forall j :: 0 <= j < i ==> Better(s[i], s[j]))
  }

  lemma {:induction false} SortedHeadIsFirstBest(s: seq<Metric>) returns (i: nat)
    requires s != [] && forall j :: 0 <= j < |s| ==> Qualifies(s[j])
    ensures FirstBest(s, i) && Sorted(s)[0] == s[i]
  {
    var init, last := s[..|s| - 1], s[|s| - 1];
    if init == [] {
      i := 0;
    } else {
      i := SortedHeadIsFirstBest(init);
      var best := init[i];
      if Better(last, best) {
        i := |s| - 1;
      }
      forall j | 0 <= j < |s| - 1 ensures s[j] == init[j] {
      }
    }
  }

  /** `at` are the positions of all qualifying metrics, in order, and `q` what is there. */
  ghost predicate PickedAt(metrics: seq<Metric>, q: seq<Metric>, at: seq<nat>) {
    && |at| == |q|
    && (forall i :: 0 <= i < |at| ==> at[i] < |metrics| && metrics[at[i]] == q[i])
    && (forall i, j :: 0 <= i < j < |at| ==> at[i] < at[j])
    && (forall k :: 0 <= k < |metrics| && Qualifies(metrics[k]) ==> k in at)
  }

  lemma PickedGrows(metrics: seq<Metric>, q: seq<Metric>, at: seq<nat>, x: Metric)
    requires PickedAt(metrics, q, at)
    ensures Qualifies(x) ==> PickedAt(metrics + [x], q + [x], at + [|metrics|])
    ensures !Qualifies(x) ==> PickedAt(metrics + [x], q, at)
  {
    hide Qualifies;
    var longer, after := metrics + [x], at + [|metrics|];
    assert after[|at|] == |metrics|;
    forall k | 0 <= k < |longer| && Qualifies(longer[k]) ensures k in after && (k < |metrics| ==> k in at) {
      if k < |metrics| {
        assert longer[k] == metrics[k];
      }
    }
  }

  /** The qualified metrics keep their order, and none is missing. */
  lemma {:induction false} QualifiedInOrder(metrics: seq<Metric>) returns (at: seq<nat>)
    ensures PickedAt(metrics, Qualified(metrics), at)
  {
    hide Qualifies;
    if metrics == [] {
      at := [];
    } else {
      var init, last := metrics[..|metrics| - 1], metrics[|metrics| - 1];
      hide PickedAt;
      at := QualifiedInOrder(init);
      PickedGrows(init, Qualified(init), at, last);
      assert metrics == init + [last];
      assert Qualified(metrics) == if Qualifies(last) then Qualified(init) + [last] else Qualified(init);
      at := if Qualifies(last) then at + [|init|] else at;
    }
  }

  /** The metric at `k` qualifies, no qualifying one is better, and it is better than every
      qualifying one before it: the first of the best. */
  ghost predicate FirstOfTheBest(metrics: seq<Metric>, k: nat) {
    && k < |metrics| && Qualifies(metrics[k])
    && (forall j :: 0 <= j < |metrics| && Qualifies(metrics[j]) ==> !Better(metrics[j], metrics[k]))
    && (forall j :: 0 <= j < k && Qualifies(metrics[j]) ==> Better(metrics[k], metrics[j]))
  }

  lemma OnlyOneIsFirst(metrics: seq<Metric>, k: nat, l: nat)
    requires FirstOfTheBest(metrics, k) && FirstOfTheBest(metrics, l)
    ensures k == l
  {
  }

  /** THE SELECTION. If no method qualifies the fallback is chosen; otherwise it is the first
      of the best, of which there is exactly one: no qualifying method has a smaller error,
      or the same error and more coverage, and among equals the one listed first wins. */
  lemma SelectIsBest(metrics: seq<Metric>, fallback: ForecastMethod)
    ensures (forall i :: 0 <= i < |metrics| ==> !Qualifies(metrics[i])) ==> Select(metrics, fallback) == fallback
    ensures (exists i :: 0 <= i < |metrics| && Qualifies(metrics[i])) ==>
      exists k: nat :: FirstOfTheBest(metrics, k) && Select(metrics, fallback) == metrics[k].name
    ensures forall k: nat :: FirstOfTheBest(metrics, k) ==> Select(metrics, fallback) == metrics[k].name
  {
    hide Qualified, Qualifies, Better, Sorted;
    var q := Qualified(metrics);
    var at := QualifiedInOrder(metrics);
    if q != [] {
      var i := SortedHeadIsFirstBest(q);
      var k := at[i];
      forall j | 0 <= j < |metrics| && Qualifies(metrics[j])
        ensures !Better(metrics[j], metrics[k]) && (j < k ==> Better(metrics[k], metrics[j]))
      {
        var p :| 0 <= p < |at| && at[p] == j;
        assert q[p] == metrics[j];
      }
      assert FirstOfTheBest(metrics, k);
      forall l: nat | FirstOfTheBest(metrics, l) ensures l == k {
        OnlyOneIsFirst(metrics, k, l);
      }
    }
  }
}
