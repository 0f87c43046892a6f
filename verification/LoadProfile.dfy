/** The site load derived from inverter channels: the loops of the analysis. */
module LoadProfile {
  import opened Basics
  import opened Timestamps

  datatype Kind = Battery | Consumption | GridExport | GridImport | Production

  /** The order `localeCompare` gives the five names. */
  function Rank(kind: Kind): nat {
    match kind
    case Battery => 0
    case Consumption => 1
    case GridExport => 2
    case GridImport => 3
    case Production => 4
  }

  datatype Interval = Interval(kind: Kind, startAt: int, endAt: int, kwh: real)

  type Key = (int, Kind)

  function KeyOf(interval: Interval): Key {
    (interval.startAt, interval.kind)
  }

  predicate Before(a: Key, b: Key) {
    a.0 < b.0 || (a.0 == b.0 && Rank(a.1) < Rank(b.1))
  }

  // ---- aggregation over inverters ----

  function Merge(current: Interval, interval: Interval): Interval {
    current.(kwh := current.kwh + interval.kwh,
             endAt := if interval.endAt > current.endAt then interval.endAt else current.endAt)
  }

  /** All rows of one start and kind merged into one, if there are any. */
  function Merged(rows: seq<Interval>, key: Key): Option<Interval> {
    if rows == [] then None
    else
      var last := rows[|rows| - 1];
      var before := Merged(rows[..|rows| - 1], key);
      if KeyOf(last) != key then before
      else if before.None? then Some(last)
      else Some(Merge(before.value, last))
  }

  /** Exactly one interval per start and kind that occurs, in ascending order. */
  ghost predicate IsAggregate(rows: seq<Interval>, out: seq<Interval>) {
    && (forall i, j :: 0 <= i < j < |out| ==> Before(KeyOf(out[i]), KeyOf(out[j])))
    && (forall i :: 0 <= i < |out| ==> Merged(rows, KeyOf(out[i])) == Some(out[i]))
    && (forall key :: Merged(rows, key).Some? ==> exists i :: 0 <= i < |out| && KeyOf(out[i]) == key)
  }

  ghost predicate Holds(rows: seq<Interval>, aggregated: map<Key, Interval>) {
    forall key :: (if key in aggregated then Some(aggregated[key]) else None) == Merged(rows, key)
  }

  lemma MergedKey(rows: seq<Interval>, key: Key)
    ensures Merged(rows, key).Some? ==> KeyOf(Merged(rows, key).value) == key
  {
  }

  lemma {:induction false} LeastKeyExists(keys: set<Key>)
    requires keys != {}
    ensures exists first :: first in keys && forall key :: key in keys && key != first ==> Before(first, key)
  {
    hide Before;
    var some :| some in keys;
    if keys == {some} {
      assert some in keys;
    } else {
      var rest := keys - {some};
      LeastKeyExists(rest);
      var first :| first in rest && forall key :: key in rest && key != first ==> Before(first, key);
      BeforeIsTotal(some, first);
      var least := if Before(some, first) then some else first;
      forall key | key in keys && key != least ensures Before(least, key) {
        if key != some && key != first {
          assert key in rest;
          BeforeIsTransitive(some, first, key);
        }
      }
      assert least in keys;
    }
  }

  lemma BeforeIsTotal(a: Key, b: Key)
    ensures a == b || Before(a, b) || Before(b, a)
  {
  }

  lemma BeforeIsTransitive(a: Key, b: Key, c: Key)
    ensures Before(a, b) && Before(b, c) ==> Before(a, c)
  {
  }

  method AggregateSiteIntervals(intervals: seq<Interval>) returns (out: seq<Interval>)
    ensures IsAggregate(intervals, out)
  {
    var aggregated: map<Key, Interval> := map[];
    for i := 0 to |intervals|
      invariant Holds(intervals[..i], aggregated)
    {
      var interval := intervals[i];
      var key := KeyOf(interval);
      assert intervals[..i + 1][..i] == intervals[..i];
      if key in aggregated {
        aggregated := aggregated[key := Merge(aggregated[key], interval)];
      } else {
        aggregated := aggregated[key := interval];
      }
    }
    assert intervals[..|intervals|] == intervals;
    out := SortedValues(intervals, aggregated);
  }

  /** `[...aggregated.values()].sort(...)`. */
  method SortedValues(ghost rows: seq<Interval>, aggregated: map<Key, Interval>) returns (out: seq<Interval>)
    requires Holds(rows, aggregated)
    ensures IsAggregate(rows, out)
  {
    out := [];
    var remaining := aggregated.Keys;
    while remaining != {}
      invariant remaining <= aggregated.Keys
      invariant Sorting(aggregated, out, remaining)
      decreases remaining
    {
      LeastKeyExists(remaining);
      var first :| first in remaining && forall key :: key in remaining && key != first ==> Before(first, key);
      MergedKey(rows, first);
      SortNext(aggregated, out, remaining, first);
      out := out + [aggregated[first]];
      remaining := remaining - {first};
    }
  }

  /** `out` is sorted, `remaining` are the keys not yet in it, all of them later. */
  ghost predicate Sorting(aggregated: map<Key, Interval>, out: seq<Interval>, remaining: set<Key>) {
    && (forall i, j :: 0 <= i < j < |out| ==> Before(KeyOf(out[i]), KeyOf(out[j])))
    && (forall i :: 0 <= i < |out| ==> KeyOf(out[i]) in aggregated && aggregated[KeyOf(out[i])] == out[i])
    && (forall i, key :: 0 <= i < |out| && key in remaining ==> Before(KeyOf(out[i]), key))
    && (forall key :: key in aggregated ==> key in remaining || exists i :: 0 <= i < |out| && KeyOf(out[i]) == key)
  }

  lemma SortNext(aggregated: map<Key, Interval>, out: seq<Interval>, remaining: set<Key>, first: Key)
    requires Sorting(aggregated, out, remaining) && first in remaining && first in aggregated
    requires KeyOf(aggregated[first]) == first
    requires forall key :: key in remaining && key != first ==> Before(first, key)
    ensures Sorting(aggregated, out + [aggregated[first]], remaining - {first})
  {
    var after := out + [aggregated[first]];
    assert after[|out|] == aggregated[first];
    assert forall i :: 0 <= i < |out| ==> after[i] == out[i];
    forall key | key in aggregated
      ensures key in remaining - {first} || exists i :: 0 <= i < |after| && KeyOf(after[i]) == key
    {
      if key == first {
        assert KeyOf(after[|out|]) == key;
      } else if key !in remaining {
        var i :| 0 <= i < |out| && KeyOf(out[i]) == key;
        assert KeyOf(after[i]) == key;
      }
    }
  }

  // ---- the physical load of one quarter-hour ----

  datatype Bucket = Bucket(
    endAt: int,
    production: Option<real>,
    consumption: Option<real>,
    battery: Option<real>,
    gridImport: Option<real>,
    gridExport: Option<real>)

  datatype LoadPoint = LoadPoint(startAt: int, endAt: int, productionKwh: real, consumptionKwh: real)

  const NOISE := 0.000001

  /** The load by energy balance: the battery sign is positive for discharge. */
  function Reconstructed(b: Bucket): Option<real> {
    if b.production.Some? && b.gridImport.Some? && b.gridExport.Some? && b.battery.Some?
    then Some(Max(0.0, b.production.value + b.gridImport.value + b.battery.value - b.gridExport.value))
    else None
  }

  function Tolerance(consumption: real, reconstructed: real): real {
    Max(0.05, Max(Max(consumption, reconstructed), 0.0) * 0.05)
  }

  function Compared(b: Bucket): bool {
    b.consumption.Some? && Reconstructed(b).Some?
  }

  function Difference(b: Bucket): real
    requires Compared(b)
  {
    Abs(b.consumption.value - Reconstructed(b).value)
  }

  predicate MatchesBalance(b: Bucket) {
    Compared(b) ==> Difference(b) <= Tolerance(b.consumption.value, Reconstructed(b).value)
  }

  predicate UsesDirect(b: Bucket) {
    b.consumption.Some? && MatchesBalance(b)
  }

  function Load(b: Bucket): Option<real> {
    if UsesDirect(b) then b.consumption
    else if Reconstructed(b).Some? then Reconstructed(b)
    else b.consumption
  }

  predicate Kept(b: Bucket) {
    b.production.Some? && Load(b).Some? && Load(b).value >= -NOISE
  }

  function PointOf(at: int, b: Bucket): LoadPoint
    requires Kept(b)
  {
    LoadPoint(at, b.endAt, b.production.value, Max(0.0, Load(b).value))
  }

  // ---- buckets of a list of intervals ----

  function Put(bucket: Bucket, kind: Kind, kwh: real): Bucket {
    match kind
    case Production => bucket.(production := Some(kwh))
    case Consumption => bucket.(consumption := Some(kwh))
    case Battery => bucket.(battery := Some(kwh))
    case GridImport => bucket.(gridImport := Some(kwh))
    case GridExport => bucket.(gridExport := Some(kwh))
  }

  function AddInterval(buckets: map<int, Bucket>, interval: Interval): map<int, Bucket> {
    var bucket := if interval.startAt in buckets then buckets[interval.startAt]
                  else Bucket(interval.endAt, None, None, None, None, None);
    buckets[interval.startAt := Put(bucket, interval.kind, interval.kwh)]
  }

  function Buckets(intervals: seq<Interval>): map<int, Bucket> {
    if intervals == [] then map[]
    else AddInterval(Buckets(intervals[..|intervals| - 1]), intervals[|intervals| - 1])
  }

  // ---- the derived profile ----

  datatype Tally = Tally(
    direct: nat,
    reconstructed: nat,
    compared: nat,
    mismatched: nat,
    absoluteDifference: real)

  datatype Origin = DirectSiteLoad | PowerBalanceReconstructed | Hybrid

  datatype Provenance = Provenance(origin: Origin, tally: Tally)

  function CountBucket(tally: Tally, b: Bucket): Tally {
    if b.production.None? then tally
    else
      var compared := if !Compared(b) then tally
                      else tally.(compared := tally.compared + 1,
                                  absoluteDifference := tally.absoluteDifference + Difference(b),
                                  mismatched := tally.mismatched + if MatchesBalance(b) then 0 else 1);
      if !Kept(b) then compared
      else if UsesDirect(b) then compared.(direct := compared.direct + 1)
      else compared.(reconstructed := compared.reconstructed + 1)
  }

  function PointsOf(buckets: map<int, Bucket>, times: seq<int>): seq<LoadPoint>
    requires forall i :: 0 <= i < |times| ==> times[i] in buckets
  {
    if times == [] then []
    else
      var t := times[|times| - 1];
      PointsOf(buckets, times[..|times| - 1]) + if Kept(buckets[t]) then [PointOf(t, buckets[t])] else []
  }

  const NO_TALLY := Tally(0, 0, 0, 0, 0.0)

  function TallyOf(buckets: map<int, Bucket>, times: seq<int>): Tally
    requires forall i :: 0 <= i < |times| ==> times[i] in buckets
  {
    if times == [] then NO_TALLY
    else CountBucket(TallyOf(buckets, times[..|times| - 1]), buckets[times[|times| - 1]])
  }

  function OriginOf(tally: Tally): Origin {
    if tally.reconstructed == 0 then DirectSiteLoad
    else if tally.direct == 0 then PowerBalanceReconstructed
    else Hybrid
  }

  /** The start times of the intervals, each once, in order. */
  ghost function TimesOf(intervals: seq<Interval>): (times: seq<int>)
    ensures forall i :: 0 <= i < |times| ==> times[i] in Buckets(intervals)
  {
    var times := Ascending(Buckets(intervals).Keys);
    assert forall i :: 0 <= i < |times| ==> times[i] in times;
    times
  }

  ghost function ProfileOf(intervals: seq<Interval>): seq<LoadPoint> {
    PointsOf(Buckets(intervals), TimesOf(intervals))
  }

  method DeriveIndependentLoadProfile(intervals: seq<Interval>)
    returns (points: seq<LoadPoint>, provenance: Provenance)
    ensures points == ProfileOf(intervals)
    ensures var tally := TallyOf(Buckets(intervals), TimesOf(intervals));
      provenance == Provenance(OriginOf(tally), tally)
  {
    var buckets: map<int, Bucket> := map[];
    for i := 0 to |intervals|
      invariant buckets == Buckets(intervals[..i])
    {
      assert intervals[..i + 1][..i] == intervals[..i];
      buckets := AddInterval(buckets, intervals[i]);
    }
    assert intervals[..|intervals|] == intervals;
    var times := SortedTimes(buckets.Keys);
    assert forall i :: 0 <= i < |times| ==> times[i] in times;
    points, provenance := DerivePoints(buckets, times);
  }

  /** The second loop: every bucket in time order. */
  method DerivePoints(buckets: map<int, Bucket>, times: seq<int>)
    returns (points: seq<LoadPoint>, provenance: Provenance)
    requires forall i :: 0 <= i < |times| ==> times[i] in buckets
    ensures points == PointsOf(buckets, times)
    ensures provenance == Provenance(OriginOf(TallyOf(buckets, times)), TallyOf(buckets, times))
  {
    hide Reconstructed, Tolerance, Load, Compared, MatchesBalance, UsesDirect, Kept, Difference, PointOf;
    points := [];
    var direct, reconstructed, compared, mismatched, absoluteDifference := 0, 0, 0, 0, 0.0;
    for i := 0 to |times|
      invariant points == PointsOf(buckets, times[..i])
      invariant Tally(direct, reconstructed, compared, mismatched, absoluteDifference)
                == TallyOf(buckets, times[..i])
    {
      assert times[..i + 1][..i] == times[..i];
      var t := times[i];
      var bucket := buckets[t];
      if bucket.production.Some? {
        if Compared(bucket) {
          compared := compared + 1;
          absoluteDifference := absoluteDifference + Difference(bucket);
          if !MatchesBalance(bucket) {
            mismatched := mismatched + 1;
          }
        }
        if Kept(bucket) {
          if UsesDirect(bucket) {
            direct := direct + 1;
          } else {
            reconstructed := reconstructed + 1;
          }
          points := points + [PointOf(t, bucket)];
        }
      } else {
        NoProductionIsDropped(bucket);
      }
    }
    assert times[..|times|] == times;
    var tally := Tally(direct, reconstructed, compared, mismatched, absoluteDifference);
    provenance := Provenance(OriginOf(tally), tally);
  }

  lemma NoProductionIsDropped(b: Bucket)
    ensures b.production.None? ==> !Kept(b)
  {
  }

  /** What the provenance of a profile promises: every point was either measured
      directly or reconstructed, and a profile labelled as direct site load violated
      the energy balance nowhere it could be checked. */
  lemma {:induction false} ProvenanceIsHonest(buckets: map<int, Bucket>, times: seq<int>)
    requires forall i :: 0 <= i < |times| ==> times[i] in buckets
    ensures var tally := TallyOf(buckets, times);
      && tally.direct + tally.reconstructed == |PointsOf(buckets, times)|
      && tally.mismatched <= tally.compared && tally.mismatched <= tally.reconstructed
      && (OriginOf(tally).DirectSiteLoad? ==>
            forall i :: 0 <= i < |times| && buckets[times[i]].production.Some? ==> MatchesBalance(buckets[times[i]]))
  {
    if times != [] {
      var init, t := times[..|times| - 1], times[|times| - 1];
      ProvenanceIsHonest(buckets, init);
      assert times == init + [t];
      MismatchIsReconstructed(buckets[t]);
      hide Kept, UsesDirect, MatchesBalance, Compared, Difference, PointOf;
    }
  }

  lemma MismatchIsReconstructed(b: Bucket)
    ensures b.production.Some? && !MatchesBalance(b) ==> Compared(b) && Kept(b) && !UsesDirect(b)
  {
  }
}
