/** The chart query that aggregates in PostgreSQL what the analysis loops compute, and
    the proof that both see the same site. */
module SiteSeries {
  import opened Basics
  import opened Timestamps
  import opened LoadProfile

  // ---- the query, as a function of a bag of rows ----

  function AddRow(sum: Option<real>, row: Interval, key: Key): Option<real> {
    if KeyOf(row) != key then sum
    else Some(row.kwh + if sum.Some? then sum.value else 0.0)
  }

  /** `SUM("kwh") FILTER (...)` within one start time; NULL when no row matches. */
  ghost function SqlSum(table: multiset<Interval>, key: Key): Option<real>
    decreases |table|
  {
    if table == multiset{} then None
    else
      var row :| row in table;
      AddRow(SqlSum(table - multiset{row}, key), row, key)
  }

  datatype SiteRow = SiteRow(
    production: Option<real>,
    consumption: Option<real>,
    battery: Option<real>,
    gridImport: Option<real>,
    gridExport: Option<real>)

  ghost function SiteRowAt(table: multiset<Interval>, at: int): SiteRow {
    SiteRow(
      SqlSum(table, (at, Production)),
      SqlSum(table, (at, Consumption)),
      SqlSum(table, (at, Battery)),
      SqlSum(table, (at, GridImport)),
      SqlSum(table, (at, GridExport)))
  }

  /** The CASE expression; a comparison with NULL is not true. */
  function PhysicalConsumption(row: SiteRow): Option<real>
    requires row.production.Some?
  {
    if row.gridImport.Some? && row.gridExport.Some? && row.battery.Some? then
      var balance := Max(0.0, row.production.value + row.gridImport.value + row.battery.value - row.gridExport.value);
      if row.consumption.None?
         || Abs(row.consumption.value - balance)
            > Max(0.05, Max(row.consumption.value, Max(balance, 0.0)) * 0.05)
      then Some(balance)
      else row.consumption
    else row.consumption
  }

  predicate InBucketed(row: SiteRow) {
    && row.production.Some?
    && PhysicalConsumption(row).Some?
    && PhysicalConsumption(row).value >= -0.000001
  }

  datatype PhysicalRow = PhysicalRow(at: int, production: real, consumption: real)

  /** `GROUP BY "startAt"`: the start times that occur. */
  ghost function StartTimes(table: multiset<Interval>): set<int> {
    set row | row in table :: row.startAt
  }

  /** The `bucketed` rows of the given start times. */
  ghost function BucketedRows(table: multiset<Interval>, times: seq<int>): seq<PhysicalRow> {
    if times == [] then []
    else
      var t := times[|times| - 1];
      var row := SiteRowAt(table, t);
      BucketedRows(table, times[..|times| - 1])
      + if InBucketed(row)
        then [PhysicalRow(t, row.production.value, PhysicalConsumption(row).value)]
        else []
  }

  // ---- sums do not depend on the order of rows ----

  lemma {:induction false} SqlSumPicks(table: multiset<Interval>, row: Interval, key: Key)
    requires row in table
    ensures SqlSum(table, key) == AddRow(SqlSum(table - multiset{row}, key), row, key)
    decreases |table|
  {
    hide AddRow;
    var first :| first in table && SqlSum(table, key) == AddRow(SqlSum(table - multiset{first}, key), first, key);
    if first != row {
      var rest := table - multiset{first} - multiset{row};
      SqlSumPicks(table - multiset{first}, row, key);
      SqlSumPicks(table - multiset{row}, first, key);
      assert table - multiset{row} - multiset{first} == rest;
      AddRowSwaps(SqlSum(rest, key), first, row, key);
    }
  }

  lemma AddRowSwaps(sum: Option<real>, a: Interval, b: Interval, key: Key)
    ensures AddRow(AddRow(sum, a, key), b, key) == AddRow(AddRow(sum, b, key), a, key)
  {
  }

  function KwhOf(merged: Option<Interval>): Option<real> {
    match merged
    case None => None
    case Some(interval) => Some(interval.kwh)
  }

  lemma MergedAddsRow(rows: seq<Interval>, key: Key)
    requires rows != []
    ensures KwhOf(Merged(rows, key)) == AddRow(KwhOf(Merged(rows[..|rows| - 1], key)), rows[|rows| - 1], key)
  {
  }

  /** The aggregation loop adds up what the query adds up. */
  lemma {:induction false} LoopSumsLikeSql(rows: seq<Interval>, key: Key)
    ensures SqlSum(multiset(rows), key) == KwhOf(Merged(rows, key))
  {
    if rows != [] {
      hide SqlSum, KwhOf, Merged, AddRow;
      var init, last := rows[..|rows| - 1], rows[|rows| - 1];
      LoopSumsLikeSql(init, key);
      MergedAddsRow(rows, key);
      assert rows == init + [last];
      assert multiset(rows) - multiset{last} == multiset(init);
      SqlSumPicks(multiset(rows), last, key);
    }
  }

  // ---- the buckets of an aggregate ----

  function Latest(intervals: seq<Interval>, key: Key): Option<real> {
    if intervals == [] then None
    else if KeyOf(intervals[|intervals| - 1]) == key then Some(intervals[|intervals| - 1].kwh)
    else Latest(intervals[..|intervals| - 1], key)
  }

  function Channel(b: Bucket, kind: Kind): Option<real> {
    match kind
    case Production => b.production
    case Consumption => b.consumption
    case Battery => b.battery
    case GridImport => b.gridImport
    case GridExport => b.gridExport
  }

  lemma {:induction false} BucketsHoldLatest(intervals: seq<Interval>, t: int, kind: Kind)
    ensures t in Buckets(intervals) ==> Channel(Buckets(intervals)[t], kind) == Latest(intervals, (t, kind))
    ensures t in Buckets(intervals) <==> exists i :: 0 <= i < |intervals| && intervals[i].startAt == t
    ensures t !in Buckets(intervals) ==> Latest(intervals, (t, kind)).None?
  {
    if intervals != [] {
      var init, last := intervals[..|intervals| - 1], intervals[|intervals| - 1];
      BucketsHoldLatest(init, t, kind);
      assert intervals == init + [last];
    }
  }

  lemma {:induction false} LatestOfUnique(intervals: seq<Interval>, i: nat)
    requires i < |intervals|
    requires forall a, b :: 0 <= a < b < |intervals| ==> Before(KeyOf(intervals[a]), KeyOf(intervals[b]))
    ensures Latest(intervals, KeyOf(intervals[i])) == Some(intervals[i].kwh)
  {
    if i < |intervals| - 1 {
      assert Before(KeyOf(intervals[i]), KeyOf(intervals[|intervals| - 1]));
      LatestOfUnique(intervals[..|intervals| - 1], i);
    }
  }

  lemma {:induction false} LatestMissing(intervals: seq<Interval>, key: Key)
    requires forall i :: 0 <= i < |intervals| ==> KeyOf(intervals[i]) != key
    ensures Latest(intervals, key).None?
  {
    if intervals != [] {
      LatestMissing(intervals[..|intervals| - 1], key);
    }
  }

  /** Every channel of every bucket is the SQL sum of that channel. */
  lemma ChannelIsSqlSum(rows: seq<Interval>, out: seq<Interval>, t: int, kind: Kind)
    requires IsAggregate(rows, out)
    ensures t in Buckets(out) ==> Channel(Buckets(out)[t], kind) == SqlSum(multiset(rows), (t, kind))
    ensures t !in Buckets(out) ==> SqlSum(multiset(rows), (t, kind)).None?
  {
    hide Buckets, Merged, SqlSum, Before, Latest;
    var key := (t, kind);
    BucketsHoldLatest(out, t, kind);
    LoopSumsLikeSql(rows, key);
    if i :| 0 <= i < |out| && KeyOf(out[i]) == key {
      LatestOfUnique(out, i);
      assert Merged(rows, key) == Some(out[i]);
    } else {
      LatestMissing(out, key);
    }
  }

  lemma {:induction false} MergedExists(rows: seq<Interval>, i: nat)
    requires i < |rows|
    ensures Merged(rows, KeyOf(rows[i])).Some?
  {
    if i < |rows| - 1 {
      MergedExists(rows[..|rows| - 1], i);
    }
  }

  lemma {:induction false} MergedHasSource(rows: seq<Interval>, key: Key) returns (i: nat)
    requires Merged(rows, key).Some?
    ensures i < |rows| && KeyOf(rows[i]) == key
  {
    if KeyOf(rows[|rows| - 1]) == key {
      i := |rows| - 1;
    } else {
      i := MergedHasSource(rows[..|rows| - 1], key);
    }
  }

  /** Both sides group by the same start times. */
  lemma SameTimes(rows: seq<Interval>, out: seq<Interval>)
    requires IsAggregate(rows, out)
    ensures Buckets(out).Keys == StartTimes(multiset(rows))
  {
    hide Buckets, Merged, Latest;
    forall t ensures t in Buckets(out) <==> t in StartTimes(multiset(rows)) {
      BucketsHoldLatest(out, t, Production);
      if t in Buckets(out) {
        var i :| 0 <= i < |out| && out[i].startAt == t;
        assert Merged(rows, KeyOf(out[i])) == Some(out[i]);
        var j := MergedHasSource(rows, KeyOf(out[i]));
        assert rows[j] in multiset(rows);
      }
      if t in StartTimes(multiset(rows)) {
        var row :| row in multiset(rows) && row.startAt == t;
        assert row in rows;
        var j :| 0 <= j < |rows| && rows[j] == row;
        MergedExists(rows, j);
        var i :| 0 <= i < |out| && KeyOf(out[i]) == KeyOf(row);
        assert out[i].startAt == t;
      }
    }
  }

  // ---- the refinement ----

  function RowOf(b: Bucket): SiteRow {
    SiteRow(b.production, b.consumption, b.battery, b.gridImport, b.gridExport)
  }

  /** Bucket by bucket, the CASE expression and the loop agree up to the clamp at zero. */
  lemma CaseAgreesWithLoop(b: Bucket)
    ensures InBucketed(RowOf(b)) <==> Kept(b)
    ensures Kept(b) ==> Load(b) == PhysicalConsumption(RowOf(b))
  {
  }

  predicate SamePoint(point: LoadPoint, row: PhysicalRow) {
    && point.startAt == row.at
    && point.productionKwh == row.production
    && point.consumptionKwh == Max(0.0, row.consumption)
    && row.consumption >= -NOISE
  }

  lemma {:induction false} PointsMatchRows(rows: seq<Interval>, out: seq<Interval>, times: seq<int>)
    requires IsAggregate(rows, out)
    requires forall i :: 0 <= i < |times| ==> times[i] in Buckets(out)
    ensures var points := PointsOf(Buckets(out), times);
      var kept := BucketedRows(multiset(rows), times);
      && |points| == |kept|
      && forall i :: 0 <= i < |points| ==> SamePoint(points[i], kept[i])
  {
    hide IsAggregate, Buckets, SqlSum, Kept, InBucketed, Load, PhysicalConsumption;
    if times != [] {
      var init, t := times[..|times| - 1], times[|times| - 1];
      PointsMatchRows(rows, out, init);
      SiteRowIsBucket(rows, out, t);
      LastPointMatches(rows, out, t);
    }
  }

  lemma SiteRowIsBucket(rows: seq<Interval>, out: seq<Interval>, t: int)
    requires IsAggregate(rows, out) && t in Buckets(out)
    ensures SiteRowAt(multiset(rows), t) == RowOf(Buckets(out)[t])
  {
    hide IsAggregate, Buckets, SqlSum;
    ChannelIsSqlSum(rows, out, t, Production);
    ChannelIsSqlSum(rows, out, t, Consumption);
    ChannelIsSqlSum(rows, out, t, Battery);
    ChannelIsSqlSum(rows, out, t, GridImport);
    ChannelIsSqlSum(rows, out, t, GridExport);
  }

  lemma LastPointMatches(rows: seq<Interval>, out: seq<Interval>, t: int)
    requires t in Buckets(out)
    ensures var b := Buckets(out)[t];
      && (InBucketed(RowOf(b)) <==> Kept(b))
      && (Kept(b) ==> SamePoint(PointOf(t, b),
                                PhysicalRow(t, b.production.value, PhysicalConsumption(RowOf(b)).value)))
  {
    hide Buckets;
    CaseAgreesWithLoop(Buckets(out)[t]);
  }

  /** All `bucketed` rows of a table, in time order. */
  ghost function QueryRows(table: multiset<Interval>): seq<PhysicalRow> {
    BucketedRows(table, Ascending(StartTimes(table)))
  }

  ghost predicate SameSeries(points: seq<LoadPoint>, kept: seq<PhysicalRow>) {
    |points| == |kept| && forall i :: 0 <= i < |points| ==> SamePoint(points[i], kept[i])
  }

  /** THE REFINEMENT. For any rows in any order, the query keeps exactly the quarter-hours
      the loops keep, with the same production, and with a consumption that differs at
      most by the clamp of a reading above -0.000001 kWh. */
  lemma FastPathRefinesLoops(rows: seq<Interval>, out: seq<Interval>)
    requires IsAggregate(rows, out)
    ensures SameSeries(ProfileOf(out), QueryRows(multiset(rows)))
  {
    hide IsAggregate, Buckets, BucketedRows, PointsOf, SamePoint;
    SameTimes(rows, out);
    var times := Ascending(Buckets(out).Keys);
    forall i | 0 <= i < |times| ensures times[i] in Buckets(out) {
      assert times[i] in times;
    }
    PointsMatchRows(rows, out, times);
  }

  // ---- the order of the rows ----

  lemma {:induction false} MergedEndIsLatest(rows: seq<Interval>, key: Key)
    requires Merged(rows, key).Some?
    ensures var end := Merged(rows, key).value.endAt;
      && (forall row :: row in multiset(rows) && KeyOf(row) == key ==> row.endAt <= end)
      && (exists row :: row in multiset(rows) && KeyOf(row) == key && row.endAt == end)
  {
    var init, last := rows[..|rows| - 1], rows[|rows| - 1];
    assert rows == init + [last];
    assert multiset(rows) == multiset(init) + multiset{last};
    if Merged(init, key).Some? {
      MergedEndIsLatest(init, key);
    } else {
      forall row | row in multiset(rows) && KeyOf(row) == key ensures row == last {
        if row in multiset(init) {
          var i :| 0 <= i < |init| && init[i] == row;
          MergedExists(init, i);
        }
      }
    }
  }

  /** The merged interval of a key is determined by the bag of rows. */
  lemma MergedIgnoresOrder(rows: seq<Interval>, others: seq<Interval>, key: Key)
    requires multiset(rows) == multiset(others)
    ensures Merged(rows, key) == Merged(others, key)
  {
    LoopSumsLikeSql(rows, key);
    LoopSumsLikeSql(others, key);
    if Merged(rows, key).Some? {
      MergedEndIsLatest(rows, key);
      MergedEndIsLatest(others, key);
      MergedKey(rows, key);
      MergedKey(others, key);
      hide Merged;
    }
  }

  ghost predicate InKeyOrder(out: seq<Interval>) {
    forall i, j :: 0 <= i < j < |out| ==> Before(KeyOf(out[i]), KeyOf(out[j]))
  }

  /** Two lists of the same intervals in key order are the same list. */
  lemma {:induction false} KeyOrderIsUnique(a: seq<Interval>, b: seq<Interval>)
    requires InKeyOrder(a) && InKeyOrder(b) && forall x :: x in a <==> x in b
    ensures a == b
  {
    if a != [] || b != [] {
      assert a != [] ==> a[0] in b;
      assert b != [] ==> b[0] in a;
      var x, y := a[|a| - 1], b[|b| - 1];
      assert x in b && y in a;
      assert x == y;
      var a', b' := a[..|a| - 1], b[..|b| - 1];
      assert a == a' + [x] && b == b' + [y];
      forall z ensures z in a' <==> z in b' {
        assert z in a <==> z in b;
        assert x !in a' && y !in b';
      }
      KeyOrderIsUnique(a', b');
    }
  }

  /** ORDER DOES NOT MATTER. Lists with the same rows in different orders have the same
      aggregate, and so the same derived profile. */
  lemma OrderDoesNotMatter(rows: seq<Interval>, others: seq<Interval>, out: seq<Interval>, otherOut: seq<Interval>)
    requires multiset(rows) == multiset(others) && IsAggregate(rows, out) && IsAggregate(others, otherOut)
    ensures out == otherOut
  {
    hide Merged, Before;
    forall key ensures Merged(rows, key) == Merged(others, key) {
      MergedIgnoresOrder(rows, others, key);
    }
    forall x ensures x in out <==> x in otherOut {
      SameMembers(rows, others, out, otherOut, x);
      SameMembers(others, rows, otherOut, out, x);
    }
    KeyOrderIsUnique(out, otherOut);
  }

  lemma SameMembers(rows: seq<Interval>, others: seq<Interval>, out: seq<Interval>, otherOut: seq<Interval>,
                    x: Interval)
    requires IsAggregate(rows, out) && IsAggregate(others, otherOut)
    requires forall key :: Merged(rows, key) == Merged(others, key)
    ensures x in out ==> x in otherOut
  {
    hide Merged, Before;
    if x in out {
      var i :| 0 <= i < |out| && out[i] == x;
      assert Merged(others, KeyOf(x)) == Some(x);
      var j :| 0 <= j < |otherOut| && KeyOf(otherOut[j]) == KeyOf(x);
      assert otherOut[j] in otherOut;
    }
  }

  // ---- chart buckets ----

  function RowsIn(kept: seq<PhysicalRow>, bucket: int -> int, at: int): nat {
    if kept == [] then 0
    else RowsIn(kept[..|kept| - 1], bucket, at) + if bucket(kept[|kept| - 1].at) == at then 1 else 0
  }

  function ProductionIn(kept: seq<PhysicalRow>, bucket: int -> int, at: int): real {
    if kept == [] then 0.0
    else
      var last := kept[|kept| - 1];
      ProductionIn(kept[..|kept| - 1], bucket, at) + if bucket(last.at) == at then last.production else 0.0
  }

  function ConsumptionIn(kept: seq<PhysicalRow>, bucket: int -> int, at: int): real {
    if kept == [] then 0.0
    else
      var last := kept[|kept| - 1];
      ConsumptionIn(kept[..|kept| - 1], bucket, at) + if bucket(last.at) == at then last.consumption else 0.0
  }

  function PointRow(point: LoadPoint): PhysicalRow {
    PhysicalRow(point.startAt, point.productionKwh, point.consumptionKwh)
  }

  function PointRows(points: seq<LoadPoint>): (rows: seq<PhysicalRow>)
    ensures |rows| == |points|
  {
    seq(|points|, i requires 0 <= i < |points| => PointRow(points[i]))
  }

  /** For every truncation of time to chart buckets: equal production and interval
      counts, and a consumption that is low by at most 0.000001 kWh per interval. */
  lemma {:induction false} ChartBucketsAgree(points: seq<LoadPoint>, kept: seq<PhysicalRow>, bucket: int -> int,
                                             at: int)
    requires SameSeries(points, kept)
    ensures var loop := PointRows(points);
      && RowsIn(kept, bucket, at) == RowsIn(loop, bucket, at)
      && ProductionIn(kept, bucket, at) == ProductionIn(loop, bucket, at)
      && 0.0 <= ConsumptionIn(loop, bucket, at) - ConsumptionIn(kept, bucket, at)
             <= NOISE * RowsIn(kept, bucket, at) as real
  {
    if points != [] {
      var n := |points| - 1;
      ChartBucketsAgree(points[..n], kept[..n], bucket, at);
      assert PointRows(points)[..n] == PointRows(points[..n]);
      assert SamePoint(points[n], kept[n]);
    }
  }
}
