/** The gap-free quarter-hour grid of imported day-ahead prices. */
module MarketGrid {
  import opened Basics

  const QUARTER := 15 * 60000
  const MINIMUM_ROWS := 96

  datatype Row = Row(startAt: int, endAt: int, priceCzkMwh: real)

  datatype ImportError = Insufficient

  /** Stable sorting by start: a row goes after every row that does not start later. */
  function InsertRow(sorted: seq<Row>, row: Row): (r: seq<Row>)
    ensures |r| == |sorted| + 1
  {
    if sorted == [] then [row]
    else if row.startAt < sorted[0].startAt then [row] + sorted
    else [sorted[0]] + InsertRow(sorted[1..], row)
  }

  function SortRows(rows: seq<Row>): (r: seq<Row>)
    ensures |r| == |rows|
  {
    if rows == [] then [] else InsertRow(SortRows(rows[..|rows| - 1]), rows[|rows| - 1])
  }

  /** `byStart.get(at)`: of several rows with one start the last. */
  function LookUp(rows: seq<Row>, at: int): Option<Row> {
    if rows == [] then None
    else if rows[|rows| - 1].startAt == at then Some(rows[|rows| - 1])
    else LookUp(rows[..|rows| - 1], at)
  }

  /** The running price after slot `k`. */
  function PriceAt(sorted: seq<Row>, k: nat): real
    requires sorted != []
  {
    var row := LookUp(sorted, sorted[0].startAt + k * QUARTER);
    if row.Some? then row.value.priceCzkMwh
    else if k == 0 then sorted[0].priceCzkMwh
    else PriceAt(sorted, k - 1)
  }

  function SlotAt(sorted: seq<Row>, k: nat): Row
    requires sorted != []
  {
    var at := sorted[0].startAt + k * QUARTER;
    Row(at, at + QUARTER, PriceAt(sorted, k))
  }

  function ByStart(sorted: seq<Row>): map<int, Row> {
    if sorted == [] then map[]
    else ByStart(sorted[..|sorted| - 1])[sorted[|sorted| - 1].startAt := sorted[|sorted| - 1]]
  }

  lemma {:induction false} ByStartIsLookUp(sorted: seq<Row>, at: int)
    ensures LookUp(sorted, at) == if at in ByStart(sorted) then Some(ByStart(sorted)[at]) else None
  {
    if sorted != [] {
      ByStartIsLookUp(sorted[..|sorted| - 1], at);
    }
  }

  method Normalize(rows: seq<Row>) returns (result: Result<seq<Row>, ImportError>)
    ensures |rows| < MINIMUM_ROWS <==> result == Err(Insufficient)
    ensures result.Ok? ==>
      var sorted, grid := SortRows(rows), result.value;
      && (forall k :: 0 <= k < |grid| ==> grid[k] == SlotAt(sorted, k))
      && (grid != [] ==> sorted[0].startAt + (|grid| - 1) * QUARTER < sorted[|sorted| - 1].endAt)
      && sorted[|sorted| - 1].endAt <= sorted[0].startAt + |grid| * QUARTER
  {
    var sorted := SortRows(rows);
    if |sorted| < MINIMUM_ROWS {
      return Err(Insufficient);
    }
    var byStart := ByStart(sorted);
    var validFrom, validTo := sorted[0].startAt, sorted[|sorted| - 1].endAt;
    var normalized: seq<Row> := [];
    var previousPrice := sorted[0].priceCzkMwh;
    var timestamp := validFrom;
    while timestamp < validTo
      invariant timestamp == validFrom + |normalized| * QUARTER
      invariant normalized != [] ==> timestamp - QUARTER < validTo
      invariant previousPrice == if normalized == [] then sorted[0].priceCzkMwh else PriceAt(sorted, |normalized| - 1)
      invariant forall k :: 0 <= k < |normalized| ==> normalized[k] == SlotAt(sorted, k)
    {
      ByStartIsLookUp(sorted, timestamp);
      if timestamp in byStart {
        previousPrice := byStart[timestamp].priceCzkMwh;
      }
      normalized := normalized + [Row(timestamp, timestamp + QUARTER, previousPrice)];
      timestamp := timestamp + QUARTER;
    }
    result := Ok(normalized);
  }

  // ---- what the grid means ----

  ghost predicate SortedByStart(rows: seq<Row>) {
    forall i, j :: 0 <= i < j < |rows| ==> rows[i].startAt <= rows[j].startAt
  }

  lemma FirstStaysFirst(first: Row, rest: seq<Row>)
    requires SortedByStart(rest) && forall i :: 0 <= i < |rest| ==> first.startAt <= rest[i].startAt
    ensures SortedByStart([first] + rest)
  {
  }

  lemma {:induction false} InsertRowKeeps(sorted: seq<Row>, row: Row)
    ensures multiset(InsertRow(sorted, row)) == multiset(sorted) + multiset{row}
  {
    if sorted != [] && row.startAt >= sorted[0].startAt {
      InsertRowKeeps(sorted[1..], row);
      assert sorted == [sorted[0]] + sorted[1..];
    }
  }

  /** Whatever bounds the rows and the new one bounds the result. */
  lemma InsertRowBound(sorted: seq<Row>, row: Row, least: int)
    requires least <= row.startAt && forall i :: 0 <= i < |sorted| ==> least <= sorted[i].startAt
    ensures forall i :: 0 <= i < |InsertRow(sorted, row)| ==> least <= InsertRow(sorted, row)[i].startAt
  {
    InsertRowKeeps(sorted, row);
    var r := InsertRow(sorted, row);
    hide InsertRow;
    forall i | 0 <= i < |r| ensures least <= r[i].startAt {
      assert r[i] in multiset(r);
      assert r[i] == row || r[i] in sorted;
    }
  }

  lemma {:induction false} InsertRowSorts(sorted: seq<Row>, row: Row)
    requires SortedByStart(sorted)
    ensures SortedByStart(InsertRow(sorted, row))
  {
    if sorted == [] {
    } else if row.startAt < sorted[0].startAt {
      assert forall i :: 0 <= i < |sorted| ==> sorted[0].startAt <= sorted[i].startAt;
      FirstStaysFirst(row, sorted);
    } else {
      InsertRowSorts(sorted[1..], row);
      assert forall i :: 0 < i < |sorted| ==> sorted[0].startAt <= sorted[i].startAt;
      InsertRowBound(sorted[1..], row, sorted[0].startAt);
      hide SortedByStart;
      FirstStaysFirst(sorted[0], InsertRow(sorted[1..], row));
    }
  }

  lemma {:induction false} InsertedRowIsFound(sorted: seq<Row>, row: Row, at: int)
    requires SortedByStart(sorted)
    ensures LookUp(InsertRow(sorted, row), at) == if row.startAt == at then Some(row) else LookUp(sorted, at)
  {
    hide LookUp;
    if sorted == [] || row.startAt < sorted[0].startAt {
      assert InsertRow(sorted, row) == [row] + sorted;
      LookUpAfterFirst(row, sorted, at);
      if row.startAt == at {
        LookUpMissing(sorted, at);
      }
    } else {
      InsertedRowIsFound(sorted[1..], row, at);
      assert sorted == [sorted[0]] + sorted[1..];
      LookUpAfterFirst(sorted[0], InsertRow(sorted[1..], row), at);
      LookUpAfterFirst(sorted[0], sorted[1..], at);
    }
  }

  lemma {:induction false} LookUpAfterFirst(first: Row, rest: seq<Row>, at: int)
    ensures LookUp([first] + rest, at)
      == if LookUp(rest, at).Some? then LookUp(rest, at) else if first.startAt == at then Some(first) else None
  {
    if rest == [] {
      assert [first] + rest == [first];
      assert [first][..0] == [];
    } else {
      LookUpAfterFirst(first, rest[..|rest| - 1], at);
      assert ([first] + rest)[..|rest|] == [first] + rest[..|rest| - 1];
    }
  }

  lemma {:induction false} LookUpMissing(rows: seq<Row>, at: int)
    requires forall i :: 0 <= i < |rows| ==> rows[i].startAt != at
    ensures LookUp(rows, at).None?
  {
    if rows != [] {
      LookUpMissing(rows[..|rows| - 1], at);
    }
  }

  /** Sorting keeps all rows, and of several rows for one start the one read last in the
      input still wins. */
  lemma {:induction false} SortKeepsRows(rows: seq<Row>, at: int)
    ensures SortedByStart(SortRows(rows)) && multiset(SortRows(rows)) == multiset(rows)
    ensures LookUp(SortRows(rows), at) == LookUp(rows, at)
  {
    if rows != [] {
      var init, last := rows[..|rows| - 1], rows[|rows| - 1];
      SortKeepsRows(init, at);
      InsertRowSorts(SortRows(init), last);
      InsertRowKeeps(SortRows(init), last);
      InsertedRowIsFound(SortRows(init), last, at);
      assert rows == init + [last];
    }
  }

  function GridTime(sorted: seq<Row>, k: int): int
    requires sorted != []
  {
    sorted[0].startAt + k * QUARTER
  }

  lemma {:induction false} LatestSlotWithRow(sorted: seq<Row>, k: nat) returns (m: nat)
    requires sorted != []
    ensures m <= k && LookUp(sorted, GridTime(sorted, m)).Some?
    ensures PriceAt(sorted, k) == LookUp(sorted, GridTime(sorted, m)).value.priceCzkMwh
    ensures forall i :: m < i <= k ==> LookUp(sorted, GridTime(sorted, i)).None?
    decreases k
  {
    hide LookUp;
    FirstStartIsFound(sorted, 0);
    if LookUp(sorted, GridTime(sorted, k)).Some? {
      m := k;
    } else {
      assert GridTime(sorted, 0) == sorted[0].startAt;
      m := LatestSlotWithRow(sorted, k - 1);
    }
  }

  /** LAST KNOWN PRICE. Every slot of the grid carries the price of the latest slot at or
      before it for which the input had a row; rows that start off the grid are ignored. */
  lemma SlotHasLastKnownPrice(rows: seq<Row>, k: nat) returns (m: nat)
    requires rows != []
    ensures var sorted := SortRows(rows);
      && m <= k
      && LookUp(rows, GridTime(sorted, m)).Some?
      && PriceAt(sorted, k) == LookUp(rows, GridTime(sorted, m)).value.priceCzkMwh
      && forall i :: m < i <= k ==> LookUp(rows, GridTime(sorted, i)).None?
  {
    hide LookUp, PriceAt, SortRows;
    var sorted := SortRows(rows);
    m := LatestSlotWithRow(sorted, k);
    SortKeepsRows(rows, GridTime(sorted, m));
    forall i | m < i <= k ensures LookUp(rows, GridTime(sorted, i)).None? {
      SortKeepsRows(rows, GridTime(sorted, i));
    }
  }

  lemma {:induction false} FirstStartIsFound(rows: seq<Row>, i: nat)
    requires i < |rows|
    ensures LookUp(rows, rows[i].startAt).Some?
  {
    if i < |rows| - 1 {
      FirstStartIsFound(rows[..|rows| - 1], i);
    }
  }
}
