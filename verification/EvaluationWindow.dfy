/** Which period an analysis evaluates: the whole window, or the longest unbroken block
    of complete calendar months. */
module EvaluationWindow {
  import opened PragueTime

  const ANNUAL_MINIMUM_DAYS := 300.0
  const COMPLETE_MONTH_PERCENT := 90.0

  datatype Month = Month(year: int, month: int)

  datatype MonthCoverage = MonthCoverage(month: Month, coveragePercent: real)

  datatype Window = Window(from: int, to: int, annual: bool, months: seq<Month>)

  predicate RealMonth(m: Month) {
    1 <= m.month <= 12
  }

  function MonthIndex(m: Month): int {
    m.year * 12 + (m.month - 1)
  }

  function MonthStart(offset: int -> int, m: Month): int {
    PragueMonthStart(offset, m.year, m.month)
  }

  function MonthEnd(offset: int -> int, m: Month): int {
    PragueMonthStart(offset, NextYear(m.year, m.month), NextMonth(m.month))
  }

  // ---- the longest block ----

  predicate Follows(previous: Month, next: Month) {
    MonthIndex(next) == MonthIndex(previous) + 1
  }

  /** `months[i..j]` is unbroken. */
  ghost predicate Unbroken(months: seq<Month>, i: int, j: int) {
    0 <= i <= j <= |months| && forall k :: i < k < j ==> Follows(months[k - 1], months[k])
  }

  /** The longest unbroken stretch, the latest one if several are equally long. */
  ghost predicate LongestUnbroken(months: seq<Month>, i: nat, j: nat) {
    && Unbroken(months, i, j)
    && forall a, b :: Unbroken(months, a, b) ==> b - a < j - i || (b - a == j - i && b <= j)
  }

  /** The unbroken stretch that ends the list begins at `start`. */
  ghost predicate EndsWithBlock(months: seq<Month>, start: int) {
    Unbroken(months, start, |months|) && forall a :: Unbroken(months, a, |months|) ==> start <= a
  }

  lemma ExtendUnbroken(months: seq<Month>, start: nat, n: nat)
    requires n < |months| && EndsWithBlock(months[..n], start)
    ensures EndsWithBlock(months[..n + 1], if start < n && Follows(months[n - 1], months[n]) then start else n)
  {
    var next := if start < n && Follows(months[n - 1], months[n]) then start else n;
    var longer := months[..n + 1];
    assert longer[..n] == months[..n];
    forall a | Unbroken(longer, a, |longer|) ensures next <= a {
      if a < n {
        assert Unbroken(months[..n], a, |months[..n]|);
        assert Follows(longer[n - 1], longer[n]);
      }
    }
  }

  lemma UnbrokenPrefix(months: seq<Month>, n: nat, a: nat, b: nat)
    requires b <= n <= |months|
    ensures Unbroken(months[..n], a, b) <==> Unbroken(months, a, b)
  {
  }

  lemma BestSoFar(months: seq<Month>, n: nat, start: nat, i: nat, j: nat)
    requires n < |months| && LongestUnbroken(months[..n], i, j)
    requires EndsWithBlock(months[..n + 1], start)
    ensures if n + 1 - start >= j - i then LongestUnbroken(months[..n + 1], start, n + 1)
            else LongestUnbroken(months[..n + 1], i, j)
  {
    var longer := months[..n + 1];
    assert longer[..n] == months[..n];
    forall a, b | Unbroken(longer, a, b)
      ensures (b <= n && (b - a < j - i || (b - a == j - i && b <= j)))
        || (b == n + 1 && b - a <= n + 1 - start)
    {
      if b <= n {
        UnbrokenPrefix(longer, n, a, b);
      }
    }
    UnbrokenPrefix(longer, n, i, j);
  }

  /** `longestConsecutiveBlock`: the running block is extended or restarted, and the best
      one kept, later ones winning ties. */
  method LongestConsecutiveBlock(months: seq<Month>) returns (best: seq<Month>, ghost i: nat, ghost j: nat)
    ensures LongestUnbroken(months, i, j) && best == months[i..j]
    ensures months != [] ==> best != []
  {
    best := [];
    var current: seq<Month> := [];
    i, j := 0, 0;
    ghost var start: nat := 0;
    for n := 0 to |months|
      invariant EndsWithBlock(months[..n], start) && start <= n && current == months[start..n]
      invariant n > 0 ==> start < n
      invariant LongestUnbroken(months[..n], i, j) && best == months[i..j]
      invariant n > 0 ==> i < j
    {
      ExtendUnbroken(months, start, n);
      var month := months[n];
      if current != [] && Follows(current[|current| - 1], month) {
        current := current + [month];
      } else {
        current := [month];
        start := n;
      }
      assert current == months[start..n + 1];
      BestSoFar(months, n, start, i, j);
      if |current| >= |best| {
        best := current;
        i, j := start, n + 1;
      }
    }
    assert months[..|months|] == months;
  }

  /** There is only one longest block, so the method has no choice. */
  lemma LongestIsUnique(months: seq<Month>, i: nat, j: nat, a: nat, b: nat)
    requires LongestUnbroken(months, i, j) && LongestUnbroken(months, a, b)
    ensures i == a && j == b
  {
  }

  // ---- the complete months ----

  /** Ninety percent covered, and over before the window ends. */
  predicate Complete(offset: int -> int, item: MonthCoverage, windowTo: int) {
    item.coveragePercent >= COMPLETE_MONTH_PERCENT && MonthEnd(offset, item.month) <= windowTo
  }

  function CompleteMonths(offset: int -> int, coverage: seq<MonthCoverage>, windowTo: int): seq<Month> {
    if coverage == [] then []
    else
      CompleteMonths(offset, coverage[..|coverage| - 1], windowTo)
      + if Complete(offset, coverage[|coverage| - 1], windowTo) then [coverage[|coverage| - 1].month] else []
  }

  /** `.sort()` on "YYYY-MM" keys is the order of the months. */
  function InsertMonth(sorted: seq<Month>, m: Month): seq<Month> {
    if sorted == [] then [m]
    else if MonthIndex(m) < MonthIndex(sorted[0]) then [m] + sorted
    else [sorted[0]] + InsertMonth(sorted[1..], m)
  }

  function SortMonths(months: seq<Month>): seq<Month> {
    if months == [] then [] else InsertMonth(SortMonths(months[..|months| - 1]), months[|months| - 1])
  }

  ghost predicate Ascending(months: seq<Month>) {
    forall i, j :: 0 <= i < j < |months| ==> MonthIndex(months[i]) < MonthIndex(months[j])
  }

  lemma {:induction false} InsertKeepsOrder(sorted: seq<Month>, m: Month)
    requires Ascending(sorted) && forall i :: 0 <= i < |sorted| ==> MonthIndex(sorted[i]) != MonthIndex(m)
    ensures Ascending(InsertMonth(sorted, m))
    ensures forall x :: x in InsertMonth(sorted, m) <==> x == m || x in sorted
    ensures |InsertMonth(sorted, m)| == |sorted| + 1
  {
    if sorted != [] && MonthIndex(m) >= MonthIndex(sorted[0]) {
      InsertKeepsOrder(sorted[1..], m);
      var rest := InsertMonth(sorted[1..], m);
      assert sorted == [sorted[0]] + sorted[1..];
      forall i | 0 <= i < |rest| ensures MonthIndex(sorted[0]) < MonthIndex(rest[i]) {
        assert rest[i] in rest;
      }
    }
  }

  ghost predicate DistinctMonths(coverage: seq<MonthCoverage>) {
    && (forall i :: 0 <= i < |coverage| ==> RealMonth(coverage[i].month))
    && (forall i, j :: 0 <= i < j < |coverage| ==> coverage[i].month != coverage[j].month)
  }

  ghost predicate CompleteIn(offset: int -> int, coverage: seq<MonthCoverage>, windowTo: int, m: Month) {
    exists i :: 0 <= i < |coverage| && coverage[i].month == m && Complete(offset, coverage[i], windowTo)
  }

  lemma IndexIsInjective(a: Month, b: Month)
    requires RealMonth(a) && RealMonth(b) && MonthIndex(a) == MonthIndex(b)
    ensures a == b
  {
  }

  /** The sorted list holds exactly the complete months. */
  lemma {:induction false} SortedCompleteMonths(offset: int -> int, coverage: seq<MonthCoverage>, windowTo: int)
    requires DistinctMonths(coverage)
    ensures var sorted := SortMonths(CompleteMonths(offset, coverage, windowTo));
      && Ascending(sorted)
      && (forall m :: m in sorted <==> CompleteIn(offset, coverage, windowTo, m))
      && (forall m :: m in sorted ==> RealMonth(m))
  {
    hide Complete, MonthIndex;
    if coverage != [] {
      var init, last := coverage[..|coverage| - 1], coverage[|coverage| - 1];
      SortedCompleteMonths(offset, init, windowTo);
      var months := CompleteMonths(offset, coverage, windowTo);
      var before := SortMonths(CompleteMonths(offset, init, windowTo));
      forall m ensures CompleteIn(offset, coverage, windowTo, m)
        <==> CompleteIn(offset, init, windowTo, m) || (m == last.month && Complete(offset, last, windowTo))
      {
        CompleteInGrows(offset, coverage, windowTo, m);
      }
      if Complete(offset, last, windowTo) {
        assert months[..|months| - 1] == CompleteMonths(offset, init, windowTo);
        forall i | 0 <= i < |before| ensures MonthIndex(before[i]) != MonthIndex(last.month) {
          assert before[i] in before;
          var k :| 0 <= k < |init| && init[k].month == before[i] && Complete(offset, init[k], windowTo);
          assert coverage[k].month != last.month;
          if MonthIndex(before[i]) == MonthIndex(last.month) {
            IndexIsInjective(before[i], last.month);
          }
        }
        InsertKeepsOrder(before, last.month);
      } else {
        assert months == CompleteMonths(offset, init, windowTo);
      }
    }
  }

  lemma CompleteInGrows(offset: int -> int, coverage: seq<MonthCoverage>, windowTo: int, m: Month)
    requires coverage != []
    ensures var init, last := coverage[..|coverage| - 1], coverage[|coverage| - 1];
      CompleteIn(offset, coverage, windowTo, m)
      <==> CompleteIn(offset, init, windowTo, m) || (m == last.month && Complete(offset, last, windowTo))
  {
    hide Complete;
    var init := coverage[..|coverage| - 1];
    if CompleteIn(offset, init, windowTo, m) {
      var i :| 0 <= i < |init| && init[i].month == m && Complete(offset, init[i], windowTo);
      assert coverage[i] == init[i];
    }
    if CompleteIn(offset, coverage, windowTo, m) {
      var i :| 0 <= i < |coverage| && coverage[i].month == m && Complete(offset, coverage[i], windowTo);
      assert i < |init| ==> init[i] == coverage[i];
    }
  }

  // ---- the choice ----

  /** `chooseEvaluationWindow`. */
  method ChooseEvaluationWindow(offset: int -> int, from: int, to: int, coverageDays: real,
                                coverage: seq<MonthCoverage>)
    returns (window: Window, ghost i: nat, ghost j: nat)
    ensures var sorted := SortMonths(CompleteMonths(offset, coverage, to));
      if coverageDays >= ANNUAL_MINIMUM_DAYS then window == Window(from, to, true, [])
      else if sorted == [] then window == Window(from, to, false, [])
      else
        && LongestUnbroken(sorted, i, j) && i < j
        && var start := if MonthStart(offset, sorted[i]) > from then MonthStart(offset, sorted[i]) else from;
        var end := if MonthEnd(offset, sorted[j - 1]) < to then MonthEnd(offset, sorted[j - 1]) else to;
        window == if end <= start then Window(from, to, false, []) else Window(start, end, false, sorted[i..j])
    ensures from < to ==> from <= window.from < window.to <= to
  {
    i, j := 0, 0;
    if coverageDays >= ANNUAL_MINIMUM_DAYS {
      return Window(from, to, true, []), 0, 0;
    }
    var complete := SortMonths(CompleteMonths(offset, coverage, to));
    if complete == [] {
      return Window(from, to, false, []), 0, 0;
    }
    var block;
    block, i, j := LongestConsecutiveBlock(complete);
    var first, last := block[0], block[|block| - 1];
    var start := if MonthStart(offset, first) > from then MonthStart(offset, first) else from;
    var end := if MonthEnd(offset, last) < to then MonthEnd(offset, last) else to;
    if end <= start {
      return Window(from, to, false, []), i, j;
    }
    window := Window(start, end, false, block);
  }

  // ---- what the block means ----

  /** The month with this number is complete. */
  ghost predicate CompleteAt(offset: int -> int, coverage: seq<MonthCoverage>, windowTo: int, index: int) {
    exists m :: RealMonth(m) && MonthIndex(m) == index && CompleteIn(offset, coverage, windowTo, m)
  }

  /** A run of `n` complete months beginning with month number `first`. */
  ghost predicate CompleteRun(offset: int -> int, coverage: seq<MonthCoverage>, windowTo: int, first: int, n: nat) {
    forall index :: first <= index < first + n ==> CompleteAt(offset, coverage, windowTo, index)
  }

  ghost predicate Occurs(sorted: seq<Month>, index: int) {
    exists p :: 0 <= p < |sorted| && MonthIndex(sorted[p]) == index
  }

  lemma {:induction false} IndexAlongRun(sorted: seq<Month>, i: nat, j: nat, k: nat)
    requires Unbroken(sorted, i, j) && i <= k < j
    ensures MonthIndex(sorted[k]) == MonthIndex(sorted[i]) + (k - i)
    decreases k
  {
    if k > i {
      IndexAlongRun(sorted, i, j, k - 1);
      assert Follows(sorted[k - 1], sorted[k]);
    }
  }

  /** Consecutive months that all occur in an ascending list stand next to each other. */
  lemma {:induction false} RunIsContiguous(sorted: seq<Month>, first: int, n: nat) returns (at: nat)
    requires Ascending(sorted) && n > 0
    requires forall index :: first <= index < first + n ==> Occurs(sorted, index)
    ensures at + n <= |sorted| && Unbroken(sorted, at, at + n) && MonthIndex(sorted[at]) == first
    decreases n
  {
    hide MonthIndex;
    if n == 1 {
      assert Occurs(sorted, first);
      at :| 0 <= at < |sorted| && MonthIndex(sorted[at]) == first;
    } else {
      at := RunIsContiguous(sorted, first, n - 1);
      IndexAlongRun(sorted, at, at + n - 1, at + n - 2);
      assert Occurs(sorted, first + (n - 1));
      var p :| 0 <= p < |sorted| && MonthIndex(sorted[p]) == first + (n - 1);
      var q := at + n - 2;
      assert MonthIndex(sorted[q]) == first + (n - 2);
      NextIsAdjacent(sorted, q, p);
      assert Follows(sorted[q], sorted[q + 1]);
    }
  }

  lemma NextIsAdjacent(sorted: seq<Month>, q: nat, p: nat)
    requires Ascending(sorted) && q < |sorted| && p < |sorted|
    requires MonthIndex(sorted[p]) == MonthIndex(sorted[q]) + 1
    ensures p == q + 1
  {
    hide MonthIndex;
    assert q + 1 < |sorted| ==> MonthIndex(sorted[q]) < MonthIndex(sorted[q + 1]);
  }

  /** THE BLOCK. The chosen months are complete and consecutive; no run of consecutive
      complete months anywhere is longer, and one that is as long does not begin later. */
  lemma ChosenBlockIsLongestRun(offset: int -> int, coverage: seq<MonthCoverage>, windowTo: int, i: nat, j: nat)
    requires DistinctMonths(coverage)
    requires var sorted := SortMonths(CompleteMonths(offset, coverage, windowTo));
      LongestUnbroken(sorted, i, j) && i < j
    ensures var sorted := SortMonths(CompleteMonths(offset, coverage, windowTo));
      && (forall k :: i <= k < j ==>
            && CompleteIn(offset, coverage, windowTo, sorted[k])
            && MonthIndex(sorted[k]) == MonthIndex(sorted[i]) + (k - i))
      && (forall first: int, n: nat :: n > 0 && CompleteRun(offset, coverage, windowTo, first, n) ==>
            n < j - i || (n == j - i && first <= MonthIndex(sorted[i])))
  {
    hide MonthIndex, CompleteIn, SortMonths, CompleteMonths, Complete;
    SortedCompleteMonths(offset, coverage, windowTo);
    var sorted := SortMonths(CompleteMonths(offset, coverage, windowTo));
    forall k | i <= k < j
      ensures CompleteIn(offset, coverage, windowTo, sorted[k])
        && MonthIndex(sorted[k]) == MonthIndex(sorted[i]) + (k - i)
    {
      assert sorted[k] in sorted;
      IndexAlongRun(sorted, i, j, k);
    }
    forall first, n: nat | n > 0 && CompleteRun(offset, coverage, windowTo, first, n)
      ensures n < j - i || (n == j - i && first <= MonthIndex(sorted[i]))
    {
      forall index | first <= index < first + n ensures Occurs(sorted, index) {
        assert CompleteAt(offset, coverage, windowTo, index);
        var m :| RealMonth(m) && MonthIndex(m) == index && CompleteIn(offset, coverage, windowTo, m);
        assert m in sorted;
      }
      var at := RunIsContiguous(sorted, first, n);
      assert Unbroken(sorted, at, at + n);
      assert at < i ==> MonthIndex(sorted[at]) < MonthIndex(sorted[i]);
    }
  }

  /** THE WINDOW. A non-empty input window gives a non-empty result inside it; and when
      months are reported the result ends exactly where the last of them ends and begins
      no earlier than the first. */
  lemma WindowIsInside(offset: int -> int, from: int, to: int, coverage: seq<MonthCoverage>, i: nat, j: nat)
    requires FollowsDirective(offset) && from < to && DistinctMonths(coverage)
    requires var sorted := SortMonths(CompleteMonths(offset, coverage, to)); LongestUnbroken(sorted, i, j) && i < j
    ensures var sorted := SortMonths(CompleteMonths(offset, coverage, to));
      var start := if MonthStart(offset, sorted[i]) > from then MonthStart(offset, sorted[i]) else from;
      var end := if MonthEnd(offset, sorted[j - 1]) < to then MonthEnd(offset, sorted[j - 1]) else to;
      && end == MonthEnd(offset, sorted[j - 1])
      && from <= start && end <= to && MonthStart(offset, sorted[i]) <= start
      && (end <= start <==> MonthEnd(offset, sorted[j - 1]) <= from)
  {
    var sorted := SortMonths(CompleteMonths(offset, coverage, to));
    SortedCompleteMonths(offset, coverage, to);
    assert sorted[j - 1] in sorted && sorted[i] in sorted;
    assert RealMonth(sorted[i]) && RealMonth(sorted[j - 1]);
    var k :| 0 <= k < |coverage| && coverage[k].month == sorted[j - 1] && Complete(offset, coverage[k], to);
    BlockStartsBeforeItEnds(offset, sorted, i, j);
  }

  lemma {:induction false} BlockStartsBeforeItEnds(offset: int -> int, months: seq<Month>, i: nat, j: nat)
    requires FollowsDirective(offset) && Unbroken(months, i, j) && i < j
    requires forall k :: i <= k < j ==> RealMonth(months[k])
    ensures MonthStart(offset, months[i]) < MonthEnd(offset, months[j - 1])
    decreases j
  {
    hide PragueMonthStart, FollowsDirective;
    MonthStartsIncrease(offset, months[j - 1].year, months[j - 1].month);
    if i < j - 1 {
      BlockStartsBeforeItEnds(offset, months, i, j - 1);
      assert Follows(months[j - 2], months[j - 1]);
      NextIsNext(months[j - 2], months[j - 1]);
    }
  }

  lemma NextIsNext(a: Month, b: Month)
    requires RealMonth(a) && RealMonth(b) && Follows(a, b)
    ensures b == Month(NextYear(a.year, a.month), NextMonth(a.month))
  {
  }
}
