/** Which tariff curves the free analysis compares. */
module CurveSelection {
  import opened Basics

  datatype Curve = Curve(
    id: string,
    purpose: string,
    buyMode: Option<string>,
    sellMode: Option<string>,
    distributionCode: Option<string>,
    selectionScore: Option<real>)

  predicate IsBaseline(c: Curve) {
    c.purpose == "CURRENT_BASELINE" || "REFERENCE_BASELINE:" <= c.purpose
  }

  function Family(c: Curve): string {
    if "CURRENT_PRODUCT:" <= c.purpose then "CURRENT_PRODUCT" else "CATALOG"
  }

  function OrUnknown(value: Option<string>): string {
    match value
    case None => "UNKNOWN"
    case Some(v) => v
  }

  function GroupKey(c: Curve): string {
    Family(c) + ":" + (OrUnknown(c.buyMode) + ":" + (OrUnknown(c.sellMode) + ":" + OrUnknown(c.distributionCode)))
  }

  /** `(a ?? Infinity) < (b ?? Infinity)`. */
  predicate Cheaper(a: Curve, b: Curve) {
    match (a.selectionScore, b.selectionScore)
    case (Some(x), Some(y)) => x < y
    case (Some(_), None) => true
    case (None, _) => false
  }

  /** The curve at `i` represents its group: no other candidate of the group is cheaper,
      and every earlier one is dearer. */
  ghost predicate Represents(curves: seq<Curve>, i: nat) {
    && i < |curves|
    && !IsBaseline(curves[i])
    && (forall j :: 0 <= j < |curves| && !IsBaseline(curves[j]) && GroupKey(curves[j]) == GroupKey(curves[i]) ==>
          !Cheaper(curves[j], curves[i]) && (j < i ==> Cheaper(curves[i], curves[j])))
  }

  ghost predicate Chosen(curves: seq<Curve>, i: nat) {
    i < |curves| && (IsBaseline(curves[i]) || Represents(curves, i))
  }

  function IdsIn(curves: seq<Curve>, selected: set<string>): seq<string> {
    if curves == [] then []
    else
      var last := curves[|curves| - 1];
      IdsIn(curves[..|curves| - 1], selected) + if last.id in selected then [last.id] else []
  }

  function AllIds(curves: seq<Curve>): seq<string> {
    seq(|curves|, i requires 0 <= i < |curves| => curves[i].id)
  }

  ghost function ChosenIds(curves: seq<Curve>): set<string> {
    set i: nat | i < |curves| && Chosen(curves, i) :: curves[i].id
  }

  // ---- the loop ----

  function BaselineIds(curves: seq<Curve>): set<string> {
    if curves == [] then {}
    else
      var last := curves[|curves| - 1];
      BaselineIds(curves[..|curves| - 1]) + if IsBaseline(last) then {last.id} else {}
  }

  lemma {:induction false} IsBaselineId(curves: seq<Curve>, id: string)
    ensures id in BaselineIds(curves)
      <==> exists i :: 0 <= i < |curves| && IsBaseline(curves[i]) && curves[i].id == id
  {
    hide IsBaseline;
    if curves != [] {
      var init, last := curves[..|curves| - 1], curves[|curves| - 1];
      IsBaselineId(init, id);
      assert curves == init + [last];
    }
  }

  /** Half-way: the winners so far, by group. */
  ghost predicate Winners(curves: seq<Curve>, groups: map<string, nat>) {
    && (forall g :: g in groups ==> Represents(curves, groups[g]) && GroupKey(curves[groups[g]]) == g)
    && (forall i :: 0 <= i < |curves| && !IsBaseline(curves[i]) ==> GroupKey(curves[i]) in groups)
  }

  ghost predicate Positions(curves: seq<Curve>, groups: map<string, nat>) {
    forall g :: g in groups ==> groups[g] < |curves|
  }

  /** What the loop does with one more candidate: the first of its group or a cheaper one
      takes the place, otherwise nothing changes. */
  function Compete(curves: seq<Curve>, groups: map<string, nat>, c: Curve): map<string, nat>
    requires Positions(curves, groups)
  {
    var g := GroupKey(c);
    if g !in groups || Cheaper(c, curves[groups[g]]) then groups[g := |curves|] else groups
  }

  lemma WinnersGrow(curves: seq<Curve>, groups: map<string, nat>, c: Curve)
    requires Winners(curves, groups) && Positions(curves, groups)
    ensures var after := if IsBaseline(c) then groups else Compete(curves, groups, c);
      Winners(curves + [c], after) && Positions(curves + [c], after)
  {
    hide GroupKey, IsBaseline;
    var g, n, longer := GroupKey(c), |curves|, curves + [c];
    var after := if IsBaseline(c) then groups else Compete(curves, groups, c);
    assert forall i :: 0 <= i < n ==> longer[i] == curves[i];
    assert longer[n] == c;
    forall h | h in after ensures Represents(longer, after[h]) && GroupKey(longer[after[h]]) == h {
      if h in groups {
        assert Represents(curves, groups[h]);
      }
      if after[h] == n && g in groups {
        forall j | 0 <= j < n && !IsBaseline(longer[j]) && GroupKey(longer[j]) == g
          ensures Cheaper(c, longer[j]) && !Cheaper(longer[j], c)
        {
          CheaperIsTransitive(c, curves[groups[g]], longer[j]);
        }
      }
    }
  }

  lemma CheaperIsTransitive(a: Curve, b: Curve, c: Curve)
    requires Cheaper(a, b) && !Cheaper(c, b)
    ensures Cheaper(a, c) && !Cheaper(c, a)
  {
  }

  lemma {:induction false} OneWinnerPerGroup(curves: seq<Curve>, i: nat, j: nat)
    requires Represents(curves, i) && Represents(curves, j) && GroupKey(curves[i]) == GroupKey(curves[j])
    ensures i == j
  {
    hide GroupKey;
  }

  method SelectAnalysisCurveIds(curves: seq<Curve>, compareAllTariffs: bool) returns (ids: seq<string>)
    ensures ids == if compareAllTariffs then AllIds(curves) else IdsIn(curves, ChosenIds(curves))
  {
    if compareAllTariffs {
      return AllIds(curves);
    }
    hide ChosenIds, Winners;
    var selected, groups := Collect(curves);
    var winners := set g | g in groups :: curves[groups[g]].id;
    SelectedAreChosen(curves, groups, selected, winners);
    ids := IdsIn(curves, selected + winners);
  }

  /** The loop: baselines are selected at once, every other curve competes in its group;
      a position stands for the curve the source keeps. */
  method Collect(curves: seq<Curve>) returns (selected: set<string>, groups: map<string, nat>)
    ensures selected == BaselineIds(curves) && Winners(curves, groups) && Positions(curves, groups)
  {
    selected, groups := {}, map[];
    assert Winners(curves[..0], groups) && BaselineIds(curves[..0]) == {};
    hide Winners, IsBaseline, Compete, Represents, BaselineIds;
    for n := 0 to |curves|
      invariant Winners(curves[..n], groups) && Positions(curves[..n], groups)
      invariant selected == BaselineIds(curves[..n])
    {
      var curve := curves[n];
      WinnersGrow(curves[..n], groups, curve);
      assert curves[..n + 1] == curves[..n] + [curve];
      BaselinesGrow(curves[..n], curve);
      if IsBaseline(curve) {
        selected := selected + {curve.id};
      } else {
        groups := Compete(curves[..n], groups, curve);
      }
    }
    assert curves[..|curves|] == curves;
  }

  lemma BaselinesGrow(curves: seq<Curve>, c: Curve)
    ensures BaselineIds(curves + [c]) == BaselineIds(curves) + if IsBaseline(c) then {c.id} else {}
  {
    hide IsBaseline;
    assert (curves + [c])[..|curves|] == curves;
  }

  lemma SelectedAreChosen(curves: seq<Curve>, groups: map<string, nat>, baselines: set<string>, winners: set<string>)
    requires Winners(curves, groups) && Positions(curves, groups)
    requires baselines == BaselineIds(curves)
    requires winners == set g | g in groups :: curves[groups[g]].id
    ensures baselines + winners == ChosenIds(curves)
  {
    hide GroupKey, IsBaseline;
    forall id ensures id in baselines + winners <==> id in ChosenIds(curves) {
      IsBaselineId(curves, id);
      hide BaselineIds;
      if id in baselines {
        var i :| 0 <= i < |curves| && IsBaseline(curves[i]) && curves[i].id == id;
        assert Chosen(curves, i);
      }
      if id in winners {
        var g :| g in groups && curves[groups[g]].id == id;
        assert Chosen(curves, groups[g]);
      }
      if id in ChosenIds(curves) {
        var i: nat :| i < |curves| && Chosen(curves, i) && curves[i].id == id;
        if !IsBaseline(curves[i]) {
          var g := GroupKey(curves[i]);
          assert g in groups;
          OneWinnerPerGroup(curves, i, groups[g]);
          assert curves[groups[g]].id in winners;
        }
      }
    }
  }

  // ---- what the selection means ----

  ghost predicate DistinctIds(curves: seq<Curve>) {
    forall i, j :: 0 <= i < j < |curves| ==> curves[i].id != curves[j].id
  }

  /** Every group that occurs has a representative. */
  lemma {:induction false} GroupHasRepresentative(curves: seq<Curve>, i: nat) returns (w: nat)
    requires i < |curves| && !IsBaseline(curves[i])
    ensures Represents(curves, w) && GroupKey(curves[w]) == GroupKey(curves[i])
  {
    var groups := GroupsOf(curves);
    w := groups[GroupKey(curves[i])];
  }

  lemma {:induction false} GroupsOf(curves: seq<Curve>) returns (groups: map<string, nat>)
    ensures Winners(curves, groups) && Positions(curves, groups)
  {
    hide GroupKey, IsBaseline, Represents, Compete;
    if curves == [] {
      groups := map[];
    } else {
      var init, c := curves[..|curves| - 1], curves[|curves| - 1];
      var before := GroupsOf(init);
      WinnersGrow(init, before, c);
      assert curves == init + [c];
      groups := if IsBaseline(c) then before else Compete(init, before, c);
    }
  }

  lemma {:induction false} IdIsListed(curves: seq<Curve>, selected: set<string>, id: string)
    ensures id in IdsIn(curves, selected) <==> id in selected && exists i :: 0 <= i < |curves| && curves[i].id == id
  {
    if curves != [] {
      var init, last := curves[..|curves| - 1], curves[|curves| - 1];
      IdIsListed(init, selected, id);
      assert curves == init + [last];
    }
  }

  /** THE SELECTION. With distinct ids, a curve is listed exactly if it is a baseline or
      the representative of its group: every baseline is there, and every family, buying
      mode, selling mode and rate that occurs is there exactly once, by its first cheapest
      curve. */
  lemma ListedExactlyIfChosen(curves: seq<Curve>, i: nat)
    requires DistinctIds(curves) && i < |curves|
    ensures curves[i].id in IdsIn(curves, ChosenIds(curves)) <==> IsBaseline(curves[i]) || Represents(curves, i)
  {
    hide Represents, IsBaseline;
    IdIsListed(curves, ChosenIds(curves), curves[i].id);
    if curves[i].id in ChosenIds(curves) {
      var j: nat :| j < |curves| && Chosen(curves, j) && curves[j].id == curves[i].id;
      assert i == j;
    }
    if IsBaseline(curves[i]) || Represents(curves, i) {
      assert Chosen(curves, i);
    }
  }

  lemma ExactlyOnePerGroup(curves: seq<Curve>, i: nat)
    requires DistinctIds(curves) && i < |curves| && !IsBaseline(curves[i])
    ensures exists w: nat ::
      && w < |curves| && !IsBaseline(curves[w]) && GroupKey(curves[w]) == GroupKey(curves[i])
      && curves[w].id in IdsIn(curves, ChosenIds(curves))
      && forall v: nat ::
           (v < |curves| && !IsBaseline(curves[v]) && GroupKey(curves[v]) == GroupKey(curves[i])
            && curves[v].id in IdsIn(curves, ChosenIds(curves)))
           ==> v == w
  {
    hide GroupKey, IsBaseline, IdsIn;
    var w := GroupHasRepresentative(curves, i);
    ListedExactlyIfChosen(curves, w);
    forall v: nat | v < |curves| && !IsBaseline(curves[v]) && GroupKey(curves[v]) == GroupKey(curves[i])
                    && curves[v].id in IdsIn(curves, ChosenIds(curves))
      ensures v == w
    {
      ListedExactlyIfChosen(curves, v);
      OneWinnerPerGroup(curves, v, w);
    }
  }

  ghost predicate Subsequence(picked: seq<string>, all: seq<string>, at: seq<int>) {
    && |at| == |picked|
    && (forall i :: 0 <= i < |at| ==> 0 <= at[i] < |all| && all[at[i]] == picked[i])
    && (forall i, j :: 0 <= i < j < |at| ==> at[i] < at[j])
  }

  /** The list keeps the order of the curves. */
  lemma {:induction false} ListKeepsOrder(curves: seq<Curve>, selected: set<string>) returns (at: seq<int>)
    ensures Subsequence(IdsIn(curves, selected), AllIds(curves), at)
  {
    if curves == [] {
      at := [];
    } else {
      var init, last := curves[..|curves| - 1], curves[|curves| - 1];
      at := ListKeepsOrder(init, selected);
      assert forall i :: 0 <= i < |init| ==> AllIds(curves)[i] == AllIds(init)[i];
      if last.id in selected {
        at := at + [|init|];
      }
    }
  }

  // ---- when the group key tells groups apart ----

  predicate NoColon(s: string) {
    forall i :: 0 <= i < |s| ==> s[i] != ':'
  }

  lemma {:induction false} SplitAtColon(a: string, b: string, x: string, y: string)
    requires NoColon(a) && NoColon(b) && a + ":" + x == b + ":" + y
    ensures a == b && x == y
  {
    var left, right := a + ":" + x, b + ":" + y;
    assert left[|a|] == ':' && right[|b|] == ':';
    assert forall i :: 0 <= i < |a| ==> left[i] == a[i];
    assert forall i :: 0 <= i < |b| ==> right[i] == b[i];
    assert |a| == |b|;
    assert left[..|a|] == a && right[..|b|] == b;
    assert left[|a| + 1..] == x && right[|b| + 1..] == y;
  }

  /** With mode and rate codes that contain no colon, two curves share a group exactly if
      they agree on family, buying mode, selling mode and rate, an unknown value being the
      same as "UNKNOWN". */
  lemma GroupKeyIsTheTuple(a: Curve, b: Curve)
    requires NoColon(OrUnknown(a.buyMode)) && NoColon(OrUnknown(b.buyMode))
    requires NoColon(OrUnknown(a.sellMode)) && NoColon(OrUnknown(b.sellMode))
    ensures GroupKey(a) == GroupKey(b) <==>
      && Family(a) == Family(b)
      && OrUnknown(a.buyMode) == OrUnknown(b.buyMode)
      && OrUnknown(a.sellMode) == OrUnknown(b.sellMode)
      && OrUnknown(a.distributionCode) == OrUnknown(b.distributionCode)
  {
    hide OrUnknown;
    assert NoColon(Family(a)) && NoColon(Family(b));
    hide Family;
    if GroupKey(a) == GroupKey(b) {
      var tailA := OrUnknown(a.sellMode) + ":" + OrUnknown(a.distributionCode);
      var tailB := OrUnknown(b.sellMode) + ":" + OrUnknown(b.distributionCode);
      SplitAtColon(Family(a), Family(b), OrUnknown(a.buyMode) + ":" + tailA, OrUnknown(b.buyMode) + ":" + tailB);
      SplitAtColon(OrUnknown(a.buyMode), OrUnknown(b.buyMode), tailA, tailB);
      SplitAtColon(OrUnknown(a.sellMode), OrUnknown(b.sellMode),
                   OrUnknown(a.distributionCode), OrUnknown(b.distributionCode));
    }
  }
}
