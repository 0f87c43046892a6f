/** Sorting of timestamps, which the analysis code gets from `Array.prototype.sort`. */
module Timestamps {
  /** A set of timestamps in ascending order. */
  ghost function Ascending(times: set<int>): (out: seq<int>)
    ensures forall i, j :: 0 <= i < j < |out| ==> out[i] < out[j]
    ensures forall t :: t in times <==> t in out
    decreases |times|
  {
    if times == {} then []
    else
      LatestExists(times);
      var last :| last in times && forall t :: t in times ==> t <= last;
      Ascending(times - {last}) + [last]
  }

  lemma Member<T>(s: set<T>) returns (x: T)
    requires s != {}
    ensures x in s
  {
    x :| x in s;
  }

  lemma {:induction false} LatestExists(times: set<int>)
    requires times != {}
    ensures exists last :: last in times && forall t :: t in times ==> t <= last
  {
    var some := Member(times);
    var rest := times - {some};
    if rest == {} {
      assert times == {some};
    } else {
      LatestExists(rest);
      var last :| last in rest && forall t :: t in rest ==> t <= last;
      assert forall t :: t in times && t != some ==> t in rest;
      LatestOf(times, some, last);
    }
  }

  lemma LatestOf(times: set<int>, some: int, last: int)
    requires some in times && last in times && forall t :: t in times && t != some ==> t <= last
    ensures exists latest :: latest in times && forall t :: t in times ==> t <= latest
  {
    var latest := if some > last then some else last;
    assert latest in times && forall t :: t in times ==> t <= latest;
  }

  /** Two strictly ascending lists of the same timestamps are the same list. */
  lemma {:induction false} AscendingIsUnique(a: seq<int>, b: seq<int>)
    requires forall i, j :: 0 <= i < j < |a| ==> a[i] < a[j]
    requires forall i, j :: 0 <= i < j < |b| ==> b[i] < b[j]
    requires forall t :: t in a <==> t in b
    ensures a == b
  {
    if a != [] || b != [] {
      assert a != [] ==> a[0] in a && a[0] in b;
      assert b != [] ==> b[0] in b && b[0] in a;
      var a', b' := a[..|a| - 1], b[..|b| - 1];
      assert a == a' + [a[|a| - 1]] && b == b' + [b[|b| - 1]];
      LastIsLargest(a, b, a', b');
      AscendingIsUnique(a', b');
    }
  }

  lemma LastIsLargest(a: seq<int>, b: seq<int>, a': seq<int>, b': seq<int>)
    requires a != [] && b != [] && a == a' + [a[|a| - 1]] && b == b' + [b[|b| - 1]]
    requires forall i, j :: 0 <= i < j < |a| ==> a[i] < a[j]
    requires forall i, j :: 0 <= i < j < |b| ==> b[i] < b[j]
    requires forall t :: t in a <==> t in b
    ensures a[|a| - 1] == b[|b| - 1]
    ensures forall t :: t in a' <==> t in b'
  {
    var x, y := a[|a| - 1], b[|b| - 1];
    assert x in a && x in b && y in a && y in b;
    AllButLast(a, a');
    AllButLast(b, b');
    forall t ensures t in a' <==> t in b' {
      assert t in a <==> t in b;
    }
  }

  lemma AllButLast(a: seq<int>, a': seq<int>)
    requires a != [] && a == a' + [a[|a| - 1]] && forall i, j :: 0 <= i < j < |a| ==> a[i] < a[j]
    ensures forall t :: t in a' <==> t in a && t != a[|a| - 1]
  {
    var x := a[|a| - 1];
    assert forall t :: t in a <==> t in a' || t == x;
    assert forall i :: 0 <= i < |a'| ==> a'[i] == a[i];
    assert x !in a';
  }

  method SortedTimes(times: set<int>) returns (out: seq<int>)
    ensures out == Ascending(times)
  {
    out := [];
    var remaining := times;
    while remaining != {}
      invariant remaining <= times
      invariant forall i, j :: 0 <= i < j < |out| ==> out[i] < out[j]
      invariant forall t :: t in times <==> t in remaining || t in out
      invariant forall i, t :: 0 <= i < |out| && t in remaining ==> t < out[i]
      decreases remaining
    {
      LatestExists(remaining);
      var last :| last in remaining && forall t :: t in remaining ==> t <= last;
      out := [last] + out;
      remaining := remaining - {last};
    }
    AscendingIsUnique(out, Ascending(times));
  }
}
