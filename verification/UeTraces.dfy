/** UE traces: rows grouped by UE identifier, each group stably sorted by time, and what such a group
    says about the UE at a given time. */
module UeTraces {
  import opened Wrappers

  datatype Vector = Vector(x: real, y: real, z: real)

  datatype Sample = Sample(time: real, position: Vector, active: bool)

  datatype Trace = Trace(externalId: string, samples: seq<Sample>)

  // ---------------------------------------------------------------- the sample in force at a time

  // Which of the best sample so far and the next one x is in force at t.
  function Later(best: Option<Sample>, x: Sample, t: real): Option<Sample> {
    if x.time <= t && (best.None? || best.value.time <= x.time) then Some(x) else best
  }

  // The sample with time <= t that is last in (time, position in s) order.
  function Latest(s: seq<Sample>, t: real): Option<Sample> {
    if s == [] then None else Later(Latest(s[..|s| - 1], t), s[|s| - 1], t)
  }

  lemma LatestSnoc(s: seq<Sample>, x: Sample, t: real)
    ensures Latest(s + [x], t) == Later(Latest(s, t), x, t)
  {
  }

  ghost predicate IsLatestIndex(s: seq<Sample>, t: real, k: int) {
    0 <= k < |s| && s[k].time <= t &&
    forall j :: 0 <= j < |s| && s[j].time <= t ==> s[j].time < s[k].time || (s[j].time == s[k].time && j <= k)
  }

  lemma {:induction false} LatestExists(s: seq<Sample>, t: real) returns (k: int)
    ensures Latest(s, t).None? ==> forall j :: 0 <= j < |s| ==> t < s[j].time
    ensures Latest(s, t).Some? ==> IsLatestIndex(s, t, k) && Latest(s, t) == Some(s[k])
  {
    k := -1;
    if s == [] {
    } else {
      var init, x := s[..|s| - 1], s[|s| - 1];
      k := LatestExists(init, t);
      assert forall j :: 0 <= j < |init| ==> s[j] == init[j];
      if Latest(s, t) == Some(x) && x.time <= t && (Latest(init, t).None? || Latest(init, t).value.time <= x.time) {
        k := |s| - 1;
      }
    }
  }

  // In a sorted list the newest sample is in force from its time on.
  lemma LatestOfSnoc(s: seq<Sample>, x: Sample, t: real)
    requires SortedByTime(s + [x])
    ensures Latest(s + [x], t) == if x.time <= t then Some(x) else Latest(s, t)
    ensures Latest(s, t).Some? ==> Latest(s, t).value.time <= x.time
  {
    LatestSnoc(s, x, t);
    var k := LatestExists(s, t);
    assert Latest(s, t).Some? ==> s[k] == (s + [x])[k] && (s + [x])[k].time <= (s + [x])[|s|].time;
  }

  // Latest is the sample at the one index that no other admissible sample follows.
  lemma LatestMeaning(s: seq<Sample>, t: real)
    ensures Latest(s, t).None? <==> forall j :: 0 <= j < |s| ==> t < s[j].time
    ensures forall k :: IsLatestIndex(s, t, k) ==> Latest(s, t) == Some(s[k])
    ensures Latest(s, t).Some? ==> exists k :: IsLatestIndex(s, t, k)
  {
    var i := LatestExists(s, t);
    forall k | IsLatestIndex(s, t, k) ensures Latest(s, t) == Some(s[k]) {
      assert Latest(s, t).Some?;
      assert i == k;
    }
  }

  // The step function of time a group of samples stands for.
  predicate ActiveAt(s: seq<Sample>, t: real) {
    Latest(s, t).Some? && Latest(s, t).value.active
  }

  function PositionAt(s: seq<Sample>, t: real): Vector
    requires s != []
  {
    if Latest(s, t).Some? then Latest(s, t).value.position else s[0].position
  }

  // ---------------------------------------------------------------- stable sorting by time

  ghost predicate SortedByTime(s: seq<Sample>) {
    forall i, j :: 0 <= i < j < |s| ==> s[i].time <= s[j].time
  }

  function AtTime(s: seq<Sample>, t: real): seq<Sample> {
    if s == [] then []
    else AtTime(s[..|s| - 1], t) + if s[|s| - 1].time == t then [s[|s| - 1]] else []
  }

  // Sorted, and samples of equal time in their original order.
  ghost predicate IsStableSortOf(s: seq<Sample>, r: seq<Sample>) {
    SortedByTime(r) && forall t :: AtTime(r, t) == AtTime(s, t)
  }

  function InsertByTime(s: seq<Sample>, x: Sample): seq<Sample> {
    if s == [] || s[|s| - 1].time <= x.time then s + [x]
    else InsertByTime(s[..|s| - 1], x) + [s[|s| - 1]]
  }

  function StableSort(s: seq<Sample>): seq<Sample> {
    if s == [] then [] else InsertByTime(StableSort(s[..|s| - 1]), s[|s| - 1])
  }

  ghost predicate AllUpTo(s: seq<Sample>, t: real) {
    forall i :: 0 <= i < |s| ==> s[i].time <= t
  }

  lemma {:induction false} InsertByTimeSorted(s: seq<Sample>, x: Sample, t: real)
    requires SortedByTime(s) && AllUpTo(s, t) && x.time <= t
    ensures SortedByTime(InsertByTime(s, x)) && AllUpTo(InsertByTime(s, x), t)
  {
    if s != [] && x.time < s[|s| - 1].time {
      InsertByTimeSorted(s[..|s| - 1], x, s[|s| - 1].time);
    }
  }

  lemma {:induction false} InsertByTimePermutes(s: seq<Sample>, x: Sample)
    ensures multiset(InsertByTime(s, x)) == multiset(s) + multiset{x}
  {
    if s != [] && x.time < s[|s| - 1].time {
      InsertByTimePermutes(s[..|s| - 1], x);
      assert s == s[..|s| - 1] + [s[|s| - 1]];
    }
  }

  lemma {:induction false} InsertByTimeStable(s: seq<Sample>, x: Sample, t: real)
    ensures AtTime(InsertByTime(s, x), t) == AtTime(s + [x], t)
  {
    assert (s + [x])[..|s|] == s;
    if s != [] && x.time < s[|s| - 1].time {
      var init, last := s[..|s| - 1], s[|s| - 1];
      InsertByTimeStable(init, x, t);
      assert (init + [x])[..|init|] == init;
      var r := InsertByTime(init, x);
      assert (r + [last])[..|r|] == r;
    }
  }

  lemma {:induction false} StableSortPermutes(s: seq<Sample>)
    ensures multiset(StableSort(s)) == multiset(s) && |StableSort(s)| == |s|
  {
    if s == [] {
    } else {
      var init, x := s[..|s| - 1], s[|s| - 1];
      StableSortPermutes(init);
      InsertByTimePermutes(StableSort(init), x);
      assert s == init + [x];
    }
    assert |multiset(StableSort(s))| == |multiset(s)|;
  }

  lemma {:induction false} StableSortSorted(s: seq<Sample>)
    ensures SortedByTime(StableSort(s))
  {
    if s == [] {
    } else {
      StableSortSorted(s[..|s| - 1]);
      var r, x := StableSort(s[..|s| - 1]), s[|s| - 1];
      InsertByTimeSorted(r, x, if r == [] || r[|r| - 1].time <= x.time then x.time else r[|r| - 1].time);
    }
  }

  lemma {:induction false} StableSortStable(s: seq<Sample>, t: real)
    ensures AtTime(StableSort(s), t) == AtTime(s, t)
  {
    if s == [] {
    } else {
      var init, x := s[..|s| - 1], s[|s| - 1];
      StableSortStable(init, t);
      InsertByTimeStable(StableSort(init), x, t);
      assert (StableSort(init) + [x])[..|StableSort(init)|] == StableSort(init);
    }
  }

  lemma StableSortCorrect(s: seq<Sample>)
    ensures IsStableSortOf(s, StableSort(s)) && multiset(StableSort(s)) == multiset(s)
    ensures forall r :: IsStableSortOf(s, r) ==> r == StableSort(s)
  {
    StableSortSorted(s);
    StableSortPermutes(s);
    forall t ensures AtTime(StableSort(s), t) == AtTime(s, t) {
      StableSortStable(s, t);
    }
    forall r | IsStableSortOf(s, r) ensures r == StableSort(s) {
      StableSortUnique(StableSort(s), r);
    }
  }

  lemma {:induction false} AtTimeEmpty(s: seq<Sample>, t: real)
    ensures AtTime(s, t) == [] <==> forall k :: 0 <= k < |s| ==> s[k].time != t
  {
    if s == [] {
    } else {
      AtTimeEmpty(s[..|s| - 1], t);
      if AtTime(s, t) == [] {
        assert forall k :: 0 <= k < |s| - 1 ==> s[k] == s[..|s| - 1][k];
      }
    }
  }

  // Any two stable sorts of the same samples are the same list.
  lemma {:induction false} StableSortUnique(a: seq<Sample>, b: seq<Sample>)
    requires SortedByTime(a) && SortedByTime(b) && forall t :: AtTime(a, t) == AtTime(b, t)
    ensures a == b
  {
    if a == [] {
    } else {
      LastTimeCovered(a, b);
    }
    if b == [] {
    } else {
      LastTimeCovered(b, a);
    }
    if a == [] {
    } else {
      var m, n := |a| - 1, |b| - 1;
      var x, y := AtTime(a, a[m].time), AtTime(b, b[n].time);
      assert x[|x| - 1] == a[m] && y[|y| - 1] == b[n];
      forall t ensures AtTime(a[..m], t) == AtTime(b[..n], t) {
        assert AtTime(a, t) == AtTime(b, t);
        if t == a[m].time {
          assert AtTime(a[..m], t) == x[..|x| - 1] && AtTime(b[..n], t) == y[..|y| - 1];
        } else {
          assert AtTime(a, t) == AtTime(a[..m], t) && AtTime(b, t) == AtTime(b[..n], t);
        }
      }
      StableSortUnique(a[..m], b[..n]);
    }
  }

  lemma LastTimeCovered(a: seq<Sample>, b: seq<Sample>)
    requires SortedByTime(a) && SortedByTime(b) && a != [] && forall t :: AtTime(a, t) == AtTime(b, t)
    ensures b != [] && a[|a| - 1].time <= b[|b| - 1].time
  {
    hide AtTime;
    var t := a[|a| - 1].time;
    assert AtTime(a, t) == AtTime(b, t);
    assert AtTime(b, t) != [] by { AtTimeEmpty(a, t); }
    HasTime(b, t);
  }

  lemma HasTime(b: seq<Sample>, t: real)
    requires SortedByTime(b) && AtTime(b, t) != []
    ensures b != [] && t <= b[|b| - 1].time
  {
  }

  // ---------------------------------------------------------------- sorting does not change what is in force

  lemma {:induction false} LatestInsert(s: seq<Sample>, x: Sample, t: real)
    ensures Latest(InsertByTime(s, x), t) == Latest(s + [x], t)
  {
    LatestSnoc(s, x, t);
    if s != [] && x.time < s[|s| - 1].time {
      var init, last := s[..|s| - 1], s[|s| - 1];
      LatestInsert(init, x, t);
      LatestSnoc(init, x, t);
      LatestSnoc(InsertByTime(init, x), last, t);
    }
  }

  lemma {:induction false} LatestOfStableSort(s: seq<Sample>, t: real)
    ensures Latest(StableSort(s), t) == Latest(s, t)
  {
    if s == [] {
    } else {
      var init, x := s[..|s| - 1], s[|s| - 1];
      LatestOfStableSort(init, t);
      LatestInsert(StableSort(init), x, t);
      LatestSnoc(StableSort(init), x, t);
    }
  }

  // ---------------------------------------------------------------- initial state scans

  // Where a scan that stops at the first sample after t stops.
  ghost predicate IsLeadingRun(s: seq<Sample>, t: real, n: nat) {
    n <= |s| && (forall k :: 0 <= k < n ==> s[k].time <= t) && (n < |s| ==> t < s[n].time)
  }

  lemma LatestOfLeadingRun(s: seq<Sample>, t: real, n: nat)
    requires SortedByTime(s) && IsLeadingRun(s, t, n)
    ensures Latest(s, t) == if n == 0 then None else Some(s[n - 1])
  {
    hide Latest, IsLatestIndex;
    LatestMeaning(s, t);
    forall j | n <= j < |s| ensures t < s[j].time {
      assert n < j ==> s[n].time <= s[j].time;
    }
    if n > 0 {
      LastOfLeadingRun(s, t, n);
    }
  }

  lemma LastOfLeadingRun(s: seq<Sample>, t: real, n: nat)
    requires SortedByTime(s) && 0 < n <= |s| && s[n - 1].time <= t
    requires forall j :: n <= j < |s| ==> t < s[j].time
    ensures IsLatestIndex(s, t, n - 1)
  {
  }

  method InitialActive(s: seq<Sample>) returns (active: bool)
    ensures SortedByTime(s) ==> active == ActiveAt(s, 0.0)
    ensures exists n :: IsLeadingRun(s, 0.0, n) && active == (n > 0 && s[n - 1].active)
  {
    active := false;
    var n := 0;
    while n < |s| && s[n].time <= 0.0
      invariant n <= |s| && forall k :: 0 <= k < n ==> s[k].time <= 0.0
      invariant active == (n > 0 && s[n - 1].active)
    {
      active := s[n].active;
      n := n + 1;
    }
    assert IsLeadingRun(s, 0.0, n);
    if SortedByTime(s) { LatestOfLeadingRun(s, 0.0, n); }
  }

  method InitialPosition(s: seq<Sample>) returns (position: Vector)
    requires s != []
    ensures SortedByTime(s) ==> position == PositionAt(s, 0.0)
    ensures exists n :: IsLeadingRun(s, 0.0, n) && position == s[if n == 0 then 0 else n - 1].position
  {
    position := s[0].position;
    var n := 0;
    while n < |s| && s[n].time <= 0.0
      invariant n <= |s| && forall k :: 0 <= k < n ==> s[k].time <= 0.0
      invariant position == s[if n == 0 then 0 else n - 1].position
    {
      position := s[n].position;
      n := n + 1;
    }
    assert IsLeadingRun(s, 0.0, n);
    if SortedByTime(s) { LatestOfLeadingRun(s, 0.0, n); }
  }
}
