/** Compilation of a UE's activity into downlink traffic intervals. */
module Traffic {
  import opened UeTraces

  // Traffic flows from start, inclusive, to stop, exclusive.
  datatype Interval = Interval(start: real, stop: real)

  ghost predicate Covered(ivs: seq<Interval>, t: real) {
    exists k :: 0 <= k < |ivs| && ivs[k].start <= t < ivs[k].stop
  }

  // Non-empty intervals inside [from, to), in order and without overlap.
  ghost predicate Schedulable(ivs: seq<Interval>, from: real, to: real) {
    (forall k :: 0 <= k < |ivs| ==> from <= ivs[k].start < ivs[k].stop <= to) &&
    forall i, j :: 0 <= i < j < |ivs| ==> ivs[i].stop <= ivs[j].start
  }

  // Traffic flows exactly while the UE is active within the traffic window.
  ghost predicate Serves(ivs: seq<Interval>, s: seq<Sample>, trafficStart: real, simTime: real) {
    Schedulable(ivs, trafficStart, simTime) &&
    forall t :: Covered(ivs, t) <==> trafficStart <= t < simTime && ActiveAt(s, t)
  }

  function Max(x: real, y: real): real { if x < y then y else x }

  function Min(x: real, y: real): real { if y < x then y else x }

  // Installs one client for the part of [start, stop) inside the traffic window, if there is any.
  function InstallClient(ivs: seq<Interval>, start: real, stop: real,
                         trafficStart: real, simTime: real): seq<Interval>
  {
    var start', stop' := Max(start, trafficStart), Min(stop, simTime);
    if stop' <= start' then ivs else ivs + [Interval(start', stop')]
  }

  lemma InstallClientCovers(ivs: seq<Interval>, start: real, stop: real, trafficStart: real, simTime: real, t: real)
    ensures Covered(InstallClient(ivs, start, stop, trafficStart, simTime), t) <==>
            Covered(ivs, t) || (start <= t < stop && trafficStart <= t < simTime)
  {
    var ivs' := InstallClient(ivs, start, stop, trafficStart, simTime);
    if k :| 0 <= k < |ivs| && ivs[k].start <= t < ivs[k].stop {
      assert ivs'[k] == ivs[k];
    }
    if start <= t < stop && trafficStart <= t < simTime {
      assert ivs'[|ivs|].start <= t < ivs'[|ivs|].stop;
    }
  }

  // The intervals installed so far end no later than `upTo`.
  ghost predicate EndBy(ivs: seq<Interval>, upTo: real) {
    forall k :: 0 <= k < |ivs| ==> ivs[k].stop <= upTo
  }

  // ---------------------------------------------------------------- the loop as a function

  // The variables of the loop and the intervals installed so far.
  datatype Progress = Progress(active: bool, activeStart: real, intervals: seq<Interval>)

  // One sample's worth of the loop.
  function Advance(p: Progress, x: Sample, trafficStart: real, simTime: real): Progress {
    if x.time < 0.0 then p.(active := x.active, activeStart := if x.active then 0.0 else p.activeStart)
    else if x.active && !p.active then p.(active := true, activeStart := x.time)
    else if !x.active && p.active then
      p.(active := false, intervals := InstallClient(p.intervals, p.activeStart, x.time, trafficStart, simTime))
    else p
  }

  function After(s: seq<Sample>, trafficStart: real, simTime: real): Progress {
    if s == [] then Progress(false, 0.0, [])
    else Advance(After(s[..|s| - 1], trafficStart, simTime), s[|s| - 1], trafficStart, simTime)
  }

  // The last open period runs to the end of the simulation.
  function Closed(p: Progress, trafficStart: real, simTime: real): seq<Interval> {
    if p.active then InstallClient(p.intervals, p.activeStart, simTime, trafficStart, simTime) else p.intervals
  }

  // After the samples up to time zero the flag is the one in force then, which is what the scan for the
  // initial state returns; an open period counts from zero and nothing is installed.
  lemma ProgressAtZero(s: seq<Sample>, n: nat, trafficStart: real, simTime: real)
    requires 0.0 <= trafficStart && SortedByTime(s) && IsLeadingRun(s, 0.0, n)
    ensures var p := After(s[..n], trafficStart, simTime);
            p.active == ActiveAt(s, 0.0) && (p.active ==> p.activeStart == 0.0) && p.intervals == []
  {
    LatestOfLeadingRun(s, 0.0, n);
    ProgressUpToZero(s[..n], trafficStart, simTime);
  }

  lemma {:induction false} ProgressUpToZero(s: seq<Sample>, trafficStart: real, simTime: real)
    requires 0.0 <= trafficStart && AllUpTo(s, 0.0)
    ensures var p := After(s, trafficStart, simTime);
            p.active == (s != [] && s[|s| - 1].active) && (p.active ==> p.activeStart == 0.0) && p.intervals == []
  {
    if s == [] {
    } else {
      ProgressUpToZero(s[..|s| - 1], trafficStart, simTime);
    }
  }

  // ---------------------------------------------------------------- what the loop has compiled

  // The time up to which the samples s speak of the simulation.
  function Horizon(s: seq<Sample>): real {
    if s == [] then 0.0 else Max(0.0, s[|s| - 1].time)
  }

  // The installed intervals and the open period together cover exactly the active times.
  ghost predicate Compiled(s: seq<Sample>, p: Progress, trafficStart: real, simTime: real) {
    Schedulable(p.intervals, trafficStart, simTime) && EndBy(p.intervals, Horizon(s)) &&
    (p.active ==> 0.0 <= p.activeStart <= Horizon(s) && EndBy(p.intervals, p.activeStart)) &&
    forall t :: trafficStart <= t < simTime ==>
      (ActiveAt(s, t) <==> Covered(p.intervals, t) || (p.active && p.activeStart <= t))
  }

  lemma ActiveAfter(s: seq<Sample>, x: Sample, t: real)
    requires SortedByTime(s + [x])
    ensures ActiveAt(s + [x], t) <==> if x.time <= t then x.active else ActiveAt(s, t)
  {
    LatestOfSnoc(s, x, t);
  }

  lemma CoveredBefore(ivs: seq<Interval>, upTo: real, t: real)
    requires EndBy(ivs, upTo) && Covered(ivs, t)
    ensures t < upTo
  {
  }

  lemma HorizonGrows(s: seq<Sample>, x: Sample)
    requires SortedByTime(s + [x])
    ensures Horizon(s + [x]) == Max(0.0, x.time) >= Horizon(s)
  {
    assert (s + [x])[|s|] == x;
    assert s != [] ==> s[|s| - 1] == (s + [x])[|s| - 1];
  }

  // The end of an active period.
  lemma CompiledClose(s: seq<Sample>, x: Sample, p: Progress, trafficStart: real, simTime: real)
    requires Compiled(s, p, trafficStart, simTime) && SortedByTime(s + [x])
    requires 0.0 <= x.time && !x.active && p.active
    ensures Compiled(s + [x], Advance(p, x, trafficStart, simTime), trafficStart, simTime)
  {
    hide ActiveAt, Horizon;
    HorizonGrows(s, x);
    var p' := Advance(p, x, trafficStart, simTime);
    forall t | trafficStart <= t < simTime ensures ActiveAt(s + [x], t) <==> Covered(p'.intervals, t) {
      InstallClientCovers(p.intervals, p.activeStart, x.time, trafficStart, simTime, t);
      ActiveAfter(s, x, t);
    }
  }

  // Any other sample from time zero on: the flag follows it, and an opening one starts a period at its time.
  lemma CompiledOpen(s: seq<Sample>, x: Sample, p: Progress, trafficStart: real, simTime: real)
    requires Compiled(s, p, trafficStart, simTime) && SortedByTime(s + [x])
    requires 0.0 <= x.time && (p.active ==> x.active)
    ensures Compiled(s + [x], Advance(p, x, trafficStart, simTime), trafficStart, simTime)
  {
    hide Covered, Schedulable, ActiveAt, Horizon;
    HorizonGrows(s, x);
    var p' := Advance(p, x, trafficStart, simTime);
    forall t | trafficStart <= t < simTime
      ensures ActiveAt(s + [x], t) <==> Covered(p'.intervals, t) || (p'.active && p'.activeStart <= t)
    {
      ActiveAfter(s, x, t);
      if x.time <= t && Covered(p.intervals, t) {
        CoveredBefore(p.intervals, Horizon(s), t);
      }
    }
  }

  // Before time zero nothing is installed and an active period counts from zero.
  lemma CompiledEarly(s: seq<Sample>, x: Sample, p: Progress, trafficStart: real, simTime: real)
    requires SortedByTime(s + [x]) && x.time < 0.0 <= trafficStart && p.intervals == []
    ensures Compiled(s + [x], Advance(p, x, trafficStart, simTime), trafficStart, simTime)
  {
    hide ActiveAt;
    HorizonGrows(s, x);
    forall t | trafficStart <= t < simTime ensures ActiveAt(s + [x], t) <==> x.active {
      ActiveAfter(s, x, t);
    }
  }

  lemma {:induction false} CompiledAfter(s: seq<Sample>, trafficStart: real, simTime: real)
    requires 0.0 <= trafficStart && SortedByTime(s)
    ensures Compiled(s, After(s, trafficStart, simTime), trafficStart, simTime)
  {
    if s == [] {
    } else {
      var init, x := s[..|s| - 1], s[|s| - 1];
      var p := After(init, trafficStart, simTime);
      CompiledAfter(init, trafficStart, simTime);
      assert s == init + [x];
      if x.time < 0.0 {
        ProgressUpToZero(init, trafficStart, simTime);
        CompiledEarly(init, x, p, trafficStart, simTime);
      } else if p.active && !x.active {
        CompiledClose(init, x, p, trafficStart, simTime);
      } else {
        CompiledOpen(init, x, p, trafficStart, simTime);
      }
    }
  }

  // The loop's result covers exactly the active times of the traffic window.
  lemma ClosedServes(s: seq<Sample>, trafficStart: real, simTime: real)
    requires 0.0 <= trafficStart && SortedByTime(s)
    ensures Serves(Closed(After(s, trafficStart, simTime), trafficStart, simTime), s, trafficStart, simTime)
  {
    hide ActiveAt, After;
    var p := After(s, trafficStart, simTime);
    CompiledAfter(s, trafficStart, simTime);
    forall t ensures Covered(Closed(p, trafficStart, simTime), t) <==> trafficStart <= t < simTime && ActiveAt(s, t) {
      if p.active { InstallClientCovers(p.intervals, p.activeStart, simTime, trafficStart, simTime, t); }
    }
  }

  // ---------------------------------------------------------------- one client for each period

  // The active period from sample p.0 up to sample p.1, or to the end of the samples.
  type Period = (nat, nat)

  ghost predicate IsRun(s: seq<Sample>, p: Period) {
    p.0 < p.1 <= |s| && (p.0 == 0 || !s[p.0 - 1].active) && forall k :: p.0 <= k < p.1 ==> s[k].active
  }

  ghost predicate ActivePeriod(s: seq<Sample>, p: Period) {
    IsRun(s, p) && (p.1 == |s| || !s[p.1].active)
  }

  // What the traffic window leaves of a period.
  function Clipped(s: seq<Sample>, p: Period, trafficStart: real, simTime: real): Interval
    requires p.0 < |s| && p.1 <= |s|
  {
    Interval(Max(s[p.0].time, trafficStart), if p.1 == |s| then simTime else Min(s[p.1].time, simTime))
  }

  // The intervals are the periods that end before sample n, clipped, those of which nothing is left omitted.
  ghost predicate OneEach(ivs: seq<Interval>, periods: seq<Period>, s: seq<Sample>, n: nat,
                          trafficStart: real, simTime: real)
  {
    |periods| == |ivs| && (forall i, j :: 0 <= i < j < |periods| ==> periods[i].1 < periods[j].0) &&
    (forall k :: 0 <= k < |periods| ==>
       ActivePeriod(s, periods[k]) && periods[k].1 < n && ivs[k] == Clipped(s, periods[k], trafficStart, simTime)) &&
    forall p: Period :: ActivePeriod(s, p) && p.1 < n &&
                        Clipped(s, p, trafficStart, simTime).start < Clipped(s, p, trafficStart, simTime).stop ==>
                          p in periods
  }

  ghost predicate OnePerPeriod(ivs: seq<Interval>, s: seq<Sample>, trafficStart: real, simTime: real) {
    exists periods, n :: n > |s| && OneEach(ivs, periods, s, n, trafficStart, simTime)
  }

  // The loop has installed one interval for each period that has ended, and knows where the open one began.
  ghost predicate Tracked(s: seq<Sample>, p: Progress, periods: seq<Period>, open: nat,
                          trafficStart: real, simTime: real)
  {
    OneEach(p.intervals, periods, s, |s|, trafficStart, simTime) && p.active == (s != [] && s[|s| - 1].active) &&
    (p.active ==> IsRun(s, (open, |s|)) && p.activeStart == Max(0.0, s[open].time))
  }

  lemma RunSnoc(s: seq<Sample>, x: Sample, p: Period)
    ensures p.1 <= |s| ==> (IsRun(s + [x], p) <==> IsRun(s, p))
    ensures p.1 < |s| ==> (ActivePeriod(s + [x], p) <==> ActivePeriod(s, p))
    ensures p.1 == |s| ==> (ActivePeriod(s + [x], p) <==> IsRun(s, p) && !x.active)
  {
    var s' := s + [x];
    assert forall k {:trigger s[k]} {:trigger s'[k]} :: 0 <= k < |s| ==> s'[k] == s[k];
  }

  lemma RunsEndingTogether(s: seq<Sample>, p: Period, q: Period)
    requires IsRun(s, p) && IsRun(s, q) && p.1 == q.1
    ensures p == q
  {
  }

  lemma ClippedSnoc(s: seq<Sample>, x: Sample, p: Period, trafficStart: real, simTime: real)
    requires p.0 < p.1 <= |s|
    ensures p.1 < |s| ==> Clipped(s + [x], p, trafficStart, simTime) == Clipped(s, p, trafficStart, simTime)
    ensures p.1 == |s| ==> Clipped(s + [x], p, trafficStart, simTime) ==
                           Interval(Max(s[p.0].time, trafficStart), Min(x.time, simTime))
  {
  }

  // A sample that ends no period, or one of which the window leaves nothing.
  lemma NothingEnds(s: seq<Sample>, x: Sample, ivs: seq<Interval>, periods: seq<Period>,
                    trafficStart: real, simTime: real)
    requires OneEach(ivs, periods, s, |s|, trafficStart, simTime)
    requires x.active || (s != [] ==> !s[|s| - 1].active) || x.time <= trafficStart
    ensures OneEach(ivs, periods, s + [x], |s| + 1, trafficStart, simTime)
  {
    forall p: Period | p.1 <= |s| && (ActivePeriod(s, p) || ActivePeriod(s + [x], p))
      ensures p.1 < |s| ==> (ActivePeriod(s + [x], p) <==> ActivePeriod(s, p))
      ensures p.1 < |s| ==> Clipped(s + [x], p, trafficStart, simTime) == Clipped(s, p, trafficStart, simTime)
      ensures p.1 == |s| && ActivePeriod(s + [x], p) ==>
                var iv := Clipped(s + [x], p, trafficStart, simTime); iv.stop <= iv.start
    {
      RunSnoc(s, x, p);
      ClippedSnoc(s, x, p, trafficStart, simTime);
    }
    hide ActivePeriod, Clipped;
  }

  // A sample that ends the period p.
  lemma PeriodEnds(s: seq<Sample>, x: Sample, p: Period, ivs: seq<Interval>, periods: seq<Period>,
                   trafficStart: real, simTime: real)
      returns (periods': seq<Period>)
    requires OneEach(ivs, periods, s, |s|, trafficStart, simTime) && IsRun(s, p) && p.1 == |s| && !x.active
    ensures var ivs' := InstallClient(ivs, s[p.0].time, x.time, trafficStart, simTime);
            OneEach(ivs', periods', s + [x], |s| + 1, trafficStart, simTime)
  {
    forall q: Period | q.1 <= |s| && (ActivePeriod(s, q) || ActivePeriod(s + [x], q))
      ensures q.1 < |s| ==> (ActivePeriod(s + [x], q) <==> ActivePeriod(s, q)) && q.1 < p.0
      ensures q.1 < |s| ==> Clipped(s + [x], q, trafficStart, simTime) == Clipped(s, q, trafficStart, simTime)
      ensures q.1 == |s| ==> q == p
    {
      RunSnoc(s, x, q);
      ClippedSnoc(s, x, q, trafficStart, simTime);
      if q.1 == |s| { RunsEndingTogether(s, p, q); }
    }
    RunSnoc(s, x, p);
    ClippedSnoc(s, x, p, trafficStart, simTime);
    hide ActivePeriod, Clipped, IsRun;
    var iv := Interval(Max(s[p.0].time, trafficStart), Min(x.time, simTime));
    periods' := if iv.stop <= iv.start then periods else periods + [p];
  }

  // Where the open period begins, once one more sample has been looked at.
  lemma OpenSnoc(s: seq<Sample>, x: Sample, p: Progress, open: nat, trafficStart: real, simTime: real)
    requires SortedByTime(s + [x]) && p.active == (s != [] && s[|s| - 1].active)
    requires p.active ==> IsRun(s, (open, |s|)) && p.activeStart == Max(0.0, s[open].time)
    ensures var p' := Advance(p, x, trafficStart, simTime);
            var open' := if p.active then open else |s|;
            p'.active == x.active &&
            (x.active ==> IsRun(s + [x], (open', |s| + 1)) && p'.activeStart == Max(0.0, (s + [x])[open'].time))
  {
    var s' := s + [x];
    if p.active {
      RunSnoc(s, x, (open, |s|));
      assert s'[open].time <= s'[|s|].time;
    }
  }

  lemma TrackedSnoc(s: seq<Sample>, x: Sample, p: Progress, periods: seq<Period>, open: nat,
                    trafficStart: real, simTime: real)
      returns (periods': seq<Period>, open': nat)
    requires 0.0 <= trafficStart && SortedByTime(s + [x]) && Tracked(s, p, periods, open, trafficStart, simTime)
    ensures Tracked(s + [x], Advance(p, x, trafficStart, simTime), periods', open', trafficStart, simTime)
  {
    OpenSnoc(s, x, p, open, trafficStart, simTime);
    open' := if p.active then open else |s|;
    if x.time >= 0.0 && p.active && !x.active {
      SameInterval(p.intervals, s[open].time, x.time, trafficStart, simTime);
      hide OneEach, IsRun, InstallClient, Max, SortedByTime;
      periods' := PeriodEnds(s, x, (open, |s|), p.intervals, periods, trafficStart, simTime);
    } else {
      hide OneEach, IsRun, InstallClient, Max, SortedByTime;
      NothingEnds(s, x, p.intervals, periods, trafficStart, simTime);
      periods' := periods;
    }
  }

  lemma {:induction false} PeriodsAfter(s: seq<Sample>, trafficStart: real, simTime: real)
      returns (periods: seq<Period>, open: nat)
    requires 0.0 <= trafficStart && SortedByTime(s)
    ensures Tracked(s, After(s, trafficStart, simTime), periods, open, trafficStart, simTime)
  {
    if s == [] {
      periods, open := [], 0;
      NoPeriods(trafficStart, simTime);
    } else {
      var init, x := s[..|s| - 1], s[|s| - 1];
      periods, open := PeriodsAfter(init, trafficStart, simTime);
      hide Tracked, Advance;
      assert s == init + [x];
      periods, open := TrackedSnoc(init, x, After(init, trafficStart, simTime), periods, open, trafficStart, simTime);
    }
  }

  lemma NoPeriods(trafficStart: real, simTime: real)
    ensures OneEach([], [], [], 0, trafficStart, simTime)
  {
  }

  // The window starts no earlier than time zero, so it does not matter that early periods count from there.
  lemma SameInterval(ivs: seq<Interval>, start: real, stop: real, trafficStart: real, simTime: real)
    requires 0.0 <= trafficStart
    ensures InstallClient(ivs, Max(0.0, start), stop, trafficStart, simTime) ==
            InstallClient(ivs, start, stop, trafficStart, simTime)
  {
  }

  // The period that is still open at the end of the samples lasts to the end of the simulation.
  lemma LastPeriod(s: seq<Sample>, p: Progress, periods: seq<Period>, open: nat, trafficStart: real, simTime: real)
      returns (periods': seq<Period>)
    requires 0.0 <= trafficStart && Tracked(s, p, periods, open, trafficStart, simTime)
    ensures OneEach(Closed(p, trafficStart, simTime), periods', s, |s| + 1, trafficStart, simTime)
  {
    periods' := periods;
    if p.active {
      SameInterval(p.intervals, s[open].time, simTime, trafficStart, simTime);
      forall q: Period | ActivePeriod(s, q) && q.1 == |s| ensures q == (open, |s|) {
        RunsEndingTogether(s, q, (open, |s|));
      }
      var start := Max(s[open].time, trafficStart);
      assert Clipped(s, (open, |s|), trafficStart, simTime) == Interval(start, simTime);
      if start < simTime {
        periods' := periods + [(open, |s|)];
      }
    }
  }

  /** The loop of the scenario over one UE's samples.  Traffic flows exactly while the UE is active within the
      window, and there is one interval for each whole active period, as far as it lies in the window: so an
      interval ends with an inactive sample or with the simulation, and starts with the window or with an
      active sample that no active one precedes. */
  method TrafficIntervals(samples: seq<Sample>, trafficStart: real, simTime: real) returns (ivs: seq<Interval>)
    requires 0.0 <= trafficStart < simTime && SortedByTime(samples)
    ensures Serves(ivs, samples, trafficStart, simTime)
    ensures OnePerPeriod(ivs, samples, trafficStart, simTime)
    ensures ivs == Closed(After(samples, trafficStart, simTime), trafficStart, simTime)
    ensures forall k :: 0 <= k < |ivs| ==>
              ivs[k].stop == simTime ||
              exists j :: 0 <= j < |samples| && !samples[j].active && samples[j].time == ivs[k].stop
    ensures forall k :: 0 <= k < |ivs| ==>
              ivs[k].start == trafficStart ||
              exists i :: 0 <= i < |samples| && samples[i].active && samples[i].time == ivs[k].start &&
                          (i == 0 || !samples[i - 1].active)
  {
    hide InstallClient, Serves, OneEach, Tracked;
    ivs := [];
    var active, activeStart := false, 0.0;
    for i := 0 to |samples|
      invariant Progress(active, activeStart, ivs) == After(samples[..i], trafficStart, simTime)
    {
      var sample := samples[i];
      assert samples[..i + 1][..i] == samples[..i];
      if sample.time < 0.0 {
        active := sample.active;
        if active {
          activeStart := 0.0;
        }
        continue;
      }
      if sample.active && !active {
        active := true;
        activeStart := sample.time;
      } else if !sample.active && active {
        ivs := InstallClient(ivs, activeStart, sample.time, trafficStart, simTime);
        active := false;
      }
    }
    assert samples[..|samples|] == samples;
    if active {
      ivs := InstallClient(ivs, activeStart, simTime, trafficStart, simTime);
    }
    ClosedServes(samples, trafficStart, simTime);
    ghost var ended: seq<Period>, open: nat;
    ended, open := PeriodsAfter(samples, trafficStart, simTime);
    ghost var periods := LastPeriod(samples, After(samples, trafficStart, simTime), ended, open, trafficStart, simTime);
    IntervalEnds(ivs, periods, samples, trafficStart, simTime);
  }

  lemma IntervalEnds(ivs: seq<Interval>, periods: seq<Period>, s: seq<Sample>, trafficStart: real, simTime: real)
    requires OneEach(ivs, periods, s, |s| + 1, trafficStart, simTime)
    ensures forall k :: 0 <= k < |ivs| ==>
              ivs[k].stop == simTime || exists j :: 0 <= j < |s| && !s[j].active && s[j].time == ivs[k].stop
    ensures forall k :: 0 <= k < |ivs| ==>
              ivs[k].start == trafficStart ||
              exists i :: 0 <= i < |s| && s[i].active && s[i].time == ivs[k].start && (i == 0 || !s[i - 1].active)
  {
    forall k | 0 <= k < |ivs|
      ensures ivs[k].stop == simTime || exists j :: 0 <= j < |s| && !s[j].active && s[j].time == ivs[k].stop
      ensures ivs[k].start == trafficStart ||
              exists i :: 0 <= i < |s| && s[i].active && s[i].time == ivs[k].start && (i == 0 || !s[i - 1].active)
    {
      var p := periods[k];
      assert s[p.0].active && (p.1 < |s| ==> !s[p.1].active);
    }
  }
}
