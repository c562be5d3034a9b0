/** The event list of the simulator and the replay of UE traces through it. */
module Replay {
  import opened UeTraces
  import opened Wrappers

  datatype Mobility = Mobility(position: Vector, active: bool)

  // An event sets the position and the active flag of one UE, or stops the simulation.
  datatype Event =
    | SampleEvent(time: real, uid: nat, ue: nat, sample: Sample)
    | StopEvent(time: real, uid: nat)

  predicate KeyLess(a: Event, b: Event) {
    a.time < b.time || (a.time == b.time && a.uid < b.uid)
  }

  // ---------------------------------------------------------------- the event list as a value

  function InsertEvent(q: seq<Event>, e: Event): seq<Event> {
    if q == [] || KeyLess(e, q[0]) then [e] + q else [q[0]] + InsertEvent(q[1..], e)
  }

  // The samples still to be applied to one UE, in the order in which the list will apply them.
  function SamplesOf(q: seq<Event>, ue: nat): seq<Sample> {
    if q == [] then []
    else (if q[0].SampleEvent? && q[0].ue == ue then [q[0].sample] else []) + SamplesOf(q[1..], ue)
  }

  // The events in front of the first one that stops the simulation.
  function BeforeStop(q: seq<Event>): seq<Event> {
    if q == [] || q[0].StopEvent? then [] else [q[0]] + BeforeStop(q[1..])
  }

  ghost predicate InKeyOrder(q: seq<Event>) {
    forall i, j :: 0 <= i < j < |q| ==> KeyLess(q[i], q[j])
  }

  // Sample events are due at the times of their samples.
  ghost predicate Timed(q: seq<Event>) {
    forall i :: 0 <= i < |q| && q[i].SampleEvent? ==> q[i].time == q[i].sample.time
  }

  // Every event was scheduled before uid was handed out, a sample at its own time for one of n UEs.
  ghost predicate Scheduled(q: seq<Event>, uid: nat, n: nat) {
    Timed(q) && forall i :: 0 <= i < |q| ==> q[i].uid < uid && (q[i].SampleEvent? ==> q[i].ue < n)
  }

  lemma {:induction false} InsertEventMembers(q: seq<Event>, e: Event)
    ensures forall x :: x in InsertEvent(q, e) <==> x in q || x == e
  {
    if q != [] && !KeyLess(e, q[0]) {
      InsertEventMembers(q[1..], e);
      assert q == [q[0]] + q[1..];
    }
  }

  lemma {:induction false} InsertEventInOrder(q: seq<Event>, e: Event)
    requires InKeyOrder(q) && forall i :: 0 <= i < |q| ==> q[i].uid < e.uid
    ensures InKeyOrder(InsertEvent(q, e))
  {
    if q != [] && !KeyLess(e, q[0]) {
      var rest := q[1..];
      InsertEventInOrder(rest, e);
      InsertEventMembers(rest, e);
      var r := InsertEvent(rest, e);
      forall i | 0 <= i < |r| ensures KeyLess(q[0], r[i]) {
        assert r[i] in r;
        if r[i] != e {
          var j :| 0 <= j < |rest| && rest[j] == r[i];
          assert KeyLess(q[0], q[j + 1]);
        }
      }
    }
  }

  lemma {:induction false} SamplesOfSorted(q: seq<Event>, ue: nat, t: real)
    requires InKeyOrder(q) && Timed(q)
    requires forall k :: 0 <= k < |q| ==> t <= q[k].time
    ensures SortedByTime(SamplesOf(q, ue)) && forall k :: 0 <= k < |SamplesOf(q, ue)| ==> t <= SamplesOf(q, ue)[k].time
  {
    if q == [] {
    } else {
      forall k | 0 <= k < |q[1..]| ensures q[0].time <= q[1..][k].time {
        assert KeyLess(q[0], q[k + 1]);
      }
      SamplesOfSorted(q[1..], ue, q[0].time);
    }
  }

  lemma FirstNotLater(q: seq<Event>, ue: nat, t: real)
    requires q != [] && InKeyOrder(q) && Timed(q)
    requires AllUpTo(SamplesOf(q, ue), t)
    ensures SamplesOf(q, ue) == [] || q[0].time <= t
  {
    forall k | 0 <= k < |q| ensures q[0].time <= q[k].time {
      assert k > 0 ==> KeyLess(q[0], q[k]);
    }
    SamplesOfSorted(q, ue, q[0].time);
    if SamplesOf(q, ue) != [] {
      assert q[0].time <= SamplesOf(q, ue)[0].time <= t;
    }
  }

  lemma InKeyOrderTail(q: seq<Event>)
    requires q != [] && InKeyOrder(q)
    ensures InKeyOrder(q[1..])
  {
  }

  // A new event goes behind the events of its own UE that are not later: first in, first out on ties.
  lemma {:induction false} InsertEventAppends(q: seq<Event>, e: Event, n: nat, ue: nat)
    requires InKeyOrder(q) && Scheduled(q, e.uid, n) && e.SampleEvent? && e.time == e.sample.time
    requires AllUpTo(SamplesOf(q, e.ue), e.time)
    ensures SamplesOf(InsertEvent(q, e), ue) == SamplesOf(q, ue) + if e.ue == ue then [e.sample] else []
  {
    if q == [] {
      assert [e][1..] == [];
    } else if KeyLess(e, q[0]) {
      FirstNotLater(q, e.ue, e.time);
      assert ([e] + q)[1..] == q;
    } else {
      var rest := q[1..];
      var s, r := SamplesOf(q, e.ue), SamplesOf(rest, e.ue);
      assert r == s[|s| - |r|..];
      hide InKeyOrder;
      InKeyOrderTail(q);
      InsertEventAppends(rest, e, n, ue);
      assert ([q[0]] + InsertEvent(rest, e))[1..] == InsertEvent(rest, e);
    }
  }

  // An event with the largest key goes to the end.
  lemma {:induction false} InsertEventLast(q: seq<Event>, e: Event)
    requires forall k :: 0 <= k < |q| ==> q[k].uid < e.uid && q[k].time <= e.time
    ensures InsertEvent(q, e) == q + [e]
  {
    if q == [] {
    } else {
      InsertEventLast(q[1..], e);
    }
  }

  lemma {:induction false} BeforeStopPrefix(q: seq<Event>)
    ensures BeforeStop(q) <= q
    ensures InKeyOrder(q) ==> InKeyOrder(BeforeStop(q))
    ensures Timed(q) ==> Timed(BeforeStop(q))
  {
    if q == [] || q[0].StopEvent? {
    } else {
      BeforeStopPrefix(q[1..]);
      assert q == [q[0]] + q[1..];
    }
  }

  lemma {:induction false} BeforeStopAtEnd(q: seq<Event>, e: Event)
    requires e.StopEvent? && forall k :: 0 <= k < |q| ==> q[k].SampleEvent?
    ensures BeforeStop(q + [e]) == q
  {
    if q == [] {
    } else {
      BeforeStopAtEnd(q[1..], e);
      assert (q + [e])[1..] == q[1..] + [e];
    }
  }

  // ---------------------------------------------------------------- what a replay leaves behind

  // The state of a UE that started in m once all samples of s with time <= t have been applied.
  function Replayed(m: Mobility, s: seq<Sample>, t: real): Mobility {
    if Latest(s, t).Some? then Mobility(Latest(s, t).value.position, Latest(s, t).value.active) else m
  }

  lemma {:induction false} LatestCons(x: Sample, s: seq<Sample>, t: real)
    requires x.time <= t && forall k :: 0 <= k < |s| ==> x.time <= s[k].time
    ensures Latest([x] + s, t) == if Latest(s, t).Some? then Latest(s, t) else Some(x)
  {
    if s == [] {
      assert [x] + s == [] + [x];
      LatestSnoc([], x, t);
    } else {
      var init, y := s[..|s| - 1], s[|s| - 1];
      LatestCons(x, init, t);
      assert [x] + s == ([x] + init) + [y];
      LatestSnoc([x] + init, y, t);
    }
  }

  lemma ReplayedStep(m: Mobility, q: seq<Event>, ue: nat, t: real)
    requires q != [] && InKeyOrder(q) && Timed(q) && q[0].SampleEvent? && q[0].time <= t
    ensures var m' := if q[0].ue == ue then Mobility(q[0].sample.position, q[0].sample.active) else m;
            Replayed(m', SamplesOf(q[1..], ue), t) == Replayed(m, SamplesOf(q, ue), t)
  {
    if q[0].ue == ue {
      forall k | 0 <= k < |q[1..]| ensures q[0].time <= q[1..][k].time {
        assert KeyLess(q[0], q[k + 1]);
      }
      SamplesOfSorted(q[1..], ue, q[0].time);
      LatestCons(q[0].sample, SamplesOf(q[1..], ue), t);
    } else {
      assert SamplesOf(q, ue) == SamplesOf(q[1..], ue);
    }
  }

  lemma ReplayedDone(m: Mobility, q: seq<Event>, ue: nat, t: real)
    requires InKeyOrder(q) && Timed(q) && (q != [] ==> t < q[0].time)
    ensures Replayed(m, SamplesOf(q, ue), t) == m
  {
    if q != [] {
      forall k | 0 <= k < |q| ensures q[0].time <= q[k].time {
        assert k > 0 ==> KeyLess(q[0], q[k]);
      }
      SamplesOfSorted(q, ue, q[0].time);
      LatestMeaning(SamplesOf(q, ue), t);
    }
  }

  // The state in which the samples due by t and in front of the first stop leave a UE.
  function Target(m: Mobility, q: seq<Event>, ue: nat, t: real): Mobility {
    Replayed(m, SamplesOf(BeforeStop(q), ue), t)
  }

  lemma TargetStep(m: Mobility, q: seq<Event>, ue: nat, t: real)
    requires q != [] && InKeyOrder(q) && Timed(q) && q[0].time <= t
    ensures q[0].StopEvent? ==> Target(m, q, ue, t) == m
    ensures q[0].SampleEvent? ==>
              var m' := if q[0].ue == ue then Mobility(q[0].sample.position, q[0].sample.active) else m;
              Target(m', q[1..], ue, t) == Target(m, q, ue, t)
  {
    BeforeStopPrefix(q);
    if q[0].SampleEvent? {
      assert BeforeStop(q)[1..] == BeforeStop(q[1..]);
      ReplayedStep(m, BeforeStop(q), ue, t);
    }
  }

  lemma TargetDone(m: Mobility, q: seq<Event>, ue: nat, t: real)
    requires InKeyOrder(q) && Timed(q) && (q != [] ==> t < q[0].time)
    ensures Target(m, q, ue, t) == m
  {
    BeforeStopPrefix(q);
    ReplayedDone(m, BeforeStop(q), ue, t);
  }

  // ---------------------------------------------------------------- scheduling a trace

  // The samples that are scheduled at all.
  function Playable(s: seq<Sample>, simTime: real): seq<Sample> {
    if s == [] then []
    else
      var x := s[|s| - 1];
      Playable(s[..|s| - 1], simTime) + if x.time < 0.0 || simTime < x.time then [] else [x]
  }

  lemma {:induction false} PlayableUpTo(s: seq<Sample>, simTime: real, t: real)
    requires AllUpTo(s, t)
    ensures AllUpTo(Playable(s, simTime), t)
  {
    if s == [] {
    } else {
      PlayableUpTo(s[..|s| - 1], simTime, t);
    }
  }

  lemma PlayableSnoc(s: seq<Sample>, x: Sample, simTime: real)
    ensures Playable(s + [x], simTime) ==
            if 0.0 <= x.time <= simTime then Playable(s, simTime) + [x] else Playable(s, simTime)
  {
  }

  // Skipping the early and the late samples hides nothing at the times the simulation passes through.
  lemma {:induction false} LatestPlayable(s: seq<Sample>, simTime: real, t: real)
    requires SortedByTime(s) && 0.0 <= t <= simTime
    ensures Latest(Playable(s, simTime), t) ==
            if Latest(s, t).Some? && 0.0 <= Latest(s, t).value.time then Latest(s, t) else None
  {
    if s == [] {
    } else {
      var init, x := s[..|s| - 1], s[|s| - 1];
      LatestPlayable(init, simTime, t);
      assert s == init + [x];
      LatestOfSnoc(init, x, t);
      PlayableSnoc(init, x, simTime);
      LatestSnoc(Playable(init, simTime), x, t);
      hide Latest, Playable, SortedByTime;
    }
  }

  lemma EarlyLatest(s: seq<Sample>, t: real)
    requires SortedByTime(s) && 0.0 <= t && (Latest(s, t).Some? ==> Latest(s, t).value.time < 0.0)
    ensures Latest(s, 0.0) == Latest(s, t)
  {
  }

  // Starting from the initial scans and replaying the scheduled samples gives the state the whole
  // trace prescribes, at every time of the simulation.
  lemma ReplayIsFaithful(s: seq<Sample>, simTime: real, t: real)
    requires SortedByTime(s) && s != [] && 0.0 <= t <= simTime
    ensures Replayed(Mobility(PositionAt(s, 0.0), ActiveAt(s, 0.0)), Playable(s, simTime), t)
            == Mobility(PositionAt(s, t), ActiveAt(s, t))
  {
    LatestPlayable(s, simTime, t);
    if Latest(Playable(s, simTime), t).None? { EarlyLatest(s, t); }
  }

  // ---------------------------------------------------------------- the simulator

  class Simulation {
    var events: seq<Event>
    var nextUid: nat
    var now: real
    var stop: bool
    var models: seq<Mobility>

    ghost predicate Valid()
      reads this
    {
      InKeyOrder(events) && Scheduled(events, nextUid, |models|)
    }

    constructor (models: seq<Mobility>)
      ensures Valid() && events == [] && now == 0.0 && !stop && this.models == models
    {
      events, nextUid, now, stop := [], 0, 0.0, false;
      this.models := models;
    }

    // Puts an event in front of the first one with a larger key.
    method Insert(e: Event)
      modifies this`events
      ensures events == InsertEvent(old(events), e)
    {
      var i := 0;
      while i < |events| && !KeyLess(e, events[i])
        invariant i <= |events|
        invariant InsertEvent(events, e) == events[..i] + InsertEvent(events[i..], e)
      {
        assert events[..i] + [events[i]] == events[..i + 1];
        assert events[i..][1..] == events[i + 1..];
        i := i + 1;
      }
      events := events[..i] + [e] + events[i..];
    }

    // Hands out the next uid and inserts the event.
    method Schedule(e: Event)
      requires Valid() && e.uid == nextUid
      requires e.SampleEvent? ==> e.ue < |models| && e.time == e.sample.time
      modifies this`events, this`nextUid
      ensures Valid() && events == InsertEvent(old(events), e) && nextUid == old(nextUid) + 1
      ensures forall x :: x in events <==> x in old(events) || x == e
    {
      InsertEventInOrder(events, e);
      InsertEventMembers(events, e);
      ghost var before := events;
      Insert(e);
      nextUid := nextUid + 1;
      forall i | 0 <= i < |events|
        ensures events[i].uid < nextUid
        ensures events[i].SampleEvent? ==> events[i].time == events[i].sample.time && events[i].ue < |models|
      {
        assert events[i] in events;
        if events[i] != e {
          var j :| 0 <= j < |before| && before[j] == events[i];
        }
      }
    }

    // Schedules a sample of a UE; at set-up time the delay is the time of the sample.
    method ScheduleSample(ue: nat, sample: Sample)
      requires Valid() && now == 0.0 && 0.0 <= sample.time && ue < |models|
      requires AllUpTo(SamplesOf(events, ue), sample.time)
      modifies this`events, this`nextUid
      ensures Valid() && events == InsertEvent(old(events), SampleEvent(sample.time, old(nextUid), ue, sample))
      ensures forall x :: x in events <==> x in old(events) || x == SampleEvent(sample.time, old(nextUid), ue, sample)
      ensures SamplesOf(events, ue) == SamplesOf(old(events), ue) + [sample]
      ensures forall v :: v != ue ==> SamplesOf(events, v) == SamplesOf(old(events), v)
    {
      var e := SampleEvent(now + sample.time, nextUid, ue, sample);
      forall v
        ensures SamplesOf(InsertEvent(events, e), v) == SamplesOf(events, v) + if e.ue == v then [sample] else []
      {
        InsertEventAppends(events, e, |models|, v);
      }
      Schedule(e);
    }

    // Only samples due by simTime are waiting.
    ghost predicate SamplesBy(simTime: real)
      reads this`events
    {
      forall x :: x in events ==> x.SampleEvent? && x.time <= simTime
    }

    // Schedules the samples of one UE that lie in [0, simTime].
    method ScheduleTrace(ue: nat, samples: seq<Sample>, simTime: real)
      requires Valid() && now == 0.0 && ue < |models| && SortedByTime(samples)
      requires SamplesOf(events, ue) == []
      modifies this`events, this`nextUid
      ensures Valid() && (old(SamplesBy(simTime)) ==> SamplesBy(simTime))
      ensures SamplesOf(events, ue) == Playable(samples, simTime)
      ensures forall v :: v != ue ==> SamplesOf(events, v) == SamplesOf(old(events), v)
    {
      for i := 0 to |samples|
        invariant Valid() && (old(SamplesBy(simTime)) ==> SamplesBy(simTime))
        invariant SamplesOf(events, ue) == Playable(samples[..i], simTime)
        invariant forall v :: v != ue ==> SamplesOf(events, v) == SamplesOf(old(events), v)
      {
        hide SamplesOf, Valid, InsertEvent;
        assert samples[..i + 1][..i] == samples[..i];
        var sample := samples[i];
        if sample.time < 0.0 || simTime < sample.time {
          assert Playable(samples[..i + 1], simTime) == Playable(samples[..i], simTime);
          continue;
        }
        PlayableUpTo(samples[..i], simTime, sample.time);
        ScheduleSample(ue, sample);
      }
      assert samples[..|samples|] == samples;
    }

    // Schedules the end of the simulation behind everything that is due by then.
    method ScheduleStop(simTime: real)
      requires Valid() && now == 0.0 && SamplesBy(simTime)
      modifies this`events, this`nextUid
      ensures Valid() && events == old(events) + [StopEvent(simTime, old(nextUid))]
      ensures BeforeStop(events) == old(events)
    {
      var e := StopEvent(now + simTime, nextUid);
      forall k | 0 <= k < |events| ensures events[k].SampleEvent? && events[k].time <= simTime {
        assert events[k] in events;
      }
      InsertEventLast(events, e);
      BeforeStopAtEnd(events, e);
      Schedule(e);
    }

    // Where UE u is headed: its state if the simulation was stopped.
    ghost function Heading(u: nat, t: real): Mobility
      requires u < |models|
      reads this
    {
      if stop then models[u] else Target(models[u], events, u, t)
    }

    method ProcessOneEvent(ghost t: real)
      requires Valid() && !stop && events != [] && events[0].time <= t
      modifies this`events, this`now, this`models, this`stop
      ensures Valid() && events == old(events)[1..] && now == old(events)[0].time && stop == old(events)[0].StopEvent?
      ensures |models| == |old(models)|
      ensures forall u :: 0 <= u < |models| ==> Heading(u, t) == Target(old(models)[u], old(events), u, t)
    {
      ghost var q, before := events, models;
      forall u: nat | u < |models|
        ensures q[0].StopEvent? ==> Target(models[u], q, u, t) == models[u]
        ensures q[0].SampleEvent? ==>
                  var moved := if q[0].ue == u then Mobility(q[0].sample.position, q[0].sample.active) else models[u];
                  Target(moved, q[1..], u, t) == Target(models[u], q, u, t)
      {
        TargetStep(models[u], q, u, t);
      }
      hide Target;
      var next := events[0];
      events := events[1..];
      now := next.time;
      match next {
        case SampleEvent(_, _, ue, sample) =>
          models := models[ue := Mobility(sample.position, sample.active)];
        case StopEvent(_, _) =>
          stop := true;
      }
    }

    // The simulation as far as time t: the events due by then, or those up to the first stop.
    method RunUntil(t: real)
      requires Valid()
      modifies this`events, this`now, this`models, this`stop
      ensures Valid() && |models| == |old(models)|
      ensures forall u :: 0 <= u < |models| ==> models[u] == Target(old(models)[u], old(events), u, t)
      ensures stop || forall i :: 0 <= i < |events| ==> t < events[i].time
      ensures exists n :: 0 <= n <= |old(events)| && events == old(events)[n..] &&
                          now == (if n == 0 then old(now) else old(events)[n - 1].time) &&
                          stop == (n > 0 && old(events)[n - 1].StopEvent?)
    {
      hide Target;
      stop := false;
      ghost var n := 0;
      while events != [] && !stop && events[0].time <= t
        invariant Valid() && |models| == |old(models)|
        invariant forall u :: 0 <= u < |models| ==> Heading(u, t) == Target(old(models)[u], old(events), u, t)
        invariant 0 <= n <= |old(events)| && events == old(events)[n..]
        invariant now == if n == 0 then old(now) else old(events)[n - 1].time
        invariant stop == (n > 0 && old(events)[n - 1].StopEvent?)
        decreases |events|
      {
        n := n + 1;
        ProcessOneEvent(t);
      }
      if !stop {
        forall u | 0 <= u < |models| ensures Target(models[u], events, u, t) == models[u] {
          TargetDone(models[u], events, u, t);
        }
        forall i | 0 <= i < |events| ensures t < events[i].time {
          assert i > 0 ==> KeyLess(events[0], events[i]);
        }
      }
    }

    // The simulation to its end: until nothing is left or an event has stopped it.
    method Run(ghost t: real)
      requires Valid() && forall i :: 0 <= i < |events| ==> events[i].time <= t
      modifies this`events, this`now, this`models, this`stop
      ensures Valid() && |models| == |old(models)| && (stop || events == [])
      ensures forall u :: 0 <= u < |models| ==> models[u] == Target(old(models)[u], old(events), u, t)
    {
      hide Target;
      stop := false;
      while events != [] && !stop
        invariant Valid() && |models| == |old(models)|
        invariant forall i :: 0 <= i < |events| ==> events[i].time <= t
        invariant forall u :: 0 <= u < |models| ==> Heading(u, t) == Target(old(models)[u], old(events), u, t)
        decreases |events|
      {
        ProcessOneEvent(t);
      }
      if !stop {
        forall u | 0 <= u < |models| ensures Target(models[u], events, u, t) == models[u] {
          TargetDone(models[u], events, u, t);
        }
      }
    }
  }
}
