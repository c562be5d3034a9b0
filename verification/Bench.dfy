/** The scheduler benchmark: a population of self-renewing events, and the suite that runs it. */
module Bench {
  import opened Wrappers

  datatype SchedulerType = MapScheduler | CalendarScheduler | HeapScheduler | ListScheduler | PriorityQueueScheduler

  // ---------------------------------------------------------------- one run as a transition system

  // The pending event times, the events counted, the callbacks executed, and whether a stop was requested.
  datatype State = State(pending: seq<nat>, count: nat, callbacks: nat, stopped: bool)

  function Remove(s: seq<nat>, k: nat): seq<nat>
    requires k < |s|
  {
    s[..k] + s[k + 1..]
  }

  // The callback of the k-th pending event, which draws the given delay if it reschedules itself.
  function Callback(s: State, total: nat, k: nat, delay: nat): State
    requires k < |s.pending|
  {
    var rest := Remove(s.pending, k);
    if s.count >= total then State(rest, s.count, s.callbacks + 1, true)
    else State(rest + [s.pending[k] + delay], s.count + 1, s.callbacks + 1, s.stopped)
  }

  predicate Finished(s: State) {
    s.pending == [] || s.stopped
  }

  // Some scheduler may pick this event next, and some delay may be drawn.
  ghost predicate Step(total: nat, s: State, s': State) {
    !Finished(s) && exists k: nat, delay: nat :: k < |s.pending| && s' == Callback(s, total, k, delay)
  }

  /** A callback that renews itself takes one event away and puts one back, later by exactly the delay; when
      the total is reached none is put back and the run is stopped. */
  lemma StepRenews(total: nat, s: State, s': State) returns (k: nat, delay: nat)
    requires Step(total, s, s')
    ensures k < |s.pending|
    ensures s.count < total ==>
              s'.pending == s.pending[..k] + s.pending[k + 1..] + [s.pending[k] + delay] &&
              s'.count == s.count + 1 && !s'.stopped
    ensures s.count >= total ==>
              s'.pending == s.pending[..k] + s.pending[k + 1..] && s'.count == s.count && s'.stopped
  {
    k, delay :| k < |s.pending| && s' == Callback(s, total, k, delay);
  }

  // The earliest pending event is executed, at the given time.
  ghost predicate EarliestStep(total: nat, s: State, s': State, at: nat) {
    exists k: nat, delay: nat :: k < |s.pending| && s.pending[k] == at && s' == Callback(s, total, k, delay) &&
                                 forall m :: 0 <= m < |s.pending| ==> at <= s.pending[m]
  }

  ghost predicate EarliestFirst(total: nat, trace: seq<State>, at: seq<nat>) {
    |trace| == |at| + 1 && forall i :: 0 <= i < |at| ==> EarliestStep(total, trace[i], trace[i + 1], at[i])
  }

  lemma {:induction false} PendingLater(total: nat, trace: seq<State>, at: seq<nat>, i: nat, j: nat)
    requires EarliestFirst(total, trace, at) && i < |at| && i <= j < |trace|
    ensures forall m :: 0 <= m < |trace[j].pending| ==> at[i] <= trace[j].pending[m]
    decreases j
  {
    if i == j {
      assert EarliestStep(total, trace[i], trace[i + 1], at[i]);
    } else {
      var n := j - 1;
      PendingLater(total, trace, at, i, n);
      assert EarliestStep(total, trace[n], trace[n + 1], at[n]);
    }
  }

  // A scheduler that always picks the earliest event never makes time run backwards.
  lemma TimeMovesForward(total: nat, trace: seq<State>, at: seq<nat>, i: nat, j: nat)
    requires EarliestFirst(total, trace, at) && i <= j < |at|
    ensures at[i] <= at[j]
  {
    PendingLater(total, trace, at, i, j);
    assert EarliestStep(total, trace[j], trace[j + 1], at[j]);
  }

  lemma CallbackIsStep(s: State, total: nat, k: nat, delay: nat)
    requires !Finished(s) && k < |s.pending|
    ensures Step(total, s, Callback(s, total, k, delay))
  {
  }

  ghost predicate IsRun(total: nat, population: nat, trace: seq<State>) {
    trace != [] && |trace[0].pending| == population && trace[0].count == trace[0].callbacks == 0 && !trace[0].stopped &&
    forall i :: 0 <= i < |trace| - 1 ==> Step(total, trace[i], trace[i + 1])
  }

  // Every state of every run, whatever the scheduler picks and the delays are.
  ghost predicate Balanced(total: nat, population: nat, i: nat, s: State) {
    s.callbacks == i && s.count <= total &&
    if s.stopped then s.count == total && i == total + 1 && |s.pending| == population - 1
    else s.count == i && |s.pending| == population
  }

  lemma {:induction false} RunBalanced(total: nat, population: nat, trace: seq<State>, i: nat)
    requires IsRun(total, population, trace) && i < |trace|
    ensures Balanced(total, population, i, trace[i])
  {
    if i == 0 {
    } else {
      RunBalanced(total, population, trace, i - 1);
      assert Step(total, trace[i - 1], trace[i - 1 + 1]);
    }
  }

  // No run is longer than total + 1 callbacks; one that cannot go on has executed exactly that many and
  // counted total events, or had nothing to execute in the first place.
  lemma RunOutcome(total: nat, population: nat, trace: seq<State>)
    requires IsRun(total, population, trace)
    ensures |trace| <= total + 2
    ensures var last := trace[|trace| - 1];
            Finished(last) ==>
              if population == 0 then last.count == last.callbacks == 0
              else last.stopped && last.count == total && last.callbacks == total + 1 == |trace| - 1
  {
    var n := |trace| - 1;
    RunBalanced(total, population, trace, n);
    if n > 0 {
      RunBalanced(total, population, trace, n - 1);
      assert Step(total, trace[n - 1], trace[n - 1 + 1]);
    }
  }

  // The population is kept: before every callback exactly as many events are pending as were at the start.
  lemma PopulationKept(total: nat, population: nat, trace: seq<State>, i: nat)
    requires IsRun(total, population, trace) && i < |trace| && !Finished(trace[i])
    ensures |trace[i].pending| == population && trace[i].count <= total
  {
    RunBalanced(total, population, trace, i);
  }

  // ---------------------------------------------------------------- the simulator singleton

  // With no implementation object, the next use creates one with the default scheduler and no events.
  class Simulator {
    var scheduler: Option<SchedulerType>
    var pending: seq<nat>
    var now: nat
    var stop: bool

    ghost predicate Fresh()
      reads this
    {
      scheduler.None? && pending == []
    }

    constructor ()
      ensures Fresh()
    {
      scheduler, pending, now, stop := None, [], 0, false;
    }

    method GetImpl()
      requires scheduler.None? ==> pending == []
      modifies this
      ensures scheduler == (if old(scheduler).None? then Some(MapScheduler) else old(scheduler))
      ensures pending == old(pending) && stop == old(stop)
      ensures now == if old(scheduler).None? then 0 else old(now)
    {
      if scheduler.None? {
        scheduler, now := Some(MapScheduler), 0;
      }
    }

    // The pending events move to the new scheduler.
    method SetScheduler(s: SchedulerType)
      requires scheduler.None? ==> pending == []
      modifies this
      ensures scheduler == Some(s) && pending == old(pending)
    {
      GetImpl();
      scheduler := Some(s);
    }

    method Schedule(delay: nat)
      requires scheduler.None? ==> pending == []
      modifies this
      ensures scheduler == (if old(scheduler).None? then Some(MapScheduler) else old(scheduler))
      ensures pending == old(pending) + [now + delay] && stop == old(stop)
      ensures old(scheduler).Some? ==> now == old(now)
    {
      GetImpl();
      pending := pending + [now + delay];
    }

    method Destroy()
      modifies this
      ensures Fresh()
    {
      scheduler, pending := None, [];
    }
  }

  // ---------------------------------------------------------------- the benchmark

  datatype Outcome = Outcome(population: nat, events: nat)

  class Benchmark {
    const simulator: Simulator
    var population: nat
    var total: nat
    var count: nat

    constructor (simulator: Simulator, population: nat, total: nat)
      ensures this.simulator == simulator && this.population == population && this.total == total
    {
      this.simulator, this.population, this.total, this.count := simulator, population, total, 0;
    }

    ghost function Current(callbacks: nat): State
      reads this, simulator
    {
      State(simulator.pending, count, callbacks, simulator.stop)
    }

    // Removes some pending event and executes its callback.
    method ProcessOneEvent(ghost callbacks: nat) returns (ghost k: nat, ghost delay: nat)
      requires simulator.pending != [] && simulator.scheduler.Some? && !simulator.stop
      modifies this`count, simulator
      ensures simulator.scheduler == old(simulator.scheduler)
      ensures Step(total, old(Current(callbacks)), Current(callbacks + 1))
      ensures k < |old(simulator.pending)| && simulator.now == old(simulator.pending)[k]
      ensures simulator.pending ==
              old(simulator.pending)[..k] + old(simulator.pending)[k + 1..] +
              if old(count) < total then [simulator.now + delay] else []
    {
      ghost var before := Current(callbacks);
      var next: nat :| next < |simulator.pending|;
      k := next;
      simulator.now := simulator.pending[next];
      simulator.pending := simulator.pending[..next] + simulator.pending[next + 1..];
      var after: nat := *;
      delay := after;
      if count >= total {
        simulator.stop := true;
      } else {
        simulator.Schedule(after);
        count := count + 1;
      }
      assert Current(callbacks + 1) == Callback(before, total, k, delay);
      CallbackIsStep(before, total, k, delay);
    }

    // `used` is the scheduler in force while the events are executed.
    method Run() returns (result: Outcome, used: SchedulerType, ghost trace: seq<State>)
      requires simulator.pending == []
      modifies this`count, simulator
      ensures simulator.Fresh()
      ensures used == if old(simulator.scheduler).Some? then old(simulator.scheduler).value else MapScheduler
      ensures IsRun(total, population, trace) && Finished(trace[|trace| - 1])
      ensures result == Outcome(population, trace[|trace| - 1].count)
      ensures result.events == count == if population == 0 then 0 else total
    {
      count := 0;
      for i := 0 to population
        invariant |simulator.pending| == i && count == 0
        invariant simulator.scheduler == old(simulator.scheduler) ||
                  (old(simulator.scheduler).None? && simulator.scheduler == Some(MapScheduler))
        invariant simulator.scheduler.None? ==> simulator.pending == []
      {
        var at: nat := *;
        simulator.Schedule(at);
      }
      simulator.GetImpl();
      simulator.stop := false;
      used := simulator.scheduler.value;
      trace := [Current(0)];
      while simulator.pending != [] && !simulator.stop
        invariant simulator.scheduler == Some(used)
        invariant IsRun(total, population, trace) && trace[|trace| - 1] == Current(|trace| - 1)
        decreases total + 2 - |trace|
      {
        RunOutcome(total, population, trace);
        ghost var callbacks := |trace| - 1;
        ghost var k, delay := ProcessOneEvent(callbacks);
        trace := trace + [Current(callbacks + 1)];
        RunOutcome(total, population, trace);
      }
      RunOutcome(total, population, trace);
      result := Outcome(population, count);
      simulator.Destroy();
    }
  }

  // ---------------------------------------------------------------- the suite

  /** A priming run followed by the data runs, all meant for the requested scheduler.  The scheduler is
      set once, and every run destroys the simulator it used, so only the priming run is sure to get it. */
  method RunSuite(simulator: Simulator, requested: SchedulerType, population: nat, total: nat, runs: nat)
      returns (prime: SchedulerType, used: seq<SchedulerType>, results: seq<Outcome>)
    requires simulator.Fresh()
    modifies simulator
    ensures simulator.Fresh() && |used| == |results| == runs
    ensures prime == requested && forall i :: 0 <= i < runs ==> used[i] == MapScheduler
    ensures forall i :: 0 <= i < runs ==> results[i] == Outcome(population, if population == 0 then 0 else total)
    ensures (forall i :: 0 <= i < runs ==> used[i] == requested) <==> runs == 0 || requested == MapScheduler
  {
    simulator.SetScheduler(requested);
    var bench := new Benchmark(simulator, population, total);
    var primed: Outcome;
    ghost var trace;
    primed, prime, trace := bench.Run();
    used, results := [], [];
    for i := 0 to runs
      invariant simulator.Fresh() && |used| == |results| == i
      invariant bench.population == population && bench.total == total
      invariant forall j :: 0 <= j < i ==> used[j] == MapScheduler
      invariant forall j :: 0 <= j < i ==> results[j] == Outcome(population, if population == 0 then 0 else total)
    {
      var result: Outcome, scheduler: SchedulerType;
      ghost var trace';
      result, scheduler, trace' := bench.Run();
      used, results := used + [scheduler], results + [result];
    }
    assert runs > 0 ==> used[0] == MapScheduler;
  }
}
