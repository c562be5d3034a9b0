/** From the rows of a trace file to the replayed mobility and the installed traffic. */
module Scenario {
  import opened UeTraces
  import L = UeTraceLoader
  import opened Replay
  import opened Traffic
  import opened Wrappers

  datatype ScenarioError =
    | LoadFailed(error: L.LoadError)
    | WrongPopulation
    | BadSimTime
    | BadTrafficStart

  // What is known of the UEs after the simulation has processed every event up to some time.
  datatype Snapshot = Snapshot(ids: seq<string>, models: seq<Mobility>, traffic: seq<seq<Interval>>)

  // The checks made before anything is set up, in their order.
  ghost predicate Accepted(lines: seq<L.Line>, nUes: nat, trafficStart: real, simTime: real) {
    Populated(lines, nUes) && |L.Ids(lines)| == nUes && 0.0 < simTime && 0.0 <= trafficStart < simTime
  }

  // No row at all, or the first fault of the file.
  ghost predicate IsLoadError(lines: seq<L.Line>, nUes: nat, error: L.LoadError) {
    if L.Clean(lines, nUes, |lines|) then error == L.NoSamples
    else exists i :: 0 <= i < |lines| && L.Clean(lines, nUes, i) && L.Fault(lines, nUes, i) == Some(error)
  }

  // The trace file itself is accepted.
  ghost predicate Populated(lines: seq<L.Line>, nUes: nat) {
    L.Clean(lines, nUes, |lines|) && L.Ids(lines) != []
  }

  /** Loads, sets up and runs up to time t.  For every UE and every time of the simulation the replayed
      state is the one prescribed by the rows of that UE, and within the traffic window the UE is active
      exactly when it has traffic. */
  method RunScenario(lines: seq<L.Line>, nUes: nat, trafficStart: real, simTime: real, t: real)
      returns (r: Result<Snapshot, ScenarioError>)
    requires 0.0 <= t <= simTime || simTime <= 0.0
    ensures r.Success? <==> Accepted(lines, nUes, trafficStart, simTime)
    ensures r.Success? ==>
              r.value.ids == L.Ids(lines) && |r.value.models| == |r.value.traffic| == nUes == |L.Ids(lines)| &&
              forall u :: 0 <= u < nUes ==>
                var rows := L.RowsOf(lines, L.Ids(lines)[u]);
                rows != [] && StableSort(rows) != [] &&
                r.value.models[u] == Mobility(PositionAt(StableSort(rows), t), ActiveAt(rows, t)) &&
                Serves(r.value.traffic[u], rows, trafficStart, simTime) &&
                OnePerPeriod(r.value.traffic[u], StableSort(rows), trafficStart, simTime) &&
                (trafficStart <= t < simTime ==> (r.value.models[u].active <==> Covered(r.value.traffic[u], t)))
    ensures r.Failure? && r.error.LoadFailed? <==> !Populated(lines, nUes)
    ensures r.Failure? && r.error.LoadFailed? ==> IsLoadError(lines, nUes, r.error.error)
    ensures r == Failure(WrongPopulation) <==> Populated(lines, nUes) && |L.Ids(lines)| != nUes
    ensures r == Failure(BadSimTime) <==> Populated(lines, nUes) && |L.Ids(lines)| == nUes && simTime <= 0.0
    ensures r == Failure(BadTrafficStart) <==>
            Populated(lines, nUes) && |L.Ids(lines)| == nUes && 0.0 < simTime && !(0.0 <= trafficStart < simTime)
  {
    hide Covered, Schedulable, ActiveAt, StableSort, PositionAt, SortedByTime, OnePerPeriod;
    hide L.Clean, L.RowsOf, L.Ids, L.Fault;
    var loaded := L.LoadUeTrace(lines, nUes);
    if loaded.Failure? {
      return Failure(LoadFailed(loaded.error));
    }
    var traces := loaded.value;
    if |traces| != nUes {
      return Failure(WrongPopulation);
    }
    if simTime <= 0.0 {
      return Failure(BadSimTime);
    }
    if trafficStart < 0.0 || simTime <= trafficStart {
      return Failure(BadTrafficStart);
    }
    TracesUsable(lines, nUes, traces);
    var ids := seq(nUes, k requires 0 <= k < nUes => traces[k].externalId);
    var models := ReplayTraces(traces, simTime, t);
    var traffic := InstallTraffic(traces, trafficStart, simTime);
    forall u | 0 <= u < nUes
      ensures forall t' :: ActiveAt(traces[u].samples, t') <==> ActiveAt(L.RowsOf(lines, L.Ids(lines)[u]), t')
    {
      SortingKeepsActivity(L.RowsOf(lines, L.Ids(lines)[u]));
    }
    assert ids == L.Ids(lines);
    r := Success(Snapshot(ids, models, traffic));
  }

  lemma SortingKeepsActivity(rows: seq<Sample>)
    ensures forall t :: ActiveAt(StableSort(rows), t) <==> ActiveAt(rows, t)
  {
    forall t ensures ActiveAt(StableSort(rows), t) <==> ActiveAt(rows, t) {
      LatestOfStableSort(rows, t);
    }
  }

  ghost predicate Usable(traces: seq<Trace>) {
    forall k :: 0 <= k < |traces| ==> traces[k].samples != [] && SortedByTime(traces[k].samples)
  }

  lemma TracesUsable(lines: seq<L.Line>, maxUes: nat, traces: seq<Trace>)
    requires L.Clean(lines, maxUes, |lines|) && |traces| == |L.Ids(lines)|
    requires forall k :: 0 <= k < |traces| ==>
               traces[k] == Trace(L.Ids(lines)[k], StableSort(L.RowsOf(lines, L.Ids(lines)[k])))
    ensures Usable(traces)
    ensures forall k :: 0 <= k < |traces| ==> L.RowsOf(lines, L.Ids(lines)[k]) != []
  {
    forall k | 0 <= k < |traces|
      ensures traces[k].samples != [] && SortedByTime(traces[k].samples) && L.RowsOf(lines, L.Ids(lines)[k]) != []
    {
      assert L.Ids(lines)[k] in L.Ids(lines);
      L.NoEmptyTrace(lines, maxUes, L.Ids(lines)[k]);
      StableSortSorted(L.RowsOf(lines, L.Ids(lines)[k]));
      StableSortPermutes(L.RowsOf(lines, L.Ids(lines)[k]));
    }
  }

  method InitialStates(traces: seq<Trace>) returns (initial: seq<Mobility>)
    requires Usable(traces)
    ensures |initial| == |traces|
    ensures forall u :: 0 <= u < |traces| ==>
              initial[u] == Mobility(PositionAt(traces[u].samples, 0.0), ActiveAt(traces[u].samples, 0.0))
  {
    hide PositionAt, ActiveAt, SortedByTime, IsLeadingRun;
    initial := [];
    for u := 0 to |traces|
      invariant |initial| == u
      invariant forall v :: 0 <= v < u ==>
                  initial[v] == Mobility(PositionAt(traces[v].samples, 0.0), ActiveAt(traces[v].samples, 0.0))
    {
      var position := InitialPosition(traces[u].samples);
      var active := InitialActive(traces[u].samples);
      initial := initial + [Mobility(position, active)];
    }
  }

  // Initial states, and all traces and the end of the simulation scheduled into one event list.
  method SetUp(traces: seq<Trace>, simTime: real) returns (simulation: Simulation)
    requires Usable(traces) && 0.0 <= simTime
    ensures fresh(simulation) && simulation.Valid() && |simulation.models| == |traces|
    ensures forall i :: 0 <= i < |simulation.events| ==> simulation.events[i].time <= simTime
    ensures forall u, t :: 0 <= u < |traces| && 0.0 <= t <= simTime ==>
              Target(simulation.models[u], simulation.events, u, t) ==
              Mobility(PositionAt(traces[u].samples, t), ActiveAt(traces[u].samples, t))
  {
    hide PositionAt, ActiveAt, SortedByTime, Playable, Replayed;
    var initial := InitialStates(traces);
    simulation := new Simulation(initial);
    for u := 0 to |traces|
      invariant simulation.Valid() && simulation.now == 0.0 && simulation.models == initial
      invariant simulation.SamplesBy(simTime)
      invariant forall v :: 0 <= v < u ==> SamplesOf(simulation.events, v) == Playable(traces[v].samples, simTime)
      invariant forall v: nat :: u <= v ==> SamplesOf(simulation.events, v) == []
    {
      hide SamplesOf;
      simulation.ScheduleTrace(u, traces[u].samples, simTime);
    }
    hide SamplesOf, BeforeStop;
    simulation.ScheduleStop(simTime);
    forall u, t | 0 <= u < |traces| && 0.0 <= t <= simTime
      ensures Target(simulation.models[u], simulation.events, u, t) ==
              Mobility(PositionAt(traces[u].samples, t), ActiveAt(traces[u].samples, t))
    {
      ReplayIsFaithful(traces[u].samples, simTime, t);
    }
  }

  // The states of the UEs at time t of the simulation.
  method ReplayTraces(traces: seq<Trace>, simTime: real, t: real) returns (models: seq<Mobility>)
    requires Usable(traces) && 0.0 <= t <= simTime
    ensures |models| == |traces|
    ensures forall u :: 0 <= u < |traces| ==>
              models[u] == Mobility(PositionAt(traces[u].samples, t), ActiveAt(traces[u].samples, t))
  {
    hide PositionAt, ActiveAt, Target;
    var simulation := SetUp(traces, simTime);
    simulation.RunUntil(t);
    models := simulation.models;
  }

  // The states in which the whole simulation, ended by its stop event, leaves the UEs.
  method FinalStates(traces: seq<Trace>, simTime: real) returns (models: seq<Mobility>)
    requires Usable(traces) && 0.0 <= simTime
    ensures |models| == |traces|
    ensures forall u :: 0 <= u < |traces| ==>
              models[u] == Mobility(PositionAt(traces[u].samples, simTime), ActiveAt(traces[u].samples, simTime))
  {
    hide PositionAt, ActiveAt, Target;
    var simulation := SetUp(traces, simTime);
    simulation.Run(simTime);
    models := simulation.models;
  }

  method InstallTraffic(traces: seq<Trace>, trafficStart: real, simTime: real) returns (traffic: seq<seq<Interval>>)
    requires Usable(traces) && 0.0 <= trafficStart < simTime
    ensures |traffic| == |traces|
    ensures forall u :: 0 <= u < |traces| ==>
              Serves(traffic[u], traces[u].samples, trafficStart, simTime) &&
              OnePerPeriod(traffic[u], traces[u].samples, trafficStart, simTime)
  {
    traffic := [];
    for u := 0 to |traces|
      invariant |traffic| == u
      invariant forall v :: 0 <= v < u ==>
                  Serves(traffic[v], traces[v].samples, trafficStart, simTime) &&
                  OnePerPeriod(traffic[v], traces[v].samples, trafficStart, simTime)
    {
      hide Serves, SortedByTime, OnePerPeriod;
      var ivs := TrafficIntervals(traces[u].samples, trafficStart, simTime);
      traffic := traffic + [ivs];
    }
  }
}
