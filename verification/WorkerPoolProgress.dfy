/** Termination of the pool in every interleaving, and what holds when it ends. */
module WorkerPoolProgress {
  import opened WorkerPool

  // ---------------------------------------------------------------- a measure on states

  function Weight(w: Worker): nat {
    match w
    case Idle => 0
    case Holding(_) => 4
    case Running(_) => 3
    case Returning(_) => 2
    case Exited(_) => 0
  }

  function Weights(ws: seq<Worker>): nat {
    if ws == [] then 0 else Weights(ws[..|ws| - 1]) + Weight(ws[|ws| - 1])
  }

  lemma {:induction false} WeightsUpdate(ws: seq<Worker>, w: nat, x: Worker)
    requires w < |ws|
    ensures Weights(ws[w := x]) + Weight(ws[w]) == Weights(ws) + Weight(x)
  {
    var n := |ws| - 1;
    if w < n {
      WeightsUpdate(ws[..n], w, x);
      assert ws[w := x][..n] == ws[..n][w := x];
    } else {
      assert ws[w := x][..n] == ws[..n];
    }
  }

  // The work left: at most six steps per plan entry, and one join per worker.
  function Measure(c: Config, s: Pool): int {
    6 * (|Plan(c)| - s.next) + 5 * |s.input| + Weights(s.workers) + |s.output| + (|s.workers| - s.joined)
  }

  lemma MeasureNonNegative(c: Config, s: Pool)
    requires Inv(c, s)
    ensures 0 <= Measure(c, s)
  {
  }

  lemma MeasureStep(c: Config, s: Pool, a: Action)
    requires Inv(c, s) && Enabled(c, s, a)
    ensures a == Interrupt ==> Measure(c, Apply(c, s, a)) == Measure(c, s)
    ensures a != Interrupt ==> Measure(c, Apply(c, s, a)) < Measure(c, s)
  {
    hide Inv, Plan, Weights;
    var s' := Apply(c, s, a);
    match a {
      case Take(w) => WeightsUpdate(s.workers, w, s'.workers[w]);
      case Check(w) => WeightsUpdate(s.workers, w, s'.workers[w]);
      case Finish(w) => WeightsUpdate(s.workers, w, s'.workers[w]);
      case Put(w) => WeightsUpdate(s.workers, w, s'.workers[w]);
      case _ =>
    }
  }

  // Steps other than interrupts.
  function Work(actions: seq<Action>): nat
    decreases |actions|
  {
    if actions == [] then 0 else (if actions[0] == Interrupt then 0 else 1) + Work(actions[1..])
  }

  lemma {:induction false} RunBound(c: Config, s: Pool, actions: seq<Action>, s': Pool)
    requires Inv(c, s) && Run(c, s, actions, s')
    ensures Work(actions) <= Measure(c, s) - Measure(c, s')
    decreases |actions|
  {
    if actions == [] {
    } else {
      InvStep(c, s, actions[0]);
      MeasureStep(c, s, actions[0]);
      RunBound(c, Apply(c, s, actions[0]), actions[1..], s');
    }
  }

  // ---------------------------------------------------------------- counting ids

  lemma {:induction false} IdsCount(js: seq<Job>, n: nat)
    requires forall k :: 0 <= k < |js| ==> js[k].id < n
    ensures |Ids(js)| == |js| && forall i: nat :: n <= i ==> Ids(js)[i] == 0
  {
    if js == [] {
    } else {
      IdsCount(js[..|js| - 1], n);
    }
  }

  lemma {:induction false} WorkersCount(ws: seq<Worker>)
    ensures |Over(IdsIn, ws)| <= |ws|
    ensures |Over(IdsIn, ws)| == |ws| <==> forall w :: 0 <= w < |ws| ==> !ws[w].Idle?
  {
    if ws == [] {
    } else {
      var init, last := ws[..|ws| - 1], ws[|ws| - 1];
      WorkersCount(init);
      assert |Over(IdsIn, ws)| == |Over(IdsIn, init)| + |IdsIn(last)|;
      hide Over;
      assert forall w :: 0 <= w < |init| ==> ws[w] == init[w];
    }
  }

  lemma {:induction false} WorkersAbove(ws: seq<Worker>, n: nat)
    requires forall w :: 0 <= w < |ws| ==> ws[w].Idle? || n <= ws[w].job.id
    ensures forall i: nat :: i < n ==> Over(IdsIn, ws)[i] == 0
  {
    if ws == [] {
    } else {
      WorkersAbove(ws[..|ws| - 1], n);
    }
  }

  // ---------------------------------------------------------------- no deadlock

  // Nothing is in the hands of a worker, and no idle worker has anything to take.
  ghost predicate Quiet(s: Pool) {
    (forall w :: 0 <= w < |s.workers| ==> s.workers[w].Idle? || s.workers[w].Exited?) &&
    (s.input == [] || forall w :: 0 <= w < |s.workers| ==> s.workers[w].Exited?)
  }

  lemma CannotProceedMeansQuiet(c: Config, s: Pool)
    requires Inv(c, s) && !CanProceed(c, s)
    ensures s.next == |Plan(c)| && Quiet(s)
    ensures |s.collected| < |c.jobs| ==> s.output == []
    ensures |s.collected| == |c.jobs| && s.joined < |s.workers| ==> !s.workers[s.joined].Exited?
  {
    assert !Enabled(c, s, Dispatch) && !Enabled(c, s, Collect) && !Enabled(c, s, Join);
    forall w: nat | w < |s.workers| ensures s.workers[w].Idle? || s.workers[w].Exited? {
      assert !Enabled(c, s, Check(w)) && !Enabled(c, s, Finish(w)) && !Enabled(c, s, Put(w));
      assert WorkerOk(c, s.threadExit, s.workers[w]);
    }
    if s.input != [] {
      forall w: nat | w < |s.workers| ensures s.workers[w].Exited? {
        assert !Enabled(c, s, Take(w));
      }
    }
  }

  // The place count, in numbers.
  lemma PlacesCount(c: Config, s: Pool)
    requires Inv(c, s)
    ensures |Over(IdsIn, s.workers)| + |s.output| + |s.collected| == Taken(s)
    ensures forall i: nat :: |c.jobs| <= i ==> Over(IdsIn, s.workers)[i] == FirstIds(Taken(s))[i]
    ensures forall i: nat :: i < |c.jobs| ==>
              Over(IdsIn, s.workers)[i] + Ids(s.output)[i] + Ids(s.collected)[i] == FirstIds(Taken(s))[i]
  {
    hide Over, FirstIds;
    IdsCount(s.output, |c.jobs|);
    IdsCount(s.collected, |c.jobs|);
    FirstIdsCount(Taken(s));
    assert |Places(s)| == Taken(s);
    assert forall i: nat :: Places(s)[i] == FirstIds(Taken(s))[i];
  }

  // When all workers have returned, the whole plan has been taken, because breaks come last.
  lemma AllExitedMeansAllTaken(c: Config, s: Pool)
    requires Inv(c, s) && s.workers != [] && forall w :: 0 <= w < |s.workers| ==> s.workers[w].Exited?
    ensures s.input == [] && s.next == |Plan(c)|
  {
    hide Over;
    forall w | 0 <= w < |s.workers| ensures |c.jobs| <= s.workers[w].job.id {
      assert WorkerOk(c, s.threadExit, s.workers[w]);
    }
    WorkersCount(s.workers);
    PlacesCount(c, s);
    hide WorkerOk, ContentInv, PlacesInv, Ids, FirstIds;
    BreaksOnly(Over(IdsIn, s.workers), |c.jobs|, Taken(s)) by {
      WorkersAbove(s.workers, |c.jobs|);
      FirstIdsCount(Taken(s));
    }
  }

  // A duplicate-free multiset of numbers in [n, m) has at most m - n elements.
  lemma {:induction false} BreaksOnly(ids: multiset<nat>, n: nat, m: nat)
    requires forall i: nat :: ids[i] <= (if n <= i < m then 1 else 0)
    ensures |ids| <= if n <= m then m - n else 0
    decreases m
  {
    if m <= n {
      assert ids == multiset{};
    } else {
      var rest := ids[m - 1 := 0];
      BreaksOnly(rest, n, m - 1);
      assert ids == rest + multiset{m - 1}[m - 1 := ids[m - 1]];
    }
  }

  // There are workers, or there is nothing to do.
  predicate Staffed(c: Config) {
    c.processors > 0 || c.jobs == []
  }

  lemma InputDrained(c: Config, s: Pool)
    requires Inv(c, s) && Quiet(s) && s.next == |Plan(c)| && Staffed(c)
    ensures s.input == []
  {
    if s.workers != [] && forall w :: 0 <= w < |s.workers| ==> s.workers[w].Exited? {
      AllExitedMeansAllTaken(c, s);
    }
  }

  // With the input queue empty, every job is in the output queue or collected, every worker has returned.
  lemma DrainedPlaces(c: Config, s: Pool)
    requires Inv(c, s) && Quiet(s) && s.next == |Plan(c)| && s.input == []
    ensures |s.output| + |s.collected| == |c.jobs|
    ensures forall w :: 0 <= w < |s.workers| ==> s.workers[w].Exited?
  {
    hide Over, Ids;
    PlacesCount(c, s);
    WorkersCount(s.workers);
    FirstIdsCount(Taken(s));
    IdsCount(s.output, |c.jobs|);
    IdsCount(s.collected, |c.jobs|);
    var back := Ids(s.output) + Ids(s.collected);
    forall i: nat ensures back[i] <= (if 0 <= i < |c.jobs| then 1 else 0) {
    }
    BreaksOnly(back, 0, |c.jobs|);
  }

  // Whenever no step is left to any thread, the program is done.
  lemma NoDeadlock(c: Config, s: Pool)
    requires Inv(c, s) && Staffed(c) && !CanProceed(c, s)
    ensures Final(c, s)
  {
    hide Inv, Quiet;
    CannotProceedMeansQuiet(c, s);
    InputDrained(c, s);
    DrainedPlaces(c, s);
    Bounds(c, s);
  }

  lemma Bounds(c: Config, s: Pool)
    requires Inv(c, s)
    ensures |s.collected| <= |c.jobs| && s.joined <= |s.workers|
  {
  }

  // ---------------------------------------------------------------- every run ends, and how

  // In every interleaving the threads take a bounded number of steps, and can only stop when all is done.
  lemma EveryRunEnds(c: Config, actions: seq<Action>, s: Pool)
    requires ValidConfig(c) && Staffed(c) && Run(c, Initial(c), actions, s)
    ensures Work(actions) <= 6 * |c.jobs| + 7 * c.processors
    ensures !CanProceed(c, s) ==> Final(c, s)
  {
    hide Inv, Run, CanProceed, Final, Measure, ValidConfig;
    InvInitial(c);
    InvRun(c, Initial(c), actions, s);
    RunBound(c, Initial(c), actions, s);
    MeasureNonNegative(c, s);
    MeasureInitial(c);
    if !CanProceed(c, s) { NoDeadlock(c, s); }
  }

  lemma MeasureInitial(c: Config)
    ensures Measure(c, Initial(c)) == 6 * |c.jobs| + 7 * c.processors
  {
    NoWeights(Initial(c).workers);
  }

  lemma {:induction false} NoWeights(ws: seq<Worker>)
    requires forall w :: 0 <= w < |ws| ==> ws[w].Idle?
    ensures Weights(ws) == 0
  {
    if ws == [] {
    } else {
      NoWeights(ws[..|ws| - 1]);
    }
  }

  // At the end both queues are empty, all threads have returned, and each job was collected once.
  lemma FinalState(c: Config, s: Pool)
    requires Inv(c, s) && Final(c, s)
    ensures s.input == [] && s.output == []
    ensures forall w :: 0 <= w < |s.workers| ==> s.workers[w].Exited?
    ensures Ids(s.collected) == FirstIds(|c.jobs|)
    ensures Over(IdsIn, s.workers) == FirstIds(|Plan(c)|) - FirstIds(|c.jobs|)
  {
    hide Over, Ids, FirstIds;
    PlacesCount(c, s);
    WorkersCount(s.workers);
    assert Taken(s) == |Plan(c)| && s.output == [];
    forall w | 0 <= w < |s.workers| ensures |c.jobs| <= s.workers[w].job.id {
      assert WorkerOk(c, s.threadExit, s.workers[w]);
    }
    WorkersAbove(s.workers, |c.jobs|);
    FirstIdsCount(|c.jobs|);
    FirstIdsCount(|Plan(c)|);
    IdsCount(s.output, 0);
    IdsCount(s.collected, |c.jobs|);
    forall i: nat ensures Ids(s.collected)[i] == FirstIds(|c.jobs|)[i] {
    }
    forall i: nat ensures Over(IdsIn, s.workers)[i] == (FirstIds(|Plan(c)|) - FirstIds(|c.jobs|))[i] {
    }
  }

  // ---------------------------------------------------------------- exactly when the pool can hang

  ghost predicate CanHang(c: Config) {
    exists s :: Reachable(c, s) && !CanProceed(c, s) && !Final(c, s)
  }

  // Without workers the dispatcher can still put n jobs into the queue.
  function Dispatched(c: Config, n: nat): Pool
    requires n <= |Plan(c)|
  {
    Initial(c).(next := n, input := Plan(c)[..n])
  }

  lemma {:induction false} DispatchRun(c: Config, n: nat, m: nat) returns (actions: seq<Action>)
    requires n <= m <= |Plan(c)|
    ensures Run(c, Dispatched(c, n), actions, Dispatched(c, m))
    decreases m - n
  {
    if n == m {
      actions := [];
    } else {
      var rest := DispatchRun(c, n + 1, m);
      actions := [Dispatch] + rest;
      assert Plan(c)[..n] + [Plan(c)[n]] == Plan(c)[..n + 1];
      assert actions[1..] == rest;
    }
  }

  // The pool hangs in some interleaving exactly when there are jobs but no worker thread.
  lemma CanHangIff(c: Config)
    requires ValidConfig(c)
    ensures CanHang(c) <==> c.processors == 0 && c.jobs != []
  {
    if CanHang(c) {
      var s :| Reachable(c, s) && !CanProceed(c, s) && !Final(c, s);
      InvReachable(c, s);
      if Staffed(c) { NoDeadlock(c, s); }
    }
    if c.processors == 0 && c.jobs != [] {
      var actions := DispatchRun(c, 0, |Plan(c)|);
      var s := Dispatched(c, |Plan(c)|);
      assert Dispatched(c, 0) == Initial(c);
      forall a: Action | a != Interrupt ensures !Enabled(c, s, a) {
      }
      assert Reachable(c, s) && !CanProceed(c, s) && !Final(c, s);
    }
  }

  // With at least one processor on line, that happens exactly for a negative --jobs limit.
  lemma HangsExactlyForNegativeLimit(c: Config, online: int, limit: int)
    requires ValidConfig(c) && online >= 1 && c.processors == Processors(online, limit)
    ensures CanHang(c) <==> limit < 0 && c.jobs != []
  {
    CanHangIff(c);
  }

  // The pool has one worker for each processor on line, or as many as a smaller positive --jobs limit says;
  // so it never runs more jobs at once than that limit.
  lemma PoolSize(c: Config, s: Pool, online: int, limit: int)
    requires ValidConfig(c) && Reachable(c, s) && online >= 1 && c.processors == Processors(online, limit)
    ensures 0 < limit <= online ==> |s.workers| == limit
    ensures limit == 0 || online < limit ==> |s.workers| == online
    ensures limit < 0 ==> s.workers == []
    ensures 0 < limit ==> |set w: nat | w < |s.workers| && s.workers[w].Running?| <= limit
  {
    hide Reachable, PlacesInv, ContentInv, JoinInv;
    InvReachable(c, s);
    BoundedSize(set w: nat | w < |s.workers| && s.workers[w].Running?, |s.workers|);
  }

  lemma {:induction false} BoundedSize(ws: set<nat>, n: nat)
    requires forall w :: w in ws ==> w < n
    ensures |ws| <= n
  {
    if n == 0 {
      assert ws == {};
    } else {
      BoundedSize(ws - {n - 1}, n - 1);
    }
  }
}
