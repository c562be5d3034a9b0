/** What an interrupt changes: nothing more is launched, every job still waiting comes back marked, and
    the results of the run are decided by the state in which it was interrupted. */
module WorkerPoolInterrupt {
  import opened WorkerPool
  import opened WorkerPoolProgress
  import opened WorkerPoolResults
  import opened TestResults
  import opened Wrappers

  // ---------------------------------------------------------------- nothing more is launched

  function RunningIn(w: Worker): multiset<nat> {
    if w.Running? then multiset{w.job.id} else multiset{}
  }

  function CodedIn(w: Worker): multiset<nat> {
    if w.Returning? then CodedId(w.job) else multiset{}
  }

  function LaunchedIn(w: Worker): multiset<nat> {
    RunningIn(w) + CodedIn(w)
  }

  function CodedId(j: Job): multiset<nat> {
    if j.returncode.Some? then multiset{j.id} else multiset{}
  }

  function CodedIds(js: seq<Job>): multiset<nat> {
    if js == [] then multiset{} else CodedIds(js[..|js| - 1]) + CodedId(js[|js| - 1])
  }

  // The jobs whose process is running.
  function RunningIds(s: Pool): multiset<nat> {
    Over(RunningIn, s.workers)
  }

  // The jobs that have come back with a return code.
  function Completed(s: Pool): multiset<nat> {
    Over(CodedIn, s.workers) + CodedIds(s.output) + CodedIds(s.collected)
  }

  // Both together.
  function Launched(s: Pool): multiset<nat> {
    Over(LaunchedIn, s.workers) + CodedIds(s.output) + CodedIds(s.collected)
  }

  lemma {:induction false} OverLaunched(ws: seq<Worker>)
    ensures Over(LaunchedIn, ws) == Over(RunningIn, ws) + Over(CodedIn, ws)
  {
    if ws == [] {
    } else {
      OverLaunched(ws[..|ws| - 1]);
    }
  }

  lemma LaunchedSplit(s: Pool)
    ensures Launched(s) == Completed(s) + RunningIds(s)
  {
    OverLaunched(s.workers);
  }

  lemma {:induction false} CodedPop(js: seq<Job>)
    requires js != []
    ensures CodedIds(js) == CodedId(js[0]) + CodedIds(js[1..])
  {
    hide CodedId;
    if |js| > 1 {
      var init, last := js[..|js| - 1], js[|js| - 1];
      CodedPop(init);
      assert init[1..] == js[1..][..|js| - 2] && js[1..][|js| - 2] == last && init[0] == js[0];
      AddThird(CodedIds(init), multiset{}, CodedId(js[0]), CodedIds(init[1..]), CodedId(last));
    } else {
      assert js[1..] == [] && js[..0] == [];
    }
  }

  lemma CodedPush(js: seq<Job>, j: Job)
    ensures CodedIds(js + [j]) == CodedIds(js) + CodedId(j)
  {
  }

  // Once the flag is set no step launches a job: what runs or has run stays the same collection.
  lemma LaunchedStep(c: Config, s: Pool, a: Action)
    requires Inv(c, s) && Enabled(c, s, a) && s.threadExit
    ensures Apply(c, s, a).threadExit
    ensures Launched(Apply(c, s, a)) == Launched(s)
  {
    hide Inv, Over, CodedIds, Plan, LaunchedIn, Checked;
    var s' := Apply(c, s, a);
    match a {
      case Take(w) =>
        LaunchedTake(s.input[0]);
        LaunchedKept(s, w, s'.workers[w]);
      case Check(w) =>
        HeldUncoded(c, s, w);
        LaunchedCheck(s.workers[w].job);
        LaunchedKept(s, w, s'.workers[w]);
      case Finish(w) =>
        LaunchedFinish(s.workers[w].job, c.codes[s.workers[w].job.id]);
        LaunchedKept(s, w, s'.workers[w]);
      case Put(w) => LaunchedPut(s, w);
      case Collect => LaunchedCollect(s);
      case _ =>
    }
  }

  lemma LaunchedTake(j: Job)
    ensures LaunchedIn(Idle) == LaunchedIn(Holding(j))
  {
  }

  lemma LaunchedCheck(j: Job)
    requires j.returncode.None?
    ensures LaunchedIn(Checked(j, true)) == LaunchedIn(Holding(j))
  {
  }

  lemma LaunchedFinish(j: Job, code: int)
    ensures LaunchedIn(Returning(j.(returncode := Some(code)))) == LaunchedIn(Running(j))
  {
  }

  lemma HeldUncoded(c: Config, s: Pool, w: nat)
    requires Inv(c, s) && w < |s.workers| && s.workers[w].Holding?
    ensures s.workers[w].job.returncode.None?
  {
    assert WorkerOk(c, s.threadExit, s.workers[w]);
    PlanId(c, s.workers[w].job.id);
  }

  lemma LaunchedKept(s: Pool, w: nat, x: Worker)
    requires w < |s.workers| && LaunchedIn(s.workers[w]) == LaunchedIn(x)
    ensures Over(LaunchedIn, s.workers[w := x]) == Over(LaunchedIn, s.workers)
  {
    hide Over, LaunchedIn;
    OverUpdate(LaunchedIn, s.workers, w, x);
    Cancel(Over(LaunchedIn, s.workers[w := x]), Over(LaunchedIn, s.workers), LaunchedIn(x));
  }

  lemma LaunchedPut(s: Pool, w: nat)
    requires w < |s.workers| && s.workers[w].Returning?
    ensures Launched(s.(output := s.output + [s.workers[w].job], workers := s.workers[w := Idle])) == Launched(s)
  {
    hide Over, CodedId;
    OverUpdate(LaunchedIn, s.workers, w, Idle);
    CodedPush(s.output, s.workers[w].job);
    var m := LaunchedIn(s.workers[w]);
    assert Over(LaunchedIn, s.workers[w := Idle]) + m == Over(LaunchedIn, s.workers);
  }

  lemma LaunchedCollect(s: Pool)
    requires s.output != []
    ensures Launched(s.(output := s.output[1..], collected := s.collected + [s.output[0]])) == Launched(s)
  {
    hide Over;
    CodedPop(s.output);
    CodedPush(s.collected, s.output[0]);
  }

  lemma {:induction false} LaunchedRun(c: Config, s: Pool, actions: seq<Action>, s': Pool)
    requires Inv(c, s) && s.threadExit && Run(c, s, actions, s')
    ensures s'.threadExit && Launched(s') == Launched(s)
    decreases |actions|
  {
    hide Launched, Inv;
    if actions == [] {
    } else {
      LaunchedStep(c, s, actions[0]);
      InvStep(c, s, actions[0]);
      LaunchedRun(c, Apply(c, s, actions[0]), actions[1..], s');
    }
  }

  lemma {:induction false} RunningBound(ws: seq<Worker>)
    ensures |Over(RunningIn, ws)| <= |ws|
  {
    if ws == [] {
    } else {
      RunningBound(ws[..|ws| - 1]);
    }
  }

  lemma RunningAtMost(c: Config, s: Pool)
    requires Inv(c, s)
    ensures |RunningIds(s)| <= c.processors
  {
    RunningBound(s.workers);
  }

  lemma SmallerIsShorter(a: multiset<nat>, b: multiset<nat>)
    ensures |a| <= |a + b|
  {
  }

  // ---------------------------------------------------------------- waiting jobs

  ghost predicate HeldBySome(s: Pool, i: nat) {
    exists w :: 0 <= w < |s.workers| && s.workers[w].Holding? && s.workers[w].job.id == i
  }

  // Not dispatched, in the input queue, or taken by a worker that has not yet looked at the flag.
  ghost predicate Waiting(s: Pool, i: nat) {
    s.next <= i || (exists k :: 0 <= k < |s.input| && s.input[k].id == i) || HeldBySome(s, i)
  }

  lemma WaitingMeans(c: Config, s: Pool, i: nat)
    requires Inv(c, s)
    ensures Waiting(s, i) <==> Taken(s) <= i || HeldBySome(s, i)
  {
    hide HeldBySome, PlacesInv, ContentInv, JoinInv;
    forall k | 0 <= k < |s.input| ensures s.input[k].id == Taken(s) + k {
      assert s.input[k] == Plan(c)[Taken(s) + k];
      PlanId(c, Taken(s) + k);
    }
    if Taken(s) <= i < s.next {
      assert s.input[i - Taken(s)].id == i;
    }
  }

  ghost predicate NotRunning(s: Pool, i: nat) {
    forall w :: 0 <= w < |s.workers| && s.workers[w].Running? ==> s.workers[w].job.id != i
  }

  // Wherever job i is on its way back, it is r.
  ghost predicate ComesBackAs(s: Pool, i: nat, r: Job) {
    (forall w :: 0 <= w < |s.workers| && s.workers[w].Returning? && s.workers[w].job.id == i ==>
                   s.workers[w].job == r) &&
    (forall k :: 0 <= k < |s.output| && s.output[k].id == i ==> s.output[k] == r) &&
    forall k :: 0 <= k < |s.collected| && s.collected[k].id == i ==> s.collected[k] == r
  }

  function Marked(c: Config, i: nat): Job
    requires i < |c.jobs|
  {
    c.jobs[i].(isBreak := true)
  }

  // ---------------------------------------------------------------- a waiting job is nowhere else

  lemma OverAtLeast(f: Worker -> multiset<nat>, ws: seq<Worker>, w: nat, i: nat)
    requires w < |ws| && f(Idle) == multiset{}
    ensures f(ws[w])[i] <= Over(f, ws)[i]
  {
    OverUpdate(f, ws, w, Idle);
    assert (Over(f, ws[w := Idle]) + f(ws[w]))[i] == (Over(f, ws) + f(Idle))[i];
  }

  lemma OverTwo(f: Worker -> multiset<nat>, ws: seq<Worker>, v: nat, w: nat, i: nat)
    requires v < |ws| && w < |ws| && v != w && f(Idle) == multiset{}
    ensures f(ws[v])[i] + f(ws[w])[i] <= Over(f, ws)[i]
  {
    OverUpdate(f, ws, w, Idle);
    OverAtLeast(f, ws[w := Idle], v, i);
    assert (Over(f, ws[w := Idle]) + f(ws[w]))[i] == (Over(f, ws) + f(Idle))[i];
  }

  lemma {:induction false} IdsAtLeast(js: seq<Job>, k: nat)
    requires k < |js|
    ensures 1 <= Ids(js)[js[k].id]
  {
    if k == |js| - 1 {
    } else {
      IdsAtLeast(js[..|js| - 1], k);
    }
  }

  lemma WaitingNowhereElse(c: Config, s: Pool, i: nat)
    requires Inv(c, s) && Waiting(s, i)
    ensures forall w :: 0 <= w < |s.workers| && !s.workers[w].Idle? && s.workers[w].job.id == i ==>
                        s.workers[w].Holding?
    ensures forall k :: 0 <= k < |s.output| ==> s.output[k].id != i
    ensures forall k :: 0 <= k < |s.collected| ==> s.collected[k].id != i
  {
    hide Over, Ids, FirstIds, QueueInv, ContentInv, JoinInv, Waiting;
    WaitingMeans(c, s, i);
    FirstIdsCount(Taken(s));
    var held := Over(IdsIn, s.workers)[i];
    assert held + Ids(s.output)[i] + Ids(s.collected)[i] == Places(s)[i] <= 1;
    assert Taken(s) <= i ==> Places(s)[i] == 0;
    if HeldBySome(s, i) {
      var w :| 0 <= w < |s.workers| && s.workers[w].Holding? && s.workers[w].job.id == i;
      OverAtLeast(IdsIn, s.workers, w, i);
      forall v | 0 <= v < |s.workers| && v != w ensures s.workers[v].Idle? || s.workers[v].job.id != i {
        OverTwo(IdsIn, s.workers, v, w, i);
      }
    } else {
      forall v | 0 <= v < |s.workers| ensures s.workers[v].Idle? || s.workers[v].job.id != i {
        OverAtLeast(IdsIn, s.workers, v, i);
      }
    }
    forall k | 0 <= k < |s.output| ensures s.output[k].id != i {
      IdsAtLeast(s.output, k);
    }
    forall k | 0 <= k < |s.collected| ensures s.collected[k].id != i {
      IdsAtLeast(s.collected, k);
    }
  }

  // ---------------------------------------------------------------- waiting jobs come back marked

  lemma CheckMarks(c: Config, j: Job)
    requires ValidConfig(c) && WorkerOk(c, true, Holding(j))
    ensures j.id < |c.jobs| ==> Checked(j, true) == Returning(Marked(c, j.id)) && Marked(c, j.id).id == j.id
    ensures |c.jobs| <= j.id ==> Checked(j, true).Exited?
  {
    PlanId(c, j.id);
  }

  lemma MarkedStep(c: Config, s: Pool, a: Action, i: nat)
    requires Inv(c, s) && Enabled(c, s, a) && s.threadExit && i < |c.jobs|
    requires NotRunning(s, i) && ComesBackAs(s, i, Marked(c, i))
    ensures NotRunning(Apply(c, s, a), i) && ComesBackAs(Apply(c, s, a), i, Marked(c, i))
  {
    hide QueueInv, PlacesInv, JoinInv, Plan, Checked, WorkerOk, IsResult, Marked;
    match a {
      case Check(w) => CheckMarks(c, s.workers[w].job);
      case _ =>
    }
  }

  lemma {:induction false} MarkedRun(c: Config, s: Pool, actions: seq<Action>, s': Pool, i: nat)
    requires Inv(c, s) && s.threadExit && Run(c, s, actions, s') && i < |c.jobs|
    requires NotRunning(s, i) && ComesBackAs(s, i, Marked(c, i))
    ensures NotRunning(s', i) && ComesBackAs(s', i, Marked(c, i))
    decreases |actions|
  {
    hide Inv, NotRunning, ComesBackAs, Marked;
    if actions == [] {
    } else {
      MarkedStep(c, s, actions[0], i);
      InvStep(c, s, actions[0]);
      MarkedRun(c, Apply(c, s, actions[0]), actions[1..], s', i);
    }
  }

  /** Once the flag is set it stays set and no job is launched: what runs or has a return code remains the
      same collection, so only the jobs already running can still complete, at most one per worker.  Every
      job waiting at that point, a skip included, stays unlaunched and comes back marked. */
  lemma InterruptStopsLaunching(c: Config, s: Pool, actions: seq<Action>, s': Pool)
    requires Inv(c, s) && s.threadExit && Run(c, s, actions, s')
    ensures s'.threadExit
    ensures Completed(s') + RunningIds(s') == Completed(s) + RunningIds(s)
    ensures |Completed(s')| <= |Completed(s)| + c.processors
    ensures forall i: nat :: i < |c.jobs| && Waiting(s, i) ==>
              NotRunning(s', i) && ComesBackAs(s', i, c.jobs[i].(isBreak := true))
  {
    hide Inv, Run, Completed, RunningIds, Launched, Waiting;
    LaunchedRun(c, s, actions, s');
    LaunchedSplit(s);
    LaunchedSplit(s');
    RunningAtMost(c, s);
    SmallerIsShorter(Completed(s'), RunningIds(s'));
    forall i: nat | i < |c.jobs| && Waiting(s, i) ensures NotRunning(s', i) && ComesBackAs(s', i, Marked(c, i)) {
      WaitingNowhereElse(c, s, i);
      MarkedRun(c, s, actions, s', i);
    }
  }

  // ---------------------------------------------------------------- all other jobs are not affected

  // Job i has been looked at, and comes back as if it had been run alone.
  ghost predicate Settled(c: Config, s: Pool, i: nat)
    requires i < |c.jobs| == |c.codes|
  {
    i < Taken(s) && !HeldBySome(s, i) && ComesBackAs(s, i, Sequential(c, i))
  }

  lemma FinishGivesSequential(c: Config, interrupted: bool, j: Job)
    requires ValidConfig(c) && WorkerOk(c, interrupted, Running(j))
    ensures j.(returncode := Some(c.codes[j.id])) == Sequential(c, j.id)
  {
  }

  lemma TakenId(c: Config, s: Pool)
    requires Inv(c, s) && s.input != []
    ensures s.input[0].id == Taken(s)
  {
    assert s.input[0] == Plan(c)[Taken(s)];
    PlanId(c, Taken(s));
  }

  lemma SettledStep(c: Config, s: Pool, a: Action, i: nat)
    requires Inv(c, s) && Enabled(c, s, a) && i < |c.jobs| && Settled(c, s, i)
    ensures Settled(c, Apply(c, s, a), i)
  {
    hide QueueInv, PlacesInv, JoinInv, Plan, WorkerOk, IsResult, Sequential;
    match a {
      case Take(w) => TakenId(c, s);
      case Check(w) => assert s.workers[w].job.id != i;
      case Finish(w) => FinishGivesSequential(c, s.threadExit, s.workers[w].job);
      case _ =>
    }
  }

  lemma {:induction false} SettledRun(c: Config, s: Pool, actions: seq<Action>, s': Pool, i: nat)
    requires Inv(c, s) && Run(c, s, actions, s') && i < |c.jobs| && Settled(c, s, i)
    ensures Settled(c, s', i)
    decreases |actions|
  {
    if actions == [] {
    } else {
      SettledStep(c, s, actions[0], i);
      InvStep(c, s, actions[0]);
      hide Inv, Settled;
      SettledRun(c, Apply(c, s, actions[0]), actions[1..], s', i);
    }
  }

  lemma SettledBefore(c: Config, s: Pool, i: nat)
    requires Inv(c, s) && !s.threadExit && i < |c.jobs| && !Waiting(s, i)
    ensures Settled(c, s, i)
  {
    hide QueueInv, PlacesInv, JoinInv, Waiting, HeldBySome, Sequential;
    WaitingMeans(c, s, i);
    forall w | 0 <= w < |s.workers| && s.workers[w].Returning? ensures IsResult(c, false, s.workers[w].job) {
      assert WorkerOk(c, false, s.workers[w]);
    }
  }

  // ---------------------------------------------------------------- the results of an interrupted run

  // What job i comes back as when the flag is set in state s.
  ghost function ResultAfter(c: Config, s: Pool, i: nat): Job
    requires i < |c.jobs| == |c.codes|
  {
    if Waiting(s, i) then Marked(c, i) else Sequential(c, i)
  }

  ghost function ResultsAfter(c: Config, s: Pool): (r: seq<Job>)
    requires |c.codes| == |c.jobs|
    ensures |r| == |c.jobs| && forall i :: 0 <= i < |r| ==> r[i] == ResultAfter(c, s, i)
  {
    seq(|c.jobs|, i requires 0 <= i < |c.jobs| => ResultAfter(c, s, i))
  }

  lemma ComesBackAfter(c: Config, s: Pool, actions: seq<Action>, s': Pool, i: nat)
    requires Inv(c, s) && !s.threadExit && Run(c, Apply(c, s, Interrupt), actions, s') && i < |c.jobs|
    ensures ComesBackAs(s', i, ResultAfter(c, s, i))
  {
    assert |c.codes| == |c.jobs|;
    hide Inv, Run, Sequential, Completed, RunningIds, Waiting, Settled, ComesBackAs;
    InvStep(c, s, Interrupt);
    InterruptMovesNothing(c, s, i);
    if Waiting(s, i) {
      InterruptStopsLaunching(c, Apply(c, s, Interrupt), actions, s');
    } else {
      SettledBefore(c, s, i);
      SettledRun(c, Apply(c, s, Interrupt), actions, s', i);
      SettledMeans(c, s', i);
    }
  }

  lemma InterruptMovesNothing(c: Config, s: Pool, i: nat)
    requires i < |c.jobs| == |c.codes|
    ensures Apply(c, s, Interrupt).threadExit
    ensures Waiting(Apply(c, s, Interrupt), i) <==> Waiting(s, i)
    ensures Settled(c, Apply(c, s, Interrupt), i) <==> Settled(c, s, i)
  {
  }

  lemma SettledMeans(c: Config, s: Pool, i: nat)
    requires i < |c.jobs| == |c.codes| && Settled(c, s, i)
    ensures ComesBackAs(s, i, Sequential(c, i))
  {
  }

  /** The state in which the flag is set decides the results of the run, in every interleaving: a permutation
      of them is collected, and the exit status is zero exactly when no job was waiting any more and every
      job is a skip or returned zero. */
  lemma InterruptedRunResults(c: Config, s: Pool, actions: seq<Action>, s': Pool)
    requires ValidConfig(c) && Reachable(c, s) && !s.threadExit
    requires Run(c, Apply(c, s, Interrupt), actions, s') && Final(c, s')
    ensures multiset(s'.collected) == multiset(ResultsAfter(c, s))
    ensures forall o :: |Select(s'.collected, o)| == |Select(ResultsAfter(c, s), o)|
    ensures |Select(s'.collected, Passed)| + |Select(s'.collected, Skipped)| == |c.jobs| <==>
            forall i: nat :: i < |c.jobs| ==> !Waiting(s, i) && (c.jobs[i].isSkip || c.codes[i] == 0)
  {
    hide Inv, Run, Reachable, Final, Ids, FirstIds, Over, Waiting, Select, Classify, ResultAfter;
    InvReachable(c, s);
    InvStep(c, s, Interrupt);
    InvRun(c, Apply(c, s, Interrupt), actions, s');
    FinalState(c, s');
    var expected := ResultsAfter(c, s);
    forall k | 0 <= k < |s'.collected|
      ensures s'.collected[k].id < |c.jobs| && s'.collected[k] == expected[s'.collected[k].id]
    {
      CollectedResult(c, s', s'.collected[k]);
      ComesBackAfter(c, s, actions, s', s'.collected[k].id);
    }
    forall i | 0 <= i < |expected| ensures expected[i].id == i && GoodAfter(c, s, i) {
      ResultAfterStatus(c, s, i);
    }
    ExpectedPermutation(expected, s'.collected);
    StatusMeaning(expected);
    StatusAfter(c, s);
  }

  lemma StatusAfter(c: Config, s: Pool)
    requires |c.jobs| == |c.codes| && forall i :: 0 <= i < |c.jobs| ==> GoodAfter(c, s, i)
    ensures (forall j :: j in ResultsAfter(c, s) ==> Classify(j) == Passed || Classify(j) == Skipped) <==>
            forall i: nat :: i < |c.jobs| ==> !Waiting(s, i) && (c.jobs[i].isSkip || c.codes[i] == 0)
  {
    hide Waiting, Classify, ResultAfter;
    var expected := ResultsAfter(c, s);
    if forall j :: j in expected ==> Classify(j) == Passed || Classify(j) == Skipped {
      forall i: nat | i < |c.jobs| ensures !Waiting(s, i) && (c.jobs[i].isSkip || c.codes[i] == 0) {
        assert GoodAfter(c, s, i) && expected[i] in expected;
      }
    }
    if forall i: nat :: i < |c.jobs| ==> !Waiting(s, i) && (c.jobs[i].isSkip || c.codes[i] == 0) {
      forall j | j in expected ensures Classify(j) == Passed || Classify(j) == Skipped {
        var i :| 0 <= i < |expected| && expected[i] == j;
        assert GoodAfter(c, s, i);
      }
    }
  }

  ghost predicate GoodAfter(c: Config, s: Pool, i: nat) {
    i < |c.jobs| == |c.codes| &&
    ((Classify(ResultAfter(c, s, i)) == Passed || Classify(ResultAfter(c, s, i)) == Skipped) <==>
     !Waiting(s, i) && (c.jobs[i].isSkip || c.codes[i] == 0))
  }

  lemma ResultAfterStatus(c: Config, s: Pool, i: nat)
    requires ValidConfig(c) && i < |c.jobs|
    ensures ResultAfter(c, s, i).id == i && GoodAfter(c, s, i)
  {
  }
}
