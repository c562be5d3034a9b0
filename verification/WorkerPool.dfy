/** The dispatcher, the worker threads and their two queues, as a state machine whose steps may be
    interleaved in any order. */
module WorkerPool {
  import opened Wrappers

  // `id` is the identity of the job object: its position in the order of dispatch.
  datatype Job = Job(id: nat, isBreak: bool, isSkip: bool, displayName: string, skipReason: string,
                     returncode: Option<int>)

  // codes[i] is what the process of job i returns, should it be launched.
  datatype Config = Config(jobs: seq<Job>, codes: seq<int>, processors: nat)

  ghost predicate ValidConfig(c: Config) {
    |c.codes| == |c.jobs| &&
    forall i :: 0 <= i < |c.jobs| ==> c.jobs[i].id == i && !c.jobs[i].isBreak && c.jobs[i].returncode.None?
  }

  function BreakJob(id: nat): Job {
    Job(id, true, false, "", "", None)
  }

  // Everything the dispatcher puts into the input queue: the jobs, then one break job per worker.
  function Plan(c: Config): (plan: seq<Job>)
    ensures |plan| == |c.jobs| + c.processors
  {
    c.jobs + seq(c.processors, i requires 0 <= i < c.processors => BreakJob(|c.jobs| + i))
  }

  // A worker waits for a job, has just taken one, runs one, is about to put one back, or has returned.
  datatype Worker = Idle | Holding(job: Job) | Running(job: Job) | Returning(job: Job) | Exited(job: Job)

  datatype Pool = Pool(next: nat, input: seq<Job>, output: seq<Job>, workers: seq<Worker>,
                       threadExit: bool, collected: seq<Job>, joined: nat)

  function Initial(c: Config): Pool {
    Pool(0, [], [], seq(c.processors, i => Idle), false, [], 0)
  }

  // The number of worker threads: the processors on line, limited by --jobs when that is not zero.
  function Processors(online: int, limit: int): nat {
    var processors := if limit != 0 && online >= limit then limit else online;
    if processors < 0 then 0 else processors
  }

  // ---------------------------------------------------------------- steps

  datatype Action =
    | Dispatch
    | Take(w: nat)
    | Check(w: nat)
    | Finish(w: nat)
    | Put(w: nat)
    | Interrupt
    | Collect
    | Join

  predicate Enabled(c: Config, s: Pool, a: Action) {
    match a
    case Dispatch => s.next < |Plan(c)|
    case Take(w) => w < |s.workers| && s.workers[w].Idle? && s.input != []
    case Check(w) => w < |s.workers| && s.workers[w].Holding?
    case Finish(w) => w < |s.workers| && s.workers[w].Running? && s.workers[w].job.id < |c.codes|
    case Put(w) => w < |s.workers| && s.workers[w].Returning?
    case Interrupt => true
    case Collect => s.next == |Plan(c)| && |s.collected| < |c.jobs| && s.output != []
    case Join => s.next == |Plan(c)| && |s.collected| == |c.jobs| && s.joined < |s.workers| &&
                   s.workers[s.joined].Exited?
  }

  // What a worker makes of the job it has taken.
  function Checked(job: Job, threadExit: bool): Worker {
    if job.isBreak then Exited(job)
    else if threadExit then Returning(job.(isBreak := true))
    else if job.isSkip then Returning(job)
    else Running(job)
  }

  function Apply(c: Config, s: Pool, a: Action): Pool
    requires Enabled(c, s, a)
  {
    match a
    case Dispatch => s.(next := s.next + 1, input := s.input + [Plan(c)[s.next]])
    case Take(w) => s.(input := s.input[1..], workers := s.workers[w := Holding(s.input[0])])
    case Check(w) => s.(workers := s.workers[w := Checked(s.workers[w].job, s.threadExit)])
    case Finish(w) =>
      var job := s.workers[w].job;
      s.(workers := s.workers[w := Returning(job.(returncode := Some(c.codes[job.id])))])
    case Put(w) => s.(output := s.output + [s.workers[w].job], workers := s.workers[w := Idle])
    case Interrupt => s.(threadExit := true)
    case Collect => s.(output := s.output[1..], collected := s.collected + [s.output[0]])
    case Join => s.(joined := s.joined + 1)
  }

  // All jobs collected, all threads joined.
  predicate Final(c: Config, s: Pool) {
    s.next == |Plan(c)| && |s.collected| == |c.jobs| && s.joined == |s.workers|
  }

  ghost predicate CanProceed(c: Config, s: Pool) {
    exists a: Action :: a != Interrupt && Enabled(c, s, a)
  }

  ghost predicate Run(c: Config, s: Pool, actions: seq<Action>, s': Pool)
    decreases |actions|
  {
    if actions == [] then s == s'
    else Enabled(c, s, actions[0]) && Run(c, Apply(c, s, actions[0]), actions[1..], s')
  }

  ghost predicate Reachable(c: Config, s: Pool) {
    exists actions :: Run(c, Initial(c), actions, s)
  }

  // ---------------------------------------------------------------- where the jobs are

  function IdsIn(w: Worker): multiset<nat> {
    if w.Idle? then multiset{} else multiset{w.job.id}
  }

  // The contributions of all workers under f, added up.
  function Over(f: Worker -> multiset<nat>, ws: seq<Worker>): multiset<nat> {
    if ws == [] then multiset{} else Over(f, ws[..|ws| - 1]) + f(ws[|ws| - 1])
  }

  lemma AddThird(a: multiset<nat>, b: multiset<nat>, c: multiset<nat>, d: multiset<nat>, e: multiset<nat>)
    requires a + b == c + d
    ensures a + e + b == c + e + d
  {
    assert a + e + b == (a + b) + e == (c + d) + e;
  }

  lemma Cancel(a: multiset<nat>, b: multiset<nat>, m: multiset<nat>)
    requires a + m == b + m
    ensures a == b
  {
    assert a == (a + m) - m;
  }

  lemma {:induction false} OverUpdate(f: Worker -> multiset<nat>, ws: seq<Worker>, w: nat, x: Worker)
    requires w < |ws|
    ensures Over(f, ws[w := x]) + f(ws[w]) == Over(f, ws) + f(x)
  {
    var n := |ws| - 1;
    if w < n {
      OverUpdate(f, ws[..n], w, x);
      assert ws[w := x][..n] == ws[..n][w := x];
      assert ws[w := x][n] == ws[n] && ws[..n][w] == ws[w];
      AddThird(Over(f, ws[..n][w := x]), f(ws[w]), Over(f, ws[..n]), f(x), f(ws[n]));
    } else {
      assert ws[w := x][..n] == ws[..n];
    }
  }

  function Ids(js: seq<Job>): multiset<nat> {
    if js == [] then multiset{} else Ids(js[..|js| - 1]) + multiset{js[|js| - 1].id}
  }

  lemma {:induction false} IdsPop(js: seq<Job>)
    requires js != []
    ensures Ids(js) == multiset{js[0].id} + Ids(js[1..])
  {
    if |js| > 1 {
      var init, last := js[..|js| - 1], js[|js| - 1];
      IdsPop(init);
      assert init[1..] == js[1..][..|js| - 2] && init[0] == js[0];
      AddThird(Ids(init), multiset{}, multiset{js[0].id}, Ids(init[1..]), multiset{last.id});
      assert js[1..][|js| - 2] == last;
    } else {
      assert js[1..] == [] && js[..0] == [];
    }
  }

  lemma IdsPush(js: seq<Job>, j: Job)
    ensures Ids(js + [j]) == Ids(js) + multiset{j.id}
  {
  }

  function FirstIds(n: nat): multiset<nat> {
    if n == 0 then multiset{} else FirstIds(n - 1) + multiset{n - 1}
  }

  // How many entries of the plan have left the input queue.
  function Taken(s: Pool): int {
    s.next - |s.input|
  }

  // Every dispatched job that has left the input queue is in exactly one place.
  function Places(s: Pool): multiset<nat> {
    Over(IdsIn, s.workers) + Ids(s.output) + Ids(s.collected)
  }

  // ---------------------------------------------------------------- the invariant

  // Job i after a run of its own.
  function Sequential(c: Config, i: nat): Job
    requires i < |c.jobs| == |c.codes|
  {
    if c.jobs[i].isSkip then c.jobs[i] else c.jobs[i].(returncode := Some(c.codes[i]))
  }

  // A job that comes back was treated as if alone or, after an interrupt only, sent back marked and unlaunched.
  predicate IsResult(c: Config, interrupted: bool, j: Job) {
    j.id < |c.jobs| == |c.codes| &&
    (j == Sequential(c, j.id) || (interrupted && j == c.jobs[j.id].(isBreak := true)))
  }

  predicate WorkerOk(c: Config, interrupted: bool, w: Worker) {
    match w
    case Idle => true
    case Holding(j) => j.id < |Plan(c)| && j == Plan(c)[j.id]
    case Running(j) => j.id < |c.jobs| && j == c.jobs[j.id] && !j.isSkip
    case Returning(j) => IsResult(c, interrupted, j)
    case Exited(j) => |c.jobs| <= j.id < |Plan(c)|
  }

  // The input queue is a contiguous piece of the plan: it is first in, first out.
  ghost predicate QueueInv(c: Config, s: Pool) {
    |s.input| <= s.next <= |Plan(c)| && s.input == Plan(c)[Taken(s)..s.next] &&
    |s.workers| == c.processors && |s.collected| <= |c.jobs| && s.joined <= c.processors
  }

  ghost predicate PlacesInv(c: Config, s: Pool) {
    |s.input| <= s.next && Places(s) == FirstIds(Taken(s))
  }

  ghost predicate ContentInv(c: Config, s: Pool) {
    (forall w :: 0 <= w < |s.workers| ==> WorkerOk(c, s.threadExit, s.workers[w])) &&
    (forall k :: 0 <= k < |s.output| ==> IsResult(c, s.threadExit, s.output[k])) &&
    forall k :: 0 <= k < |s.collected| ==> IsResult(c, s.threadExit, s.collected[k])
  }

  ghost predicate JoinInv(s: Pool) {
    s.joined <= |s.workers| && forall w :: 0 <= w < s.joined ==> s.workers[w].Exited?
  }

  ghost predicate Inv(c: Config, s: Pool) {
    ValidConfig(c) && QueueInv(c, s) && PlacesInv(c, s) && ContentInv(c, s) && JoinInv(s)
  }

  lemma {:induction false} OverIdle(f: Worker -> multiset<nat>, ws: seq<Worker>)
    requires f(Idle) == multiset{} && forall w :: 0 <= w < |ws| ==> ws[w].Idle?
    ensures Over(f, ws) == multiset{}
  {
    if ws == [] {
    } else {
      OverIdle(f, ws[..|ws| - 1]);
    }
  }

  lemma InvInitial(c: Config)
    requires ValidConfig(c)
    ensures Inv(c, Initial(c))
  {
    OverIdle(IdsIn, Initial(c).workers);
  }

  lemma PlanId(c: Config, i: nat)
    requires ValidConfig(c) && i < |Plan(c)|
    ensures Plan(c)[i].id == i && (Plan(c)[i].isBreak <==> |c.jobs| <= i)
    ensures i < |c.jobs| ==> Plan(c)[i] == c.jobs[i]
    ensures Plan(c)[i].returncode.None?
  {
    if i < |c.jobs| {
      assert Plan(c)[i] == c.jobs[i];
    } else {
      assert Plan(c)[i] == BreakJob(|c.jobs| + (i - |c.jobs|));
    }
  }

  lemma QueueStep(c: Config, s: Pool, a: Action)
    requires Inv(c, s) && Enabled(c, s, a)
    ensures QueueInv(c, Apply(c, s, a))
  {
    hide PlacesInv, ContentInv, JoinInv, ValidConfig, Plan, Checked;
  }

  // A worker that keeps its job, under whatever label, moves nothing.
  lemma PlacesKept(s: Pool, w: nat, x: Worker)
    requires w < |s.workers| && IdsIn(s.workers[w]) == IdsIn(x)
    ensures Places(s.(workers := s.workers[w := x])) == Places(s)
  {
    hide Over, Ids;
    OverUpdate(IdsIn, s.workers, w, x);
    Cancel(Over(IdsIn, s.workers[w := x]), Over(IdsIn, s.workers), IdsIn(x));
  }

  lemma PlacesTake(s: Pool, w: nat, j: Job)
    requires w < |s.workers| && s.workers[w].Idle? && s.input != [] && |s.input| <= s.next && j.id == Taken(s)
    requires Places(s) == FirstIds(Taken(s))
    ensures Places(s.(input := s.input[1..], workers := s.workers[w := Holding(j)])) == FirstIds(Taken(s) + 1)
  {
    hide Over, Ids;
    OverUpdate(IdsIn, s.workers, w, Holding(j));
    assert Over(IdsIn, s.workers[w := Holding(j)]) == Over(IdsIn, s.workers) + multiset{Taken(s)};
  }

  lemma PlacesPut(s: Pool, w: nat)
    requires w < |s.workers| && s.workers[w].Returning?
    ensures Places(s.(output := s.output + [s.workers[w].job], workers := s.workers[w := Idle])) == Places(s)
  {
    var m := multiset{s.workers[w].job.id};
    OverUpdate(IdsIn, s.workers, w, Idle);
    IdsPush(s.output, s.workers[w].job);
    assert Over(IdsIn, s.workers[w := Idle]) + m == Over(IdsIn, s.workers);
  }

  lemma PlacesCollect(s: Pool)
    requires s.output != []
    ensures Places(s.(output := s.output[1..], collected := s.collected + [s.output[0]])) == Places(s)
  {
    IdsPop(s.output);
    IdsPush(s.collected, s.output[0]);
  }

  lemma PlacesStep(c: Config, s: Pool, a: Action)
    requires Inv(c, s) && Enabled(c, s, a)
    ensures PlacesInv(c, Apply(c, s, a))
  {
    hide ContentInv, JoinInv, ValidConfig, Over, Ids, FirstIds, BreakJob;
    var s' := Apply(c, s, a);
    match a {
      case Take(w) =>
        assert s.input[0] == Plan(c)[Taken(s)];
        PlanId(c, Taken(s));
        PlacesTake(s, w, s.input[0]);
      case Check(w) => PlacesKept(s, w, s'.workers[w]);
      case Finish(w) => PlacesKept(s, w, s'.workers[w]);
      case Put(w) => PlacesPut(s, w);
      case Collect => PlacesCollect(s);
      case _ =>
    }
  }

  lemma TakeOk(c: Config, s: Pool, w: nat)
    requires ValidConfig(c) && QueueInv(c, s) && s.input != []
    ensures WorkerOk(c, s.threadExit, Holding(s.input[0]))
  {
    assert s.input[0] == Plan(c)[Taken(s)];
    PlanId(c, Taken(s));
  }

  lemma CheckOk(c: Config, interrupted: bool, j: Job)
    requires ValidConfig(c) && WorkerOk(c, interrupted, Holding(j))
    ensures WorkerOk(c, interrupted, Checked(j, interrupted))
  {
    PlanId(c, j.id);
  }

  lemma FinishOk(c: Config, interrupted: bool, j: Job)
    requires ValidConfig(c) && WorkerOk(c, interrupted, Running(j))
    ensures WorkerOk(c, interrupted, Returning(j.(returncode := Some(c.codes[j.id]))))
  {
  }

  lemma InterruptOk(c: Config, interrupted: bool)
    ensures forall j :: IsResult(c, interrupted, j) ==> IsResult(c, true, j)
    ensures forall w :: WorkerOk(c, interrupted, w) ==> WorkerOk(c, true, w)
  {
  }

  lemma ContentStep(c: Config, s: Pool, a: Action)
    requires Inv(c, s) && Enabled(c, s, a)
    ensures ContentInv(c, Apply(c, s, a))
  {
    hide PlacesInv, JoinInv, ValidConfig, WorkerOk, IsResult, Checked, Plan;
    var s' := Apply(c, s, a);
    match a {
      case Take(w) => TakeOk(c, s, w); IdleOk(c, s.threadExit, s.input[0]);
      case Check(w) => CheckOk(c, s.threadExit, s.workers[w].job);
      case Finish(w) => FinishOk(c, s.threadExit, s.workers[w].job);
      case Put(w) => IdleOk(c, s.threadExit, s.workers[w].job);
      case Interrupt => InterruptOk(c, s.threadExit);
      case _ =>
    }
  }

  lemma IdleOk(c: Config, interrupted: bool, j: Job)
    ensures WorkerOk(c, interrupted, Idle)
    ensures WorkerOk(c, interrupted, Returning(j)) ==> IsResult(c, interrupted, j)
  {
  }

  lemma JoinStep(c: Config, s: Pool, a: Action)
    requires Inv(c, s) && Enabled(c, s, a)
    ensures JoinInv(Apply(c, s, a))
  {
    hide PlacesInv, ContentInv, ValidConfig, Plan, Checked;
  }

  lemma InvStep(c: Config, s: Pool, a: Action)
    requires Inv(c, s) && Enabled(c, s, a)
    ensures Inv(c, Apply(c, s, a))
  {
    QueueStep(c, s, a);
    PlacesStep(c, s, a);
    ContentStep(c, s, a);
    JoinStep(c, s, a);
  }

  lemma {:induction false} InvRun(c: Config, s: Pool, actions: seq<Action>, s': Pool)
    requires Inv(c, s) && Run(c, s, actions, s')
    ensures Inv(c, s')
    decreases |actions|
  {
    if actions == [] {
    } else {
      InvStep(c, s, actions[0]);
      InvRun(c, Apply(c, s, actions[0]), actions[1..], s');
    }
  }

  lemma InvReachable(c: Config, s: Pool)
    requires ValidConfig(c) && Reachable(c, s)
    ensures Inv(c, s)
  {
    InvInitial(c);
    var actions :| Run(c, Initial(c), actions, s);
    InvRun(c, Initial(c), actions, s);
  }

  // ---------------------------------------------------------------- conservation and order

  lemma {:induction false} ConsecutiveIds(js: seq<Job>, a: nat)
    requires forall k :: 0 <= k < |js| ==> js[k].id == a + k
    ensures FirstIds(a) + Ids(js) == FirstIds(a + |js|)
  {
    hide FirstIds;
    if js == [] {
    } else {
      var init, n := js[..|js| - 1], a + |js| - 1;
      ConsecutiveIds(init, a);
      FirstIdsStep(n);
      Associate(FirstIds(a), Ids(init), multiset{n});
    }
  }

  lemma FirstIdsStep(n: nat)
    ensures FirstIds(n + 1) == FirstIds(n) + multiset{n}
  {
  }

  lemma Associate(a: multiset<nat>, b: multiset<nat>, c: multiset<nat>)
    ensures a + (b + c) == (a + b) + c
  {
  }

  lemma {:induction false} FirstIdsAt(n: nat, i: nat)
    ensures FirstIds(n)[i] == if i < n then 1 else 0
  {
    if n == 0 {
    } else {
      FirstIdsAt(n - 1, i);
    }
  }

  lemma FirstIdsCount(n: nat)
    ensures |FirstIds(n)| == n && forall i: nat :: FirstIds(n)[i] == if i < n then 1 else 0
  {
    forall i: nat ensures FirstIds(n)[i] == if i < n then 1 else 0 {
      FirstIdsAt(n, i);
    }
    FirstIdsSize(n);
  }

  lemma {:induction false} FirstIdsSize(n: nat)
    ensures |FirstIds(n)| == n
  {
    if n == 0 {
    } else {
      FirstIdsSize(n - 1);
    }
  }

  // In every reachable state each dispatched job is in exactly one place, and a break job is never
  // among those sent back.
  lemma EachJobInOnePlace(c: Config, s: Pool, i: nat)
    requires ValidConfig(c) && Reachable(c, s)
    ensures (Places(s) + Ids(s.input))[i] == if i < s.next then 1 else 0
    ensures forall j :: j in s.output || j in s.collected ==> j.id < |c.jobs|
  {
    hide Over, Ids, FirstIds, Reachable;
    InvReachable(c, s);
    forall k | 0 <= k < |s.input| ensures s.input[k].id == Taken(s) + k {
      assert s.input[k] == Plan(c)[Taken(s) + k];
      PlanId(c, Taken(s) + k);
    }
    ConsecutiveIds(s.input, Taken(s));
    FirstIdsCount(s.next);
  }

  // Jobs are collected in the order in which the workers put them into the output queue.
  lemma {:induction false} OutputFirstInFirstOut(c: Config, s: Pool, actions: seq<Action>, s': Pool)
    requires Run(c, s, actions, s')
    ensures s.collected + s.output <= s'.collected + s'.output
    decreases |actions|
  {
    if actions == [] {
    } else {
      OutputStep(c, s, actions[0]);
      OutputFirstInFirstOut(c, Apply(c, s, actions[0]), actions[1..], s');
    }
  }

  lemma OutputStep(c: Config, s: Pool, a: Action)
    requires Enabled(c, s, a)
    ensures s.collected + s.output <= Apply(c, s, a).collected + Apply(c, s, a).output
  {
  }
}
