/** Collecting the finished jobs: counters, name lists and the exit status. */
module TestResults {
  import opened Positions
  import opened WorkerPool
  import opened Wrappers

  datatype Outcome = Interrupted | Skipped | Passed | Failed | ValgrindError | Crashed

  // A return code that was never set compares equal to zero.
  function Classify(j: Job): Outcome {
    if j.isBreak then Interrupted
    else if j.isSkip then Skipped
    else
      match j.returncode
      case None => Passed
      case Some(code) =>
        if code == 0 then Passed else if code == 1 then Failed else if code == 2 then ValgrindError else Crashed
  }

  // The jobs that pass a test, in order of collection.
  function Filter(js: seq<Job>, p: Job -> bool): seq<Job> {
    if js == [] then []
    else Filter(js[..|js| - 1], p) + if p(js[|js| - 1]) then [js[|js| - 1]] else []
  }

  function Has(o: Outcome): Job -> bool {
    (j: Job) => Classify(j) == o
  }

  function Select(js: seq<Job>, o: Outcome): seq<Job> {
    Filter(js, Has(o))
  }

  // How a job is listed.
  function ListedName(j: Job, o: Outcome): string {
    if o == Skipped then j.displayName + " (" + j.skipReason + ")" else j.displayName
  }

  function Names(js: seq<Job>, o: Outcome): seq<string> {
    seq(|js|, i requires 0 <= i < |js| => ListedName(js[i], o))
  }

  lemma AddOne(js: seq<Job>, j: Job)
    ensures forall o :: Select(js + [j], o) == Select(js, o) + if Classify(j) == o then [j] else []
  {
  }

  // ---------------------------------------------------------------- the collecting loop

  class Summary {
    var passed: nat
    var skipped: nat
    var failed: nat
    var crashed: nat
    var valgrindErrors: nat
    var skippedNames: seq<string>
    var failedNames: seq<string>
    var crashedNames: seq<string>
    var valgrindNames: seq<string>

    // The counters and lists after the given jobs have been collected.
    ghost predicate Reflects(js: seq<Job>)
      reads this
    {
      passed == |Select(js, Passed)| && skipped == |Select(js, Skipped)| && failed == |Select(js, Failed)| &&
      crashed == |Select(js, Crashed)| && valgrindErrors == |Select(js, ValgrindError)| &&
      skippedNames == Names(Select(js, Skipped), Skipped) && failedNames == Names(Select(js, Failed), Failed) &&
      crashedNames == Names(Select(js, Crashed), Crashed) &&
      valgrindNames == Names(Select(js, ValgrindError), ValgrindError)
    }

    constructor ()
      ensures Reflects([])
    {
      passed, skipped, failed, crashed, valgrindErrors := 0, 0, 0, 0, 0;
      skippedNames, failedNames, crashedNames, valgrindNames := [], [], [], [];
    }

    method Add(job: Job, ghost before: seq<Job>)
      requires Reflects(before)
      modifies this
      ensures Reflects(before + [job])
    {
      AddOne(before, job);
      hide Select;
      if job.isBreak {
        return;
      }
      if job.isSkip {
        skipped := skipped + 1;
        skippedNames := skippedNames + [job.displayName + " (" + job.skipReason + ")"];
      } else {
        if job.returncode.None? || job.returncode.value == 0 {
          passed := passed + 1;
        } else if job.returncode.value == 1 {
          failed := failed + 1;
          failedNames := failedNames + [job.displayName];
        } else if job.returncode.value == 2 {
          valgrindErrors := valgrindErrors + 1;
          valgrindNames := valgrindNames + [job.displayName];
        } else {
          crashed := crashed + 1;
          crashedNames := crashedNames + [job.displayName];
        }
      }
    }

    // Takes the jobs from the output queue in their order, then decides the exit status.
    method CollectAll(jobs: seq<Job>, totalTests: nat) returns (status: int)
      requires Reflects([])
      modifies this
      ensures Reflects(jobs)
      ensures status == if |Select(jobs, Passed)| + |Select(jobs, Skipped)| == totalTests then 0 else 1
    {
      for i := 0 to |jobs|
        invariant Reflects(jobs[..i])
      {
        assert jobs[..i + 1] == jobs[..i] + [jobs[i]];
        Add(jobs[i], jobs[..i]);
      }
      assert jobs[..|jobs|] == jobs;
      status := if passed + skipped == totalTests then 0 else 1;
    }
  }

  // ---------------------------------------------------------------- what the counters mean

  lemma {:induction false} OutcomesPartition(js: seq<Job>)
    ensures |Select(js, Passed)| + |Select(js, Skipped)| + |Select(js, Failed)| + |Select(js, Crashed)|
            + |Select(js, ValgrindError)| + |Select(js, Interrupted)| == |js|
  {
    if js == [] {
    } else {
      OutcomesPartition(js[..|js| - 1]);
    }
  }

  // Where the jobs that pass a test stand in the order of collection.
  lemma {:induction false} FilterAt(js: seq<Job>, p: Job -> bool) returns (at: seq<nat>)
    ensures Increasing(at) && forall k: nat :: k in at <==> k < |js| && p(js[k])
    ensures |at| == |Filter(js, p)| && forall n :: 0 <= n < |at| ==> at[n] < |js| && js[at[n]] == Filter(js, p)[n]
  {
    if js == [] {
      at := [];
    } else {
      var init, k := js[..|js| - 1], |js| - 1;
      var before := FilterAt(init, p);
      assert Filter(js, p) == Filter(init, p) + if p(js[k]) then [js[k]] else [];
      hide Increasing, Filter;
      IncreasingSnoc(before, k);
      at := if p(js[k]) then before + [k] else before;
    }
  }

  lemma SelectMembers(js: seq<Job>, o: Outcome)
    ensures forall j :: j in Select(js, o) <==> j in js && Classify(j) == o
  {
    var at := FilterAt(js, Has(o));
    assert forall n :: 0 <= n < |at| ==> at[n] in at;
  }

  /** What a summary says of the collected jobs: which are counted where, with the names in the order of
      collection.  A break is not counted; among the others a skip comes first, then the code decides. */
  lemma Reported(summary: Summary, js: seq<Job>)
      returns (passed: seq<nat>, skipped: seq<nat>, failed: seq<nat>, valgrind: seq<nat>, crashed: seq<nat>)
    requires summary.Reflects(js)
    ensures Increasing(passed) && Increasing(skipped) && Increasing(failed)
    ensures Increasing(valgrind) && Increasing(crashed)
    ensures forall k: nat :: k in skipped <==> k < |js| && !js[k].isBreak && js[k].isSkip
    ensures forall k: nat :: k in passed <==>
              k < |js| && !js[k].isBreak && !js[k].isSkip && (js[k].returncode == None || js[k].returncode == Some(0))
    ensures forall k: nat :: k in failed <==>
              k < |js| && !js[k].isBreak && !js[k].isSkip && js[k].returncode == Some(1)
    ensures forall k: nat :: k in valgrind <==>
              k < |js| && !js[k].isBreak && !js[k].isSkip && js[k].returncode == Some(2)
    ensures forall k: nat :: k in crashed <==>
              k < |js| && !js[k].isBreak && !js[k].isSkip && js[k].returncode.Some? &&
              js[k].returncode.value != 0 && js[k].returncode.value != 1 && js[k].returncode.value != 2
    ensures summary.passed == |passed| && summary.skipped == |skipped| == |summary.skippedNames|
    ensures summary.failed == |failed| == |summary.failedNames|
    ensures summary.valgrindErrors == |valgrind| == |summary.valgrindNames|
    ensures summary.crashed == |crashed| == |summary.crashedNames|
    ensures forall n :: 0 <= n < |skipped| ==>
              skipped[n] < |js| &&
              summary.skippedNames[n] == js[skipped[n]].displayName + " (" + js[skipped[n]].skipReason + ")"
    ensures forall n :: 0 <= n < |failed| ==>
              failed[n] < |js| && summary.failedNames[n] == js[failed[n]].displayName
    ensures forall n :: 0 <= n < |valgrind| ==>
              valgrind[n] < |js| && summary.valgrindNames[n] == js[valgrind[n]].displayName
    ensures forall n :: 0 <= n < |crashed| ==>
              crashed[n] < |js| && summary.crashedNames[n] == js[crashed[n]].displayName
  {
    hide Filter, Increasing;
    passed := FilterAt(js, Has(Passed));
    skipped := FilterAt(js, Has(Skipped));
    failed := FilterAt(js, Has(Failed));
    valgrind := FilterAt(js, Has(ValgrindError));
    crashed := FilterAt(js, Has(Crashed));
  }

  // The status is zero exactly when every collected job passed or was skipped.
  lemma StatusMeaning(js: seq<Job>)
    ensures |Select(js, Passed)| + |Select(js, Skipped)| == |js| <==>
            forall j :: j in js ==> Classify(j) == Passed || Classify(j) == Skipped
  {
    OutcomesPartition(js);
    SelectMembers(js, Failed);
    SelectMembers(js, Crashed);
    SelectMembers(js, ValgrindError);
    SelectMembers(js, Interrupted);
    forall o, j | j in js && Classify(j) == o ensures Select(js, o) != [] {
      SelectMembers(js, o);
      assert j in Select(js, o);
    }
    forall o | Select(js, o) != [] ensures exists j :: j in js && Classify(j) == o {
      SelectMembers(js, o);
      assert Select(js, o)[0] in Select(js, o);
    }
  }

  lemma {:induction false} FilterMultiset(js: seq<Job>, p: Job -> bool)
    ensures forall j :: multiset(Filter(js, p))[j] == if p(j) then multiset(js)[j] else 0
  {
    if js == [] {
    } else {
      FilterMultiset(js[..|js| - 1], p);
      assert js == js[..|js| - 1] + [js[|js| - 1]];
    }
  }

  lemma FilterPermuted(a: seq<Job>, b: seq<Job>, p: Job -> bool)
    requires multiset(a) == multiset(b)
    ensures multiset(Filter(a, p)) == multiset(Filter(b, p)) && |Filter(a, p)| == |Filter(b, p)|
  {
    FilterMultiset(a, p);
    FilterMultiset(b, p);
    assert multiset(Filter(a, p)) == multiset(Filter(b, p));
    assert |multiset(Filter(a, p))| == |Filter(a, p)| && |multiset(Filter(b, p))| == |Filter(b, p)|;
  }

  // The counters do not depend on the order in which the jobs come back.
  lemma SelectPermuted(a: seq<Job>, b: seq<Job>, o: Outcome)
    requires multiset(a) == multiset(b)
    ensures multiset(Select(a, o)) == multiset(Select(b, o)) && |Select(a, o)| == |Select(b, o)|
  {
    FilterPermuted(a, b, Has(o));
  }

  // ---------------------------------------------------------------- counting positions

  lemma {:induction false} FilterSize(js: seq<Job>, p: Job -> bool, chosen: set<nat>)
    requires forall k: nat :: k in chosen <==> k < |js| && p(js[k])
    ensures |Filter(js, p)| == |chosen|
  {
    if js == [] {
      assert chosen == {};
    } else {
      var k := |js| - 1;
      FilterSize(js[..k], p, chosen - {k});
      if k in chosen { assert chosen == (chosen - {k}) + {k}; } else { assert chosen == chosen - {k}; }
    }
  }

  // The jobs of the given outcome that are listed under the given name.
  function Listed(o: Outcome, x: string): Job -> bool {
    (j: Job) => Classify(j) == o && ListedName(j, o) == x
  }

  lemma {:induction false} NameCount(js: seq<Job>, o: Outcome, x: string)
    ensures multiset(Names(Select(js, o), o))[x] == |Filter(js, Listed(o, x))|
  {
    if js == [] {
    } else {
      var init, last := js[..|js| - 1], js[|js| - 1];
      NameCount(init, o, x);
      if Classify(last) == o {
        assert Names(Select(js, o), o) == Names(Select(init, o), o) + [ListedName(last, o)];
      } else {
        assert Select(js, o) == Select(init, o);
      }
    }
  }
}
