/** What the counters and name lists report after a complete run, from the jobs and their return codes. */
module TestReport {
  import opened TestResults
  import opened WorkerPool
  import opened WorkerPoolInterrupt
  import opened WorkerPoolResults

  // As many jobs of an outcome were collected as there are among the expected ones.
  lemma CountSelected(expected: seq<Job>, js: seq<Job>, o: Outcome, chosen: set<nat>)
    requires multiset(js) == multiset(expected)
    requires forall i: nat :: i in chosen <==> i < |expected| && Classify(expected[i]) == o
    ensures |Select(js, o)| == |chosen|
  {
    hide Classify;
    FilterPermuted(js, expected, Has(o));
    FilterSize(expected, Has(o), chosen);
  }

  lemma CountListed(expected: seq<Job>, js: seq<Job>, o: Outcome, x: string, chosen: set<nat>)
    requires multiset(js) == multiset(expected)
    requires forall i: nat :: i in chosen <==>
               i < |expected| && Classify(expected[i]) == o && ListedName(expected[i], o) == x
    ensures multiset(Names(Select(js, o), o))[x] == |chosen|
  {
    hide Filter, Classify, Names, ListedName;
    NameCount(js, o, x);
    FilterPermuted(js, expected, Listed(o, x));
    FilterSize(expected, Listed(o, x), chosen);
  }

  // ---------------------------------------------------------------- the report, from jobs and codes

  // Every counter is the number of jobs it should count, marked ones left out.
  ghost predicate CountsRun(summary: Summary, c: Config, marked: set<nat>)
    requires |c.codes| == |c.jobs|
    reads summary
  {
    summary.skipped == |set i: nat | i < |c.jobs| && i !in marked && c.jobs[i].isSkip| &&
    summary.passed == |set i: nat | i < |c.jobs| && i !in marked && !c.jobs[i].isSkip && c.codes[i] == 0| &&
    summary.failed == |set i: nat | i < |c.jobs| && i !in marked && !c.jobs[i].isSkip && c.codes[i] == 1| &&
    summary.valgrindErrors == |set i: nat | i < |c.jobs| && i !in marked && !c.jobs[i].isSkip && c.codes[i] == 2| &&
    summary.crashed ==
    |set i: nat | i < |c.jobs| && i !in marked && !c.jobs[i].isSkip && c.codes[i] !in {0, 1, 2}|
  }

  // A name is listed as often as such jobs bear it, the names of skipped jobs with the reason.
  ghost predicate ListsRun(summary: Summary, c: Config, marked: set<nat>)
    requires |c.codes| == |c.jobs|
    reads summary
  {
    forall x ::
      multiset(summary.skippedNames)[x] ==
      |set i: nat | i < |c.jobs| && i !in marked && c.jobs[i].isSkip &&
                    c.jobs[i].displayName + " (" + c.jobs[i].skipReason + ")" == x| &&
      multiset(summary.failedNames)[x] ==
      |set i: nat | i < |c.jobs| && i !in marked && !c.jobs[i].isSkip && c.codes[i] == 1 &&
                    c.jobs[i].displayName == x| &&
      multiset(summary.valgrindNames)[x] ==
      |set i: nat | i < |c.jobs| && i !in marked && !c.jobs[i].isSkip && c.codes[i] == 2 &&
                    c.jobs[i].displayName == x| &&
      multiset(summary.crashedNames)[x] ==
      |set i: nat | i < |c.jobs| && i !in marked && !c.jobs[i].isSkip && c.codes[i] !in {0, 1, 2} &&
                    c.jobs[i].displayName == x|
  }

  // What comes back: the marked jobs marked, the others as if run alone.
  ghost predicate ComesBack(c: Config, marked: set<nat>, expected: seq<Job>) {
    |expected| == |c.jobs| == |c.codes| &&
    forall i: nat :: i < |c.jobs| ==> expected[i] == if i in marked then Marked(c, i) else Sequential(c, i)
  }

  lemma ExpectedOutcome(c: Config, marked: set<nat>, expected: seq<Job>, i: nat)
    requires ValidConfig(c) && ComesBack(c, marked, expected) && i < |c.jobs|
    ensures Classify(expected[i]) == Skipped <==> i !in marked && c.jobs[i].isSkip
    ensures Classify(expected[i]) == Passed <==> i !in marked && !c.jobs[i].isSkip && c.codes[i] == 0
    ensures Classify(expected[i]) == Failed <==> i !in marked && !c.jobs[i].isSkip && c.codes[i] == 1
    ensures Classify(expected[i]) == ValgrindError <==> i !in marked && !c.jobs[i].isSkip && c.codes[i] == 2
    ensures Classify(expected[i]) == Crashed <==> i !in marked && !c.jobs[i].isSkip && c.codes[i] !in {0, 1, 2}
    ensures forall o :: ListedName(expected[i], o) ==
                        if o == Skipped then c.jobs[i].displayName + " (" + c.jobs[i].skipReason + ")"
                        else c.jobs[i].displayName
  {
  }

  lemma CountsReported(summary: Summary, c: Config, marked: set<nat>, expected: seq<Job>, js: seq<Job>)
    requires ValidConfig(c) && ComesBack(c, marked, expected)
    requires summary.Reflects(js) && multiset(js) == multiset(expected)
    ensures CountsRun(summary, c, marked)
  {
    forall i: nat | i < |c.jobs| {
      ExpectedOutcome(c, marked, expected, i);
    }
    hide ValidConfig, ComesBack, Filter, Select, Classify, ListedName, Names;
    CountSelected(expected, js, Skipped, set i: nat | i < |c.jobs| && i !in marked && c.jobs[i].isSkip);
    CountSelected(expected, js, Passed,
                  set i: nat | i < |c.jobs| && i !in marked && !c.jobs[i].isSkip && c.codes[i] == 0);
    CountSelected(expected, js, Failed,
                  set i: nat | i < |c.jobs| && i !in marked && !c.jobs[i].isSkip && c.codes[i] == 1);
    CountSelected(expected, js, ValgrindError,
                  set i: nat | i < |c.jobs| && i !in marked && !c.jobs[i].isSkip && c.codes[i] == 2);
    CountSelected(expected, js, Crashed,
                  set i: nat | i < |c.jobs| && i !in marked && !c.jobs[i].isSkip && c.codes[i] !in {0, 1, 2});
  }

  lemma NamesReported(summary: Summary, c: Config, marked: set<nat>, expected: seq<Job>, js: seq<Job>)
    requires ValidConfig(c) && ComesBack(c, marked, expected)
    requires summary.Reflects(js) && multiset(js) == multiset(expected)
    ensures ListsRun(summary, c, marked)
  {
    forall i: nat | i < |c.jobs| {
      ExpectedOutcome(c, marked, expected, i);
    }
    hide ValidConfig, ComesBack, Filter, Select, Classify, ListedName, Names;
    forall x
      ensures multiset(summary.skippedNames)[x] ==
              |set i: nat | i < |c.jobs| && i !in marked && c.jobs[i].isSkip &&
                            c.jobs[i].displayName + " (" + c.jobs[i].skipReason + ")" == x|
    {
      CountListed(expected, js, Skipped, x,
                  set i: nat | i < |c.jobs| && i !in marked && c.jobs[i].isSkip &&
                               c.jobs[i].displayName + " (" + c.jobs[i].skipReason + ")" == x);
    }
    forall x
      ensures multiset(summary.failedNames)[x] ==
              |set i: nat | i < |c.jobs| && i !in marked && !c.jobs[i].isSkip && c.codes[i] == 1 &&
                            c.jobs[i].displayName == x|
    {
      CountListed(expected, js, Failed, x,
                  set i: nat | i < |c.jobs| && i !in marked && !c.jobs[i].isSkip && c.codes[i] == 1 &&
                               c.jobs[i].displayName == x);
    }
    forall x
      ensures multiset(summary.valgrindNames)[x] ==
              |set i: nat | i < |c.jobs| && i !in marked && !c.jobs[i].isSkip && c.codes[i] == 2 &&
                            c.jobs[i].displayName == x|
    {
      CountListed(expected, js, ValgrindError, x,
                  set i: nat | i < |c.jobs| && i !in marked && !c.jobs[i].isSkip && c.codes[i] == 2 &&
                               c.jobs[i].displayName == x);
    }
    forall x
      ensures multiset(summary.crashedNames)[x] ==
              |set i: nat | i < |c.jobs| && i !in marked && !c.jobs[i].isSkip && c.codes[i] !in {0, 1, 2} &&
                            c.jobs[i].displayName == x|
    {
      CountListed(expected, js, Crashed, x,
                  set i: nat | i < |c.jobs| && i !in marked && !c.jobs[i].isSkip && c.codes[i] !in {0, 1, 2} &&
                               c.jobs[i].displayName == x);
    }
  }

  /** Without an interrupt a complete run reports every job according to its flag and its return code. */
  lemma UninterruptedReport(c: Config, s: Pool, summary: Summary)
    requires ValidConfig(c) && Reachable(c, s) && Final(c, s) && !s.threadExit && summary.Reflects(s.collected)
    ensures CountsRun(summary, c, {}) && ListsRun(summary, c, {})
  {
    PoolRefinesSequentialRun(c, s);
    CountsReported(summary, c, {}, SequentialResults(c), s.collected);
    NamesReported(summary, c, {}, SequentialResults(c), s.collected);
  }

  /** When the flag is set in state s, the report of the complete run covers exactly the jobs not waiting
      in s, in every interleaving. */
  lemma InterruptedReport(c: Config, s: Pool, actions: seq<Action>, s': Pool, summary: Summary)
    requires ValidConfig(c) && Reachable(c, s) && !s.threadExit && summary.Reflects(s'.collected)
    requires Run(c, Apply(c, s, Interrupt), actions, s') && Final(c, s')
    ensures var marked := set i: nat | i < |c.jobs| && Waiting(s, i);
            CountsRun(summary, c, marked) && ListsRun(summary, c, marked)
  {
    hide Waiting, Reachable, Run, Final, Select, CountsRun, ListsRun;
    var marked := set i: nat | i < |c.jobs| && Waiting(s, i);
    InterruptedRunResults(c, s, actions, s');
    assert ComesBack(c, marked, ResultsAfter(c, s));
    CountsReported(summary, c, marked, ResultsAfter(c, s), s'.collected);
    NamesReported(summary, c, marked, ResultsAfter(c, s), s'.collected);
  }
}
