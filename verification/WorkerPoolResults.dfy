/** The results of a complete run, independent of the interleaving when there was no interrupt. */
module WorkerPoolResults {
  import opened WorkerPool
  import opened WorkerPoolProgress
  import opened TestResults
  import opened Wrappers

  // What running the jobs one after the other, in order of dispatch, would give.
  function SequentialResults(c: Config): seq<Job>
    requires |c.codes| == |c.jobs|
  {
    seq(|c.jobs|, i requires 0 <= i < |c.jobs| => Sequential(c, i))
  }

  // ---------------------------------------------------------------- results are determined by ids

  // Every job of js is the one expected under its id.
  ghost predicate AsExpected(expected: seq<Job>, js: seq<Job>) {
    forall k :: 0 <= k < |js| ==> js[k].id < |expected| && js[k] == expected[js[k].id]
  }

  lemma {:induction false} ExpectedMultiset(expected: seq<Job>, js: seq<Job>)
    requires AsExpected(expected, js)
    ensures forall j: Job :: multiset(js)[j] ==
              if j.id < |expected| && j == expected[j.id] then Ids(js)[j.id] else 0
  {
    if js == [] {
    } else {
      var init, last := js[..|js| - 1], js[|js| - 1];
      ExpectedMultiset(expected, init);
      assert js == init + [last];
    }
  }

  // A complete collection of the expected jobs is a permutation of them, with the same counters.
  lemma ExpectedPermutation(expected: seq<Job>, js: seq<Job>)
    requires AsExpected(expected, js) && Ids(js) == FirstIds(|expected|)
    requires forall i :: 0 <= i < |expected| ==> expected[i].id == i
    ensures multiset(js) == multiset(expected)
    ensures forall o :: |Select(js, o)| == |Select(expected, o)|
  {
    hide Ids, FirstIds, Select;
    ConsecutiveIds(expected, 0);
    FirstIdsEmpty();
    ExpectedMultiset(expected, expected);
    ExpectedMultiset(expected, js);
    assert multiset(js) == multiset(expected);
    forall o ensures |Select(js, o)| == |Select(expected, o)| {
      SelectPermuted(js, expected, o);
    }
  }

  lemma FirstIdsEmpty()
    ensures FirstIds(0) == multiset{}
  {
  }

  // Without an interrupt, every complete run collects what a sequential run would produce, up to order.
  lemma PoolRefinesSequentialRun(c: Config, s: Pool)
    requires ValidConfig(c) && Reachable(c, s) && Final(c, s) && !s.threadExit
    ensures multiset(s.collected) == multiset(SequentialResults(c))
    ensures forall j :: j in s.collected ==>
              j.id < |c.jobs| && j == if c.jobs[j.id].isSkip then c.jobs[j.id]
                                      else c.jobs[j.id].(returncode := Some(c.codes[j.id]))
    ensures forall o :: |Select(s.collected, o)| == |Select(SequentialResults(c), o)|
  {
    hide Inv, Final, Reachable, Over, Ids, FirstIds, Select;
    InvReachable(c, s);
    FinalState(c, s);
    SequentialOnly(c, s);
    ExpectedPermutation(SequentialResults(c), s.collected);
  }

  lemma SequentialOnly(c: Config, s: Pool)
    requires Inv(c, s) && !s.threadExit
    ensures AsExpected(SequentialResults(c), s.collected)
    ensures forall j :: j in s.collected ==>
              j.id < |c.jobs| && j == if c.jobs[j.id].isSkip then c.jobs[j.id]
                                      else c.jobs[j.id].(returncode := Some(c.codes[j.id]))
  {
    forall k | 0 <= k < |s.collected|
      ensures s.collected[k].id < |c.jobs| && s.collected[k] == Sequential(c, s.collected[k].id)
    {
      assert IsResult(c, s.threadExit, s.collected[k]);
    }
  }

  ghost predicate HasId(js: seq<Job>, i: nat) {
    exists j :: j in js && j.id == i
  }

  // The exit status of a complete run: zero exactly when no job came back interrupted and every job is
  // a skip or returned zero.
  lemma FinalStatus(c: Config, s: Pool)
    requires ValidConfig(c) && Reachable(c, s) && Final(c, s)
    ensures |Select(s.collected, Passed)| + |Select(s.collected, Skipped)| == |c.jobs| <==>
            (forall j :: j in s.collected ==> !j.isBreak) &&
            (forall i :: 0 <= i < |c.jobs| ==> c.jobs[i].isSkip || c.codes[i] == 0)
  {
    hide Select, Ids, Inv, Reachable, Classify, IsResult;
    InvReachable(c, s);
    FinalState(c, s);
    StatusMeaning(s.collected);
    FirstIdsCount(|c.jobs|);
    forall j | j in s.collected ensures ResultGood(c, j) {
      CollectedResult(c, s, j);
      ResultStatus(c, s.threadExit, j);
    }
    forall i: nat | i < |c.jobs| ensures HasId(s.collected, i) {
      IdPresent(s.collected, i);
    }
    GoodResults(c, s.collected);
  }

  lemma GoodResults(c: Config, js: seq<Job>)
    requires |c.jobs| == |c.codes|
    requires (forall j :: j in js ==> ResultGood(c, j)) && forall i: nat :: i < |c.jobs| ==> HasId(js, i)
    ensures (forall j :: j in js ==> Classify(j) == Passed || Classify(j) == Skipped) <==>
            (forall j :: j in js ==> !j.isBreak) &&
            (forall i :: 0 <= i < |c.jobs| ==> c.jobs[i].isSkip || c.codes[i] == 0)
  {
    hide Classify;
    if forall j :: j in js ==> Classify(j) == Passed || Classify(j) == Skipped {
      forall i: nat | i < |c.jobs| ensures c.jobs[i].isSkip || c.codes[i] == 0 {
        assert HasId(js, i);
        var j :| j in js && j.id == i;
        assert ResultGood(c, j);
      }
    }
  }

  // A result counts as good exactly when it was not interrupted and its job is a skip or returned zero.
  ghost predicate ResultGood(c: Config, j: Job) {
    j.id < |c.jobs| == |c.codes| &&
    ((Classify(j) == Passed || Classify(j) == Skipped) <==>
     !j.isBreak && (c.jobs[j.id].isSkip || c.codes[j.id] == 0))
  }

  lemma ResultStatus(c: Config, interrupted: bool, j: Job)
    requires ValidConfig(c) && IsResult(c, interrupted, j)
    ensures ResultGood(c, j)
  {
  }

  lemma CollectedResult(c: Config, s: Pool, j: Job)
    requires Inv(c, s) && j in s.collected
    ensures j.id < |c.jobs| && IsResult(c, s.threadExit, j) && ValidConfig(c)
  {
  }

  lemma {:induction false} IdPresent(js: seq<Job>, i: nat)
    requires Ids(js)[i] > 0
    ensures HasId(js, i)
  {
    if js[|js| - 1].id == i {
      assert js[|js| - 1] in js;
    } else {
      IdPresent(js[..|js| - 1], i);
      var j :| j in js[..|js| - 1] && j.id == i;
      assert j in js;
    }
  }
}
