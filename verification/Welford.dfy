/** The running mean and second moment of the benchmark report, over exact reals. */
module Welford {

  // ---------------------------------------------------------------- reference definitions

  function Sum(xs: seq<real>): real {
    if xs == [] then 0.0 else Sum(xs[..|xs| - 1]) + xs[|xs| - 1]
  }

  function SumOfSquares(xs: seq<real>): real {
    if xs == [] then 0.0 else SumOfSquares(xs[..|xs| - 1]) + Square(xs[|xs| - 1])
  }

  function Mean(xs: seq<real>): real
    requires xs != []
  {
    Sum(xs) / (|xs| as real)
  }

  function Square(x: real): real {
    x * x
  }

  // Sum of the squared distances to m.
  function Deviation(xs: seq<real>, m: real): real {
    if xs == [] then 0.0 else Deviation(xs[..|xs| - 1], m) + Square(xs[|xs| - 1] - m)
  }

  // ---------------------------------------------------------------- algebra, one identity at a time

  lemma Distribute(e: real, a: real, b: real)
    ensures e * (a + b) == e * a + e * b
  {
  }

  lemma SquareOfSum(a: real, b: real)
    ensures Square(a + b) == Square(a) + 2.0 * (b * a) + Square(b)
  {
  }

  lemma SquareNonNegative(a: real)
    ensures 0.0 <= Square(a)
  {
  }

  lemma MeanTimes(s: real, n: real)
    requires n > 0.0
    ensures n * (s / n) == s
  {
  }

  // With n samples before and the mean moving by -e: the shift of the old samples and the new sample's
  // distance add up to the product of the new sample's distances before and after.
  lemma UpdateIdentity(n: real, e: real)
    ensures n * Square(e) + Square(n * e) == ((n + 1.0) * e) * (n * e)
  {
    var ne := n * e;
    assert n * (e * e) == e * ne;
    assert ((n + 1.0) * e) * ne == (ne + e) * ne == ne * ne + e * ne;
  }

  lemma Eliminate(n: real, q: real, m: real, s: real)
    requires n * m == s
    ensures n * (q + 2.0 * ((0.0 - m) * s) + n * Square(0.0 - m)) == n * q - Square(s)
  {
    var nm := n * m;
    assert n * ((0.0 - m) * s) == (0.0 - nm) * s;
    assert n * (n * ((0.0 - m) * (0.0 - m))) == nm * nm;
    Distribute(n, q + 2.0 * ((0.0 - m) * s), n * Square(0.0 - m));
    Distribute(n, q, 2.0 * ((0.0 - m) * s));
  }

  // ---------------------------------------------------------------- properties of the reference

  lemma SumSnoc(xs: seq<real>, x: real, m: real)
    ensures Sum(xs + [x]) == Sum(xs) + x && Deviation(xs + [x], m) == Deviation(xs, m) + Square(x - m)
  {
  }

  // Moving the centre from m to m'.
  lemma {:induction false} DeviationShift(xs: seq<real>, m: real, m': real)
    ensures var n, e := |xs| as real, m - m';
            Deviation(xs, m') == Deviation(xs, m) + 2.0 * (e * (Sum(xs) - n * m)) + n * Square(e)
  {
    hide Square;
    if xs == [] {
      EmptyShift(m - m');
    } else {
      var init, x := xs[..|xs| - 1], xs[|xs| - 1];
      var n, e := |init| as real, m - m';
      DeviationShift(init, m, m');
      SquareOfSum(x - m, e);
      assert x - m' == (x - m) + e;
      Distribute(m, n, 1.0);
      var a := Sum(init) - n * m;
      assert Sum(xs) - (n + 1.0) * m == a + (x - m);
      ShiftStep(Deviation(init, m), e, a, x - m, n, Square(e), Square(x - m));
    }
  }

  lemma EmptyShift(e: real)
    ensures e * (0.0 - 0.0) == 0.0 && 0.0 * Square(e) == 0.0
  {
  }

  lemma ShiftStep(d: real, e: real, a: real, b: real, n: real, e2: real, b2: real)
    ensures (d + 2.0 * (e * a) + n * e2) + (b2 + 2.0 * (e * b) + e2) == (d + b2) + 2.0 * (e * (a + b)) + (n + 1.0) * e2
  {
    Distribute(e, a, b);
    Distribute(e2, n, 1.0);
  }

  lemma {:induction false} DeviationNonNegative(xs: seq<real>, m: real)
    ensures 0.0 <= Deviation(xs, m)
  {
    hide Square;
    if xs == [] {
    } else {
      DeviationNonNegative(xs[..|xs| - 1], m);
      SquareNonNegative(xs[|xs| - 1] - m);
    }
  }

  lemma {:induction false} DeviationFromZero(xs: seq<real>)
    ensures Deviation(xs, 0.0) == SumOfSquares(xs)
  {
    hide Square;
    if xs == [] {
    } else {
      DeviationFromZero(xs[..|xs| - 1]);
    }
  }

  // The second moment in terms of the plain sums: the textbook formula the loop avoids.
  lemma MomentIdentity(xs: seq<real>)
    requires xs != []
    ensures (|xs| as real) * Deviation(xs, Mean(xs)) == (|xs| as real) * SumOfSquares(xs) - Sum(xs) * Sum(xs)
  {
    hide Deviation, Sum, SumOfSquares;
    var n, m, s := |xs| as real, Mean(xs), Sum(xs);
    DeviationShift(xs, 0.0, m);
    DeviationFromZero(xs);
    MeanTimes(s, n);
    Eliminate(n, SumOfSquares(xs), m, s);
  }

  lemma PositiveProduct(a: real, b: real, p: real)
    requires a > 0.0 && b > 0.0 && p == a * b
    ensures p > 0.0
  {
  }

  lemma SquarePositive(e: real)
    requires e != 0.0
    ensures Square(e) > 0.0
  {
    if e < 0.0 {
      Signs(e, e);
      PositiveProduct(0.0 - e, 0.0 - e, Square(e));
    } else {
      PositiveProduct(e, e, Square(e));
    }
  }

  // The mean is the one point with the least sum of squared distances.
  lemma MeanIsNearest(xs: seq<real>, m: real)
    requires xs != []
    ensures Deviation(xs, Mean(xs)) <= Deviation(xs, m)
    ensures Deviation(xs, Mean(xs)) == Deviation(xs, m) ==> m == Mean(xs)
  {
    hide Deviation, Sum;
    var n, e := |xs| as real, Mean(xs) - m;
    DeviationShift(xs, Mean(xs), m);
    MeanTimes(Sum(xs), n);
    if e != 0.0 {
      SquarePositive(e);
      hide Square;
      PositiveProduct(n, Square(e), n * Square(e));
    }
  }

  lemma {:induction false} SumsPermuted(xs: seq<real>, ys: seq<real>)
    requires multiset(xs) == multiset(ys)
    ensures Sum(xs) == Sum(ys) && SumOfSquares(xs) == SumOfSquares(ys)
  {
    hide Square;
    if xs == [] {
      assert |ys| == |multiset(ys)| == 0;
    } else {
      var init, x := xs[..|xs| - 1], xs[|xs| - 1];
      assert xs == init + [x];
      assert x in multiset(ys);
      var k :| 0 <= k < |ys| && ys[k] == x;
      var rest := ys[..k] + ys[k + 1..];
      assert ys == ys[..k] + [x] + ys[k + 1..];
      assert multiset(rest) == multiset(ys) - multiset{x};
      SumsPermuted(init, rest);
      SumsSplit(ys[..k], x, ys[k + 1..]);
    }
  }

  lemma {:induction false} SumsSplit(a: seq<real>, x: real, b: seq<real>)
    ensures Sum(a + [x] + b) == Sum(a + b) + x
    ensures SumOfSquares(a + [x] + b) == SumOfSquares(a + b) + Square(x)
  {
    hide Square;
    if b == [] {
      assert a + [x] + b == a + [x] && a + b == a && (a + [x])[..|a|] == a;
    } else {
      var init := b[..|b| - 1];
      SumsSplit(a, x, init);
      assert (a + [x] + b)[..|a| + |b|] == a + [x] + init && (a + b)[..|a| + |b| - 1] == a + init;
    }
  }

  // Neither statistic depends on the order of the runs.
  lemma OrderDoesNotMatter(xs: seq<real>, ys: seq<real>)
    requires xs != [] && multiset(xs) == multiset(ys)
    ensures ys != [] && Mean(xs) == Mean(ys) && Deviation(xs, Mean(xs)) == Deviation(ys, Mean(ys))
  {
    hide Sum, SumOfSquares, Deviation, Square;
    assert |xs| == |multiset(xs)| == |multiset(ys)| == |ys|;
    SumsPermuted(xs, ys);
    MomentIdentity(xs);
    MomentIdentity(ys);
    CancelFactor(|xs| as real, Deviation(xs, Mean(xs)), Deviation(ys, Mean(ys)));
  }

  lemma CancelFactor(n: real, a: real, b: real)
    requires n > 0.0 && n * a == n * b
    ensures a == b
  {
  }

  // ---------------------------------------------------------------- the loop

  // What the accumulators hold after the samples xs: before the first one the mean is preset to x0.
  ghost predicate Summarises(average: real, moment2: real, xs: seq<real>, x0: real) {
    if xs == [] then average == x0 && moment2 == 0.0
    else average == Mean(xs) && moment2 == Deviation(xs, Mean(xs))
  }

  /** One accumulation of one statistic, the count being the number of samples including x. */
  method Accumulate(average: real, moment2: real, x: real, count: nat, ghost xs: seq<real>, ghost x0: real)
      returns (average': real, moment2': real)
    requires Summarises(average, moment2, xs, x0) && count == |xs| + 1 && (xs == [] ==> x == x0)
    ensures Summarises(average', moment2', xs + [x], x0)
  {
    var deltaPre := x - average;
    average' := average + deltaPre / (count as real);
    var deltaPost := x - average';
    moment2' := moment2 + deltaPre * deltaPost;
    UpdatedMean(average, x, xs, x0);
    UpdatedMoment(average, moment2, x, xs, x0);
  }

  lemma UpdatedMean(average: real, x: real, xs: seq<real>, x0: real)
    requires if xs == [] then average == x0 == x else average == Mean(xs)
    ensures average + (x - average) / (|xs| as real + 1.0) == Mean(xs + [x])
  {
    hide Sum, Deviation;
    SumSnoc(xs, x, 0.0);
    var n := |xs| as real;
    if xs == [] {
      EmptySums();
    } else {
      MeanTimes(Sum(xs), n);
    }
    MovedMean(n, average, x, Sum(xs));
  }

  lemma EmptySums()
    ensures Sum([]) == 0.0 && forall m :: Deviation([], m) == 0.0
  {
  }

  lemma MovedMean(n: real, m: real, x: real, s: real)
    requires n >= 0.0 && n * m == s
    ensures m + (x - m) / (n + 1.0) == (s + x) / (n + 1.0)
  {
    var d := n + 1.0;
    assert d * m == s + m;
    MeanTimes(x - m, d);
    Distribute(d, m, (x - m) / d);
    MeanTimes(s + x, d);
    CancelFactor(d, m + (x - m) / d, (s + x) / d);
  }

  lemma UpdatedMoment(average: real, moment2: real, x: real, xs: seq<real>, x0: real)
    requires Summarises(average, moment2, xs, x0) && (xs == [] ==> x == x0)
    ensures var m' := Mean(xs + [x]); moment2 + (x - average) * (x - m') == Deviation(xs + [x], m')
  {
    hide Sum, Deviation, Square;
    var n, m' := |xs| as real, Mean(xs + [x]);
    var e := average - m';
    UpdatedMean(average, x, xs, x0);
    SumSnoc(xs, x, m');
    DeviationShift(xs, average, m');
    EmptySums();
    if xs != [] { MeanTimes(Sum(xs), n); }
    assert n * average == Sum(xs) || xs == [];
    assert e * (Sum(xs) - n * average) == 0.0;
    // x - average == -(n + 1) * e and x - m' == -n * e
    MeanTimes(x - average, n + 1.0);
    assert (n + 1.0) * e == average - x by { Negate(n + 1.0, e, x - average); }
    assert n * e == m' - x by { Distribute(e, n, 1.0); }
    UpdateIdentity(n, e);
    Signs(average - x, m' - x);
  }

  lemma Negate(d: real, e: real, y: real)
    requires d > 0.0 && e == 0.0 - y / d
    ensures d * e == 0.0 - y
  {
    MeanTimes(y, d);
  }

  lemma Signs(a: real, b: real)
    ensures a * b == (0.0 - a) * (0.0 - b) && Square(b) == Square(0.0 - b)
  {
  }

  // ---------------------------------------------------------------- the report

  datatype PhaseResult = PhaseResult(time: real, rate: real, period: real)

  datatype RunResult = RunResult(init: PhaseResult, run: PhaseResult)

  datatype Statistic = InitTime | InitRate | InitPeriod | RunTime | RunRate | RunPeriod

  function Get(r: RunResult, f: Statistic): real {
    match f
    case InitTime => r.init.time
    case InitRate => r.init.rate
    case InitPeriod => r.init.period
    case RunTime => r.run.time
    case RunRate => r.run.rate
    case RunPeriod => r.run.period
  }

  function Column(results: seq<RunResult>, f: Statistic): seq<real> {
    seq(|results|, i requires 0 <= i < |results| => Get(results[i], f))
  }

  ghost predicate AllSummarised(average: RunResult, moment2: RunResult, results: seq<RunResult>, first: RunResult) {
    forall f: Statistic :: Summarises(Get(average, f), Get(moment2, f), Column(results, f), Get(first, f))
  }

  // The six accumulations of one run, one macro call each.
  method AccumulateRun(average: RunResult, moment2: RunResult, run: RunResult, count: nat,
                       ghost done: seq<RunResult>, ghost first: RunResult)
      returns (average': RunResult, moment2': RunResult)
    requires AllSummarised(average, moment2, done, first) && count == |done| + 1 && (done == [] ==> run == first)
    ensures AllSummarised(average', moment2', done + [run], first)
  {
    hide Summarises;
    var a1, m1 := Accumulate(average.init.time, moment2.init.time, run.init.time, count,
                             Column(done, InitTime), Get(first, InitTime));
    var a2, m2 := Accumulate(average.init.rate, moment2.init.rate, run.init.rate, count,
                             Column(done, InitRate), Get(first, InitRate));
    var a3, m3 := Accumulate(average.init.period, moment2.init.period, run.init.period, count,
                             Column(done, InitPeriod), Get(first, InitPeriod));
    var a4, m4 := Accumulate(average.run.time, moment2.run.time, run.run.time, count,
                             Column(done, RunTime), Get(first, RunTime));
    var a5, m5 := Accumulate(average.run.rate, moment2.run.rate, run.run.rate, count,
                             Column(done, RunRate), Get(first, RunRate));
    var a6, m6 := Accumulate(average.run.period, moment2.run.period, run.run.period, count,
                             Column(done, RunPeriod), Get(first, RunPeriod));
    average' := RunResult(PhaseResult(a1, a2, a3), PhaseResult(a4, a5, a6));
    moment2' := RunResult(PhaseResult(m1, m2, m3), PhaseResult(m4, m5, m6));
    forall f: Statistic
      ensures Summarises(Get(average', f), Get(moment2', f), Column(done + [run], f), Get(first, f))
    {
      assert Column(done + [run], f) == Column(done, f) + [Get(run, f)];
      match f case _ => {}
    }
  }

  ghost predicate IsRootOf(y: real, x: real) {
    0.0 <= y && y * y == x
  }

  // What the report needs of the square root it calls.
  ghost predicate IsSquareRoot(root: real -> real) {
    forall x :: 0.0 <= x ==> IsRootOf(root(x), x)
  }

  function MapPhase(f: real -> real, p: PhaseResult, n: real): PhaseResult
    requires n > 0.0
  {
    PhaseResult(f(p.time / n), f(p.rate / n), f(p.period / n))
  }

  /** The averages and the standard deviations of the six statistics, `root` being the square root function;
      no report is made for fewer than two runs.  Each root is taken of the exact variance, which is not
      negative. */
  method Log(results: seq<RunResult>, root: real -> real)
      returns (reported: bool, average: RunResult, stdev: RunResult)
    ensures reported <==> |results| >= 2
    ensures reported ==> forall f: Statistic ::
              var xs := Column(results, f);
              var variance := Deviation(xs, Mean(xs)) / (|xs| as real);
              Get(average, f) == Mean(xs) && 0.0 <= variance && Get(stdev, f) == root(variance) &&
              (IsSquareRoot(root) ==> IsRootOf(Get(stdev, f), variance))
  {
    hide IsRootOf;
    var zero := PhaseResult(0.0, 0.0, 0.0);
    reported, average, stdev := false, RunResult(zero, zero), RunResult(zero, zero);
    if |results| < 2 {
      return;
    }
    average := results[0];
    var moment2 := RunResult(zero, zero);
    for n := 0 to |results|
      invariant AllSummarised(average, moment2, results[..n], results[0])
    {
      hide AllSummarised;
      assert results[..n + 1] == results[..n] + [results[n]];
      average, moment2 := AccumulateRun(average, moment2, results[n], n + 1, results[..n], results[0]);
    }
    assert results[..|results|] == results;
    var n := |results| as real;
    reported := true;
    stdev := RunResult(MapPhase(root, moment2.init, n), MapPhase(root, moment2.run, n));
    forall f: Statistic
      ensures var xs := Column(results, f);
              var variance := Deviation(xs, Mean(xs)) / (|xs| as real);
              Get(average, f) == Mean(xs) && 0.0 <= variance && Get(stdev, f) == root(variance) &&
              (IsSquareRoot(root) ==> IsRootOf(Get(stdev, f), variance))
    {
      hide Mean, Deviation, IsRootOf;
      assert Get(stdev, f) == root(Get(moment2, f) / n) by { match f case _ => {} }
      DeviationNonNegative(Column(results, f), Mean(Column(results, f)));
      QuotientNonNegative(Get(moment2, f), n);
    }
  }

  lemma QuotientNonNegative(a: real, n: real)
    requires 0.0 <= a && 0.0 < n
    ensures 0.0 <= a / n
  {
  }
}
