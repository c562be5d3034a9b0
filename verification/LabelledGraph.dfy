/** Labelled multigraphs, walks given as lists of edge positions, and the depth-first
    enumeration of the simple ones.  Nothing here knows about TypeIds. */
module LabelledGraph {

  datatype Edge = Edge(name: string, target: nat)

  // g[v] lists the edges leaving v, in the order in which they are followed.
  type Graph = seq<seq<Edge>>

  ghost predicate Closed(g: Graph) {
    forall v, i :: 0 <= v < |g| && 0 <= i < |g[v]| ==> g[v][i].target < |g|
  }

  // ---------------------------------------------------------------- walks

  ghost predicate IsWalk(g: Graph, v: nat, p: seq<nat>)
    decreases |p|
  {
    v < |g| && (p == [] || (p[0] < |g[v]| && IsWalk(g, g[v][p[0]].target, p[1..])))
  }

  // The edge taken first by p out of v leads here (v itself when p does not start with an edge of v).
  function Next(g: Graph, v: nat, p: seq<nat>): nat {
    if v < |g| && p != [] && p[0] < |g[v]| then g[v][p[0]].target else v
  }

  function End(g: Graph, v: nat, p: seq<nat>): nat
    decreases |p|
  {
    if p == [] then v else End(g, Next(g, v, p), p[1..])
  }

  function Labels(g: Graph, v: nat, p: seq<nat>): seq<string>
    decreases |p|
  {
    if p == [] then []
    else (if v < |g| && p[0] < |g[v]| then [g[v][p[0]].name] else []) + Labels(g, Next(g, v, p), p[1..])
  }

  // All the vertices p visits, the first one included.
  function Vertices(g: Graph, v: nat, p: seq<nat>): seq<nat>
    decreases |p|
  {
    [v] + if p == [] then [] else Vertices(g, Next(g, v, p), p[1..])
  }

  ghost predicate Distinct<T>(s: seq<T>) {
    forall i, j :: 0 <= i < j < |s| ==> s[i] != s[j]
  }

  ghost predicate Disjoint<T>(s: seq<T>, t: seq<T>) {
    forall x :: x in s ==> x !in t
  }

  // The reference notion: a walk that visits no vertex twice.
  ghost predicate IsSimplePath(g: Graph, v: nat, p: seq<nat>) {
    IsWalk(g, v, p) && Distinct(Vertices(g, v, p))
  }

  ghost predicate Reachable(g: Graph, v: nat, t: nat) {
    exists p :: IsWalk(g, v, p) && End(g, v, p) == t
  }

  // ---------------------------------------------------------------- enumeration

  ghost function Unvisited(g: Graph, avoid: seq<nat>): set<nat> {
    set v: nat | v < |g| && v !in avoid
  }

  ghost function Prefixed(i: nat, ps: seq<seq<nat>>): (r: seq<seq<nat>>)
    ensures |r| == |ps| && forall k :: 0 <= k < |r| ==> r[k] == [i] + ps[k]
  {
    seq(|ps|, k requires 0 <= k < |ps| => [i] + ps[k])
  }

  // What the search enumerates from v when the vertices in `avoid` are on its stack.
  ghost function SimplePaths(g: Graph, v: nat, avoid: seq<nat>): seq<seq<nat>>
    requires Closed(g) && v < |g|
    decreases Unvisited(g, avoid), |g[v]| + 1
  {
    if v in avoid then [] else [[]] + Branches(g, v, avoid, |g[v]|)
  }

  // The part contributed by the first n edges of v.
  ghost function Branches(g: Graph, v: nat, avoid: seq<nat>, n: nat): seq<seq<nat>>
    requires Closed(g) && v < |g| && v !in avoid && n <= |g[v]|
    decreases Unvisited(g, avoid), n
  {
    if n == 0 then []
    else
      UnvisitedShrinks(g, avoid, v);
      Branches(g, v, avoid, n - 1) + Prefixed(n - 1, SimplePaths(g, g[v][n - 1].target, avoid + [v]))
  }

  // Each vertex put on the stack leaves strictly fewer to visit.
  lemma UnvisitedShrinks(g: Graph, avoid: seq<nat>, v: nat)
    requires v < |g| && v !in avoid
    ensures Unvisited(g, avoid + [v]) < Unvisited(g, avoid)
  {
    assert v in Unvisited(g, avoid) && v !in Unvisited(g, avoid + [v]);
  }

  // A duplicate-free stack of vertices cannot be longer than the graph.
  lemma {:induction false} StackBound(g: Graph, stack: seq<nat>)
    requires Distinct(stack) && forall x :: x in stack ==> x < |g|
    ensures |stack| + |Unvisited(g, stack)| == |g|
  {
    if stack == [] {
      UnvisitedAll(g);
    } else {
      var rest, x := stack[..|stack| - 1], stack[|stack| - 1];
      assert stack == rest + [x];
      assert forall y :: y in rest ==> y in stack;
      StackBound(g, rest);
      assert x in stack && x !in rest;
      assert forall y :: y in Unvisited(g, rest) <==> y in Unvisited(g, stack) + {x};
      assert Unvisited(g, rest) == Unvisited(g, stack) + {x};
    }
  }

  lemma {:induction false} UnvisitedAll(g: Graph)
    ensures |Unvisited(g, [])| == |g|
  {
    if g == [] {
    } else {
      var n := |g| - 1;
      UnvisitedAll(g[..n]);
      assert Unvisited(g, []) == Unvisited(g[..n], []) + {n};
    }
  }

  // ---------------------------------------------------------------- soundness and completeness

  // The search's own membership test, one vertex at a time.
  ghost predicate SimpleAvoiding(g: Graph, v: nat, p: seq<nat>, avoid: seq<nat>)
    decreases |p|
  {
    v < |g| && v !in avoid &&
    (p == [] || (p[0] < |g[v]| && SimpleAvoiding(g, g[v][p[0]].target, p[1..], avoid + [v])))
  }

  lemma DistinctCons<T>(x: T, s: seq<T>, avoid: seq<T>)
    ensures Distinct([x] + s) && Disjoint([x] + s, avoid) <==>
            x !in avoid && Distinct(s) && Disjoint(s, avoid + [x])
  {
    var xs := [x] + s;
    assert xs[0] == x && forall k :: 0 <= k < |s| ==> s[k] == xs[k + 1];
    if Distinct(xs) && Disjoint(xs, avoid) {
      forall y | y in s ensures y !in avoid + [x] {
        var k :| 0 <= k < |s| && s[k] == y;
        assert xs[0] != xs[k + 1] && y in xs;
      }
      assert x in xs;
      forall i, j | 0 <= i < j < |s| ensures s[i] != s[j] {
        assert xs[i + 1] != xs[j + 1];
      }
    }
    if x !in avoid && Distinct(s) && Disjoint(s, avoid + [x]) {
      assert x in avoid + [x];
      forall i, j | 0 <= i < j < |xs| ensures xs[i] != xs[j] {
        assert xs[j] == s[j - 1] && s[j - 1] in s;
      }
    }
  }

  lemma {:induction false} SimpleAvoidingMeaning(g: Graph, v: nat, p: seq<nat>, avoid: seq<nat>)
    ensures SimpleAvoiding(g, v, p, avoid) <==> IsSimplePath(g, v, p) && Disjoint(Vertices(g, v, p), avoid)
    decreases |p|
  {
    hide Distinct, Disjoint;
    if p == [] {
      assert Vertices(g, v, p) == [v] + [];
      DistinctCons(v, [], avoid);
      NothingRepeats(avoid + [v]);
    } else if v < |g| && p[0] < |g[v]| {
      var w, q := g[v][p[0]].target, p[1..];
      SimpleAvoidingMeaning(g, w, q, avoid + [v]);
      DistinctCons(v, Vertices(g, w, q), avoid);
    }
  }

  lemma NothingRepeats<T>(avoid: seq<T>)
    ensures Distinct<T>([]) && Disjoint([], avoid)
  {
  }

  lemma {:induction false} SimplePathsExact(g: Graph, v: nat, avoid: seq<nat>, p: seq<nat>)
    requires Closed(g) && v < |g|
    ensures p in SimplePaths(g, v, avoid) <==> SimpleAvoiding(g, v, p, avoid)
    decreases Unvisited(g, avoid), |g[v]| + 1
  {
    if v !in avoid {
      BranchesExact(g, v, avoid, |g[v]|, p);
      assert p in SimplePaths(g, v, avoid) <==> p == [] || p in Branches(g, v, avoid, |g[v]|);
    }
  }

  lemma PrefixedMembers(i: nat, ps: seq<seq<nat>>, p: seq<nat>)
    ensures p in Prefixed(i, ps) <==> p != [] && p[0] == i && p[1..] in ps
  {
    var last := Prefixed(i, ps);
    if p in last {
      var k :| 0 <= k < |last| && last[k] == p;
      assert ps[k] == p[1..];
    }
    if p != [] && p[0] == i && p[1..] in ps {
      var k :| 0 <= k < |ps| && ps[k] == p[1..];
      assert last[k] == p;
    }
  }

  lemma {:induction false} BranchesExact(g: Graph, v: nat, avoid: seq<nat>, n: nat, p: seq<nat>)
    requires Closed(g) && v < |g| && v !in avoid && n <= |g[v]|
    ensures p in Branches(g, v, avoid, n) <==> p != [] && p[0] < n && SimpleAvoiding(g, v, p, avoid)
    decreases Unvisited(g, avoid), n
  {
    if n == 0 {
    } else {
      BranchesExact(g, v, avoid, n - 1, p);
      UnvisitedShrinks(g, avoid, v);
      var w := g[v][n - 1].target;
      var ps := SimplePaths(g, w, avoid + [v]);
      assert p in Branches(g, v, avoid, n) <==> p in Branches(g, v, avoid, n - 1) || p in Prefixed(n - 1, ps);
      PrefixedMembers(n - 1, ps, p);
      if p != [] && p[0] == n - 1 {
        SimplePathsExact(g, w, avoid + [v], p[1..]);
      }
    }
  }

  // ---------------------------------------------------------------- order, hence no repetition

  // Preorder: a path comes before its extensions, then earlier edges come first.
  ghost predicate Before(p: seq<nat>, q: seq<nat>)
    decreases |p|
  {
    q != [] && (p == [] || p[0] < q[0] || (p[0] == q[0] && Before(p[1..], q[1..])))
  }

  ghost predicate InPreorder(ps: seq<seq<nat>>) {
    forall i, j :: 0 <= i < j < |ps| ==> Before(ps[i], ps[j])
  }

  lemma BeforeIrreflexive(p: seq<nat>)
    ensures !Before(p, p)
    decreases |p|
  {
  }

  lemma {:induction false} SimplePathsInPreorder(g: Graph, v: nat, avoid: seq<nat>)
    requires Closed(g) && v < |g|
    ensures InPreorder(SimplePaths(g, v, avoid))
    decreases Unvisited(g, avoid), |g[v]| + 1
  {
    if v !in avoid {
      BranchesInPreorder(g, v, avoid, |g[v]|);
    }
  }

  // Paths that start with an edge before i, followed by paths that start with edge i.
  lemma PreorderConcat(init: seq<seq<nat>>, i: nat, ps: seq<seq<nat>>)
    requires InPreorder(init) && InPreorder(ps)
    requires forall k :: 0 <= k < |init| ==> init[k] != [] && init[k][0] < i
    ensures InPreorder(init + Prefixed(i, ps))
    ensures forall k :: 0 <= k < |init + Prefixed(i, ps)| ==>
              (init + Prefixed(i, ps))[k] != [] && (init + Prefixed(i, ps))[k][0] < i + 1
  {
    var last := Prefixed(i, ps);
    forall j, k | 0 <= j < k < |last| ensures Before(last[j], last[k]) {
      assert last[j][1..] == ps[j] && last[k][1..] == ps[k];
    }
  }

  lemma {:induction false} BranchesInPreorder(g: Graph, v: nat, avoid: seq<nat>, n: nat)
    requires Closed(g) && v < |g| && v !in avoid && n <= |g[v]|
    ensures InPreorder(Branches(g, v, avoid, n))
    ensures forall k :: 0 <= k < |Branches(g, v, avoid, n)| ==>
              Branches(g, v, avoid, n)[k] != [] && Branches(g, v, avoid, n)[k][0] < n
    decreases Unvisited(g, avoid), n
  {
    if n == 0 {
    } else {
      BranchesInPreorder(g, v, avoid, n - 1);
      UnvisitedShrinks(g, avoid, v);
      var init, ps := Branches(g, v, avoid, n - 1), SimplePaths(g, g[v][n - 1].target, avoid + [v]);
      SimplePathsInPreorder(g, g[v][n - 1].target, avoid + [v]);
      assert Branches(g, v, avoid, n) == init + Prefixed(n - 1, ps);
      PreorderConcat(init, n - 1, ps);
    }
  }

  // The main statement about the enumeration: from an empty stack it lists every simple path out of v
  // once, in depth-first preorder, and nothing else.
  lemma SimplePathsEnumerate(g: Graph, v: nat)
    requires Closed(g) && v < |g|
    ensures forall p :: p in SimplePaths(g, v, []) <==> IsSimplePath(g, v, p)
    ensures InPreorder(SimplePaths(g, v, []))
    ensures Distinct(SimplePaths(g, v, []))
  {
    forall p ensures p in SimplePaths(g, v, []) <==> IsSimplePath(g, v, p) {
      SimplePathsExact(g, v, [], p);
      SimpleAvoidingMeaning(g, v, p, []);
    }
    SimplePathsInPreorder(g, v, []);
    var ps := SimplePaths(g, v, []);
    forall i, j | 0 <= i < j < |ps| ensures ps[i] != ps[j] {
      BeforeIrreflexive(ps[i]);
    }
  }

  // ---------------------------------------------------------------- walks reduce to simple paths

  // The part of a walk after the first k edges.
  lemma {:induction false} SuffixWalk(g: Graph, v: nat, p: seq<nat>, k: nat)
    requires IsWalk(g, v, p) && k <= |p|
    ensures |Vertices(g, v, p)| == |p| + 1
    ensures IsWalk(g, Vertices(g, v, p)[k], p[k..])
    ensures End(g, Vertices(g, v, p)[k], p[k..]) == End(g, v, p)
    ensures Vertices(g, Vertices(g, v, p)[k], p[k..]) == Vertices(g, v, p)[k..]
    decreases |p|
  {
    if p == [] {
    } else if k == 0 {
      assert p[0..] == p;
      SuffixWalk(g, g[v][p[0]].target, p[1..], 0);
    } else {
      SuffixWalk(g, g[v][p[0]].target, p[1..], k - 1);
      assert p[1..][k - 1..] == p[k..];
    }
  }

  // A walk that comes back to its start can skip everything before.
  lemma SkipLoop(g: Graph, v: nat, p: seq<nat>) returns (q: seq<nat>)
    requires IsWalk(g, v, p) && p != [] && v in Vertices(g, Next(g, v, p), p[1..])
    ensures |q| < |p| && IsWalk(g, v, q) && End(g, v, q) == End(g, v, p)
    ensures forall x :: x in Vertices(g, v, q) ==> x in Vertices(g, v, p)
  {
    var w := Next(g, v, p);
    var ws := Vertices(g, w, p[1..]);
    var k :| 0 <= k < |ws| && ws[k] == v;
    SuffixWalk(g, w, p[1..], 0);
    SuffixWalk(g, w, p[1..], k);
    q := p[1..][k..];
  }

  // A first edge in front of a walk.
  lemma ConsPath(g: Graph, v: nat, n: nat, r: seq<nat>)
    requires v < |g| && n < |g[v]|
    ensures IsWalk(g, v, [n] + r) <==> IsWalk(g, g[v][n].target, r)
    ensures End(g, v, [n] + r) == End(g, g[v][n].target, r)
    ensures Labels(g, v, [n] + r) == [g[v][n].name] + Labels(g, g[v][n].target, r)
    ensures Vertices(g, v, [n] + r) == [v] + Vertices(g, g[v][n].target, r)
  {
  }

  // A first edge in front of a simple path that does not come back to its start.
  lemma ConsSimplePath(g: Graph, v: nat, n: nat, r: seq<nat>)
    requires v < |g| && n < |g[v]| && IsSimplePath(g, g[v][n].target, r)
    requires v !in Vertices(g, g[v][n].target, r)
    ensures IsSimplePath(g, v, [n] + r) && End(g, v, [n] + r) == End(g, g[v][n].target, r)
    ensures Vertices(g, v, [n] + r) == [v] + Vertices(g, g[v][n].target, r)
  {
  }

  // Cutting the loops out of a walk leaves a simple path with the same end.
  lemma {:induction false} LoopErasure(g: Graph, v: nat, p: seq<nat>) returns (q: seq<nat>)
    requires IsWalk(g, v, p)
    ensures IsSimplePath(g, v, q) && End(g, v, q) == End(g, v, p)
    ensures forall x :: x in Vertices(g, v, q) ==> x in Vertices(g, v, p)
    decreases |p|
  {
    if p == [] {
      q := [];
    } else if v in Vertices(g, Next(g, v, p), p[1..]) {
      var shorter := SkipLoop(g, v, p);
      q := LoopErasure(g, v, shorter);
    } else {
      hide Distinct;
      var r := LoopErasure(g, g[v][p[0]].target, p[1..]);
      ConsSimplePath(g, v, p[0], r);
      q := [p[0]] + r;
    }
  }

  lemma ReachableBySimplePath(g: Graph, v: nat, t: nat)
    ensures Reachable(g, v, t) <==> exists p :: IsSimplePath(g, v, p) && End(g, v, p) == t
  {
    if Reachable(g, v, t) {
      var p :| IsWalk(g, v, p) && End(g, v, p) == t;
      var q := LoopErasure(g, v, p);
    }
  }
}
