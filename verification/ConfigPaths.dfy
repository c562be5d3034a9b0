/** What the gathered configuration paths mean: exactly the simple paths, hence exactly reachability. */
module ConfigPaths {
  import opened LabelledGraph
  import opened Positions
  import opened TypeRegistry
  import opened StaticInformationModel

  // ps lists the simple paths out of root, each once, in depth-first order.
  ghost predicate ListsSimplePaths(g: Graph, root: TypeId, ps: seq<seq<nat>>) {
    InPreorder(ps) && forall p :: p in ps <==> IsSimplePath(g, root, p)
  }

  // The records of one Gather are in one-to-one correspondence with the simple paths.
  lemma GatherRecordsExactlyTheSimplePaths(g: Graph, root: TypeId) returns (ps: seq<seq<nat>>)
    requires Closed(g) && root < |g|
    ensures ListsSimplePaths(g, root, ps) && Distinct(ps)
    ensures var out := Entries(g, [], root, SimplePaths(g, root, []));
            |out| == |ps| &&
            forall k :: 0 <= k < |out| ==> out[k] == (End(g, root, ps[k]), JoinPath(Labels(g, root, ps[k])))
  {
    ps := SimplePaths(g, root, []);
    SimplePathsEnumerate(g, root);
    forall k | 0 <= k < |ps|
      ensures Entry(g, [], root, ps[k]) == (End(g, root, ps[k]), JoinPath(Labels(g, root, ps[k])))
    {
      assert [] + Labels(g, root, ps[k]) == Labels(g, root, ps[k]);
    }
  }

  // That list is determined by the graph alone, so nothing about the recursion is left open.
  lemma {:induction false} PreorderListUnique(ps: seq<seq<nat>>, qs: seq<seq<nat>>)
    requires InPreorder(ps) && InPreorder(qs) && forall p :: p in ps <==> p in qs
    ensures ps == qs
  {
    HasMember(ps);
    HasMember(qs);
    if ps != [] && qs != [] {
      assert ps[0] in qs && qs[0] in ps;
      if ps[0] != qs[0] {
        var i :| 0 <= i < |qs| && qs[i] == ps[0];
        var j :| 0 <= j < |ps| && ps[j] == qs[0];
        BeforeAsymmetric(qs[0], ps[0]);
        assert false;
      }
      forall p ensures p in ps[1..] <==> p in qs[1..] {
        TailMembers(ps, p);
        TailMembers(qs, p);
      }
      PreorderListUnique(ps[1..], qs[1..]);
      assert ps == [ps[0]] + ps[1..] && qs == [qs[0]] + qs[1..];
    }
  }

  lemma HasMember(ps: seq<seq<nat>>)
    ensures ps != [] ==> exists p :: p in ps
  {
    if ps != [] { assert ps[0] in ps; }
  }

  lemma {:induction false} BeforeAsymmetric(p: seq<nat>, q: seq<nat>)
    requires Before(p, q)
    ensures !Before(q, p)
    decreases |p|
  {
    if p != [] && p[0] == q[0] { BeforeAsymmetric(p[1..], q[1..]); }
  }

  lemma TailMembers(ps: seq<seq<nat>>, p: seq<nat>)
    requires InPreorder(ps) && ps != []
    ensures p in ps[1..] <==> p in ps && p != ps[0]
  {
    if p in ps[1..] {
      var k :| 0 <= k < |ps[1..]| && ps[1..][k] == p;
      assert ps[k + 1] == p;
      BeforeIrreflexive(p);
    }
    if p in ps && p != ps[0] {
      var k :| 0 <= k < |ps| && ps[k] == p;
      assert ps[1..][k - 1] == p;
    }
  }

  // ---------------------------------------------------------------- every visit of the search

  // One visit of the whole search: the number of the root and the path followed from it.
  type Visit = (nat, seq<nat>)

  ghost predicate VisitBefore(a: Visit, b: Visit) {
    a.0 < b.0 || (a.0 == b.0 && Before(a.1, b.1))
  }

  // The visits of one root more.
  ghost function RootVisits(n: nat, ps: seq<seq<nat>>): (vs: seq<Visit>)
    ensures |vs| == |ps| && forall k :: 0 <= k < |vs| ==> vs[k] == (n, ps[k])
  {
    seq(|ps|, k requires 0 <= k < |ps| => (n, ps[k]))
  }

  ghost function VisitRecord(g: Graph, roots: seq<TypeId>, v: Visit): Record
    requires v.0 < |roots|
  {
    (End(g, roots[v.0], v.1), JoinPath(Labels(g, roots[v.0], v.1)))
  }

  // The records of all roots, visit by visit: root after root, and each root's simple paths in preorder.
  lemma {:induction false} GatheredVisits(g: Graph, roots: seq<TypeId>) returns (vs: seq<Visit>)
    requires Closed(g) && forall i :: 0 <= i < |roots| ==> roots[i] < |g|
    ensures forall i, j :: 0 <= i < j < |vs| ==> VisitBefore(vs[i], vs[j])
    ensures forall v: Visit :: v in vs <==> v.0 < |roots| && IsSimplePath(g, roots[v.0], v.1)
    ensures |vs| == |Gathered(g, roots)|
    ensures forall k :: 0 <= k < |vs| ==> vs[k].0 < |roots| && Gathered(g, roots)[k] == VisitRecord(g, roots, vs[k])
  {
    hide Closed, Entries, SimplePaths, IsSimplePath, End, Labels, JoinPath, Before;
    if roots == [] {
      vs := [];
    } else {
      var n, init := |roots| - 1, roots[..|roots| - 1];
      var before := GatheredVisits(g, init);
      var ps := GatherRecordsExactlyTheSimplePaths(g, roots[n]);
      vs := before + RootVisits(n, ps);
      VisitsAppended(before, n, ps);
      hide VisitBefore, InPreorder, Gathered;
      GatheredOne(g, roots);
      forall v: Visit ensures v in vs <==> v.0 < |roots| && IsSimplePath(g, roots[v.0], v.1) {
        assert v in before <==> v.0 < n && IsSimplePath(g, init[v.0], v.1);
      }
      forall k | 0 <= k < |vs| ensures vs[k].0 < |roots| && Gathered(g, roots)[k] == VisitRecord(g, roots, vs[k]) {
        if k < |before| {
          assert VisitRecord(g, init, vs[k]) == VisitRecord(g, roots, vs[k]);
        }
      }
    }
  }

  lemma GatheredOne(g: Graph, roots: seq<TypeId>)
    requires Closed(g) && roots != [] && forall i :: 0 <= i < |roots| ==> roots[i] < |g|
    ensures var n, root := |roots| - 1, roots[|roots| - 1];
            Gathered(g, roots) == Gathered(g, roots[..n]) + Entries(g, [], root, SimplePaths(g, root, []))
  {
  }

  lemma VisitsAppended(before: seq<Visit>, n: nat, ps: seq<seq<nat>>)
    requires forall i, j :: 0 <= i < j < |before| ==> VisitBefore(before[i], before[j])
    requires InPreorder(ps) && forall v :: v in before ==> v.0 < n
    ensures var vs := before + RootVisits(n, ps);
            (forall i, j :: 0 <= i < j < |vs| ==> VisitBefore(vs[i], vs[j])) &&
            forall v :: v in vs <==> v in before || (v.0 == n && v.1 in ps)
  {
    hide Before;
    var vs := before + RootVisits(n, ps);
    forall v ensures v in vs <==> v in before || (v.0 == n && v.1 in ps) {
      if v.0 == n && v.1 in ps {
        var k :| 0 <= k < |ps| && ps[k] == v.1;
        assert RootVisits(n, ps)[k] == v;
      }
    }
    forall i | 0 <= i < |before| ensures before[i].0 < n {
      assert before[i] in before;
    }
  }

  // The visits that end at tid, picked out of all visits at the given positions.
  ghost function VisitsAt(vs: seq<Visit>, at: seq<nat>): (r: seq<Visit>)
    requires forall j :: 0 <= j < |at| ==> at[j] < |vs|
    ensures |r| == |at| && forall j :: 0 <= j < |r| ==> r[j] == vs[at[j]]
  {
    seq(|at|, j requires 0 <= j < |at| => vs[at[j]])
  }

  lemma PathsFound(g: Graph, roots: seq<TypeId>, tid: TypeId, at: seq<nat>) returns (visits: seq<Visit>)
    requires Closed(g) && forall i :: 0 <= i < |roots| ==> roots[i] < |g|
    requires Increasing(at) && forall k: nat :: k in at <==> k < |Gathered(g, roots)| && Gathered(g, roots)[k].0 == tid
    ensures |visits| == |at| && forall i, j :: 0 <= i < j < |visits| ==> VisitBefore(visits[i], visits[j])
    ensures forall v: Visit :: v in visits <==>
              v.0 < |roots| && IsSimplePath(g, roots[v.0], v.1) && End(g, roots[v.0], v.1) == tid
    ensures forall j :: 0 <= j < |at| ==>
              visits[j].0 < |roots| && at[j] < |Gathered(g, roots)| &&
              Gathered(g, roots)[at[j]].1 == JoinPath(Labels(g, roots[visits[j].0], visits[j].1))
  {
    hide Closed, Gathered, IsSimplePath, End, Labels, JoinPath, VisitBefore;
    var vs := GatheredVisits(g, roots);
    assert forall j :: 0 <= j < |at| ==> at[j] in at;
    visits := VisitsAt(vs, at);
    forall v: Visit
      ensures v in visits <==>
              v.0 < |roots| && IsSimplePath(g, roots[v.0], v.1) && End(g, roots[v.0], v.1) == tid
    {
      if v in visits {
        var j :| 0 <= j < |visits| && visits[j] == v;
        assert vs[at[j]] in vs;
      }
      if v.0 < |roots| && IsSimplePath(g, roots[v.0], v.1) && End(g, roots[v.0], v.1) == tid {
        var k :| 0 <= k < |vs| && vs[k] == v;
        assert k in at;
        var j :| 0 <= j < |at| && at[j] == k;
        assert visits[j] == v;
      }
    }
  }

  // ---------------------------------------------------------------- reachability

  ghost predicate ReachableFromSome(g: Graph, roots: seq<TypeId>, tid: TypeId) {
    exists i :: 0 <= i < |roots| && Reachable(g, roots[i], tid)
  }

  // A type has a configuration path exactly when some gathered root reaches it.
  lemma GetNonEmptyIffReachable(g: Graph, roots: seq<TypeId>, tid: TypeId)
    requires Closed(g) && forall i :: 0 <= i < |roots| ==> roots[i] < |g|
    ensures Matching(Gathered(g, roots), tid) != [] <==> ReachableFromSome(g, roots, tid)
  {
    hide Closed, Gathered, Reachable, Matching, IsSimplePath, End, Labels, JoinPath, VisitBefore, Increasing;
    var at := MatchingAt(Gathered(g, roots), tid);
    var visits := PathsFound(g, roots, tid, at);
    if visits != [] {
      assert visits[0] in visits;
      ReachableBySimplePath(g, roots[visits[0].0], tid);
    }
    if i :| 0 <= i < |roots| && Reachable(g, roots[i], tid) {
      ReachableBySimplePath(g, roots[i], tid);
      var p :| IsSimplePath(g, roots[i], p) && End(g, roots[i], p) == tid;
      var v: Visit := (i, p);
      assert v in visits;
    }
  }

  // A simple path from some root to tid is recorded as x.
  ghost predicate IsPathText(g: Graph, roots: seq<TypeId>, tid: TypeId, x: string) {
    exists i, p :: 0 <= i < |roots| && IsSimplePath(g, roots[i], p) && End(g, roots[i], p) == tid &&
                   JoinPath(Labels(g, roots[i], p)) == x
  }

  lemma TextsOfVisits(g: Graph, roots: seq<TypeId>, tid: TypeId, visits: seq<Visit>, paths: seq<string>)
    requires forall v: Visit :: v in visits <==>
               v.0 < |roots| && IsSimplePath(g, roots[v.0], v.1) && End(g, roots[v.0], v.1) == tid
    requires |paths| == |visits|
    requires forall j :: 0 <= j < |visits| ==>
               visits[j].0 < |roots| && paths[j] == JoinPath(Labels(g, roots[visits[j].0], visits[j].1))
    ensures forall x :: x in paths <==> IsPathText(g, roots, tid, x)
  {
    hide IsSimplePath, End, Labels, JoinPath;
    forall x ensures x in paths <==> IsPathText(g, roots, tid, x) {
      if x in paths {
        var j :| 0 <= j < |paths| && paths[j] == x;
        assert visits[j] in visits;
      }
      if i, p :| 0 <= i < |roots| && IsSimplePath(g, roots[i], p) && End(g, roots[i], p) == tid &&
                 JoinPath(Labels(g, roots[i], p)) == x
      {
        var v: Visit := (i, p);
        assert v in visits;
        var j :| 0 <= j < |visits| && visits[j] == v;
        assert paths[j] == x;
      }
    }
  }

  // ---------------------------------------------------------------- the whole collection

  // The pairs of known types among the named aggregations.
  function KnownPairs(types: seq<TypeInfo>, names: seq<(string, string)>): seq<(TypeId, TypeId)> {
    if names == [] then []
    else
      var (a, b) := names[|names| - 1];
      var x, y := LookupByName(types, a), LookupByName(types, b);
      KnownPairs(types, names[..|names| - 1]) + if x.Some? && y.Some? then [(x.value, y.value)] else []
  }

  /** Records the named aggregations, gathers from all roots and looks a type up.  Its paths are the texts of
      the simple paths that lead to it over the graph of the known aggregations, one for each, root after root
      and in preorder; so there are any exactly when some root reaches the type. */
  method TypicalPaths(registry: Registry, names: seq<(string, string)>, roots: seq<TypeId>, tid: TypeId)
      returns (paths: seq<string>, ghost visits: seq<Visit>)
    requires ValidRegistry(registry) && forall i :: 0 <= i < |roots| ==> roots[i] < |registry.types|
    ensures var g := ConfigGraph(registry, KnownPairs(registry.types, names));
            (forall i, j :: 0 <= i < j < |visits| ==> VisitBefore(visits[i], visits[j])) &&
            (forall v: Visit :: v in visits <==>
               v.0 < |roots| && IsSimplePath(g, roots[v.0], v.1) && End(g, roots[v.0], v.1) == tid) &&
            |paths| == |visits| &&
            forall j :: 0 <= j < |visits| ==>
              visits[j].0 < |roots| && paths[j] == JoinPath(Labels(g, roots[visits[j].0], visits[j].1))
    ensures var g := ConfigGraph(registry, KnownPairs(registry.types, names));
            (forall x :: x in paths <==> IsPathText(g, roots, tid, x)) &&
            (paths != [] <==> ReachableFromSome(g, roots, tid))
  {
    hide ValidRegistry, Edges, ConfigGraph, IsPathText, ReachableFromSome, Gathered, LookupByName, IsSimplePath, End,
      Labels, JoinPath, VisitBefore, Matching;
    var info := new StaticInformation(registry);
    for i := 0 to |names|
      invariant info.registry == registry && info.Valid() && info.Idle() && info.output == []
      invariant info.aggregates == KnownPairs(registry.types, names[..i])
    {
      assert names[..i + 1][..i] == names[..i];
      info.RecordAggregationInfo(names[i].0, names[i].1);
    }
    assert names[..|names|] == names;
    info.GatherRoots(roots);
    ghost var at: seq<nat>;
    paths, at := info.Get(tid);
    ghost var g: Graph := info.G();
    assert info.output == Gathered(g, roots);
    visits := PathsFound(g, roots, tid, at);
    TextsOfVisits(g, roots, tid, visits, paths);
    GetNonEmptyIffReachable(g, roots, tid);
  }

  // ---------------------------------------------------------------- stack depth

  // Recursion is never deeper than one frame per type, plus the frame that returns at once.
  lemma SearchDepth(g: Graph, stack: seq<TypeId>, tid: TypeId, path: seq<string>)
    requires Spells(g, stack + [tid], path) && Distinct(stack)
    ensures |path| == |stack| <= |g|
    ensures tid !in stack ==> |stack| < |g|
  {
    forall x | x in stack ensures x < |g| {
      var i :| 0 <= i < |stack| && stack[i] == x;
      assert (stack + [tid])[i] == x;
    }
    StackBound(g, stack);
    assert (stack + [tid])[|stack|] == tid;
    if tid !in stack { assert tid in Unvisited(g, stack); }
  }
}
