/** The search for configuration paths: a depth-first walk that keeps its two stacks in fields
    and appends one record per visit. */
module StaticInformationModel {
  import opened LabelledGraph
  import opened Positions
  import opened TypeRegistry

  // A record is a type and the textual path that leads to it.
  type Record = (TypeId, string)

  function JoinPath(items: seq<string>): string {
    if items == [] then "" else JoinPath(items[..|items| - 1]) + "/" + items[|items| - 1]
  }

  // What the simple path p out of v should be recorded as, when `base` is the path to v.
  ghost function Entry(g: Graph, base: seq<string>, v: TypeId, p: seq<nat>): Record {
    (End(g, v, p), JoinPath(base + Labels(g, v, p)))
  }

  ghost function Entries(g: Graph, base: seq<string>, v: TypeId, ps: seq<seq<nat>>): seq<Record> {
    seq(|ps|, k requires 0 <= k < |ps| => Entry(g, base, v, ps[k]))
  }

  lemma EntriesConcat(g: Graph, base: seq<string>, v: TypeId, ps: seq<seq<nat>>, qs: seq<seq<nat>>)
    ensures Entries(g, base, v, ps + qs) == Entries(g, base, v, ps) + Entries(g, base, v, qs)
  {
  }

  // Recording paths below an edge is recording the prolonged paths above it.
  lemma EntriesPrefixed(g: Graph, base: seq<string>, v: TypeId, n: nat, ps: seq<seq<nat>>)
    requires v < |g| && n < |g[v]|
    ensures Entries(g, base, v, Prefixed(n, ps)) == Entries(g, base + [g[v][n].name], g[v][n].target, ps)
  {
    forall k | 0 <= k < |ps|
      ensures Entry(g, base, v, [n] + ps[k]) == Entry(g, base + [g[v][n].name], g[v][n].target, ps[k])
    {
      var p := [n] + ps[k];
      assert p[1..] == ps[k];
      assert base + Labels(g, v, p) == base + [g[v][n].name] + Labels(g, g[v][n].target, ps[k]);
    }
  }

  // The stack of ancestors, followed by the current type, spells the current path edge by edge.
  ghost predicate Spells(g: Graph, chain: seq<TypeId>, path: seq<string>) {
    |chain| == |path| + 1 && (forall i :: 0 <= i < |chain| ==> chain[i] < |g|) &&
    forall i :: 0 <= i < |path| ==> Edge(path[i], chain[i + 1]) in g[chain[i]]
  }

  function Matching(output: seq<Record>, tid: TypeId): seq<string> {
    if output == [] then []
    else Matching(output[..|output| - 1], tid) +
         if output[|output| - 1].0 == tid then [output[|output| - 1].1] else []
  }

  // Which records those texts come from: every record of the type, in order, each once.
  lemma {:induction false} MatchingAt(output: seq<Record>, tid: TypeId) returns (at: seq<nat>)
    ensures Increasing(at) && forall k: nat :: k in at <==> k < |output| && output[k].0 == tid
    ensures |at| == |Matching(output, tid)|
    ensures forall j :: 0 <= j < |at| ==> at[j] < |output| && output[at[j]] == (tid, Matching(output, tid)[j])
  {
    if output == [] {
      at := [];
    } else {
      var init, k := output[..|output| - 1], |output| - 1;
      at := MatchingAt(init, tid);
      hide Increasing;
      if output[k].0 == tid {
        IncreasingSnoc(at, k);
        at := at + [k];
      }
    }
  }

  // Since out0, the record of tid and those below its first n edges have been appended.
  ghost predicate Recorded(g: Graph, path: seq<string>, tid: TypeId, stack: seq<TypeId>, n: nat,
                           out0: seq<Record>, output: seq<Record>)
  {
    Closed(g) && tid < |g| && tid !in stack && n <= |g[tid]| &&
    output == out0 + Entries(g, path, tid, [[]] + Branches(g, tid, stack, n))
  }

  lemma RecordedNothing(g: Graph, path: seq<string>, tid: TypeId, stack: seq<TypeId>)
    requires Closed(g) && tid < |g| && tid in stack
    ensures Entries(g, path, tid, SimplePaths(g, tid, stack)) == []
  {
  }

  lemma RecordedFirst(g: Graph, path: seq<string>, tid: TypeId, stack: seq<TypeId>, out0: seq<Record>)
    requires Closed(g) && tid < |g| && tid !in stack
    ensures Recorded(g, path, tid, stack, 0, out0, out0 + [(tid, JoinPath(path))])
  {
    assert path + [] == path;
    assert Entries(g, path, tid, [[]]) == [(tid, JoinPath(path))];
    assert [[]] + Branches(g, tid, stack, 0) == [[]];
  }

  lemma RecordedNext(g: Graph, path: seq<string>, tid: TypeId, stack: seq<TypeId>, n: nat,
                     out0: seq<Record>, out1: seq<Record>, out2: seq<Record>)
    requires Recorded(g, path, tid, stack, n, out0, out1) && n < |g[tid]| && g[tid][n].target < |g|
    requires out2 == out1 + Entries(g, path + [g[tid][n].name], g[tid][n].target,
                                    SimplePaths(g, g[tid][n].target, stack + [tid]))
    ensures Recorded(g, path, tid, stack, n + 1, out0, out2)
  {
    hide End, Labels, JoinPath, Entries, Closed, SimplePaths;
    var before, below := [[]] + Branches(g, tid, stack, n), SimplePaths(g, g[tid][n].target, stack + [tid]);
    EntriesPrefixed(g, path, tid, n, below);
    EntriesConcat(g, path, tid, before, Prefixed(n, below));
    assert [[]] + Branches(g, tid, stack, n + 1) == before + Prefixed(n, below);
  }

  lemma RecordedAll(g: Graph, path: seq<string>, tid: TypeId, stack: seq<TypeId>,
                    out0: seq<Record>, output: seq<Record>)
    requires Closed(g) && tid < |g| && Recorded(g, path, tid, stack, |g[tid]|, out0, output)
    ensures output == out0 + Entries(g, path, tid, SimplePaths(g, tid, stack))
  {
  }

  // All that gathering from the given roots, one after the other, records.
  ghost function Gathered(g: Graph, roots: seq<TypeId>): seq<Record>
    requires Closed(g) && forall i :: 0 <= i < |roots| ==> roots[i] < |g|
  {
    if roots == [] then []
    else
      var root := roots[|roots| - 1];
      Gathered(g, roots[..|roots| - 1]) + Entries(g, [], root, SimplePaths(g, root, []))
  }

  class StaticInformation {
    const registry: Registry
    var output: seq<Record>
    var currentPath: seq<string>
    var alreadyProcessed: seq<TypeId>
    var aggregates: seq<(TypeId, TypeId)>
    var noTids: seq<string>

    ghost predicate Valid()
      reads this`aggregates
    {
      ValidRegistry(registry) && ValidAggregates(registry, aggregates)
    }

    ghost function G(): (g: Graph)
      requires Valid()
      reads this`aggregates
      ensures g == ConfigGraph(registry, aggregates) && |g| == |registry.types| && Closed(g)
      ensures forall t :: 0 <= t < |g| ==> g[t] == Edges(registry, aggregates, t)
    {
      ConfigGraphClosed(registry, aggregates);
      ConfigGraph(registry, aggregates)
    }

    // Between two top-level calls both stacks are empty.
    ghost predicate Idle()
      reads this`currentPath, this`alreadyProcessed
    {
      currentPath == [] && alreadyProcessed == []
    }

    // What holds of the stacks whenever DoGather is entered for tid.
    ghost predicate OnStack(tid: TypeId)
      requires Valid()
      reads this`aggregates, this`currentPath, this`alreadyProcessed
    {
      Spells(G(), alreadyProcessed + [tid], currentPath) && Distinct(alreadyProcessed)
    }

    constructor (registry: Registry)
      requires ValidRegistry(registry)
      ensures this.registry == registry && Valid() && Idle()
      ensures output == [] && aggregates == [] && noTids == []
    {
      this.registry := registry;
      output, currentPath, alreadyProcessed, aggregates, noTids := [], [], [], [], [];
    }

    // Of the two names only the first unknown one is remembered.
    method RecordAggregationInfo(a: string, b: string)
      requires Valid()
      modifies this`aggregates, this`noTids
      ensures Valid()
      ensures var aTid, bTid := LookupByName(registry.types, a), LookupByName(registry.types, b);
              if aTid.None? then noTids == old(noTids) + [a] && aggregates == old(aggregates)
              else if bTid.None? then noTids == old(noTids) + [b] && aggregates == old(aggregates)
              else noTids == old(noTids) && aggregates == old(aggregates) + [(aTid.value, bTid.value)]
    {
      var aTid := LookupByName(registry.types, a);
      if aTid.None? {
        noTids := noTids + [a];
        return;
      }
      var bTid := LookupByName(registry.types, b);
      if bTid.None? {
        noTids := noTids + [b];
        return;
      }
      aggregates := aggregates + [(aTid.value, bTid.value)];
    }

    method GetCurrentPath() returns (path: string)
      ensures path == JoinPath(currentPath)
    {
      path := "";
      for i := 0 to |currentPath|
        invariant path == JoinPath(currentPath[..i])
      {
        assert currentPath[..i + 1][..i] == currentPath[..i];
        path := path + "/" + currentPath[i];
      }
      assert currentPath[..|currentPath|] == currentPath;
    }

    method RecordOutput(tid: TypeId)
      modifies this`output
      ensures output == old(output) + [(tid, JoinPath(currentPath))]
    {
      var path := GetCurrentPath();
      output := output + [(tid, path)];
    }

    method HasAlreadyBeenProcessed(tid: TypeId) returns (found: bool)
      ensures found <==> tid in alreadyProcessed
    {
      for i := 0 to |alreadyProcessed|
        invariant tid !in alreadyProcessed[..i]
      {
        if alreadyProcessed[i] == tid {
          return true;
        }
      }
      return false;
    }

    // `at` are the positions of the records whose texts are returned.
    method Get(tid: TypeId) returns (paths: seq<string>, ghost at: seq<nat>)
      ensures paths == Matching(output, tid)
      ensures |paths| == |at| && Increasing(at)
      ensures forall k: nat :: k in at <==> k < |output| && output[k].0 == tid
      ensures forall j :: 0 <= j < |at| ==> at[j] < |output| && output[at[j]] == (tid, paths[j])
    {
      paths := [];
      for i := 0 to |output|
        invariant paths == Matching(output[..i], tid)
      {
        assert output[..i + 1][..i] == output[..i];
        if output[i].0 == tid {
          paths := paths + [output[i].1];
        }
      }
      assert output[..|output|] == output;
      at := MatchingAt(output, tid);
    }

    // Pushes both stacks, searches below the n-th edge of tid, pops both stacks.
    method Follow(tid: TypeId, edge: Edge, ghost out0: seq<Record>, ghost n: nat) returns (ghost n': nat)
      requires Valid() && tid < |registry.types| && tid !in alreadyProcessed && OnStack(tid)
      requires n < |G()[tid]| && G()[tid][n] == edge
      requires Recorded(G(), currentPath, tid, alreadyProcessed, n, out0, output)
      modifies this`output, this`currentPath, this`alreadyProcessed
      ensures currentPath == old(currentPath) && alreadyProcessed == old(alreadyProcessed) && n' == n + 1
      ensures Recorded(G(), currentPath, tid, alreadyProcessed, n', out0, output)
      decreases Unvisited(G(), alreadyProcessed), 0
    {
      hide Recorded, Entries, ValidRegistry, ConfigGraph, SimplePaths;
      ghost var g, path, stack, out1 := G(), currentPath, alreadyProcessed, output;
      UnvisitedShrinks(g, stack, tid);
      SpellsExtended(g, stack, tid, edge, path);
      currentPath := currentPath + [edge.name];
      alreadyProcessed := alreadyProcessed + [tid];
      DoGather(edge.target);
      alreadyProcessed := alreadyProcessed[..|alreadyProcessed| - 1];
      currentPath := currentPath[..|currentPath| - 1];
      n' := n + 1;
      RecordedNext(g, path, tid, stack, n, out0, out1, output);
    }

    method DoGather(tid: TypeId)
      requires Valid() && tid < |registry.types| && OnStack(tid)
      modifies this`output, this`currentPath, this`alreadyProcessed
      ensures currentPath == old(currentPath) && alreadyProcessed == old(alreadyProcessed)
      ensures output == old(output) + Entries(G(), currentPath, tid, SimplePaths(G(), tid, alreadyProcessed))
      decreases Unvisited(G(), alreadyProcessed), 1
    {
      hide Recorded, Entries, Edges, ValidRegistry, ValidAggregates, Closed, OnStack, JoinPath, IsDescendant,
        AfterAttributes, AfterChildren, AfterAggregates;
      EdgeCount(registry, aggregates, tid);
      ghost var g, path, stack, out0 := G(), currentPath, alreadyProcessed, output;
      var processed := HasAlreadyBeenProcessed(tid);
      if processed {
        RecordedNothing(g, path, tid, stack);
        return;
      }
      RecordOutput(tid);
      RecordedFirst(g, path, tid, stack, out0);

      var attributes := registry.types[tid].attributes;
      ghost var n := 0;
      for i := 0 to |attributes|
        invariant currentPath == path && alreadyProcessed == stack
        invariant n == AfterAttributes(registry, tid, i)
        invariant Recorded(g, path, tid, stack, n, out0, output)
      {
        AttributeEdgeAt(registry, aggregates, tid, i);
        match attributes[i] {
          case PointerAttribute(name, pointee) =>
            if registry.objectTypeId != pointee {
              n := Follow(tid, Edge(name, pointee), out0, n);
            }
          case ObjectVectorAttribute(name, item) =>
            n := Follow(tid, Edge(name + "/[i]", item), out0, n);
          case PlainAttribute(_) =>
        }
      }

      for j := 0 to |registry.types|
        invariant currentPath == path && alreadyProcessed == stack
        invariant n == AfterChildren(registry, tid, j)
        invariant Recorded(g, path, tid, stack, n, out0, output)
      {
        ChildEdgeAt(registry, aggregates, tid, j);
        var isChild := IsChildOf(registry, j, tid);
        if isChild {
          n := Follow(tid, NamedEdge(registry, j), out0, n);
        }
      }

      for k := 0 to |aggregates|
        invariant currentPath == path && alreadyProcessed == stack
        invariant n == AfterAggregates(registry, aggregates, tid, k)
        invariant Recorded(g, path, tid, stack, n, out0, output)
      {
        AggregateEdgeAt(registry, aggregates, tid, k);
        var item := aggregates[k];
        if item.0 == tid || item.1 == tid {
          var other := if item.1 == tid then item.0 else item.1;
          n := Follow(tid, NamedEdge(registry, other), out0, n);
        }
      }
      EdgeCount(registry, aggregates, tid);
      RecordedAll(g, path, tid, stack, out0, output);
    }

    method Gather(tid: TypeId)
      requires Valid() && Idle() && tid < |registry.types|
      modifies this`output, this`currentPath, this`alreadyProcessed
      ensures Idle() && output == old(output) + Entries(G(), [], tid, SimplePaths(G(), tid, []))
    {
      DoGather(tid);
    }

    method GatherRoots(roots: seq<TypeId>)
      requires Valid() && Idle() && forall i :: 0 <= i < |roots| ==> roots[i] < |registry.types|
      modifies this`output, this`currentPath, this`alreadyProcessed
      ensures Idle() && output == old(output) + Gathered(G(), roots)
    {
      hide SimplePaths, Entries, ValidRegistry;
      ghost var g := G();
      for i := 0 to |roots|
        invariant Idle() && output == old(output) + Gathered(g, roots[..i])
      {
        assert roots[..i + 1][..i] == roots[..i];
        ghost var before := output;
        Gather(roots[i]);
        assert output == before + Entries(g, [], roots[i], SimplePaths(g, roots[i], []));
      }
      assert roots[..|roots|] == roots;
    }
  }

  lemma SpellsExtended(g: Graph, stack: seq<TypeId>, tid: TypeId, edge: Edge, path: seq<string>)
    requires Closed(g) && tid !in stack && Distinct(stack)
    requires Spells(g, stack + [tid], path) && tid < |g| && edge in g[tid]
    ensures Spells(g, stack + [tid] + [edge.target], path + [edge.name]) && Distinct(stack + [tid])
  {
  }
}
