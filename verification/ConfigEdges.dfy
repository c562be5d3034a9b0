/** Where the edges of the search come from: the registry and the aggregations alone say which types are
    found one step away from a type, under which texts and in which order. */
module ConfigEdges {
  import opened LabelledGraph
  import opened Positions
  import opened TypeRegistry
  import opened StaticInformationModel
  import opened ConfigPaths

  // What is followed out of a type: one of its attributes, a registered type, or an aggregation.
  datatype Origin = FromAttribute(index: nat) | FromType(index: nat) | FromAggregation(index: nat)

  // The order of the three loops.
  predicate Precedes(a: Origin, b: Origin) {
    match (a, b)
    case (FromAttribute(i), FromAttribute(j)) => i < j
    case (FromAttribute(_), _) => true
    case (FromType(i), FromType(j)) => i < j
    case (FromType(_), FromAggregation(_)) => true
    case (FromAggregation(i), FromAggregation(j)) => i < j
    case _ => false
  }

  ghost predicate InLoopOrder(os: seq<Origin>) {
    forall m, n :: 0 <= m < n < |os| ==> Precedes(os[m], os[n])
  }

  // ---------------------------------------------------------------- each loop's edges

  lemma {:induction false} AttributesFollowed(r: Registry, attributes: seq<Attribute>) returns (at: seq<nat>)
    ensures Increasing(at) && |at| == |AttributeEdges(r, attributes)|
    ensures forall k: nat :: k in at <==> k < |attributes| && AttributeEdge(r, attributes[k]) != []
    ensures forall n :: 0 <= n < |at| ==>
              at[n] < |attributes| && AttributeEdge(r, attributes[at[n]]) == [AttributeEdges(r, attributes)[n]]
  {
    if attributes == [] {
      at := [];
    } else {
      var init, k := attributes[..|attributes| - 1], |attributes| - 1;
      at := AttributesFollowed(r, init);
      hide Increasing;
      if AttributeEdge(r, attributes[k]) != [] {
        IncreasingSnoc(at, k);
        at := at + [k];
      }
    }
  }

  lemma {:induction false} TypesFollowed(r: Registry, t: TypeId, n: nat) returns (at: seq<nat>)
    ensures Increasing(at) && |at| == |ChildEdges(r, t, n)|
    ensures forall k: nat :: k in at <==> k < n && IsDescendant(r, k, t)
    ensures forall m :: 0 <= m < |at| ==> ChildEdges(r, t, n)[m] == NamedEdge(r, at[m])
  {
    if n == 0 {
      at := [];
    } else {
      at := TypesFollowed(r, t, n - 1);
      hide Increasing, IsDescendant;
      if IsDescendant(r, n - 1, t) {
        IncreasingSnoc(at, n - 1);
        at := at + [n - 1];
      }
    }
  }

  lemma {:induction false} AggregationsFollowed(r: Registry, aggregates: seq<(TypeId, TypeId)>, t: TypeId)
      returns (at: seq<nat>)
    ensures Increasing(at) && |at| == |AggregateEdges(r, aggregates, t)|
    ensures forall k: nat :: k in at <==> k < |aggregates| && AggregateEdge(r, aggregates[k], t) != []
    ensures forall n :: 0 <= n < |at| ==>
              at[n] < |aggregates| && AggregateEdge(r, aggregates[at[n]], t) == [AggregateEdges(r, aggregates, t)[n]]
  {
    if aggregates == [] {
      at := [];
    } else {
      var init, k := aggregates[..|aggregates| - 1], |aggregates| - 1;
      at := AggregationsFollowed(r, init, t);
      hide Increasing;
      if AggregateEdge(r, aggregates[k], t) != [] {
        IncreasingSnoc(at, k);
        at := at + [k];
      }
    }
  }

  // ---------------------------------------------------------------- all edges of a type

  // Following o out of t gives the edge e.
  ghost predicate Gives(r: Registry, aggregates: seq<(TypeId, TypeId)>, t: TypeId, o: Origin, e: Edge)
    requires t < |r.types|
  {
    match o
    case FromAttribute(i) => i < |r.types[t].attributes| && AttributeEdge(r, r.types[t].attributes[i]) == [e]
    case FromType(u) => u < |r.types| && IsDescendant(r, u, t) && e == NamedEdge(r, u)
    case FromAggregation(k) => k < |aggregates| && AggregateEdge(r, aggregates[k], t) == [e]
  }

  ghost function Origins(a: seq<nat>, d: seq<nat>, k: seq<nat>): seq<Origin> {
    seq(|a| + |d| + |k|, n requires 0 <= n < |a| + |d| + |k| =>
      if n < |a| then FromAttribute(a[n])
      else if n < |a| + |d| then FromType(d[n - |a|])
      else FromAggregation(k[n - |a| - |d|]))
  }

  // Every edge has its origin, and they are in the order of the loops.
  lemma EdgeOrigins(r: Registry, aggregates: seq<(TypeId, TypeId)>, t: TypeId) returns (os: seq<Origin>)
    requires t < |r.types|
    ensures |os| == |Edges(r, aggregates, t)| && InLoopOrder(os)
    ensures forall n :: 0 <= n < |os| ==> Gives(r, aggregates, t, os[n], Edges(r, aggregates, t)[n])
    ensures forall o, e :: Gives(r, aggregates, t, o, e) ==> o in os
  {
    hide AttributeEdges, ChildEdges, AggregateEdges, AttributeEdge, AggregateEdge, NamedEdge, IsDescendant;
    var attributes := r.types[t].attributes;
    var a := AttributesFollowed(r, attributes);
    var d := TypesFollowed(r, t, |r.types|);
    var k := AggregationsFollowed(r, aggregates, t);
    os := Origins(a, d, k);
    forall n | 0 <= n < |os| ensures Gives(r, aggregates, t, os[n], Edges(r, aggregates, t)[n]) {
      if |a| <= n < |a| + |d| { assert d[n - |a|] in d; }
    }
    forall o, e | Gives(r, aggregates, t, o, e) ensures o in os {
      match o {
        case FromAttribute(i) => var n :| 0 <= n < |a| && a[n] == i; assert os[n] == o;
        case FromType(u) => var n :| 0 <= n < |d| && d[n] == u; assert os[|a| + n] == o;
        case FromAggregation(i) => var n :| 0 <= n < |k| && k[n] == i; assert os[|a| + |d| + n] == o;
      }
    }
    OriginsInOrder(a, d, k);
  }

  lemma OriginsInOrder(a: seq<nat>, d: seq<nat>, k: seq<nat>)
    requires Increasing(a) && Increasing(d) && Increasing(k)
    ensures InLoopOrder(Origins(a, d, k))
  {
  }

  // ---------------------------------------------------------------- records one step away

  lemma {:induction false} SinglesAt(ps: seq<seq<nat>>) returns (at: seq<nat>)
    ensures Increasing(at) && forall k: nat :: k in at <==> k < |ps| && |ps[k]| == 1
  {
    if ps == [] {
      at := [];
    } else {
      var n := |ps| - 1;
      at := SinglesAt(ps[..n]);
      if |ps[n]| == 1 {
        IncreasingSnoc(at, n);
        at := at + [n];
      }
    }
  }

  // The simple paths of one edge are the edges that do not lead back to v, in their order.
  lemma SingleSteps(g: Graph, v: TypeId, ps: seq<seq<nat>>) returns (at: seq<nat>, ns: seq<nat>)
    requires Closed(g) && v < |g| && ListsSimplePaths(g, v, ps)
    ensures Increasing(at) && forall k: nat :: k in at <==> k < |ps| && |ps[k]| == 1
    ensures Increasing(ns) && forall n: nat :: n in ns <==> n < |g[v]| && g[v][n].target != v
    ensures |ns| == |at| && forall j :: 0 <= j < |at| ==> at[j] < |ps| && ps[at[j]] == [ns[j]]
  {
    hide Closed, IsSimplePath;
    at := SinglesAt(ps);
    assert forall j :: 0 <= j < |at| ==> at[j] in at;
    ns := seq(|at|, j requires 0 <= j < |at| => ps[at[j]][0]);
    assert forall j :: 0 <= j < |at| ==> ps[at[j]] == [ns[j]];
    forall i, j | 0 <= i < j < |ns| ensures ns[i] < ns[j] {
      assert Before(ps[at[i]], ps[at[j]]);
      SinglesOrdered(ns[i], ns[j]);
    }
    hide InPreorder, Increasing;
    forall n: nat ensures n in ns <==> n < |g[v]| && g[v][n].target != v {
      SimpleEdge(g, v, n);
      if n in ns {
        var j :| 0 <= j < |ns| && ns[j] == n;
        assert ps[at[j]] in ps;
      }
      if n < |g[v]| && g[v][n].target != v {
        assert [n] in ps;
        var k :| 0 <= k < |ps| && ps[k] == [n];
        assert k in at;
        var j :| 0 <= j < |at| && at[j] == k;
        assert ns[j] == n;
      }
    }
  }

  lemma SinglesOrdered(m: nat, n: nat)
    requires Before([m], [n])
    ensures m < n
  {
    assert [m][1..] == [n][1..] == [];
  }

  lemma SimpleEdge(g: Graph, v: TypeId, n: nat)
    requires Closed(g) && v < |g|
    ensures IsSimplePath(g, v, [n]) <==> n < |g[v]| && g[v][n].target != v
    ensures n < |g[v]| ==> End(g, v, [n]) == g[v][n].target && JoinPath(Labels(g, v, [n])) == "/" + g[v][n].name
  {
    if n < |g[v]| {
      var w := g[v][n].target;
      assert [n][1..] == [] && Vertices(g, w, []) == [w];
      var vs := [v] + Vertices(g, w, []);
      assert Vertices(g, v, [n]) == vs && IsWalk(g, v, [n]);
      assert Distinct(vs) <==> v != w by { assert vs[0] == v && vs[1] == w; }
    }
  }

  // What gathering from t records through o.
  ghost predicate Leads(r: Registry, aggregates: seq<(TypeId, TypeId)>, t: TypeId, o: Origin, record: Record)
    requires t < |r.types|
  {
    exists e :: Gives(r, aggregates, t, o, e) && e.target != t && record == (e.target, "/" + e.name)
  }

  lemma LeadsOnce(r: Registry, aggregates: seq<(TypeId, TypeId)>, t: TypeId, o: Origin, d: Edge, e: Edge)
    requires t < |r.types| && Gives(r, aggregates, t, o, d) && Gives(r, aggregates, t, o, e)
    ensures d == e
  {
    assert [d][0] == d && [e][0] == e;
  }

  // The origins of the edges that do not lead back to t.
  lemma OriginsPicked(r: Registry, aggregates: seq<(TypeId, TypeId)>, t: TypeId, ns: seq<nat>) returns (os: seq<Origin>)
    requires t < |r.types| && Increasing(ns)
    requires forall n: nat :: n in ns <==> n < |Edges(r, aggregates, t)| && Edges(r, aggregates, t)[n].target != t
    ensures |os| == |ns| && InLoopOrder(os)
    ensures forall n :: 0 <= n < |ns| ==>
              ns[n] < |Edges(r, aggregates, t)| && Edges(r, aggregates, t)[ns[n]].target != t &&
              Gives(r, aggregates, t, os[n], Edges(r, aggregates, t)[ns[n]])
    ensures forall o, record :: Leads(r, aggregates, t, o, record) ==> o in os
  {
    hide Edges, Gives, Precedes;
    var es := Edges(r, aggregates, t);
    var all := EdgeOrigins(r, aggregates, t);
    assert forall n :: 0 <= n < |ns| ==> ns[n] in ns;
    os := seq(|ns|, n requires 0 <= n < |ns| => all[ns[n]]);
    forall o, record | Leads(r, aggregates, t, o, record) ensures o in os {
      var e :| Gives(r, aggregates, t, o, e) && e.target != t && record == (e.target, "/" + e.name);
      var k :| 0 <= k < |all| && all[k] == o;
      LeadsOnce(r, aggregates, t, o, e, es[k]);
      assert k in ns;
      var n :| 0 <= n < |ns| && ns[n] == k;
      assert os[n] == o;
    }
  }

  // A one-step record together with what it was followed through.
  type Found = (Origin, Record)

  // ps are the paths in the order of their records, `at` the positions of those of one edge, and found has
  // their records, in the order of the loops.
  ghost predicate ListsOneStep(g: Graph, t: TypeId, ps: seq<seq<nat>>, at: seq<nat>, found: seq<Found>) {
    Closed(g) && t < |g| && ListsSimplePaths(g, t, ps) &&
    Increasing(at) && (forall k: nat :: k in at <==> k < |ps| && |ps[k]| == 1) && |at| == |found| &&
    (var out := Entries(g, [], t, SimplePaths(g, t, []));
     |ps| == |out| && forall n :: 0 <= n < |at| ==> at[n] < |out| && found[n].1 == out[at[n]]) &&
    forall m, n :: 0 <= m < n < |found| ==> Precedes(found[m].0, found[n].0)
  }

  ghost function FoundThrough(os: seq<Origin>, es: seq<Edge>, ns: seq<nat>): (found: seq<Found>)
    requires |os| == |ns| && forall n :: 0 <= n < |ns| ==> ns[n] < |es|
    ensures |found| == |ns|
    ensures forall n :: 0 <= n < |ns| ==> found[n] == (os[n], (es[ns[n]].target, "/" + es[ns[n]].name))
  {
    seq(|ns|, n requires 0 <= n < |ns| => (os[n], (es[ns[n]].target, "/" + es[ns[n]].name)))
  }

  // Origins in loop order for the steps away from v list its one-step records.
  lemma StepsListed(g: Graph, v: TypeId, os: seq<Origin>, ns: seq<nat>, ps: seq<seq<nat>>, at: seq<nat>)
      returns (found: seq<Found>)
    requires Closed(g) && v < |g| && ListsSimplePaths(g, v, ps) && |ps| == |SimplePaths(g, v, [])|
    requires forall k :: 0 <= k < |ps| ==>
               Entries(g, [], v, SimplePaths(g, v, []))[k] == (End(g, v, ps[k]), JoinPath(Labels(g, v, ps[k])))
    requires Increasing(at) && forall k: nat :: k in at <==> k < |ps| && |ps[k]| == 1
    requires |ns| == |at| == |os| && InLoopOrder(os)
    requires forall n :: 0 <= n < |at| ==> at[n] < |ps| && ps[at[n]] == [ns[n]] && ns[n] < |g[v]|
    ensures found == FoundThrough(os, g[v], ns) && ListsOneStep(g, v, ps, at, found)
  {
    hide Closed, ListsSimplePaths, JoinPath, Labels, End, SimplePaths, Precedes, Increasing;
    found := FoundThrough(os, g[v], ns);
    forall n | 0 <= n < |at| ensures found[n].1 == Entries(g, [], v, SimplePaths(g, v, []))[at[n]] {
      SimpleEdge(g, v, ns[n]);
    }
  }

  // The records one step away from t are what the origins lead to, in their order.
  lemma OriginRecords(r: Registry, aggregates: seq<(TypeId, TypeId)>, t: TypeId)
      returns (ps: seq<seq<nat>>, at: seq<nat>, found: seq<Found>)
    requires ValidRegistry(r) && ValidAggregates(r, aggregates) && t < |r.types|
    ensures ListsOneStep(ConfigGraph(r, aggregates), t, ps, at, found)
    ensures forall n :: 0 <= n < |found| ==> Leads(r, aggregates, t, found[n].0, found[n].1)
    ensures forall o, record :: Leads(r, aggregates, t, o, record) ==> (o, record) in found
  {
    ConfigGraphClosed(r, aggregates);
    var g: Graph := ConfigGraph(r, aggregates);
    assert |g| == |r.types| && g[t] == Edges(r, aggregates, t);
    hide *;
    ps := GatherRecordsExactlyTheSimplePaths(g, t);
    var ns: seq<nat>;
    at, ns := SingleSteps(g, t, ps);
    var os := OriginsPicked(r, aggregates, t, ns);
    found := StepsListed(g, t, os, ns, ps, at);
    FoundLeads(r, aggregates, t, ns, os, found);
  }

  lemma FoundLeads(r: Registry, aggregates: seq<(TypeId, TypeId)>, t: TypeId, ns: seq<nat>, os: seq<Origin>,
                   found: seq<Found>)
    requires t < |r.types| && |os| == |ns| == |found|
    requires var es := Edges(r, aggregates, t);
             (forall n :: 0 <= n < |ns| ==>
                ns[n] < |es| && es[ns[n]].target != t && Gives(r, aggregates, t, os[n], es[ns[n]])) &&
             (forall n :: 0 <= n < |ns| ==> found[n] == (os[n], (es[ns[n]].target, "/" + es[ns[n]].name))) &&
             forall o, record :: Leads(r, aggregates, t, o, record) ==> o in os
    ensures forall n :: 0 <= n < |found| ==> Leads(r, aggregates, t, found[n].0, found[n].1)
    ensures forall o, record :: Leads(r, aggregates, t, o, record) ==> (o, record) in found
  {
    hide Edges, Gives;
    var es := Edges(r, aggregates, t);
    forall n | 0 <= n < |found| ensures Leads(r, aggregates, t, found[n].0, found[n].1) {
      assert Gives(r, aggregates, t, os[n], es[ns[n]]);
    }
    forall o, record | Leads(r, aggregates, t, o, record) ensures (o, record) in found {
      var e :| Gives(r, aggregates, t, o, e) && e.target != t && record == (e.target, "/" + e.name);
      var n :| 0 <= n < |os| && os[n] == o;
      LeadsOnce(r, aggregates, t, o, e, es[ns[n]]);
      assert found[n] == (o, record);
    }
  }

  // A pointer not to a bare Object, an object vector, a strict descendant, or an aggregation with t on either
  // side, which leads away from t.
  ghost predicate LeadsAway(r: Registry, aggregates: seq<(TypeId, TypeId)>, t: TypeId, o: Origin)
    requires t < |r.types|
  {
    match o
    case FromAttribute(i) =>
      i < |r.types[t].attributes| &&
      (match r.types[t].attributes[i]
       case PointerAttribute(_, u) => u != t && u != r.objectTypeId
       case ObjectVectorAttribute(_, u) => u != t
       case PlainAttribute(_) => false)
    case FromType(u) => u < |r.types| && u != t && exists k :: Ancestor(r, u, k) == t
    case FromAggregation(k) =>
      k < |aggregates| && aggregates[k].0 != aggregates[k].1 && (aggregates[k].0 == t || aggregates[k].1 == t)
  }

  /** Gathering from t: `found` lists the records one step away, which stand at the positions `at`, each with
      what it was followed through, in the order of the three loops and hence each origin once.  Every pointer
      but one to a bare Object, every object vector, every strict descendant and every aggregation with t on
      either side gives its record, provided that it leads away from t; there are no others. */
  lemma OneStepRecords(r: Registry, aggregates: seq<(TypeId, TypeId)>, t: TypeId)
      returns (ps: seq<seq<nat>>, at: seq<nat>, found: seq<Found>)
    requires ValidRegistry(r) && ValidAggregates(r, aggregates) && t < |r.types|
    ensures ListsOneStep(ConfigGraph(r, aggregates), t, ps, at, found)
    ensures forall i, name, u :: 0 <= i < |r.types[t].attributes| && u != t && u != r.objectTypeId &&
                                 r.types[t].attributes[i] == PointerAttribute(name, u) ==>
              (FromAttribute(i), (u, "/" + name)) in found
    ensures forall i, name, u :: 0 <= i < |r.types[t].attributes| && u != t &&
                                 r.types[t].attributes[i] == ObjectVectorAttribute(name, u) ==>
              (FromAttribute(i), (u, "/" + name + "/[i]")) in found
    ensures forall u, k :: 0 <= u < |r.types| && u != t && Ancestor(r, u, k) == t ==>
              (FromType(u), (u, "/$" + r.types[u].name)) in found
    ensures forall k, b :: 0 <= k < |aggregates| && b != t && aggregates[k] == (t, b) ==>
              (FromAggregation(k), (b, "/$" + r.types[b].name)) in found
    ensures forall k, a :: 0 <= k < |aggregates| && a != t && aggregates[k] == (a, t) ==>
              (FromAggregation(k), (a, "/$" + r.types[a].name)) in found
    ensures forall n :: 0 <= n < |found| ==> LeadsAway(r, aggregates, t, found[n].0)
  {
    ps, at, found := OriginRecords(r, aggregates, t);
    hide ListsOneStep, ValidRegistry, Leads, LeadsAway, ConfigGraph;
    PointersLead(r, aggregates, t);
    VectorsLead(r, aggregates, t);
    TypesLead(r, aggregates, t);
    AggregationsLead(r, aggregates, t);
    forall n | 0 <= n < |found| ensures LeadsAway(r, aggregates, t, found[n].0) {
      NothingElseLeads(r, aggregates, t, found[n].0, found[n].1);
    }
  }

  lemma Led(r: Registry, aggregates: seq<(TypeId, TypeId)>, t: TypeId, o: Origin, e: Edge)
    requires t < |r.types| && Gives(r, aggregates, t, o, e) && e.target != t
    ensures Leads(r, aggregates, t, o, (e.target, "/" + e.name))
  {
  }

  lemma PointersLead(r: Registry, aggregates: seq<(TypeId, TypeId)>, t: TypeId)
    requires t < |r.types|
    ensures forall i, name, u :: 0 <= i < |r.types[t].attributes| && u != t && u != r.objectTypeId &&
                                 r.types[t].attributes[i] == PointerAttribute(name, u) ==>
              Leads(r, aggregates, t, FromAttribute(i), (u, "/" + name))
  {
    forall i, name, u | 0 <= i < |r.types[t].attributes| && u != t && u != r.objectTypeId &&
                        r.types[t].attributes[i] == PointerAttribute(name, u)
      ensures Leads(r, aggregates, t, FromAttribute(i), (u, "/" + name))
    {
      Led(r, aggregates, t, FromAttribute(i), Edge(name, u));
    }
  }

  lemma VectorsLead(r: Registry, aggregates: seq<(TypeId, TypeId)>, t: TypeId)
    requires t < |r.types|
    ensures forall i, name, u :: 0 <= i < |r.types[t].attributes| && u != t &&
                                 r.types[t].attributes[i] == ObjectVectorAttribute(name, u) ==>
              Leads(r, aggregates, t, FromAttribute(i), (u, "/" + name + "/[i]"))
  {
    forall i, name, u | 0 <= i < |r.types[t].attributes| && u != t &&
                        r.types[t].attributes[i] == ObjectVectorAttribute(name, u)
      ensures Leads(r, aggregates, t, FromAttribute(i), (u, "/" + name + "/[i]"))
    {
      Led(r, aggregates, t, FromAttribute(i), Edge(name + "/[i]", u));
      assert "/" + (name + "/[i]") == "/" + name + "/[i]";
    }
  }

  lemma TypesLead(r: Registry, aggregates: seq<(TypeId, TypeId)>, t: TypeId)
    requires t < |r.types|
    ensures forall u, k :: 0 <= u < |r.types| && u != t && Ancestor(r, u, k) == t ==>
              Leads(r, aggregates, t, FromType(u), (u, "/$" + r.types[u].name))
  {
    forall u, k | 0 <= u < |r.types| && u != t && Ancestor(r, u, k) == t
      ensures Leads(r, aggregates, t, FromType(u), (u, "/$" + r.types[u].name))
    {
      NamedLeads(r, aggregates, t, FromType(u), u);
    }
  }

  lemma AggregationsLead(r: Registry, aggregates: seq<(TypeId, TypeId)>, t: TypeId)
    requires ValidAggregates(r, aggregates) && t < |r.types|
    ensures forall k, b :: 0 <= k < |aggregates| && b != t && (aggregates[k] == (t, b) || aggregates[k] == (b, t)) ==>
              Leads(r, aggregates, t, FromAggregation(k), (b, "/$" + r.types[b].name))
  {
    forall k, b | 0 <= k < |aggregates| && b != t && (aggregates[k] == (t, b) || aggregates[k] == (b, t))
      ensures Leads(r, aggregates, t, FromAggregation(k), (b, "/$" + r.types[b].name))
    {
      NamedLeads(r, aggregates, t, FromAggregation(k), b);
    }
  }

  lemma NamedLeads(r: Registry, aggregates: seq<(TypeId, TypeId)>, t: TypeId, o: Origin, u: TypeId)
    requires t < |r.types| && u < |r.types| && u != t && Gives(r, aggregates, t, o, NamedEdge(r, u))
    ensures Leads(r, aggregates, t, o, (u, "/$" + r.types[u].name))
  {
    Led(r, aggregates, t, o, NamedEdge(r, u));
    assert "/" + ("$" + r.types[u].name) == "/$" + r.types[u].name;
  }

  lemma NothingElseLeads(r: Registry, aggregates: seq<(TypeId, TypeId)>, t: TypeId, o: Origin, record: Record)
    requires t < |r.types| && Leads(r, aggregates, t, o, record)
    ensures LeadsAway(r, aggregates, t, o)
  {
    var e :| Gives(r, aggregates, t, o, e) && e.target != t && record == (e.target, "/" + e.name);
    assert [e][0] == e;
  }

  // An aggregation registered twice is recorded twice: the records are not made unique.
  lemma RepeatedAggregationIsRecordedTwice(r: Registry, aggregates: seq<(TypeId, TypeId)>, i: nat, j: nat)
      returns (k: nat, l: nat)
    requires ValidRegistry(r) && ValidAggregates(r, aggregates)
    requires i < j < |aggregates| && aggregates[i] == aggregates[j] && aggregates[i].0 != aggregates[i].1
    ensures Closed(ConfigGraph(r, aggregates))
    ensures var g := ConfigGraph(r, aggregates);
            var (a, b) := aggregates[i];
            var out := Entries(g, [], a, SimplePaths(g, a, []));
            k < l < |out| && out[k] == out[l] == (b, "/$" + r.types[b].name)
  {
    hide ConfigGraph, Entries, SimplePaths, LeadsAway;
    var (a, b) := aggregates[i];
    var ps, at, found := OneStepRecords(r, aggregates, a);
    var record: Record := (b, "/$" + r.types[b].name);
    var m :| 0 <= m < |found| && found[m] == (FromAggregation(i), record);
    var n :| 0 <= n < |found| && found[n] == (FromAggregation(j), record);
    assert !Precedes(found[n].0, found[m].0) && m != n;
    k, l := at[m], at[n];
  }
}
