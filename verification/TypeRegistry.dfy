/** The registered TypeIds and the configuration edges that can be followed out of each. */
module TypeRegistry {
  import opened LabelledGraph
  import opened Wrappers

  // A TypeId is its position in the list of registered types.
  type TypeId = nat

  datatype Attribute =
    | PointerAttribute(name: string, pointee: TypeId)
    | ObjectVectorAttribute(name: string, item: TypeId)
    | PlainAttribute(name: string)

  // A root type is its own parent.
  datatype TypeInfo = TypeInfo(name: string, parent: TypeId, attributes: seq<Attribute>)

  datatype Registry = Registry(types: seq<TypeInfo>, objectTypeId: TypeId)

  ghost predicate InRange(r: Registry, a: Attribute) {
    match a
    case PointerAttribute(_, pointee) => pointee < |r.types|
    case ObjectVectorAttribute(_, item) => item < |r.types|
    case PlainAttribute(_) => true
  }

  // Every step to a parent goes down in `rank`, except at a root.
  ghost predicate IsRank(r: Registry, rank: seq<nat>) {
    |rank| == |r.types| &&
    forall t :: 0 <= t < |r.types| ==>
      r.types[t].parent < |r.types| && (r.types[t].parent != t ==> rank[r.types[t].parent] < rank[t])
  }

  ghost predicate ValidRegistry(r: Registry) {
    (forall t, i :: 0 <= t < |r.types| && 0 <= i < |r.types[t].attributes| ==> InRange(r, r.types[t].attributes[i])) &&
    exists rank :: IsRank(r, rank)
  }

  ghost predicate ValidAggregates(r: Registry, aggregates: seq<(TypeId, TypeId)>) {
    forall i :: 0 <= i < |aggregates| ==> aggregates[i].0 < |r.types| && aggregates[i].1 < |r.types|
  }

  // ---------------------------------------------------------------- names and parents

  function LookupByName(types: seq<TypeInfo>, name: string): (r: Option<TypeId>)
    ensures r.Some? ==> r.value < |types| && types[r.value].name == name
    ensures r.None? ==> forall t :: 0 <= t < |types| ==> types[t].name != name
  {
    if types == [] then None
    else if types[|types| - 1].name == name then Some(|types| - 1)
    else LookupByName(types[..|types| - 1], name)
  }

  function Ancestor(r: Registry, t: TypeId, k: nat): TypeId {
    if k == 0 then t
    else
      var u := Ancestor(r, t, k - 1);
      if u < |r.types| then r.types[u].parent else u
  }

  // A strict ancestor of `child`, at any height.
  ghost predicate IsDescendant(r: Registry, child: TypeId, t: TypeId) {
    child != t && exists k :: Ancestor(r, child, k) == t
  }

  lemma {:induction false} RootAncestor(r: Registry, t: TypeId, k: nat, j: nat)
    requires k <= j && Ancestor(r, t, k + 1) == Ancestor(r, t, k)
    ensures Ancestor(r, t, j) == Ancestor(r, t, k)
    decreases j
  {
    if k < j {
      RootAncestor(r, t, k, j - 1);
    }
  }

  // Climbs from parent to parent; terminates because ranks go down.
  method IsChildOf(r: Registry, child: TypeId, other: TypeId) returns (result: bool)
    requires ValidRegistry(r) && child < |r.types|
    ensures result <==> IsDescendant(r, child, other)
    ensures result <==> child != other && exists k :: Ancestor(r, child, k) == other
  {
    ghost var rank :| IsRank(r, rank);
    var tmp := child;
    ghost var k := 0;
    while tmp != other && tmp != r.types[tmp].parent
      invariant tmp < |r.types| && tmp == Ancestor(r, child, k)
      invariant forall j :: 0 <= j < k ==> Ancestor(r, child, j) != other
      decreases rank[tmp]
    {
      tmp := r.types[tmp].parent;
      k := k + 1;
    }
    result := tmp == other && child != other;
    if tmp != other {
      forall j: nat ensures Ancestor(r, child, j) != other {
        if k <= j { RootAncestor(r, child, k, j); }
      }
    }
  }

  // ---------------------------------------------------------------- edges

  // A pointer to a bare Object is not followed.
  function AttributeEdge(r: Registry, a: Attribute): seq<Edge> {
    match a
    case PointerAttribute(name, pointee) => if pointee == r.objectTypeId then [] else [Edge(name, pointee)]
    case ObjectVectorAttribute(name, item) => [Edge(name + "/[i]", item)]
    case PlainAttribute(_) => []
  }

  function AttributeEdges(r: Registry, attributes: seq<Attribute>): seq<Edge> {
    if attributes == [] then []
    else AttributeEdges(r, attributes[..|attributes| - 1]) + AttributeEdge(r, attributes[|attributes| - 1])
  }

  function TypeName(r: Registry, t: TypeId): string {
    if t < |r.types| then r.types[t].name else ""
  }

  function NamedEdge(r: Registry, t: TypeId): Edge {
    Edge("$" + TypeName(r, t), t)
  }

  ghost function ChildEdges(r: Registry, t: TypeId, n: nat): seq<Edge> {
    if n == 0 then []
    else ChildEdges(r, t, n - 1) + if IsDescendant(r, n - 1, t) then [NamedEdge(r, n - 1)] else []
  }

  // Aggregation is followed in both directions.
  function AggregateEdge(r: Registry, item: (TypeId, TypeId), t: TypeId): seq<Edge> {
    if item.1 == t then [NamedEdge(r, item.0)] else if item.0 == t then [NamedEdge(r, item.1)] else []
  }

  function AggregateEdges(r: Registry, aggregates: seq<(TypeId, TypeId)>, t: TypeId): seq<Edge> {
    if aggregates == [] then []
    else AggregateEdges(r, aggregates[..|aggregates| - 1], t) + AggregateEdge(r, aggregates[|aggregates| - 1], t)
  }

  ghost function Edges(r: Registry, aggregates: seq<(TypeId, TypeId)>, t: TypeId): seq<Edge>
    requires t < |r.types|
  {
    AttributeEdges(r, r.types[t].attributes) + ChildEdges(r, t, |r.types|) + AggregateEdges(r, aggregates, t)
  }

  ghost function ConfigGraph(r: Registry, aggregates: seq<(TypeId, TypeId)>): Graph {
    seq(|r.types|, t requires 0 <= t < |r.types| => Edges(r, aggregates, t))
  }

  // ---------------------------------------------------------------- prefixes of the edge lists

  lemma {:induction false} AttributeEdgesPrefix(r: Registry, attributes: seq<Attribute>, i: nat)
    requires i <= |attributes|
    ensures AttributeEdges(r, attributes[..i]) <= AttributeEdges(r, attributes)
  {
    if i == |attributes| {
      assert attributes[..i] == attributes;
    } else {
      var init := attributes[..|attributes| - 1];
      AttributeEdgesPrefix(r, init, i);
      assert init[..i] == attributes[..i];
    }
  }

  lemma {:induction false} ChildEdgesPrefix(r: Registry, t: TypeId, m: nat, n: nat)
    requires m <= n
    ensures ChildEdges(r, t, m) <= ChildEdges(r, t, n)
  {
    if m < n { ChildEdgesPrefix(r, t, m, n - 1); }
  }

  lemma {:induction false} AggregateEdgesPrefix(r: Registry, aggregates: seq<(TypeId, TypeId)>, t: TypeId, i: nat)
    requires i <= |aggregates|
    ensures AggregateEdges(r, aggregates[..i], t) <= AggregateEdges(r, aggregates, t)
  {
    if i == |aggregates| {
      assert aggregates[..i] == aggregates;
    } else {
      var init := aggregates[..|aggregates| - 1];
      AggregateEdgesPrefix(r, init, t, i);
      assert init[..i] == aggregates[..i];
    }
  }

  // How many edges of t precede the i-th attribute, the j-th registered type, the k-th aggregation.
  ghost function AfterAttributes(r: Registry, t: TypeId, i: nat): nat
    requires t < |r.types| && i <= |r.types[t].attributes|
  {
    |AttributeEdges(r, r.types[t].attributes[..i])|
  }

  ghost function AfterChildren(r: Registry, t: TypeId, j: nat): nat
    requires t < |r.types|
  {
    |AttributeEdges(r, r.types[t].attributes)| + |ChildEdges(r, t, j)|
  }

  ghost function AfterAggregates(r: Registry, aggregates: seq<(TypeId, TypeId)>, t: TypeId, k: nat): nat
    requires t < |r.types| && k <= |aggregates|
  {
    AfterChildren(r, t, |r.types|) + |AggregateEdges(r, aggregates[..k], t)|
  }

  lemma EdgeCount(r: Registry, aggregates: seq<(TypeId, TypeId)>, t: TypeId)
    requires t < |r.types|
    ensures AfterAttributes(r, t, 0) == 0
    ensures AfterAttributes(r, t, |r.types[t].attributes|) == AfterChildren(r, t, 0)
    ensures AfterChildren(r, t, |r.types|) == AfterAggregates(r, aggregates, t, 0)
    ensures AfterAggregates(r, aggregates, t, |aggregates|) == |Edges(r, aggregates, t)|
  {
    var attributes := r.types[t].attributes;
    assert attributes[..|attributes|] == attributes;
    assert aggregates[..|aggregates|] == aggregates;
  }

  lemma SliceAt(first: seq<Edge>, before: seq<Edge>, e: seq<Edge>, part: seq<Edge>, whole: seq<Edge>)
    requires before + e <= part && first + part <= whole
    ensures var n := |first| + |before|; n + |e| <= |whole| && whole[n..n + |e|] == e
  {
  }

  lemma AttributeEdgeAt(r: Registry, aggregates: seq<(TypeId, TypeId)>, t: TypeId, i: nat)
    requires t < |r.types| && i < |r.types[t].attributes|
    ensures var n, e := AfterAttributes(r, t, i), AttributeEdge(r, r.types[t].attributes[i]);
            AfterAttributes(r, t, i + 1) == n + |e| <= |Edges(r, aggregates, t)| &&
            Edges(r, aggregates, t)[n..n + |e|] == e
  {
    hide AttributeEdge;
    var attributes := r.types[t].attributes;
    assert attributes[..i + 1][..i] == attributes[..i];
    AttributeEdgesPrefix(r, attributes, i + 1);
    SliceAt([], AttributeEdges(r, attributes[..i]), AttributeEdge(r, attributes[i]),
            AttributeEdges(r, attributes), Edges(r, aggregates, t));
  }

  lemma ChildEdgeAt(r: Registry, aggregates: seq<(TypeId, TypeId)>, t: TypeId, j: nat)
    requires t < |r.types| && j < |r.types|
    ensures var n := AfterChildren(r, t, j);
            if IsDescendant(r, j, t) then
              AfterChildren(r, t, j + 1) == n + 1 <= |Edges(r, aggregates, t)| &&
              Edges(r, aggregates, t)[n] == NamedEdge(r, j)
            else AfterChildren(r, t, j + 1) == n
  {
    hide IsDescendant, AttributeEdges;
    ChildEdgesPrefix(r, t, j + 1, |r.types|);
    var a, c := AttributeEdges(r, r.types[t].attributes), ChildEdges(r, t, |r.types|);
    var before := ChildEdges(r, t, j);
    if IsDescendant(r, j, t) {
      SliceAt(a, before, [NamedEdge(r, j)], c, Edges(r, aggregates, t));
      var n := |a| + |before|;
      assert Edges(r, aggregates, t)[n] == Edges(r, aggregates, t)[n..n + 1][0];
    }
  }

  lemma AggregateEdgeAt(r: Registry, aggregates: seq<(TypeId, TypeId)>, t: TypeId, k: nat)
    requires t < |r.types| && k < |aggregates|
    ensures var n, e := AfterAggregates(r, aggregates, t, k), AggregateEdge(r, aggregates[k], t);
            AfterAggregates(r, aggregates, t, k + 1) == n + |e| <= |Edges(r, aggregates, t)| &&
            Edges(r, aggregates, t)[n..n + |e|] == e
  {
    hide AggregateEdge, AttributeEdges, ChildEdges;
    assert aggregates[..k + 1][..k] == aggregates[..k];
    AggregateEdgesPrefix(r, aggregates, t, k + 1);
    SliceAt(AttributeEdges(r, r.types[t].attributes) + ChildEdges(r, t, |r.types|),
            AggregateEdges(r, aggregates[..k], t), AggregateEdge(r, aggregates[k], t),
            AggregateEdges(r, aggregates, t), Edges(r, aggregates, t));
  }

  // ---------------------------------------------------------------- the graph is closed

  ghost predicate TargetsBelow(es: seq<Edge>, n: nat) {
    forall i :: 0 <= i < |es| ==> es[i].target < n
  }

  lemma {:induction false} AttributeEdgesInRange(r: Registry, attributes: seq<Attribute>)
    requires forall i :: 0 <= i < |attributes| ==> InRange(r, attributes[i])
    ensures TargetsBelow(AttributeEdges(r, attributes), |r.types|)
  {
    if attributes == [] {
    } else {
      AttributeEdgesInRange(r, attributes[..|attributes| - 1]);
      assert InRange(r, attributes[|attributes| - 1]);
    }
  }

  lemma {:induction false} ChildEdgesInRange(r: Registry, t: TypeId, n: nat)
    ensures TargetsBelow(ChildEdges(r, t, n), n)
  {
    if n == 0 {
    } else {
      ChildEdgesInRange(r, t, n - 1);
    }
  }

  lemma {:induction false} AggregateEdgesInRange(r: Registry, aggregates: seq<(TypeId, TypeId)>, t: TypeId)
    requires ValidAggregates(r, aggregates)
    ensures TargetsBelow(AggregateEdges(r, aggregates, t), |r.types|)
  {
    if aggregates == [] {
    } else {
      AggregateEdgesInRange(r, aggregates[..|aggregates| - 1], t);
    }
  }

  lemma ConfigGraphClosed(r: Registry, aggregates: seq<(TypeId, TypeId)>)
    requires ValidRegistry(r) && ValidAggregates(r, aggregates)
    ensures Closed(ConfigGraph(r, aggregates))
  {
    var g: Graph := ConfigGraph(r, aggregates);
    forall t, i | 0 <= t < |g| && 0 <= i < |g[t]| ensures g[t][i].target < |g| {
      AttributeEdgesInRange(r, r.types[t].attributes);
      ChildEdgesInRange(r, t, |r.types|);
      AggregateEdgesInRange(r, aggregates, t);
      var a, c := AttributeEdges(r, r.types[t].attributes), ChildEdges(r, t, |r.types|);
      var s := AggregateEdges(r, aggregates, t);
      assert g[t] == a + c + s;
      if i < |a| {
        assert g[t][i] == a[i];
      } else if i < |a| + |c| {
        assert g[t][i] == c[i - |a|];
      } else {
        assert g[t][i] == s[i - |a| - |c|];
      }
    }
  }
}
