/** Exactly when the gathered records are all different, although nothing removes repetitions. */
module UniqueRecords {
  import opened ConfigEdges
  import opened LabelledGraph
  import opened TypeRegistry
  import opened StaticInformationModel

  // ---------------------------------------------------------------- names

  const INDEX: string := "[i]"

  predicate PlainName(s: string) {
    '/' !in s && s != INDEX
  }

  // The name of an object vector carries an index.
  predicate VectorName(s: string) {
    4 <= |s| && s[|s| - 4..] == "/[i]" && PlainName(s[..|s| - 4])
  }

  // Names are free of slashes but for the index of an object vector, and a name leads to one type only.
  ghost predicate WellNamed(g: Graph) {
    (forall v, i :: 0 <= v < |g| && 0 <= i < |g[v]| ==> PlainName(g[v][i].name) || VectorName(g[v][i].name)) &&
    forall v, i, j :: 0 <= v < |g| && 0 <= i < j < |g[v]| && g[v][i].name == g[v][j].name ==>
                        g[v][i].target == g[v][j].target
  }

  // ---------------------------------------------------------------- the text determines the names

  ghost predicate SlashFree(ts: seq<string>) {
    forall k :: 0 <= k < |ts| ==> '/' !in ts[k]
  }

  lemma LastSlash(a: string, x: string, b: string, y: string)
    requires a + "/" + x == b + "/" + y
    ensures |y| <= |x| || '/' in y
  {
    var s := a + "/" + x;
    assert s[|a|] == '/';
    if |x| < |y| {
      assert s[|a|] == y[|a| - |b| - 1];
      assert y[|a| - |b| - 1] in y;
    }
  }

  lemma {:induction false} JoinInjective(s: seq<string>, t: seq<string>)
    requires SlashFree(s) && SlashFree(t) && JoinPath(s) == JoinPath(t)
    ensures s == t
  {
    if s != [] && t != [] {
      var m, n := |s| - 1, |t| - 1;
      var a, b := JoinPath(s[..m]), JoinPath(t[..n]);
      LastSlash(a, s[m], b, t[n]);
      LastSlash(b, t[n], a, s[m]);
      assert |a| == |b|;
      assert a == (a + "/" + s[m])[..|a|] == b;
      assert s[m] == (a + "/" + s[m])[|a| + 1..] == t[n];
      JoinInjective(s[..m], t[..n]);
      assert s == s[..m] + [s[m]] && t == t[..n] + [t[n]];
    }
  }

  function TokensOf(name: string): seq<string> {
    if VectorName(name) then [name[..|name| - 4], INDEX] else [name]
  }

  function Tokens(names: seq<string>): seq<string> {
    if names == [] then [] else Tokens(names[..|names| - 1]) + TokensOf(names[|names| - 1])
  }

  lemma JoinSnoc(s: seq<string>, x: string)
    ensures JoinPath(s + [x]) == JoinPath(s) + "/" + x
  {
  }

  ghost predicate NamesOk(names: seq<string>) {
    forall k :: 0 <= k < |names| ==> PlainName(names[k]) || VectorName(names[k])
  }

  lemma JoinTokens(ts: seq<string>, name: string)
    requires PlainName(name) || VectorName(name)
    ensures JoinPath(ts + TokensOf(name)) == JoinPath(ts) + "/" + name
    ensures SlashFree(TokensOf(name))
  {
    hide JoinPath;
    if VectorName(name) {
      var stem := name[..|name| - 4];
      JoinSnoc(ts, stem);
      JoinSnoc(ts + [stem], INDEX);
      assert ts + [stem, INDEX] == (ts + [stem]) + [INDEX];
      assert name == stem + ("/" + INDEX);
      assert JoinPath(ts) + "/" + stem + "/" + INDEX == JoinPath(ts) + "/" + name;
    } else {
      JoinSnoc(ts, name);
    }
  }

  lemma {:induction false} TokensJoin(names: seq<string>)
    requires NamesOk(names)
    ensures JoinPath(Tokens(names)) == JoinPath(names) && SlashFree(Tokens(names))
  {
    hide TokensOf, PlainName, VectorName;
    if names == [] {
    } else {
      TokensJoin(names[..|names| - 1]);
      JoinTokens(Tokens(names[..|names| - 1]), names[|names| - 1]);
    }
  }

  lemma LastName(a: seq<string>, x: string, b: seq<string>, y: string)
    requires (PlainName(x) || VectorName(x)) && (PlainName(y) || VectorName(y))
    requires a + TokensOf(x) == b + TokensOf(y)
    ensures a == b && x == y
  {
    var u := a + TokensOf(x);
    if VectorName(x) {
      assert u[|u| - 1] == INDEX && VectorName(y);
      assert a == u[..|u| - 2] == b;
      assert x[..|x| - 4] == u[|u| - 2] == y[..|y| - 4];
      assert x == x[..|x| - 4] + "/[i]" && y == y[..|y| - 4] + "/[i]";
    } else {
      assert u[|u| - 1] == x != INDEX && !VectorName(y);
      assert a == u[..|u| - 1] == b;
    }
  }

  lemma {:induction false} TokensInjective(s: seq<string>, t: seq<string>)
    requires NamesOk(s) && NamesOk(t) && Tokens(s) == Tokens(t)
    ensures s == t
  {
    hide TokensOf, PlainName, VectorName;
    HasTokens(s);
    HasTokens(t);
    if s != [] && t != [] {
      var m, n := |s| - 1, |t| - 1;
      LastName(Tokens(s[..m]), s[m], Tokens(t[..n]), t[n]);
      TokensInjective(s[..m], t[..n]);
      assert s == s[..m] + [s[m]] && t == t[..n] + [t[n]];
    }
  }

  lemma HasTokens(s: seq<string>)
    ensures s != [] ==> Tokens(s) != []
  {
  }

  lemma NamesFromText(s: seq<string>, t: seq<string>)
    requires NamesOk(s) && NamesOk(t) && JoinPath(s) == JoinPath(t)
    ensures s == t
  {
    TokensJoin(s);
    TokensJoin(t);
    JoinInjective(Tokens(s), Tokens(t));
    TokensInjective(s, t);
  }

  // ---------------------------------------------------------------- paths with equal names

  lemma {:induction false} LabelsOk(g: Graph, v: TypeId, p: seq<nat>)
    requires WellNamed(g) && IsWalk(g, v, p)
    ensures NamesOk(Labels(g, v, p)) && |Labels(g, v, p)| == |p|
    decreases |p|
  {
    if p == [] {
    } else {
      LabelsOk(g, g[v][p[0]].target, p[1..]);
    }
  }

  // Two edges out of the end of r that lead to the same place under the same name.
  ghost predicate ParallelAfter(g: Graph, v: TypeId, r: seq<nat>, i: nat, j: nat) {
    var u := End(g, v, r);
    u < |g| && i < |g[u]| && j < |g[u]| && i != j && g[u][i] == g[u][j]
  }

  // Different walks with equal names part at parallel edges.
  lemma {:induction false} Diverge(g: Graph, v: TypeId, p: seq<nat>, q: seq<nat>) returns (r: seq<nat>, i: nat, j: nat)
    requires Closed(g) && WellNamed(g) && IsWalk(g, v, p) && IsWalk(g, v, q) && p != q
    requires Labels(g, v, p) == Labels(g, v, q)
    ensures r + [i] <= p && ParallelAfter(g, v, r, i, j)
    decreases |p|
  {
    LabelsOk(g, v, p);
    LabelsOk(g, v, q);
    assert Labels(g, v, p)[0] == g[v][p[0]].name && Labels(g, v, q)[0] == g[v][q[0]].name;
    if p[0] == q[0] {
      var w := g[v][p[0]].target;
      assert Labels(g, w, p[1..]) == Labels(g, v, p)[1..] == Labels(g, v, q)[1..] == Labels(g, w, q[1..]);
      assert p == [p[0]] + p[1..] && q == [q[0]] + q[1..];
      r, i, j := Diverge(g, w, p[1..], q[1..]);
      assert ([p[0]] + r)[1..] == r;
      assert [p[0]] + r + [i] == [p[0]] + (r + [i]) <= p;
      r := [p[0]] + r;
    } else {
      r, i, j := [], p[0], q[0];
    }
  }

  lemma ConsTake<T>(x: T, s: seq<T>, n: nat)
    requires 0 < n <= |s| + 1
    ensures ([x] + s)[..n] == [x] + s[..n - 1] && (n <= |s| ==> ([x] + s)[n] == s[n - 1])
  {
  }

  // A walk is its first edge in front of the rest.
  lemma WalkHead(g: Graph, v: TypeId, p: seq<nat>)
    requires IsWalk(g, v, p) && p != []
    ensures v < |g| && p[0] < |g[v]| && p == [p[0]] + p[1..]
  {
  }

  // The vertices and names of a prefix.
  lemma {:induction false} PrefixWalk(g: Graph, v: TypeId, p: seq<nat>, n: nat)
    requires IsWalk(g, v, p) && n <= |p| < |Vertices(g, v, p)| && |Labels(g, v, p)| == |p|
    ensures IsWalk(g, v, p[..n]) && Vertices(g, v, p[..n]) == Vertices(g, v, p)[..n + 1]
    ensures End(g, v, p[..n]) == Vertices(g, v, p)[n]
    ensures Labels(g, v, p[..n]) == Labels(g, v, p)[..n]
    decreases |p|
  {
    EmptyPath(g, v);
    if n == 0 {
      WalkStart(g, v, p);
      assert p[..n] == [];
    } else {
      hide IsWalk, End, Labels, Vertices;
      WalkHead(g, v, p);
      var m, rest := p[0], p[1..];
      var w := g[v][m].target;
      ConsPath(g, v, m, rest);
      PrefixWalk(g, w, rest, n - 1);
      ConsPath(g, v, m, rest[..n - 1]);
      ConsTake(v, Vertices(g, w, rest), n + 1);
      ConsTake(v, Vertices(g, w, rest), n);
      ConsTake(g[v][m].name, Labels(g, w, rest), n);
      assert [m] + rest[..n - 1] == p[..n];
    }
  }

  lemma WalkStart(g: Graph, v: TypeId, p: seq<nat>)
    requires IsWalk(g, v, p)
    ensures v < |g| && Vertices(g, v, p) != [] && Vertices(g, v, p)[0] == v
  {
  }

  // One more edge, to a vertex not visited before.
  lemma {:induction false} SnocPath(g: Graph, v: TypeId, p: seq<nat>, i: nat)
    requires IsWalk(g, v, p) && End(g, v, p) < |g| && i < |g[End(g, v, p)]| && g[End(g, v, p)][i].target < |g|
    ensures IsWalk(g, v, p + [i]) && End(g, v, p + [i]) == g[End(g, v, p)][i].target
    ensures Labels(g, v, p + [i]) == Labels(g, v, p) + [g[End(g, v, p)][i].name]
    ensures Vertices(g, v, p + [i]) == Vertices(g, v, p) + [g[End(g, v, p)][i].target]
    decreases |p|
  {
    hide IsWalk, End, Labels, Vertices;
    if p == [] {
      EmptyPath(g, v);
      EmptyPath(g, g[v][i].target);
      ConsPath(g, v, i, []);
      assert [i] + [] == p + [i];
    } else {
      WalkHead(g, v, p);
      var n, rest := p[0], p[1..];
      ConsPath(g, v, n, rest);
      SnocPath(g, g[v][n].target, rest, i);
      ConsPath(g, v, n, rest + [i]);
      assert [n] + (rest + [i]) == p + [i];
    }
  }

  lemma EmptyPath(g: Graph, v: TypeId)
    ensures End(g, v, []) == v && Labels(g, v, []) == [] && Vertices(g, v, []) == [v]
    ensures v < |g| ==> IsWalk(g, v, [])
  {
  }

  // ---------------------------------------------------------------- the condition

  // A walk from the root to two parallel edges that lead on to a type the walk has not passed.
  ghost predicate Fork(g: Graph, root: TypeId, r: seq<nat>, i: nat, j: nat) {
    IsWalk(g, root, r) && ParallelAfter(g, root, r, i, j) &&
    g[End(g, root, r)][i].target !in Vertices(g, root, r)
  }

  ghost predicate ForksInParallel(g: Graph, root: TypeId) {
    exists r, i, j :: Fork(g, root, r, i, j)
  }

  // Equally named simple paths p from a and q from b that stay apart at every step, and then lead on by
  // equally named edges to the same type, which neither has passed.
  ghost predicate Join(g: Graph, a: TypeId, b: TypeId, p: seq<nat>, q: seq<nat>, i: nat, j: nat) {
    var u, v := End(g, a, p), End(g, b, q);
    IsSimplePath(g, a, p) && IsSimplePath(g, b, q) && Labels(g, a, p) == Labels(g, b, q) &&
    (forall k :: 0 <= k < |Vertices(g, a, p)| && k < |Vertices(g, b, q)| ==>
                   Vertices(g, a, p)[k] != Vertices(g, b, q)[k]) &&
    u < |g| && v < |g| && i < |g[u]| && j < |g[v]| && g[u][i] == g[v][j] &&
    g[u][i].target !in Vertices(g, a, p) && g[u][i].target !in Vertices(g, b, q)
  }

  // Two roots meet when they are the same or can be followed under the same names to the same type.
  ghost predicate Meet(g: Graph, a: TypeId, b: TypeId) {
    a == b || exists p, q, i, j :: Join(g, a, b, p, q, i, j)
  }

  ghost function RootRecords(g: Graph, root: TypeId): seq<Record>
    requires Closed(g) && root < |g|
  {
    Entries(g, [], root, SimplePaths(g, root, []))
  }

  // ---------------------------------------------------------------- records of one root

  // One more edge prolongs a simple path.
  lemma ProlongedPath(g: Graph, v: TypeId, p: seq<nat>, i: nat)
    requires Closed(g) && IsSimplePath(g, v, p) && End(g, v, p) < |g| && i < |g[End(g, v, p)]|
    requires g[End(g, v, p)][i].target !in Vertices(g, v, p)
    ensures IsSimplePath(g, v, p + [i])
    ensures End(g, v, p + [i]) == g[End(g, v, p)][i].target
    ensures Labels(g, v, p + [i]) == Labels(g, v, p) + [g[End(g, v, p)][i].name]
  {
    SnocPath(g, v, p, i);
  }

  // Where a simple path is recorded.
  lemma RecordOf(g: Graph, root: TypeId, p: seq<nat>) returns (k: nat)
    requires Closed(g) && root < |g| && IsSimplePath(g, root, p)
    ensures k < |RootRecords(g, root)| == |SimplePaths(g, root, [])| && SimplePaths(g, root, [])[k] == p
    ensures RootRecords(g, root)[k] == (End(g, root, p), JoinPath(Labels(g, root, p)))
  {
    hide IsSimplePath, Labels, End, JoinPath;
    SimplePathsEnumerate(g, root);
    var ps := SimplePaths(g, root, []);
    k :| 0 <= k < |ps| && ps[k] == p;
    assert [] + Labels(g, root, p) == Labels(g, root, p);
  }

  // Which simple path a record stands for.
  lemma PathOf(g: Graph, root: TypeId, k: nat) returns (p: seq<nat>)
    requires Closed(g) && root < |g| && k < |RootRecords(g, root)|
    ensures |RootRecords(g, root)| == |SimplePaths(g, root, [])| && p == SimplePaths(g, root, [])[k]
    ensures IsSimplePath(g, root, p) && RootRecords(g, root)[k] == (End(g, root, p), JoinPath(Labels(g, root, p)))
  {
    hide IsSimplePath, Labels, End, JoinPath;
    SimplePathsEnumerate(g, root);
    p := SimplePaths(g, root, [])[k];
    assert p in SimplePaths(g, root, []);
    assert [] + Labels(g, root, p) == Labels(g, root, p);
  }

  // Cutting the loops out of the walk leaves a path of the search with the same fork.
  lemma ForkPaths(g: Graph, root: TypeId, r: seq<nat>, i: nat, j: nat) returns (p: seq<nat>)
    requires Closed(g) && root < |g| && Fork(g, root, r, i, j)
    ensures IsSimplePath(g, root, p + [i]) && IsSimplePath(g, root, p + [j])
    ensures End(g, root, p + [i]) == End(g, root, p + [j]) && Labels(g, root, p + [i]) == Labels(g, root, p + [j])
  {
    p := LoopErasure(g, root, r);
    hide IsSimplePath, End, Labels, Vertices;
    ProlongedPath(g, root, p, i);
    ProlongedPath(g, root, p, j);
  }

  lemma ForkRepeats(g: Graph, root: TypeId, r: seq<nat>, i: nat, j: nat)
    requires Closed(g) && root < |g| && Fork(g, root, r, i, j)
    ensures !Distinct(RootRecords(g, root))
  {
    var p := ForkPaths(g, root, r, i, j);
    assert i != j;
    hide Closed, Fork, End, Labels, IsSimplePath, JoinPath, RootRecords, SimplePaths, Vertices;
    var k := RecordOf(g, root, p + [i]);
    var l := RecordOf(g, root, p + [j]);
    assert (p + [i])[|p|] != (p + [j])[|p|];
  }

  // What precedes an edge of a simple path is a simple path that has not passed the edge's target.
  lemma PathBefore(g: Graph, v: TypeId, p: seq<nat>, n: nat)
    requires IsSimplePath(g, v, p) && n < |p|
    ensures |Vertices(g, v, p)| == |p| + 1 == |Labels(g, v, p)| + 1
    ensures var u, before := Vertices(g, v, p)[n], p[..n];
            IsSimplePath(g, v, before) && End(g, v, before) == u &&
            Vertices(g, v, before) == Vertices(g, v, p)[..n + 1] && Labels(g, v, before) == Labels(g, v, p)[..n] &&
            u < |g| && p[n] < |g[u]| &&
            g[u][p[n]] == Edge(Labels(g, v, p)[n], Vertices(g, v, p)[n + 1]) &&
            g[u][p[n]].target !in Vertices(g, v, before)
  {
    assert IsWalk(g, v, p) && Distinct(Vertices(g, v, p));
    hide Labels, End, Vertices, IsWalk, Distinct;
    LabelsLength(g, v, p);
    SuffixWalk(g, v, p, n);
    PrefixWalk(g, v, p, n);
    DistinctPrefix(Vertices(g, v, p), n);
    StepOfWalk(g, v, p, n);
  }

  // The edge with which a walk goes on after its first n edges.
  lemma StepOfWalk(g: Graph, v: TypeId, p: seq<nat>, n: nat)
    requires IsWalk(g, v, p) && n < |p| == |Labels(g, v, p)| && |Vertices(g, v, p)| == |p| + 1
    ensures var u := Vertices(g, v, p)[n];
            u < |g| && p[n] < |g[u]| && g[u][p[n]] == Edge(Labels(g, v, p)[n], Vertices(g, v, p)[n + 1])
  {
    hide Labels, End, Vertices, IsWalk;
    var vs := Vertices(g, v, p);
    SuffixWalk(g, v, p, n);
    EdgeAt(g, vs[n], p[n..]);
    assert p[n..][0] == p[n] && vs[n..][1] == vs[n + 1];
    PrefixWalk(g, v, p, n);
    PrefixWalk(g, v, p, n + 1);
    SnocPath(g, v, p[..n], p[n]);
    assert p[..n] + [p[n]] == p[..n + 1];
    assert Labels(g, v, p)[n] == Labels(g, v, p)[..n + 1][n] == g[vs[n]][p[n]].name;
  }

  lemma EdgeAt(g: Graph, u: TypeId, p: seq<nat>)
    requires IsWalk(g, u, p) && p != []
    ensures u < |g| && p[0] < |g[u]| && |Vertices(g, u, p)| >= 2 && Vertices(g, u, p)[1] == g[u][p[0]].target < |g|
  {
    var w := g[u][p[0]].target;
    assert Vertices(g, u, p) == [u] + Vertices(g, w, p[1..]);
    WalkStart(g, w, p[1..]);
  }

  lemma {:induction false} LabelsLength(g: Graph, v: TypeId, p: seq<nat>)
    requires IsWalk(g, v, p)
    ensures |Labels(g, v, p)| == |p|
    decreases |p|
  {
    if p == [] {
    } else {
      LabelsLength(g, g[v][p[0]].target, p[1..]);
    }
  }

  lemma DistinctPrefix(vs: seq<nat>, n: nat)
    requires Distinct(vs) && n + 1 < |vs|
    ensures Distinct(vs[..n + 1]) && vs[n + 1] !in vs[..n + 1]
  {
  }

  lemma ForkOnPath(g: Graph, root: TypeId, p: seq<nat>, r: seq<nat>, i: nat, j: nat)
    requires IsSimplePath(g, root, p) && r + [i] <= p && ParallelAfter(g, root, r, i, j)
    ensures ForksInParallel(g, root)
  {
    PathBefore(g, root, p, |r|);
    assert p[..|r|] == r && p[|r|] == i;
    assert Fork(g, root, r, i, j);
  }

  lemma RepetitionForks(g: Graph, root: TypeId, p: seq<nat>, q: seq<nat>)
    requires Closed(g) && WellNamed(g) && p != q && IsSimplePath(g, root, p) && IsSimplePath(g, root, q)
    requires JoinPath(Labels(g, root, p)) == JoinPath(Labels(g, root, q))
    ensures ForksInParallel(g, root)
  {
    LabelsOk(g, root, p);
    LabelsOk(g, root, q);
    NamesFromText(Labels(g, root, p), Labels(g, root, q));
    var r, i, j := Diverge(g, root, p, q);
    ForkOnPath(g, root, p, r, i, j);
  }

  // The records of a single root are all different if and only if no walk forks in parallel.
  lemma RootRecordsUniqueIff(g: Graph, root: TypeId)
    requires Closed(g) && root < |g| && WellNamed(g)
    ensures Distinct(RootRecords(g, root)) <==> !ForksInParallel(g, root)
  {
    hide Closed, WellNamed, RootRecords, SimplePaths, IsSimplePath, Labels, End, JoinPath, Fork;
    if ForksInParallel(g, root) {
      var r, i, j :| Fork(g, root, r, i, j);
      ForkRepeats(g, root, r, i, j);
    }
    if !Distinct(RootRecords(g, root)) {
      var k, l :| 0 <= k < l < |RootRecords(g, root)| && RootRecords(g, root)[k] == RootRecords(g, root)[l];
      var p := PathOf(g, root, k);
      var q := PathOf(g, root, l);
      SimplePathsEnumerate(g, root);
      RepetitionForks(g, root, p, q);
    }
  }

  // ---------------------------------------------------------------- records of two roots

  lemma SharedRecord<T>(s: seq<T>, t: seq<T>, k: nat, l: nat)
    requires k < |s| && l < |t| && s[k] == t[l]
    ensures !Disjoint(s, t)
  {
    assert s[k] in s && t[l] in t;
  }

  lemma MeetingRootsShare(g: Graph, a: TypeId, b: TypeId)
    requires Closed(g) && a < |g| && b < |g| && Meet(g, a, b)
    ensures !Disjoint(RootRecords(g, a), RootRecords(g, b))
  {
    if a == b {
      EmptyPath(g, a);
      assert IsSimplePath(g, a, []);
      var k := RecordOf(g, a, []);
      SharedRecord(RootRecords(g, a), RootRecords(g, b), k, k);
    } else {
      var p, q, i, j :| Join(g, a, b, p, q, i, j);
      ProlongedPath(g, a, p, i);
      ProlongedPath(g, b, q, j);
      hide Closed, End, Labels, IsSimplePath, JoinPath, RootRecords, SimplePaths, Vertices;
      var k := RecordOf(g, a, p + [i]);
      var l := RecordOf(g, b, q + [j]);
      SharedRecord(RootRecords(g, a), RootRecords(g, b), k, l);
    }
  }

  // Equally named simple paths from different roots to the same end join at their first common vertex.
  lemma PathsJoin(g: Graph, a: TypeId, b: TypeId, p: seq<nat>, q: seq<nat>)
    requires Closed(g) && WellNamed(g) && a != b && IsSimplePath(g, a, p) && IsSimplePath(g, b, q)
    requires Labels(g, a, p) == Labels(g, b, q) && End(g, a, p) == End(g, b, q)
    ensures Meet(g, a, b)
  {
    LabelsOk(g, a, p);
    LabelsOk(g, b, q);
    var vs, ws := Vertices(g, a, p), Vertices(g, b, q);
    SuffixWalk(g, a, p, |p|);
    SuffixWalk(g, b, q, |q|);
    SuffixWalk(g, a, p, 0);
    SuffixWalk(g, b, q, 0);
    assert p[|p|..] == [] && q[|q|..] == [] && p[0..] == p && q[0..] == q;
    assert vs[|p|] == ws[|q|];
    var n := FirstCommon(vs, ws);
    assert vs[0] == a && ws[0] == b;
    JoinAt(g, a, b, p, q, n - 1);
  }

  lemma FirstCommon(vs: seq<nat>, ws: seq<nat>) returns (n: nat)
    requires |vs| == |ws| > 0 && vs[|vs| - 1] == ws[|ws| - 1]
    ensures n < |vs| && vs[n] == ws[n] && forall k :: 0 <= k < n ==> vs[k] != ws[k]
  {
    n := 0;
    while vs[n] != ws[n]
      invariant n < |vs| && forall k :: 0 <= k < n ==> vs[k] != ws[k]
      decreases |vs| - n
    {
      n := n + 1;
    }
  }

  lemma JoinAt(g: Graph, a: TypeId, b: TypeId, p: seq<nat>, q: seq<nat>, n: nat)
    requires IsSimplePath(g, a, p) && IsSimplePath(g, b, q) && Labels(g, a, p) == Labels(g, b, q)
    requires n < |p| == |q| && |Vertices(g, a, p)| == |Vertices(g, b, q)| == |p| + 1
    requires Vertices(g, a, p)[n + 1] == Vertices(g, b, q)[n + 1]
    requires forall k :: 0 <= k <= n ==> Vertices(g, a, p)[k] != Vertices(g, b, q)[k]
    ensures Meet(g, a, b)
  {
    hide IsSimplePath, End, Labels, Vertices;
    PathBefore(g, a, p, n);
    PathBefore(g, b, q, n);
    assert Join(g, a, b, p[..n], q[..n], p[n], q[n]);
  }

  lemma SharedRecordMeets(g: Graph, a: TypeId, b: TypeId)
    requires Closed(g) && WellNamed(g) && a < |g| && b < |g| && !Disjoint(RootRecords(g, a), RootRecords(g, b))
    ensures Meet(g, a, b)
  {
    hide Closed, WellNamed, RootRecords, SimplePaths, IsSimplePath, Labels, End, JoinPath, Join;
    var x :| x in RootRecords(g, a) && x in RootRecords(g, b);
    var k :| 0 <= k < |RootRecords(g, a)| && RootRecords(g, a)[k] == x;
    var l :| 0 <= l < |RootRecords(g, b)| && RootRecords(g, b)[l] == x;
    var p := PathOf(g, a, k);
    var q := PathOf(g, b, l);
    SameTextSameNames(g, a, b, p, q);
    if a != b { PathsJoin(g, a, b, p, q); }
  }

  lemma SameTextSameNames(g: Graph, a: TypeId, b: TypeId, p: seq<nat>, q: seq<nat>)
    requires WellNamed(g) && IsSimplePath(g, a, p) && IsSimplePath(g, b, q)
    requires JoinPath(Labels(g, a, p)) == JoinPath(Labels(g, b, q))
    ensures Labels(g, a, p) == Labels(g, b, q)
  {
    LabelsOk(g, a, p);
    LabelsOk(g, b, q);
    NamesFromText(Labels(g, a, p), Labels(g, b, q));
  }

  // ---------------------------------------------------------------- records of all roots

  lemma DistinctConcat<T>(s: seq<T>, t: seq<T>)
    ensures Distinct(s + t) <==> Distinct(s) && Distinct(t) && Disjoint(s, t)
  {
    var u := s + t;
    assert (forall k :: 0 <= k < |s| ==> s[k] == u[k]) && forall k :: 0 <= k < |t| ==> t[k] == u[|s| + k];
    if Distinct(u) {
      forall x | x in s ensures x !in t {
        var k :| 0 <= k < |s| && s[k] == x;
        forall l | 0 <= l < |t| ensures t[l] != x {
          assert u[k] != u[|s| + l];
        }
      }
      forall i, j | 0 <= i < j < |t| ensures t[i] != t[j] {
        assert u[|s| + i] != u[|s| + j];
      }
    }
    if Distinct(s) && Distinct(t) && Disjoint(s, t) {
      forall i, j | 0 <= i < j < |u| ensures u[i] != u[j] {
        if i < |s| <= j { assert s[i] in s && t[j - |s|] in t; }
      }
    }
  }

  lemma DisjointConcat<T>(s: seq<T>, t: seq<T>, u: seq<T>)
    ensures Disjoint(s + t, u) <==> Disjoint(s, u) && Disjoint(t, u)
  {
    forall x ensures x in s + t <==> x in s || x in t {
    }
  }

  ghost predicate MeetsSome(g: Graph, roots: seq<TypeId>, b: TypeId) {
    exists k :: 0 <= k < |roots| && Meet(g, roots[k], b)
  }

  lemma {:induction false} GatheredDisjoint(g: Graph, roots: seq<TypeId>, b: TypeId)
    requires Closed(g) && WellNamed(g) && b < |g| && forall k :: 0 <= k < |roots| ==> roots[k] < |g|
    ensures Disjoint(Gathered(g, roots), RootRecords(g, b)) <==> !MeetsSome(g, roots, b)
  {
    hide Closed, WellNamed, RootRecords, Meet;
    if roots == [] {
      NothingShared(RootRecords(g, b));
    } else {
      var init, last := roots[..|roots| - 1], roots[|roots| - 1];
      GatheredDisjoint(g, init, b);
      GatheredLast(g, roots);
      hide Gathered, Disjoint;
      DisjointConcat(Gathered(g, init), RootRecords(g, last), RootRecords(g, b));
      if Meet(g, last, b) {
        MeetingRootsShare(g, last, b);
      } else if !Disjoint(RootRecords(g, last), RootRecords(g, b)) {
        SharedRecordMeets(g, last, b);
      }
      if k :| 0 <= k < |init| && Meet(g, init[k], b) {
        assert roots[k] == init[k];
      }
      if k :| 0 <= k < |roots| && Meet(g, roots[k], b) {
        assert k < |init| ==> init[k] == roots[k];
      }
    }
  }

  lemma NothingShared<T>(s: seq<T>)
    ensures Disjoint([], s)
  {
  }

  lemma GatheredLast(g: Graph, roots: seq<TypeId>)
    requires Closed(g) && roots != [] && forall k :: 0 <= k < |roots| ==> roots[k] < |g|
    ensures Gathered(g, roots) == Gathered(g, roots[..|roots| - 1]) + RootRecords(g, roots[|roots| - 1])
  {
  }

  // No root forks in parallel and no two roots meet.
  ghost predicate Unrepeated(g: Graph, roots: seq<TypeId>) {
    (forall k :: 0 <= k < |roots| ==> !ForksInParallel(g, roots[k])) &&
    forall i, j :: 0 <= i < j < |roots| ==> !Meet(g, roots[i], roots[j])
  }

  lemma UnrepeatedLast(g: Graph, roots: seq<TypeId>)
    requires roots != []
    ensures var init, last := roots[..|roots| - 1], roots[|roots| - 1];
            Unrepeated(g, roots) <==> Unrepeated(g, init) && !ForksInParallel(g, last) && !MeetsSome(g, init, last)
  {
    hide ForksInParallel, Meet;
    var init, last := roots[..|roots| - 1], roots[|roots| - 1];
    assert forall k :: 0 <= k < |init| ==> init[k] == roots[k];
    if Unrepeated(g, init) && !ForksInParallel(g, last) && !MeetsSome(g, init, last) {
      forall i, j | 0 <= i < j < |roots| ensures !Meet(g, roots[i], roots[j]) {
        assert roots[i] == init[i];
        if j < |init| { assert roots[j] == init[j]; }
      }
    }
  }

  /** With unambiguous names, the records gathered from all roots are all different if and only if no walk
      from a root forks in parallel, and no two roots are the same or meet under the same names. */
  lemma {:induction false} RecordsUniqueIff(g: Graph, roots: seq<TypeId>)
    requires Closed(g) && WellNamed(g) && forall k :: 0 <= k < |roots| ==> roots[k] < |g|
    ensures Distinct(Gathered(g, roots)) <==>
            (forall k :: 0 <= k < |roots| ==> !ForksInParallel(g, roots[k])) &&
            forall i, j :: 0 <= i < j < |roots| ==> !Meet(g, roots[i], roots[j])
  {
    hide Closed, WellNamed, RootRecords, Meet, ForksInParallel, Disjoint;
    if roots == [] {
    } else {
      var init, last := roots[..|roots| - 1], roots[|roots| - 1];
      RecordsUniqueIff(g, init);
      GatheredLast(g, roots);
      hide Gathered, Distinct;
      DistinctConcat(Gathered(g, init), RootRecords(g, last));
      RootRecordsUniqueIff(g, last);
      GatheredDisjoint(g, init, last);
      UnrepeatedLast(g, roots);
    }
  }

  lemma TwiceGathered(g: Graph, a: TypeId)
    requires Closed(g) && a < |g|
    ensures Gathered(g, [a, a]) == RootRecords(g, a) + RootRecords(g, a)
  {
    hide Closed, RootRecords;
    assert [a, a][..1] == [a] && [a][..0] == [];
    GatheredLast(g, [a, a]);
    GatheredLast(g, [a]);
    assert Gathered(g, [a]) == RootRecords(g, a);
  }

  // Gathering from the same root twice repeats all its records, in every graph.
  lemma SameRootRepeats(g: Graph, a: TypeId)
    requires Closed(g) && a < |g|
    ensures !Distinct(Gathered(g, [a, a]))
  {
    TwiceGathered(g, a);
    hide Gathered, Distinct, Disjoint, Closed, RootRecords;
    DistinctConcat(RootRecords(g, a), RootRecords(g, a));
    MeetingRootsShare(g, a, a);
  }

  // ---------------------------------------------------------------- where unambiguous names come from

  // What a registry's own names must satisfy: type names are distinct and free of slashes; the attribute
  // names of a type are distinct, plain, and not marked as type names.
  ghost predicate NamesClear(r: Registry) {
    (forall t :: 0 <= t < |r.types| ==> '/' !in r.types[t].name) &&
    (forall t, u :: 0 <= t < u < |r.types| ==> r.types[t].name != r.types[u].name) &&
    (forall t, i :: 0 <= t < |r.types| && 0 <= i < |r.types[t].attributes| ==>
                      AttributeNameClear(r.types[t].attributes[i])) &&
    forall t, i, j :: 0 <= t < |r.types| && 0 <= i < j < |r.types[t].attributes| ==>
                        r.types[t].attributes[i].name != r.types[t].attributes[j].name
  }

  predicate AttributeNameClear(a: Attribute) {
    PlainName(a.name) && (a.name == "" || a.name[0] != '$')
  }

  lemma EdgeOrigin(r: Registry, aggregates: seq<(TypeId, TypeId)>, t: TypeId, e: Edge) returns (o: Origin)
    requires t < |r.types| && e in Edges(r, aggregates, t)
    ensures Gives(r, aggregates, t, o, e)
  {
    hide Edges, Gives;
    var os := EdgeOrigins(r, aggregates, t);
    var n :| 0 <= n < |os| && Edges(r, aggregates, t)[n] == e;
    o := os[n];
  }

  // What can be read off a name made from an attribute, and off one made from a type.
  lemma AttributeEdgeName(r: Registry, a: Attribute, e: Edge)
    requires AttributeNameClear(a) && AttributeEdge(r, a) == [e]
    ensures PlainName(e.name) || VectorName(e.name)
    ensures a.name == if PlainName(e.name) then e.name else e.name[..|e.name| - 4]
    ensures e.name == "" || e.name[0] != '$'
  {
    assert [e][0] == e;
  }

  lemma TypeEdgeName(r: Registry, e: Edge, u: TypeId)
    requires NamesClear(r) && u < |r.types| && e == NamedEdge(r, u)
    ensures PlainName(e.name)
    ensures e.target == u && e.name != "" && e.name[0] == '$' && e.name[1..] == r.types[u].name
  {
  }

  lemma GivenName(r: Registry, aggregates: seq<(TypeId, TypeId)>, t: TypeId, o: Origin, e: Edge)
    requires NamesClear(r) && ValidAggregates(r, aggregates) && t < |r.types| && Gives(r, aggregates, t, o, e)
    ensures PlainName(e.name) || VectorName(e.name)
    ensures o.FromAttribute? ==>
              o.index < |r.types[t].attributes| && (e.name == "" || e.name[0] != '$') &&
              r.types[t].attributes[o.index].name == if PlainName(e.name) then e.name else e.name[..|e.name| - 4]
    ensures !o.FromAttribute? ==>
              e.target < |r.types| && e.name != "" && e.name[0] == '$' && e.name[1..] == r.types[e.target].name
  {
    hide PlainName, VectorName, NamedEdge, IsDescendant, AttributeEdge;
    match o {
      case FromAttribute(i) =>
        assert AttributeNameClear(r.types[t].attributes[i]);
        AttributeEdgeName(r, r.types[t].attributes[i], e);
      case FromType(u) => TypeEdgeName(r, e, u);
      case FromAggregation(k) =>
        assert [e][0] == e;
        TypeEdgeName(r, e, if aggregates[k].1 == t then aggregates[k].0 else aggregates[k].1);
    }
  }

  lemma EdgesWellNamed(r: Registry, aggregates: seq<(TypeId, TypeId)>, t: TypeId, d: Edge, e: Edge)
    requires NamesClear(r) && ValidAggregates(r, aggregates) && t < |r.types|
    requires d in Edges(r, aggregates, t) && e in Edges(r, aggregates, t)
    ensures PlainName(d.name) || VectorName(d.name)
    ensures d.name == e.name ==> d.target == e.target
  {
    hide Edges, PlainName, VectorName, Gives;
    var o := EdgeOrigin(r, aggregates, t, d);
    var q := EdgeOrigin(r, aggregates, t, e);
    GivenName(r, aggregates, t, o, d);
    GivenName(r, aggregates, t, q, e);
    if d.name == e.name && o.FromAttribute? {
      assert r.types[t].attributes[o.index].name == r.types[t].attributes[q.index].name;
      LeadsOnce(r, aggregates, t, o, d, e);
    }
  }

  // The configuration graph of a registry with clear names is well named.
  lemma ConfigGraphWellNamed(r: Registry, aggregates: seq<(TypeId, TypeId)>)
    requires NamesClear(r) && ValidAggregates(r, aggregates)
    ensures WellNamed(ConfigGraph(r, aggregates))
  {
    hide NamesClear, ValidAggregates, Edges, PlainName, VectorName;
    var g: Graph := ConfigGraph(r, aggregates);
    forall v, i | 0 <= v < |g| && 0 <= i < |g[v]| ensures PlainName(g[v][i].name) || VectorName(g[v][i].name) {
      EdgesWellNamed(r, aggregates, v, g[v][i], g[v][i]);
    }
    forall v, i, j | 0 <= v < |g| && 0 <= i < j < |g[v]| && g[v][i].name == g[v][j].name
      ensures g[v][i].target == g[v][j].target
    {
      EdgesWellNamed(r, aggregates, v, g[v][i], g[v][j]);
    }
  }
}
