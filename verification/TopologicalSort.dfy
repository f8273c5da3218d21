/**
 topological_sort: Kahn's algorithm over a map from vertices to edge lists. Edge lists may repeat a
 target and may name vertices that are not keys; looking such a vertex up inserts it, so the map grows
 while the algorithm runs.
 */
module TopologicalSort {

  import opened Sequences

  type Graph<V> = map<V, seq<V>>

  ghost predicate Edge<V>(g: Graph<V>, u: V, v: V) {
    u in g && v in g[u]
  }

  ghost predicate Vertex<V(!new)>(g: Graph<V>, v: V) {
    v in g || exists u :: Edge(g, u, v)
  }

  /** `p` walks along edges. */
  ghost predicate Path<V>(g: Graph<V>, p: seq<V>) {
    forall i :: 0 <= i < |p| - 1 ==> Edge(g, p[i], p[i + 1])
  }

  ghost predicate HasCycle<V(!new)>(g: Graph<V>) {
    exists p :: |p| >= 2 && Path(g, p) && p[0] == p[|p| - 1]
  }

  // ---------- in-degrees ----------

  /** How often `v` is in a list. */
  function Times<V(==)>(s: seq<V>, v: V): nat {
    if s == [] then 0 else Times(s[..|s| - 1], v) + if s[|s| - 1] == v then 1 else 0
  }

  lemma {:induction false} TimesIn<V>(s: seq<V>, v: V)
    ensures Times(s, v) > 0 <==> v in s
  {
    if s != [] {
      TimesIn(s[..|s| - 1], v);
      assert s == s[..|s| - 1] + [s[|s| - 1]];
    }
  }

  lemma {:induction false} TimesConcat<V>(a: seq<V>, b: seq<V>, v: V)
    ensures Times(a + b, v) == Times(a, v) + Times(b, v)
    decreases b
  {
    if b == [] {
      assert a + b == a;
    } else {
      var n := |b| - 1;
      TimesConcat(a, b[..n], v);
      assert (a + b)[..|a + b| - 1] == a + b[..n];
    }
  }

  /** Edges into `v` from the keys in `s`, with repetition. */
  ghost function InDegree<V>(g: Graph<V>, s: set<V>, v: V): nat
    requires s <= g.Keys
    decreases s
  {
    if s == {} then 0
    else
      var u :| u in s;
      Times(g[u], v) + InDegree(g, s - {u}, v)
  }

  lemma {:induction false} InDegreeWithout<V>(g: Graph<V>, s: set<V>, u: V, v: V)
    requires s <= g.Keys && u in s
    ensures InDegree(g, s, v) == Times(g[u], v) + InDegree(g, s - {u}, v)
    decreases s
  {
    hide Times;
    var x :| x in s && InDegree(g, s, v) == Times(g[x], v) + InDegree(g, s - {x}, v);
    if x != u {
      InDegreeWithout(g, s - {x}, u, v);
      InDegreeWithout(g, s - {u}, x, v);
      assert s - {x} - {u} == s - {u} - {x};
    }
  }

  /** The in-degree is zero exactly when no key of the set has an edge to the vertex. */
  lemma {:induction false} ZeroIff<V>(g: Graph<V>, s: set<V>, v: V)
    requires s <= g.Keys
    ensures InDegree(g, s, v) == 0 <==> forall u :: u in s ==> v !in g[u]
    decreases s
  {
    if s != {} {
      var u :| u in s;
      InDegreeWithout(g, s, u, v);
      TimesIn(g[u], v);
      ZeroIff(g, s - {u}, v);
    }
  }

  // ---------- cycles ----------

  /** Every edge into a vertex of the list comes from further left. */
  ghost predicate Forward<V(!new)>(g: Graph<V>, order: seq<V>) {
    forall i, u :: 0 <= i < |order| && Edge(g, u, order[i]) ==> u in order[..i]
  }

  /** Along a path that ends in a forward list, positions grow. */
  lemma {:induction false} Grows<V(!new)>(g: Graph<V>, order: seq<V>, p: seq<V>) returns (a: nat, b: nat)
    requires Forward(g, order) && Distinct(order) && Path(g, p) && |p| >= 2 && p[|p| - 1] in order
    ensures a < b < |order| && order[a] == p[0] && order[b] == p[|p| - 1]
    decreases p
  {
    var n := |p| - 1;
    b :| 0 <= b < |order| && order[b] == p[n];
    assert Edge(g, p[n - 1], p[n]);
    assert p[n - 1] in order[..b];
    var c :| 0 <= c < b && order[c] == p[n - 1];
    if n == 1 {
      a := c;
    } else {
      var d;
      a, d := Grows(g, order, p[..n]);
      assert d == c;
    }
  }

  lemma ForwardNoCycle<V(!new)>(g: Graph<V>, order: seq<V>)
    requires Forward(g, order) && Distinct(order) && forall u :: u in g ==> u in order
    ensures !HasCycle(g)
  {
    if HasCycle(g) {
      var p :| |p| >= 2 && Path(g, p) && p[0] == p[|p| - 1];
      assert Edge(g, p[0], p[1]);
      var a, b := Grows(g, order, p);
      assert false;
    }
  }

  ghost predicate HasPred<V(!new)>(g: Graph<V>, s: set<V>, x: V) {
    exists u :: u in s && Edge(g, u, x)
  }

  /** Every vertex of the set has a predecessor in it. */
  ghost predicate Stuck<V(!new)>(g: Graph<V>, s: set<V>) {
    forall x :: x in s ==> HasPred(g, s, x)
  }

  lemma PredOf<V(!new)>(g: Graph<V>, s: set<V>, x: V) returns (u: V)
    requires HasPred(g, s, x)
    ensures u in s && Edge(g, u, x)
  {
    u :| u in s && Edge(g, u, x);
  }

  /** In such a set there are paths of any length to each vertex. */
  lemma {:induction false} WalkTo<V(!new)>(g: Graph<V>, s: set<V>, v: V, n: nat) returns (p: seq<V>)
    requires v in s && Stuck(g, s)
    ensures |p| == n + 1 && Path(g, p) && p[n] == v && forall i :: 0 <= i < |p| ==> p[i] in s
    decreases n
  {
    hide HasPred;
    if n == 0 {
      p := [v];
    } else {
      var u := PredOf(g, s, v);
      var q := WalkTo(g, s, u, n - 1);
      p := q + [v];
    }
  }

  /** More places than values: some value comes twice. */
  lemma {:induction false} Twice<V>(p: seq<V>, s: set<V>) returns (i: nat, j: nat)
    requires |p| > |s| && forall k :: 0 <= k < |p| ==> p[k] in s
    ensures i < j < |p| && p[i] == p[j]
    decreases p
  {
    var n := |p| - 1;
    if k :| 0 <= k < n && p[k] == p[n] {
      i, j := k, n;
    } else {
      i, j := Twice(p[..n], s - {p[n]});
    }
  }

  lemma StuckHasCycle<V(!new)>(g: Graph<V>, s: set<V>)
    requires s != {} && Stuck(g, s)
    ensures HasCycle(g)
  {
    hide Stuck;
    var v :| v in s;
    var p := WalkTo(g, s, v, |s|);
    var i, j := Twice(p, s);
    var c := p[i..j + 1];
    forall k | 0 <= k < |c| - 1
      ensures Edge(g, c[k], c[k + 1])
    {
      assert Edge(g, p[i + k], p[i + k + 1]);
    }
    assert |c| >= 2 && Path(g, c) && c[0] == c[|c| - 1];
  }

  // ---------- the algorithm ----------

  function Degree<V(==)>(m: map<V, int>, v: V): int {
    if v in m then m[v] else 0
  }

  /** Vertices of the keys in `s` and of their edge lists. */
  ghost predicate Covers<V(!new)>(g: Graph<V>, s: set<V>, m: map<V, int>)
    requires s <= g.Keys
  {
    forall v :: v in m <==> v in s || exists u :: u in s && v in g[u]
  }

  ghost predicate Degrees<V(!new)>(g: Graph<V>, s: set<V>, m: map<V, int>)
    requires s <= g.Keys
  {
    forall v :: Degree(m, v) == InDegree(g, s, v)
  }

  /** The first loop: an entry for every vertex, with its in-degree. */
  method CountDegrees<V(==, !new)>(g: Graph<V>) returns (m: map<V, int>)
    ensures Degrees(g, g.Keys, m) && forall v :: v in m <==> Vertex(g, v)
  {
    hide InDegree, Times;
    m := map[];
    var rest := g.Keys;
    ghost var done: set<V> := {};
    NoneYet(g, m);
    while rest != {}
      invariant rest + done == g.Keys && rest !! done && Degrees(g, done, m) && Covers(g, done, m)
      decreases rest
    {
      var u :| u in rest;
      ghost var m0 := m;
      if u !in m {
        m := m[u := 0];
      }
      var edges := g[u];
      assert edges[..0] == [] && edges[..|edges|] == edges;
      TimesNone<V>();
      for j := 0 to |edges|
        invariant forall v :: Degree(m, v) == Degree(m0, v) + Times(edges[..j], v)
        invariant forall v :: v in m <==> v in m0 || v == u || v in edges[..j]
      {
        TimesStep(edges, j);
        var e := edges[j];
        m := m[e := Degree(m, e) + 1];
      }
      OneMore(g, done, u, m0, m);
      rest, done := rest - {u}, done + {u};
    }
    assert done == g.Keys;
    AllCovered(g, m);
  }

  lemma NoneYet<V(!new)>(g: Graph<V>, m: map<V, int>)
    requires m == map[]
    ensures Degrees(g, {}, m) && Covers(g, {}, m)
  {
  }

  lemma TimesNone<V(!new)>()
    ensures forall v: V :: Times([], v) == 0
  {
  }

  lemma TimesStep<V(!new)>(s: seq<V>, j: nat)
    requires j < |s|
    ensures forall v :: Times(s[..j + 1], v) == Times(s[..j], v) + if s[j] == v then 1 else 0
    ensures s[..j + 1] == s[..j] + [s[j]]
  {
    assert s[..j + 1][..j] == s[..j];
  }

  lemma OneMore<V(!new)>(g: Graph<V>, done: set<V>, u: V, m0: map<V, int>, m: map<V, int>)
    requires done <= g.Keys && u in g && u !in done && Degrees(g, done, m0) && Covers(g, done, m0)
    requires forall v :: Degree(m, v) == Degree(m0, v) + Times(g[u], v)
    requires forall v :: v in m <==> v in m0 || v == u || v in g[u]
    ensures Degrees(g, done + {u}, m) && Covers(g, done + {u}, m)
  {
    hide InDegree, Times;
    forall v
      ensures Degree(m, v) == InDegree(g, done + {u}, v)
    {
      InDegreeWithout(g, done + {u}, u, v);
      assert done + {u} - {u} == done;
    }
  }

  lemma AllCovered<V(!new)>(g: Graph<V>, m: map<V, int>)
    requires Covers(g, g.Keys, m)
    ensures forall v :: v in m <==> Vertex(g, v)
  {
    forall v
      ensures v in m <==> Vertex(g, v)
    {
      if Vertex(g, v) && v !in g {
        var u :| Edge(g, u, v);
        assert u in g.Keys && v in g[u];
      }
      if v in m && v !in g {
        var u :| u in g.Keys && v in g[u];
        assert Edge(g, u, v);
      }
    }
  }

  /** The keys that are not processed. */
  ghost function Left<V>(g: Graph<V>, done: seq<V>): set<V> {
    set u | u in g.Keys && u !in done
  }

  /** The list of processed and queued vertices: those of in-degree zero, each once, edges forward. */
  ghost predicate Queue<V(!new)>(g: Graph<V>, m: map<V, int>, order: seq<V>) {
    && Distinct(order) && Forward(g, order)
    && (forall v :: v in order ==> v in m)
    && (forall v :: v in m ==> (m[v] == 0 <==> v in order))
  }

  /** With `edges` still to be taken off. */
  ghost predicate Counts<V(!new)>(g: Graph<V>, done: seq<V>, edges: seq<V>, m: map<V, int>) {
    forall v :: Degree(m, v) == InDegree(g, Left(g, done), v) + Times(edges, v)
  }

  ghost predicate Grown<V(!new)>(g: Graph<V>, dag: Graph<V>, done: seq<V>) {
    && (forall v :: v in dag <==> v in g || v in done)
    && (forall v :: v in dag ==> dag[v] == if v in g then g[v] else [])
  }

  /** The second loop: vertices without incoming edges. */
  method InitialQueue<V(==, !new)>(g: Graph<V>, m: map<V, int>) returns (q: seq<V>)
    requires Degrees(g, g.Keys, m) && forall v :: v in m <==> Vertex(g, v)
    ensures Queue(g, m, q)
  {
    hide InDegree, Times;
    q := [];
    var rest := m.Keys;
    while rest != {}
      invariant rest <= m.Keys && Distinct(q)
      invariant forall v :: v in q <==> v in m && v !in rest && m[v] == 0
      decreases rest
    {
      var v :| v in rest;
      if m[v] == 0 {
        q := q + [v];
      }
      rest := rest - {v};
    }
    NoPreds(g, m, q);
  }

  lemma NoPreds<V(!new)>(g: Graph<V>, m: map<V, int>, q: seq<V>)
    requires Degrees(g, g.Keys, m) && forall v :: v in q ==> v in m && m[v] == 0
    ensures Forward(g, q)
  {
    hide Degrees;
    forall i, u | 0 <= i < |q|
      ensures !Edge(g, u, q[i])
    {
      NoEdgeInto(g, m, q[i], u);
    }
  }

  lemma NoEdgeInto<V(!new)>(g: Graph<V>, m: map<V, int>, v: V, u: V)
    requires Degrees(g, g.Keys, m) && v in m && m[v] == 0
    ensures !Edge(g, u, v)
  {
    hide InDegree;
    ZeroIff(g, g.Keys, v);
  }

  /** Taking a vertex off the queue: its edges are still counted. */
  lemma Popped<V(!new)>(g: Graph<V>, m: map<V, int>, done: seq<V>, u: V)
    requires Counts(g, done, [], m) && u !in done
    ensures Counts(g, done + [u], if u in g then g[u] else [], m)
  {
    hide InDegree, Times;
    TimesNone<V>();
    var left, less := Left(g, done), Left(g, done + [u]);
    if u in g {
      assert less == left - {u};
      forall v
        ensures InDegree(g, left, v) == Times(g[u], v) + InDegree(g, less, v)
      {
        InDegreeWithout(g, left, u, v);
      }
    } else {
      assert less == left;
    }
  }

  /** Taking one edge off: the target is queued when nothing leads to it any more. */
  lemma EdgeOff<V(!new)>(g: Graph<V>, m: map<V, int>, done: seq<V>, q: seq<V>, edges: seq<V>)
    requires edges != [] && Counts(g, done, edges, m) && Queue(g, m, done + q)
    ensures edges[0] in m
    ensures var e := edges[0];
            var m' := m[e := m[e] - 1];
            && Counts(g, done, edges[1..], m')
            && Queue(g, m', if m'[e] == 0 then done + (q + [e]) else done + q)
  {
    hide InDegree, Times, Forward;
    var e := edges[0];
    FirstOff(edges);
    assert Degree(m, e) == InDegree(g, Left(g, done), e) + Times(edges, e);
    var m' := m[e := m[e] - 1];
    assert e !in done + q;
    if m'[e] == 0 {
      assert done + (q + [e]) == (done + q) + [e];
      QueueForward(g, done, q, e);
    }
  }

  lemma FirstOff<V(!new)>(edges: seq<V>)
    requires edges != []
    ensures forall v :: Times(edges, v) == Times(edges[1..], v) + if v == edges[0] then 1 else 0
  {
    assert edges == [edges[0]] + edges[1..];
    forall v
      ensures Times(edges, v) == Times(edges[1..], v) + if v == edges[0] then 1 else 0
    {
      TimesConcat([edges[0]], edges[1..], v);
      assert Times([edges[0]], v) == Times([], v) + if edges[0] == v then 1 else 0;
    }
  }

  /** A vertex no unprocessed key leads to has all its predecessors in the list. */
  lemma QueueForward<V(!new)>(g: Graph<V>, done: seq<V>, q: seq<V>, e: V)
    requires Forward(g, done + q) && InDegree(g, Left(g, done), e) == 0
    ensures Forward(g, done + q + [e])
  {
    hide InDegree;
    ZeroIff(g, Left(g, done), e);
    var o := done + q;
    var all := o + [e];
    forall i, u | 0 <= i < |all| && Edge(g, u, all[i])
      ensures u in all[..i]
    {
      if i < |o| {
        assert all[i] == o[i] && all[..i] == o[..i];
      } else {
        assert u !in Left(g, done);
        assert all[..i] == o;
      }
    }
  }

  /** The third loop, for one vertex: its edges are taken off, targets without other edges queued. */
  method TakeEdges<V(==, !new)>(g: Graph<V>, m0: map<V, int>, done: seq<V>, q0: seq<V>, edges: seq<V>)
    returns (m: map<V, int>, q: seq<V>)
    requires Counts(g, done, edges, m0) && Queue(g, m0, done + q0)
    ensures Counts(g, done, [], m) && Queue(g, m, done + q) && m.Keys == m0.Keys
  {
    hide Counts, Queue;
    m, q := m0, q0;
    for j := 0 to |edges|
      invariant Counts(g, done, edges[j..], m) && Queue(g, m, done + q) && m.Keys == m0.Keys
    {
      EdgeOff(g, m, done, q, edges[j..]);
      assert edges[j..][1..] == edges[j + 1..];
      var e := edges[j];
      m := m[e := m[e] - 1];
      if m[e] == 0 {
        q := q + [e];
      }
    }
  }

  /** topological_sort with an empty output list: true exactly when the graph has a cycle; otherwise the
      list holds every vertex once, every edge forward. The map has grown by the vertices met that were
      no keys. */
  method Sort<V(==, !new)>(g: Graph<V>) returns (cyclic: bool, dag: Graph<V>, order: seq<V>)
    ensures cyclic <==> HasCycle(g)
    ensures !cyclic ==> Distinct(order) && Forward(g, order) && forall v :: v in order <==> Vertex(g, v)
    ensures Grown(g, dag, order)
  {
    hide Degrees, Counts, Queue, InDegree, Times, Forward, HasCycle, Grown, Vertex;
    var m := CountDegrees(g);
    var q := InitialQueue(g, m);
    dag, order := g, [];
    StartCounts(g, m);
    StartGrown(g);
    ghost var keys, seen: set<V> := m.Keys, {};
    assert [] + q == q;
    while q != []
      invariant Counts(g, order, [], m) && Queue(g, m, order + q) && Grown(g, dag, order) && m.Keys == keys
      invariant forall v :: v in seen ==> v in order
      decreases keys - seen
    {
      var u := q[0];
      FrontFresh(g, m, order, q);
      Popped(g, m, order, u);
      GrownMore(g, dag, order, u);
      var edges := if u in dag then dag[u] else [];
      dag := dag[u := edges];
      assert order + q == (order + [u]) + q[1..];
      order, q := order + [u], q[1..];
      m, q := TakeEdges(g, m, order, q, edges);
      seen := seen + {u};
    }
    assert order + q == order;
    cyclic := |order| != |dag|;
    Finished(g, m, order, dag);
  }

  lemma StartCounts<V(!new)>(g: Graph<V>, m: map<V, int>)
    requires Degrees(g, g.Keys, m)
    ensures Counts(g, [], [], m)
  {
    hide InDegree, Times;
    TimesNone<V>();
    assert Left(g, []) == g.Keys;
  }

  lemma StartGrown<V(!new)>(g: Graph<V>)
    ensures Grown(g, g, [])
  {
  }

  lemma FrontFresh<V(!new)>(g: Graph<V>, m: map<V, int>, done: seq<V>, q: seq<V>)
    requires Queue(g, m, done + q) && q != []
    ensures q[0] !in done && q[0] in m
  {
    hide Forward;
    assert (done + q)[|done|] == q[0];
    forall k | 0 <= k < |done|
      ensures done[k] != q[0]
    {
      assert (done + q)[k] == done[k];
    }
  }

  lemma GrownMore<V(!new)>(g: Graph<V>, dag: Graph<V>, done: seq<V>, u: V)
    requires Grown(g, dag, done) && u !in done
    ensures var edges := if u in dag then dag[u] else [];
            edges == (if u in g then g[u] else []) && Grown(g, dag[u := edges], done + [u])
  {
  }

  /** The sizes agree exactly when every key was processed. */
  lemma SizesAgree<V(!new)>(g: Graph<V>, dag: Graph<V>, order: seq<V>)
    requires Grown(g, dag, order) && Distinct(order)
    ensures |order| == |dag| <==> forall u :: u in g ==> u in order
  {
    hide Distinct;
    SizeOf(order);
    assert dag.Keys == g.Keys + Elements(order);
    SubsetSize(Elements(order), dag.Keys);
    assert |dag| == |dag.Keys|;
    assert g.Keys <= Elements(order) <==> forall u :: u in g ==> u in order;
  }

  lemma Finished<V(!new)>(g: Graph<V>, m: map<V, int>, order: seq<V>, dag: Graph<V>)
    requires Counts(g, order, [], m) && Queue(g, m, order) && Grown(g, dag, order)
    requires forall v :: v in m <==> Vertex(g, v)
    ensures |order| != |dag| <==> HasCycle(g)
    ensures Distinct(order) && Forward(g, order)
    ensures !HasCycle(g) ==> forall v :: v in order <==> Vertex(g, v)
  {
    hide InDegree, Times, HasCycle, Forward, Vertex, Grown;
    SizesAgree(g, dag, order);
    if forall u :: u in g ==> u in order {
      ForwardNoCycle(g, order);
      AllDone(g, m, order);
    } else {
      var s := Left(g, order);
      var u :| u in g && u !in order;
      assert u in s;
      StuckLeft(g, m, order);
      StuckHasCycle(g, s);
    }
  }

  lemma AllDone<V(!new)>(g: Graph<V>, m: map<V, int>, order: seq<V>)
    requires Counts(g, order, [], m) && Queue(g, m, order) && forall u :: u in g ==> u in order
    ensures forall v :: v in m <==> v in order
  {
    TimesNone<V>();
    assert Left(g, order) == {};
    forall v | v in m
      ensures v in order
    {
      assert Degree(m, v) == InDegree(g, Left(g, order), v) + Times([], v);
    }
  }

  lemma StuckLeft<V(!new)>(g: Graph<V>, m: map<V, int>, order: seq<V>)
    requires Counts(g, order, [], m) && Queue(g, m, order) && forall v :: v in m <==> Vertex(g, v)
    ensures Stuck(g, Left(g, order))
  {
    hide InDegree, Times, Forward;
    var s := Left(g, order);
    TimesNone<V>();
    forall x | x in s
      ensures HasPred(g, s, x)
    {
      assert Vertex(g, x);
      assert Degree(m, x) == InDegree(g, s, x) + Times([], x);
      ZeroIff(g, s, x);
      var u :| u in s && x in g[u];
      assert Edge(g, u, x);
    }
  }
}
