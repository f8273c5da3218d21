/**
 Relinking the recovered flush graph (the end of `IndexCPContext::recover`).

 The graph rebuilt from the transaction journal may contain links to freed buffers. Recovery walks
 over all buffers, in the order of their block ids, and moves each such link to the nearest
 ancestor that was not freed. Links are moved in place while the walk goes on.
 */
module Recovery {

  import opened Options
  import opened FlushGraph
  import opened LinkGraph

  /** Every link leads to a buffer of smaller depth. */
  ghost predicate Descends<B>(g: Graph<B>, depth: map<B, nat>) {
    forall b :: b in g ==>
      && b in depth
      && (g[b].up.Some? ==> g[b].up.value in g && g[b].up.value in depth && depth[g[b].up.value] < depth[b])
  }

  /** The first buffer on the way up from `o`, `o` included, that is not freed. */
  ghost function Nearest<B>(g: Graph<B>, depth: map<B, nat>, o: Option<B>): (r: Option<B>)
    requires Descends(g, depth) && (o.Some? ==> o.value in g)
    ensures r.Some? ==> r.value in g && !g[r.value].freed && o.Some? && depth[r.value] <= depth[o.value]
    decreases if o.Some? then depth[o.value] + 1 else 0
  {
    if o == None || !g[o.value].freed then o else Nearest(g, depth, g[o.value].up)
  }

  /** The nearest unfreed buffer strictly above `b`. */
  ghost function Ancestor<B>(g: Graph<B>, depth: map<B, nat>, b: B): Option<B>
    requires Descends(g, depth) && b in g
  {
    Nearest(g, depth, g[b].up)
  }

  /** modifyBuffer. None: it dereferences the null buffer above the last ancestor. */
  ghost function Relink<B>(g: Graph<B>, depth: map<B, nat>, b: B): Option<Graph<B>>
    requires Descends(g, depth) && b in g
  {
    var target := Ancestor(g, depth, b);
    if target == g[b].up then Some(g)
    else if target == None then None
    else Some(Move(g, b, target.value))
  }

  /** The loop over the buffer map. */
  ghost function RelinkAll<B(!new)>(g: Graph<B>, depth: map<B, nat>, order: seq<B>): Option<Graph<B>> {
    if order == [] then Some(g)
    else
      var h := RelinkAll(g, depth, order[..|order| - 1]);
      var b := order[|order| - 1];
      if h.Some? && Descends(h.value, depth) && b in h.value then Relink(h.value, depth, b) else h
  }

  // ---------- relinking one buffer changes no ancestor ----------

  /** `h` is `g` with the link of `b` moved to its ancestor. */
  ghost predicate Moved<B>(g: Graph<B>, h: Graph<B>, depth: map<B, nat>, b: B)
    requires Descends(g, depth) && b in g
  {
    && h.Keys == g.Keys
    && (forall x :: x in g ==> h[x].freed == g[x].freed)
    && (forall x :: x in g ==> h[x].up == if x == b then Ancestor(g, depth, b) else g[x].up)
  }

  lemma {:induction false} NearestKept<B>(g: Graph<B>, h: Graph<B>, depth: map<B, nat>, b: B, o: Option<B>)
    requires Descends(g, depth) && Descends(h, depth) && b in g && Moved(g, h, depth, b)
    requires o.Some? ==> o.value in g
    ensures Nearest(h, depth, o) == Nearest(g, depth, o)
    decreases if o.Some? then depth[o.value] + 1 else 0
  {
    if o.Some? && g[o.value].freed && o.value != b {
      NearestKept(g, h, depth, b, g[o.value].up);
    }
  }

  lemma AncestorsKept<B(!new)>(g: Graph<B>, h: Graph<B>, depth: map<B, nat>, b: B)
    requires Descends(g, depth) && b in g && Moved(g, h, depth, b)
    ensures Descends(h, depth)
    ensures forall x :: x in g ==> Ancestor(h, depth, x) == Ancestor(g, depth, x)
  {
    forall x | x in g ensures Ancestor(h, depth, x) == Ancestor(g, depth, x) {
      NearestKept(g, h, depth, b, h[x].up);
      if x == b && h[b].up.Some? {
        assert Nearest(g, depth, h[b].up) == h[b].up;
      }
    }
  }

  /** `h` is a state of the walk over `g`: buffers of `seen` are relinked, the others are not. */
  ghost predicate Partly<B(!new)>(g: Graph<B>, h: Graph<B>, depth: map<B, nat>, seen: set<B>)
    requires Descends(g, depth)
  {
    && h.Keys == g.Keys && Descends(h, depth) && CountsMatch(h)
    && (forall x :: x in g ==> h[x].freed == g[x].freed)
    && (forall x :: x in g ==> Ancestor(h, depth, x) == Ancestor(g, depth, x))
    && (forall x :: x in g ==> h[x].up == if x in seen then Ancestor(g, depth, x) else g[x].up)
  }

  lemma AncestorInside<B(!new)>(g: Graph<B>, depth: map<B, nat>, b: B)
    requires Descends(g, depth) && b in g
    ensures var r := Ancestor(g, depth, b); r.Some? ==> r.value in g && g[b].up.Some?
  {
  }

  lemma RelinkKeeps<B(!new)>(g: Graph<B>, h: Graph<B>, depth: map<B, nat>, seen: set<B>, b: B)
    requires Descends(g, depth) && Partly(g, h, depth, seen) && b in g
    ensures Relink(h, depth, b).Some? <==> b in seen || g[b].up == None || Ancestor(g, depth, b).Some?
    ensures Relink(h, depth, b).Some? ==> Partly(g, Relink(h, depth, b).value, depth, seen + {b})
  {
    hide Move, CountsMatch, Ancestor, Nearest;
    var target := Ancestor(h, depth, b);
    AncestorInside(h, depth, b);
    if target != h[b].up && target.Some? {
      MoveEffect(h, b, target.value);
      MoveCounts(h, b, target.value);
      AncestorsKept(h, Move(h, b, target.value), depth, b);
    }
  }

  // ---------- the whole walk ----------

  lemma {:induction false} WalkKeeps<B(!new)>(g: Graph<B>, depth: map<B, nat>, order: seq<B>)
    requires Descends(g, depth) && CountsMatch(g)
    requires forall b :: b in order ==> b in g
    ensures var r := RelinkAll(g, depth, order);
            && (r.Some? <==> forall b :: b in order && g[b].up.Some? ==> Ancestor(g, depth, b).Some?)
            && (r.Some? ==> Partly(g, r.value, depth, (set b | b in order)))
  {
    hide Relink, CountsMatch, Ancestor, Nearest;
    if order != [] {
      var n := |order| - 1;
      var b := order[n];
      var r := RelinkAll(g, depth, order[..n]);
      WalkKeeps(g, depth, order[..n]);
      assert order == order[..n] + [b];
      assert (set x | x in order) == (set x | x in order[..n]) + {b};
      if r.Some? {
        RelinkKeeps(g, r.value, depth, (set x | x in order[..n]), b);
      }
    }
  }

  /** Whatever the order of the walk: it dereferences null if and only if some linked buffer has no
      unfreed ancestor; otherwise every buffer ends up linked to its nearest unfreed ancestor in
      the original graph, every count is the number of links, and nothing waits in a freed buffer. */
  lemma RelinkRun<B(!new)>(g: Graph<B>, depth: map<B, nat>, order: seq<B>)
    requires Descends(g, depth) && CountsMatch(g)
    requires forall b :: b in order <==> b in g
    ensures var r := RelinkAll(g, depth, order);
            && (r.Some? <==> forall b :: b in g && g[b].up.Some? ==> Ancestor(g, depth, b).Some?)
            && (r.Some? ==>
                  && r.value.Keys == g.Keys
                  && (forall b :: b in g ==> r.value[b].up == Ancestor(g, depth, b))
                  && CountsMatch(r.value)
                  && (forall b :: b in g && g[b].freed ==> r.value[b].wait == 0))
  {
    WalkKeeps(g, depth, order);
    var r := RelinkAll(g, depth, order);
    if r.Some? {
      forall b | b in g && g[b].freed ensures r.value[b].wait == 0 {
        assert Below(r.value, r.value.Keys, b) == {};
      }
    }
  }

  /** A buffer below a freed one that has nothing above it. No replayed journal contains this. */
  ghost function Orphan(): Graph<int> {
    map[1 := Buf(Some(2), 0, Clean, 7, 0, false), 2 := Buf(None, 1, Clean, 7, 0, true)]
  }

  lemma OrphanFails()
    ensures CountsMatch(Orphan()) && RelinkAll(Orphan(), map[1 := 1, 2 := 0], [1, 2]) == None
  {
    var g, depth: map<int, nat> := Orphan(), map[1 := 1, 2 := 0];
    assert Below(g, g.Keys, 1) == {};
    assert Below(g, g.Keys, 2) == {1};
    assert Nearest(g, depth, Some(2)) == Nearest(g, depth, None) == None;
    assert g[1].up.Some? && Ancestor(g, depth, 1) == None;
    RelinkRun(g, depth, [1, 2]);
  }
}
