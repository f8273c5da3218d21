/**
 Rebuilding the flush graph from the transaction journal.

 Every structural B-tree change calls `transact_bufs`, which links the buffers involved and appends
 a record to the journal of the checkpoint. After a crash `process_txn_record` replays the records
 into a fresh buffer map. The replay links more buffers than the running system did, and it links
 around buffers that are already freed, so the two graphs differ; what recovery needs is that every
 surviving buffer still has the same nearest unfreed ancestor.
 */
module Replay {

  import opened Options
  import opened Sequences
  import opened FlushGraph
  import opened LinkGraph
  import opened Recovery

  /** The arguments of transact_bufs. */
  datatype Txn<B> = Txn(parent: Option<B>, child: B, created: seq<B>, freed: seq<B>)

  /** A journal record as the replay sees it. */
  datatype Record<B> = Record(parent: Option<B>, child: Option<B>, created: seq<B>, freed: seq<B>)

  // ---------- the running system ----------

  ghost function MoveTo<B(!new)>(g: Graph<B>, b: B, up: B): Graph<B>
    requires b in g && up in g && Closed(g)
  {
    if g[b].up == Some(up) then g else Move(g, b, up)
  }

  ghost function MarkFreed<B(!new)>(g: Graph<B>, b: B): Graph<B>
    requires b in g
  {
    g[b := g[b].(freed := true)]
  }

  /** The link that transact_bufs makes for a new node. */
  ghost function LinkNew<B(!new)>(g: Graph<B>, id: int, child: B, b: B): Graph<B> {
    if CanLink(g, id, child, b) then Link(g, id, child, b, true) else g
  }

  /** The link that transact_bufs makes for a freed node: only if something still waits in it. The
      flag was set by free_buf; link_buf does not read it. */
  ghost function LinkFreed<B(!new)>(g: Graph<B>, id: int, child: B, b: B): Graph<B> {
    if !CanLink(g, id, child, b) then g
    else MarkFreed(if g[b].wait != 0 then Link(g, id, child, b, true) else g, b)
  }

  ghost function LinkNews<B(!new)>(g: Graph<B>, id: int, child: B, bs: seq<B>): Graph<B> {
    if bs == [] then g else LinkNew(LinkNews(g, id, child, bs[..|bs| - 1]), id, child, bs[|bs| - 1])
  }

  ghost function LinkFreeds<B(!new)>(g: Graph<B>, id: int, child: B, bs: seq<B>): Graph<B> {
    if bs == [] then g else LinkFreed(LinkFreeds(g, id, child, bs[..|bs| - 1]), id, child, bs[|bs| - 1])
  }

  ghost function LinkParent<B(!new)>(g: Graph<B>, id: int, t: Txn<B>): Graph<B> {
    if t.parent.Some? && CanLink(g, id, t.parent.value, t.child) then Link(g, id, t.parent.value, t.child, false) else g
  }

  /** transact_bufs: the new graph and the record it journals. */
  ghost function Transact<B(!new)>(g: Graph<B>, id: int, t: Txn<B>): (r: (Graph<B>, Record<B>))
    requires t.child in g
  {
    var g1 := LinkParent(g, id, t);
    var g3 := LinkFreeds(LinkNews(g1, id, t.child, t.created), id, t.child, t.freed);
    (g3,
     if t.created == [] && t.freed == [] then
       if g[t.child].createdCp < id then Record(t.parent, Some(t.child), [], [])
       else Record(t.parent, None, [t.child], [])
     else
       // the source reads child->m_up_buffer after the links were made
       Record(if t.child in g3 then g3[t.child].up else None, Some(t.child), t.created, t.freed))
  }

  // ---------- the replay ----------

  /** The buffer map that the replay fills. `created`: the buffers that it has marked as created in
      the checkpoint being recovered. */
  datatype Replayed<!B> = Replayed(g: Graph<B>, created: set<B>)

  /** The buffer that rec_to_buf links to when it is given `up`. */
  ghost function ReplayUp<B(!new)>(r: Replayed<B>, up: B): Option<B>
    requires up in r.g
  {
    if up in r.created || r.g[up].freed then r.g[up].up else Some(up)
  }

  ghost predicate CanReplay<B(!new)>(r: Option<Replayed<B>>, b: B, up: Option<B>) {
    r.Some? && Closed(r.value.g) && b in r.value.g && (up.Some? ==> up.value in r.value.g)
  }

  /** rec_to_buf: link `b` below `up`, if there is one. None: a null dereference. */
  ghost function RecToBuf<B(!new)>(r: Option<Replayed<B>>, b: B, up: Option<B>): (h: Option<Replayed<B>>)
    ensures h.Some? ==> b in h.value.g
  {
    if !CanReplay(r, b, up) then None
    else if up == None then r
    else
      var target := ReplayUp(r.value, up.value);
      if target == None then None else Some(r.value.(g := MoveTo(r.value.g, b, target.value)))
  }

  /** rec_to_buf for a created buffer, which is then marked as created in this checkpoint. */
  ghost function ReplayNew<B(!new)>(r: Option<Replayed<B>>, up: Option<B>, b: B): Option<Replayed<B>> {
    var h := RecToBuf(r, b, up);
    if h == None then None else Some(h.value.(created := h.value.created + {b}))
  }

  ghost function ReplayFreed<B(!new)>(r: Option<Replayed<B>>, up: Option<B>, b: B): Option<Replayed<B>> {
    var h := RecToBuf(r, b, up);
    if h == None then None else Some(h.value.(g := MarkFreed(h.value.g, b)))
  }

  ghost function ReplayNews<B(!new)>(r: Option<Replayed<B>>, up: Option<B>, bs: seq<B>): Option<Replayed<B>> {
    if bs == [] then r else ReplayNew(ReplayNews(r, up, bs[..|bs| - 1]), up, bs[|bs| - 1])
  }

  ghost function ReplayFreeds<B(!new)>(r: Option<Replayed<B>>, up: Option<B>, bs: seq<B>): Option<Replayed<B>> {
    if bs == [] then r else ReplayFreed(ReplayFreeds(r, up, bs[..|bs| - 1]), up, bs[|bs| - 1])
  }

  /** process_txn_record: child, then created, then freed buffers. */
  ghost function ReplayRecord<B(!new)>(r: Option<Replayed<B>>, rec: Record<B>): Option<Replayed<B>> {
    var up := if rec.child.Some? then rec.child else rec.parent;
    var r1 := if rec.child.Some? then RecToBuf(r, rec.child.value, rec.parent) else r;
    ReplayFreeds(ReplayNews(r1, up, rec.created), up, rec.freed)
  }

  // ---------- facts about the nearest unfreed ancestor ----------

  /** Only the links of freed buffers are followed. */
  lemma {:induction false} NearestOfFreed<B>(g: Graph<B>, h: Graph<B>, depth: map<B, nat>, o: Option<B>)
    requires Descends(g, depth) && Descends(h, depth) && g.Keys == h.Keys && (o.Some? ==> o.value in g)
    requires forall b :: b in g ==> h[b].freed == g[b].freed && (g[b].freed ==> h[b].up == g[b].up)
    ensures Nearest(h, depth, o) == Nearest(g, depth, o)
    decreases if o.Some? then depth[o.value] + 1 else 0
  {
    if o.Some? && g[o.value].freed {
      NearestOfFreed(g, h, depth, g[o.value].up);
    }
  }

  /** Freeing `f` replaces it, as an ancestor, by its own ancestor. */
  lemma {:induction false} NearestAfterFree<B>(g: Graph<B>, h: Graph<B>, depth: map<B, nat>, f: B, o: Option<B>)
    requires Descends(g, depth) && Descends(h, depth) && g.Keys == h.Keys && (o.Some? ==> o.value in g)
    requires f in g && !g[f].freed
    requires forall b :: b in g ==> h[b].up == g[b].up && h[b].freed == (g[b].freed || b == f)
    ensures Nearest(h, depth, o) ==
            if Nearest(g, depth, o) == Some(f) then Ancestor(g, depth, f) else Nearest(g, depth, o)
    decreases if o.Some? then depth[o.value] + 1 else 0
  {
    if o.Some? && h[o.value].freed {
      NearestAfterFree(g, h, depth, f, g[o.value].up);
    }
  }

  /** A buffer that is somebody's ancestor has a link to it. */
  lemma {:induction false} ReachedIsLinked<B(!new)>(g: Graph<B>, depth: map<B, nat>, b: B, f: B)
    requires Descends(g, depth) && b in g && Ancestor(g, depth, b) == Some(f)
    ensures Below(g, g.Keys, f) != {}
    decreases depth[b]
  {
    if g[b].up == Some(f) {
      assert b in Below(g, g.Keys, f);
    } else {
      ReachedIsLinked(g, depth, g[b].up.value, f);
    }
  }

  // ---------- the relation between the two graphs ----------

  ghost predicate Relevant<B(!new)>(g: Graph<B>, b: B)
    requires b in g
  {
    !g[b].freed || Below(g, g.Keys, b) != {}
  }

  ghost predicate SameShape<B(!new)>(g: Graph<B>, r: Graph<B>, depth: map<B, nat>) {
    && g.Keys == r.Keys && Descends(g, depth) && Descends(r, depth)
    && (forall b :: b in g ==> r[b].freed == g[b].freed)
    && (forall b :: b in g && !g[b].freed ==> (r[b].up.Some? <==> g[b].up.Some?))
  }

  ghost predicate SameAncestors<B(!new)>(g: Graph<B>, r: Graph<B>, depth: map<B, nat>, off: set<B>)
    requires g.Keys == r.Keys && Descends(g, depth) && Descends(r, depth)
  {
    forall b :: b in g && b !in off && Relevant(g, b) ==> Ancestor(r, depth, b) == Ancestor(g, depth, b)
  }

  /** Every linked or freed buffer has an unfreed ancestor. */
  ghost predicate Anchored<B(!new)>(r: Graph<B>, depth: map<B, nat>)
    requires Descends(r, depth)
  {
    forall b :: b in r && (r[b].freed || r[b].up.Some?) ==> Ancestor(r, depth, b).Some?
  }

  /** `g`: the graph of the running system. `r`: the replayed graph. They agree outside `off`. */
  ghost predicate Agree<B(!new)>(g: Graph<B>, r: Graph<B>, depth: map<B, nat>, off: set<B>) {
    SameShape(g, r, depth) && SameAncestors(g, r, depth, off) && Anchored(r, depth)
  }

  /** `h` is `g` with the link of `b` set to `up`. */
  ghost predicate UpSet<B(!new)>(g: Graph<B>, h: Graph<B>, b: B, up: Option<B>) {
    && h.Keys == g.Keys
    && (forall x :: x in g ==> h[x].freed == g[x].freed)
    && (forall x :: x in g ==> h[x].up == if x == b then up else g[x].up)
  }

  ghost predicate CreatedKept<B(!new)>(g: Graph<B>, h: Graph<B>) {
    h.Keys == g.Keys && forall x :: x in g ==> h[x].createdCp == g[x].createdCp
  }

  lemma MoveToEffect<B(!new)>(g: Graph<B>, b: B, up: B)
    requires Closed(g) && CountsMatch(g) && b in g && up in g
    ensures UpSet(g, MoveTo(g, b, up), b, Some(up)) && CountsMatch(MoveTo(g, b, up))
    ensures CreatedKept(g, MoveTo(g, b, up))
  {
    hide Move, CountsMatch;
    MoveEffect(g, b, up);
    MoveCounts(g, b, up);
  }

  lemma AncestorsAfterSet<B(!new)>(g: Graph<B>, h: Graph<B>, depth: map<B, nat>, b: B, up: B)
    requires Descends(g, depth) && b in g && !g[b].freed && up in g && up in depth && depth[up] < depth[b]
    requires UpSet(g, h, b, Some(up))
    ensures Descends(h, depth)
    ensures forall x :: x in g ==>
      Ancestor(h, depth, x) == if x == b then Nearest(g, depth, Some(up)) else Ancestor(g, depth, x)
  {
    forall x | x in g
      ensures Ancestor(h, depth, x) == if x == b then Nearest(g, depth, Some(up)) else Ancestor(g, depth, x)
    {
      NearestOfFreed(g, h, depth, h[x].up);
    }
  }

  lemma RelevantAfterSet<B(!new)>(g: Graph<B>, h: Graph<B>, b: B, up: B)
    requires b in g && up in g && UpSet(g, h, b, Some(up)) && Relevant(g, up)
    ensures forall x :: x in g && Relevant(h, x) ==> Relevant(g, x)
  {
    forall x | x in g && Relevant(h, x) ensures Relevant(g, x) {
      if g[x].freed && x != up {
        var y :| y in Below(h, h.Keys, x);
        assert y in Below(g, g.Keys, x);
      }
    }
  }

  lemma SetSameAncestors<B(!new)>(
    g: Graph<B>, r: Graph<B>, g': Graph<B>, r': Graph<B>, depth: map<B, nat>, off: set<B>, b: B, up: B, up': B)
    requires g.Keys == r.Keys && Descends(g, depth) && Descends(r, depth) && SameAncestors(g, r, depth, off)
    requires b in g && !g[b].freed && !r[b].freed
    requires up in g && up' in g && up in depth && up' in depth && depth[up] < depth[b] && depth[up'] < depth[b]
    requires UpSet(g, g', b, Some(up)) && UpSet(r, r', b, Some(up')) && Relevant(g, up)
    ensures Descends(g', depth) && Descends(r', depth) && SameAncestors(g', r', depth, off + {b})
    ensures Nearest(g, depth, Some(up)) == Nearest(r, depth, Some(up')) ==> SameAncestors(g', r', depth, off - {b})
  {
    hide Nearest, Ancestor, Relevant, Descends;
    AncestorsAfterSet(g, g', depth, b, up);
    AncestorsAfterSet(r, r', depth, b, up');
    RelevantAfterSet(g, g', b, up);
    hide UpSet;
  }

  lemma SetSameShape<B(!new)>(g: Graph<B>, r: Graph<B>, g': Graph<B>, r': Graph<B>, depth: map<B, nat>, b: B, up: B,
                       up': B)
    requires SameShape(g, r, depth) && Descends(g', depth) && Descends(r', depth)
    requires UpSet(g, g', b, Some(up)) && UpSet(r, r', b, Some(up'))
    ensures SameShape(g', r', depth)
  {
    hide Descends;
  }

  lemma SetAnchored<B(!new)>(r: Graph<B>, r': Graph<B>, depth: map<B, nat>, b: B, up: B)
    requires Descends(r, depth) && Anchored(r, depth) && b in r && !r[b].freed
    requires up in r && up in depth && depth[up] < depth[b]
    requires UpSet(r, r', b, Some(up)) && Nearest(r, depth, Some(up)) != None
    ensures Descends(r', depth) && Anchored(r', depth)
  {
    hide Nearest, Ancestor, Descends;
    AncestorsAfterSet(r, r', depth, b, up);
  }

  /** Linking the same unfreed buffer in both graphs. If the targets have the same nearest ancestor, the
      graphs agree on it. */
  lemma SetBoth<B(!new)>(
    g: Graph<B>, r: Graph<B>, g': Graph<B>, r': Graph<B>, depth: map<B, nat>, off: set<B>, b: B, up: B, up': B)
    requires Agree(g, r, depth, off) && b in g && !g[b].freed
    requires up in g && up' in g && up in depth && up' in depth && depth[up] < depth[b] && depth[up'] < depth[b]
    requires UpSet(g, g', b, Some(up)) && UpSet(r, r', b, Some(up'))
    requires Relevant(g, up) && Nearest(r, depth, Some(up')) != None
    ensures Agree(g', r', depth, off + {b})
    ensures Nearest(g, depth, Some(up)) == Nearest(r, depth, Some(up')) ==> Agree(g', r', depth, off - {b})
  {
    hide Nearest, Ancestor, Relevant, Descends, SameAncestors, Anchored, UpSet;
    SetSameAncestors(g, r, g', r', depth, off, b, up, up');
    SetSameShape(g, r, g', r', depth, b, up, up');
    SetAnchored(r, r', depth, b, up');
  }

  lemma AncestorsAfterFree<B(!new)>(g: Graph<B>, depth: map<B, nat>, f: B)
    requires Descends(g, depth) && f in g && !g[f].freed
    ensures Descends(MarkFreed(g, f), depth)
    ensures forall x :: x in g ==>
      Ancestor(MarkFreed(g, f), depth, x) ==
        if Ancestor(g, depth, x) == Some(f) then Ancestor(g, depth, f) else Ancestor(g, depth, x)
  {
    var h := MarkFreed(g, f);
    forall x | x in g
      ensures Ancestor(h, depth, x) ==
              if Ancestor(g, depth, x) == Some(f) then Ancestor(g, depth, f) else Ancestor(g, depth, x)
    {
      NearestAfterFree(g, h, depth, f, g[x].up);
    }
  }

  lemma RelevantAfterFree<B(!new)>(g: Graph<B>, f: B)
    requires f in g
    ensures forall x :: x in g && Relevant(MarkFreed(g, f), x) ==> Relevant(g, x)
    ensures Relevant(MarkFreed(g, f), f) ==> Below(g, g.Keys, f) != {}
  {
    var h := MarkFreed(g, f);
    forall x | x in g ensures Below(h, h.Keys, x) == Below(g, g.Keys, x) {
    }
  }

  lemma FreeAnchored<B(!new)>(r: Graph<B>, depth: map<B, nat>, f: B)
    requires Descends(r, depth) && Anchored(r, depth) && f in r && !r[f].freed && r[f].up.Some?
    ensures Descends(MarkFreed(r, f), depth) && Anchored(MarkFreed(r, f), depth)
  {
    hide Nearest, Ancestor, Descends;
    AncestorsAfterFree(r, depth, f);
  }

  /** Freeing a buffer in both graphs: either it has the same ancestor in both, or it is nobody's. */
  lemma FreeSameAncestors<B(!new)>(g: Graph<B>, r: Graph<B>, depth: map<B, nat>, off: set<B>, f: B)
    requires g.Keys == r.Keys && Descends(g, depth) && Descends(r, depth) && f in g && !g[f].freed
    requires forall b :: b in g ==> r[b].freed == g[b].freed
    requires forall b :: b in g && b != f && !g[b].freed ==> (r[b].up.Some? <==> g[b].up.Some?)
    requires forall x :: x in g && x != f && x !in off && Relevant(g, x) ==>
      Ancestor(r, depth, x) == Ancestor(g, depth, x)
    requires Ancestor(r, depth, f) == Ancestor(g, depth, f) || Below(g, g.Keys, f) == {}
    ensures SameShape(MarkFreed(g, f), MarkFreed(r, f), depth)
    ensures SameAncestors(MarkFreed(g, f), MarkFreed(r, f), depth, off - {f})
  {
    hide Nearest, Ancestor, Relevant, Descends;
    AncestorsAfterFree(g, depth, f);
    AncestorsAfterFree(r, depth, f);
    RelevantAfterFree(g, f);
    if Below(g, g.Keys, f) == {} {
      forall x | x in g ensures Ancestor(g, depth, x) != Some(f) {
        if Ancestor(g, depth, x) == Some(f) { ReachedIsLinked(g, depth, x, f); }
      }
    }
  }

  lemma FreeBoth<B(!new)>(g: Graph<B>, r: Graph<B>, depth: map<B, nat>, off: set<B>, f: B)
    requires Agree(g, r, depth, off) && f in g && f !in off && !g[f].freed && r[f].up.Some?
    ensures Agree(MarkFreed(g, f), MarkFreed(r, f), depth, off - {f})
  {
    assert Relevant(g, f);
    FreeSameAncestors(g, r, depth, off, f);
    FreeAnchored(r, depth, f);
  }

  /** Freeing a buffer in which nothing waits: the replay links it first, the running system does
      not. No other buffer has it as an ancestor. */
  lemma FreeUnlinked<B(!new)>(g: Graph<B>, r: Graph<B>, r': Graph<B>, depth: map<B, nat>, off: set<B>, f: B, up': B)
    requires Agree(g, r, depth, off) && f in g && !g[f].freed && Below(g, g.Keys, f) == {}
    requires up' in r && up' in depth && depth[up'] < depth[f] && UpSet(r, r', f, Some(up'))
    requires Nearest(r, depth, Some(up')) != None
    ensures Agree(MarkFreed(g, f), MarkFreed(r', f), depth, off - {f})
  {
    AncestorsAfterSet(r, r', depth, f, up');
    SetAnchored(r, r', depth, f, up');
    FreeAnchored(r', depth, f);
    FreeSameAncestors(g, r', depth, off, f);
  }

  // ---------- one transaction ----------

  /** What is known about created buffers: one takes no part in a transaction before the journal has
      announced it. */
  ghost predicate Book<B(!new)>(g: Graph<B>, id: int, known: set<B>) {
    && known <= g.Keys
    && (forall b :: b in g ==> g[b].createdCp <= id)
    && (forall b :: b in known && b in g ==> g[b].createdCp == id)
    && (forall b :: b in g && g[b].createdCp == id && b !in known ==> g[b].up == None && !g[b].freed)
  }

  /** The buffers that a root change made the replay link elsewhere, each with the parent it was given.
      They are unfreed and linked in both graphs; the replay has them below that parent. */
  ghost predicate OffOk<B(!new)>(g: Graph<B>, r: Graph<B>, id: int, off: map<B, B>) {
    forall c :: c in off ==>
      && c in g && c in r && !g[c].freed && g[c].up.Some? && r[c].up.Some?
      && (off[c] in g && g[off[c]].createdCp != id ==> r[c].up == Some(off[c]))
  }

  /** `g`: the running system. `r`: the replay. */
  ghost predicate Rel<B(!new)>(g: Graph<B>, r: Replayed<B>, id: int, depth: map<B, nat>, off: map<B, B>) {
    && Agree(g, r.g, depth, off.Keys) && CountsMatch(g) && CountsMatch(r.g)
    && NoNewTargets(g, id) && Book(g, id, r.created) && OffOk(g, r.g, id, off)
  }

  /** A buffer that others can be linked to: unfreed, and if created in this checkpoint then
      announced and linked itself. */
  ghost predicate Usable<B(!new)>(g: Graph<B>, id: int, known: set<B>, b: B) {
    b in g && !g[b].freed && (g[b].createdCp == id ==> b in known && g[b].up.Some?)
  }

  /** Links made through this buffer go to the same place in both graphs. */
  ghost predicate Steady<B(!new)>(g: Graph<B>, id: int, off: map<B, B>, b: B)
    requires b in g
  {
    g[b].createdCp == id ==> b !in off
  }

  /** Where the two systems really link to, when asked to link to a usable buffer. */
  lemma Targets<B(!new)>(g: Graph<B>, r: Replayed<B>, id: int, depth: map<B, nat>, off: map<B, B>, c: B)
    requires Rel(g, r, id, depth, off) && Usable(g, id, r.created, c)
    ensures c in r.g && Descends(g, depth) && Descends(r.g, depth)
    ensures var t, t' := RealUp(g, id, c), ReplayUp(r, c);
            && t.Some? && t'.Some? && t.value in g && t'.value in r.g && t.value in depth && t'.value in depth
            && c in depth
            && depth[t.value] <= depth[c] && depth[t'.value] <= depth[c]
            && Relevant(g, t.value) && g[t.value].createdCp != id
            && Nearest(r.g, depth, t') != None && (g[c].createdCp != id ==> t' == Some(c))
  {
    if g[c].createdCp == id {
      assert c in Below(g, g.Keys, g[c].up.value);
    }
  }

  lemma TargetsAgree<B(!new)>(g: Graph<B>, r: Replayed<B>, id: int, depth: map<B, nat>, off: map<B, B>, c: B)
    requires Rel(g, r, id, depth, off) && Usable(g, id, r.created, c) && Steady(g, id, off, c)
    requires Descends(g, depth) && Descends(r.g, depth) && c in r.g
    requires var t, t' := RealUp(g, id, c), ReplayUp(r, c); t.Some? && t'.Some? && t.value in g && t'.value in r.g
    ensures Nearest(g, depth, RealUp(g, id, c)) == Nearest(r.g, depth, ReplayUp(r, c))
  {
    assert Relevant(g, c);
  }

  lemma CountsKept<B(!new)>(g: Graph<B>, b: B)
    requires CountsMatch(g) && b in g
    ensures CountsMatch(MarkFreed(g, b))
  {
    var h := MarkFreed(g, b);
    forall u | u in h ensures h[u].wait == |Below(h, h.Keys, u)| {
      assert Below(h, h.Keys, u) == Below(g, g.Keys, u);
    }
  }

  lemma RelShape<B(!new)>(g: Graph<B>, r: Replayed<B>, id: int, depth: map<B, nat>, off: map<B, B>)
    requires Rel(g, r, id, depth, off)
    ensures Closed(g) && Closed(r.g) && g.Keys == r.g.Keys
    ensures forall b :: b in g ==> r.g[b].freed == g[b].freed
  {
  }

  /** The two moves that a link comes down to. */
  lemma LinkBoth<B(!new)>(g: Graph<B>, r: Replayed<B>, id: int, depth: map<B, nat>, off: map<B, B>, c: B, b: B)
    requires Rel(g, r, id, depth, off) && Usable(g, id, r.created, c) && Steady(g, id, off, c)
    requires b in g && !g[b].freed && b in depth && c in depth && depth[c] < depth[b]
    ensures Closed(g) && Closed(r.g) && g.Keys == r.g.Keys
    ensures var t, t' := RealUp(g, id, c), ReplayUp(r, c);
            && t.Some? && t'.Some? && t.value in g && t'.value in r.g
            && var g', r' := MoveTo(g, b, t.value), MoveTo(r.g, b, t'.value);
            && Agree(g', r', depth, (off - {b}).Keys) && CountsMatch(g') && CountsMatch(r') && NoNewTargets(g', id)
            && UpSet(g, g', b, t) && UpSet(r.g, r', b, t') && CreatedKept(g, g') && OffOk(g', r', id, off - {b})
  {
    hide Agree, MoveTo, CountsMatch, Nearest, Relevant;
    RelShape(g, r, id, depth, off);
    Targets(g, r, id, depth, off, c);
    TargetsAgree(g, r, id, depth, off, c);
    var t, t' := RealUp(g, id, c).value, ReplayUp(r, c).value;
    MoveToEffect(g, b, t);
    MoveToEffect(r.g, b, t');
    SetBoth(g, r.g, MoveTo(g, b, t), MoveTo(r.g, b, t'), depth, off.Keys, b, t, t');
    assert (off - {b}).Keys == off.Keys - {b};
    OffAfterSet(g, r.g, MoveTo(g, b, t), MoveTo(r.g, b, t'), id, off, b, Some(t), Some(t'));
  }

  lemma OffAfterSet<B(!new)>(
    g: Graph<B>, r: Graph<B>, g': Graph<B>, r': Graph<B>, id: int, off: map<B, B>, b: B, up: Option<B>, up': Option<B>)
    requires OffOk(g, r, id, off) && UpSet(g, g', b, up) && UpSet(r, r', b, up') && CreatedKept(g, g')
    ensures OffOk(g', r', id, off - {b})
  {
  }

  /** A buffer without a link, such as a new one, is not among those linked elsewhere. */
  lemma NotOff<B(!new)>(g: Graph<B>, r: Graph<B>, id: int, off: map<B, B>, b: B)
    requires OffOk(g, r, id, off) && (b in g && g[b].up.Some? ==> b !in off)
    ensures off - {b} == off
  {
  }

  /** A new node is linked and announced. */
  lemma NewStep<B(!new)>(g: Graph<B>, r: Replayed<B>, id: int, depth: map<B, nat>, off: map<B, B>, c: B, n: B)
    requires Rel(g, r, id, depth, off) && Usable(g, id, r.created, c) && Steady(g, id, off, c)
    requires n in g && g[n].createdCp == id && n !in r.created && n in depth && c in depth && depth[c] < depth[n]
    ensures var g', r' := LinkNew(g, id, c, n), ReplayNew(Some(r), Some(c), n);
            && r'.Some? && Rel(g', r'.value, id, depth, off) && r'.value.created == r.created + {n}
            && UpSet(g, g', n, RealUp(g, id, c)) && CreatedKept(g, g')
  {
    hide CountsMatch, Nearest, Relevant, Agree, Move, NoNewTargets, Closed, OffOk;
    NotOff(g, r.g, id, off, n);
    LinkBoth(g, r, id, depth, off, c, n);
    var t, t' := RealUp(g, id, c).value, ReplayUp(r, c).value;
    assert LinkNew(g, id, c, n) == MoveTo(g, n, t);
    assert ReplayNew(Some(r), Some(c), n).value == Replayed(MoveTo(r.g, n, t'), r.created + {n});
    hide MoveTo;
  }

  ghost predicate AfterFree<B(!new)>(g: Graph<B>, h: Graph<B>, f: B) {
    && CreatedKept(g, h)
    && forall x :: x in g && x != f ==> h[x].up == g[x].up && h[x].freed == g[x].freed
  }

  lemma OffAfterFree<B(!new)>(g: Graph<B>, r: Graph<B>, id: int, off: map<B, B>, f: B)
    requires OffOk(g, r, id, off) && f in g && f in r
    ensures OffOk(MarkFreed(g, f), MarkFreed(r, f), id, off - {f})
  {
  }

  lemma RelAfterFree<B(!new)>(g: Graph<B>, h: Graph<B>, created: set<B>, id: int, depth: map<B, nat>, off: map<B, B>,
                       f: B)
    requires f in g && f in h && Agree(MarkFreed(g, f), MarkFreed(h, f), depth, (off - {f}).Keys)
    requires CountsMatch(g) && CountsMatch(h) && NoNewTargets(g, id) && Book(g, id, created)
    requires OffOk(MarkFreed(g, f), MarkFreed(h, f), id, off - {f})
    requires g[f].createdCp == id ==> f in created
    ensures Rel(MarkFreed(g, f), Replayed(MarkFreed(h, f), created), id, depth, off - {f})
  {
    hide Agree, CountsMatch, OffOk;
    CountsKept(g, f);
    CountsKept(h, f);
  }

  lemma BookAfterSet<B(!new)>(g: Graph<B>, h: Graph<B>, created: set<B>, id: int, b: B, up: Option<B>)
    requires Book(g, id, created) && UpSet(g, h, b, up) && CreatedKept(g, h)
    requires b in g && g[b].createdCp == id ==> b in created
    ensures Book(h, id, created)
  {
  }

  lemma FreedLinkedStep<B(!new)>(g: Graph<B>, r: Replayed<B>, id: int, depth: map<B, nat>, off: map<B, B>, c: B, f: B)
    requires Rel(g, r, id, depth, off) && Usable(g, id, r.created, c) && Steady(g, id, off, c)
    requires f in g && !g[f].freed && (g[f].createdCp == id ==> f in r.created) && f in depth && c in depth
    requires depth[c] < depth[f]
    requires g[f].wait != 0
    ensures var g', r' := LinkFreed(g, id, c, f), ReplayFreed(Some(r), Some(c), f);
            r'.Some? && Rel(g', r'.value, id, depth, off - {f}) && r'.value.created == r.created && AfterFree(g, g', f)
  {
    hide Rel, CountsMatch, Nearest, Relevant, Agree, MoveTo, Closed, NoNewTargets, Book, RealUp, ReplayUp, LinkFreed,
         ReplayFreed, OffOk;
    RelBook(g, r, id, depth, off);
    LinkBoth(g, r, id, depth, off, c, f);
    var t, t' := RealUp(g, id, c).value, ReplayUp(r, c).value;
    var g1, h := MoveTo(g, f, t), MoveTo(r.g, f, t');
    FreeBoth(g1, h, depth, (off - {f}).Keys, f);
    OffAfterFree(g1, h, id, off - {f}, f);
    assert off - {f} - {f} == off - {f} && (off - {f}).Keys - {f} == (off - {f}).Keys;
    BookAfterSet(g, g1, r.created, id, f, Some(t));
    RelAfterFree(g1, h, r.created, id, depth, off, f);
    FreedAre(g, r, id, c, f);
  }

  lemma RelBook<B(!new)>(g: Graph<B>, r: Replayed<B>, id: int, depth: map<B, nat>, off: map<B, B>)
    requires Rel(g, r, id, depth, off)
    ensures Book(g, id, r.created) && CountsMatch(g) && CountsMatch(r.g) && Agree(g, r.g, depth, off.Keys)
    ensures OffOk(g, r.g, id, off)
  {
  }

  /** What the running system and the replay do for a freed node something waits in. */
  lemma FreedAre<B(!new)>(g: Graph<B>, r: Replayed<B>, id: int, c: B, f: B)
    requires Closed(g) && Closed(r.g) && g.Keys == r.g.Keys && c in g && f in g && g[f].wait != 0
    requires var t, t' := RealUp(g, id, c), ReplayUp(r, c); t.Some? && t'.Some? && t.value in g && t'.value in r.g
    requires f in MoveTo(g, f, RealUp(g, id, c).value) && f in MoveTo(r.g, f, ReplayUp(r, c).value)
    ensures LinkFreed(g, id, c, f) == MarkFreed(MoveTo(g, f, RealUp(g, id, c).value), f)
    ensures ReplayFreed(Some(r), Some(c), f) ==
            Some(Replayed(MarkFreed(MoveTo(r.g, f, ReplayUp(r, c).value), f), r.created))
  {
    hide Move, MarkFreed, Closed;
  }

  lemma FreedUnlinkedAgree<B(!new)>(g: Graph<B>, r: Replayed<B>, id: int, depth: map<B, nat>, off: map<B, B>, c: B,
                             f: B)
    requires Rel(g, r, id, depth, off) && Usable(g, id, r.created, c)
    requires f in g && !g[f].freed && f in depth && c in depth && depth[c] < depth[f]
    requires g[f].wait == 0
    ensures Closed(g) && Closed(r.g) && g.Keys == r.g.Keys
    ensures var t' := ReplayUp(r, c);
            t'.Some? && t'.value in r.g &&
            var h := MoveTo(r.g, f, t'.value);
            && f in h && Agree(MarkFreed(g, f), MarkFreed(h, f), depth, (off - {f}).Keys) && CountsMatch(h)
            && OffOk(MarkFreed(g, f), MarkFreed(h, f), id, off - {f})
  {
    hide Rel, Nearest, Relevant, Agree, MoveTo, CountsMatch, OffOk, Usable;
    RelBook(g, r, id, depth, off);
    NothingBelow(g, f);
    Targets(g, r, id, depth, off, c);
    RelShape(g, r, id, depth, off);
    var t' := ReplayUp(r, c).value;
    MoveToEffect(r.g, f, t');
    var h := MoveTo(r.g, f, t');
    FreeUnlinked(g, r.g, h, depth, off.Keys, f, t');
    assert (off - {f}).Keys == off.Keys - {f} && off - {f} - {f} == off - {f};
    OffUnlinked(g, r.g, h, id, off, f, t');
  }

  lemma NothingBelow<B(!new)>(g: Graph<B>, f: B)
    requires CountsMatch(g) && f in g && g[f].wait == 0
    ensures Below(g, g.Keys, f) == {}
  {
  }

  lemma OffUnlinked<B(!new)>(g: Graph<B>, r: Graph<B>, h: Graph<B>, id: int, off: map<B, B>, f: B, up': B)
    requires OffOk(g, r, id, off) && UpSet(r, h, f, Some(up')) && f in g && f in h
    ensures OffOk(MarkFreed(g, f), MarkFreed(h, f), id, off - {f})
  {
  }

  lemma FreedUnlinkedStep<B(!new)>(g: Graph<B>, r: Replayed<B>, id: int, depth: map<B, nat>, off: map<B, B>, c: B, f: B)
    requires Rel(g, r, id, depth, off) && Usable(g, id, r.created, c)
    requires f in g && !g[f].freed && (g[f].createdCp == id ==> f in r.created) && f in depth && c in depth
    requires depth[c] < depth[f]
    requires g[f].wait == 0
    ensures var g', r' := LinkFreed(g, id, c, f), ReplayFreed(Some(r), Some(c), f);
            r'.Some? && Rel(g', r'.value, id, depth, off - {f}) && r'.value.created == r.created && AfterFree(g, g', f)
  {
    hide CountsMatch, Nearest, Relevant, Agree, MoveTo, Closed, NoNewTargets, Book, OffOk;
    FreedUnlinkedAgree(g, r, id, depth, off, c, f);
    var h := MoveTo(r.g, f, ReplayUp(r, c).value);
    RelAfterFree(g, h, r.created, id, depth, off, f);
    assert LinkFreed(g, id, c, f) == MarkFreed(g, f);
    assert ReplayFreed(Some(r), Some(c), f).value == Replayed(MarkFreed(h, f), r.created);
  }

  /** A freed node is linked, in the running system only if something waits in it, and marked. */
  lemma FreedStep<B(!new)>(g: Graph<B>, r: Replayed<B>, id: int, depth: map<B, nat>, off: map<B, B>, c: B, f: B)
    requires Rel(g, r, id, depth, off) && Usable(g, id, r.created, c) && Steady(g, id, off, c)
    requires f in g && !g[f].freed && (g[f].createdCp == id ==> f in r.created) && f in depth && c in depth
    requires depth[c] < depth[f]
    ensures var g', r' := LinkFreed(g, id, c, f), ReplayFreed(Some(r), Some(c), f);
            r'.Some? && Rel(g', r'.value, id, depth, off - {f}) && r'.value.created == r.created && AfterFree(g, g', f)
  {
    hide Rel, LinkFreed, ReplayFreed, AfterFree;
    if g[f].wait != 0 {
      FreedLinkedStep(g, r, id, depth, off, c, f);
    } else {
      FreedUnlinkedStep(g, r, id, depth, off, c, f);
    }
  }

  /** The replay may be given a link target that is freed by now; it ends up below the same ancestor. */
  lemma ThroughRecord<B(!new)>(g: Graph<B>, r: Replayed<B>, id: int, depth: map<B, nat>, off: map<B, B>, u: B)
    requires Rel(g, r, id, depth, off) && u in g && Relevant(g, u) && g[u].createdCp != id
    ensures u in r.g && Descends(g, depth) && Descends(r.g, depth)
    ensures var t' := ReplayUp(r, u);
            && t'.Some? && t'.value in r.g && t'.value in depth && u in depth && depth[t'.value] <= depth[u]
            && Nearest(g, depth, Some(u)) == Nearest(r.g, depth, t') != None
  {
  }

  /** The child of a transaction, linked to `u` in the running system (now or before), is linked by
      the replay through `up'`. */
  lemma ChildSet<B(!new)>(
    g: Graph<B>, g': Graph<B>, r: Replayed<B>, id: int, depth: map<B, nat>, off: map<B, B>, c: B, u: B, up': B)
    requires Rel(g, r, id, depth, off) && c in g && !g[c].freed && Closed(r.g)
    requires u in g && u in depth && c in depth && depth[u] < depth[c] && Relevant(g, u) && g[u].createdCp != id
    requires UpSet(g, g', c, Some(u)) && CreatedKept(g, g') && CountsMatch(g')
    requires up' in r.g && up' in depth && depth[up'] < depth[c] && Descends(g, depth) && Descends(r.g, depth)
    requires Nearest(r.g, depth, Some(up')) != None
    ensures c in r.g && CountsMatch(MoveTo(r.g, c, up')) && NoNewTargets(g', id)
    ensures UpSet(r.g, MoveTo(r.g, c, up'), c, Some(up'))
    ensures Agree(g', MoveTo(r.g, c, up'), depth, off.Keys + {c})
    ensures Nearest(g, depth, Some(u)) == Nearest(r.g, depth, Some(up')) ==>
              Agree(g', MoveTo(r.g, c, up'), depth, (off - {c}).Keys)
    ensures OffOk(g', MoveTo(r.g, c, up'), id, off - {c})
  {
    hide Agree, MoveTo, CountsMatch, Nearest, Relevant;
    RelShape(g, r, id, depth, off);
    MoveToEffect(r.g, c, up');
    SetBoth(g, r.g, g', MoveTo(r.g, c, up'), depth, off.Keys, c, u, up');
    assert (off - {c}).Keys == off.Keys - {c};
    OffAfterSet(g, r.g, g', MoveTo(r.g, c, up'), id, off, c, Some(u), Some(up'));
  }

  /** What transact_bufs is called with: the parent and the child are live, new nodes are new, freed
      nodes are not freed yet, and depth grows from parent to child to new and freed nodes. */
  ghost predicate TxnOk<B(!new)>(g: Graph<B>, known: set<B>, id: int, depth: map<B, nat>, t: Txn<B>) {
    && t.child in g && t.child in depth && !g[t.child].freed
    && (t.parent.Some? ==>
         Usable(g, id, known, t.parent.value) && t.parent.value in depth && depth[t.parent.value] < depth[t.child])
    && (!(t.created == [] && t.freed == []) ==>
          && (g[t.child].createdCp == id ==> t.child in known && (g[t.child].up.Some? || t.parent.Some?))
          && Distinct(t.created + t.freed)
          && (forall n :: n in t.created ==> NewOk(g, known, id, depth, t.child, n))
          && (forall f :: f in t.freed ==> FreeOk(g, known, id, depth, t.child, f)))
  }

  ghost predicate NewOk<B(!new)>(g: Graph<B>, known: set<B>, id: int, depth: map<B, nat>, c: B, n: B) {
    && n in g && n in depth && n != c && g[n].createdCp == id && n !in known
    && c in depth && depth[c] < depth[n]
  }

  ghost predicate FreeOk<B(!new)>(g: Graph<B>, known: set<B>, id: int, depth: map<B, nat>, c: B, f: B) {
    && f in g && f in depth && f != c && !g[f].freed && (g[f].createdCp == id ==> f in known)
    && c in depth && depth[c] < depth[f]
  }

  /** A root change journals the parent it was called with, and the replay links the new root to it
      even if it already has a link. That link must then lead to the same ancestor. */
  ghost predicate RootTxnOk<B(!new)>(g: Graph<B>, id: int, depth: map<B, nat>, t: Txn<B>) {
    t.parent.Some? && t.child in g && g[t.child].up.Some? ==>
      && t.parent.value in g && Descends(g, depth)
      && var target := RealUp(g, id, t.parent.value);
      target.Some? && target.value in g && Nearest(g, depth, g[t.child].up) == Nearest(g, depth, target)
  }

  /** The root changes after which the replay has the new root elsewhere. */
  ghost predicate Displaces<B(!new)>(g: Graph<B>, id: int, depth: map<B, nat>, off: map<B, B>, t: Txn<B>) {
    t.parent.Some? && t.parent.value in g && !(RootTxnOk(g, id, depth, t) && Steady(g, id, off, t.parent.value))
  }

  /** The buffers the replay has elsewhere after a transaction: a root change may add its child, and any
      other transaction puts its child and the nodes it frees right. */
  ghost function OffAfter<B(!new)>(g: Graph<B>, id: int, depth: map<B, nat>, off: map<B, B>, t: Txn<B>): map<B, B> {
    if t.created == [] && t.freed == [] then
      if t.parent == None then off
      else if Displaces(g, id, depth, off, t) then off[t.child := t.parent.value]
      else off - {t.child}
    else off - {t.child} - (set f | f in t.freed)
  }

  lemma LinkParentIs<B(!new)>(g: Graph<B>, r: Replayed<B>, id: int, depth: map<B, nat>, off: map<B, B>, t: Txn<B>)
    requires Rel(g, r, id, depth, off) && TxnOk(g, r.created, id, depth, t)
    ensures var g' := LinkParent(g, id, t);
            && Closed(g)
            && (t.parent == None || g[t.child].up.Some? ==> g' == g)
            && (t.parent.Some? && g[t.child].up == None ==>
                  var u := RealUp(g, id, t.parent.value);
                  && u.Some? && u.value in g && u.value in depth && depth[u.value] < depth[t.child]
                  && Relevant(g, u.value) && g[u.value].createdCp != id
                  && g' == MoveTo(g, t.child, u.value))
  {
    hide Nearest, Relevant, CountsMatch, Agree, Move, OffOk;
    RelShape(g, r, id, depth, off);
    if t.parent.Some? {
      Targets(g, r, id, depth, off, t.parent.value);
    }
  }

  lemma ChildVia<B(!new)>(g: Graph<B>, g': Graph<B>, r: Replayed<B>, id: int, depth: map<B, nat>, off: map<B, B>, c: B,
                   u: B)
    requires Rel(g, r, id, depth, off) && c in g && !g[c].freed && (g[c].createdCp == id ==> c in r.created)
    requires u in g && u in depth && c in depth && depth[u] < depth[c] && Relevant(g, u) && g[u].createdCp != id
    requires UpSet(g, g', c, Some(u)) && CreatedKept(g, g') && CountsMatch(g')
    ensures var r' := RecToBuf(Some(r), c, Some(u));
            r'.Some? && Rel(g', r'.value, id, depth, off - {c}) && r'.value.created == r.created
  {
    hide Nearest, Relevant, CountsMatch, Agree, MoveTo, NoNewTargets, Closed, Book, OffOk, Descends, UpSet, CreatedKept;
    RelShape(g, r, id, depth, off);
    ThroughRecord(g, r, id, depth, off, u);
    ChildSet(g, g', r, id, depth, off, c, u, ReplayUp(r, u).value);
    BookAfterSet(g, g', r.created, id, c, Some(u));
  }

  /** The child is linked before or by this transaction; its record carries its real link. */
  lemma ChildStep<B(!new)>(g: Graph<B>, r: Replayed<B>, id: int, depth: map<B, nat>, off: map<B, B>, t: Txn<B>)
    requires Rel(g, r, id, depth, off) && TxnOk(g, r.created, id, depth, t) && !(t.created == [] && t.freed == [])
    ensures var g' := LinkParent(g, id, t);
            && t.child in g'
            && var r' := RecToBuf(Some(r), t.child, g'[t.child].up);
            && r'.Some? && Rel(g', r'.value, id, depth, off - {t.child}) && r'.value.created == r.created
            && UpSet(g, g', t.child, g'[t.child].up) && CreatedKept(g, g')
            && Usable(g', id, r.created, t.child)
  {
    hide Nearest, Relevant, CountsMatch, Agree, MoveTo, NoNewTargets, LinkParent, RecToBuf, Closed, Book, OffOk;
    LinkParentIs(g, r, id, depth, off, t);
    RelShape(g, r, id, depth, off);
    var g' := LinkParent(g, id, t);
    if t.parent.Some? && g[t.child].up == None {
      var u := RealUp(g, id, t.parent.value).value;
      MoveToEffect(g, t.child, u);
      ChildVia(g, g', r, id, depth, off, t.child, u);
    } else if g[t.child].up.Some? {
      LinkedIsRelevant(g, r, id, depth, off, t.child);
      ChildVia(g, g', r, id, depth, off, t.child, g[t.child].up.value);
    } else {
      NoLink(r, t.child);
      NotOff(g, r.g, id, off, t.child);
    }
  }

  lemma NoLink<B(!new)>(r: Replayed<B>, b: B)
    requires Closed(r.g) && b in r.g
    ensures RecToBuf(Some(r), b, None) == Some(r)
  {
  }

  lemma LinkedIsRelevant<B(!new)>(g: Graph<B>, r: Replayed<B>, id: int, depth: map<B, nat>, off: map<B, B>, b: B)
    requires Rel(g, r, id, depth, off) && b in g && g[b].up.Some?
    ensures var u := g[b].up.value;
            u in g && u in depth && b in depth && depth[u] < depth[b] && Relevant(g, u) && g[u].createdCp != id
  {
    assert b in Below(g, g.Keys, g[b].up.value);
  }

  /** Links of buffers outside `bs`, and all creation stamps, are as before. */
  ghost predicate Frame<B(!new)>(g: Graph<B>, h: Graph<B>, bs: seq<B>) {
    && CreatedKept(g, h)
    && forall x :: x in g && x !in bs ==> h[x].up == g[x].up && h[x].freed == g[x].freed
  }

  lemma {:induction false} NewsStep<B(!new)>(
    g: Graph<B>, r: Replayed<B>, id: int, depth: map<B, nat>, off: map<B, B>, c: B, bs: seq<B>)
    requires Rel(g, r, id, depth, off) && Usable(g, id, r.created, c) && c !in off && Distinct(bs)
    requires forall n :: n in bs ==> NewOk(g, r.created, id, depth, c, n)
    ensures var g', r' := LinkNews(g, id, c, bs), ReplayNews(Some(r), Some(c), bs);
            && r'.Some? && Rel(g', r'.value, id, depth, off) && r'.value.created == r.created + (set n | n in bs)
            && Frame(g, g', bs)
  {
    hide Rel, LinkNew, ReplayNew, RealUp, Frame, Usable, NewOk, CreatedKept;
    FrameNone(g);
    if bs != [] {
      var k := |bs| - 1;
      var n, before := bs[k], bs[..k];
      assert bs == before + [n] && n !in before && NewOk(g, r.created, id, depth, c, n);
      NewsStep(g, r, id, depth, off, c, before);
      var g1, r1 := LinkNews(g, id, c, before), ReplayNews(Some(r), Some(c), before).value;
      ChildAside(g, r.created, id, depth, c, before);
      NewCarried(g, g1, before, r.created, id, depth, c, n);
      NewStep(g1, r1, id, depth, off, c, n);
      FrameMore(g, g1, LinkNew(g1, id, c, n), before, n, RealUp(g1, id, c));
      assert (set x | x in bs) == (set x | x in before) + {n};
    }
  }

  lemma FrameNone<B(!new)>(g: Graph<B>)
    ensures Frame(g, g, [])
  {
  }

  lemma FrameMore<B(!new)>(g: Graph<B>, h: Graph<B>, h': Graph<B>, before: seq<B>, n: B, up: Option<B>)
    requires Frame(g, h, before) && UpSet(h, h', n, up) && CreatedKept(h, h')
    ensures Frame(g, h', before + [n])
  {
  }

  /** The child is none of the new nodes. */
  lemma ChildAside<B(!new)>(g: Graph<B>, known: set<B>, id: int, depth: map<B, nat>, c: B, bs: seq<B>)
    requires forall n :: n in bs ==> NewOk(g, known, id, depth, c, n)
    ensures c !in bs
  {
  }

  /** The links made for the new nodes before `n` leave the child and `n` as they were. */
  lemma NewCarried<B(!new)>(g: Graph<B>, h: Graph<B>, before: seq<B>, known: set<B>, id: int, depth: map<B, nat>, c: B,
                     n: B)
    requires Frame(g, h, before) && Usable(g, id, known, c) && NewOk(g, known, id, depth, c, n) && n !in before
    requires c !in before
    ensures var more := known + (set x | x in before);
            && Usable(h, id, more, c) && NewOk(h, more, id, depth, c, n)
            && n in h && h[n].createdCp == id && n !in more && n in depth && c in depth && depth[c] < depth[n]
  {
  }

  lemma {:induction false} FreedsStep<B(!new)>(
    g: Graph<B>, r: Replayed<B>, id: int, depth: map<B, nat>, off: map<B, B>, c: B, bs: seq<B>)
    requires Rel(g, r, id, depth, off) && Usable(g, id, r.created, c) && c !in off && Distinct(bs)
    requires forall f :: f in bs ==> FreeOk(g, r.created, id, depth, c, f)
    ensures var g', r' := LinkFreeds(g, id, c, bs), ReplayFreeds(Some(r), Some(c), bs);
            && r'.Some? && Rel(g', r'.value, id, depth, off - (set f | f in bs)) && r'.value.created == r.created
            && Frame(g, g', bs)
  {
    hide Rel, LinkFreed, ReplayFreed;
    if bs == [] {
      assert off - (set f | f in bs) == off;
    } else {
      var k := |bs| - 1;
      var f, before := bs[k], bs[..k];
      assert bs == before + [f] && f !in before && FreeOk(g, r.created, id, depth, c, f);
      FreedsStep(g, r, id, depth, off, c, before);
      var g1, r1 := LinkFreeds(g, id, c, before), ReplayFreeds(Some(r), Some(c), before).value;
      assert Usable(g1, id, r1.created, c);
      FreedStep(g1, r1, id, depth, off - (set x | x in before), c, f);
      OffMore(off, before, f);
    }
  }

  lemma OffMore<B(!new)>(off: map<B, B>, before: seq<B>, f: B)
    ensures off - (set x | x in before) - {f} == off - (set x | x in before + [f])
  {
  }

  /** A root change: both systems link the new root to the same parent, unless it is displaced. */
  lemma RootLink<B(!new)>(g: Graph<B>, r: Replayed<B>, id: int, depth: map<B, nat>, off: map<B, B>, t: Txn<B>)
    requires Rel(g, r, id, depth, off) && TxnOk(g, r.created, id, depth, t) && t.created == [] && t.freed == []
    ensures var g', h := LinkParent(g, id, t), RecToBuf(Some(r), t.child, t.parent);
            var off' := OffAfter(g, id, depth, off, t);
            && h.Some? && h.value.created == r.created
            && Agree(g', h.value.g, depth, off'.Keys) && CountsMatch(g') && CountsMatch(h.value.g)
            && NoNewTargets(g', id)
            && OffOk(g', h.value.g, id, off')
            && t.child in g' && UpSet(g, g', t.child, g'[t.child].up) && CreatedKept(g, g')
  {
    hide Nearest, Relevant, CountsMatch, Agree, MoveTo, NoNewTargets, LinkParent, Book, OffOk, Steady;
    LinkParentIs(g, r, id, depth, off, t);
    RelShape(g, r, id, depth, off);
    if t.parent.Some? {
      var p, c := t.parent.value, t.child;
      Targets(g, r, id, depth, off, p);
      var t' := ReplayUp(r, p).value;
      var u := if g[c].up.Some? then g[c].up.value else RealUp(g, id, p).value;
      if g[c].up.Some? {
        LinkedIsRelevant(g, r, id, depth, off, c);
      }
      var g' := LinkParent(g, id, t);
      RootSet(g, id, depth, c, u, t);
      ChildSet(g, g', r, id, depth, off, c, u, t');
      if Displaces(g, id, depth, off, t) {
        OffJoins(g', MoveTo(r.g, c, t'), id, off, c, p, t');
      } else {
        TargetsAgree(g, r, id, depth, off, p);
      }
    }
  }

  lemma RootSet<B(!new)>(g: Graph<B>, id: int, depth: map<B, nat>, c: B, u: B, t: Txn<B>)
    requires Closed(g) && CountsMatch(g) && c in g && u in g && t.child == c
    requires LinkParent(g, id, t) == if g[c].up.Some? then g else MoveTo(g, c, u)
    requires g[c].up.Some? ==> u == g[c].up.value
    ensures var g' := LinkParent(g, id, t); UpSet(g, g', c, Some(u)) && CreatedKept(g, g') && CountsMatch(g')
  {
    hide CountsMatch, MoveTo, LinkParent;
    if g[c].up == None {
      MoveToEffect(g, c, u);
    }
  }

  lemma OffJoins<B(!new)>(g: Graph<B>, r: Graph<B>, id: int, off: map<B, B>, c: B, p: B, up': B)
    requires OffOk(g, r, id, off - {c}) && c in g && c in r && !g[c].freed && g[c].up.Some? && r[c].up == Some(up')
    requires p in g && g[p].createdCp != id ==> up' == p
    ensures OffOk(g, r, id, off[c := p]) && off[c := p].Keys == off.Keys + {c}
  {
  }

  ghost function Announced<B(!new)>(g: Graph<B>, id: int, known: set<B>, t: Txn<B>): set<B>
    requires t.child in g
  {
    if t.created == [] && t.freed == [] then if g[t.child].createdCp < id then known else known + {t.child}
    else known + (set n | n in t.created)
  }

  lemma RootStep<B(!new)>(g: Graph<B>, r: Replayed<B>, id: int, depth: map<B, nat>, off: map<B, B>, t: Txn<B>)
    requires Rel(g, r, id, depth, off) && TxnOk(g, r.created, id, depth, t) && t.created == [] && t.freed == []
    ensures var (g', rec) := Transact(g, id, t);
            var r' := ReplayRecord(Some(r), rec);
            && r'.Some? && Rel(g', r'.value, id, depth, OffAfter(g, id, depth, off, t))
            && r'.value.created == Announced(g, id, r.created, t)
  {
    hide Nearest, Relevant, CountsMatch, Agree, NoNewTargets, LinkParent, RecToBuf, OffOk, OffAfter;
    RootLink(g, r, id, depth, off, t);
    var g' := LinkParent(g, id, t);
    var h := RecToBuf(Some(r), t.child, t.parent);
    assert LinkFreeds(LinkNews(g', id, t.child, []), id, t.child, []) == g';
    if g[t.child].createdCp < id {
      assert ReplayRecord(Some(r), Record(t.parent, Some(t.child), [], [])) == h;
      BookAfterSet(g, g', r.created, id, t.child, g'[t.child].up);
    } else {
      assert ReplayNews(Some(r), t.parent, [t.child]) == ReplayNew(Some(r), t.parent, t.child) by {
        assert [t.child][..0] == [];
      }
      assert Book(g', id, r.created + {t.child});
    }
  }

  lemma SplitStep<B(!new)>(g: Graph<B>, r: Replayed<B>, id: int, depth: map<B, nat>, off: map<B, B>, t: Txn<B>)
    requires Rel(g, r, id, depth, off) && TxnOk(g, r.created, id, depth, t) && !(t.created == [] && t.freed == [])
    ensures var (g', rec) := Transact(g, id, t);
            var r' := ReplayRecord(Some(r), rec);
            && r'.Some? && Rel(g', r'.value, id, depth, OffAfter(g, id, depth, off, t))
            && r'.value.created == Announced(g, id, r.created, t)
  {
    hide Rel, LinkParent, RecToBuf;
    var c := t.child;
    ChildStep(g, r, id, depth, off, t);
    var g1 := LinkParent(g, id, t);
    var r1 := RecToBuf(Some(r), c, g1[c].up).value;
    assert forall n :: n in t.created ==> NewOk(g1, r1.created, id, depth, c, n);
    assert forall i :: 0 <= i < |t.created| ==> (t.created + t.freed)[i] == t.created[i];
    assert forall i :: 0 <= i < |t.freed| ==> (t.created + t.freed)[|t.created| + i] == t.freed[i];
    NewsStep(g1, r1, id, depth, off - {c}, c, t.created);
    var g2, r2 := LinkNews(g1, id, c, t.created), ReplayNews(Some(r1), Some(c), t.created).value;
    assert forall f :: f in t.freed ==> f !in t.created && FreeOk(g2, r2.created, id, depth, c, f);
    assert Usable(g2, id, r2.created, c);
    FreedsStep(g2, r2, id, depth, off - {c}, c, t.freed);
  }

  lemma LinkParentCases<B(!new)>(g: Graph<B>, id: int, t: Txn<B>)
    requires t.parent.Some? && CanLink(g, id, t.parent.value, t.child)
    ensures var u := RealUp(g, id, t.parent.value);
            u.Some? && u.value in g &&
            LinkParent(g, id, t) == if g[t.child].up.Some? then g else MoveTo(g, t.child, u.value)
  {
  }

  /** The condition on root changes is exact: without it the replayed root has another ancestor. It is the
      ancestor of the parent that was passed. */
  lemma RootTxnIff<B(!new)>(g: Graph<B>, r: Replayed<B>, id: int, depth: map<B, nat>, off: map<B, B>, t: Txn<B>)
    requires Rel(g, r, id, depth, off) && t.parent.Some?
    requires t.child in g && t.child in depth && !g[t.child].freed && Usable(g, id, r.created, t.parent.value)
    requires Steady(g, id, off, t.parent.value)
    requires t.parent.value in depth && depth[t.parent.value] < depth[t.child]
    ensures var g', h := LinkParent(g, id, t), RecToBuf(Some(r), t.child, t.parent);
            && h.Some? && t.child in g' && t.child in h.value.g && Descends(g', depth) && Descends(h.value.g, depth)
            && (Ancestor(h.value.g, depth, t.child) == Ancestor(g', depth, t.child) <==> RootTxnOk(g, id, depth, t))
            && Descends(g, depth) && RealUp(g, id, t.parent.value).Some? && RealUp(g, id, t.parent.value).value in g
            && Ancestor(h.value.g, depth, t.child) == Nearest(g, depth, RealUp(g, id, t.parent.value))
  {
    hide Rel, CountsMatch, Relevant, MoveTo, Nearest, Agree, NoNewTargets, Book, LinkParent, Descends, Closed, OffOk;
    var p, c := t.parent.value, t.child;
    RelShape(g, r, id, depth, off);
    RelBook(g, r, id, depth, off);
    Targets(g, r, id, depth, off, p);
    TargetsAgree(g, r, id, depth, off, p);
    LinkParentCases(g, id, t);
    MoveAncestor(g, depth, c, RealUp(g, id, p).value);
    MoveAncestor(r.g, depth, c, ReplayUp(r, p).value);
  }

  lemma MoveAncestor<B(!new)>(g: Graph<B>, depth: map<B, nat>, b: B, up: B)
    requires Descends(g, depth) && CountsMatch(g) && b in g && !g[b].freed && up in g && up in depth
    requires depth[up] < depth[b]
    ensures Closed(g)
    ensures var h := MoveTo(g, b, up);
            b in h && Descends(h, depth) && Ancestor(h, depth, b) == Nearest(g, depth, Some(up))
  {
    hide Nearest, MoveTo, CountsMatch;
    MoveToEffect(g, b, up);
    AncestorsAfterSet(g, MoveTo(g, b, up), depth, b, up);
  }

  // ---------- the whole journal ----------

  ghost function RunTxns<B(!new)>(g: Graph<B>, id: int, ts: seq<Txn<B>>): (Graph<B>, seq<Record<B>>) {
    if ts == [] then (g, [])
    else
      var (h, recs) := RunTxns(g, id, ts[..|ts| - 1]);
      var t := ts[|ts| - 1];
      if t.child !in h then (h, recs)
      else var (h', rec) := Transact(h, id, t); (h', recs + [rec])
  }

  ghost function ReplayAll<B(!new)>(r: Option<Replayed<B>>, recs: seq<Record<B>>): Option<Replayed<B>> {
    if recs == [] then r else ReplayRecord(ReplayAll(r, recs[..|recs| - 1]), recs[|recs| - 1])
  }

  ghost function Known<B(!new)>(g: Graph<B>, id: int, ts: seq<Txn<B>>): set<B> {
    if ts == [] then {}
    else
      var h, t := RunTxns(g, id, ts[..|ts| - 1]).0, ts[|ts| - 1];
      var known := Known(g, id, ts[..|ts| - 1]);
      if t.child in h then Announced(h, id, known, t) else known
  }

  /** The buffers that root changes have displaced, each with the parent that was passed. */
  ghost function Displaced<B(!new)>(g: Graph<B>, id: int, depth: map<B, nat>, ts: seq<Txn<B>>): map<B, B> {
    if ts == [] then map[]
    else
      var before := ts[..|ts| - 1];
      OffAfter(RunTxns(g, id, before).0, id, depth, Displaced(g, id, depth, before), ts[|ts| - 1])
  }

  ghost predicate TxnsOk<B(!new)>(g: Graph<B>, id: int, depth: map<B, nat>, ts: seq<Txn<B>>) {
    ts == [] ||
    var before := ts[..|ts| - 1];
    TxnsOk(g, id, depth, before) && TxnOk(RunTxns(g, id, before).0, Known(g, id, before), id, depth, ts[|ts| - 1])
  }

  /** A checkpoint that has just begun: nothing linked, nothing freed. */
  ghost predicate NoLinks<B(!new)>(g: Graph<B>, depth: map<B, nat>) {
    forall b :: b in g ==> b in depth && g[b].up == None && g[b].wait == 0 && !g[b].freed
  }

  /** The buffer map before the first record: every buffer as the replay would insert it. */
  ghost function EmptyReplay<B(!new)>(g: Graph<B>, id: int): Replayed<B> {
    Replayed(map b | b in g :: Buf(None, 0, Clean, id, -1, false), {})
  }

  lemma InitialRel<B(!new)>(g: Graph<B>, id: int, depth: map<B, nat>)
    requires NoLinks(g, depth) && forall b :: b in g ==> g[b].createdCp <= id
    ensures Rel(g, EmptyReplay(g, id), id, depth, map[])
  {
    var r := EmptyReplay(g, id);
    assert forall u :: u in g ==> Below(g, g.Keys, u) == {};
    assert forall u :: u in r.g ==> Below(r.g, r.g.Keys, u) == {};
  }

  /** For every sequence of transactions of a checkpoint, replaying their journal dereferences no null
      buffer and yields a graph in which every surviving buffer that no root change displaced has the
      same nearest unfreed ancestor as in the graph that was lost. */
  lemma {:induction false} JournalRebuilds<B(!new)>(g: Graph<B>, id: int, depth: map<B, nat>, ts: seq<Txn<B>>)
    requires NoLinks(g, depth) && (forall b :: b in g ==> g[b].createdCp <= id) && TxnsOk(g, id, depth, ts)
    ensures var (h, recs) := RunTxns(g, id, ts);
            var r := ReplayAll(Some(EmptyReplay(g, id)), recs);
            && r.Some? && Rel(h, r.value, id, depth, Displaced(g, id, depth, ts))
            && r.value.created == Known(g, id, ts)
  {
    hide Rel, Transact, ReplayRecord, TxnOk, OffAfter;
    if ts == [] {
      InitialRel(g, id, depth);
    } else {
      var before, t := ts[..|ts| - 1], ts[|ts| - 1];
      JournalRebuilds(g, id, depth, before);
      var (h, recs) := RunTxns(g, id, before);
      var r := ReplayAll(Some(EmptyReplay(g, id)), recs).value;
      TxnStep(h, r, id, depth, Displaced(g, id, depth, before), t);
      var rec := Transact(h, id, t).1;
      assert (recs + [rec])[..|recs|] == recs;
    }
  }

  lemma TxnStep<B(!new)>(g: Graph<B>, r: Replayed<B>, id: int, depth: map<B, nat>, off: map<B, B>, t: Txn<B>)
    requires Rel(g, r, id, depth, off) && TxnOk(g, r.created, id, depth, t)
    ensures t.child in g
    ensures var (g', rec) := Transact(g, id, t);
            var r' := ReplayRecord(Some(r), rec);
            && r'.Some? && Rel(g', r'.value, id, depth, OffAfter(g, id, depth, off, t))
            && r'.value.created == Announced(g, id, r.created, t)
  {
    hide Rel, Transact, ReplayRecord, Announced, OffAfter;
    if t.created == [] && t.freed == [] {
      RootStep(g, r, id, depth, off, t);
    } else {
      SplitStep(g, r, id, depth, off, t);
    }
  }

  /** Root changes that meet the condition displace nothing. */
  ghost predicate RootsOk<B(!new)>(g: Graph<B>, id: int, depth: map<B, nat>, ts: seq<Txn<B>>) {
    forall k :: 0 <= k < |ts| && ts[k].created == [] && ts[k].freed == [] ==>
      RootTxnOk(RunTxns(g, id, ts[..k]).0, id, depth, ts[k])
  }

  lemma {:induction false} NoneDisplaced<B(!new)>(g: Graph<B>, id: int, depth: map<B, nat>, ts: seq<Txn<B>>)
    requires RootsOk(g, id, depth, ts)
    ensures Displaced(g, id, depth, ts) == map[]
  {
    hide RunTxns, RootTxnOk;
    if ts != [] {
      var n := |ts| - 1;
      assert forall k :: 0 <= k < n ==> ts[..n][..k] == ts[..k] && ts[..n][k] == ts[k];
      NoneDisplaced(g, id, depth, ts[..n]);
    }
  }

  /** Relinking the replayed graph `r` in this order restores the lost graph `h`: every surviving buffer is
      below its nearest surviving ancestor in `h`, with right counts, and nothing waits in a freed buffer.
      Only a displaced buffer is elsewhere: directly below the parent that was passed, which is the buffer
      of the superblock and so neither created in the checkpoint nor freed. What sanityCheck asserts of
      links and counts holds for every buffer, displaced or not. */
  ghost predicate Restores<B(!new)>(h: Graph<B>, id: int, depth: map<B, nat>, off: map<B, B>, r: Option<Replayed<B>>,
                                    order: seq<B>) {
    && r.Some? && Descends(h, depth)
    && var final := RelinkAll(r.value.g, depth, order);
    && final.Some? && final.value.Keys == h.Keys && CountsMatch(final.value)
    && (forall b :: b in h && !h[b].freed && b !in off ==> final.value[b].up == Ancestor(h, depth, b))
    && (forall b :: b in off && b in h && off[b] in h && h[off[b]].createdCp != id && !h[off[b]].freed ==>
          final.value[b].up == Some(off[b]))
    && (forall b :: b in h && h[b].freed ==> final.value[b].wait == 0)
    && Sane(h, final.value, id)
  }

  /** Recovery as a whole: for every sequence of transactions, replaying the journal and relinking in any
      order restores the lost graph. */
  lemma RecoveredGraph<B(!new)>(g: Graph<B>, id: int, depth: map<B, nat>, ts: seq<Txn<B>>, order: seq<B>)
    requires NoLinks(g, depth) && (forall b :: b in g ==> g[b].createdCp <= id) && TxnsOk(g, id, depth, ts)
    requires forall b :: b in order <==> b in g
    ensures var (h, recs) := RunTxns(g, id, ts);
            Restores(h, id, depth, Displaced(g, id, depth, ts), ReplayAll(Some(EmptyReplay(g, id)), recs), order)
    ensures RootsOk(g, id, depth, ts) ==> Displaced(g, id, depth, ts) == map[]
  {
    hide CountsMatch, Nearest, RunTxns, ReplayAll, RelinkAll, RootsOk, Displaced, Sane, CreatedKept;
    JournalRebuilds(g, id, depth, ts);
    var (h, recs) := RunTxns(g, id, ts);
    var r := ReplayAll(Some(EmptyReplay(g, id)), recs).value;
    CreatedRun(g, id, ts);
    KeysSame(g, h);
    RelinkRun(r.g, depth, order);
    BelowParent(h, r, id, depth, Displaced(g, id, depth, ts));
    OldRun(g, id, depth, ts);
    SaneLinks(g, h, r.g, RelinkAll(r.g, depth, order).value, id, depth);
    if RootsOk(g, id, depth, ts) {
      NoneDisplaced(g, id, depth, ts);
    }
  }

  /** sanityCheck: a link ends at a buffer that is not freed and not created in this checkpoint and that
      waits for somebody. */
  ghost predicate Sane<B(!new)>(h: Graph<B>, final: Graph<B>, id: int) {
    forall b :: b in final && final[b].up.Some? ==>
      var u := final[b].up.value;
      u in h && u in final && !h[u].freed && h[u].createdCp != id && final[u].wait > 0
  }

  ghost function Young<B(!new)>(g: Graph<B>, id: int): set<B> {
    set b | b in g && g[b].createdCp == id
  }

  /** No link leads to a buffer of this set. */
  ghost predicate OldTargets<B(!new)>(r: Graph<B>, young: set<B>) {
    forall b :: b in r && r[b].up.Some? ==> r[b].up.value !in young
  }

  lemma {:induction false} OldNearest<B(!new)>(r: Graph<B>, depth: map<B, nat>, young: set<B>, o: Option<B>)
    requires Descends(r, depth) && OldTargets(r, young) && (o.Some? ==> o.value in r && o.value !in young)
    ensures Nearest(r, depth, o).Some? ==> Nearest(r, depth, o).value !in young
    decreases if o.Some? then depth[o.value] + 1 else 0
  {
    if o.Some? && r[o.value].freed {
      OldNearest(r, depth, young, r[o.value].up);
    }
  }

  lemma SaneLinks<B(!new)>(g: Graph<B>, h: Graph<B>, r: Graph<B>, final: Graph<B>, id: int, depth: map<B, nat>)
    requires SameShape(h, r, depth) && CreatedKept(g, h) && OldTargets(r, Young(g, id))
    requires final.Keys == r.Keys && CountsMatch(final)
    requires forall b :: b in r ==> final[b].up == Ancestor(r, depth, b)
    ensures Sane(h, final, id)
  {
    hide Nearest;
    forall b | b in final && final[b].up.Some?
      ensures var u := final[b].up.value;
              u in h && u in final && !h[u].freed && h[u].createdCp != id && final[u].wait > 0
    {
      var u := final[b].up.value;
      assert r[b].up.Some? by {
        NearestNone(r, depth);
      }
      OldNearest(r, depth, Young(g, id), r[b].up);
      assert b in Below(final, final.Keys, u);
    }
  }

  lemma NearestNone<B(!new)>(r: Graph<B>, depth: map<B, nat>)
    requires Descends(r, depth)
    ensures Nearest(r, depth, None) == None
  {
  }

  lemma RecToBufOld<B(!new)>(r: Replayed<B>, b: B, up: Option<B>, young: set<B>)
    requires OldTargets(r.g, young) && (up.Some? && up.value in young ==> up.value in r.created)
    ensures var h := RecToBuf(Some(r), b, up);
            h.Some? ==> OldTargets(h.value.g, young) && h.value.created == r.created
  {
    hide Move;
    if up.Some? && CanReplay(Some(r), b, up) && ReplayUp(r, up.value).Some? {
      MoveEffect(r.g, b, ReplayUp(r, up.value).value);
    }
  }

  lemma {:induction false} NewsOld<B(!new)>(r: Replayed<B>, up: Option<B>, bs: seq<B>, young: set<B>)
    requires OldTargets(r.g, young) && (up.Some? && up.value in young ==> up.value in r.created)
    ensures var h := ReplayNews(Some(r), up, bs);
            h.Some? ==> OldTargets(h.value.g, young) && r.created <= h.value.created
  {
    hide RecToBuf, OldTargets;
    if bs != [] {
      NewsOld(r, up, bs[..|bs| - 1], young);
      var q := ReplayNews(Some(r), up, bs[..|bs| - 1]);
      if q.Some? {
        RecToBufOld(q.value, bs[|bs| - 1], up, young);
      } else {
        assert RecToBuf(q, bs[|bs| - 1], up) == None by {
          NoReplay(q, bs[|bs| - 1], up);
        }
      }
    }
  }

  lemma NoReplay<B(!new)>(r: Option<Replayed<B>>, b: B, up: Option<B>)
    requires r == None
    ensures RecToBuf(r, b, up) == None
  {
  }

  lemma MarkOld<B(!new)>(g: Graph<B>, b: B, young: set<B>)
    requires b in g && OldTargets(g, young)
    ensures OldTargets(MarkFreed(g, b), young)
  {
  }

  lemma {:induction false} FreedsOld<B(!new)>(r: Replayed<B>, up: Option<B>, bs: seq<B>, young: set<B>)
    requires OldTargets(r.g, young) && (up.Some? && up.value in young ==> up.value in r.created)
    ensures var h := ReplayFreeds(Some(r), up, bs);
            h.Some? ==> OldTargets(h.value.g, young) && h.value.created == r.created
  {
    hide RecToBuf, OldTargets, MarkFreed;
    if bs != [] {
      FreedsOld(r, up, bs[..|bs| - 1], young);
      var q, b := ReplayFreeds(Some(r), up, bs[..|bs| - 1]), bs[|bs| - 1];
      NoReplay<B>(None, b, up);
      if q.Some? {
        RecToBufOld(q.value, b, up, young);
        var h := RecToBuf(q, b, up);
        if h.Some? {
          MarkOld(h.value.g, b, young);
        }
      }
    }
  }

  lemma {:induction false} NoneReplayed<B(!new)>(up: Option<B>, bs: seq<B>)
    ensures ReplayNews(None, up, bs) == None && ReplayFreeds(None, up, bs) == None
  {
    if bs != [] {
      NoneReplayed(up, bs[..|bs| - 1]);
    }
  }

  lemma RecordOld<B(!new)>(r: Replayed<B>, rec: Record<B>, young: set<B>)
    requires OldTargets(r.g, young)
    requires rec.parent.Some? && rec.parent.value in young ==> rec.parent.value in r.created
    requires rec.child.Some? && rec.child.value in young ==> rec.child.value in r.created
    ensures var h := ReplayRecord(Some(r), rec); h.Some? ==> OldTargets(h.value.g, young)
  {
    hide RecToBuf, OldTargets;
    var up := if rec.child.Some? then rec.child else rec.parent;
    var r1 := if rec.child.Some? then RecToBuf(Some(r), rec.child.value, rec.parent) else Some(r);
    if rec.child.Some? {
      RecToBufOld(r, rec.child.value, rec.parent, young);
    }
    NoneReplayed(up, rec.created);
    NoneReplayed(up, rec.freed);
    if r1.Some? {
      NewsOld(r1.value, up, rec.created, young);
      var r2 := ReplayNews(r1, up, rec.created);
      if r2.Some? {
        FreedsOld(r2.value, up, rec.freed, young);
      }
    }
  }

  /** A record names only buffers that are old or announced before. */
  lemma RecordNames<B(!new)>(g: Graph<B>, r: Replayed<B>, id: int, depth: map<B, nat>, off: map<B, B>, t: Txn<B>)
    requires Rel(g, r, id, depth, off) && TxnOk(g, r.created, id, depth, t)
    ensures t.child in g
    ensures var rec, young := Transact(g, id, t).1, Young(g, id);
            && (rec.parent.Some? && rec.parent.value in young ==> rec.parent.value in r.created)
            && (rec.child.Some? && rec.child.value in young ==> rec.child.value in r.created)
  {
    hide Rel, LinkNews, LinkFreeds, LinkParent, RecToBuf;
    TxnStep(g, r, id, depth, off, t);
    var g' := Transact(g, id, t).0;
    CreatedTxn(g, id, t);
    if !(t.created == [] && t.freed == []) {
      var r' := ReplayRecord(Some(r), Transact(g, id, t).1).value;
      RelTargets(g', r', id, depth, OffAfter(g, id, depth, off, t));
    }
  }

  lemma RelTargets<B(!new)>(g: Graph<B>, r: Replayed<B>, id: int, depth: map<B, nat>, off: map<B, B>)
    requires Rel(g, r, id, depth, off)
    ensures NoNewTargets(g, id) && Closed(g)
  {
  }

  /** In every run the replay links to old buffers only. */
  lemma {:induction false} OldRun<B(!new)>(g: Graph<B>, id: int, depth: map<B, nat>, ts: seq<Txn<B>>)
    requires NoLinks(g, depth) && (forall b :: b in g ==> g[b].createdCp <= id) && TxnsOk(g, id, depth, ts)
    ensures var r := ReplayAll(Some(EmptyReplay(g, id)), RunTxns(g, id, ts).1);
            r.Some? && OldTargets(r.value.g, Young(g, id))
  {
    hide Rel, Transact, ReplayRecord, TxnOk, OffAfter, OldTargets, CreatedKept;
    JournalRebuilds(g, id, depth, ts);
    if ts == [] {
      EmptyOld(g, id);
    } else {
      var before, t := ts[..|ts| - 1], ts[|ts| - 1];
      OldRun(g, id, depth, before);
      JournalRebuilds(g, id, depth, before);
      var (h, recs) := RunTxns(g, id, before);
      var r := ReplayAll(Some(EmptyReplay(g, id)), recs).value;
      CreatedRun(g, id, before);
      YoungSame(g, h, id);
      RecordNames(h, r, id, depth, Displaced(g, id, depth, before), t);
      var rec := Transact(h, id, t).1;
      assert (recs + [rec])[..|recs|] == recs;
      RecordOld(r, rec, Young(g, id));
    }
  }

  lemma EmptyOld<B(!new)>(g: Graph<B>, id: int)
    ensures OldTargets(EmptyReplay(g, id).g, Young(g, id))
  {
  }

  lemma YoungSame<B(!new)>(g: Graph<B>, h: Graph<B>, id: int)
    requires CreatedKept(g, h)
    ensures Young(g, id) == Young(h, id)
  {
  }

  lemma KeysSame<B(!new)>(g: Graph<B>, h: Graph<B>)
    requires CreatedKept(g, h)
    ensures g.Keys == h.Keys
  {
  }

  lemma BelowParent<B(!new)>(g: Graph<B>, r: Replayed<B>, id: int, depth: map<B, nat>, off: map<B, B>)
    requires Rel(g, r, id, depth, off) && Descends(r.g, depth)
    ensures forall b :: b in off && b in r.g && off[b] in g && g[off[b]].createdCp != id && !g[off[b]].freed ==>
              Ancestor(r.g, depth, b) == Some(off[b])
  {
  }

  lemma LinkCreated<B(!new)>(g: Graph<B>, id: int, c: B, b: B, move: bool)
    requires CanLink(g, id, c, b)
    ensures CreatedKept(g, Link(g, id, c, b, move))
  {
  }

  lemma {:induction false} NewsCreated<B(!new)>(g: Graph<B>, id: int, c: B, bs: seq<B>)
    ensures CreatedKept(g, LinkNews(g, id, c, bs))
  {
    hide Link, CanLink;
    if bs != [] {
      NewsCreated(g, id, c, bs[..|bs| - 1]);
      var h := LinkNews(g, id, c, bs[..|bs| - 1]);
      if CanLink(h, id, c, bs[|bs| - 1]) {
        LinkCreated(h, id, c, bs[|bs| - 1], true);
      }
    }
  }

  lemma {:induction false} FreedsCreated<B(!new)>(g: Graph<B>, id: int, c: B, bs: seq<B>)
    ensures CreatedKept(g, LinkFreeds(g, id, c, bs))
  {
    if bs != [] {
      FreedsCreated(g, id, c, bs[..|bs| - 1]);
      FreedCreated(LinkFreeds(g, id, c, bs[..|bs| - 1]), id, c, bs[|bs| - 1]);
    }
  }

  lemma FreedCreated<B(!new)>(g: Graph<B>, id: int, c: B, b: B)
    ensures CreatedKept(g, LinkFreed(g, id, c, b))
  {
    hide Link;
    if CanLink(g, id, c, b) {
      LinkCreated(g, id, c, b, true);
    }
  }

  lemma CreatedTxn<B(!new)>(g: Graph<B>, id: int, t: Txn<B>)
    requires t.child in g
    ensures CreatedKept(g, Transact(g, id, t).0)
  {
    hide Link, CanLink, LinkNews, LinkFreeds;
    if t.parent.Some? && CanLink(g, id, t.parent.value, t.child) {
      LinkCreated(g, id, t.parent.value, t.child, false);
    }
    var g1 := LinkParent(g, id, t);
    NewsCreated(g1, id, t.child, t.created);
    FreedsCreated(LinkNews(g1, id, t.child, t.created), id, t.child, t.freed);
  }

  lemma {:induction false} CreatedRun<B(!new)>(g: Graph<B>, id: int, ts: seq<Txn<B>>)
    ensures CreatedKept(g, RunTxns(g, id, ts).0)
  {
    hide Transact;
    if ts != [] {
      CreatedRun(g, id, ts[..|ts| - 1]);
      var h, t := RunTxns(g, id, ts[..|ts| - 1]).0, ts[|ts| - 1];
      if t.child in h {
        CreatedTxn(h, id, t);
      }
    }
  }

  // ---------- a root change that displaces ----------

  /** The superblock's buffer 0, the root 1 and its children 2 and 3. */
  ghost function Tree(): Graph<int> {
    var b := Buf(None, 0, Dirty, 7, 0, false);
    map[0 := b, 1 := b, 2 := b, 3 := b]
  }

  ghost function Levels(): map<int, nat> {
    map[0 := 0, 1 := 1, 2 := 2, 3 := 3]
  }

  /** Node 3 is merged into node 2, which is then the only child and becomes the root. */
  ghost function Collapse(): seq<Txn<int>> {
    [Txn(Some(1), 2, [], [3]), Txn(Some(0), 2, [], [])]
  }

  /** The graph after the merge. */
  ghost function Merged(): Graph<int> {
    var b := Buf(None, 0, Dirty, 7, 0, false);
    map[0 := b, 1 := b.(wait := 1), 2 := b.(up := Some(1)), 3 := b.(freed := true)]
  }

  lemma MergeIs()
    ensures Transact(Tree(), 7, Txn(Some(1), 2, [], [3])).0 == Merged()
  {
    var g, t := Tree(), Txn(Some(1), 2, [], [3]);
    var g1 := LinkParent(g, 7, t);
    assert CanLink(g, 7, 1, 2);
    assert g1 == Move(g, 2, 1);
    assert LinkNews(g1, 7, 2, []) == g1;
    assert [3][..0] == [];
    assert LinkFreeds(g1, 7, 2, []) == g1;
  }

  lemma CollapseIs()
    ensures var (g, ts) := (Tree(), Collapse());
            && RunTxns(g, 7, ts[..1]).0 == Merged() && RunTxns(g, 7, ts).0 == Merged()
            && Known(g, 7, ts[..1]) == {} && Displaced(g, 7, Levels(), ts[..1]) == map[]
  {
    hide Transact;
    var g, ts := Tree(), Collapse();
    MergeIs();
    assert ts[..1] == [Txn(Some(1), 2, [], [3])] && ts[..1][..0] == [];
    assert RunTxns(g, 7, ts[..1][..0]) == (g, []);
    RootKept();
  }

  lemma RootKept()
    ensures Transact(Merged(), 7, Txn(Some(0), 2, [], [])).0 == Merged()
  {
    var g, t := Merged(), Txn(Some(0), 2, [], []);
    assert CanLink(g, 7, 0, 2);
    assert LinkParent(g, 7, t) == g;
  }

  lemma CollapseNotOk()
    ensures Descends(Merged(), Levels()) && Ancestor(Merged(), Levels(), 2) == Some(1)
    ensures !RootTxnOk(Merged(), 7, Levels(), Txn(Some(0), 2, [], []))
  {
    var g, depth := Merged(), Levels();
    assert Nearest(g, depth, Some(1)) == Some(1) && Nearest(g, depth, Some(0)) == Some(0);
  }

  lemma CollapseOk()
    ensures NoLinks(Tree(), Levels()) && TxnsOk(Tree(), 7, Levels(), Collapse())
  {
    hide RunTxns, Known;
    var g, ts, depth := Tree(), Collapse(), Levels();
    CollapseIs();
    RunNone(g);
    assert ts[..1] == [ts[0]] && ts[..1][..0] == [];
    assert TxnOk(g, {}, 7, depth, ts[0]);
    assert TxnsOk(g, 7, depth, ts[..1][..0]);
    assert TxnsOk(g, 7, depth, ts[..1]);
    assert TxnOk(Merged(), {}, 7, depth, ts[1]);
  }

  lemma RunNone(g: Graph<int>)
    ensures RunTxns(g, 7, []).0 == g && Known(g, 7, []) == {}
  {
  }

  /** An ordinary run: a merge and then the collapse of the root in one checkpoint. In the lost graph the
      new root waits below the old one; recovery puts it below the superblock's buffer. */
  lemma RootDisplaced(order: seq<int>)
    requires forall b :: b in order <==> b in Tree()
    ensures var (g, ts, depth) := (Tree(), Collapse(), Levels());
            && NoLinks(g, depth) && TxnsOk(g, 7, depth, ts) && Displaced(g, 7, depth, ts) == map[2 := 0]
            && var (h, recs) := RunTxns(g, 7, ts);
            var r := ReplayAll(Some(EmptyReplay(g, 7)), recs);
            && Descends(h, depth) && Ancestor(h, depth, 2) == Some(1) && r.Some?
            && var final := RelinkAll(r.value.g, depth, order);
            final.Some? && 2 in final.value && final.value[2].up == Some(0)
  {
    hide RunTxns, TxnsOk, NoLinks, Nearest, Ancestor, Descends, Displaced, Levels, Merged, OffAfter, ReplayAll,
         RelinkAll, Sane, CountsMatch, RootsOk;
    CollapseOk();
    CollapseIs();
    CollapseNotOk();
    CollapseDisplaces();
    DisplacedLast(Tree(), Levels(), Collapse());
    TreeBuffers();
    var g := Tree();
    assert forall b :: b in g ==> g[b].createdCp <= 7;
    assert forall b :: b in order <==> b in g;
    RecoveredGraph(g, 7, Levels(), Collapse(), order);
  }

  lemma TreeBuffers()
    ensures forall b :: b in Tree() ==> Tree()[b].createdCp <= 7
    ensures 0 in Merged() && 2 in Merged() && Merged()[0].createdCp != 7 && !Merged()[0].freed
  {
  }

  lemma DisplacedLast(g: Graph<int>, depth: map<int, nat>, ts: seq<Txn<int>>)
    requires |ts| == 2
    ensures Displaced(g, 7, depth, ts) ==
            OffAfter(RunTxns(g, 7, ts[..1]).0, 7, depth, Displaced(g, 7, depth, ts[..1]), ts[1])
  {
  }

  lemma CollapseDisplaces()
    ensures OffAfter(Merged(), 7, Levels(), map[], Txn(Some(0), 2, [], [])) == map[2 := 0]
  {
    hide Nearest, Levels, RootTxnOk;
    CollapseNotOk();
  }
}
