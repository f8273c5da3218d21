/**
 The index write-back cache in its own form: buffers are objects that point to each other and are
 updated in place. Every method is proved to do, on the objects, what its value-level counterpart in
 FlushGraph, LinkGraph or Recovery does on a graph; the theorems there then speak about the objects.
 */
module WbCache {

  import opened Options
  import opened FlushGraph
  import opened LinkGraph
  import opened Recovery
  import opened Replay

  /** IndexBuffer. `id` stands for the identity of the object. */
  class IndexBuffer {
    const id: nat
    var up: IndexBuffer?
    var wait: int
    var state: BufState
    var dirtiedCp: int
    var createdCp: int
    var freed: bool

    constructor (id: nat, cpId: int)
      ensures this.id == id && up == null && wait == 0 && state == Clean && !freed
      ensures dirtiedCp == cpId && createdCp == cpId
    {
      this.id := id;
      up, wait, state, freed := null, 0, Clean, false;
      dirtiedCp, createdCp := cpId, cpId;
    }

    /** add_down_buffer: one more buffer to wait for. */
    method AddDownBuffer(ghost all: map<nat, IndexBuffer>)
      requires Registry(all) && Has(all, this)
      modifies this`wait
      ensures Registry(all) && Snapshot(all) == AddWait(old(Snapshot(all)), id, 1)
    {
      wait := wait + 1;
    }

    /** remove_down_buffer: one buffer less. */
    method RemoveDownBuffer(ghost all: map<nat, IndexBuffer>)
      requires Registry(all) && Has(all, this)
      modifies this`wait
      ensures Registry(all) && Snapshot(all) == AddWait(old(Snapshot(all)), id, -1)
    {
      wait := wait - 1;
    }

    method SetUpBuffer(up: IndexBuffer?, ghost all: map<nat, IndexBuffer>)
      requires Registry(all) && Has(all, this) && (up != null ==> Has(all, up))
      modifies this`up
      ensures Registry(all) && this.up == up && Snapshot(all) == SetUp(old(Snapshot(all)), id, IdOf(up))
    {
      this.up := up;
    }

    method SetFreed(ghost all: map<nat, IndexBuffer>)
      requires Registry(all) && Has(all, this)
      modifies this`freed
      ensures Registry(all) && Snapshot(all) == MarkFreed(old(Snapshot(all)), id)
    {
      freed := true;
    }

    method SetState(state: BufState, ghost all: map<nat, IndexBuffer>)
      requires Registry(all) && Has(all, this)
      modifies this`state
      ensures Registry(all)
      ensures Snapshot(all) == old(Snapshot(all)[id := Snapshot(all)[id].(state := state)])
    {
      this.state := state;
    }
  }

  function IdOf(b: IndexBuffer?): Option<nat> {
    if b == null then None else Some(b.id)
  }

  function Ids(bs: seq<IndexBuffer>): (r: seq<nat>)
    ensures |r| == |bs| && forall i :: 0 <= i < |bs| ==> r[i] == bs[i].id
  {
    seq(|bs|, i requires 0 <= i < |bs| => bs[i].id)
  }

  ghost function Objects(all: map<nat, IndexBuffer>): set<IndexBuffer> {
    set i | i in all :: all[i]
  }

  ghost predicate Has(all: map<nat, IndexBuffer>, b: IndexBuffer) {
    b.id in all && all[b.id] == b
  }

  /** `all` names every buffer by its id, and links stay inside. */
  ghost predicate Registry(all: map<nat, IndexBuffer>)
    reads Objects(all)
  {
    && (forall i :: i in all ==> all[i].id == i)
    && (forall i :: i in all && all[i].up != null ==> Has(all, all[i].up))
  }

  ghost function BufOf(b: IndexBuffer): Buf<nat>
    reads b
  {
    Buf(IdOf(b.up), b.wait, b.state, b.dirtiedCp, b.createdCp, b.freed)
  }

  ghost function Snapshot(all: map<nat, IndexBuffer>): Graph<nat>
    reads Objects(all)
  {
    map i | i in all :: BufOf(all[i])
  }

  /** What link_buf asserts of an up buffer: one created in this checkpoint has an up buffer. */
  ghost predicate Linkable(b: IndexBuffer, cpId: int)
    reads b
  {
    b.createdCp == cpId ==> b.up != null
  }

  /** link_buf. */
  method LinkBuf(up: IndexBuffer, down: IndexBuffer, sibling: bool, cpId: int, ghost all: map<nat, IndexBuffer>)
    requires Registry(all) && Has(all, up) && Has(all, down)
    requires Linkable(up, cpId)
    modifies Objects(all)
    ensures Registry(all)
    ensures old(CanLink(Snapshot(all), cpId, up.id, down.id))
    ensures Snapshot(all) == old(Link(Snapshot(all), cpId, up.id, down.id, sibling))
    ensures Linkable(up, cpId) && down.up != null
    ensures forall b :: b in Objects(all) && old(Linkable(b, cpId)) ==> Linkable(b, cpId)
  {
    var realUp := up;
    if up.createdCp == cpId {
      realUp := up.up;
    }
    if down.up != null && (!sibling || down.up == realUp) {
      return;
    }
    MoveLink(down, realUp, all);
  }

  /** The end of link_buf, which modifyBuffer repeats: move the link of `down` to `up`. */
  method MoveLink(down: IndexBuffer, up: IndexBuffer, ghost all: map<nat, IndexBuffer>)
    requires Registry(all) && Has(all, down) && Has(all, up)
    modifies Objects(all)
    ensures Registry(all)
    ensures Snapshot(all) == old(Move(Snapshot(all), down.id, up.id))
    ensures down.up == up
    ensures forall b :: b in Objects(all) ==> b.createdCp == old(b.createdCp) && (b != down ==> b.up == old(b.up))
  {
    assert Snapshot(all)[down.id] == BufOf(down);
    hide Registry;
    if down.up != null {
      down.up.RemoveDownBuffer(all);
    }
    down.SetUpBuffer(up, all);
    up.AddDownBuffer(all);
  }

  /** IndexCPContext: the dirty list of a checkpoint and the position of its flush. */
  class IndexCPContext {
    const id: int
    var dirtyList: seq<IndexBuffer>
    var dirtyIt: nat
    var dirtyCount: int

    constructor (id: int)
      ensures this.id == id && dirtyList == [] && dirtyIt == 0 && dirtyCount == 0
    {
      this.id := id;
      dirtyList, dirtyIt, dirtyCount := [], 0, 0;
    }

    ghost predicate Valid(all: map<nat, IndexBuffer>)
      reads this
    {
      dirtyIt <= |dirtyList| && forall b :: b in dirtyList ==> Has(all, b)
    }

    /** add_to_dirty_list. */
    method AddToDirtyList(buf: IndexBuffer, ghost all: map<nat, IndexBuffer>)
      requires Registry(all) && Valid(all) && Has(all, buf)
      modifies this`dirtyList, this`dirtyCount, buf`state
      ensures Registry(all) && Valid(all)
      ensures dirtyList == old(dirtyList) + [buf] && dirtyCount == old(dirtyCount) + 1
      ensures Snapshot(all) == old(Snapshot(all)[buf.id := Snapshot(all)[buf.id].(state := Dirty)])
    {
      buf.SetState(Dirty, all);
      dirtyList, dirtyCount := dirtyList + [buf], dirtyCount + 1;
    }

    /** next_dirty. */
    method NextDirty() returns (buf: IndexBuffer?)
      requires dirtyIt <= |dirtyList|
      modifies this`dirtyIt
      ensures old(dirtyIt) == |dirtyList| ==> buf == null && dirtyIt == old(dirtyIt)
      ensures old(dirtyIt) < |dirtyList| ==> buf == dirtyList[old(dirtyIt)] && dirtyIt == old(dirtyIt) + 1
    {
      if dirtyIt == |dirtyList| {
        return null;
      }
      buf := dirtyList[dirtyIt];
      dirtyIt := dirtyIt + 1;
    }

    /** The second half of get_next_bufs_internal: fill up from the dirty list. */
    method TakeFromList(taken: seq<IndexBuffer>, maxCount: nat, ghost all: map<nat, IndexBuffer>)
      returns (bufs: seq<IndexBuffer>)
      requires Registry(all) && Valid(all) && |taken| <= maxCount
      modifies this`dirtyIt
      ensures Valid(all)
      ensures var (found, cursor) := Scan(Snapshot(all), id, Ids(dirtyList), old(dirtyIt), maxCount - |taken|);
              Ids(bufs) == Ids(taken) + found && dirtyIt == cursor
      ensures forall b :: b in bufs ==> b in taken || Has(all, b)
    {
      hide Registry;
      bufs := taken;
      ghost var g, list := Snapshot(all), Ids(dirtyList);
      ghost var goal := Scan(g, id, list, dirtyIt, maxCount - |taken|);
      var atEnd := false;
      while |bufs| < maxCount && !atEnd
        invariant |taken| <= |bufs| <= maxCount && dirtyIt <= |dirtyList|
        invariant atEnd ==> dirtyIt == |dirtyList|
        invariant forall b :: b in bufs ==> b in taken || Has(all, b)
        invariant var now := Scan(g, id, list, dirtyIt, maxCount - |bufs|);
                  Ids(bufs) + now.0 == Ids(taken) + goal.0 && now.1 == goal.1
        decreases |dirtyList| - dirtyIt, !atEnd
      {
        var buf := NextDirty();
        if buf == null {
          atEnd := true;
        } else {
          assert buf in dirtyList && g[buf.id] == BufOf(buf);
          if buf.state == Dirty && buf.dirtiedCp == id && buf.wait == 0 {
            ghost var rest := Scan(g, id, list, dirtyIt, maxCount - |bufs| - 1).0;
            assert Ids(bufs + [buf]) + rest == Ids(bufs) + ([buf.id] + rest);
            bufs := bufs + [buf];
          }
        }
      }
      assert Snapshot(all) == g && Ids(bufs) + [] == Ids(bufs);
    }
  }

  /** The first half of get_next_bufs_internal: release the buffer above the one just written. */
  method ReleaseUp(prev: IndexBuffer, ghost all: map<nat, IndexBuffer>) returns (next: IndexBuffer?)
    requires Registry(all) && Has(all, prev)
    modifies Objects(all)
    ensures Registry(all) && (next != null ==> Has(all, next))
    ensures (Snapshot(all), IdOf(next)) == old(Release(Snapshot(all), prev.id))
  {
    ghost var g0 := Snapshot(all);
    assert g0[prev.id] == BufOf(prev);
    next := prev.up;
    if next != null {
      next.RemoveDownBuffer(all);
      assert Snapshot(all)[next.id] == BufOf(next);
      var last := next.wait == 0;
      prev.SetUpBuffer(null, all);
      if !last {
        next := null;
      }
    }
  }

  /** get_next_bufs_internal. */
  method GetNextBufs(ctx: IndexCPContext, maxCount: nat, prev: IndexBuffer?, ghost all: map<nat, IndexBuffer>)
    returns (bufs: seq<IndexBuffer>)
    requires Registry(all) && ctx.Valid(all) && maxCount > 0 && (prev != null ==> Has(all, prev))
    modifies Objects(all), ctx`dirtyIt
    ensures Registry(all) && ctx.Valid(all) && forall b :: b in bufs ==> Has(all, b)
    ensures var (g, next) := if prev == null then (old(Snapshot(all)), None) else old(Release(Snapshot(all), prev.id));
            var first := if next.Some? then [next.value] else [];
            var (found, cursor) := Scan(g, ctx.id, Ids(ctx.dirtyList), old(ctx.dirtyIt), maxCount - |first|);
            Snapshot(all) == g && Ids(bufs) == first + found && ctx.dirtyIt == cursor
  {
    hide Registry, Snapshot, Release;
    bufs := [];
    if prev != null {
      var next := ReleaseUp(prev, all);
      if next != null {
        bufs := [next];
      }
    }
    bufs := ctx.TakeFromList(bufs, maxCount, all);
  }

  /** on_buf_flush_done_internal: the next buffer to write, and whether the flush goes on. */
  method OnBufFlushDone(ctx: IndexCPContext, buf: IndexBuffer, ghost all: map<nat, IndexBuffer>, ghost s: Flush<nat>)
    returns (next: IndexBuffer?, hasMore: bool)
    requires Registry(all) && ctx.Valid(all) && Has(all, buf)
    requires s.g == Snapshot(all) && s.id == ctx.id && s.list == Ids(ctx.dirtyList) && s.cursor == ctx.dirtyIt
    requires s.count == ctx.dirtyCount
    requires buf.id in s.g && (s.g[buf.id].up.Some? ==> s.g[buf.id].up.value in s.g) && s.cursor <= |s.list|
    modifies Objects(all), ctx`dirtyIt, ctx`dirtyCount
    ensures Registry(all) && ctx.Valid(all) && (next != null ==> Has(all, next))
    ensures var (t, n) := Complete(s, buf.id);
            && Snapshot(all) == t.g && ctx.dirtyIt == t.cursor && ctx.dirtyCount == t.count
            && IdOf(next) == n && hasMore == (t.count != 0)
  {
    ctx.dirtyCount := ctx.dirtyCount - 1;
    if ctx.dirtyCount == 0 {
      buf.SetState(Clean, all);
      return null, false;
    }
    var bufs := GetNextBufs(ctx, 1, buf, all);
    buf.SetState(Clean, all);
    return if |bufs| > 0 then bufs[0] else null, true;
  }

  method LinkNewBufs(child: IndexBuffer, news: seq<IndexBuffer>, cpId: int, ghost all: map<nat, IndexBuffer>)
    requires Registry(all) && Has(all, child) && Linkable(child, cpId) && forall b :: b in news ==> Has(all, b)
    modifies Objects(all)
    ensures Registry(all) && Linkable(child, cpId)
    ensures Snapshot(all) == LinkNews(old(Snapshot(all)), cpId, child.id, Ids(news))
  {
    hide Link, CanLink, Registry;
    ghost var g := Snapshot(all);
    var i := 0;
    while i < |news|
      invariant 0 <= i <= |news| && Registry(all) && Linkable(child, cpId)
      invariant Snapshot(all) == LinkNews(g, cpId, child.id, Ids(news)[..i])
    {
      assert Has(all, news[i]);
      LinkBuf(child, news[i], true, cpId, all);
      assert Ids(news)[..i + 1][..i] == Ids(news)[..i];
      i := i + 1;
    }
    assert Ids(news)[..i] == Ids(news);
  }

  method LinkFreedBuf(child: IndexBuffer, buf: IndexBuffer, cpId: int, ghost all: map<nat, IndexBuffer>)
    requires Registry(all) && Has(all, child) && Has(all, buf) && Linkable(child, cpId)
    modifies Objects(all)
    ensures Registry(all) && Linkable(child, cpId)
    ensures Snapshot(all) == old(LinkFreed(Snapshot(all), cpId, child.id, buf.id))
  {
    assert Snapshot(all)[child.id] == BufOf(child) && Snapshot(all)[buf.id] == BufOf(buf);
    assert CanLink(Snapshot(all), cpId, child.id, buf.id);
    if buf.wait != 0 {
      LinkBuf(child, buf, true, cpId, all);
    }
    buf.SetFreed(all);
  }

  method LinkFreedBufs(child: IndexBuffer, freeds: seq<IndexBuffer>, cpId: int, ghost all: map<nat, IndexBuffer>)
    requires Registry(all) && Has(all, child) && Linkable(child, cpId) && forall b :: b in freeds ==> Has(all, b)
    modifies Objects(all)
    ensures Registry(all)
    ensures Snapshot(all) == LinkFreeds(old(Snapshot(all)), cpId, child.id, Ids(freeds))
  {
    hide LinkFreed, Registry;
    ghost var g := Snapshot(all);
    var i := 0;
    while i < |freeds|
      invariant 0 <= i <= |freeds| && Registry(all) && Linkable(child, cpId)
      invariant Snapshot(all) == LinkFreeds(g, cpId, child.id, Ids(freeds)[..i])
    {
      assert Has(all, freeds[i]);
      LinkFreedBuf(child, freeds[i], cpId, all);
      assert Ids(freeds)[..i + 1][..i] == Ids(freeds)[..i];
      i := i + 1;
    }
    assert Ids(freeds)[..i] == Ids(freeds);
  }

  /** transact_bufs: link the child below the parent, new nodes and awaited freed nodes below the
      child, and form the record for the journal. The freed flag, which free_buf sets first and link_buf
      does not read, is set here. */
  method TransactBufs(parent: IndexBuffer?, child: IndexBuffer, news: seq<IndexBuffer>, freeds: seq<IndexBuffer>,
                      cpId: int, ghost all: map<nat, IndexBuffer>) returns (rec: Record<nat>)
    requires Registry(all) && Has(all, child) && (parent != null ==> Has(all, parent) && Linkable(parent, cpId))
    requires forall b :: b in news || b in freeds ==> Has(all, b)
    requires parent == null ==> Linkable(child, cpId)
    modifies Objects(all)
    ensures Registry(all)
    ensures (Snapshot(all), rec) ==
            Transact(old(Snapshot(all)), cpId, Txn(IdOf(parent), child.id, Ids(news), Ids(freeds)))
  {
    hide Link, LinkNews, LinkFreeds;
    var created := child.createdCp;
    if parent != null {
      LinkBuf(parent, child, false, cpId, all);
    }
    LinkNewBufs(child, news, cpId, all);
    LinkFreedBufs(child, freeds, cpId, all);
    if news == [] && freeds == [] {
      rec := if created < cpId then Record(IdOf(parent), Some(child.id), [], [])
             else Record(IdOf(parent), None, [child.id], []);
    } else {
      rec := Record(IdOf(child.up), Some(child.id), Ids(news), Ids(freeds));
    }
  }

  /** modifyBuffer: walk up to the nearest unfreed buffer and link to it. Returns false where the
      source dereferences null. */
  method ModifyBuffer(buffer: IndexBuffer, ghost all: map<nat, IndexBuffer>, ghost depth: map<nat, nat>)
    returns (ok: bool)
    requires Registry(all) && Has(all, buffer) && Descends(Snapshot(all), depth)
    modifies Objects(all)
    ensures Registry(all)
    ensures old(Relink(Snapshot(all), depth, buffer.id)) == if ok then Some(Snapshot(all)) else None
    ensures !ok ==> Snapshot(all) == old(Snapshot(all))
  {
    ghost var g := Snapshot(all);
    var up := buffer.up;
    var realUp := up;
    assert g[buffer.id] == BufOf(buffer);
    while realUp != null && realUp.freed
      invariant realUp != null ==> Has(all, realUp)
      invariant Nearest(g, depth, IdOf(realUp)) == Ancestor(g, depth, buffer.id)
      decreases if realUp == null then 0 else depth[realUp.id] + 1
    {
      assert g[realUp.id] == BufOf(realUp);
      realUp := realUp.up;
    }
    assert realUp != null ==> g[realUp.id] == BufOf(realUp);
    if realUp != up {
      if realUp == null {
        return false;
      }
      MoveLink(buffer, realUp, all);
    }
    return true;
  }

  lemma RelinkDescends(g: Graph<nat>, depth: map<nat, nat>, b: nat)
    requires Descends(g, depth) && b in g && Relink(g, depth, b).Some?
    ensures Descends(Relink(g, depth, b).value, depth)
  {
    if Ancestor(g, depth, b) != g[b].up {
      MoveEffect(g, b, Ancestor(g, depth, b).value);
      hide Move;
    }
  }

  lemma {:induction false} RelinkStaysFailed(g: Graph<nat>, depth: map<nat, nat>, order: seq<nat>, k: nat)
    requires k <= |order| && RelinkAll(g, depth, order[..k]) == None
    ensures RelinkAll(g, depth, order) == None
    decreases |order|
  {
    if k < |order| {
      assert order[..|order| - 1][..k] == order[..k];
      RelinkStaysFailed(g, depth, order[..|order| - 1], k);
    } else {
      assert order[..k] == order;
    }
  }

  /** The relinking loop of IndexCPContext::recover, over the buffers in the order of their map. */
  method RelinkBuffers(order: seq<IndexBuffer>, ghost all: map<nat, IndexBuffer>, ghost depth: map<nat, nat>)
    returns (ok: bool)
    requires Registry(all) && Descends(Snapshot(all), depth) && forall b :: b in order ==> Has(all, b)
    modifies Objects(all)
    ensures Registry(all)
    ensures RelinkAll(old(Snapshot(all)), depth, Ids(order)) == if ok then Some(Snapshot(all)) else None
  {
    hide Descends;
    ghost var g := Snapshot(all);
    for i := 0 to |order|
      invariant Registry(all) && Descends(Snapshot(all), depth)
      invariant RelinkAll(g, depth, Ids(order)[..i]) == Some(Snapshot(all))
    {
      ghost var before := Snapshot(all);
      assert Has(all, order[i]);
      assert Ids(order)[..i + 1][..i] == Ids(order)[..i];
      ok := ModifyBuffer(order[i], all, depth);
      if !ok {
        RelinkStaysFailed(g, depth, Ids(order), i + 1);
        return;
      }
      RelinkDescends(before, depth, order[i].id);
    }
    assert Ids(order)[..|order|] == Ids(order);
    return true;
  }
}
