/**
 Building the flush graph of a checkpoint: `link_buf` and `transact_bufs`.

 A link says that the down buffer has to be written before the up buffer. No link may target a
 buffer created in the same checkpoint: such a buffer hands its own up link on.
 */
module LinkGraph {

  import opened Options
  import opened Sequences
  import opened FlushGraph

  /** The buffer that a request to link to `up` really links to. */
  function RealUp<B(==)>(g: Graph<B>, id: int, up: B): (r: Option<B>)
    requires up in g
  {
    if g[up].createdCp == id then g[up].up else Some(up)
  }

  /** What link_buf asserts or dereferences: both buffers exist, and an up buffer created in this
      checkpoint has an up link of its own. */
  ghost predicate CanLink<B>(g: Graph<B>, id: int, up: B, down: B) {
    && up in g && down in g
    && (g[up].createdCp == id ==> g[up].up.Some?)
    && Closed(g)
  }

  ghost predicate Closed<B>(g: Graph<B>) {
    forall b :: b in g && g[b].up.Some? ==> g[b].up.value in g
  }

  /** `b` gains (n = 1) or loses (n = -1) a buffer to wait for. */
  function AddWait<B(==)>(g: Graph<B>, b: B, n: int): Graph<B>
    requires b in g
  {
    g[b := g[b].(wait := g[b].wait + n)]
  }

  function SetUp<B(==)>(g: Graph<B>, b: B, up: Option<B>): Graph<B>
    requires b in g
  {
    g[b := g[b].(up := up)]
  }

  /** Move the link of `down` to `up`, with the counts of both ends. */
  function Move<B(==)>(g: Graph<B>, down: B, up: B): Graph<B>
    requires down in g && up in g && (g[down].up.Some? ==> g[down].up.value in g)
  {
    var g1 := if g[down].up.Some? then AddWait(g, g[down].up.value, -1) else g;
    AddWait(SetUp(g1, down, Some(up)), up, 1)
  }

  /** link_buf: an existing link is kept unless this is a sibling link to another buffer. */
  ghost function Link<B>(g: Graph<B>, id: int, up: B, down: B, sibling: bool): Graph<B>
    requires CanLink(g, id, up, down)
  {
    var target := RealUp(g, id, up);
    if g[down].up.Some? && (!sibling || g[down].up == target) then g
    else Move(g, down, target.value)
  }

  // ---------- what every link_buf call keeps ----------

  ghost predicate CountsMatch<B(!new)>(g: Graph<B>) {
    forall u :: u in g ==> g[u].wait == |Below(g, g.Keys, u)|
  }

  ghost predicate NoNewTargets<B>(g: Graph<B>, id: int) {
    forall b :: b in g && g[b].up.Some? && g[b].up.value in g ==> g[g[b].up.value].createdCp != id
  }

  /** Links lead to buffers of higher rank, so they are acyclic. */
  ghost predicate Climbs<B>(g: Graph<B>, rank: map<B, nat>) {
    forall b :: b in g ==>
      && b in rank
      && (g[b].up.Some? ==> g[b].up.value in rank && rank[b] < rank[g[b].up.value])
  }

  ghost predicate LinkInv<B(!new)>(g: Graph<B>, id: int, rank: map<B, nat>) {
    Closed(g) && CountsMatch(g) && NoNewTargets(g, id) && Climbs(g, rank)
  }

  /** The field values after a move. */
  lemma MoveEffect<B(!new)>(g: Graph<B>, down: B, up: B)
    requires down in g && up in g && (g[down].up.Some? ==> g[down].up.value in g)
    ensures var h := Move(g, down, up);
      && h.Keys == g.Keys
      && (forall b :: b in g ==> h[b] == g[b].(up := if b == down then Some(up) else g[b].up,
            wait := g[b].wait + (if b == up then 1 else 0) - (if g[down].up == Some(b) then 1 else 0)))
  {
  }

  lemma BelowAfterMove<B(!new)>(g: Graph<B>, h: Graph<B>, down: B, up: B, u: B)
    requires h.Keys == g.Keys && down in g
    requires forall b :: b in g ==> h[b].up == if b == down then Some(up) else g[b].up
    ensures |Below(h, h.Keys, u)| ==
            |Below(g, g.Keys, u)| + (if u == up then 1 else 0) - (if g[down].up == Some(u) then 1 else 0)
  {
    if u == up {
      assert Below(h, h.Keys, u) == Below(g, g.Keys, u) + {down};
    } else {
      assert Below(h, h.Keys, u) == Below(g, g.Keys, u) - {down};
    }
  }

  /** Moving one link changes exactly the counts of its two ends. */
  lemma MoveCounts<B(!new)>(g: Graph<B>, down: B, up: B)
    requires Closed(g) && CountsMatch(g) && down in g && up in g
    ensures CountsMatch(Move(g, down, up))
  {
    hide Move;
    var h := Move(g, down, up);
    MoveEffect(g, down, up);
    forall u | u in h ensures h[u].wait == |Below(h, h.Keys, u)| {
      BelowAfterMove(g, h, down, up, u);
    }
  }

  lemma LinkKeeps<B(!new)>(g: Graph<B>, id: int, rank: map<B, nat>, up: B, down: B, sibling: bool)
    requires LinkInv(g, id, rank) && CanLink(g, id, up, down)
    requires up in rank && down in rank && rank[down] < rank[up]
    ensures LinkInv(Link(g, id, up, down, sibling), id, rank)
  {
    hide Move, CountsMatch;
    var target := RealUp(g, id, up).value;
    MoveCounts(g, down, target);
    MoveEffect(g, down, target);
  }

  // ---------- runs of link_buf ----------

  datatype LinkCall<B> = LinkCall(up: B, down: B, sibling: bool)

  /** A sequence of calls; one that link_buf would reject does nothing. */
  ghost function LinkAll<B(!new)>(g: Graph<B>, id: int, calls: seq<LinkCall<B>>): Graph<B> {
    if calls == [] then g
    else
      var h := LinkAll(g, id, calls[..|calls| - 1]);
      var c := calls[|calls| - 1];
      if CanLink(h, id, c.up, c.down) then Link(h, id, c.up, c.down, c.sibling) else h
  }

  /** For every sequence of link_buf calls in a checkpoint: each count equals the number of buffers
      linked to it, no link targets a buffer created in this checkpoint, and links stay acyclic if
      the up buffer of every call ranks above its down buffer. */
  lemma {:induction false} LinkRun<B(!new)>(g: Graph<B>, id: int, rank: map<B, nat>, calls: seq<LinkCall<B>>)
    requires LinkInv(g, id, rank)
    requires forall c :: c in calls ==> c.up in rank && c.down in rank && rank[c.down] < rank[c.up]
    ensures LinkInv(LinkAll(g, id, calls), id, rank)
  {
    if calls != [] {
      hide LinkInv, Link;
      var n := |calls| - 1;
      LinkRun(g, id, rank, calls[..n]);
      var h, c := LinkAll(g, id, calls[..n]), calls[n];
      if CanLink(h, id, c.up, c.down) {
        LinkKeeps(h, id, rank, c.up, c.down, c.sibling);
      }
    }
  }

  /** A graph built by link_buf, all of whose linked buffers are dirty and listed once, is one that
      FlushGraph.FlushRun and FlushGraph.NeverStalls speak about. */
  lemma LinkedIsFlushable<B(!new)>(g: Graph<B>, id: int, rank: map<B, nat>, list: seq<B>)
    requires LinkInv(g, id, rank)
    requires list != [] && Distinct(list)
    requires forall b :: b in list ==> b in g && g[b].state == Dirty && g[b].dirtiedCp == id
    requires forall b :: b in g && g[b].up.Some? ==> b in list && g[b].up.value in list
    ensures var s := Flush(id, g, g, list, 0, |list|, {}, {}, {}, [], 0);
            Initial(s) && Ranked(s.orig, s.list, rank)
  {
    var dom := set b | b in list;
    forall u | u in list ensures g[u].wait == |Below(g, dom, u)| {
      assert Below(g, dom, u) == Below(g, g.Keys, u);
    }
  }
}
