/**
 Two checkpoints (CPs) share the index cache: CP n is flushed while CP n+1 already changes nodes.
 `get_writable_buf` keeps them apart by copying a buffer that is not clean. This module runs node
 writes, frees, cache misses and evictions and the flush together with the checkpoint
 manager. Acquiring a node for write, changing its bytes and adding it to the dirty list is one step.
 */
module CacheIsolation {

  import opened Options
  import opened Sequences
  import opened FlushGraph
  import C = Checkpoint

  type Node = nat
  type BufId = nat

  /** An IndexBuffer that backs a node: `bytes` stands for its content. */
  datatype NodeBuf = NodeBuf(node: Node, bytes: int, state: BufState, dirtiedCp: int, freed: bool)

  /** `nodes`: the buffer that backs each node now. `dirty`: the dirty lists of the CP contexts.
      `last` (what was last written to a node under a CP that did not free it), `flushed` (what was
      written to disk for a node on behalf of a CP) and `flushCp` (the CP of a node's latest flush) record history. */
  datatype State = State(
    cp: C.State,
    nodes: map<Node, BufId>,
    bufs: map<BufId, NodeBuf>,
    dirty: map<int, seq<BufId>>,
    disk: map<Node, int>,
    last: map<(Node, int), int>,
    flushed: map<(Node, int), int>,
    flushCp: map<Node, int>)

  datatype Step =
    | Cp(step: C.Step)
    | Create(guard: nat, node: Node, buf: BufId, bytes: int)
    | Load(node: Node, buf: BufId)
    | Evict(node: Node)
    | Write(guard: nat, node: Node, copy: BufId, bytes: int)
    | Free(guard: nat, node: Node, copy: BufId)
    | Pick(buf: BufId)
    | Complete(buf: BufId)

  function ListOf(s: State, c: int): seq<BufId> {
    if c in s.dirty then s.dirty[c] else []
  }

  /** get_writable_buf: None if the node already belongs to a newer CP, else the buffer to change:
      the node's own, or a copy if that one is not clean and belongs to an older CP. */
  function Writable(s: State, c: int, node: Node, copy: BufId): (r: Option<BufId>)
    requires node in s.nodes && s.nodes[node] in s.bufs
  {
    var b := s.nodes[node];
    if s.bufs[b].dirtiedCp == c then Some(b)
    else if s.bufs[b].dirtiedCp > c then None
    else if s.bufs[b].state != Clean then Some(copy)
    else Some(b)
  }

  /** The buffer becomes dirty in CP `c`; it is listed if it was clean (write_node_impl). */
  function Dirtied(s: State, c: int, node: Node, b: BufId, bytes: int): State {
    var listed := b in s.bufs && s.bufs[b].state != Clean;
    s.(nodes := s.nodes[node := b],
       bufs := s.bufs[b := NodeBuf(node, bytes, Dirty, c, false)],
       dirty := s.dirty[c := if listed then ListOf(s, c) else ListOf(s, c) + [b]],
       last := s.last[(node, c) := bytes])
  }

  /** free_buf: the node leaves the cache. Its buffer stays on the dirty list if it is there. */
  function FreeStep(s: State, c: int, node: Node, b: BufId): State
    requires node in s.nodes && s.nodes[node] in s.bufs
  {
    var bytes := s.bufs[s.nodes[node]].bytes;
    var state := if b in s.bufs then s.bufs[b].state else Clean;
    s.(nodes := s.nodes - {node}, bufs := s.bufs[b := NodeBuf(node, bytes, state, c, true)],
      last := s.last - {(node, c)})
  }

  function Without(bufs: map<BufId, NodeBuf>, node: Node): map<BufId, NodeBuf> {
    map b | b in bufs && bufs[b].node != node :: bufs[b]
  }

  ghost predicate Unused(bufs: map<BufId, NodeBuf>, node: Node) {
    forall b :: b in bufs ==> bufs[b].node != node
  }

  /** A block is handed out again only in a later CP than the one that freed it (DeferredFree). A node is
      read on a cache miss, and evicted only if its buffer is clean. */
  ghost predicate Enabled(s: State, step: Step) {
    match step
    case Cp(cs) =>
      // the index consumer completes its flush when all its buffers are clean
      && cs != C.Crash
      && (cs == C.Done ==> forall b :: b in s.bufs && s.bufs[b].dirtiedCp == s.cp.cur - 1 ==> s.bufs[b].state == Clean)
    case Create(g, n, b, _) =>
      && g in s.cp.guards && n !in s.nodes && b !in s.bufs
      && forall x :: x in s.bufs && s.bufs[x].node == n ==> s.bufs[x].dirtiedCp < s.cp.guards[g]
    case Load(n, b) => n !in s.nodes && b !in s.bufs && Unused(s.bufs, n) && n in s.disk
    case Evict(n) => n in s.nodes && s.nodes[n] in s.bufs && s.bufs[s.nodes[n]].state == Clean
    case Free(g, n, copy) => g in s.cp.guards && n in s.nodes && s.nodes[n] in s.bufs && copy !in s.bufs
    case Write(g, n, copy, _) => g in s.cp.guards && n in s.nodes && s.nodes[n] in s.bufs && copy !in s.bufs
    case Pick(b) => C.Prev(s.cp) == Some(C.Flushing) && b in s.bufs
                && s.bufs[b].state == Dirty && s.bufs[b].dirtiedCp == s.cp.cur - 1
    case Complete(b) => b in s.bufs && s.bufs[b].state == Flushing
  }

  function CompleteStep(s: State, b: BufId): State
    requires b in s.bufs
  {
    var buf := s.bufs[b];
    var t := s.(bufs := s.bufs[b := buf.(state := Clean)]);
    if buf.freed then t
    else
      t.(disk := s.disk[buf.node := buf.bytes],
         flushed := s.flushed[(buf.node, buf.dirtiedCp) := buf.bytes], flushCp := s.flushCp[buf.node := buf.dirtiedCp])
  }

  ghost function Apply(s: State, step: Step): State {
    if !Enabled(s, step) then s
    else
      match step
      case Cp(cs) => s.(cp := C.Apply(s.cp, cs))
      case Create(g, n, b, bytes) => Dirtied(s, s.cp.guards[g], n, b, bytes)
      case Write(g, n, copy, bytes) =>
        var c := s.cp.guards[g];
        var b := Writable(s, c, n, copy);
        if b == None then s else Dirtied(s, c, n, b.value, bytes)
      case Load(n, b) => s.(nodes := s.nodes[n := b], bufs := s.bufs[b := NodeBuf(n, s.disk[n], Clean, -1, false)])
      case Evict(n) => s.(nodes := s.nodes - {n}, bufs := Without(s.bufs, n))
      case Free(g, n, copy) =>
        var c := s.cp.guards[g];
        var b := Writable(s, c, n, copy);
        if b == None then s else FreeStep(s, c, n, b.value)
      case Pick(b) => s.(bufs := s.bufs[b := s.bufs[b].(state := Flushing)])
      case Complete(b) => CompleteStep(s, b)
  }

  ghost function Exec(s: State, steps: seq<Step>): State {
    if steps == [] then s else Apply(Exec(s, steps[..|steps| - 1]), steps[|steps| - 1])
  }

  // ---------- the invariant ----------

  /** Every cached node is backed by its newest buffer. */
  ghost predicate Backed(nodes: map<Node, BufId>, bufs: map<BufId, NodeBuf>) {
    && (forall n :: n in nodes ==> nodes[n] in bufs && bufs[nodes[n]].node == n && !bufs[nodes[n]].freed)
    && (forall b :: b in bufs && bufs[b].node in nodes ==>
          b == nodes[bufs[b].node] || bufs[b].dirtiedCp < bufs[nodes[bufs[b].node]].dirtiedCp)
  }

  ghost predicate Open(c: int, cur: int, prev: Option<C.Status>) {
    c == cur || (c == cur - 1 && (prev == Some(C.FlushPrepare) || prev == Some(C.Flushing)))
  }

  /** A buffer that is not clean belongs to the current CP or to the one before it while that is not
      flushed yet, and holds what was last written under that CP unless its node was freed there. */
  ghost predicate Contents(bufs: map<BufId, NodeBuf>, last: map<(Node, int), int>, cur: int, prev: Option<C.Status>) {
    && cur >= 0
    && (forall b :: b in bufs ==> bufs[b].dirtiedCp <= cur)
    && (forall b :: b in bufs && bufs[b].state == Clean && !bufs[b].freed ==> bufs[b].dirtiedCp < cur)
    && (forall b :: b in bufs && bufs[b].state != Clean ==> Open(bufs[b].dirtiedCp, cur, prev))
    && (forall b :: b in bufs && bufs[b].state != Clean && !bufs[b].freed ==>
          && (bufs[b].node, bufs[b].dirtiedCp) in last
          && bufs[b].bytes == last[(bufs[b].node, bufs[b].dirtiedCp)])
    && (forall b :: b in bufs && bufs[b].state == Flushing ==> bufs[b].dirtiedCp == cur - 1 && prev == Some(C.Flushing))
  }

  /** What was written to disk for a CP is what was last written under it; and once the flush of a CP
      has started it stays that way. */
  ghost predicate Final(last: map<(Node, int), int>, flushed: map<(Node, int), int>, cur: int, prev: Option<C.Status>) {
    && (forall k :: k in last ==> k.1 <= cur)
    && (forall k :: k in flushed ==>
         k in last && flushed[k] == last[k] && k.1 < cur && (k.1 == cur - 1 ==> prev != Some(C.FlushPrepare)))
  }

  ghost predicate Holds(bufs: map<BufId, NodeBuf>, b: BufId, n: Node, c: int) {
    b in bufs && bufs[b].node == n && bufs[b].dirtiedCp == c && bufs[b].state != Clean && !bufs[b].freed
  }

  ghost predicate Kept(bufs: map<BufId, NodeBuf>, flushed: map<(Node, int), int>, n: Node, c: int) {
    ((n, c) in flushed) || exists b :: Holds(bufs, b, n, c)
  }

  /** Nothing that was written is lost: it was flushed or is in a buffer that is not clean. */
  ghost predicate NothingLost(bufs: map<BufId, NodeBuf>, last: map<(Node, int), int>, flushed: map<(Node, int), int>) {
    forall k :: k in last ==> Kept(bufs, flushed, k.0, k.1)
  }

  /** The disk holds, for each node, what its latest flush wrote. */
  ghost predicate DiskLatest(disk: map<Node, int>, flushed: map<(Node, int), int>, flushCp: map<Node, int>) {
    && (forall n :: n in flushCp ==> (n, flushCp[n]) in flushed && n in disk && disk[n] == flushed[(n, flushCp[n])])
    && (forall k :: k in flushed ==> k.0 in flushCp && k.1 <= flushCp[k.0])
  }

  /** While a CP can be written to, its dirty list names each of its dirty buffers, once. */
  ghost predicate Listed(dirty: map<int, seq<BufId>>, bufs: map<BufId, NodeBuf>, cur: int, prev: Option<C.Status>) {
    && (forall c :: c in dirty ==> c <= cur)
    && (forall c :: c in dirty && (c == cur || (c == cur - 1 && prev == Some(C.FlushPrepare))) ==>
         ListedIn(dirty[c], bufs, c))
    && (forall b :: b in bufs && bufs[b].state == Dirty ==> bufs[b].dirtiedCp in dirty)
  }

  ghost predicate ListedIn(list: seq<BufId>, bufs: map<BufId, NodeBuf>, c: int) {
    Distinct(list) && forall b :: b in list <==> b in bufs && bufs[b].state == Dirty && bufs[b].dirtiedCp == c
  }

  ghost predicate Inv(s: State) {
    && C.Inv(s.cp)
    && Backed(s.nodes, s.bufs)
    && Contents(s.bufs, s.last, s.cp.cur, C.Prev(s.cp))
    && Final(s.last, s.flushed, s.cp.cur, C.Prev(s.cp))
    && NothingLost(s.bufs, s.last, s.flushed) && DiskLatest(s.disk, s.flushed, s.flushCp)
    && Listed(s.dirty, s.bufs, s.cp.cur, C.Prev(s.cp))
  }

  /** The checkpoint moves on: the flush ends only when every buffer of its CP is clean. */
  lemma CpContents(s: State, cp: C.State)
    requires Contents(s.bufs, s.last, s.cp.cur, C.Prev(s.cp)) && C.Cycle(s.cp, cp)
    requires C.Ends(s.cp, cp) ==> forall b :: b in s.bufs && s.bufs[b].dirtiedCp == s.cp.cur - 1 ==>
      s.bufs[b].state == Clean
    ensures Contents(s.bufs, s.last, cp.cur, C.Prev(cp))
  {
    hide C.Prev;
  }

  lemma CpFinal(s: State, cp: C.State)
    requires Final(s.last, s.flushed, s.cp.cur, C.Prev(s.cp)) && Listed(s.dirty, s.bufs, s.cp.cur, C.Prev(s.cp))
    requires C.Cycle(s.cp, cp)
    ensures Final(s.last, s.flushed, cp.cur, C.Prev(cp)) && Listed(s.dirty, s.bufs, cp.cur, C.Prev(cp))
  {
    hide C.Prev;
  }

  lemma CpKeeps(s: State, cs: C.Step)
    requires Inv(s) && Enabled(s, Cp(cs))
    ensures Inv(s.(cp := C.Apply(s.cp, cs)))
  {
    hide C.Inv, C.Apply, C.Prev, C.Cycle, C.Ends, NothingLost, DiskLatest, Backed, Contents, Final, Listed;
    C.StepKeeps(s.cp, cs);
    C.StepIsCycle(s.cp, cs);
    CpContents(s, C.Apply(s.cp, cs));
    CpFinal(s, C.Apply(s.cp, cs));
  }

  /** `b` may be dirtied for node `n` in CP `c`: it backs `n` and is clean or dirty in `c`, or it is
      new and `c` is newer than every buffer of `n`. */
  ghost predicate Chosen(nodes: map<Node, BufId>, bufs: map<BufId, NodeBuf>, c: int, n: Node, b: BufId) {
    && (b in bufs ==> n in nodes && nodes[n] == b && (bufs[b].dirtiedCp == c || bufs[b].state == Clean))
    && (forall x :: x in bufs && bufs[x].node == n && x != b ==> bufs[x].dirtiedCp < c)
    && (b in bufs ==> bufs[b].dirtiedCp <= c)
  }

  lemma DirtiedBacked(nodes: map<Node, BufId>, bufs: map<BufId, NodeBuf>, c: int, n: Node, b: BufId, bytes: int)
    requires Backed(nodes, bufs) && Chosen(nodes, bufs, c, n, b)
    ensures Backed(nodes[n := b], bufs[b := NodeBuf(n, bytes, Dirty, c, false)])
  {
  }

  lemma DirtiedContents(nodes: map<Node, BufId>, bufs: map<BufId, NodeBuf>, last: map<(Node, int), int>,
                        cur: int, prev: Option<C.Status>, c: int, n: Node, b: BufId, bytes: int)
    requires Backed(nodes, bufs) && Contents(bufs, last, cur, prev) && Chosen(nodes, bufs, c, n, b)
    requires c == cur || (c == cur - 1 && prev == Some(C.FlushPrepare))
    ensures Contents(bufs[b := NodeBuf(n, bytes, Dirty, c, false)], last[(n, c) := bytes], cur, prev)
  {
  }

  lemma DirtiedKept(nodes: map<Node, BufId>, bufs: map<BufId, NodeBuf>, last: map<(Node, int), int>,
                    flushed: map<(Node, int), int>,
                    c: int, n: Node, b: BufId, bytes: int)
    requires Backed(nodes, bufs) && NothingLost(bufs, last, flushed) && Chosen(nodes, bufs, c, n, b)
    ensures NothingLost(bufs[b := NodeBuf(n, bytes, Dirty, c, false)], last[(n, c) := bytes], flushed)
  {
    var bufs' := bufs[b := NodeBuf(n, bytes, Dirty, c, false)];
    assert Holds(bufs', b, n, c);
    forall k | k in last && k != (n, c) ensures Kept(bufs', flushed, k.0, k.1) {
      assert Kept(bufs, flushed, k.0, k.1);
      if (k.0, k.1) !in flushed {
        var h :| Holds(bufs, h, k.0, k.1);
        assert Holds(bufs', h, k.0, k.1);
      }
    }
  }

  lemma DirtiedListed(s: State, cur: int, prev: Option<C.Status>, c: int, n: Node, b: BufId, bytes: int)
    requires Listed(s.dirty, s.bufs, cur, prev) && Contents(s.bufs, s.last, cur, prev)
    requires Chosen(s.nodes, s.bufs, c, n, b)
    requires c == cur || (c == cur - 1 && prev == Some(C.FlushPrepare))
    ensures var t := Dirtied(s, c, n, b, bytes); Listed(t.dirty, t.bufs, cur, prev)
  {
    var t := Dirtied(s, c, n, b, bytes);
    if c in s.dirty {
      assert ListedIn(s.dirty[c], s.bufs, c);
    }
    assert ListedIn(t.dirty[c], t.bufs, c);
    forall d | d in t.dirty && d != c && (d == cur || (d == cur - 1 && prev == Some(C.FlushPrepare)))
      ensures ListedIn(t.dirty[d], t.bufs, d)
    {
      assert ListedIn(s.dirty[d], s.bufs, d);
    }
  }

  /** Dirtying a node keeps everything, given the buffer that get_writable_buf chose. */
  lemma DirtiedKeeps(s: State, c: int, n: Node, b: BufId, bytes: int)
    requires Inv(s) && (c == s.cp.cur || (c == s.cp.cur - 1 && C.Prev(s.cp) == Some(C.FlushPrepare)))
    requires Chosen(s.nodes, s.bufs, c, n, b)
    ensures Inv(Dirtied(s, c, n, b, bytes))
  {
    hide C.Inv, C.Prev, Backed, Contents, NothingLost, DiskLatest, Chosen, Listed;
    DirtiedListed(s, s.cp.cur, C.Prev(s.cp), c, n, b, bytes);
    DirtiedBacked(s.nodes, s.bufs, c, n, b, bytes);
    DirtiedContents(s.nodes, s.bufs, s.last, s.cp.cur, C.Prev(s.cp), c, n, b, bytes);
    DirtiedKept(s.nodes, s.bufs, s.last, s.flushed, c, n, b, bytes);
  }

  lemma WriteKeeps(s: State, g: nat, n: Node, copy: BufId, bytes: int)
    requires Inv(s) && Enabled(s, Write(g, n, copy, bytes))
    ensures Inv(Apply(s, Write(g, n, copy, bytes)))
  {
    hide C.Inv, C.Prev, Final, NothingLost, DiskLatest;
    C.GuardHolds(s.cp, g);
    var c := s.cp.guards[g];
    var b := Writable(s, c, n, copy);
    if b.Some? {
      DirtiedKeeps(s, c, n, b.value, bytes);
    }
  }

  /** Changing the state of a buffer to another that is not clean, or cleaning one that was flushed. */
  lemma StateKept(bufs: map<BufId, NodeBuf>, last: map<(Node, int), int>, flushed: map<(Node, int), int>,
                  flushed': map<(Node, int), int>,
                  b: BufId, state: BufState)
    requires NothingLost(bufs, last, flushed) && b in bufs && flushed.Keys <= flushed'.Keys
    requires state != Clean || bufs[b].freed || (bufs[b].node, bufs[b].dirtiedCp) in flushed'
    ensures NothingLost(bufs[b := bufs[b].(state := state)], last, flushed')
  {
    var bufs' := bufs[b := bufs[b].(state := state)];
    forall k | k in last ensures Kept(bufs', flushed', k.0, k.1) {
      assert Kept(bufs, flushed, k.0, k.1);
      if (k.0, k.1) !in flushed' {
        var h :| Holds(bufs, h, k.0, k.1);
        assert Holds(bufs', h, k.0, k.1);
      }
    }
  }

  /** The flush touches only buffers of a CP that can no longer be written to. */
  lemma FlushListed(dirty: map<int, seq<BufId>>, bufs: map<BufId, NodeBuf>, cur: int, prev: Option<C.Status>, b: BufId,
                    state: BufState)
    requires Listed(dirty, bufs, cur, prev) && b in bufs && bufs[b].dirtiedCp == cur - 1 && prev == Some(C.Flushing)
    requires state != Dirty
    ensures Listed(dirty, bufs[b := bufs[b].(state := state)], cur, prev)
  {
    var bufs' := bufs[b := bufs[b].(state := state)];
    if cur in dirty {
      assert ListedIn(dirty[cur], bufs, cur);
      assert ListedIn(dirty[cur], bufs', cur);
    }
  }

  lemma StateBacked(nodes: map<Node, BufId>, bufs: map<BufId, NodeBuf>, b: BufId, state: BufState)
    requires Backed(nodes, bufs) && b in bufs
    ensures Backed(nodes, bufs[b := bufs[b].(state := state)])
  {
  }

  lemma PickKeeps(s: State, b: BufId)
    requires Inv(s) && Enabled(s, Pick(b))
    ensures Inv(Apply(s, Pick(b)))
  {
    hide C.Inv, C.Prev, NothingLost, DiskLatest, Final, Listed, Backed;
    StateBacked(s.nodes, s.bufs, b, Flushing);
    FlushListed(s.dirty, s.bufs, s.cp.cur, C.Prev(s.cp), b, Flushing);
    StateKept(s.bufs, s.last, s.flushed, s.flushed, b, Flushing);
  }

  lemma CompleteDisk(disk: map<Node, int>, flushed: map<(Node, int), int>, flushCp: map<Node, int>, n: Node, c: int,
                     bytes: int)
    requires DiskLatest(disk, flushed, flushCp) && forall k :: k in flushed ==> k.1 <= c
    ensures DiskLatest(disk[n := bytes], flushed[(n, c) := bytes], flushCp[n := c])
  {
  }

  lemma CompleteContents(bufs: map<BufId, NodeBuf>, last: map<(Node, int), int>, cur: int, prev: Option<C.Status>,
                         b: BufId)
    requires Contents(bufs, last, cur, prev) && b in bufs && bufs[b].state == Flushing
    ensures Contents(bufs[b := bufs[b].(state := Clean)], last, cur, prev)
    ensures bufs[b].dirtiedCp == cur - 1 && prev == Some(C.Flushing)
    ensures !bufs[b].freed ==> (bufs[b].node, cur - 1) in last && bufs[b].bytes == last[(bufs[b].node, cur - 1)]
  {
  }

  lemma CompleteFinal(last: map<(Node, int), int>, flushed: map<(Node, int), int>, cur: int, prev: Option<C.Status>,
                      n: Node)
    requires Final(last, flushed, cur, prev) && prev == Some(C.Flushing) && (n, cur - 1) in last
    ensures Final(last, flushed[(n, cur - 1) := last[(n, cur - 1)]], cur, prev)
    ensures forall k :: k in flushed ==> k.1 <= cur - 1
  {
  }

  lemma CompleteKeeps(s: State, b: BufId)
    requires Inv(s) && Enabled(s, Complete(b))
    ensures Inv(Apply(s, Complete(b)))
  {
    hide C.Inv, C.Apply, C.Prev, NothingLost, DiskLatest, Listed, Backed, Contents, Final;
    CompleteContents(s.bufs, s.last, s.cp.cur, C.Prev(s.cp), b);
    StateBacked(s.nodes, s.bufs, b, Clean);
    FlushListed(s.dirty, s.bufs, s.cp.cur, C.Prev(s.cp), b, Clean);
    var t, buf := CompleteStep(s, b), s.bufs[b];
    StateKept(s.bufs, s.last, s.flushed, t.flushed, b, Clean);
    if !buf.freed {
      CompleteFinal(s.last, s.flushed, s.cp.cur, C.Prev(s.cp), buf.node);
      CompleteDisk(s.disk, s.flushed, s.flushCp, buf.node, buf.dirtiedCp, buf.bytes);
    }
  }

  lemma FreeKept(bufs: map<BufId, NodeBuf>, last: map<(Node, int), int>, flushed: map<(Node, int), int>, c: int,
                 n: Node,
                 b: BufId, more: NodeBuf)
    requires NothingLost(bufs, last, flushed)
    requires b in bufs ==> bufs[b].node == n && (bufs[b].state != Clean ==> bufs[b].dirtiedCp == c)
    ensures NothingLost(bufs[b := more], last - {(n, c)}, flushed)
  {
    var bufs' := bufs[b := more];
    forall k | k in last && k != (n, c)
      ensures Kept(bufs', flushed, k.0, k.1)
    {
      assert Kept(bufs, flushed, k.0, k.1);
      if (k.0, k.1) !in flushed {
        var h :| Holds(bufs, h, k.0, k.1);
        assert Holds(bufs', h, k.0, k.1);
      }
    }
  }

  lemma FreeListed(s: State, cur: int, prev: Option<C.Status>, c: int, n: Node, b: BufId)
    requires Listed(s.dirty, s.bufs, cur, prev) && n in s.nodes && s.nodes[n] in s.bufs
    requires Chosen(s.nodes, s.bufs, c, n, b)
    ensures var t := FreeStep(s, c, n, b); Listed(t.dirty, t.bufs, cur, prev)
  {
    var t := FreeStep(s, c, n, b);
    forall d | d in t.dirty && (d == cur || (d == cur - 1 && prev == Some(C.FlushPrepare)))
      ensures ListedIn(t.dirty[d], t.bufs, d)
    {
      assert ListedIn(s.dirty[d], s.bufs, d);
    }
  }

  lemma FreeContents(s: State, cur: int, prev: Option<C.Status>, c: int, n: Node, b: BufId)
    requires Backed(s.nodes, s.bufs) && Contents(s.bufs, s.last, cur, prev)
    requires n in s.nodes && s.nodes[n] in s.bufs && Chosen(s.nodes, s.bufs, c, n, b) && c <= cur
    ensures var t := FreeStep(s, c, n, b); Contents(t.bufs, t.last, cur, prev)
  {
  }

  lemma FreeBacked(s: State, c: int, n: Node, b: BufId)
    requires Backed(s.nodes, s.bufs) && n in s.nodes && s.nodes[n] in s.bufs && Chosen(s.nodes, s.bufs, c, n, b)
    ensures var t := FreeStep(s, c, n, b); Backed(t.nodes, t.bufs)
  {
  }

  lemma FreeFinal(last: map<(Node, int), int>, flushed: map<(Node, int), int>, cur: int, prev: Option<C.Status>, c: int,
                  n: Node)
    requires Final(last, flushed, cur, prev) && (c == cur || (c == cur - 1 && prev == Some(C.FlushPrepare)))
    ensures Final(last - {(n, c)}, flushed, cur, prev)
  {
  }

  lemma FreedKeeps(s: State, c: int, n: Node, b: BufId)
    requires Inv(s) && (c == s.cp.cur || (c == s.cp.cur - 1 && C.Prev(s.cp) == Some(C.FlushPrepare)))
    requires n in s.nodes && s.nodes[n] in s.bufs && Chosen(s.nodes, s.bufs, c, n, b)
    requires b in s.bufs ==> s.bufs[b].node == n
    ensures Inv(FreeStep(s, c, n, b))
  {
    hide C.Inv, C.Prev, Backed, Contents, NothingLost, DiskLatest, Listed, Final;
    FreeListed(s, s.cp.cur, C.Prev(s.cp), c, n, b);
    FreeContents(s, s.cp.cur, C.Prev(s.cp), c, n, b);
    FreeBacked(s, c, n, b);
    FreeFinal(s.last, s.flushed, s.cp.cur, C.Prev(s.cp), c, n);
    var t := FreeStep(s, c, n, b);
    FreeKept(s.bufs, s.last, s.flushed, c, n, b, t.bufs[b]);
  }

  lemma FreeKeeps(s: State, g: nat, n: Node, copy: BufId)
    requires Inv(s) && Enabled(s, Free(g, n, copy))
    ensures Inv(Apply(s, Free(g, n, copy)))
  {
    hide C.Inv, C.Prev, Final, NothingLost, DiskLatest, Listed;
    C.GuardHolds(s.cp, g);
    var c := s.cp.guards[g];
    var b := Writable(s, c, n, copy);
    if b.Some? {
      FreedKeeps(s, c, n, b.value);
    }
  }

  lemma LoadKeeps(s: State, n: Node, b: BufId)
    requires Inv(s) && Enabled(s, Load(n, b))
    ensures Inv(Apply(s, Load(n, b)))
  {
    hide C.Inv, C.Apply, C.Prev, Final, DiskLatest, NothingLost, Listed, Backed, Contents;
    var t := Apply(s, Load(n, b));
    LoadBacked(s.nodes, s.bufs, s.last, s.cp.cur, C.Prev(s.cp), b, t.bufs[b]);
    MoreKept(s.bufs, s.last, s.flushed, b, t.bufs[b]);
    MoreListed(s.dirty, s.bufs, s.cp.cur, C.Prev(s.cp), b, t.bufs[b]);
  }

  lemma LoadBacked(nodes: map<Node, BufId>, bufs: map<BufId, NodeBuf>, last: map<(Node, int), int>, cur: int,
                   prev: Option<C.Status>, b: BufId, more: NodeBuf)
    requires Backed(nodes, bufs) && Contents(bufs, last, cur, prev) && b !in bufs && Unused(bufs, more.node)
    requires more.node !in nodes && more.state == Clean && !more.freed && more.dirtiedCp == -1
    ensures Backed(nodes[more.node := b], bufs[b := more]) && Contents(bufs[b := more], last, cur, prev)
  {
  }

  lemma MoreKept(bufs: map<BufId, NodeBuf>, last: map<(Node, int), int>, flushed: map<(Node, int), int>, b: BufId,
                 more: NodeBuf)
    requires NothingLost(bufs, last, flushed) && b !in bufs
    ensures NothingLost(bufs[b := more], last, flushed)
  {
    forall k | k in last
      ensures Kept(bufs[b := more], flushed, k.0, k.1)
    {
      assert Kept(bufs, flushed, k.0, k.1);
      if (k.0, k.1) !in flushed {
        var h :| Holds(bufs, h, k.0, k.1);
        assert Holds(bufs[b := more], h, k.0, k.1);
      }
    }
  }

  lemma MoreListed(dirty: map<int, seq<BufId>>, bufs: map<BufId, NodeBuf>, cur: int, prev: Option<C.Status>, b: BufId,
                   more: NodeBuf)
    requires Listed(dirty, bufs, cur, prev) && b !in bufs && more.state == Clean
    ensures Listed(dirty, bufs[b := more], cur, prev)
  {
    forall d | d in dirty && (d == cur || (d == cur - 1 && prev == Some(C.FlushPrepare)))
      ensures ListedIn(dirty[d], bufs[b := more], d)
    {
      assert ListedIn(dirty[d], bufs, d);
    }
  }

  /** When the buffer that backs a node is clean, so are the older ones. */
  lemma AllClean(nodes: map<Node, BufId>, bufs: map<BufId, NodeBuf>, last: map<(Node, int), int>, cur: int,
                 prev: Option<C.Status>, n: Node)
    requires Backed(nodes, bufs) && Contents(bufs, last, cur, prev)
    requires n in nodes && nodes[n] in bufs && bufs[nodes[n]].state == Clean
    ensures forall b :: b in bufs && bufs[b].node == n ==> bufs[b].state == Clean
  {
  }

  lemma FewerKept(bufs: map<BufId, NodeBuf>, last: map<(Node, int), int>, flushed: map<(Node, int), int>, n: Node)
    requires NothingLost(bufs, last, flushed) && forall b :: b in bufs && bufs[b].node == n ==> bufs[b].state == Clean
    ensures NothingLost(Without(bufs, n), last, flushed)
  {
    forall k | k in last
      ensures Kept(Without(bufs, n), flushed, k.0, k.1)
    {
      assert Kept(bufs, flushed, k.0, k.1);
      if (k.0, k.1) !in flushed {
        var h :| Holds(bufs, h, k.0, k.1);
        assert Holds(Without(bufs, n), h, k.0, k.1);
      }
    }
  }

  lemma FewerListed(dirty: map<int, seq<BufId>>, bufs: map<BufId, NodeBuf>, cur: int, prev: Option<C.Status>, n: Node)
    requires Listed(dirty, bufs, cur, prev) && forall b :: b in bufs && bufs[b].node == n ==> bufs[b].state == Clean
    ensures Listed(dirty, Without(bufs, n), cur, prev)
  {
    forall d | d in dirty && (d == cur || (d == cur - 1 && prev == Some(C.FlushPrepare)))
      ensures ListedIn(dirty[d], Without(bufs, n), d)
    {
      assert ListedIn(dirty[d], bufs, d);
    }
  }

  lemma EvictKeeps(s: State, n: Node)
    requires Inv(s) && Enabled(s, Evict(n))
    ensures Inv(Apply(s, Evict(n)))
  {
    hide C.Inv, C.Apply, C.Prev, Final, DiskLatest, NothingLost, Listed;
    AllClean(s.nodes, s.bufs, s.last, s.cp.cur, C.Prev(s.cp), n);
    FewerKept(s.bufs, s.last, s.flushed, n);
    FewerListed(s.dirty, s.bufs, s.cp.cur, C.Prev(s.cp), n);
  }

  lemma StepKeeps(s: State, step: Step)
    requires Inv(s)
    ensures Inv(Apply(s, step))
  {
    if Enabled(s, step) {
      match step
      case Cp(cs) => CpKeeps(s, cs);
      case Create(g, n, b, bytes) => CreateKeeps(s, g, n, b, bytes);
      case Write(g, n, copy, bytes) => WriteKeeps(s, g, n, copy, bytes);
      case Load(n, b) => LoadKeeps(s, n, b);
      case Evict(n) => EvictKeeps(s, n);
      case Free(g, n, copy) => FreeKeeps(s, g, n, copy);
      case Pick(b) => PickKeeps(s, b);
      case Complete(b) => CompleteKeeps(s, b);
    }
  }

  lemma CreateKeeps(s: State, g: nat, n: Node, b: BufId, bytes: int)
    requires Inv(s) && Enabled(s, Create(g, n, b, bytes))
    ensures Inv(Apply(s, Create(g, n, b, bytes)))
  {
    hide C.Inv, C.Prev, Final, NothingLost, DiskLatest;
    C.GuardHolds(s.cp, g);
    DirtiedKeeps(s, s.cp.guards[g], n, b, bytes);
  }

  lemma {:induction false} RunKeeps(s: State, steps: seq<Step>)
    requires Inv(s)
    ensures Inv(Exec(s, steps))
  {
    hide Inv, Apply;
    if steps != [] {
      RunKeeps(s, steps[..|steps| - 1]);
      StepKeeps(Exec(s, steps[..|steps| - 1]), steps[|steps| - 1]);
    }
  }

  // ---------- the theorems ----------

  ghost predicate Start(s: State) {
    && (exists lastFlushed :: lastFlushed >= -1 && s.cp == C.Boot(lastFlushed, None))
    && s.nodes == map[] && s.bufs == map[] && s.dirty == map[] && s.last == map[] && s.flushed == map[]
    && s.flushCp == map[]
  }

  /** In every run in which CP n is flushed while CP n+1 changes nodes: what is written to disk on
      behalf of a CP is what was last written under that CP, also in hindsight; the content of a
      buffer being flushed is that, all the time; and when the index flush of a CP is done, every
      node changed and not freed under it is on disk as that CP left it. */
  lemma IsolationRun(s: State, steps: seq<Step>)
    requires Start(s)
    ensures var t := Exec(s, steps);
      && (forall k :: k in t.flushed ==> k in t.last && t.flushed[k] == t.last[k])
      && (forall b :: b in t.bufs && t.bufs[b].state == Flushing && !t.bufs[b].freed ==>
            && t.bufs[b].dirtiedCp == t.cp.cur - 1
            && (t.bufs[b].node, t.cp.cur - 1) in t.last && t.bufs[b].bytes == t.last[(t.bufs[b].node, t.cp.cur - 1)])
      && (C.Prev(t.cp) == Some(C.FlushDone) ==> forall n :: (n, t.cp.cur - 1) in t.last ==>
            n in t.disk && t.disk[n] == t.last[(n, t.cp.cur - 1)])
  {
    hide Inv, Exec, C.Prev;
    StartInv(s);
    RunKeeps(s, steps);
    var t := Exec(s, steps);
    FlushedMeans(t);
    WritingMeans(t);
    if C.Prev(t.cp) == Some(C.FlushDone) {
      DoneMeans(t);
    }
  }

  lemma StartInv(s: State)
    requires Start(s)
    ensures Inv(s)
  {
    var lastFlushed :| lastFlushed >= -1 && s.cp == C.Boot(lastFlushed, None);
    C.BootInv(lastFlushed, None);
    hide C.Inv;
  }

  lemma FlushedMeans(t: State)
    requires Inv(t)
    ensures forall k :: k in t.flushed ==> k in t.last && t.flushed[k] == t.last[k]
  {
    hide C.Inv, C.Prev, Backed, NothingLost, DiskLatest, Contents;
  }

  lemma WritingMeans(t: State)
    requires Inv(t)
    ensures forall b :: b in t.bufs && t.bufs[b].state == Flushing && !t.bufs[b].freed ==>
      && t.bufs[b].dirtiedCp == t.cp.cur - 1
      && (t.bufs[b].node, t.cp.cur - 1) in t.last && t.bufs[b].bytes == t.last[(t.bufs[b].node, t.cp.cur - 1)]
  {
    hide C.Inv, C.Prev, Backed, NothingLost, DiskLatest, Final;
  }

  lemma DoneMeans(t: State)
    requires Inv(t) && C.Prev(t.cp) == Some(C.FlushDone)
    ensures forall n :: (n, t.cp.cur - 1) in t.last ==> n in t.disk && t.disk[n] == t.last[(n, t.cp.cur - 1)]
  {
    hide C.Inv, C.Prev, Backed;
    forall n | (n, t.cp.cur - 1) in t.last ensures n in t.disk && t.disk[n] == t.last[(n, t.cp.cur - 1)] {
      var c := t.cp.cur - 1;
      assert Kept(t.bufs, t.flushed, n, c);
      assert forall b :: !Holds(t.bufs, b, n, c);
      assert (n, c) in t.flushed;
      assert t.flushCp[n] == t.cp.cur - 1;
    }
  }

  /** The assertion in get_writable_buf: a buffer that is not clean and belongs to an older CP belongs
      to the one directly before; and no buffer being flushed is ever written. */
  lemma CopiedIsPrevious(s: State, steps: seq<Step>, g: nat, n: Node)
    requires Start(s)
    requires var t := Exec(s, steps); g in t.cp.guards && n in t.nodes
    ensures var t := Exec(s, steps);
      && t.nodes[n] in t.bufs
      && var buf, c := t.bufs[t.nodes[n]], t.cp.guards[g];
      && (buf.state != Clean && buf.dirtiedCp < c ==> buf.dirtiedCp == c - 1)
      && (buf.state == Flushing ==> buf.dirtiedCp != c)
  {
    hide Exec, C.Inv, C.Prev, NothingLost, DiskLatest, Final;
    StartInv(s);
    RunKeeps(s, steps);
    C.GuardHolds(Exec(s, steps).cp, g);
  }

  /** When the flush of a CP is about to start, its dirty list is as FlushGraph.Initial demands: every
      dirty buffer of the CP is listed, once, and nothing else is. */
  lemma ListedOnce(s: State, steps: seq<Step>)
    requires Start(s) && C.Prev(Exec(s, steps).cp) == Some(C.FlushPrepare)
    ensures var t := Exec(s, steps);
            var c := t.cp.cur - 1;
            && Distinct(ListOf(t, c))
            && forall b :: b in ListOf(t, c) <==> b in t.bufs && t.bufs[b].state == Dirty && t.bufs[b].dirtiedCp == c
  {
    hide Exec, C.Inv, C.Prev, NothingLost, DiskLatest, Final, Contents, Backed;
    StartInv(s);
    RunKeeps(s, steps);
    var t := Exec(s, steps);
    var c := t.cp.cur - 1;
    assert c in t.dirty ==> ListedIn(t.dirty[c], t.bufs, c);
  }

  /** A node read from disk is the newest: whatever any CP wrote to it has been flushed, and the disk holds
      the latest of these. */
  lemma LoadsLatest(s: State, steps: seq<Step>, n: Node, b: BufId)
    requires Start(s) && Enabled(Exec(s, steps), Load(n, b))
    ensures var t := Exec(s, steps);
            forall c :: (n, c) in t.last ==>
              && n in t.flushCp && c <= t.flushCp[n] && (n, t.flushCp[n]) in t.last
              && t.disk[n] == t.last[(n, t.flushCp[n])]
  {
    hide Exec, C.Inv, C.Prev, Contents, Listed, Backed;
    StartInv(s);
    RunKeeps(s, steps);
    var t := Exec(s, steps);
    forall c | (n, c) in t.last
      ensures (n, c) in t.flushed
    {
      assert Kept(t.bufs, t.flushed, n, c);
      assert forall x :: !Holds(t.bufs, x, n, c);
    }
  }
}
