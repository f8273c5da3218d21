/**
 Blocks freed by the index are kept on the free list of the checkpoint (CP) that freed them. They go
 back to the allocator near the end of the flush of that CP, before the superblock records it.
 This module runs the life cycle of blocks and node buffers together with the checkpoint manager.
 */
module DeferredFree {

  import opened Options
  import C = Checkpoint

  type Blk = nat

  /** A dirty buffer of CP `cp`: the contents of the node that CP `created` put on block `blk`. */
  datatype Buf = Buf(cp: int, blk: Blk, created: int)

  /** A node write as it reached the disk: the buffer, the CP that created the node which owned the
      block at that moment, the CP in which the node before it was freed, and what the superblock
      recorded then. */
  datatype Write = Write(buf: Buf, owner: Option<int>, prevFreed: Option<int>, recorded: int)

  /** `live`: blocks in use by index nodes, with the CP that created them. `freed`: the same for freed
      nodes whose blocks are on a free list. `freeList`: the free lists in the CP contexts. `free`:
      blocks the allocator may hand out. `bufs`: dirty buffers of nodes not yet written; `metas`: those of
      table superblocks, by CP and table; `dirty`: the CPs that got any of either. `applied`: the
      CPs whose free list was applied. The others record history. */
  datatype State = State(
    cp: C.State,
    free: set<Blk>,
    live: map<Blk, int>,
    freed: map<Blk, int>,
    freeList: map<int, seq<Blk>>,
    bufs: set<Buf>,
    metas: set<(int, nat)>,
    dirty: set<int>,
    applied: set<int>,
    freedIn: map<Blk, int>,
    listed: set<(int, Blk)>,
    returned: set<(int, Blk)>,
    writes: seq<Write>)

  datatype Step =
    | Cp(step: C.Step)
    | Alloc(guard: nat, blk: Blk)
    | Dirty(guard: nat, blk: Blk)
    | MetaDirty(guard: nat, table: nat)
    | Free(guard: nat, blk: Blk)
    | NodeWrite(buf: Buf)
    | MetaWrite(table: nat)
    | VdevFlush

  /** A start or restart: free blocks and the nodes that are there, with the CPs that created them. */
  ghost function Start(lastFlushed: int, blocks: set<Blk>, nodes: map<Blk, int>): State {
    State(C.Boot(lastFlushed, None), blocks - nodes.Keys, nodes, map[], map[], {}, {}, {}, {}, map[], {}, {}, [])
  }

  function ListOf(s: State, c: int): seq<Blk> {
    if c in s.freeList then s.freeList[c] else []
  }

  /** async_cp_flush flushes the virtual device only for these CPs. */
  predicate HasWork(dirty: set<int>, c: int) {
    c in dirty || c == 0
  }

  ghost predicate Written(s: State, c: int) {
    (forall w :: w in s.bufs ==> w.cp != c) && (forall m :: m in s.metas ==> m.0 != c)
  }

  /** refresh_meta_buf: the same for the superblock of a table. */
  ghost predicate MetaWritable(s: State, table: nat, c: int) {
    forall m :: m in s.metas && m.1 == table ==> m.0 <= c
  }

  /** get_writable_buf: a node that a newer CP has created or changed is not given to an older one. */
  ghost predicate Writable(s: State, b: Blk, c: int) {
    b in s.live && s.live[b] <= c && forall w :: w in s.bufs && w.blk == b ==> w.cp <= c
  }

  /** The flush of a CP is over when its buffers are written and its free list is applied, if
      the code applies it at all. */
  ghost predicate Enabled(s: State, step: Step) {
    var c := s.cp.cur - 1;
    match step
    case Cp(cs) =>
      cs != C.Crash && (cs == C.Done ==> Written(s, c) && (HasWork(s.dirty, c) ==> c in s.applied))
    case Alloc(g, b) => g in s.cp.guards && b in s.free
    case Dirty(g, b) => g in s.cp.guards && Writable(s, b, s.cp.guards[g])
    case Free(g, b) => g in s.cp.guards && Writable(s, b, s.cp.guards[g])
    case MetaDirty(g, o) => g in s.cp.guards && MetaWritable(s, o, s.cp.guards[g])
    case NodeWrite(w) => C.Prev(s.cp) == Some(C.Flushing) && w in s.bufs && w.cp == c
    case MetaWrite(o) => C.Prev(s.cp) == Some(C.Flushing) && (c, o) in s.metas
    case VdevFlush =>
      C.Prev(s.cp) == Some(C.Flushing) && Written(s, c) && HasWork(s.dirty, c) && c !in s.applied
  }

  function Lookup(m: map<Blk, int>, b: Blk): Option<int> {
    if b in m then Some(m[b]) else None
  }

  /** The CP that created the node a block belongs to. */
  function Owner(s: State, b: Blk): Option<int> {
    if b in s.live then Some(s.live[b]) else Lookup(s.freed, b)
  }

  /** alloc_buf; write_buf; refresh_meta_buf; free_buf with a CP context, after which a dirty buffer of the
      same CP is not written any more; the writes of do_flush_one_buf; VirtualDev::cp_flush. */
  ghost function Apply(s: State, step: Step): State {
    if !Enabled(s, step) then s
    else
      match step
      case Cp(cs) => s.(cp := C.Apply(s.cp, cs))
      case Alloc(g, b) => s.(free := s.free - {b}, live := s.live[b := s.cp.guards[g]])
      case Dirty(g, b) =>
        var c := s.cp.guards[g];
        s.(bufs := s.bufs + {Buf(c, b, s.live[b])}, dirty := s.dirty + {c})
      case MetaDirty(g, o) =>
        var c := s.cp.guards[g];
        s.(metas := s.metas + {(c, o)}, dirty := s.dirty + {c})
      case Free(g, b) => FreeStep(s, s.cp.guards[g], b)
      case MetaWrite(o) => s.(metas := s.metas - {(s.cp.cur - 1, o)})
      case NodeWrite(w) =>
        s.(bufs := s.bufs - {w},
           writes := s.writes + [Write(w, Owner(s, w.blk), Lookup(s.freedIn, w.blk), s.cp.lastFlushed)])
      case VdevFlush => FlushStep(s, s.cp.cur - 1)
  }

  ghost function FreeStep(s: State, c: int, b: Blk): State
    requires b in s.live
  {
    s.(live := s.live - {b}, freed := s.freed[b := s.live[b]], freeList := s.freeList[c := ListOf(s, c) + [b]],
       bufs := s.bufs - {Buf(c, b, s.live[b])}, listed := s.listed + {(c, b)})
  }

  ghost function FlushStep(s: State, c: int): State {
    var list := set b | b in ListOf(s, c);
    s.(free := s.free + list, freed := s.freed - list, freeList := s.freeList[c := []],
       freedIn := map b | b in s.freedIn.Keys + list :: if b in list then c else s.freedIn[b],
       applied := s.applied + {c}, returned := s.returned + (set b | b in list :: (c, b)))
  }

  ghost function Exec(s: State, steps: seq<Step>): State {
    if steps == [] then s else Apply(Exec(s, steps[..|steps| - 1]), steps[|steps| - 1])
  }

  // ---------- the invariant ----------

  /** A block is in one place: free, live, or on one free list. */
  ghost predicate Places(s: State) {
    && (forall b :: b in s.live ==> b !in s.free && b !in s.freed)
    && (forall b :: b in s.freed ==> b !in s.free)
    && (forall c, b :: c in s.freeList && b in s.freeList[c] ==> b in s.freed && s.freed[b] <= c)
    && (forall c, d, b :: c in s.freeList && d in s.freeList && b in s.freeList[c] && b in s.freeList[d] ==> c == d)
  }

  /** A free that has been applied belongs to a recorded CP or to the one being flushed. */
  ghost predicate Applied(s: State) {
    forall b :: b in s.freedIn ==> Over(s.cp, s.freedIn[b])
  }

  ghost predicate Over(cp: C.State, c: int) {
    c <= cp.lastFlushed || (c == cp.cur - 1 && (C.Prev(cp) == Some(C.Flushing) || C.Prev(cp) == Some(C.FlushDone)))
  }

  ghost predicate Later(s: State) {
    && (forall b :: b in s.live && b in s.freedIn ==> s.freedIn[b] < s.live[b])
    && (forall b :: b in s.freed && b in s.freedIn ==> s.freedIn[b] < s.freed[b])
  }

  /** The block of a dirty buffer still belongs to its node, which no CP up to that of the buffer freed. */
  ghost predicate Bufs(s: State) {
    forall w :: w in s.bufs ==>
      && s.cp.lastFlushed < w.cp && w.cp in s.dirty && w.created <= w.cp
      && (w.cp == s.cp.cur || (w.cp == s.cp.cur - 1 && C.Prev(s.cp) != Some(C.FlushDone)))
      && Owner(s, w.blk) == Some(w.created)
      && (forall d :: d in s.freeList && w.blk in s.freeList[d] ==> w.cp < d)
  }

  ghost predicate SafeWrites(writes: seq<Write>) {
    forall w :: w in writes ==>
      w.owner == Some(w.buf.created) && (w.prevFreed.Some? ==> w.prevFreed.value <= w.recorded)
  }

  /** Free lists are applied exactly for the CPs that have work, before the flush is over. */
  ghost predicate Lists(s: State) {
    && (forall c :: c in s.applied ==> HasWork(s.dirty, c) && Over(s.cp, c))
    && (forall c :: s.cp.first <= c && HasWork(s.dirty, c) && Finished(s.cp, c) ==> c in s.applied)
    && (forall c, b :: (c, b) in s.listed ==>
          s.cp.first <= c && (if c in s.applied then (c, b) in s.returned else b in ListOf(s, c)))
    && (forall c, b :: (c, b) in s.returned ==> c in s.applied)
  }

  ghost predicate Finished(cp: C.State, c: int) {
    c <= cp.lastFlushed || (c == cp.cur - 1 && C.Prev(cp) == Some(C.FlushDone))
  }

  ghost predicate Inv(s: State) {
    C.Inv(s.cp) && Places(s) && Applied(s) && Later(s) && Bufs(s) && Lists(s) && SafeWrites(s.writes)
  }

  ghost predicate RecordedRight(s: C.State) {
    s.lastFlushed == (if C.Prev(s) == None then s.cur - 1 else s.cur - 2)
  }

  lemma RecordedIs(s: C.State)
    requires C.Inv(s)
    ensures RecordedRight(s) && s.first <= s.lastFlushed + 1
  {
    hide C.Guards, C.Readers, C.Waiting, C.Completed, C.Phases;
  }

  lemma CpLists(s: State, cp: C.State)
    requires Lists(s) && C.Cycle(s.cp, cp) && RecordedRight(s.cp)
    requires C.Ends(s.cp, cp) ==> (HasWork(s.dirty, s.cp.cur - 1) ==> s.cp.cur - 1 in s.applied)
    ensures Lists(s.(cp := cp))
  {
    hide C.Prev;
  }

  lemma CpBufs(s: State, cp: C.State)
    requires Bufs(s) && Applied(s) && C.Cycle(s.cp, cp) && RecordedRight(s.cp)
    requires C.Ends(s.cp, cp) ==> Written(s, s.cp.cur - 1)
    ensures Bufs(s.(cp := cp)) && Applied(s.(cp := cp))
  {
    hide C.Prev;
  }

  lemma CpKeeps(s: State, cs: C.Step)
    requires Inv(s) && Enabled(s, Cp(cs))
    ensures Inv(s.(cp := C.Apply(s.cp, cs)))
  {
    hide C.Inv, C.Apply, C.Prev, C.Cycle, C.Ends, SafeWrites, Bufs, Applied, Lists;
    C.StepKeeps(s.cp, cs);
    C.StepIsCycle(s.cp, cs);
    RecordedIs(s.cp);
    CpLists(s, C.Apply(s.cp, cs));
    CpBufs(s, C.Apply(s.cp, cs));
  }

  lemma AllocKeeps(s: State, g: nat, b: Blk)
    requires Inv(s) && Enabled(s, Alloc(g, b))
    ensures Inv(Apply(s, Alloc(g, b)))
  {
    hide C.Inv, C.Apply, C.Prev;
    C.GuardHolds(s.cp, g);
  }

  lemma DirtyKeeps(s: State, g: nat, b: Blk)
    requires Inv(s) && Enabled(s, Dirty(g, b))
    ensures Inv(Apply(s, Dirty(g, b)))
  {
    hide C.Inv, C.Apply, C.Prev;
    C.GuardHolds(s.cp, g);
  }

  lemma MetaDirtyKeeps(s: State, g: nat, o: nat)
    requires Inv(s) && Enabled(s, MetaDirty(g, o))
    ensures Inv(Apply(s, MetaDirty(g, o)))
  {
    hide C.Inv, C.Apply, C.Prev;
    C.GuardHolds(s.cp, g);
  }

  lemma MetaWriteKeeps(s: State, o: nat)
    requires Inv(s) && Enabled(s, MetaWrite(o))
    ensures Inv(Apply(s, MetaWrite(o)))
  {
    hide C.Inv, C.Apply, C.Prev;
  }

  lemma FreePlaces(s: State, c: int, b: Blk)
    requires Places(s) && Later(s) && Writable(s, b, c)
    ensures Places(FreeStep(s, c, b)) && Later(FreeStep(s, c, b))
  {
    hide Later;
    FreeLater(s, c, b);
    var t := FreeStep(s, c, b);
    forall d, x | d in t.freeList && x in t.freeList[d]
      ensures x in t.freed && t.freed[x] <= d && (x == b && d != c ==> false)
    {
      assert d != c ==> t.freeList[d] == s.freeList[d];
      assert d == c && x != b ==> x in ListOf(s, c);
    }
  }

  lemma FreeLater(s: State, c: int, b: Blk)
    requires Later(s) && b in s.live
    ensures Later(FreeStep(s, c, b))
  {
  }

  lemma FreeBufs(s: State, c: int, b: Blk)
    requires Places(s) && Bufs(s) && Writable(s, b, c)
    ensures Bufs(FreeStep(s, c, b))
  {
    hide C.Prev;
  }

  lemma FreeLists(s: State, c: int, b: Blk)
    requires Lists(s) && b in s.live && s.cp.first <= c && !Over(s.cp, c)
    ensures Lists(FreeStep(s, c, b))
  {
    hide C.Prev;
  }

  lemma FreeKeeps(s: State, g: nat, b: Blk)
    requires Inv(s) && Enabled(s, Free(g, b))
    ensures Inv(Apply(s, Free(g, b)))
  {
    hide C.Inv, C.Apply, C.Prev, Places, Later, Bufs, Lists, SafeWrites;
    C.GuardHolds(s.cp, g);
    RecordedIs(s.cp);
    var c := s.cp.guards[g];
    FreePlaces(s, c, b);
    FreeBufs(s, c, b);
    FreeLists(s, c, b);
  }

  lemma WriteKeeps(s: State, w: Buf)
    requires Inv(s) && Enabled(s, NodeWrite(w))
    ensures Inv(Apply(s, NodeWrite(w)))
  {
    hide C.Inv, C.Apply, C.Prev;
    RecordedIs(s.cp);
  }

  lemma FlushPlaces(s: State, c: int)
    requires Places(s)
    ensures Places(FlushStep(s, c))
  {
  }

  lemma FlushLists(s: State, c: int)
    requires Lists(s) && HasWork(s.dirty, c) && Over(s.cp, c)
    ensures Lists(FlushStep(s, c))
  {
    hide C.Prev;
  }

  /** No dirty buffer refers to a block that is given back. */
  lemma FlushBufs(s: State, c: int)
    requires Places(s) && Bufs(s) && c == s.cp.lastFlushed + 1
    ensures Bufs(FlushStep(s, c))
  {
    hide C.Prev;
  }

  lemma FlushKeeps(s: State)
    requires Inv(s) && Enabled(s, VdevFlush)
    ensures Inv(Apply(s, VdevFlush))
  {
    hide C.Inv, C.Apply, C.Prev, Places, Bufs, Lists, Later;
    RecordedIs(s.cp);
    var c := s.cp.cur - 1;
    FlushPlaces(s, c);
    FlushLists(s, c);
    FlushBufs(s, c);
    FlushLater(s, c);
  }

  lemma FlushLater(s: State, c: int)
    requires Places(s) && Later(s)
    ensures Later(FlushStep(s, c))
  {
  }

  lemma StepKeeps(s: State, step: Step)
    requires Inv(s)
    ensures Inv(Apply(s, step))
  {
    hide Inv;
    if Enabled(s, step) {
      match step
      case Cp(cs) => CpKeeps(s, cs);
      case Alloc(g, b) => AllocKeeps(s, g, b);
      case Dirty(g, b) => DirtyKeeps(s, g, b);
      case MetaDirty(g, o) => MetaDirtyKeeps(s, g, o);
      case Free(g, b) => FreeKeeps(s, g, b);
      case NodeWrite(w) => WriteKeeps(s, w);
      case MetaWrite(o) => MetaWriteKeeps(s, o);
      case VdevFlush => FlushKeeps(s);
    }
  }

  lemma {:induction false} RunKeeps(s: State, steps: seq<Step>)
    requires Inv(s)
    ensures Inv(Exec(s, steps))
  {
    hide Inv, Apply;
    if steps != [] {
      RunKeeps(s, steps[..|steps| - 1]);
      StepKeeps(Exec(s, steps[..|steps| - 1]), steps[|steps| - 1]);
    }
  }

  lemma StartInv(lastFlushed: int, blocks: set<Blk>, nodes: map<Blk, int>)
    ensures Inv(Start(lastFlushed, blocks, nodes))
  {
    C.BootInv(lastFlushed, None);
  }

  /** Over all runs, from any start, of trigger, flush, free and alloc: a block freed in CP n is overwritten by a new
      index node only after the superblock records CP n as flushed, and a write of an older buffer, even
      of a node freed meanwhile, never hits a block that was given to another node. */
  lemma FreedBlocksAreSafe(lastFlushed: int, blocks: set<Blk>, nodes: map<Blk, int>, steps: seq<Step>)
    ensures var s := Exec(Start(lastFlushed, blocks, nodes), steps);
            forall w :: w in s.writes ==>
              w.owner == Some(w.buf.created) && (w.prevFreed.Some? ==> w.prevFreed.value <= w.recorded)
  {
    StartInv(lastFlushed, blocks, nodes);
    RunKeeps(Start(lastFlushed, blocks, nodes), steps);
    hide Exec, C.Inv, Places, Applied, Later, Bufs, Lists;
  }

  /** Of the blocks freed in a recorded CP, those and only those of a CP that had a dirty buffer, of a
      node or of a table's superblock, or of CP 0, were given back. The others stay on a list that
      nothing reads: neither free nor in use. */
  lemma FreeListIff(lastFlushed: int, blocks: set<Blk>, nodes: map<Blk, int>, steps: seq<Step>)
    ensures var s := Exec(Start(lastFlushed, blocks, nodes), steps);
            forall c, b :: (c, b) in s.listed && c <= s.cp.lastFlushed ==>
              && ((c, b) in s.returned <==> c in s.dirty || c == 0)
              && ((c, b) !in s.returned ==> b !in s.free && b !in s.live)
  {
    StartInv(lastFlushed, blocks, nodes);
    RunKeeps(Start(lastFlushed, blocks, nodes), steps);
    hide Exec, C.Inv, Applied, Later, Bufs, SafeWrites;
  }

  // ---------- a free list that is dropped ----------

  /** A thread takes a node and frees it again in CP 1, dirtying nothing, and CP 1 is flushed. */
  ghost function Dropping(): seq<Step> {
    [Cp(C.EnterRead(0)), Cp(C.EnterCount(0, 0)), Alloc(0, 5), Free(0, 5), Cp(C.Call(0, false, false, None, 1)),
     Cp(C.Swap), Cp(C.Synced), Cp(C.Exit(0)), Cp(C.Exit(1)), Cp(C.Done), Cp(C.Record)]
  }

  lemma ExecOne(s: State, steps: seq<Step>, k: nat)
    requires k < |steps|
    ensures Exec(s, steps[..k + 1]) == Apply(Exec(s, steps[..k]), steps[k])
  {
    assert steps[..k + 1][..k] == steps[..k];
  }

  /** What the run has reached: nothing dirty, block 5 on the list of CP 1. */
  ghost predicate Listed(s: State) {
    s.dirty == {} && s.bufs == {} && s.metas == {} && (1, 5) in s.listed
  }

  lemma Entered(s: State)
    requires s == Start(0, {5}, map[])
    ensures var t := Apply(Apply(s, Cp(C.EnterRead(0))), Cp(C.EnterCount(0, 0)));
            && t.free == {5} && t.live == map[] && t.bufs == {} && t.metas == {} && t.dirty == {}
            && t.cp == C.Boot(0, None).(cps := map[1 := C.Cp(C.IoReady, 1, {})], guards := map[0 := 1])
  {
    var r := Apply(s, Cp(C.EnterRead(0)));
    assert r.cp.entering == map[0 := 1];
    assert r.cp.entering - {0} == map[];
  }

  lemma FreedAgain(s: State)
    requires s.free == {5} && s.live == map[] && s.bufs == {} && s.metas == {} && s.dirty == {}
    requires s.cp.guards == map[0 := 1]
    ensures var t := Apply(Apply(s, Alloc(0, 5)), Free(0, 5)); Listed(t) && t.cp == s.cp
  {
    hide C.Apply;
    var r := Apply(s, Alloc(0, 5));
    assert Writable(r, 5, 1);
    assert Enabled(r, Free(0, 5));
    assert r.bufs - {Buf(1, 5, 1)} == {};
  }

  lemma CpOnly(s: State, cs: C.Step)
    requires Listed(s) && cs != C.Crash && (cs == C.Done ==> s.cp.cur != 1)
    ensures var t := Apply(s, Cp(cs)); Listed(t) && t.cp == C.Apply(s.cp, cs)
  {
    hide C.Apply;
  }

  /** CP 1 with one guard, triggered and prepared for flush. */
  lemma Prepared(cp: C.State)
    requires cp == C.Boot(0, None).(cps := map[1 := C.Cp(C.IoReady, 1, {})], guards := map[0 := 1])
    ensures var t := C.Apply(C.Apply(C.Apply(cp, C.Call(0, false, false, None, 1)), C.Swap), C.Synced);
            && t.cur == 2 && t.lastFlushed == 0 && t.trigger == C.Idle && t.guards == map[0 := 1, 1 := 1]
            && 1 in t.cps && t.cps[1].status == C.FlushPrepare && t.cps[1].enterCnt == 2
  {
    var a := C.Apply(cp, C.Call(0, false, false, None, 1));
    assert a.trigger == C.Begun(1, 0) && a.guards == map[0 := 1, 1 := 1] && a.cps[1].enterCnt == 2;
    var b := C.Apply(a, C.Swap);
    assert b.trigger == C.Swapped(1, {}) && b.cur == 2 && b.cps[1].status == C.FlushPrepare;
  }

  lemma Flushed(t: C.State)
    requires t.cur == 2 && t.trigger == C.Idle && t.guards == map[0 := 1, 1 := 1]
    requires 1 in t.cps && t.cps[1].status == C.FlushPrepare && t.cps[1].enterCnt == 2
    ensures var a := C.Apply(t, C.Exit(0));
            var b := C.Apply(a, C.Exit(1));
            a.cur == b.cur == 2 && b.lastFlushed == t.lastFlushed && C.Prev(b) == Some(C.Flushing)
  {
    var a := C.Apply(t, C.Exit(0));
    assert a.guards == map[1 := 1] && a.cps[1].enterCnt == 1 && a.cps[1].status == C.FlushPrepare;
  }

  lemma Recorded(b: C.State)
    requires C.Prev(b) == Some(C.Flushing)
    ensures var d := C.Apply(b, C.Done); d.cur == b.cur && C.Apply(d, C.Record).lastFlushed == b.lastFlushed + 1
  {
  }

  lemma Unfolded(s: State)
    ensures var a := Apply(Apply(Apply(Apply(s, Cp(C.EnterRead(0))), Cp(C.EnterCount(0, 0))), Alloc(0, 5)), Free(0, 5));
            var b := Apply(Apply(Apply(a, Cp(C.Call(0, false, false, None, 1))), Cp(C.Swap)), Cp(C.Synced));
            Exec(s, Dropping()) == Apply(Apply(Apply(Apply(b, Cp(C.Exit(0))), Cp(C.Exit(1))), Cp(C.Done)), Cp(C.Record))
  {
    hide Apply;
    var d := Dropping();
    assert d[..0] == [] && d[..11] == d;
    assert Exec(s, d[..0]) == s;
    ExecOne(s, d, 0);
    ExecOne(s, d, 1);
    ExecOne(s, d, 2);
    ExecOne(s, d, 3);
    ExecOne(s, d, 4);
    ExecOne(s, d, 5);
    ExecOne(s, d, 6);
    ExecOne(s, d, 7);
    ExecOne(s, d, 8);
    ExecOne(s, d, 9);
    ExecOne(s, d, 10);
  }

  /** The run up to the preparation of the flush. */
  lemma FirstHalf(s: State, e: State, a: State, b: State)
    requires s == Start(0, {5}, map[]) && e == Apply(Apply(s, Cp(C.EnterRead(0))), Cp(C.EnterCount(0, 0)))
    requires a == Apply(Apply(e, Alloc(0, 5)), Free(0, 5))
    requires b == Apply(Apply(Apply(a, Cp(C.Call(0, false, false, None, 1))), Cp(C.Swap)), Cp(C.Synced))
    ensures Listed(b) && b.cp.cur == 2 && b.cp.lastFlushed == 0 && b.cp.trigger == C.Idle
    ensures b.cp.guards == map[0 := 1, 1 := 1] && 1 in b.cp.cps
    ensures b.cp.cps[1].status == C.FlushPrepare && b.cp.cps[1].enterCnt == 2
  {
    hide Apply, C.Apply, Start, Listed, C.Boot;
    Entered(s);
    FreedAgain(e);
    Prepared(a.cp);
    CpOnly(a, C.Call(0, false, false, None, 1));
    var a1 := Apply(a, Cp(C.Call(0, false, false, None, 1)));
    CpOnly(a1, C.Swap);
    CpOnly(Apply(a1, Cp(C.Swap)), C.Synced);
  }

  lemma SecondHalf(b: State)
    requires Listed(b) && b.cp.cur == 2 && b.cp.lastFlushed == 0 && b.cp.trigger == C.Idle
    requires b.cp.guards == map[0 := 1, 1 := 1] && 1 in b.cp.cps
    requires b.cp.cps[1].status == C.FlushPrepare && b.cp.cps[1].enterCnt == 2
    ensures var t := Apply(Apply(Apply(Apply(b, Cp(C.Exit(0))), Cp(C.Exit(1))), Cp(C.Done)), Cp(C.Record));
            Listed(t) && t.cp.lastFlushed == 1
  {
    hide Apply, C.Apply, Listed, C.Prev;
    Flushed(b.cp);
    CpOnly(b, C.Exit(0));
    var b1 := Apply(b, Cp(C.Exit(0)));
    CpOnly(b1, C.Exit(1));
    var b2 := Apply(b1, Cp(C.Exit(1)));
    Recorded(b2.cp);
    CpOnly(b2, C.Done);
    CpOnly(Apply(b2, Cp(C.Done)), C.Record);
  }

  /** Block 5 is then neither free nor in use although CP 1 is recorded. */
  lemma ListDropped()
    ensures var s := Exec(Start(0, {5}, map[]), Dropping());
            (1, 5) in s.listed && s.cp.lastFlushed == 1 && 5 !in s.free && 5 !in s.live
  {
    hide Apply, Exec, Dropping, Start;
    var s := Start(0, {5}, map[]);
    Unfolded(s);
    var e := Apply(Apply(s, Cp(C.EnterRead(0))), Cp(C.EnterCount(0, 0)));
    var a := Apply(Apply(e, Alloc(0, 5)), Free(0, 5));
    var b := Apply(Apply(Apply(a, Cp(C.Call(0, false, false, None, 1))), Cp(C.Swap)), Cp(C.Synced));
    FirstHalf(s, e, a, b);
    SecondHalf(b);
    FreeListIff(0, {5}, map[], Dropping());
  }
}
