/**
 The journal descriptor as the object the code updates in place. Each method is proved to compute the
 value that the theory of the window speaks about.
 */
module JournalVdev {

  import opened Arithmetic
  import opened Journal
  import opened JournalRead
  import opened JournalTruncate
  import opened JournalRun
  import opened JournalScan
  import opened Sequences

  class JournalDescriptor {
    const chunkSize: nat
    var dataStart: nat
    var writeSz: int
    var reserved: nat
    var chunks: seq<nat>
    var priv: map<nat, Private>
    var totalSize: int
    var endOffset: int
    var seekCursor: int
    ghost var layout: seq<seq<nat>>

    ghost function Snapshot(): Descriptor
      reads this
    {
      Descriptor(chunkSize, dataStart, writeSz, reserved, chunks, priv, totalSize, endOffset, layout)
    }

    /** A descriptor without chunks. */
    constructor (size: nat)
      requires size > 0
      ensures chunkSize == size && Inv(Snapshot()) && dataStart == 0 && chunks == [] && seekCursor == 0
    {
      chunkSize := size;
      dataStart, writeSz, reserved, chunks, priv := 0, 0, 0, [], map[];
      totalSize, endOffset, seekCursor, layout := 0, 0, 0, [];
      new;
      EmptyInv(Snapshot());
    }

    method OffsetToChunk(off: int) returns (found: bool, index: nat, o: nat)
      requires Inv(Snapshot()) && off >= Pos(Snapshot(), 0)
      ensures found <==> off < endOffset
      ensures found ==>
        index < |chunks| && o < chunkSize && (index, o) == ChunkOf(Snapshot(), off) && off == Pos(Snapshot(), index) + o
    {
      ghost var d := Snapshot();
      WindowOf(d);
      StartInFirst(d);
      var aligned := dataStart / chunkSize * chunkSize;
      o := off - aligned;
      index, found := 0, false;
      while index < |chunks|
        invariant index <= |chunks| && off == Pos(d, index) + o
      {
        if o >= chunkSize {
          o := o - chunkSize;
          index := index + 1;
        } else {
          ChunkOfAt(d, index, o);
          PosMonotone(d, index, |chunks|);
          return true, index, o;
        }
      }
    }

    method AppendChunk(id: nat)
      requires chunkSize > 0 && Tail(Snapshot()) >= 0 && (chunks != [] ==> chunks[|chunks| - 1] in priv)
      modifies this
      ensures Snapshot() == Journal.AppendChunk(old(Snapshot()), id) && seekCursor == old(seekCursor)
    {
      hide Mod;
      totalSize := totalSize + chunkSize;
      endOffset := endOffset + chunkSize;
      if chunks != [] {
        var last := chunks[|chunks| - 1];
        var p := priv[last].(next := id);
        chunks := chunks + [id];
        var o := Mod(dataStart + writeSz + reserved, chunkSize);
        if o != 0 {
          writeSz := writeSz + chunkSize - o;
          p := p.(endOfChunk := o);
        }
        priv := priv[last := p][id := Private(false, chunkSize, 0)];
      } else {
        chunks := [id];
        priv := priv[id := Private(true, chunkSize, 0)];
      }
    }

    method AllocNextAppendBlk(sz: nat, id: nat) returns (off: int)
      requires Inv(Snapshot()) && 0 < sz < chunkSize && id != 0 && id !in priv
      modifies this
      ensures (off, Snapshot()) == Alloc(old(Snapshot()), sz, id) && Inv(Snapshot()) && seekCursor == old(seekCursor)
    {
      hide Inv, Mod, RoundDown, RoundUp, Journal.AppendChunk;
      ghost var d := Snapshot();
      OwnedOf(d);
      AllocKeeps(d, sz, id);
      var grow := dataStart + writeSz + reserved + sz >= endOffset;
      if grow {
        AppendChunk(id);
        assert Tail(Snapshot()) + sz < endOffset;
      }
      off := dataStart + writeSz + reserved;
      reserved := reserved + sz;
      layout := Alloc(d, sz, id).1.layout;
    }

    method DevOffset(n: nat) returns (r: int)
      requires Inv(Snapshot())
      ensures r == JournalRead.DevOffset(Snapshot(), n)
    {
      hide Inv, Mod, RoundDown, RoundUp;
      ghost var d := Snapshot();
      WindowOf(d);
      Extent(d);
      StartInFirst(d);
      if n == 0 || chunks == [] {
        return dataStart;
      }
      r := dataStart;
      var remaining: nat, start: nat, i := n, Mod(dataStart, chunkSize), 0;
      while i < |chunks|
        invariant i <= |chunks| && r == Pos(d, i) + Lo(d, i) && start == Lo(d, i)
        invariant DevFrom(d, i, remaining) == DevFrom(d, 0, n)
      {
        var end := priv[chunks[i]].endOfChunk;
        var here := (if end < chunkSize then end else chunkSize) - start;
        if remaining < here {
          r := r + remaining;
          return;
        }
        remaining := remaining - here;
        r := r + (chunkSize - start);
        start := 0;
        i := i + 1;
      }
    }

    /** The release loop: `it` walks the list while chunks are erased from it. */
    method ReleaseChunks(t: int)
      requires chunkSize > 0 && Tail(Snapshot()) >= 0 && Owned(chunks, priv)
      modifies this`chunks, this`priv, this`totalSize
      ensures chunks == Sweep(old(Snapshot()), t, 0)
      ensures priv == Restrict(old(priv), chunks)
      ensures totalSize == old(totalSize) - (old(|chunks|) - |chunks|) * chunkSize
    {
      hide Mod, RoundDown, RoundUp, Sweep, Swept, Restrict, Owned;
      ghost var d := Snapshot();
      ghost var kept: seq<nat> := [];
      var tail := dataStart + writeSz + reserved;
      var cover, total, it, i: nat := RoundDown(dataStart, chunkSize), |chunks|, 0, 0;
      SweptNone(d, t);
      while it < |chunks|
        invariant Swept(d, t, i, kept) && i <= total == |d.chunks| && it == |kept| && chunks == kept + d.chunks[i..]
        invariant i < total ==> cover == Pos(d, i)
        invariant priv == Restrict(d.priv, chunks)
        invariant totalSize == d.totalSize - (i - it) * chunkSize
        decreases total - i
      {
        SweptStep(d, t, i, kept);
        SplitOne(d.chunks, d.priv, kept, i);
        MultipleStep(i - it, chunkSize);
        var chunk, hole := chunks[it], 0;
        if i == total - 1 {
          cover := cover + Mod(tail, chunkSize);
        } else {
          cover := cover + chunkSize;
          hole := chunkSize - priv[chunk].endOfChunk;
        }
        i := i + 1;
        if cover <= t || cover - hole <= t {
          totalSize := totalSize - chunkSize;
          chunks := chunks[..it] + chunks[it + 1..];
          priv := priv - {chunk};
        } else {
          kept := kept + [chunk];
          it := it + 1;
        }
      }
      SweptAll(d, t, kept);
    }

    method UpdateDataStartOffset(offset: nat)
      requires chunkSize > 0 && (chunks != [] ==> totalSize == |chunks| * chunkSize)
      modifies this`dataStart, this`endOffset
      ensures dataStart == if chunks != [] then offset else RoundUp(offset, chunkSize)
      ensures endOffset == if chunks != [] then RoundDown(offset, chunkSize) + |chunks| * chunkSize else dataStart
    {
      if chunks != [] {
        dataStart := offset;
        var aligned := RoundDown(dataStart, chunkSize);
        endOffset := aligned + |chunks| * chunkSize;
        assert endOffset - aligned == totalSize;
      } else {
        dataStart := RoundUp(offset, chunkSize);
        endOffset := dataStart;
      }
    }

    method Truncate(t: nat) returns (start: nat)
      requires Inv(Snapshot()) && chunks != [] && dataStart <= t < endOffset
      modifies this
      ensures Snapshot() == JournalTruncate.Truncate(old(Snapshot()), t)
      ensures start == dataStart && seekCursor == old(seekCursor)
    {
      hide Inv, RoundDown, RoundUp, Mod, Quotient, Sweep, Restrict, Owned, Pos, ChunkOf, JournalTruncate.Truncate;
      ghost var d := Snapshot();
      WindowOf(d);
      OwnedOf(d);
      PrivateOf(d);
      StartInFirst(d);
      var size := t - dataStart;
      var found, index, o := OffsetToChunk(t);
      TruncateFields(d, t, index, o);
      var head, end, skip := index, priv[chunks[index]].endOfChunk, false;
      if o >= end {
        index := index + 1;
        if index <= |chunks| - 1 {
          head, skip := index, true;
          size := size + (chunkSize - end);
        }
      }
      priv := priv[chunks[head] := priv[chunks[head]].(isHead := true)];
      SweepMarked(d, Snapshot(), t, head, 0);
      ReleaseChunks(t);
      var to := t;
      if skip {
        to := RoundUp(t, chunkSize);
      }
      WholeChunks(d, t);
      UpdateDataStartOffset(to);
      writeSz := writeSz - size;
      layout := JournalTruncate.Truncate(d, t).layout;
      start := dataStart;
    }

    /** A result of -1 is the end of the window. Without a buffer the call only tells the size, and moves
        the cursor over a hole it stands at. Inside a hole the unsigned distance to the end mark wraps, so
        the read goes on from there: it returns bytes of the hole. */
    method SyncNextRead<B>(disk: Disk<B>, size: nat, buffer: bool) returns (n: int, bytes: seq<B>)
      requires Ready(Snapshot(), disk) && 0 < chunkSize < HALF && size < HALF
      requires dataStart <= seekCursor <= endOffset
      modifies this`seekCursor
      ensures chunks == [] || old(seekCursor) == endOffset ==> n == -1 && bytes == [] && seekCursor == old(seekCursor)
      ensures chunks != [] && old(seekCursor) < endOffset && !InHole(Snapshot(), old(seekCursor)) ==>
        var (data, to) := NextRead(Snapshot(), disk, old(seekCursor), size);
        && n == |data|
        && (buffer ==> bytes == data && seekCursor == to)
        && (!buffer ==> bytes == [] && seekCursor == Skipped(Snapshot(), old(seekCursor)))
      ensures chunks != [] && old(seekCursor) < endOffset && InHole(Snapshot(), old(seekCursor)) ==>
        && n == size
        && (buffer ==>
             bytes == FromHole(Snapshot(), disk, old(seekCursor), size) && seekCursor == old(seekCursor) + size)
        && (!buffer ==> bytes == [] && seekCursor == old(seekCursor))
    {
      hide Inv, RoundDown, Mod, Quotient, Pos, ChunkOf;
      bytes := [];
      if chunks == [] || seekCursor >= endOffset {
        return -1, bytes;
      }
      ghost var d := Snapshot();
      StartInFirst(d);
      assert d.chunks != [];
      var found, index, o := OffsetToChunk(seekCursor);
      var end, across := priv[chunks[index]].endOfChunk, false;
      var len := size;
      var left := if o <= end then end - o else end - o + 2 * HALF;
      if len >= left {
        len, across := left, true;
        if len == 0 {
          seekCursor := seekCursor + (chunkSize - end);
        }
      }
      n := len;
      if !buffer {
        return;
      }
      var to := if o + len < chunkSize then o + len else chunkSize;
      bytes := if len == 0 then [] else disk[chunks[index]][o..to];
      seekCursor := seekCursor + len;
      if across {
        seekCursor := seekCursor + (chunkSize - end);
      }
    }
  }

  /** Half the range of the unsigned sizes. */
  const HALF := 0x8000_0000_0000_0000

  /** The cursor once the hole it stands at the beginning of is passed. */
  ghost function Skipped(d: Descriptor, seek: int): int
    requires Inv(d) && d.chunks != [] && d.dataStart <= seek < d.endOffset
  {
    StartInFirst(d);
    ChunkIn(d, seek);
    var (c, o) := ChunkOf(d, seek);
    if o == EndOfChunk(d, c) then seek + (d.chunkSize - o) else seek
  }

  /** What lies at an offset inside a hole, up to the end of the chunk. */
  ghost function FromHole<B>(d: Descriptor, disk: Disk<B>, seek: int, size: nat): seq<B>
    requires Inv(d) && d.chunks != [] && d.dataStart <= seek < d.endOffset
  {
    StartInFirst(d);
    ChunkIn(d, seek);
    var (c, o) := ChunkOf(d, seek);
    Slice(disk, d.chunks[c], o, if o + size < d.chunkSize then o + size else d.chunkSize)
  }

  // ---------- loading at start ----------

  /** What a chunk carries on disk besides its place in a list. */
  datatype OnDisk = OnDisk(logdev: nat, createdAt: nat, priv: Private)

  /** `chunks` is the list that next_chunk leads along, up to a 0. */
  ghost predicate Chain(disk: map<nat, OnDisk>, chunks: seq<nat>) {
    forall i :: 0 <= i < |chunks| ==>
      chunks[i] in disk && chunks[i] != 0 && disk[chunks[i]].priv.next == Next(chunks, i)
  }

  /** The journals on a device: each has a list, and of all chunks that carry its id and a head mark the
      first of the list is the newest. A crash may leave other marked chunks and chunks in no list. */
  ghost predicate Journals(disk: map<nat, OnDisk>, lists: map<nat, seq<nat>>) {
    && (forall l :: l in lists ==> lists[l] != [] && Chain(disk, lists[l]) && MarkedFor(disk, l, lists[l][0]))
    && (forall c :: c in disk && disk[c].priv.isHead ==>
          && disk[c].logdev in lists && lists[disk[c].logdev] != []
          && Newest(disk, c, lists[disk[c].logdev][0]))
  }

  predicate MarkedFor(disk: map<nat, OnDisk>, l: nat, c: nat) {
    c in disk && disk[c].priv.isHead && disk[c].logdev == l && disk[c].createdAt > 0
  }

  ghost predicate Newest(disk: map<nat, OnDisk>, c: nat, head: nat) {
    c in disk && head in disk && (c == head || disk[c].createdAt < disk[head].createdAt)
  }

  /** The list walk: from a head along next_chunk until 0, it finds exactly the chunks of the list. */
  method LoadChunks(disk: map<nat, OnDisk>, head: nat, size: nat, ghost chunks: seq<nat>)
    returns (loaded: seq<nat>, total: nat)
    requires Chain(disk, chunks) && chunks != [] && head == chunks[0]
    ensures loaded == chunks && total == |chunks| * size
  {
    var num := head;
    loaded, total := [], 0;
    while num != 0
      invariant |loaded| <= |chunks| && loaded == chunks[..|loaded|]
      invariant if |loaded| < |chunks| then num == chunks[|loaded|] && num != 0 else num == 0
      invariant total == |loaded| * size
      decreases |chunks| - |loaded|
    {
      MultipleStep(|loaded|, size);
      loaded := loaded + [num];
      total := total + size;
      num := disk[num].priv.next;
    }
  }

  /** The newest marked chunk of every journal. */
  method FindHeads(disk: map<nat, OnDisk>, ghost lists: map<nat, seq<nat>>) returns (heads: map<nat, nat>)
    requires Journals(disk, lists)
    ensures heads.Keys == lists.Keys && forall l :: l in heads ==> heads[l] == lists[l][0]
  {
    heads := map[];
    var left := disk.Keys;
    while left != {}
      invariant left <= disk.Keys && heads.Keys <= lists.Keys
      invariant forall l :: l in heads ==>
        heads[l] in disk.Keys - left && disk[heads[l]].priv.isHead && disk[heads[l]].logdev == l
      invariant forall l :: l in lists && lists[l][0] !in left ==> l in heads && heads[l] == lists[l][0]
      decreases |left|
    {
      var c :| c in left;
      left := left - {c};
      var l := disk[c].logdev;
      if disk[c].priv.isHead && disk[c].createdAt > if l in heads then disk[heads[l]].createdAt else 0 {
        heads := heads[l := c];
      }
    }
  }

  /** The chunk is in a list of one of these journals. */
  ghost predicate InList(lists: map<nat, seq<nat>>, ls: set<nat>, c: nat) {
    exists l :: l in ls && l in lists && c in lists[l]
  }

  lemma InListMore(lists: map<nat, seq<nat>>, ls: set<nat>, l: nat)
    requires l in lists
    ensures forall c :: InList(lists, ls + {l}, c) <==> InList(lists, ls, c) || c in lists[l]
  {
    forall c: nat
      ensures InList(lists, ls + {l}, c) <==> InList(lists, ls, c) || c in lists[l]
    {
      if InList(lists, ls, c) {
        var k :| k in ls && k in lists && c in lists[k];
        assert k in ls + {l};
      }
      if c in lists[l] {
        assert l in ls + {l};
      }
    }
  }

  lemma ListOf(disk: map<nat, OnDisk>, lists: map<nat, seq<nat>>, l: nat)
    requires Journals(disk, lists) && l in lists
    ensures lists[l] != [] && Chain(disk, lists[l])
  {
  }

  /** The loaded journals so far: those of `seen`, and their chunks. */
  ghost predicate Loaded(lists: map<nat, seq<nat>>, seen: set<nat>, journals: map<nat, seq<nat>>, visited: set<nat>) {
    && journals.Keys == seen && seen <= lists.Keys
    && (forall l :: l in seen ==> journals[l] == lists[l])
    && (forall c :: c in visited <==> InList(lists, seen, c))
  }

  lemma LoadedMore(lists: map<nat, seq<nat>>, seen: set<nat>, journals: map<nat, seq<nat>>, visited: set<nat>, l: nat)
    requires Loaded(lists, seen, journals, visited) && l in lists
    ensures Loaded(lists, seen + {l}, journals[l := lists[l]], visited + Elements(lists[l]))
  {
    hide InList;
    InListMore(lists, seen, l);
  }

  lemma LoadedAll(lists: map<nat, seq<nat>>, journals: map<nat, seq<nat>>, visited: set<nat>)
    requires Loaded(lists, lists.Keys, journals, visited)
    ensures journals == lists && forall c :: c in visited <==> InList(lists, lists.Keys, c)
  {
    hide InList;
  }

  /** init: every journal gets the chunks of its list in order, and the chunks of no list are the orphans
      to be removed. */
  method LoadJournals(disk: map<nat, OnDisk>, size: nat, ghost lists: map<nat, seq<nat>>)
    returns (journals: map<nat, seq<nat>>, orphans: set<nat>)
    requires Journals(disk, lists)
    ensures journals == lists
    ensures forall c :: c in orphans <==> c in disk && !InList(lists, lists.Keys, c)
  {
    hide Journals, Chain, InList, Loaded;
    var heads := FindHeads(disk, lists);
    journals := map[];
    var visited: set<nat> := {};
    var left := heads.Keys;
    ghost var seen: set<nat> := {};
    LoadedNone(lists);
    while left != {}
      invariant left <= heads.Keys && seen == heads.Keys - left && Loaded(lists, seen, journals, visited)
      decreases |left|
    {
      var l :| l in left;
      ListOf(disk, lists, l);
      var chunks, total := LoadChunks(disk, heads[l], size, lists[l]);
      LoadedMore(lists, seen, journals, visited, l);
      journals := journals[l := chunks];
      visited := visited + Elements(chunks);
      left, seen := left - {l}, seen + {l};
    }
    assert seen == lists.Keys;
    LoadedAll(lists, journals, visited);
    orphans := disk.Keys - visited;
  }

  lemma LoadedNone(lists: map<nat, seq<nat>>)
    ensures Loaded(lists, {}, map[], {})
  {
  }

  /** The definition, with the chunk of the offset given. */
  lemma TruncateFields(d: Descriptor, t: int, i: nat, o: nat)
    requires Inv(d) && d.chunks != [] && d.dataStart <= t < d.endOffset
    requires d.chunkSize > 0 && t >= Pos(d, 0) && (i, o) == ChunkOf(d, t)
    ensures i < |d.chunks| && d.chunks[i] in d.priv && forall j :: 0 <= j < |d.chunks| ==> d.chunks[j] in d.priv
    ensures var e, end, kept := JournalTruncate.Truncate(d, t), EndOfChunk(d, i), Sweep(d, t, 0);
            var skip := o >= end && i + 1 < |d.chunks|;
            var head := d.chunks[if skip then i + 1 else i];
            var start := if skip then RoundUp(t, d.chunkSize) else t;
            && e.dataStart == (if kept != [] then start else RoundUp(start, d.chunkSize))
            && e.endOffset ==
                 (if kept != [] then RoundDown(start, d.chunkSize) + |kept| * d.chunkSize
                   else RoundUp(start, d.chunkSize))
            && e.writeSz == d.writeSz - (t - d.dataStart) - (if skip then d.chunkSize - end else 0)
            && e.chunks == kept && e.priv == Restrict(d.priv[head := d.priv[head].(isHead := true)], kept)
            && e.totalSize == d.totalSize - (|d.chunks| - |kept|) * d.chunkSize
            && e.chunkSize == d.chunkSize && e.reserved == d.reserved
  {
    hide Inv, RoundDown, RoundUp, Mod, Quotient, Sweep, Restrict, DropBytes;
    PrivateOf(d);
    StartInFirst(d);
    WindowOf(d);
    ChunkIn(d, t);
  }

  /** The size that is left is that of the chunks that are left. */
  lemma WholeChunks(d: Descriptor, t: int)
    requires Inv(d) && d.chunks != [] && d.dataStart <= t < d.endOffset
    ensures var e := JournalTruncate.Truncate(d, t); e.totalSize == |e.chunks| * d.chunkSize
  {
    hide Inv, RoundDown, RoundUp, Mod, Quotient, Cut, JournalTruncate.Truncate;
    TruncateSizes(d, t);
    TruncatedIs(d, t);
    var e := JournalTruncate.Truncate(d, t);
    PosAt(e, |e.chunks|);
  }

  /** The loop has looked at the first `i` chunks and kept `kept` of them. */
  ghost predicate Swept(d: Descriptor, t: int, i: nat, kept: seq<nat>)
    requires d.chunkSize > 0 && Tail(d) >= 0 && Owned(d.chunks, d.priv)
  {
    && i <= |d.chunks| && kept + Sweep(d, t, i) == Sweep(d, t, 0)
    && forall c :: c in kept ==> c in d.chunks[..i]
  }

  lemma SweptNone(d: Descriptor, t: int)
    requires d.chunkSize > 0 && Tail(d) >= 0 && Owned(d.chunks, d.priv)
    ensures Swept(d, t, 0, []) && [] + d.chunks[0..] == d.chunks && Restrict(d.priv, d.chunks) == d.priv
    ensures forall j :: 0 <= j < |d.chunks| ==> d.chunks[j] in d.priv
  {
    hide Sweep;
  }

  lemma SweptStep(d: Descriptor, t: int, i: nat, kept: seq<nat>)
    requires d.chunkSize > 0 && Tail(d) >= 0 && Owned(d.chunks, d.priv) && Swept(d, t, i, kept) && i < |d.chunks|
    ensures d.chunks[i] !in kept
    ensures if Released(d, t, i) then Swept(d, t, i + 1, kept) else Swept(d, t, i + 1, kept + [d.chunks[i]])
  {
    hide Sweep, Released;
    SweepFrom(d, t, i);
    assert d.chunks[..i + 1] == d.chunks[..i] + [d.chunks[i]];
  }

  lemma SweptAll(d: Descriptor, t: int, kept: seq<nat>)
    requires d.chunkSize > 0 && Tail(d) >= 0 && Owned(d.chunks, d.priv) && Swept(d, t, |d.chunks|, kept)
    ensures kept == Sweep(d, t, 0) && kept + d.chunks[|d.chunks|..] == kept
  {
    hide Sweep;
    SweepFrom(d, t, |d.chunks|);
  }

  lemma SweepFrom(d: Descriptor, t: int, i: nat)
    requires d.chunkSize > 0 && Tail(d) >= 0 && Owned(d.chunks, d.priv) && i <= |d.chunks|
    ensures i == |d.chunks| ==> Sweep(d, t, i) == []
    ensures i < |d.chunks| ==> Sweep(d, t, i) == (if Released(d, t, i) then [] else [d.chunks[i]]) + Sweep(d, t, i + 1)
  {
  }

  lemma MultipleStep(k: int, m: int)
    ensures (k + 1) * m == k * m + m
  {
  }

  lemma SplitSeq(chunks: seq<nat>, kept: seq<nat>, i: nat)
    requires i < |chunks|
    ensures var all, k := kept + chunks[i..], |kept|;
            && all[k] == chunks[i] && kept + [chunks[i]] + chunks[i + 1..] == all
            && all[..k] + all[k + 1..] == kept + chunks[i + 1..]
  {
    assert chunks[i..] == [chunks[i]] + chunks[i + 1..];
  }

  lemma RestrictErase(priv: map<nat, Private>, a: seq<nat>, c: nat, b: seq<nat>)
    requires c in priv && c !in a && c !in b
    ensures c in Restrict(priv, a + [c] + b) && Restrict(priv, a + [c] + b)[c] == priv[c]
    ensures Restrict(priv, a + b) == Restrict(priv, a + [c] + b) - {c}
  {
    assert forall x :: x in a + [c] + b <==> x in a + b || x == c;
  }

  /** Chunk `i` is next in the list; keeping it and erasing it. */
  lemma SplitOne(chunks: seq<nat>, priv: map<nat, Private>, kept: seq<nat>, i: nat)
    requires Owned(chunks, priv) && i < |chunks| && chunks[i] !in kept
    ensures var all, k := kept + chunks[i..], |kept|;
            && all[k] == chunks[i] && chunks[i] in priv && chunks[i] in Restrict(priv, all)
            && Restrict(priv, all)[chunks[i]] == priv[chunks[i]]
            && kept + [chunks[i]] + chunks[i + 1..] == all
            && all[..k] + all[k + 1..] == kept + chunks[i + 1..]
            && Restrict(priv, kept + chunks[i + 1..]) == Restrict(priv, all) - {chunks[i]}
  {
    hide Restrict;
    SplitSeq(chunks, kept, i);
    RestrictErase(priv, kept, chunks[i], chunks[i + 1..]);
  }

  /** Marking a head changes no end mark. */
  lemma {:induction false} SweepMarked(d: Descriptor, e: Descriptor, t: int, h: nat, i: nat)
    requires d.chunkSize > 0 && Tail(d) >= 0 && Owned(d.chunks, d.priv) && h < |d.chunks| && i <= |d.chunks|
    requires e == d.(priv := d.priv[d.chunks[h] := d.priv[d.chunks[h]].(isHead := true)])
    ensures Owned(e.chunks, e.priv) && Sweep(e, t, i) == Sweep(d, t, i)
    decreases |d.chunks| - i
  {
    hide RoundDown, Mod;
    if i < |d.chunks| {
      SweepMarked(d, e, t, h, i + 1);
      PosSame(d, e, i);
    }
  }
}
