/**
 The journal descriptor: a window over a list of chunks that grows at the back and is truncated at
 the front. Log groups never cross a chunk; when one does not fit, the rest of the last chunk becomes
 a hole and the group goes to a new chunk. Offsets only increase.
 */
module Journal {

  import opened Arithmetic

  // ---------- sums ----------

  function Sum(s: seq<nat>): nat {
    if s == [] then 0 else Sum(s[..|s| - 1]) + s[|s| - 1]
  }

  lemma SumAppend(s: seq<nat>, x: nat)
    ensures Sum(s + [x]) == Sum(s) + x
  {
    assert (s + [x])[..|s|] == s;
  }

  lemma {:induction false} SumSplit(s: seq<nat>, k: nat)
    requires k <= |s|
    ensures Sum(s) == Sum(s[..k]) + Sum(s[k..])
    decreases |s|
  {
    if k == |s| {
      assert s[..k] == s;
    } else {
      var n := |s| - 1;
      SumSplit(s[..n], k);
      assert s[..n][..k] == s[..k];
      assert s[k..][..n - k] == s[..n][k..];
    }
  }

  // ---------- the descriptor ----------

  /** JournalChunkPrivate: what is stored with a chunk. */
  datatype Private = Private(isHead: bool, endOfChunk: nat, next: nat)

  /** Descriptor. `chunks` are chunk ids, `priv` their private data, in memory and on disk. `layout`
      records history: for each chunk the sizes of the groups allocated in it that are still live. */
  datatype Descriptor = Descriptor(
    chunkSize: nat,
    dataStart: nat,
    writeSz: int,
    reserved: nat,
    chunks: seq<nat>,
    priv: map<nat, Private>,
    totalSize: int,
    endOffset: int,
    layout: seq<seq<nat>>)

  function Tail(d: Descriptor): int {
    d.dataStart + d.writeSz + d.reserved
  }

  /** The offset at which chunk `i` starts. */
  function Pos(d: Descriptor, i: nat): int
    requires d.chunkSize > 0
  {
    if i == 0 then RoundDown(d.dataStart, d.chunkSize) else Pos(d, i - 1) + d.chunkSize
  }

  /** Where data begins inside chunk `i`. */
  function Lo(d: Descriptor, i: nat): nat
    requires d.chunkSize > 0
  {
    if i == 0 then Mod(d.dataStart, d.chunkSize) else 0
  }

  function EndOfChunk(d: Descriptor, i: nat): nat
    requires i < |d.chunks| && d.chunks[i] in d.priv
  {
    d.priv[d.chunks[i]].endOfChunk
  }

  // ---------- the invariant ----------

  ghost predicate Owned(chunks: seq<nat>, priv: map<nat, Private>) {
    && (forall i :: 0 <= i < |chunks| ==> chunks[i] in priv && chunks[i] != 0)
    && (forall c :: c in priv ==> c in chunks)
    && (forall i, j :: 0 <= i < j < |chunks| ==> chunks[i] != chunks[j])
  }

  /** The private data on disk is a list of exactly these chunks, in this order, with one head. */
  ghost predicate ListOnDisk(chunks: seq<nat>, priv: map<nat, Private>) {
    forall i :: 0 <= i < |chunks| && chunks[i] in priv ==>
      && (priv[chunks[i]].isHead <==> i == 0)
      && priv[chunks[i]].next == Next(chunks, i)
  }

  /** The chunk after chunk `i`, or 0 at the end of the list. */
  ghost function Next(chunks: seq<nat>, i: nat): nat {
    if i + 1 < |chunks| then chunks[i + 1] else 0
  }

  /** The end marks of the chunks. */
  ghost function Ends(chunks: seq<nat>, priv: map<nat, Private>): (r: seq<nat>)
    requires Owned(chunks, priv)
    ensures |r| == |chunks| && forall i :: 0 <= i < |r| ==> r[i] == priv[chunks[i]].endOfChunk
  {
    seq(|chunks|, i requires 0 <= i < |chunks| => priv[chunks[i]].endOfChunk)
  }

  /** The live groups fill each chunk from its first data byte to its end mark. Only the last chunk
      has no hole. `lo`: where data begins in the first chunk. */
  ghost predicate Filled(size: nat, lo: nat, ends: seq<nat>, layout: seq<seq<nat>>) {
    && |ends| == |layout|
    && (forall i :: 0 <= i < |layout| ==> Groups(layout[i]))
    && (forall i :: 0 <= i < |ends| - 1 ==>
         ends[i] == (if i == 0 then lo else 0) + Sum(layout[i]) && 0 < ends[i] < size)
    && (ends != [] ==> ends[|ends| - 1] == size)
  }

  ghost predicate Groups(sizes: seq<nat>) {
    sizes != [] && forall k :: 0 <= k < |sizes| ==> sizes[k] > 0
  }

  ghost predicate Window(d: Descriptor) {
    && d.chunkSize > 0 && |d.layout| == |d.chunks|
    && d.dataStart <= Tail(d)
    && d.endOffset == Pos(d, |d.chunks|)
    && d.totalSize == d.endOffset - Pos(d, 0)
    && (d.chunks == [] ==> Mod(d.dataStart, d.chunkSize) == 0 && Tail(d) == d.dataStart)
    && (d.chunks != [] ==>
          && Pos(d, |d.chunks| - 1) < Tail(d) < d.endOffset
          && Tail(d) == Pos(d, |d.chunks| - 1) + Lo(d, |d.chunks| - 1) + Sum(d.layout[|d.chunks| - 1]))
  }

  ghost predicate Inv(d: Descriptor) {
    && Window(d) && Owned(d.chunks, d.priv) && ListOnDisk(d.chunks, d.priv)
    && Filled(d.chunkSize, Lo(d, 0), Ends(d.chunks, d.priv), d.layout)
  }

  // ---------- positions ----------

  lemma {:induction false} PosAt(d: Descriptor, i: nat)
    requires d.chunkSize > 0
    ensures Pos(d, i) == (d.dataStart / d.chunkSize + i) * d.chunkSize
    ensures Pos(d, i) == Pos(d, 0) + i * d.chunkSize
    ensures Pos(d, i) >= 0 && Pos(d, i) % d.chunkSize == 0
  {
    if i > 0 {
      PosAt(d, i - 1);
    }
    DivMod(d.chunkSize, d.dataStart / d.chunkSize + i, 0);
  }

  /** An offset inside chunk `i`, taken apart. */
  lemma InChunk(d: Descriptor, i: nat, off: nat)
    requires d.chunkSize > 0 && off < d.chunkSize
    ensures var x := Pos(d, i) + off;
            && x >= 0 && Mod(x, d.chunkSize) == off && RoundDown(x, d.chunkSize) == Pos(d, i)
            && RoundUp(x, d.chunkSize) == (if off == 0 then Pos(d, i) else Pos(d, i) + d.chunkSize)
  {
    PosAt(d, i);
    var q, m := d.dataStart / d.chunkSize + i, d.chunkSize;
    DivMod(m, q, off);
    if off == 0 {
      DivMod(m, q, m - 1);
    } else {
      DivMod(m, q + 1, off - 1);
      assert q * m + off + m - 1 == (q + 1) * m + (off - 1);
    }
  }

  lemma StartInFirst(d: Descriptor)
    requires d.chunkSize > 0
    ensures d.dataStart == Pos(d, 0) + Lo(d, 0)
  {
  }

  lemma {:induction false} PosMonotone(d: Descriptor, i: nat, j: nat)
    requires d.chunkSize > 0 && i <= j
    ensures Pos(d, i) <= Pos(d, j) && (i < j ==> Pos(d, i) + d.chunkSize <= Pos(d, j))
    decreases j - i
  {
    if i < j {
      PosMonotone(d, i, j - 1);
    }
  }

  // ---------- append and alloc ----------

  /** append_chunk with a chunk from the pool, whose private data is fresh. The space left in the
      last chunk becomes a hole that counts as written. */
  function AppendChunk(d: Descriptor, id: nat): Descriptor
    requires d.chunkSize > 0 && Tail(d) >= 0
    requires d.chunks != [] ==> d.chunks[|d.chunks| - 1] in d.priv
  {
    var blank := Private(d.chunks == [], d.chunkSize, 0);
    var e := d.(totalSize := d.totalSize + d.chunkSize, endOffset := d.endOffset + d.chunkSize,
                chunks := d.chunks + [id],
                priv := d.priv[id := blank]);
    if d.chunks == [] then e
    else
      var last := d.chunks[|d.chunks| - 1];
      var off := Mod(Tail(d), d.chunkSize);
      var p := d.priv[last].(next := id);
      if off == 0 then e.(priv := d.priv[last := p][id := blank])
      else
        e.(writeSz := d.writeSz + d.chunkSize - off, priv := d.priv[last := p.(endOfChunk := off)][id := blank])
  }

  /** alloc_next_append_blk: the offset handed out and the new descriptor. */
  function Alloc(d: Descriptor, sz: nat, id: nat): (r: (int, Descriptor))
    requires d.chunkSize > 0 && Tail(d) >= 0
    requires d.chunks != [] ==> d.chunks[|d.chunks| - 1] in d.priv
  {
    var grow := Tail(d) + sz >= d.endOffset;
    var e := if grow then AppendChunk(d, id) else d;
    (Tail(e),
     e.(reserved := e.reserved + sz,
        layout := if grow || d.layout == [] then d.layout + [[sz]]
                  else d.layout[|d.layout| - 1 := d.layout[|d.layout| - 1] + [sz]]))
  }

  lemma TailInLast(d: Descriptor)
    requires Inv(d) && d.chunks != []
    ensures var n := |d.chunks| - 1;
            var off := Tail(d) - Pos(d, n);
            && 0 < off < d.chunkSize && Mod(Tail(d), d.chunkSize) == off && off == Lo(d, n) + Sum(d.layout[n])
            && RoundUp(Tail(d), d.chunkSize) == d.endOffset
  {
    hide ListOnDisk, Filled, Sum, RoundDown, RoundUp, Mod;
    var n := |d.chunks| - 1;
    InChunk(d, n, Tail(d) - Pos(d, n));
  }

  lemma {:induction false} PosSame(d: Descriptor, e: Descriptor, i: nat)
    requires d.chunkSize > 0 && e.chunkSize == d.chunkSize && e.dataStart == d.dataStart
    ensures Pos(e, i) == Pos(d, i)
  {
    if i > 0 {
      PosSame(d, e, i - 1);
    }
  }

  lemma SumOne(sz: nat)
    ensures Sum([sz]) == sz
  {
    SumAppend([], sz);
    assert [] + [sz] == [sz];
  }

  lemma FitFilled(size: nat, lo: nat, ends: seq<nat>, layout: seq<seq<nat>>, sz: nat)
    requires Filled(size, lo, ends, layout) && ends != [] && sz > 0
    ensures Filled(size, lo, ends, layout[|ends| - 1 := layout[|ends| - 1] + [sz]])
  {
    hide Sum;
  }

  lemma NotEmpty(d: Descriptor, sz: nat)
    requires Inv(d) && Tail(d) + sz < d.endOffset
    ensures d.chunks != []
  {
    StartInFirst(d);
  }

  /** A group that fits goes right after the tail. */
  lemma AllocFits(d: Descriptor, sz: nat, id: nat)
    requires Inv(d) && 0 < sz < d.chunkSize && Tail(d) + sz < d.endOffset
    ensures Inv(Alloc(d, sz, id).1) && d.chunks != []
  {
    hide RoundDown, Mod, ListOnDisk, Filled, Sum;
    NotEmpty(d, sz);
    var e, n := Alloc(d, sz, id).1, |d.chunks| - 1;
    PosSame(d, e, |d.chunks|);
    PosSame(d, e, 0);
    PosSame(d, e, n);
    SumAppend(d.layout[n], sz);
    FitFilled(d.chunkSize, Lo(d, 0), Ends(d.chunks, d.priv), d.layout, sz);
  }

  /** The first chunk of an empty journal. */
  lemma AllocFirst(d: Descriptor, sz: nat, id: nat)
    requires Inv(d) && 0 < sz < d.chunkSize && id != 0 && d.chunks == []
    ensures Inv(Alloc(d, sz, id).1) && Alloc(d, sz, id).0 == d.dataStart
  {
    hide RoundDown, Mod;
    var e := Alloc(d, sz, id).1;
    PosSame(d, e, 0);
    PosSame(d, e, 1);
    StartInFirst(d);
    SumOne(sz);
  }

  /** The private data once `id` is the last chunk and the one before it ends at `end`. */
  ghost function Linked(chunks: seq<nat>, priv: map<nat, Private>, id: nat, size: nat, end: nat): map<nat, Private>
    requires chunks != [] && chunks[|chunks| - 1] in priv
  {
    var last := chunks[|chunks| - 1];
    priv[last := Private(priv[last].isHead, end, id)][id := Private(false, size, 0)]
  }

  lemma LinkedOwned(chunks: seq<nat>, priv: map<nat, Private>, id: nat, size: nat, end: nat)
    requires Owned(chunks, priv) && chunks != [] && id != 0 && id !in priv
    ensures Owned(chunks + [id], Linked(chunks, priv, id, size, end))
  {
    var all := chunks + [id];
    assert forall i :: 0 <= i < |chunks| ==> all[i] == chunks[i] && all[i] != id;
  }

  lemma LinkedList(chunks: seq<nat>, priv: map<nat, Private>, id: nat, size: nat, end: nat)
    requires Owned(chunks, priv) && ListOnDisk(chunks, priv) && chunks != [] && id !in priv
    ensures ListOnDisk(chunks + [id], Linked(chunks, priv, id, size, end))
  {
    var all, q := chunks + [id], Linked(chunks, priv, id, size, end);
    forall i | 0 <= i < |all| && all[i] in q
      ensures q[all[i]].isHead <==> i == 0
      ensures q[all[i]].next == Next(all, i)
    {
      if i < |chunks| {
        assert all[i] == chunks[i];
      }
    }
  }

  lemma AppendList(chunks: seq<nat>, priv: map<nat, Private>, id: nat, size: nat, end: nat)
    requires Owned(chunks, priv) && ListOnDisk(chunks, priv) && chunks != [] && id != 0 && id !in priv
    ensures var q := Linked(chunks, priv, id, size, end);
            && Owned(chunks + [id], q) && ListOnDisk(chunks + [id], q)
            && Ends(chunks + [id], q) == Ends(chunks, priv)[|chunks| - 1 := end] + [size]
  {
    hide ListOnDisk;
    LinkedOwned(chunks, priv, id, size, end);
    LinkedList(chunks, priv, id, size, end);
  }

  lemma AppendFilled(size: nat, lo: nat, ends: seq<nat>, layout: seq<seq<nat>>, end: nat, sz: nat)
    requires Filled(size, lo, ends, layout) && ends != [] && sz > 0
    requires end == (if |ends| == 1 then lo else 0) + Sum(layout[|ends| - 1]) && 0 < end < size
    ensures Filled(size, lo, ends[|ends| - 1 := end] + [size], layout + [[sz]])
  {
    hide Sum;
  }

  lemma GrownIs(d: Descriptor, sz: nat, id: nat)
    requires Inv(d) && d.chunks != [] && Tail(d) + sz >= d.endOffset
    ensures var off := Mod(Tail(d), d.chunkSize);
            Alloc(d, sz, id) ==
              (d.endOffset, Descriptor(d.chunkSize, d.dataStart, d.writeSz + d.chunkSize - off, d.reserved + sz,
              d.chunks + [id], Linked(d.chunks, d.priv, id, d.chunkSize, off),
              d.totalSize + d.chunkSize, d.endOffset + d.chunkSize, d.layout + [[sz]]))
  {
    hide RoundDown, RoundUp, Mod, ListOnDisk, Filled;
    TailInLast(d);
  }

  /** A group that does not fit leaves a hole and starts a new chunk. */
  lemma AllocGrows(d: Descriptor, sz: nat, id: nat)
    requires Inv(d) && 0 < sz < d.chunkSize && id != 0 && id !in d.priv && d.chunks != [] && Tail(d) + sz >= d.endOffset
    ensures Inv(Alloc(d, sz, id).1) && Alloc(d, sz, id).0 == d.endOffset
  {
    hide RoundDown, RoundUp, Mod, ListOnDisk, Filled, Alloc, Sum, Linked;
    GrownIs(d, sz, id);
    var e, n := Alloc(d, sz, id).1, |d.chunks|;
    TailInLast(d);
    AppendList(d.chunks, d.priv, id, d.chunkSize, Mod(Tail(d), d.chunkSize));
    AppendFilled(d.chunkSize, Lo(d, 0), Ends(d.chunks, d.priv), d.layout, Mod(Tail(d), d.chunkSize), sz);
    PosSame(d, e, 0);
    PosSame(d, e, n);
    PosSame(d, e, n + 1);
    SumOne(sz);
  }

  // ---------- runs of allocations ----------

  /** Any allocation with 0 < sz < chunk_size keeps the invariant, hands out the tail as it is after
      a possible new chunk, and never meets the "No space" assertion. The group lies in one chunk. */
  lemma AllocKeeps(d: Descriptor, sz: nat, id: nat)
    requires Inv(d) && 0 < sz < d.chunkSize && id != 0 && id !in d.priv
    ensures var (off, e) := Alloc(d, sz, id);
      && Inv(e)
      && Tail(d) <= off && Tail(e) == off + sz < e.endOffset
      && d.endOffset <= e.endOffset <= d.endOffset + d.chunkSize
      && Pos(e, |e.chunks| - 1) <= off && off + sz < Pos(e, |e.chunks| - 1) + e.chunkSize
      && e.dataStart == d.dataStart
  {
    hide RoundDown, RoundUp, Mod, ListOnDisk, Filled;
    var (off, e) := Alloc(d, sz, id);
    if d.chunks == [] {
      AllocFirst(d, sz, id);
      StartInFirst(d);
      PosSame(d, e, 0);
    } else if Tail(d) + sz < d.endOffset {
      AllocFits(d, sz, id);
      PosSame(d, e, |d.chunks| - 1);
    } else {
      AllocGrows(d, sz, id);
      PosSame(d, e, |d.chunks|);
    }
  }
}
