/**
 Truncation of the journal: the front of the window moves up, chunks whose data lies below the new
 start go back to the pool, and the chunk that becomes first is marked as head on disk.
 */
module JournalTruncate {

  import opened Arithmetic
  import opened Journal
  import opened JournalRead

  // ---------- finding a chunk ----------

  function Quotient(x: nat, m: nat): nat
    requires m > 0
  {
    x / m
  }

  /** offset_to_chunk: index of the chunk and offset inside it. */
  function ChunkOf(d: Descriptor, x: int): (nat, nat)
    requires d.chunkSize > 0 && x >= Pos(d, 0)
  {
    (Quotient(x - Pos(d, 0), d.chunkSize), Mod(x - Pos(d, 0), d.chunkSize))
  }

  lemma ChunkOfAt(d: Descriptor, c: nat, o: nat)
    requires d.chunkSize > 0 && o < d.chunkSize
    ensures Pos(d, c) >= Pos(d, 0) && ChunkOf(d, Pos(d, c) + o) == (c, o)
  {
    PosMonotone(d, 0, c);
    PosAt(d, c);
    DivMod(d.chunkSize, c, o);
  }

  lemma ChunkIn(d: Descriptor, x: int)
    requires d.chunkSize > 0 && Pos(d, 0) <= x < Pos(d, |d.chunks|)
    ensures var (c, o) := ChunkOf(d, x); c < |d.chunks| && o < d.chunkSize && x == Pos(d, c) + o
  {
    var (c, o) := ChunkOf(d, x);
    PosAt(d, c);
    if c >= |d.chunks| {
      PosMonotone(d, |d.chunks|, c);
    }
  }

  // ---------- truncate ----------

  /** Groups that lie in the first `n` bytes are gone. */
  function DropBytes(sizes: seq<nat>, n: int): seq<nat> {
    if sizes == [] || n <= 0 then sizes else DropBytes(sizes[1..], n - sizes[0])
  }

  /** The test of the release loop for chunk `i`. */
  predicate Released(d: Descriptor, t: int, i: nat)
    requires d.chunkSize > 0 && Tail(d) >= 0 && i < |d.chunks| && d.chunks[i] in d.priv
  {
    var last := i == |d.chunks| - 1;
    var cover := Pos(d, i) + if last then Mod(Tail(d), d.chunkSize) else d.chunkSize;
    var hole := if last then 0 else d.chunkSize - EndOfChunk(d, i);
    cover <= t || cover - hole <= t
  }

  /** The chunks the loop keeps, from chunk `i` on. */
  function Sweep(d: Descriptor, t: int, i: nat): seq<nat>
    requires d.chunkSize > 0 && Tail(d) >= 0 && i <= |d.chunks|
    requires forall j :: 0 <= j < |d.chunks| ==> d.chunks[j] in d.priv
    decreases |d.chunks| - i
  {
    if i == |d.chunks| then []
    else (if Released(d, t, i) then [] else [d.chunks[i]]) + Sweep(d, t, i + 1)
  }

  function Restrict(priv: map<nat, Private>, kept: seq<nat>): map<nat, Private> {
    map c | c in priv && c in kept :: priv[c]
  }

  /** truncate. The layout of what is left is history, not part of the code. */
  function Truncate(d: Descriptor, t: int): Descriptor
    requires Inv(d) && d.chunks != [] && d.dataStart <= t < d.endOffset
  {
    StartInFirst(d);
    ChunkIn(d, t);
    var (i, o) := ChunkOf(d, t);
    var end := EndOfChunk(d, i);
    var skip := o >= end && i + 1 < |d.chunks|;
    var head := if skip then i + 1 else i;
    var priv := d.priv[d.chunks[head] := d.priv[d.chunks[head]].(isHead := true)];
    var kept := Sweep(d, t, 0);
    var start := if skip then RoundUp(t, d.chunkSize) else t;
    d.(dataStart := if kept != [] then start else RoundUp(start, d.chunkSize),
       endOffset := if kept != [] then RoundDown(start, d.chunkSize) + |kept| * d.chunkSize
                    else RoundUp(start, d.chunkSize),
       writeSz := d.writeSz - (t - d.dataStart) - (if skip then d.chunkSize - end else 0),
       chunks := kept,
       priv := Restrict(priv, kept),
       totalSize := d.totalSize - (|d.chunks| - |kept|) * d.chunkSize,
       layout := if kept == [] then []
                 else [DropBytes(d.layout[head], t - Pos(d, head) - Lo(d, head))] + d.layout[head + 1..])
  }

  /** How many chunks lie below `t`: a chunk is below when its data ends there or earlier. */
  function Cut(d: Descriptor, t: int): nat
    requires Inv(d) && d.chunks != [] && d.dataStart <= t < d.endOffset
  {
    StartInFirst(d);
    ChunkIn(d, t);
    var (c, o) := ChunkOf(d, t);
    if c == |d.chunks| - 1 then (if Tail(d) <= t then c + 1 else c) else if o >= EndOfChunk(d, c) then c + 1 else c
  }

  /** Where the data of chunk `i` ends. */
  ghost function DataEnd(d: Descriptor, i: nat): int
    requires d.chunkSize > 0 && i < |d.chunks| && d.chunks[i] in d.priv
  {
    if i == |d.chunks| - 1 then Tail(d) else Pos(d, i) + EndOfChunk(d, i)
  }

  lemma ReleasedIff(d: Descriptor, t: int, i: nat)
    requires Inv(d) && d.chunks != [] && d.dataStart <= t < d.endOffset && i < |d.chunks|
    ensures Released(d, t, i) <==> DataEnd(d, i) <= t
    ensures DataEnd(d, i) <= t <==> i < Cut(d, t)
    ensures Cut(d, t) <= |d.chunks|
  {
    hide RoundDown, RoundUp, Mod, Quotient, ListOnDisk, Filled, Sum;
    StartInFirst(d);
    TailInLast(d);
    Extent(d);
    ChunkIn(d, t);
    var (c, o) := ChunkOf(d, t);
    if i < c {
      PosMonotone(d, i, c);
    } else {
      PosMonotone(d, c, i);
    }
  }

  lemma {:induction false} SweepIsSuffix(d: Descriptor, t: int, i: nat)
    requires Inv(d) && d.chunks != [] && d.dataStart <= t < d.endOffset && i <= |d.chunks|
    ensures var k := Cut(d, t); k <= |d.chunks| && Sweep(d, t, i) == d.chunks[if i < k then k else i..]
    decreases |d.chunks| - i
  {
    hide RoundDown, RoundUp, Mod, Quotient, ListOnDisk, Filled, Sum, Cut, Released;
    if i < |d.chunks| {
      ReleasedIff(d, t, i);
      SweepIsSuffix(d, t, i + 1);
    } else {
      ReleasedIff(d, t, 0);
    }
  }

  // ---------- the window after truncation, for every offset ----------

  /** `t` lies strictly inside the hole at the end of a chunk. */
  ghost predicate InHole(d: Descriptor, t: int)
    requires Inv(d) && d.dataStart <= t < d.endOffset
  {
    StartInFirst(d);
    ChunkIn(d, t);
    var (c, o) := ChunkOf(d, t);
    o > EndOfChunk(d, c)
  }

  lemma Rounds(d: Descriptor, c: nat, o: nat)
    requires d.chunkSize > 0 && o < d.chunkSize && c < |d.chunks|
    ensures var t, n, m := Pos(d, c) + o, |d.chunks|, d.chunkSize;
            && t >= 0 && RoundDown(t, m) == Pos(d, c) && (o > 0 ==> RoundUp(t, m) == Pos(d, c + 1))
            && Pos(d, c + 1) >= 0 && RoundDown(Pos(d, c + 1), m) == Pos(d, c + 1)
            && Pos(d, c) + (n - c) * m == Pos(d, n) && Pos(d, c + 1) + (n - (c + 1)) * m == Pos(d, n)
  {
    InChunk(d, c, o);
    InChunk(d, c + 1, 0);
    PosAt(d, c);
    PosAt(d, c + 1);
    PosAt(d, |d.chunks|);
    Multiples(|d.chunks|, c, d.chunkSize);
  }

  /** What is known of the chunk an offset lies in. */
  lemma Located(d: Descriptor, t: int) returns (c: nat, o: nat)
    requires Inv(d) && d.chunks != [] && d.dataStart <= t < d.endOffset
    ensures d.chunkSize > 0 && c < |d.chunks| && o < d.chunkSize && t == Pos(d, c) + o
    ensures Pos(d, 0) <= t && ChunkOf(d, t) == (c, o)
    ensures d.chunks[c] in d.priv && 0 < EndOfChunk(d, c) <= d.chunkSize && Lo(d, c) < EndOfChunk(d, c)
    ensures c == |d.chunks| - 1 ==> EndOfChunk(d, c) == d.chunkSize && Pos(d, c) < Tail(d)
    ensures c < |d.chunks| - 1 ==> t < Tail(d)
    ensures d.endOffset == Pos(d, |d.chunks|)
  {
    hide ListOnDisk, Filled, Sum, RoundDown, RoundUp, Mod, Quotient;
    StartInFirst(d);
    ChunkIn(d, t);
    c, o := ChunkOf(d, t).0, ChunkOf(d, t).1;
    TailInLast(d);
    Extent(d);
    SumPositive(d.layout[c]);
    if c < |d.chunks| - 1 {
      PosMonotone(d, c, |d.chunks| - 1);
    }
  }

  /** The fields of the truncated descriptor in closed form. */
  lemma TruncatedIs(d: Descriptor, t: int)
    requires Inv(d) && d.chunks != [] && d.dataStart <= t < d.endOffset
    ensures var e, k, n := Truncate(d, t), Cut(d, t), |d.chunks|;
            && k <= n && e.chunkSize == d.chunkSize > 0 && e.chunks == d.chunks[k..] && e.endOffset == d.endOffset
            && e.dataStart == (if k == n then d.endOffset else if t < Pos(d, k) then Pos(d, k) else t)
            && e.reserved == d.reserved
            && (k < n ==> Pos(d, k) <= e.dataStart < Pos(d, k) + d.chunkSize)
            && (k == n ==> Pos(d, k) == e.dataStart)
  {
    hide Inv, RoundDown, RoundUp, Mod, Quotient, Released, Sweep, DropBytes;
    var c, o := Located(d, t);
    SweepIsSuffix(d, t, 0);
    Rounds(d, c, o);
  }

  lemma Multiples(n: int, c: int, m: int)
    ensures (n - c) * m == n * m - c * m && (n - (c + 1)) * m == n * m - (c + 1) * m && (c + 1) * m == c * m + m
  {
  }

  /** Truncation never moves the end of the window. It keeps the tail exactly when it is below the
      tail and not strictly inside a hole: inside a hole the tail falls back by the part of the hole
      that was cut off, and at or after the tail every chunk is released. */
  lemma TruncateWindow(d: Descriptor, t: int)
    requires Inv(d) && d.chunks != [] && d.dataStart <= t < d.endOffset
    ensures var e := Truncate(d, t);
            && e.endOffset == d.endOffset
            && (Tail(e) == Tail(d) <==> t < Tail(d) && !InHole(d, t))
            && (e.chunks == [] <==> Tail(d) <= t)
  {
    hide Inv, RoundDown, RoundUp, Mod, Quotient, Released, Sweep, DropBytes;
    TruncatedIs(d, t);
    var c, o := Located(d, t);
    SweepIsSuffix(d, t, 0);
  }

  lemma {:induction false} PosAfter(d: Descriptor, e: Descriptor, k: nat, i: nat)
    requires d.chunkSize > 0 && e.chunkSize == d.chunkSize && Pos(d, k) <= e.dataStart < Pos(d, k) + d.chunkSize
    ensures Pos(e, i) == Pos(d, k + i) && Lo(e, 0) == e.dataStart - Pos(d, k)
  {
    InChunk(d, k, e.dataStart - Pos(d, k));
    if i > 0 {
      PosAfter(d, e, k, i - 1);
    }
  }

  /** The size bookkeeping that update_data_start_offset asserts is right. */
  lemma TruncateSizes(d: Descriptor, t: int)
    requires Inv(d) && d.chunks != [] && d.dataStart <= t < d.endOffset
    ensures var e := Truncate(d, t);
            e.chunkSize > 0 && e.endOffset == Pos(e, |e.chunks|) && e.totalSize == e.endOffset - Pos(e, 0)
  {
    hide ListOnDisk, Filled, Sum, RoundDown, RoundUp, Mod, Quotient, Released, Sweep, Cut;
    TruncatedIs(d, t);
    var e, k, n := Truncate(d, t), Cut(d, t), |d.chunks|;
    PosAfter(d, e, k, 0);
    PosAfter(d, e, k, n - k);
    SweepIsSuffix(d, t, 0);
    PosAt(d, k);
    PosAt(d, n);
    Multiples(n, k, d.chunkSize);
  }

  /** Exactly the chunks whose data lies below `t` are released; the others stay in order and keep
      their place in the window. */
  lemma TruncateReleases(d: Descriptor, t: int)
    requires Inv(d) && d.chunks != [] && d.dataStart <= t < d.endOffset
    ensures var e, k := Truncate(d, t), Cut(d, t);
            && k <= |d.chunks| && e.chunks == d.chunks[k..] && e.chunkSize == d.chunkSize
            && (forall i :: 0 <= i < |d.chunks| ==> (i < k <==> DataEnd(d, i) <= t))
            && (forall i :: 0 <= i ==> Pos(e, i) == Pos(d, k + i))
  {
    hide ListOnDisk, Filled, Sum, RoundDown, RoundUp, Mod, Quotient, Released, Sweep, DataEnd, Cut;
    TruncatedIs(d, t);
    var e, k := Truncate(d, t), Cut(d, t);
    forall i | 0 <= i < |d.chunks|
      ensures i < k <==> DataEnd(d, i) <= t
    {
      ReleasedIff(d, t, i);
    }
    forall i: nat
      ensures Pos(e, i) == Pos(d, k + i)
    {
      PosAfter(d, e, k, i);
    }
  }

  // ---------- the list on disk ----------

  /** The private data once the first `k` chunks are released and chunk `k` is the head. */
  function Remaining(chunks: seq<nat>, priv: map<nat, Private>, k: nat): map<nat, Private>
    requires k < |chunks| && chunks[k] in priv
  {
    Restrict(priv[chunks[k] := priv[chunks[k]].(isHead := true)], chunks[k..])
  }

  lemma RemainingAt(chunks: seq<nat>, priv: map<nat, Private>, k: nat, i: nat)
    requires Owned(chunks, priv) && k + i < |chunks|
    ensures var q := Remaining(chunks, priv, k);
            && chunks[k..][i] == chunks[k + i] && chunks[k + i] in q
            && q[chunks[k + i]] == (if i == 0 then priv[chunks[k]].(isHead := true) else priv[chunks[k + i]])
  {
    assert chunks[k..][i] == chunks[k + i];
  }

  lemma RemainingOwned(chunks: seq<nat>, priv: map<nat, Private>, k: nat)
    requires Owned(chunks, priv) && k < |chunks|
    ensures Owned(chunks[k..], Remaining(chunks, priv, k))
  {
    forall i | 0 <= i < |chunks[k..]|
      ensures chunks[k..][i] in Remaining(chunks, priv, k)
    {
      RemainingAt(chunks, priv, k, i);
    }
  }

  lemma RemainingList(chunks: seq<nat>, priv: map<nat, Private>, k: nat)
    requires Owned(chunks, priv) && ListOnDisk(chunks, priv) && k < |chunks|
    ensures ListOnDisk(chunks[k..], Remaining(chunks, priv, k))
  {
    hide Remaining;
    var kept, q := chunks[k..], Remaining(chunks, priv, k);
    forall i | 0 <= i < |kept| && kept[i] in q
      ensures q[kept[i]].isHead <==> i == 0
      ensures q[kept[i]].next == Next(kept, i)
    {
      RemainingAt(chunks, priv, k, i);
      assert Next(chunks, k + i) == Next(kept, i);
    }
  }

  lemma SuffixList(chunks: seq<nat>, priv: map<nat, Private>, k: nat)
    requires Owned(chunks, priv) && ListOnDisk(chunks, priv) && k < |chunks|
    ensures var q := Remaining(chunks, priv, k);
            Owned(chunks[k..], q) && ListOnDisk(chunks[k..], q) && Ends(chunks[k..], q) == Ends(chunks, priv)[k..]
  {
    hide Remaining, ListOnDisk;
    RemainingOwned(chunks, priv, k);
    RemainingList(chunks, priv, k);
    var kept, q := chunks[k..], Remaining(chunks, priv, k);
    forall i | 0 <= i < |kept|
      ensures q[kept[i]].endOfChunk == priv[chunks[k + i]].endOfChunk
    {
      RemainingAt(chunks, priv, k, i);
    }
    SameEnds(chunks, priv, q, k);
  }

  lemma SameEnds(chunks: seq<nat>, priv: map<nat, Private>, q: map<nat, Private>, k: nat)
    requires Owned(chunks, priv) && k <= |chunks| && Owned(chunks[k..], q)
    requires forall i :: 0 <= i < |chunks[k..]| ==> q[chunks[k..][i]].endOfChunk == priv[chunks[k + i]].endOfChunk
    ensures Ends(chunks[k..], q) == Ends(chunks, priv)[k..]
  {
  }

  lemma PrivateOf(d: Descriptor)
    requires Inv(d)
    ensures forall j :: 0 <= j < |d.chunks| ==> d.chunks[j] in d.priv
  {
  }

  lemma RestrictNone()
    ensures forall priv: map<nat, Private> :: Restrict(priv, []) == map[]
  {
  }

  /** When chunks are left, the chunk marked as head is the first of them. */
  lemma HeadIsFirst(d: Descriptor, t: int) returns (c: nat, o: nat)
    requires Inv(d) && d.chunks != [] && d.dataStart <= t < d.endOffset
    ensures d.chunkSize > 0 && Pos(d, 0) <= t && ChunkOf(d, t) == (c, o) && c < |d.chunks| && d.chunks[c] in d.priv
    ensures Cut(d, t) <= |d.chunks|
    ensures Cut(d, t) < |d.chunks| ==> Cut(d, t) == if o >= EndOfChunk(d, c) && c + 1 < |d.chunks| then c + 1 else c
  {
    hide Inv, RoundDown, RoundUp, Mod, Quotient;
    c, o := Located(d, t);
  }

  lemma TruncatedHead(d: Descriptor, t: int)
    requires Inv(d) && d.chunks != [] && d.dataStart <= t < d.endOffset
    ensures var e, k := Truncate(d, t), Cut(d, t);
            && k <= |d.chunks|
            && (k < |d.chunks| ==>
                  && d.chunks[k] in d.priv && e.priv == Remaining(d.chunks, d.priv, k)
                  && e.layout == [DropBytes(d.layout[k], t - Pos(d, k) - Lo(d, k))] + d.layout[k + 1..])
            && (k == |d.chunks| ==> e.priv == map[] && e.layout == [])
  {
    hide Inv, RoundDown, RoundUp, Mod, Quotient, Released, Sweep, DropBytes, Restrict, Cut, ChunkOf, EndOfChunk, Pos;
    RestrictNone();
    WindowOf(d);
    PrivateOf(d);
    var c, o := HeadIsFirst(d, t);
    SweepIsSuffix(d, t, 0);
  }

  /** Truncation to any offset leaves the list on disk equal to the list in memory, with one head. */
  lemma TruncateList(d: Descriptor, t: int)
    requires Inv(d) && d.chunks != [] && d.dataStart <= t < d.endOffset
    ensures var e, k := Truncate(d, t), Cut(d, t);
            && k <= |d.chunks| && Owned(e.chunks, e.priv) && ListOnDisk(e.chunks, e.priv)
            && Ends(e.chunks, e.priv) == Ends(d.chunks, d.priv)[k..]
  {
    hide Truncate, Cut, Filled;
    TruncatedIs(d, t);
    TruncatedHead(d, t);
    if Cut(d, t) < |d.chunks| {
      SuffixList(d.chunks, d.priv, Cut(d, t));
    }
  }

  // ---------- truncation to a live group ----------

  lemma StartsDrop(base: int, sizes: seq<nat>, g: nat)
    requires g <= |sizes|
    ensures Starts(base, sizes)[g..] == Starts(base + Sum(sizes[..g]), sizes[g..])
  {
    hide Sum;
    var a, b := Starts(base, sizes)[g..], Starts(base + Sum(sizes[..g]), sizes[g..]);
    forall j | 0 <= j < |a|
      ensures a[j] == b[j]
    {
      SumSplit(sizes[..g + j], g);
      assert sizes[..g + j][..g] == sizes[..g] && sizes[..g + j][g..] == sizes[g..][..j];
    }
  }

  ghost function LoAt(c: nat, lo: nat): nat {
    if c == 0 then lo else 0
  }

  /** Live group `i` is group `g` of chunk `c`; without the groups before it, the rest stays where it is. */
  lemma {:induction false} GroupAt(size: nat, at: int, lo: nat, layout: seq<seq<nat>>, i: nat) returns (c: nat, g: nat)
    requires i < |Flat(layout)|
    ensures c < |layout| && g < |layout[c]| && i < |Offsets(size, at, lo, layout)|
    ensures Offsets(size, at, lo, layout)[i] == Skip(size, at, c) + LoAt(c, lo) + Sum(layout[c][..g])
    ensures var rest := [layout[c][g..]] + layout[c + 1..];
            && Flat(rest) == Flat(layout)[i..]
            && Offsets(size, Skip(size, at, c), LoAt(c, lo) + Sum(layout[c][..g]), rest) ==
                 Offsets(size, at, lo, layout)[i..]
    decreases layout
  {
    hide Sum, Starts;
    SameCount(size, at, lo, layout);
    var m := |layout[0]|;
    if i < m {
      c, g := 0, i;
      GroupInFirst(size, at, lo, layout, i);
    } else {
      c, g := GroupAt(size, at + size, 0, layout[1..], i - m);
      assert layout[1..][c] == layout[c + 1] && layout[1..][c + 1..] == layout[c + 2..];
      assert Flat(layout)[i..] == Flat(layout[1..])[i - m..];
      assert Offsets(size, at, lo, layout)[i..] == Offsets(size, at + size, 0, layout[1..])[i - m..];
      c := c + 1;
    }
  }

  lemma GroupInFirst(size: nat, at: int, lo: nat, layout: seq<seq<nat>>, g: nat)
    requires layout != [] && g < |layout[0]|
    ensures Offsets(size, at, lo, layout)[g] == at + lo + Sum(layout[0][..g])
    ensures var rest := [layout[0][g..]] + layout[1..];
            && Flat(rest) == Flat(layout)[g..]
            && Offsets(size, at, lo + Sum(layout[0][..g]), rest) == Offsets(size, at, lo, layout)[g..]
  {
    hide Sum, Starts;
    var rest := [layout[0][g..]] + layout[1..];
    assert rest[0] == layout[0][g..] && rest[1..] == layout[1..];
    StartsDrop(at + lo, layout[0], g);
    DropOfConcat(Starts(at + lo, layout[0]), Offsets(size, at + size, 0, layout[1..]), g);
    DropOfConcat(layout[0], Flat(layout[1..]), g);
  }

  lemma DropOfConcat<T>(a: seq<T>, b: seq<T>, g: nat)
    requires g <= |a|
    ensures (a + b)[g..] == a[g..] + b
  {
  }

  lemma {:induction false} DropSum(sizes: seq<nat>, g: nat)
    requires Groups(sizes) && g < |sizes|
    ensures DropBytes(sizes, Sum(sizes[..g])) == sizes[g..]
    decreases g
  {
    if g > 0 {
      SumSplit(sizes[..g], 1);
      assert sizes[..g][..1] == [sizes[0]] && sizes[..g][1..] == sizes[1..][..g - 1];
      SumOne(sizes[0]);
      DropSum(sizes[1..], g - 1);
    }
  }

  lemma DropGroups(sizes: seq<nat>, g: nat)
    requires Groups(sizes) && g < |sizes|
    ensures Groups(sizes[g..]) && Sum(sizes) == Sum(sizes[..g]) + Sum(sizes[g..])
  {
    SumSplit(sizes, g);
  }

  lemma CutFilled(size: nat, lo: nat, ends: seq<nat>, layout: seq<seq<nat>>, c: nat, g: nat)
    requires Filled(size, lo, ends, layout) && c < |layout| && g < |layout[c]|
    ensures Filled(size, LoAt(c, lo) + Sum(layout[c][..g]), ends[c..], [layout[c][g..]] + layout[c + 1..])
  {
    hide Sum, Groups;
    DropGroups(layout[c], g);
    var from, rest, tail := LoAt(c, lo) + Sum(layout[c][..g]), [layout[c][g..]] + layout[c + 1..], ends[c..];
    forall i | 0 <= i < |rest|
      ensures Groups(rest[i])
    {
      assert i > 0 ==> rest[i] == layout[c + i];
    }
    forall i | 0 <= i < |tail| - 1
      ensures tail[i] == (if i == 0 then from else 0) + Sum(rest[i]) && 0 < tail[i] < size
    {
      assert tail[i] == ends[c + i];
      assert i > 0 ==> rest[i] == layout[c + i];
    }
  }

  lemma GroupBounds(d: Descriptor, c: nat, g: nat)
    requires Inv(d) && c < |d.chunks| && g < |d.layout[c]|
    ensures d.chunkSize > 0 && d.chunks[c] in d.priv
    ensures var t := Pos(d, c) + Lo(d, c) + Sum(d.layout[c][..g]);
            && d.dataStart <= t < Tail(d) < d.endOffset
            && Lo(d, c) + Sum(d.layout[c][..g]) < EndOfChunk(d, c) <= d.chunkSize
  {
    hide Sum, Filled, ListOnDisk, RoundDown, RoundUp, Mod;
    Extent(d);
    SumTake(d.layout[c], g);
    StartInFirst(d);
    if c < |d.chunks| - 1 {
      PosMonotone(d, c, |d.chunks| - 1);
    }
    PosMonotone(d, 0, c);
  }

  /** A live group lies in the window and its chunk is the first that truncation to it keeps. */
  lemma GroupInWindow(d: Descriptor, c: nat, g: nat)
    requires Inv(d) && c < |d.chunks| && g < |d.layout[c]|
    ensures var t := Pos(d, c) + Lo(d, c) + Sum(d.layout[c][..g]);
            && d.dataStart <= t < Tail(d) < d.endOffset && Cut(d, t) == c && !InHole(d, t)
  {
    hide Inv, Sum, RoundDown, RoundUp, Mod, Quotient;
    WindowOf(d);
    GroupBounds(d, c, g);
    ChunkOfAt(d, c, Lo(d, c) + Sum(d.layout[c][..g]));
  }

  lemma LiveGroupAt(d: Descriptor, i: nat) returns (c: nat, g: nat)
    requires Inv(d) && i < |Live(d)|
    ensures |Flat(d.layout)| == |Live(d)| && |d.layout| == |d.chunks|
    ensures c < |d.chunks| && g < |d.layout[c]| && Live(d)[i] == Pos(d, c) + Lo(d, c) + Sum(d.layout[c][..g])
    ensures var rest := [d.layout[c][g..]] + d.layout[c + 1..];
            && Flat(rest) == Flat(d.layout)[i..]
            && Offsets(d.chunkSize, Pos(d, c), Lo(d, c) + Sum(d.layout[c][..g]), rest) == Live(d)[i..]
  {
    hide Sum, Inv, RoundDown, RoundUp, Mod, Quotient, Offsets, Flat;
    WindowOf(d);
    SameCount(d.chunkSize, Pos(d, 0), Lo(d, 0), d.layout);
    c, g := GroupAt(d.chunkSize, Pos(d, 0), Lo(d, 0), d.layout, i);
    SkipIsPos(d, 0, c);
  }

  ghost predicate CutAt(d: Descriptor, e: Descriptor, c: nat, g: nat)
    requires d.chunkSize > 0 && c < |d.layout| && g < |d.layout[c]| && c <= |d.chunks|
  {
    && e.chunkSize == d.chunkSize && e.chunks == d.chunks[c..] && e.layout == [d.layout[c][g..]] + d.layout[c + 1..]
    && e.dataStart == Pos(d, c) + Lo(d, c) + Sum(d.layout[c][..g]) < Pos(d, c) + d.chunkSize
    && e.endOffset == d.endOffset && Tail(e) == Tail(d) >= e.dataStart && e.totalSize == e.endOffset - Pos(e, 0)
  }

  lemma CutWindow(d: Descriptor, e: Descriptor, c: nat, g: nat)
    requires Window(d) && c < |d.chunks| && Groups(d.layout[c]) && g < |d.layout[c]| && CutAt(d, e, c, g)
    ensures Window(e) && Pos(e, 0) == Pos(d, c) && Lo(e, 0) == Lo(d, c) + Sum(d.layout[c][..g])
  {
    hide Sum, Groups, RoundDown, RoundUp, Mod, Quotient;
    var n := |d.chunks| - 1;
    DropGroups(d.layout[c], g);
    PosAfter(d, e, c, 0);
    PosAfter(d, e, c, n - c);
    PosAfter(d, e, c, n + 1 - c);
  }

  lemma GroupsOf(d: Descriptor, c: nat)
    requires Inv(d) && c < |d.chunks|
    ensures Groups(d.layout[c])
  {
  }

  /** A descriptor that starts at group `g` of chunk `c` and is otherwise the same. */
  lemma StartsAtGroup(d: Descriptor, e: Descriptor, c: nat, g: nat)
    requires Inv(d) && c < |d.chunks| && g < |d.layout[c]| && CutAt(d, e, c, g)
    requires Owned(e.chunks, e.priv) && ListOnDisk(e.chunks, e.priv)
    requires Ends(e.chunks, e.priv) == Ends(d.chunks, d.priv)[c..]
    ensures Inv(e) && Pos(e, 0) == Pos(d, c) && Lo(e, 0) == Lo(d, c) + Sum(d.layout[c][..g])
  {
    hide Sum, Filled, Groups, ListOnDisk, Window, RoundDown, RoundUp, Mod, Quotient;
    WindowOf(d);
    GroupsOf(d, c);
    CutWindow(d, e, c, g);
    CutFilled(d.chunkSize, Lo(d, 0), Ends(d.chunks, d.priv), d.layout, c, g);
  }

  /** Truncation to live group `i` yields the descriptor that starts at that group. */
  lemma TruncatesAtGroup(d: Descriptor, i: nat) returns (c: nat, g: nat)
    requires Inv(d) && i < |Live(d)|
    ensures c < |d.chunks| == |d.layout| && g < |d.layout[c]| && d.dataStart <= Live(d)[i] < Tail(d) < d.endOffset
    ensures var e := Truncate(d, Live(d)[i]);
            && Inv(e) && CutAt(d, e, c, g) && Pos(e, 0) == Pos(d, c)
            && Lo(e, 0) == LoAt(c, Lo(d, 0)) + Sum(d.layout[c][..g])
    ensures |Flat(d.layout)| == |Live(d)|
    ensures var rest := [d.layout[c][g..]] + d.layout[c + 1..];
            && Flat(rest) == Flat(d.layout)[i..]
            && Offsets(d.chunkSize, Pos(d, c), Lo(d, c) + Sum(d.layout[c][..g]), rest) == Live(d)[i..]
  {
    hide Inv, Sum, Owned, Ends, ListOnDisk, RoundDown, RoundUp, Mod, Quotient, Offsets, Flat, Truncate, Cut, InHole,
         DropBytes;
    WindowOf(d);
    c, g := LiveGroupAt(d, i);
    GroupInWindow(d, c, g);
    var t := Live(d)[i];
    var e := Truncate(d, t);
    TruncatedIs(d, t);
    TruncatedHead(d, t);
    TruncateList(d, t);
    TruncateWindow(d, t);
    TruncateSizes(d, t);
    GroupsOf(d, c);
    DropSum(d.layout[c], g);
    StartsAtGroup(d, e, c, g);
  }

  /** Truncating to the offset of a live group: the invariant holds again, the groups before it are
      gone, it and all later groups keep their offsets, and tail and end do not move. */
  lemma TruncateToGroup(d: Descriptor, i: nat)
    requires Inv(d) && i < |Live(d)|
    ensures d.chunks != [] && d.dataStart <= Live(d)[i] < Tail(d) < d.endOffset && |Flat(d.layout)| == |Live(d)|
    ensures var e := Truncate(d, Live(d)[i]);
            && Inv(e) && Live(e) == Live(d)[i..] && Flat(e.layout) == Flat(d.layout)[i..]
            && Tail(e) == Tail(d) && e.endOffset == d.endOffset
  {
    hide Inv, Sum, RoundDown, RoundUp, Mod, Quotient, Offsets, Flat, Truncate;
    WindowOf(d);
    var _, _ := TruncatesAtGroup(d, i);
  }

  /** Truncating to the tail releases everything: the journal starts empty at the next chunk. */
  lemma TruncateToTail(d: Descriptor)
    requires Inv(d) && d.chunks != []
    ensures d.dataStart <= Tail(d) < d.endOffset
    ensures var e := Truncate(d, Tail(d));
            && Inv(e) && e.chunks == [] && e.priv == map[] && Live(e) == [] && Flat(e.layout) == []
            && Tail(e) == e.dataStart == e.endOffset == d.endOffset
  {
    hide Inv, RoundDown, RoundUp, Mod, Quotient, Released, Sweep, DropBytes, Live, Flat;
    TailInLast(d);
    WindowOf(d);
    StartBelowTail(d);
    var t := Tail(d);
    var e := Truncate(d, t);
    var c, o := Located(d, t);
    TruncatedIs(d, t);
    TruncatedHead(d, t);
    TruncateSizes(d, t);
    SweepIsSuffix(d, t, 0);
    PosAfter(d, e, |d.chunks|, 0);
    EmptyInv(e);
  }

  lemma StartBelowTail(d: Descriptor)
    requires Inv(d)
    ensures d.dataStart <= Tail(d)
  {
  }

  lemma EmptyInv(e: Descriptor)
    requires e.chunkSize > 0 && e.chunks == [] && e.priv == map[] && e.layout == []
    requires e.dataStart == e.endOffset == Tail(e)
    requires e.totalSize == 0 && Lo(e, 0) == 0
    ensures Inv(e) && Live(e) == [] && Flat(e.layout) == []
  {
    hide RoundDown, Mod;
    StartInFirst(e);
  }

  /** Both ends of the hole of chunk `c` are after its data and before those of the next chunk. */
  lemma CutAtHole(d: Descriptor, c: nat)
    requires Inv(d) && c + 1 < |d.chunks| && d.chunks[c] in d.priv
    requires d.dataStart <= Pos(d, c) + EndOfChunk(d, c) < Pos(d, c + 1) < d.endOffset
    ensures Cut(d, Pos(d, c) + EndOfChunk(d, c)) == c + 1 && Cut(d, Pos(d, c + 1)) == c + 1
  {
    hide Inv, RoundDown, RoundUp, Mod, Quotient;
    HoleFacts(d, c);
    ChunkOfAt(d, c, EndOfChunk(d, c));
    ChunkOfAt(d, c + 1, 0);
  }

  lemma SameLists(d: Descriptor, h: int, t: int, k: nat)
    requires Inv(d) && d.chunks != [] && d.dataStart <= h <= t < d.endOffset
    requires Cut(d, h) == Cut(d, t) == k && k < |d.chunks| && h <= Pos(d, k) && t == Pos(d, k) && Lo(d, k) == 0
    ensures var a, b := Truncate(d, h), Truncate(d, t); a.(writeSz := b.writeSz, totalSize := b.totalSize) == b
  {
    hide Inv, RoundDown, RoundUp, Mod, Quotient, Remaining, DropBytes, Truncate, Cut;
    WindowOf(d);
    TruncatedIs(d, h);
    TruncatedIs(d, t);
    TruncatedHead(d, h);
    TruncatedHead(d, t);
    DropNone(d.layout[k]);
  }

  /** Truncating to the end of the data of a chunk, where its hole begins, is truncating to the
      start of the next chunk. */
  lemma TruncateToHole(d: Descriptor, c: nat)
    requires Inv(d) && c + 1 < |d.chunks|
    ensures d.chunks[c] in d.priv && d.dataStart <= Pos(d, c) + EndOfChunk(d, c) && Pos(d, c + 1) < d.endOffset
    ensures Pos(d, c) + EndOfChunk(d, c) < d.endOffset && d.dataStart <= Pos(d, c + 1)
    ensures Truncate(d, Pos(d, c) + EndOfChunk(d, c)) == Truncate(d, Pos(d, c + 1))
  {
    hide Inv, RoundDown, RoundUp, Mod, Quotient, Truncate, Cut;
    HoleFacts(d, c);
    CutAtHole(d, c);
    var h, t := Pos(d, c) + EndOfChunk(d, c), Pos(d, c + 1);
    SameLists(d, h, t, c + 1);
    TruncatedCounts(d, h, c, EndOfChunk(d, c));
    TruncatedCounts(d, t, c + 1, 0);
  }

  lemma TruncatedCounts(d: Descriptor, t: int, c: nat, o: nat)
    requires Inv(d) && d.chunks != [] && d.dataStart <= t < d.endOffset
    requires c < |d.chunks| && d.chunks[c] in d.priv && o < d.chunkSize && t == Pos(d, c) + o
    ensures var e := Truncate(d, t);
            && e.totalSize == d.totalSize - (|d.chunks| - |e.chunks|) * d.chunkSize
            && e.writeSz == d.writeSz - (t - d.dataStart)
                 - (if o >= EndOfChunk(d, c) && c + 1 < |d.chunks| then d.chunkSize - EndOfChunk(d, c) else 0)
  {
    hide Inv, RoundDown, RoundUp, Mod, Quotient, Restrict, DropBytes, Sweep;
    ChunkOfAt(d, c, o);
  }

  lemma DropNone(sizes: seq<nat>)
    ensures forall n :: n <= 0 ==> DropBytes(sizes, n) == sizes
  {
  }

  lemma HoleFacts(d: Descriptor, c: nat)
    requires Inv(d) && c + 1 < |d.chunks|
    ensures d.chunkSize > 0 && |d.layout| == |d.chunks| && d.chunks[c] in d.priv && d.chunks[c + 1] in d.priv
    ensures 0 < EndOfChunk(d, c) < d.chunkSize && 0 < EndOfChunk(d, c + 1)
    ensures d.dataStart <= Pos(d, c) + EndOfChunk(d, c) < Pos(d, c + 1) < d.endOffset
    ensures c + 1 == |d.chunks| - 1 ==> Pos(d, c + 1) < Tail(d)
  {
    hide Sum, ListOnDisk, RoundDown, Mod;
    Extent(d);
    StartInFirst(d);
    PosMonotone(d, 0, c);
    PosMonotone(d, c + 1, |d.chunks| - 1);
    assert Ends(d.chunks, d.priv)[c] == EndOfChunk(d, c);
    SumPositive(d.layout[c + 1]);
  }
}
