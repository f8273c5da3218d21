/**
 Runs of the journal: space is reserved, reserved groups are written in any order, and the front is
 truncated, all of it interleaved. What the live groups hold on the device is what was written to
 them, and a reader that starts at the data start gets exactly these bytes in order, whatever read sizes it uses.
 */
module JournalRun {

  import opened Arithmetic
  import opened Bytes
  import opened Journal
  import opened JournalRead
  import opened JournalTruncate

  /** The contents of every chunk on the device. */
  type Disk<B> = map<nat, seq<B>>

  // ---------- bytes on the device ----------

  function Slice<B>(disk: Disk<B>, c: nat, from: nat, to: nat): seq<B> {
    if c in disk && from <= to <= |disk[c]| then disk[c][from..to] else []
  }

  /** The bytes of the live groups in order. */
  function Data<B>(disk: Disk<B>, lo: nat, chunks: seq<nat>, layout: seq<seq<nat>>): seq<B>
    decreases layout
  {
    if layout == [] || chunks == [] then []
    else Slice(disk, chunks[0], lo, lo + Sum(layout[0])) + Data(disk, 0, chunks[1..], layout[1..])
  }

  function Sizes<B>(parts: seq<seq<B>>): (r: seq<nat>)
    ensures |r| == |parts| && forall i :: 0 <= i < |r| ==> r[i] == |parts[i]|
  {
    seq(|parts|, i requires 0 <= i < |parts| => |parts[i]|)
  }

  lemma {:induction false} ConcatLength<B>(parts: seq<seq<B>>)
    ensures |Concat(parts)| == Sum(Sizes(parts))
  {
    if parts != [] {
      var n := |parts| - 1;
      ConcatLength(parts[..n]);
      assert Sizes(parts)[..n] == Sizes(parts[..n]);
    }
  }

  ghost predicate Fits<B>(disk: Disk<B>, lo: nat, chunks: seq<nat>, layout: seq<seq<nat>>) {
    && |chunks| == |layout|
    && forall i :: 0 <= i < |chunks| ==> chunks[i] in disk && LoAt(i, lo) + Sum(layout[i]) <= |disk[chunks[i]]|
  }

  lemma FitsRest<B>(disk: Disk<B>, lo: nat, chunks: seq<nat>, layout: seq<seq<nat>>)
    requires Fits(disk, lo, chunks, layout) && chunks != []
    ensures Fits(disk, 0, chunks[1..], layout[1..])
  {
    hide Sum;
    forall i | 0 <= i < |chunks[1..]|
      ensures chunks[1..][i] in disk && LoAt(i, 0) + Sum(layout[1..][i]) <= |disk[chunks[1..][i]]|
    {
      assert chunks[1..][i] == chunks[i + 1] && layout[1..][i] == layout[i + 1];
    }
  }

  lemma {:induction false} DataLength<B>(disk: Disk<B>, lo: nat, chunks: seq<nat>, layout: seq<seq<nat>>)
    requires Fits(disk, lo, chunks, layout)
    ensures |Data(disk, lo, chunks, layout)| == Sum(Flat(layout))
    decreases layout
  {
    if layout != [] {
      FitsRest(disk, lo, chunks, layout);
      DataLength(disk, 0, chunks[1..], layout[1..]);
      SumSplit(Flat(layout), |layout[0]|);
      assert Flat(layout)[..|layout[0]|] == layout[0] && Flat(layout)[|layout[0]|..] == Flat(layout[1..]);
      assert LoAt(0, lo) + Sum(layout[0]) <= |disk[chunks[0]]|;
    }
  }

  // ---------- a write ----------

  function WriteAt<B>(disk: Disk<B>, c: nat, o: nat, bytes: seq<B>): Disk<B>
    requires c in disk && o + |bytes| <= |disk[c]|
  {
    disk[c := disk[c][..o] + bytes + disk[c][o + |bytes|..]]
  }

  lemma DataUnfold<B>(disk: Disk<B>, lo: nat, chunks: seq<nat>, layout: seq<seq<nat>>)
    requires layout != [] && chunks != []
    ensures Data(disk, lo, chunks, layout) ==
            Slice(disk, chunks[0], lo, lo + Sum(layout[0])) + Data(disk, 0, chunks[1..], layout[1..])
  {
    hide Sum, Slice;
  }

  lemma DataNone<B>(disk: Disk<B>, lo: nat, chunks: seq<nat>, layout: seq<seq<nat>>)
    requires layout == []
    ensures Data(disk, lo, chunks, layout) == []
  {
  }

  lemma SliceOther<B>(disk: Disk<B>, c: nat, o: nat, bytes: seq<B>, k: nat, from: nat, to: nat)
    requires c in disk && o + |bytes| <= |disk[c]| && k != c
    ensures Slice(WriteAt(disk, c, o, bytes), k, from, to) == Slice(disk, k, from, to)
  {
  }

  lemma SliceNone<B>(disk: Disk<B>, c: nat)
    ensures Slice(disk, c, 0, 0) == []
  {
  }

  lemma SliceWritten<B>(disk: Disk<B>, c: nat, o: nat, bytes: seq<B>, from: nat)
    requires c in disk && from <= o && o + |bytes| <= |disk[c]|
    ensures Slice(WriteAt(disk, c, o, bytes), c, from, o + |bytes|) == Slice(disk, c, from, o) + bytes
  {
  }

  /** Writing right after the live data of the last chunk. */
  lemma {:induction false} DataFit<B>(disk: Disk<B>, lo: nat, chunks: seq<nat>, layout: seq<seq<nat>>, bytes: seq<B>)
    requires Fits(disk, lo, chunks, layout) && chunks != []
    requires forall i, j :: 0 <= i < j < |chunks| ==> chunks[i] != chunks[j]
    requires var n := |chunks| - 1; LoAt(n, lo) + Sum(layout[n]) + |bytes| <= |disk[chunks[n]]|
    ensures var n := |chunks| - 1;
            Data(WriteAt(disk, chunks[n], LoAt(n, lo) + Sum(layout[n]), bytes),
                 lo, chunks, layout[n := layout[n] + [|bytes|]])
            == Data(disk, lo, chunks, layout) + bytes
    decreases layout
  {
    hide Sum, Data, Slice, WriteAt;
    var n := |chunks| - 1;
    var o := LoAt(n, lo) + Sum(layout[n]);
    var disk', m := WriteAt(disk, chunks[n], o, bytes), layout[n := layout[n] + [|bytes|]];
    DataUnfold(disk, lo, chunks, layout);
    DataUnfold(disk', lo, chunks, m);
    if n == 0 {
      SumAppend(layout[0], |bytes|);
      DataNone(disk, 0, chunks[1..], layout[1..]);
      DataNone(disk', 0, chunks[1..], m[1..]);
      SliceWritten(disk, chunks[0], o, bytes, lo);
    } else {
      FitsRest(disk, lo, chunks, layout);
      assert m[1..] == layout[1..][n - 1 := layout[n] + [|bytes|]];
      assert chunks[1..][n - 1] == chunks[n] && layout[1..][n - 1] == layout[n];
      DataFit(disk, 0, chunks[1..], layout[1..], bytes);
      SliceOther(disk, chunks[n], o, bytes, chunks[0], lo, lo + Sum(layout[0]));
    }
  }

  /** Writing at the start of a new last chunk. */
  lemma {:induction false} DataGrow<B>(disk: Disk<B>, lo: nat, chunks: seq<nat>, layout: seq<seq<nat>>, id: nat,
                                       bytes: seq<B>)
    requires |chunks| == |layout| && id in disk && |bytes| <= |disk[id]| && id !in chunks && (chunks == [] ==> lo == 0)
    ensures Data(WriteAt(disk, id, 0, bytes), lo, chunks + [id], layout + [[|bytes|]]) ==
            Data(disk, lo, chunks, layout) + bytes
    decreases layout
  {
    hide Sum, Data, Slice, WriteAt;
    var disk' := WriteAt(disk, id, 0, bytes);
    var all, m: seq<seq<nat>> := chunks + [id], layout + [[|bytes|]];
    DataUnfold(disk', lo, all, m);
    if chunks == [] {
      SumOne(|bytes|);
      DataNone(disk, lo, chunks, layout);
      DataNone(disk', 0, all[1..], m[1..]);
      SliceWritten(disk, id, 0, bytes, 0);
      SliceNone(disk, id);
    } else {
      DataUnfold(disk, lo, chunks, layout);
      assert all[1..] == chunks[1..] + [id] && m[1..] == layout[1..] + [[|bytes|]];
      DataGrow(disk, 0, chunks[1..], layout[1..], id, bytes);
      SliceOther(disk, id, 0, bytes, chunks[0], lo, lo + Sum(layout[0]));
    }
  }

  lemma SliceDrop<B>(disk: Disk<B>, c: nat, from: nat, mid: nat, to: nat)
    requires c in disk && from <= mid <= to <= |disk[c]|
    ensures |Slice(disk, c, from, to)| == to - from && Slice(disk, c, mid, to) == Slice(disk, c, from, to)[mid - from..]
  {
  }

  /** Dropping groups from the front drops their bytes from the front. */
  lemma {:induction false} DataDrop<B>(disk: Disk<B>, lo: nat, chunks: seq<nat>, layout: seq<seq<nat>>, c: nat, g: nat)
    requires Fits(disk, lo, chunks, layout) && c < |layout| && g <= |layout[c]|
    ensures var all := Data(disk, lo, chunks, layout);
            var rest := Data(disk, LoAt(c, lo) + Sum(layout[c][..g]), chunks[c..], [layout[c][g..]] + layout[c + 1..]);
            |rest| <= |all| && rest == all[|all| - |rest|..]
    decreases layout
  {
    hide Sum, Data, Slice;
    var more := Data(disk, 0, chunks[1..], layout[1..]);
    DataUnfold(disk, lo, chunks, layout);
    if c == 0 {
      var from, to := lo + Sum(layout[0][..g]), lo + Sum(layout[0]);
      SumSplit(layout[0], g);
      var m := [layout[0][g..]] + layout[1..];
      assert m[0] == layout[0][g..] && m[1..] == layout[1..] && chunks[0..] == chunks;
      DataUnfold(disk, from, chunks, m);
      assert LoAt(0, lo) + Sum(layout[0]) <= |disk[chunks[0]]|;
      SliceDrop(disk, chunks[0], lo, from, to);
    } else {
      FitsRest(disk, lo, chunks, layout);
      DataDrop(disk, 0, chunks[1..], layout[1..], c - 1, g);
      assert chunks[1..][c - 1..] == chunks[c..] && layout[1..][c - 1] == layout[c];
      assert layout[1..][c..] == layout[c + 1..];
    }
  }

  lemma {:induction false} DataOther<B>(disk: Disk<B>, k: nat, o: nat, bytes: seq<B>, lo: nat, chunks: seq<nat>,
                                        layout: seq<seq<nat>>)
    requires k in disk && o + |bytes| <= |disk[k]| && k !in chunks && |chunks| == |layout|
    ensures Data(WriteAt(disk, k, o, bytes), lo, chunks, layout) == Data(disk, lo, chunks, layout)
    decreases layout
  {
    hide Sum, Data, Slice, WriteAt;
    var disk' := WriteAt(disk, k, o, bytes);
    if layout == [] {
      DataNone(disk, lo, chunks, layout);
      DataNone(disk', lo, chunks, layout);
    } else {
      DataUnfold(disk, lo, chunks, layout);
      DataUnfold(disk', lo, chunks, layout);
      SliceOther(disk, k, o, bytes, chunks[0], lo, lo + Sum(layout[0]));
      DataOther(disk, k, o, bytes, 0, chunks[1..], layout[1..]);
    }
  }

  lemma SliceOver<B>(disk: Disk<B>, c: nat, o: nat, bytes: seq<B>, from: nat, to: nat)
    requires c in disk && from <= o && o + |bytes| <= to <= |disk[c]|
    ensures |Slice(disk, c, from, to)| == to - from
    ensures Slice(WriteAt(disk, c, o, bytes), c, from, to) == Splice(Slice(disk, c, from, to), o - from, bytes)
  {
  }

  lemma SpliceLeft<B>(a: seq<B>, b: seq<B>, n: nat, bytes: seq<B>)
    requires n + |bytes| <= |a|
    ensures Splice(a, n, bytes) + b == Splice(a + b, n, bytes)
  {
  }

  lemma SpliceRight<B>(a: seq<B>, b: seq<B>, n: nat, bytes: seq<B>)
    requires n + |bytes| <= |b|
    ensures a + Splice(b, n, bytes) == Splice(a + b, |a| + n, bytes)
  {
  }

  /** The live bytes before group `g` of chunk `c`. */
  ghost function Before(layout: seq<seq<nat>>, c: nat, g: nat): nat
    requires c < |layout| && g <= |layout[c]|
    decreases layout
  {
    if c == 0 then Sum(layout[0][..g]) else Sum(layout[0]) + Before(layout[1..], c - 1, g)
  }

  lemma {:induction false} BeforeIs(layout: seq<seq<nat>>, c: nat, g: nat)
    requires c < |layout| && g <= |layout[c]|
    ensures Before(layout, c, g) + Sum(Flat([layout[c][g..]] + layout[c + 1..])) == Sum(Flat(layout))
    decreases layout
  {
    hide Sum;
    SumSplit(Flat(layout), |layout[0]|);
    assert Flat(layout)[..|layout[0]|] == layout[0] && Flat(layout)[|layout[0]|..] == Flat(layout[1..]);
    if c == 0 {
      var m := [layout[0][g..]] + layout[1..];
      SumSplit(layout[0], g);
      assert m[0] == layout[0][g..] && m[1..] == layout[1..];
      SumSplit(Flat(m), |m[0]|);
      assert Flat(m)[..|m[0]|] == m[0] && Flat(m)[|m[0]|..] == Flat(m[1..]);
    } else {
      BeforeIs(layout[1..], c - 1, g);
      assert layout[1..][c - 1] == layout[c] && layout[1..][c..] == layout[c + 1..];
    }
  }

  lemma GroupEnds(sizes: seq<nat>, g: nat)
    requires g < |sizes|
    ensures Sum(sizes[..g]) + sizes[g] <= Sum(sizes)
  {
    SumSplit(sizes, g + 1);
    SumAppend(sizes[..g], sizes[g]);
    assert sizes[..g + 1] == sizes[..g] + [sizes[g]];
  }

  /** Writing group `g` of chunk `c` replaces its bytes and no others. */
  lemma {:induction false} DataWrite<B>(disk: Disk<B>, lo: nat, chunks: seq<nat>, layout: seq<seq<nat>>, c: nat, g: nat,
                                        bytes: seq<B>)
    requires Fits(disk, lo, chunks, layout) && forall i, j :: 0 <= i < j < |chunks| ==> chunks[i] != chunks[j]
    requires c < |layout| && g < |layout[c]| && |bytes| == layout[c][g]
    ensures LoAt(c, lo) + Sum(layout[c][..g]) + |bytes| <= |disk[chunks[c]]|
    ensures var all, n := Data(disk, lo, chunks, layout), Before(layout, c, g);
            && n + |bytes| <= |all|
            && Data(WriteAt(disk, chunks[c], LoAt(c, lo) + Sum(layout[c][..g]), bytes), lo, chunks, layout) ==
                 Splice(all, n, bytes)
    decreases layout
  {
    hide Sum, Data, Slice, WriteAt, Splice;
    GroupEnds(layout[c], g);
    assert LoAt(c, lo) + Sum(layout[c]) <= |disk[chunks[c]]|;
    var o := LoAt(c, lo) + Sum(layout[c][..g]);
    var disk' := WriteAt(disk, chunks[c], o, bytes);
    DataUnfold(disk, lo, chunks, layout);
    DataUnfold(disk', lo, chunks, layout);
    var first := Slice(disk, chunks[0], lo, lo + Sum(layout[0]));
    var more := Data(disk, 0, chunks[1..], layout[1..]);
    if c == 0 {
      SliceOver(disk, chunks[0], o, bytes, lo, lo + Sum(layout[0]));
      DataOther(disk, chunks[0], o, bytes, 0, chunks[1..], layout[1..]);
      SpliceLeft(first, more, o - lo, bytes);
    } else {
      FitsRest(disk, lo, chunks, layout);
      assert chunks[1..][c - 1] == chunks[c] && layout[1..][c - 1] == layout[c];
      DataWrite(disk, 0, chunks[1..], layout[1..], c - 1, g, bytes);
      SliceOther(disk, chunks[c], o, bytes, chunks[0], lo, lo + Sum(layout[0]));
      assert LoAt(0, lo) + Sum(layout[0]) <= |disk[chunks[0]]|;
      SliceDrop(disk, chunks[0], lo, lo, lo + Sum(layout[0]));
      SpliceRight(first, more, Before(layout[1..], c - 1, g), bytes);
    }
  }

  lemma ConcatAround<B>(parts: seq<seq<B>>, i: nat)
    requires i < |parts|
    ensures Concat(parts) == Concat(parts[..i]) + parts[i] + Concat(parts[i + 1..])
  {
    hide Concat;
    ConcatSplit(parts, i + 1);
    ConcatSplit(parts[..i + 1], i);
    assert parts[..i + 1][..i] == parts[..i] && parts[..i + 1][i..] == [parts[i]];
    ConcatOne(parts[i]);
  }

  lemma ConcatWrite<B>(parts: seq<seq<B>>, i: nat, bytes: seq<B>)
    requires i < |parts| && |bytes| == |parts[i]|
    ensures var n := Sum(Sizes(parts)[..i]);
            n + |bytes| <= |Concat(parts)| && Concat(parts[i := bytes]) == Splice(Concat(parts), n, bytes)
  {
    hide Concat, Sum;
    var m := parts[i := bytes];
    ConcatAround(parts, i);
    ConcatAround(m, i);
    assert m[..i] == parts[..i] && m[i + 1..] == parts[i + 1..];
    ConcatLength(parts[..i]);
    assert Sizes(parts)[..i] == Sizes(parts[..i]);
  }

  // ---------- the machine ----------

  /** Descriptor and device, and as history every group ever reserved: its offset, its bytes, which are
      those written to it or, before that, what the device holds there, and whether it was written.
      The first `gone` groups were truncated. */
  datatype State<B> =
    State(d: Descriptor, disk: Disk<B>, offs: seq<int>, parts: seq<seq<B>>, written: seq<bool>, gone: nat)

  datatype Step<B> = Reserve(size: nat, id: nat) | Write(i: nat, bytes: seq<B>) | TruncateTo(i: nat)

  ghost predicate Enabled<B>(s: State<B>, step: Step<B>) {
    && s.d.chunkSize > 0
    && match step
       case Reserve(size, id) => 0 < size < s.d.chunkSize && id != 0 && id in s.disk && id !in s.d.priv
       case Write(i, bytes) =>
         s.gone <= i < |s.parts| && i < |s.written| && !s.written[i] && |bytes| == |s.parts[i]|
       case TruncateTo(i) => s.d.chunks != [] && i <= |Live(s.d)|
  }

  /** pwrite at an offset of the window. */
  function PWrite<B>(d: Descriptor, disk: Disk<B>, off: int, bytes: seq<B>): Disk<B>
    requires d.chunkSize > 0
  {
    if off < Pos(d, 0) then disk
    else
      var (c, o) := ChunkOf(d, off);
      if c < |d.chunks| && d.chunks[c] in disk && o + |bytes| <= |disk[d.chunks[c]]| then
        WriteAt(disk, d.chunks[c], o, bytes)
      else disk
  }

  /** What the device holds at an offset of the window. */
  function PRead<B>(d: Descriptor, disk: Disk<B>, off: int, size: nat): seq<B>
    requires d.chunkSize > 0
  {
    if off < Pos(d, 0) then []
    else
      var (c, o) := ChunkOf(d, off);
      if c < |d.chunks| then Slice(disk, d.chunks[c], o, o + size) else []
  }

  /** Reserving space and writing it at once. */
  function AppendTo<B>(d: Descriptor, disk: Disk<B>, bytes: seq<B>, id: nat): (Descriptor, Disk<B>)
    requires Inv(d) && 0 < |bytes| < d.chunkSize && id != 0 && id !in d.priv
  {
    AppendTarget(d, |bytes|, id);
    var (off, e) := Alloc(d, |bytes|, id);
    (Consumed(e, |bytes|), PWrite(e, disk, off, bytes))
  }

  /** pwrite moves the bytes from reserved to written. */
  function Consumed(d: Descriptor, n: nat): Descriptor {
    d.(reserved := if n <= d.reserved then d.reserved - n else 0, writeSz := d.writeSz + n)
  }

  /** The offset a truncation names: a live group or the tail. */
  ghost function Target(d: Descriptor, i: nat): int
    requires d.chunkSize > 0 && i <= |Live(d)|
  {
    (Live(d) + [Tail(d)])[i]
  }

  ghost function Apply<B>(s: State<B>, step: Step<B>): State<B>
    requires Inv(s.d) && Enabled(s, step)
  {
    match step
    case Reserve(size, id) =>
      var (off, e) := Alloc(s.d, size, id);
      AppendTarget(s.d, size, id);
      s.(d := e, offs := s.offs + [off], parts := s.parts + [PRead(e, s.disk, off, size)],
         written := s.written + [false])
    case Write(i, bytes) =>
      if i >= |s.offs| then s
      else
        s.(d := Consumed(s.d, |bytes|), disk := PWrite(s.d, s.disk, s.offs[i], bytes), parts := s.parts[i := bytes],
           written := s.written[i := true])
    case TruncateTo(i) =>
      TargetInWindow(s.d, i);
      s.(d := Truncate(s.d, Target(s.d, i)), gone := s.gone + i)
  }

  lemma TargetInWindow(d: Descriptor, i: nat)
    requires Inv(d) && d.chunks != [] && i <= |Live(d)|
    ensures d.dataStart <= Target(d, i) < d.endOffset
  {
    hide Inv, Live, Truncate;
    WindowOf(d);
    if i < |Live(d)| {
      TruncateToGroup(d, i);
    } else {
      TruncateToTail(d);
    }
  }

  // ---------- the invariant of a run ----------

  ghost predicate DiskOk<B>(size: nat, chunks: seq<nat>, disk: Disk<B>) {
    && (forall c :: c in chunks ==> c in disk)
    && forall c :: c in disk ==> |disk[c]| == size
  }

  /** Every group appended so far lies in one chunk, and groups follow each other without overlap. */
  ghost predicate Ordered<B>(size: nat, offs: seq<int>, parts: seq<seq<B>>, tail: int) {
    && |offs| == |parts| && size > 0
    && (forall i :: 0 <= i < |offs| ==> 0 <= offs[i] && 0 < |parts[i]| && offs[i] + |parts[i]| <= tail)
    && (forall i :: 0 <= i < |offs| ==> 0 <= offs[i] && Mod(offs[i], size) + |parts[i]| < size)
    && (forall i, j :: 0 <= i < j < |offs| ==> offs[i] + |parts[i]| <= offs[j])
  }

  /** The live groups are the ones not truncated: same offsets, same sizes, same bytes. */
  ghost predicate Holds<B>(d: Descriptor, disk: Disk<B>, offs: seq<int>, parts: seq<seq<B>>)
    requires d.chunkSize > 0
  {
    && Live(d) == offs && Flat(d.layout) == Sizes(parts) && Data(disk, Lo(d, 0), d.chunks, d.layout) == Concat(parts)
  }

  /** The bytes of the groups that are not written yet. */
  ghost function Open<B>(parts: seq<seq<B>>, written: seq<bool>): nat
    requires |parts| == |written|
  {
    if parts == [] then 0
    else
      var n := |parts| - 1;
      Open(parts[..n], written[..n]) + if written[n] then 0 else |parts[n]|
  }

  lemma {:induction false} OpenWrite<B>(parts: seq<seq<B>>, written: seq<bool>, i: nat, bytes: seq<B>)
    requires |parts| == |written| && i < |parts| && !written[i] && |bytes| == |parts[i]|
    ensures Open(parts[i := bytes], written[i := true]) + |bytes| == Open(parts, written)
  {
    var n := |parts| - 1;
    var p, w := parts[i := bytes], written[i := true];
    if i == n {
      assert p[..n] == parts[..n] && w[..n] == written[..n];
    } else {
      assert p[..n] == parts[..n][i := bytes] && w[..n] == written[..n][i := true];
      OpenWrite(parts[..n], written[..n], i, bytes);
    }
  }

  ghost predicate RunInv<B>(s: State<B>) {
    && Inv(s.d) && DiskOk(s.d.chunkSize, s.d.chunks, s.disk)
    && |s.written| == |s.parts| && Open(s.parts, s.written) <= s.d.reserved
    && Ordered(s.d.chunkSize, s.offs, s.parts, Tail(s.d))
    && s.gone <= |s.offs| && Holds(s.d, s.disk, s.offs[s.gone..], s.parts[s.gone..])
  }

  // ---------- append ----------

  lemma {:induction false} PosOf(d: Descriptor, e: Descriptor)
    requires d.chunkSize > 0 && e.chunkSize == d.chunkSize && e.dataStart == d.dataStart
    ensures Pos(e, 0) == Pos(d, 0) && Lo(e, 0) == Lo(d, 0)
  {
    PosSame(d, e, 0);
  }

  /** Moving bytes from reserved to written changes nothing the invariant looks at. */
  lemma WrittenKeeps(d: Descriptor, e: Descriptor)
    requires Inv(d) && e == d.(reserved := e.reserved, writeSz := e.writeSz) && Tail(e) == Tail(d)
    ensures Inv(e) && Live(e) == Live(d)
  {
    hide Filled, ListOnDisk, Sum, RoundDown, Mod, Offsets;
    PosSame(d, e, 0);
    PosSame(d, e, |d.chunks|);
    if d.chunks != [] {
      PosSame(d, e, |d.chunks| - 1);
    }
  }

  lemma FitsOf<B>(d: Descriptor, disk: Disk<B>)
    requires Inv(d) && DiskOk(d.chunkSize, d.chunks, disk)
    ensures Fits(disk, Lo(d, 0), d.chunks, d.layout)
  {
    hide Filled, ListOnDisk, Sum, RoundDown, Mod;
    Extent(d);
  }

  /** Where the new group goes. */
  lemma AppendTarget(d: Descriptor, sz: nat, id: nat)
    requires Inv(d) && 0 < sz < d.chunkSize && id != 0 && id !in d.priv
    ensures var (off, e) := Alloc(d, sz, id);
            var n := |e.chunks| - 1;
            && Inv(e) && e.chunkSize == d.chunkSize && off >= Pos(e, 0) >= 0 && ChunkOf(e, off) == (n, off - Pos(e, n))
            && Mod(off, d.chunkSize) == off - Pos(e, n) && off - Pos(e, n) + sz < d.chunkSize
            && if d.chunks == [] || Tail(d) + sz >= d.endOffset then
                 e.chunks == d.chunks + [id] && e.layout == d.layout + [[sz]] && off == Pos(e, n)
                 && (d.chunks == [] ==> Lo(d, 0) == 0)
               else
                 && e.chunks == d.chunks && e.layout == d.layout[n := d.layout[n] + [sz]]
                 && off - Pos(e, n) == LoAt(n, Lo(d, 0)) + Sum(d.layout[n])
  {
    hide Filled, ListOnDisk, Sum, RoundDown, RoundUp, Quotient, Mod;
    AllocKeeps(d, sz, id);
    var (off, e) := Alloc(d, sz, id);
    var n := |e.chunks| - 1;
    PosMonotone(e, 0, n);
    ChunkOfAt(e, n, off - Pos(e, n));
    InChunk(e, n, off - Pos(e, n));
    PosAt(e, 0);
    PosSame(d, e, n);
    PosOf(d, e);
    if d.chunks == [] {
      AllocFirst(d, sz, id);
      StartInFirst(d);
    } else if Tail(d) + sz < d.endOffset {
      AllocFits(d, sz, id);
    } else {
      AllocGrows(d, sz, id);
    }
  }

  lemma AppendHolds<B>(d: Descriptor, disk: Disk<B>, bytes: seq<B>, id: nat, parts: seq<seq<B>>)
    requires Inv(d) && 0 < |bytes| < d.chunkSize && id != 0 && id !in d.priv && id in disk
    requires DiskOk(d.chunkSize, d.chunks, disk) && Holds(d, disk, Live(d), parts)
    ensures var (e, disk') := AppendTo(d, disk, bytes, id);
            && Inv(e) && e.chunkSize == d.chunkSize && DiskOk(e.chunkSize, e.chunks, disk')
            && Holds(e, disk', Live(d) + [Alloc(d, |bytes|, id).0], parts + [bytes])
  {
    hide Inv, Filled, ListOnDisk, Sum, RoundDown, RoundUp, Quotient, Mod, Data, Offsets, Flat, WriteAt, Alloc;
    OwnedOf(d);
    var (off, a) := Alloc(d, |bytes|, id);
    AppendTarget(d, |bytes|, id);
    AllocAppends(d, |bytes|, id);
    AllocKeeps(d, |bytes|, id);
    FitsOf(d, disk);
    var n := |a.chunks| - 1;
    assert a.chunks[n] in disk;
    if d.chunks == [] || Tail(d) + |bytes| >= d.endOffset {
      DataGrow(disk, Lo(d, 0), d.chunks, d.layout, id, bytes);
    } else {
      DataFit(disk, Lo(d, 0), d.chunks, d.layout, bytes);
    }
    PosOf(d, a);
    ReservedMore(d, |bytes|, id);
    var e := Consumed(a, |bytes|);
    WrittenKeeps(a, e);
    PosOf(a, e);
    assert Sizes(parts + [bytes]) == Sizes(parts) + [|bytes|];
    assert (parts + [bytes])[..|parts|] == parts;
    WriteSizes(disk, a.chunks[n], off - Pos(a, n), bytes);
  }

  lemma OwnedOf(d: Descriptor)
    requires Inv(d)
    ensures d.chunkSize > 0 && Owned(d.chunks, d.priv) && Tail(d) >= 0
  {
  }

  lemma WriteSizes<B>(disk: Disk<B>, c: nat, o: nat, bytes: seq<B>)
    requires c in disk && o + |bytes| <= |disk[c]|
    ensures var disk' := WriteAt(disk, c, o, bytes);
            disk'.Keys == disk.Keys && forall k :: k in disk ==> |disk'[k]| == |disk[k]|
  {
  }

  lemma AppendOrdered<B>(d: Descriptor, offs: seq<int>, parts: seq<seq<B>>, bytes: seq<B>, id: nat)
    requires Inv(d) && 0 < |bytes| < d.chunkSize && id != 0 && id !in d.priv
    requires Ordered(d.chunkSize, offs, parts, Tail(d))
    ensures var (off, e) := Alloc(d, |bytes|, id);
            Ordered(d.chunkSize, offs + [off], parts + [bytes], Tail(e))
  {
    hide Inv, RoundDown, RoundUp, Quotient, Mod, Alloc;
    OwnedOf(d);
    AppendTarget(d, |bytes|, id);
    AllocKeeps(d, |bytes|, id);
  }

  lemma SameBytes<B>(disk: Disk<B>, c: nat, o: nat, n: nat)
    requires c in disk && o + n <= |disk[c]|
    ensures |Slice(disk, c, o, o + n)| == n && WriteAt(disk, c, o, Slice(disk, c, o, o + n)) == disk
  {
    assert disk[c][..o] + disk[c][o..o + n] + disk[c][o + n..] == disk[c];
  }

  /** Reserving a group adds what the device holds there. */
  lemma ReserveHolds<B>(d: Descriptor, disk: Disk<B>, size: nat, id: nat, parts: seq<seq<B>>)
    requires Inv(d) && 0 < size < d.chunkSize && id != 0 && id !in d.priv && id in disk
    requires DiskOk(d.chunkSize, d.chunks, disk) && Holds(d, disk, Live(d), parts)
    ensures var (off, e) := Alloc(d, size, id);
            && Inv(e) && e.chunkSize == d.chunkSize && DiskOk(e.chunkSize, e.chunks, disk)
            && var bytes := PRead(e, disk, off, size);
            && |bytes| == size && Holds(e, disk, Live(d) + [off], parts + [bytes])
  {
    hide Inv, Filled, ListOnDisk, Sum, RoundDown, RoundUp, Quotient, Mod, Data, Offsets, Flat, WriteAt, Alloc, Slice;
    OwnedOf(d);
    var (off, e) := Alloc(d, size, id);
    AppendTarget(d, size, id);
    var n := |e.chunks| - 1;
    assert e.chunks[n] in disk;
    SameBytes(disk, e.chunks[n], off - Pos(e, n), size);
    var bytes := PRead(e, disk, off, size);
    assert |bytes| == size;
    AppendHolds(d, disk, bytes, id, parts);
    ReservedMore(d, size, id);
    Unconsumed(e, size);
  }

  lemma Unconsumed(e: Descriptor, size: nat)
    requires Inv(Consumed(e, size)) && size <= e.reserved
    ensures Inv(e) && Live(e) == Live(Consumed(e, size)) && Lo(e, 0) == Lo(Consumed(e, size), 0)
  {
    hide Filled, ListOnDisk, Sum, RoundDown, Mod, Offsets;
    WrittenKeeps(Consumed(e, size), e);
    PosOf(Consumed(e, size), e);
  }

  lemma ReservedMore(d: Descriptor, size: nat, id: nat)
    requires Inv(d)
    ensures Alloc(d, size, id).1.reserved == d.reserved + size
  {
  }

  lemma ReserveKeeps<B>(s: State<B>, size: nat, id: nat)
    requires RunInv(s) && Enabled(s, Reserve(size, id))
    ensures RunInv(Apply(s, Reserve(size, id)))
  {
    hide Inv, Ordered, RoundDown, RoundUp, Quotient, Mod, Alloc, Data, Live, Flat, DiskOk, PRead;
    OwnedOf(s.d);
    CountsMatch(s);
    var (off, e) := Alloc(s.d, size, id);
    ReserveHolds(s.d, s.disk, size, id, s.parts[s.gone..]);
    var bytes := PRead(e, s.disk, off, size);
    AppendOrdered(s.d, s.offs, s.parts, bytes, id);
    ReservedMore(s.d, size, id);
    assert (s.offs + [off])[s.gone..] == s.offs[s.gone..] + [off];
    assert (s.parts + [bytes])[s.gone..] == s.parts[s.gone..] + [bytes];
    assert (s.parts + [bytes])[..|s.parts|] == s.parts && (s.written + [false])[..|s.parts|] == s.written;
  }

  // ---------- write ----------

  /** Where live group `i` lies on the device. */
  lemma GroupOnDisk<B>(d: Descriptor, i: nat, parts: seq<seq<B>>) returns (c: nat, g: nat)
    requires Inv(d) && i < |parts| && Flat(d.layout) == Sizes(parts)
    ensures i < |Live(d)| && c < |d.layout| == |d.chunks| && g < |d.layout[c]| && |parts[i]| == d.layout[c][g]
    ensures Before(d.layout, c, g) == Sum(Sizes(parts)[..i])
    ensures d.chunkSize > 0 && Live(d)[i] >= Pos(d, 0)
    ensures ChunkOf(d, Live(d)[i]) == (c, LoAt(c, Lo(d, 0)) + Sum(d.layout[c][..g]))
  {
    hide Inv, Filled, ListOnDisk, Sum, RoundDown, RoundUp, Quotient, Mod, Offsets, Flat, Before;
    WindowOf(d);
    SameCount(d.chunkSize, Pos(d, 0), Lo(d, 0), d.layout);
    c, g := LiveGroupAt(d, i);
    var rest := [d.layout[c][g..]] + d.layout[c + 1..];
    FlatFirst(rest, Flat(d.layout), i);
    GroupBounds(d, c, g);
    PosMonotone(d, 0, c);
    ChunkOfAt(d, c, Lo(d, c) + Sum(d.layout[c][..g]));
    BeforeIs(d.layout, c, g);
    SumSplit(Flat(d.layout), i);
  }

  /** Writing a reserved group puts its bytes on the device and leaves the other groups alone. */
  lemma WriteHolds<B>(d: Descriptor, disk: Disk<B>, offs: seq<int>, parts: seq<seq<B>>, i: nat, bytes: seq<B>)
    requires Inv(d) && DiskOk(d.chunkSize, d.chunks, disk) && Holds(d, disk, offs, parts)
    requires i < |parts| && |bytes| == |parts[i]|
    ensures i < |offs| && DiskOk(d.chunkSize, d.chunks, PWrite(d, disk, offs[i], bytes))
    ensures Holds(d, PWrite(d, disk, offs[i], bytes), offs, parts[i := bytes])
  {
    hide Inv, Sum, RoundDown, Quotient, Mod, Data, Live, Flat, WriteAt, Splice, Concat, Before, ChunkOf;
    OwnedOf(d);
    var c, g := GroupOnDisk(d, i, parts);
    FitsOf(d, disk);
    DataWrite(disk, Lo(d, 0), d.chunks, d.layout, c, g, bytes);
    ConcatWrite(parts, i, bytes);
    WriteSizes(disk, d.chunks[c], LoAt(c, Lo(d, 0)) + Sum(d.layout[c][..g]), bytes);
    assert Sizes(parts[i := bytes]) == Sizes(parts);
  }

  lemma FlatFirst(rest: seq<seq<nat>>, flat: seq<nat>, i: nat)
    requires rest != [] && rest[0] != [] && i < |flat| && Flat(rest) == flat[i..]
    ensures rest[0][0] == flat[i]
  {
    assert Flat(rest)[0] == rest[0][0];
  }

  lemma OrderedWrite<B>(size: nat, offs: seq<int>, parts: seq<seq<B>>, tail: int, i: nat, bytes: seq<B>)
    requires Ordered(size, offs, parts, tail) && i < |parts| && |bytes| == |parts[i]|
    ensures Ordered(size, offs, parts[i := bytes], tail)
  {
    var m := parts[i := bytes];
    assert forall k :: 0 <= k < |parts| ==> |m[k]| == |parts[k]|;
  }

  /** The assertion of pwrite, that the size does not exceed what is reserved, holds for every write. */
  lemma WriteKeeps<B>(s: State<B>, i: nat, bytes: seq<B>)
    requires RunInv(s) && Enabled(s, Write(i, bytes))
    ensures i < |s.offs| && |bytes| <= s.d.reserved && RunInv(Apply(s, Write(i, bytes)))
  {
    hide Inv, Ordered, RoundDown, RoundUp, Quotient, Mod, Data, Offsets, Flat, DiskOk, PWrite, Concat;
    CountsMatch(s);
    OwnedOf(s.d);
    OpenWrite(s.parts, s.written, i, bytes);
    var offs, parts, k := s.offs[s.gone..], s.parts[s.gone..], i - s.gone;
    WriteHolds(s.d, s.disk, offs, parts, k, bytes);
    assert s.parts[i := bytes][s.gone..] == parts[k := bytes];
    OrderedWrite(s.d.chunkSize, s.offs, s.parts, Tail(s.d), i, bytes);
    var e := Consumed(s.d, |bytes|);
    WrittenKeeps(s.d, e);
    PosOf(s.d, e);
  }

  lemma CountsMatch<B>(s: State<B>)
    requires RunInv(s)
    ensures |s.offs| == |s.parts|
  {
  }

  // ---------- truncate ----------

  lemma OrderedLater<B>(size: nat, offs: seq<int>, parts: seq<seq<B>>, tail: int, tail': int)
    requires Ordered(size, offs, parts, tail) && tail <= tail'
    ensures Ordered(size, offs, parts, tail')
  {
  }

  lemma DropParts<B>(parts: seq<seq<B>>, i: nat, data: seq<B>)
    requires i <= |parts| && |data| == Sum(Sizes(parts)[i..]) && |data| <= |Concat(parts)|
    requires data == Concat(parts)[|Concat(parts)| - |data|..]
    ensures data == Concat(parts[i..]) && Sizes(parts[i..]) == Sizes(parts)[i..]
  {
    ConcatSplit(parts, i);
    assert Sizes(parts[i..]) == Sizes(parts)[i..];
    ConcatLength(parts[i..]);
  }

  lemma TruncateHolds<B>(d: Descriptor, disk: Disk<B>, offs: seq<int>, parts: seq<seq<B>>, i: nat)
    requires Inv(d) && DiskOk(d.chunkSize, d.chunks, disk) && Holds(d, disk, offs, parts) && i < |offs|
    ensures d.chunks != [] && d.dataStart <= offs[i] < d.endOffset && |parts| == |offs|
    ensures var e := Truncate(d, offs[i]);
            && Inv(e) && e.chunkSize == d.chunkSize && Tail(e) == Tail(d) && DiskOk(e.chunkSize, e.chunks, disk)
            && Holds(e, disk, offs[i..], parts[i..])
  {
    hide Inv, Sum, RoundDown, RoundUp, Mod, Quotient, Offsets, Flat, Truncate, Cut, InHole, DropBytes, Data, Concat,
         Released, Sweep;
    TruncateToGroup(d, i);
    var c, g := TruncatesAtGroup(d, i);
    var e := Truncate(d, offs[i]);
    FitsOf(d, disk);
    FitsOf(e, disk);
    DataDrop(disk, Lo(d, 0), d.chunks, d.layout, c, g);
    DataLength(disk, Lo(e, 0), e.chunks, e.layout);
    DropParts(parts, i, Data(disk, Lo(e, 0), e.chunks, e.layout));
  }

  lemma TruncateKeeps<B>(s: State<B>, i: nat)
    requires RunInv(s) && Enabled(s, TruncateTo(i))
    ensures RunInv(Apply(s, TruncateTo(i)))
  {
    hide Inv, Ordered, RoundDown, RoundUp, Quotient, Mod, Data, Live, Flat, Truncate, Concat;
    CountsMatch(s);
    WindowOf(s.d);
    TargetInWindow(s.d, i);
    var offs, parts := s.offs[s.gone..], s.parts[s.gone..];
    var e := Truncate(s.d, Target(s.d, i));
    TruncatedIs(s.d, Target(s.d, i));
    if i < |offs| {
      TruncateHolds(s.d, s.disk, offs, parts, i);
      assert offs[i..] == s.offs[s.gone + i..] && parts[i..] == s.parts[s.gone + i..];
    } else {
      TruncateToTail(s.d);
      OrderedLater(s.d.chunkSize, s.offs, s.parts, Tail(s.d), Tail(e));
      NoParts(s.disk, Lo(e, 0), e.chunks, e.layout, s.parts);
    }
  }

  lemma NoParts<B>(disk: Disk<B>, lo: nat, chunks: seq<nat>, layout: seq<seq<nat>>, parts: seq<seq<B>>)
    requires chunks == []
    ensures Data(disk, lo, chunks, layout) == Concat(parts[|parts|..]) == [] && Sizes(parts[|parts|..]) == []
  {
  }

  // ---------- runs ----------

  /** A disabled step does nothing. */
  ghost function Advance<B>(s: State<B>, step: Step<B>): State<B> {
    if Inv(s.d) && Enabled(s, step) then Apply(s, step) else s
  }

  ghost function Exec<B>(s: State<B>, steps: seq<Step<B>>): State<B> {
    if steps == [] then s else Advance(Exec(s, steps[..|steps| - 1]), steps[|steps| - 1])
  }

  /** A journal without chunks that starts at a chunk boundary. */
  ghost predicate Initial<B>(s: State<B>) {
    && s.d.chunkSize > 0 && s.d.chunks == [] && s.d.priv == map[] && s.d.layout == []
    && s.d.dataStart == s.d.endOffset == Tail(s.d) && s.d.totalSize == 0 && Lo(s.d, 0) == 0
    && (forall c :: c in s.disk ==> |s.disk[c]| == s.d.chunkSize)
    && s.offs == [] && s.parts == [] && s.written == [] && s.gone == 0
  }

  lemma StepKeeps<B>(s: State<B>, step: Step<B>)
    requires RunInv(s)
    ensures RunInv(Advance(s, step))
  {
    hide RunInv, Inv, Enabled, Apply;
    if Inv(s.d) && Enabled(s, step) {
      match step
      case Reserve(size, id) => ReserveKeeps(s, size, id);
      case Write(i, bytes) => WriteKeeps(s, i, bytes);
      case TruncateTo(i) => TruncateKeeps(s, i);
    }
  }

  lemma {:induction false} RunKeeps<B>(s: State<B>, steps: seq<Step<B>>)
    requires Initial(s)
    ensures RunInv(Exec(s, steps))
  {
    if steps == [] {
      EmptyInv(s.d);
      NoParts(s.disk, Lo(s.d, 0), s.d.chunks, s.d.layout, s.parts);
    } else {
      hide RunInv, Initial, Advance;
      RunKeeps(s, steps[..|steps| - 1]);
      StepKeeps(Exec(s, steps[..|steps| - 1]), steps[|steps| - 1]);
    }
  }

  lemma WrittenStays<B>(s: State<B>, step: Step<B>, i: nat)
    requires i < |s.written| == |s.parts| && s.written[i]
    ensures var t := Advance(s, step); i < |t.written| == |t.parts| && t.written[i] && t.parts[i] == s.parts[i]
  {
    hide Inv, Alloc, Truncate, PRead, PWrite;
  }

  /** What is written to a group stays its contents for the rest of the run. */
  lemma {:induction false} WrittenOnce<B>(s: State<B>, steps: seq<Step<B>>, i: nat)
    requires i < |s.written| == |s.parts| && s.written[i]
    ensures var t := Exec(s, steps); i < |t.written| == |t.parts| && t.written[i] && t.parts[i] == s.parts[i]
  {
    hide Advance;
    if steps != [] {
      WrittenOnce(s, steps[..|steps| - 1], i);
      WrittenStays(Exec(s, steps[..|steps| - 1]), steps[|steps| - 1], i);
    }
  }
}
