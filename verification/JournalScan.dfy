/**
 Reading the journal in sequence. sync_next_read never returns bytes of a hole and never skips bytes of
 a group when it starts at the data start; started at the very end of a chunk's data it does skip.
 */
module JournalScan {

  import opened Arithmetic
  import opened Bytes
  import opened Journal
  import opened JournalRead
  import opened JournalTruncate
  import opened JournalRun

  // ---------- sequential reads ----------

  /** Everything between data start and end mark, from chunk `i` on. */
  function Readable<B>(d: Descriptor, disk: Disk<B>, i: nat): seq<B>
    requires d.chunkSize > 0 && i <= |d.chunks| && forall j :: i <= j < |d.chunks| ==> d.chunks[j] in d.priv
    decreases |d.chunks| - i
  {
    if i == |d.chunks| then []
    else Slice(disk, d.chunks[i], Lo(d, i), EndOfChunk(d, i)) + Readable(d, disk, i + 1)
  }

  /** sync_next_read at a cursor inside the window and not beyond the end mark of its chunk: the bytes
      read and the new cursor. */
  function NextRead<B>(d: Descriptor, disk: Disk<B>, seek: int, size: nat): (seq<B>, int)
    requires Inv(d) && d.chunks != [] && d.dataStart <= seek < d.endOffset && !InHole(d, seek)
  {
    StartInFirst(d);
    ChunkIn(d, seek);
    var (c, o) := ChunkOf(d, seek);
    var end := EndOfChunk(d, c);
    if size < end - o then (Slice(disk, d.chunks[c], o, o + size), seek + size)
    else
      var cursor := if end == o then seek + (d.chunkSize - end) else seek;
      (Slice(disk, d.chunks[c], o, end), cursor + (end - o) + (d.chunkSize - end))
  }

  ghost predicate Ready<B>(d: Descriptor, disk: Disk<B>) {
    && Inv(d) && DiskOk(d.chunkSize, d.chunks, disk)
    && (forall j :: 0 <= j < |d.chunks| ==>
          && d.chunks[j] in d.priv && d.chunks[j] in disk
          && Lo(d, j) < EndOfChunk(d, j) <= d.chunkSize == |disk[d.chunks[j]]|)
  }

  lemma ReadyOf<B>(d: Descriptor, disk: Disk<B>)
    requires Inv(d) && DiskOk(d.chunkSize, d.chunks, disk)
    ensures Ready(d, disk)
  {
    hide Sum, Filled, ListOnDisk, RoundDown, Mod;
    Extent(d);
    forall j | 0 <= j < |d.chunks|
      ensures Lo(d, j) < EndOfChunk(d, j)
    {
      SumPositive(d.layout[j]);
    }
  }

  lemma SliceTail<B>(disk: Disk<B>, c: nat, from: nat, to: nat, n: nat, rest: seq<B>)
    requires c in disk && from + n <= to <= |disk[c]|
    ensures (Slice(disk, c, from, to) + rest)[n..to - from] == disk[c][from + n..to]
  {
  }

  lemma DropConcat<B>(a: seq<B>, b: seq<B>, n: nat, m: nat)
    requires |a| <= n <= m <= |a| + |b|
    ensures (a + b)[n..m] == b[n - |a|..m - |a|]
  {
  }

  /** Byte `n` of what can be read from chunk `i` on lies in some chunk `c` at offset `o`; so do the
      bytes after it up to the end mark, and then comes the next chunk. */
  lemma {:induction false} ByteAt<B>(d: Descriptor, disk: Disk<B>, i: nat, n: nat, m: nat) returns (c: nat, o: nat)
    requires Ready(d, disk) && d.chunkSize > 0 && i <= |d.chunks| && n < |Readable(d, disk, i)|
    ensures i <= c < |d.chunks| && Lo(d, c) <= o < EndOfChunk(d, c) && DevFrom(d, i, n) == Pos(d, c) + o
    ensures var all, left := Readable(d, disk, i), EndOfChunk(d, c) - o;
            && n + left <= |all| && all[n..n + left] == disk[d.chunks[c]][o..o + left]
            && (m < left ==> DevFrom(d, i, n + m) == Pos(d, c) + o + m)
            && (m == left ==> DevFrom(d, i, n + m) == Pos(d, c + 1))
    decreases |d.chunks| - i
  {
    hide Inv, RoundDown, Mod, Slice, DiskOk;
    SliceLength(d, disk, i);
    var here := EndOfChunk(d, i) - Lo(d, i);
    var part, rest := Slice(disk, d.chunks[i], Lo(d, i), EndOfChunk(d, i)), Readable(d, disk, i + 1);
    if n < here {
      c, o := i, Lo(d, i) + n;
      SliceTail(disk, d.chunks[i], Lo(d, i), EndOfChunk(d, i), n, rest);
      AfterChunk(d, disk, i);
    } else {
      c, o := ByteAt(d, disk, i + 1, n - here, m);
      DropConcat(part, rest, n, n + EndOfChunk(d, c) - o);
    }
  }

  lemma SliceLength<B>(d: Descriptor, disk: Disk<B>, i: nat)
    requires Ready(d, disk) && d.chunkSize > 0 && i < |d.chunks|
    ensures |Slice(disk, d.chunks[i], Lo(d, i), EndOfChunk(d, i))| == EndOfChunk(d, i) - Lo(d, i)
  {
    hide Inv, RoundDown, Mod;
  }

  lemma AfterChunk<B>(d: Descriptor, disk: Disk<B>, i: nat)
    requires Ready(d, disk) && d.chunkSize > 0 && i < |d.chunks|
    ensures DevFrom(d, i, EndOfChunk(d, i) - Lo(d, i)) == Pos(d, i + 1)
  {
    hide Inv, RoundDown, Mod;
  }

  lemma {:induction false} AllRead<B>(d: Descriptor, disk: Disk<B>, i: nat)
    requires Ready(d, disk) && d.chunkSize > 0 && i <= |d.chunks|
    ensures DevFrom(d, i, |Readable(d, disk, i)|) == Pos(d, |d.chunks|)
    decreases |d.chunks| - i
  {
    hide Inv, RoundDown, Mod, Slice;
    if i < |d.chunks| {
      SliceLength(d, disk, i);
      AllRead(d, disk, i + 1);
    }
  }

  /** One read: with the cursor where the reader's byte count puts it, the bytes are the next ones
      and the cursor is again where the new count puts it. A read of size > 0 makes progress. */
  lemma ReadStep<B>(d: Descriptor, disk: Disk<B>, n: nat, size: nat)
    requires Ready(d, disk) && d.chunks != [] && n < |Readable(d, disk, 0)|
    ensures d.dataStart <= DevFrom(d, 0, n) < d.endOffset && !InHole(d, DevFrom(d, 0, n))
    ensures var (bytes, seek) := NextRead(d, disk, DevFrom(d, 0, n), size);
            && n + |bytes| <= |Readable(d, disk, 0)| && bytes == Readable(d, disk, 0)[n..n + |bytes|]
            && |bytes| <= size && (size > 0 ==> |bytes| > 0) && seek == DevFrom(d, 0, n + |bytes|)
  {
    hide Inv, RoundDown, Mod, Quotient, DiskOk, Readable, DevFrom;
    WindowOf(d);
    var all := Readable(d, disk, 0);
    var c, o := ByteAt(d, disk, 0, n, size);
    var left := EndOfChunk(d, c) - o;
    var c', o' := ByteAt(d, disk, 0, n, left);
    Apart(d, c, o, c', o');
    InWindow(d, c, o);
    ChunkOfAt(d, c, o);
    if size < left {
      assert all[n..n + size] == all[n..n + left][..size];
    }
  }

  lemma Apart(d: Descriptor, c: nat, o: nat, c': nat, o': nat)
    requires d.chunkSize > 0 && o < d.chunkSize && o' < d.chunkSize && Pos(d, c) + o == Pos(d, c') + o'
    ensures c == c' && o == o'
  {
    ChunkOfAt(d, c, o);
    ChunkOfAt(d, c', o');
  }

  lemma InWindow(d: Descriptor, c: nat, o: nat)
    requires Inv(d) && c < |d.chunks| && Lo(d, c) <= o < d.chunkSize
    ensures d.dataStart <= Pos(d, c) + o < d.endOffset
  {
    hide Filled, ListOnDisk, Sum, RoundDown, Mod;
    StartInFirst(d);
    PosMonotone(d, 0, c);
    PosMonotone(d, c, |d.chunks|);
  }

  /** The bytes of a sequence of reads from cursor `seek`, until the end of the window. */
  ghost function Reads<B>(d: Descriptor, disk: Disk<B>, seek: int, sizes: seq<nat>): (seq<B>, int)
    requires Inv(d)
  {
    if sizes == [] then ([], seek)
    else
      var (before, at) := Reads(d, disk, seek, sizes[..|sizes| - 1]);
      if d.chunks != [] && d.dataStart <= at < d.endOffset && !InHole(d, at) then
        var (bytes, to) := NextRead(d, disk, at, sizes[|sizes| - 1]);
        (before + bytes, to)
      else (before, at)
  }

  /** Sequential reads from the data start, of any sizes, return what can be read, in order and
      without gaps; the cursor is always where dev_offset puts the count of bytes read so far. */
  lemma {:induction false} ReadsInOrder<B>(d: Descriptor, disk: Disk<B>, sizes: seq<nat>)
    requires Ready(d, disk) && d.chunks != []
    ensures var (bytes, seek) := Reads(d, disk, d.dataStart, sizes);
            && |bytes| <= |Readable(d, disk, 0)| && bytes == Readable(d, disk, 0)[..|bytes|]
            && seek == DevOffset(d, |bytes|)
            && ((forall k :: 0 <= k < |sizes| ==> sizes[k] > 0) ==> |bytes| >= |sizes| || bytes == Readable(d, disk, 0))
  {
    hide Inv, RoundDown, Mod, Quotient, DiskOk, Readable, DevFrom, NextRead, InHole;
    WindowOf(d);
    StartInFirst(d);
    var all := Readable(d, disk, 0);
    DevZero(d, disk);
    AllRead(d, disk, 0);
    if sizes != [] {
      var n := |sizes| - 1;
      ReadsInOrder(d, disk, sizes[..n]);
      var k := |Reads(d, disk, d.dataStart, sizes[..n]).0|;
      if k < |all| {
        ReadStep(d, disk, k, sizes[n]);
        var m := |NextRead(d, disk, DevFrom(d, 0, k), sizes[n]).0|;
        assert all[..k] + all[k..k + m] == all[..k + m];
      } else {
        assert all[..k] == all;
      }
    }
  }

  lemma DevZero<B>(d: Descriptor, disk: Disk<B>)
    requires Ready(d, disk) && d.chunks != []
    ensures DevFrom(d, 0, 0) == d.dataStart
  {
    hide Inv, RoundDown, Mod;
    WindowOf(d);
    StartInFirst(d);
    assert Lo(d, 0) < EndOfChunk(d, 0);
  }

  // ---------- what was written is what is read ----------

  lemma SlicePrefix<B>(disk: Disk<B>, c: nat, from: nat, mid: nat, to: nat)
    requires c in disk && from <= mid <= to <= |disk[c]|
    ensures Slice(disk, c, from, mid) <= Slice(disk, c, from, to)
  {
  }

  lemma {:induction false} DataPrefix<B>(d: Descriptor, disk: Disk<B>, i: nat)
    requires Ready(d, disk) && d.chunkSize > 0 && |d.layout| == |d.chunks| && i <= |d.chunks|
    ensures Data(disk, Lo(d, i), d.chunks[i..], d.layout[i..]) <= Readable(d, disk, i)
    decreases |d.chunks| - i
  {
    hide Inv, RoundDown, Mod, Slice, Data, DiskOk;
    var chunks, layout := d.chunks[i..], d.layout[i..];
    if i == |d.chunks| {
      DataNone(disk, Lo(d, i), chunks, layout);
    } else {
      Extent(d);
      DataUnfold(disk, Lo(d, i), chunks, layout);
      assert chunks[0] == d.chunks[i] && layout[0] == d.layout[i] && chunks[1..] == d.chunks[i + 1..];
      assert layout[1..] == d.layout[i + 1..];
      DataPrefix(d, disk, i + 1);
      SlicePrefix(disk, d.chunks[i], Lo(d, i), Lo(d, i) + Sum(d.layout[i]), EndOfChunk(d, i));
      if i == |d.chunks| - 1 {
        DataNone(disk, 0, chunks[1..], layout[1..]);
      }
    }
  }

  lemma PrefixOfBoth<B>(a: seq<B>, b: seq<B>, all: seq<B>)
    requires a <= all && b <= all
    ensures a <= b || b <= a
  {
  }

  /** After every run of appends and truncations, reading from the data start with any read sizes
      returns the bytes of the live groups in the order they were appended: a prefix of them, or all
      of them and then what else the last chunk holds. */
  lemma ReadsReturnWritten<B>(s: State<B>, steps: seq<Step<B>>, sizes: seq<nat>)
    requires Initial(s)
    ensures var e := Exec(s, steps);
            && RunInv(e) && e.gone <= |e.parts|
            && (e.d.chunks != [] ==>
                  var bytes, live := Reads(e.d, e.disk, e.d.dataStart, sizes).0, Concat(e.parts[e.gone..]);
                  bytes <= live || live <= bytes)
  {
    hide Initial, Exec, Inv, RoundDown, Mod, Quotient, Reads, Readable, Data, Concat, DevFrom, Live, Flat, Ready,
         DiskOk;
    RunKeeps(s, steps);
    var e := Exec(s, steps);
    CountsMatch(e);
    if e.d.chunks != [] {
      WindowOf(e.d);
      ReadyOf(e.d, e.disk);
      AllPrivate(e.d, e.disk);
      ReadsInOrder(e.d, e.disk, sizes);
      DataPrefix(e.d, e.disk, 0);
      assert e.d.chunks[0..] == e.d.chunks && e.d.layout[0..] == e.d.layout;
      PrefixOfBoth(Reads(e.d, e.disk, e.d.dataStart, sizes).0, Concat(e.parts[e.gone..]), Readable(e.d, e.disk, 0));
    }
  }

  lemma AllPrivate<B>(d: Descriptor, disk: Disk<B>)
    requires Ready(d, disk)
    ensures d.chunkSize > 0 && forall j :: 0 <= j < |d.chunks| ==> d.chunks[j] in d.priv
  {
  }

  /** A cursor exactly at the end of a chunk's data crosses the hole twice: a read from a cursor that
      is not inside a hole stays clear of the next chunk's bytes exactly when it is before the end
      mark of its chunk. */
  lemma HoleCrossedTwice<B>(d: Descriptor, disk: Disk<B>, x: int, c: nat, o: nat, size: nat)
    requires Inv(d) && d.chunks != [] && d.dataStart <= x < d.endOffset && !InHole(d, x)
    requires c < |d.chunks| && d.chunks[c] in d.priv && o < d.chunkSize && x == Pos(d, c) + o
    ensures var (bytes, to) := NextRead(d, disk, x, size);
            && (to <= Pos(d, c + 1) <==> o < EndOfChunk(d, c))
            && (o == EndOfChunk(d, c) ==> bytes == [] && to == Pos(d, c + 1) + (d.chunkSize - EndOfChunk(d, c)))
  {
    hide Inv, RoundDown, Mod, Quotient;
    WindowOf(d);
    Extent(d);
    ChunkOfAt(d, c, o);
  }

  // ---------- a run with a hole ----------

  /** Chunks of eight bytes: a group of three, then one of six that does not fit behind it. */
  ghost function Empty(): State<int> {
    State(Descriptor(8, 0, 0, 0, [], map[], 0, 0, []), map[1 := Blank(), 2 := Blank()], [], [], [], 0)
  }

  ghost function Blank(): (r: seq<int>)
    ensures |r| == 8
  {
    seq(8, _ => 0)
  }

  ghost function TwoGroups(): seq<Step<int>> {
    [Reserve(3, 1), Reserve(6, 2)]
  }

  /** What they leave: data up to byte 3 of the first chunk, a hole up to byte 8. */
  ghost function Holed(): Descriptor {
    Descriptor(8, 0, 5, 9, [1, 2], map[1 := Private(true, 3, 2), 2 := Private(false, 8, 0)], 16, 16, [[3], [6]])
  }

  lemma EmptyIs()
    ensures Initial(Empty())
  {
    hide Blank;
    assert Mod(0, 8) == 0;
    assert Lo(Empty().d, 0) == 0;
  }

  lemma FirstGroup(d: Descriptor)
    requires d == Empty().d
    ensures Alloc(d, 3, 1).1 == Descriptor(8, 0, 0, 3, [1], map[1 := Private(true, 8, 0)], 8, 8, [[3]])
  {
    assert d.layout + [[3]] == [[3]];
  }

  lemma SecondGroup(d: Descriptor)
    requires d == Descriptor(8, 0, 0, 3, [1], map[1 := Private(true, 8, 0)], 8, 8, [[3]])
    ensures Alloc(d, 6, 2).1 == Holed()
  {
    assert Mod(3, 8) == 3;
  }

  lemma Reserved(s: State<int>, size: nat, id: nat)
    requires Inv(s.d) && Enabled(s, Reserve(size, id))
    ensures var t := Advance(s, Reserve(size, id)); t.d == Alloc(s.d, size, id).1 && t.disk == s.disk
  {
    hide Alloc, PRead, Window, Filled, ListOnDisk;
    OwnedOf(s.d);
  }

  lemma ExecTwo(s: State<int>, a: Step<int>, b: Step<int>)
    ensures Exec(s, [a, b]) == Advance(Advance(s, a), b)
  {
    hide Advance;
    assert [a, b][..1] == [a] && [a][..0] == [];
    assert Exec(s, [a]) == Advance(Exec(s, [a][..0]), a);
  }

  lemma HoledReached()
    ensures Initial(Empty()) && Exec(Empty(), TwoGroups()).d == Holed() && Inv(Holed())
  {
    hide Initial, Inv, Alloc, Advance, Exec;
    EmptyIs();
    var s := Empty();
    EmptyInv(s.d);
    ExecTwo(s, Reserve(3, 1), Reserve(6, 2));
    Reserved(s, 3, 1);
    var t := Advance(s, Reserve(3, 1));
    FirstGroup(s.d);
    AllocKeeps(s.d, 3, 1);
    Reserved(t, 6, 2);
    SecondGroup(t.d);
    AllocKeeps(t.d, 6, 2);
  }

  lemma HoledBounds()
    ensures var d := Holed();
            && Pos(d, 0) == 0 && Pos(d, 1) == 8 && Tail(d) == 14
            && ChunkOf(d, 3) == (0, 3) && ChunkOf(d, 5) == (0, 5)
  {
    var d := Holed();
    assert Pos(d, 0) == 0;
    assert Pos(d, 1) == 8;
  }

  /** Truncating to byte 5, inside the hole, moves the tail. */
  lemma TailMoves()
    ensures Inv(Holed()) && InHole(Holed(), 5) && Tail(Truncate(Holed(), 5)) != Tail(Holed()) == 14
  {
    hide Inv, Truncate, RoundDown, Mod, Quotient, ChunkOf, Exec, Initial;
    HoledReached();
    HoledBounds();
    TruncateWindow(Holed(), 5);
  }

  /** A read at byte 3, where the data of the first chunk ends, returns nothing and moves to byte 13. */
  lemma BytesSkipped(disk: Disk<int>, size: nat)
    ensures Inv(Holed()) && !InHole(Holed(), 3) && NextRead(Holed(), disk, 3, size) == ([], 13)
  {
    hide Inv, RoundDown, Mod, Quotient, ChunkOf, NextRead, Exec, Initial;
    HoledReached();
    HoledBounds();
    HoleCrossedTwice(Holed(), disk, 3, 0, 3, size);
  }
}
