/**
 The reading side of the journal. A reader counts bytes from the data start and knows nothing of
 holes; dev_offset turns its count into a device offset, and sync_next_read steps over the holes.
 Both agree with the offsets the writer was given.
 */
module JournalRead {

  import opened Arithmetic
  import opened Journal

  // ---------- live groups as one list ----------

  /** The sizes of the live groups in order. */
  function Flat(layout: seq<seq<nat>>): seq<nat> {
    if layout == [] then [] else layout[0] + Flat(layout[1..])
  }

  function Starts(base: int, sizes: seq<nat>): (r: seq<int>)
    ensures |r| == |sizes|
    ensures forall k :: 0 <= k < |r| ==> r[k] == base + Sum(sizes[..k])
  {
    seq(|sizes|, k requires 0 <= k < |sizes| => base + Sum(sizes[..k]))
  }

  /** The offsets of the live groups in order: chunk after chunk, packed from `lo` in the first. */
  function Offsets(size: nat, at: int, lo: nat, layout: seq<seq<nat>>): seq<int>
    decreases layout
  {
    if layout == [] then [] else Starts(at + lo, layout[0]) + Offsets(size, at + size, 0, layout[1..])
  }

  function Live(d: Descriptor): seq<int>
    requires d.chunkSize > 0
  {
    Offsets(d.chunkSize, Pos(d, 0), Lo(d, 0), d.layout)
  }

  lemma {:induction false} SameCount(size: nat, at: int, lo: nat, layout: seq<seq<nat>>)
    ensures |Offsets(size, at, lo, layout)| == |Flat(layout)|
    decreases layout
  {
    if layout != [] {
      SameCount(size, at + size, 0, layout[1..]);
    }
  }

  // ---------- allocation appends ----------

  /** `n` chunks after `at`. */
  function Skip(size: nat, at: int, n: nat): int
    decreases n
  {
    if n == 0 then at else Skip(size, at + size, n - 1)
  }

  lemma {:induction false} SkipIsPos(d: Descriptor, i: nat, n: nat)
    requires d.chunkSize > 0
    ensures Skip(d.chunkSize, Pos(d, i), n) == Pos(d, i + n)
    decreases n
  {
    if n > 0 {
      SkipIsPos(d, i + 1, n - 1);
    }
  }

  lemma {:induction false} GrownOffsets(size: nat, at: int, lo: nat, layout: seq<seq<nat>>, sz: nat)
    ensures Flat(layout + [[sz]]) == Flat(layout) + [sz]
    ensures Offsets(size, at, lo, layout + [[sz]])
         == Offsets(size, at, lo, layout) + [Skip(size, at, |layout|) + (if layout == [] then lo else 0)]
    decreases layout
  {
    hide Sum, Starts;
    var m: seq<seq<nat>> := layout + [[sz]];
    if layout == [] {
      OneGroup(size, at, lo, sz);
      assert m == [[sz]];
    } else {
      GrownOffsets(size, at + size, 0, layout[1..], sz);
      assert m[1..] == layout[1..] + [[sz]];
    }
  }

  lemma StartsAppend(base: int, sizes: seq<nat>, sz: nat)
    ensures Starts(base, sizes + [sz]) == Starts(base, sizes) + [base + Sum(sizes)]
  {
    hide Sum;
    var a, b := Starts(base, sizes + [sz]), Starts(base, sizes) + [base + Sum(sizes)];
    forall k | 0 <= k < |a|
      ensures a[k] == b[k]
    {
      assert (sizes + [sz])[..k] == sizes[..k];
    }
  }

  lemma {:induction false} FitFlat(layout: seq<seq<nat>>, sz: nat)
    requires layout != []
    ensures var n := |layout| - 1; Flat(layout[n := layout[n] + [sz]]) == Flat(layout) + [sz]
    decreases layout
  {
    var n := |layout| - 1;
    var m := layout[n := layout[n] + [sz]];
    if n == 0 {
      assert m[1..] == [] && layout[1..] == [];
    } else {
      FitFlat(layout[1..], sz);
      assert m[1..] == layout[1..][n - 1 := layout[n] + [sz]];
    }
  }

  lemma {:induction false} FitOffsets(size: nat, at: int, lo: nat, layout: seq<seq<nat>>, sz: nat)
    requires layout != []
    ensures var n := |layout| - 1;
            Offsets(size, at, lo, layout[n := layout[n] + [sz]])
            == Offsets(size, at, lo, layout) + [Skip(size, at, n) + (if n == 0 then lo else 0) + Sum(layout[n])]
    decreases layout
  {
    hide Sum, Starts;
    var n := |layout| - 1;
    var m := layout[n := layout[n] + [sz]];
    OffsetsUnfold(size, at, lo, layout);
    OffsetsUnfold(size, at, lo, m);
    hide Offsets;
    if n == 0 {
      StartsAppend(at + lo, layout[0], sz);
      NoOffsets(size, at + size, 0);
      assert m[1..] == [] && layout[1..] == [];
    } else {
      var next := Skip(size, at + size, n - 1);
      assert Skip(size, at, n) == next;
      FitOffsets(size, at + size, 0, layout[1..], sz);
      assert layout[1..][n - 1] == layout[n];
      assert m[1..] == layout[1..][n - 1 := layout[n] + [sz]];
    }
  }

  lemma OffsetsUnfold(size: nat, at: int, lo: nat, layout: seq<seq<nat>>)
    requires layout != []
    ensures Offsets(size, at, lo, layout) == Starts(at + lo, layout[0]) + Offsets(size, at + size, 0, layout[1..])
  {
  }

  lemma NoOffsets(size: nat, at: int, lo: nat)
    ensures Offsets(size, at, lo, []) == []
  {
  }

  /** An allocation adds its offset and size at the end of the live groups and moves none of them. */
  lemma AllocAppends(d: Descriptor, sz: nat, id: nat)
    requires Inv(d) && 0 < sz < d.chunkSize && id != 0 && id !in d.priv
    ensures var (off, e) := Alloc(d, sz, id);
            && Inv(e) && Live(e) == Live(d) + [off] && Flat(e.layout) == Flat(d.layout) + [sz]
  {
    hide RoundDown, RoundUp, Mod, ListOnDisk, Filled, Sum, Offsets, Flat, Starts;
    AllocKeeps(d, sz, id);
    var (off, e) := Alloc(d, sz, id);
    PosSame(d, e, 0);
    var at, lo, n := Pos(d, 0), Lo(d, 0), |d.layout|;
    if d.chunks == [] {
      AllocFirst(d, sz, id);
      StartInFirst(d);
      GrownOffsets(d.chunkSize, at, lo, d.layout, sz);
    } else if Tail(d) + sz < d.endOffset {
      FitFlat(d.layout, sz);
      FitOffsets(d.chunkSize, at, lo, d.layout, sz);
      SkipIsPos(d, 0, n - 1);
    } else {
      AllocGrows(d, sz, id);
      GrownOffsets(d.chunkSize, at, lo, d.layout, sz);
      SkipIsPos(d, 0, n);
    }
  }

  lemma OneGroup(size: nat, at: int, lo: nat, sz: nat)
    ensures Flat([[sz]]) == [sz] && Offsets(size, at, lo, [[sz]]) == [at + lo]
  {
    assert [[sz]][1..] == [];
    assert [sz][..0] == [];
  }

  // ---------- dev_offset ----------

  /** The offset that lies `n` data bytes after the start of the data of chunk `i`. */
  function DevFrom(d: Descriptor, i: nat, n: nat): int
    requires d.chunkSize > 0 && i <= |d.chunks| && (forall j :: i <= j < |d.chunks| ==> d.chunks[j] in d.priv)
    requires forall j :: i <= j < |d.chunks| ==> Lo(d, j) <= EndOfChunk(d, j)
    decreases |d.chunks| - i
  {
    if i == |d.chunks| then Pos(d, i)
    else
      var here := EndOfChunk(d, i) - Lo(d, i);
      if n < here then Pos(d, i) + Lo(d, i) + n else DevFrom(d, i + 1, n - here)
  }

  /** Live data of every chunk lies between its first data byte and its end mark, and reaches the end
      mark except in the last chunk. */
  lemma Extent(d: Descriptor)
    requires Inv(d)
    ensures forall j :: 0 <= j < |d.chunks| ==>
      && d.chunks[j] in d.priv && Groups(d.layout[j]) && EndOfChunk(d, j) <= d.chunkSize
      && Lo(d, j) + Sum(d.layout[j]) <= EndOfChunk(d, j)
      && (j < |d.chunks| - 1 ==> Lo(d, j) + Sum(d.layout[j]) == EndOfChunk(d, j))
    ensures d.chunks != [] ==>
      Lo(d, |d.chunks| - 1) + Sum(d.layout[|d.chunks| - 1]) < EndOfChunk(d, |d.chunks| - 1) == d.chunkSize
  {
    hide RoundDown, Mod, Sum, ListOnDisk;
    if d.chunks != [] {
      TailInLast(d);
      var ends := Ends(d.chunks, d.priv);
      forall j | 0 <= j < |d.chunks|
        ensures EndOfChunk(d, j) == ends[j] && Groups(d.layout[j])
        ensures j < |d.chunks| - 1 ==> Lo(d, j) + Sum(d.layout[j]) == ends[j] <= d.chunkSize
      {
      }
    }
  }

  lemma {:induction false} SumPositive(s: seq<nat>)
    requires forall k :: 0 <= k < |s| ==> s[k] > 0
    ensures |s| <= Sum(s)
  {
    if s != [] {
      SumPositive(s[..|s| - 1]);
    }
  }

  lemma SumTake(s: seq<nat>, k: nat)
    requires Groups(s) && k <= |s|
    ensures Sum(s[..k]) <= Sum(s) && (k < |s| ==> Sum(s[..k]) < Sum(s))
  {
    SumSplit(s, k);
    SumPositive(s[k..]);
  }

  lemma OffsetsAt(size: nat, at: int, lo: nat, layout: seq<seq<nat>>, tail: int, i: nat)
    requires layout != [] && i <= |Flat(layout)|
    ensures var offs, m := Offsets(size, at, lo, layout) + [tail], |layout[0]|;
            var rest := Offsets(size, at + size, 0, layout[1..]) + [tail];
            && i < |offs| && (i < m ==> offs[i] == at + lo + Sum(layout[0][..i]))
            && (i >= m ==> i - m < |rest| && offs[i] == rest[i - m])
  {
    hide Sum, Flat, Offsets;
    SameCount(size, at, lo, layout);
    OffsetsUnfold(size, at, lo, layout);
  }

  lemma FlatTake(layout: seq<seq<nat>>, i: nat)
    requires layout != [] && i <= |Flat(layout)|
    ensures var m := |layout[0]|;
            && (i < m ==> Flat(layout)[..i] == layout[0][..i])
            && (i >= m ==>
                 i - m <= |Flat(layout[1..])|
                  && Sum(Flat(layout)[..i]) == Sum(layout[0]) + Sum(Flat(layout[1..])[..i - m]))
  {
    var m := |layout[0]|;
    if i >= m {
      var s := Flat(layout)[..i];
      SumSplit(s, m);
      assert s[..m] == layout[0];
      assert s[m..] == Flat(layout[1..])[..i - m];
    }
  }

  lemma {:induction false} DevFromAgrees(d: Descriptor, c: nat, i: nat)
    requires Inv(d) && c < |d.chunks| && i <= |Flat(d.layout[c..])|
    requires forall j :: 0 <= j < |d.chunks| ==> d.chunks[j] in d.priv && Lo(d, j) <= EndOfChunk(d, j)
    ensures var offs := Offsets(d.chunkSize, Pos(d, c), Lo(d, c), d.layout[c..]) + [Tail(d)];
            i < |offs| && DevFrom(d, c, Sum(Flat(d.layout[c..])[..i])) == offs[i]
    decreases |d.chunks| - c
  {
    hide RoundDown, RoundUp, Mod, ListOnDisk, Filled, Sum, Inv, Offsets, Flat;
    WindowOf(d);
    Extent(d);
    var layout := d.layout[c..];
    OffsetsAt(d.chunkSize, Pos(d, c), Lo(d, c), layout, Tail(d), i);
    FlatTake(layout, i);
    var m := |layout[0]|;
    assert layout[0] == d.layout[c] && layout[1..] == d.layout[c + 1..];
    if i < m {
      SumTake(layout[0], i);
    } else if c + 1 < |d.chunks| {
      DevFromAgrees(d, c + 1, i - m);
    } else {
      NoMore(d.chunkSize, d.layout, c + 1);
    }
  }

  lemma NoMore(size: nat, layout: seq<seq<nat>>, c: nat)
    requires c == |layout|
    ensures Flat(layout[c..]) == [] && Sum([]) == 0 && forall at, lo :: Offsets(size, at, lo, layout[c..]) == []
  {
  }

  lemma WindowOf(d: Descriptor)
    requires Inv(d)
    ensures d.chunkSize > 0 && |d.layout| == |d.chunks|
    ensures d.chunks != [] ==> Tail(d) == Pos(d, |d.chunks| - 1) + Lo(d, |d.chunks| - 1) + Sum(d.layout[|d.chunks| - 1])
    ensures d.chunks == [] ==> Tail(d) == d.dataStart == Pos(d, 0)
    ensures d.endOffset == Pos(d, |d.chunks|)
  {
    if d.chunks == [] {
      StartInFirst(d);
    }
  }

  /** dev_offset. */
  function DevOffset(d: Descriptor, n: nat): int
    requires Inv(d)
  {
    Extent(d);
    if n == 0 || d.chunks == [] then d.dataStart else DevFrom(d, 0, n)
  }

  /** The byte count of the first i live groups is translated to the offset the writer was given for
      group i + 1, and the count of all of them to the tail. */
  lemma ReaderAgrees(d: Descriptor, i: nat)
    requires Inv(d) && i <= |Flat(d.layout)|
    ensures |Live(d)| == |Flat(d.layout)|
    ensures DevOffset(d, Sum(Flat(d.layout)[..i])) == (Live(d) + [Tail(d)])[i]
  {
    hide RoundDown, RoundUp, Mod, ListOnDisk, Filled, Inv;
    Extent(d);
    WindowOf(d);
    StartInFirst(d);
    SameCount(d.chunkSize, Pos(d, 0), Lo(d, 0), d.layout);
    if d.chunks != [] {
      assert d.layout[0..] == d.layout;
      DevFromAgrees(d, 0, i);
    } else {
      NoMore(d.chunkSize, d.layout, 0);
      assert d.layout[0..] == d.layout;
    }
  }
}
