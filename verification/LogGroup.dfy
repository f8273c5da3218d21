/**
 The log group as the object the code fills in place: a buffer that is replaced by a larger one when
 it runs out, and a list of out-of-band buffers. Each method is proved to compute the layout.
 */
module LogGroups {

  import opened Bytes
  import opened Crc32
  import opened LogLayout
  import opened LogRead
  import opened Arithmetic

  /** compute_crc: one call per piece, each seeded with the result of the one before. */
  method ComputeCrc(pieces: seq<seq<Byte>>) returns (crc: bv32)
    ensures crc == Crc(InitCrc(), Concat(pieces))
  {
    hide Crc, InitCrc;
    crc := InitCrc();
    for k := 0 to |pieces|
      invariant crc == ChainCrc(InitCrc(), pieces[..k])
    {
      assert pieces[..k + 1][..k] == pieces[..k];
      crc := Crc32Ieee(crc, pieces[k]);
    }
    assert pieces[..|pieces|] == pieces;
    ChainIsWhole(InitCrc(), pieces);
  }

  class LogGroup {
    const flush: nat
    const optimal: nat
    const logBuf: array<Byte>
    var buf: array<Byte>
    const foot: array<Byte>
    var inlinePos: nat
    var oob: seq<seq<Byte>>
    var oobPos: nat
    var nrecords: nat
    var max: nat
    ghost var slots: seq<Slot>

    ghost function Snapshot(): Group
      reads this, buf, foot
    {
      Group(flush, optimal, buf[..], foot[..], inlinePos, oob, slots, max)
    }

    ghost predicate Valid()
      reads this, buf, foot
    {
      Shape(Snapshot()) && buf != foot && nrecords == |slots| && oobPos == |Concat(oob)|
    }

    /** start and reset. */
    constructor (flushMultiple: nat, optimalInline: nat, maxRecords: nat)
      requires flushMultiple > 0
      ensures Valid() && fresh(buf) && fresh(foot) && flush == flushMultiple && optimal == optimalInline
      ensures Snapshot() == Reset(flush, optimal, buf[..], foot[..], maxRecords) && slots == []
    {
      flush, optimal := flushMultiple, optimalInline;
      RoundUpIs(INLINE_BUF, flushMultiple);
      logBuf := new Byte[RoundUp(INLINE_BUF, flushMultiple)];
      foot := new Byte[RoundUp(FOOTER, flushMultiple)];
      buf := logBuf;
      inlinePos := HEADER + SLOT * maxRecords;
      oob, oobPos, nrecords, slots := [], 0, 0, [];
      max := if maxRecords < MAX_BATCH then maxRecords else MAX_BATCH;
    }

    /** create_overflow_buf. `junk` is what the new memory held. */
    method CreateOverflowBuf(needed: nat) returns (ghost junk: nat -> Byte)
      requires Valid()
      modifies this`buf
      ensures fresh(buf) && buf[..] == Grow(old(buf[..]), needed, flush, junk) && buf != foot
      ensures foot[..] == old(foot[..])
    {
      hide RoundUp;
      var len := GrownLength(buf.Length, needed, flush);
      RoundUpIs(if needed < 2 * buf.Length then 2 * buf.Length else needed, flush);
      var more := new Byte[len];
      ghost var memory := more[..];
      junk := (i: nat) => if i < |memory| then memory[i] else 0;
      Copy(more, 0, buf[..]);
      assert more[..] == Grow(buf[..], needed, flush, junk);
      buf := more;
    }

    /** Fills the slot of the next record and places its data, in a buffer that is large enough. */
    method Place(r: Rec)
      requires |buf[..]| >= INLINE_BUF && flush > 0 && nrecords == |slots| < max <= MAX_BATCH && oobPos == |Concat(oob)|
      requires HEADER + SLOT * max <= inlinePos && inlinePos + |r.data| <= buf.Length && buf != foot
      modifies this`inlinePos, this`oob, this`oobPos, this`nrecords, this`slots, buf
      ensures Snapshot() == Placed(old(Snapshot()), r) && nrecords == |slots| && oobPos == |Concat(oob)|
      ensures foot[..] == old(foot[..])
    {
      hide EncodeSlot, Splice, Concat, Inlineable;
      var inl := Inlineable(flush, optimal, r);
      var slot := Slot(|r.data|, if inl then inlinePos else oobPos, inl, r.seqNum, r.store);
      Copy(buf, HEADER + SLOT * nrecords, EncodeSlot(slot));
      if inl {
        Copy(buf, inlinePos, r.data);
        inlinePos := inlinePos + |r.data|;
      } else {
        OobGrows(oob, r.data);
        oob := oob + [r.data];
        oobPos := oobPos + |r.data|;
      }
      nrecords := nrecords + 1;
      slots := slots + [slot];
    }

    /** add_record. */
    method AddRecord(r: Rec, idx: nat) returns (ok: bool, ghost junk: nat -> Byte)
      requires Valid()
      modifies this, buf
      ensures Valid() && (ok, Snapshot()) == Add(old(Snapshot()), r, idx, junk)
      ensures buf == old(buf) || fresh(buf)
    {
      hide RoundUp, Grow, Encode, Splice, Concat, Placed, Add;
      ghost var g := Snapshot();
      junk := _ => 0;
      AddIs(g, r, idx, junk);
      if nrecords >= max {
        return false, junk;
      }
      if inlinePos + |r.data| >= buf.Length {
        junk := CreateOverflowBuf(inlinePos + |r.data|);
      }
      AddIs(g, r, idx, junk);
      BufferShape(g, r, idx, junk);
      if nrecords == 0 {
        Copy(buf, 12, Encode(idx, 8));
      }
      Place(r);
      PlacedShape(g.(buf := Buffer(g, r, idx, junk)), r);
      ok := true;
    }

    /** add_and_get_footer: in its own buffer or behind the inline data. */
    method AddFooter() returns (own: bool)
      requires Valid() && nrecords > 0
      modifies buf, foot
      ensures own == OwnFooter(old(Snapshot()))
      ensures buf[..] == if own then old(buf[..]) else Put(old(buf[..]), inlinePos, FooterBytes(old(Snapshot())))
      ensures foot[..] == if own then Put(old(foot[..]), 0, FooterBytes(old(Snapshot()))) else old(foot[..])
    {
      hide Splice, Encode, Concat, RoundUp;
      RoundUpIs(FOOTER, flush);
      var bytes := Encode(FOOTER_MAGIC, 4) + buf[12..20];
      own := inlinePos + FOOTER >= buf.Length || oobPos != 0;
      if own {
        Copy(foot, 0, bytes);
      } else {
        Copy(buf, inlinePos, bytes);
      }
    }

    /** The fields of the header, around the start index. */
    method WriteHeader(low: seq<Byte>, high: seq<Byte>)
      requires |low| == 12 && |high| == 28 && HEADER <= buf.Length && buf != foot
      modifies buf
      ensures buf[..] == Splice(Splice(old(buf[..]), 0, low), 20, high)
    {
      hide Splice;
      Copy(buf, 0, low);
      Copy(buf, 20, high);
    }

    /** finish: the list of buffers to write is the finished group. */
    method Finish(logdev: nat, prev: nat, ghost idx: nat) returns (iovs: seq<seq<Byte>>)
      requires Valid() && nrecords > 0 && buf[12..20] == Encode(idx, 8)
      modifies buf, foot
      ensures Concat(iovs) == LogRead.Finish(old(Snapshot()), idx, logdev, prev)
    {
      hide Splice, Encode, Concat, RoundUp, Words, Crc, ChainCrc, FooterBytes, Put, OwnFooter, Pieces, InitCrc,
           LogRead.Finish, FinalHeader;
      ghost var g := Snapshot();
      PiecesShape(g);
      var own := AddFooter();
      KeepsStart(g, buf[..]);
      ghost var before := buf[..];
      var len := RoundUp(if own then inlinePos else inlinePos + FOOTER, flush);
      var pieces := [buf[HEADER..len]] + oob + if own then [foot[..]] else [];
      var crc := ComputeCrc(pieces);
      PiecesAre(g, before, foot[..], pieces);
      var footerOff := if own then len + oobPos else inlinePos;
      var size := if own then footerOff + foot.Length else len;
      var low, high := Words([HEADER_MAGIC, 0, nrecords]),
                       Words([size, HEADER + SLOT * max, len, footerOff, prev, crc as nat, logdev]);
      HeaderIs(g, idx, logdev, prev, footerOff, size, crc as nat);
      WriteHeader(low, high);
      Assembled(g, idx, logdev, prev, before, foot[..], buf[..]);
      iovs := [buf[..len]] + oob + if own then [foot[..]] else [];
    }
  }

  lemma HeaderIs(g: Group, idx: nat, logdev: nat, prev: nat, footerOff: nat, size: nat, crc: nat)
    requires Shape(g) && crc == CrcOf(g)
    requires footerOff == if OwnFooter(g) then FirstLength(g) + OobPos(g) else g.inlinePos
    requires size == if OwnFooter(g) then footerOff + |g.foot| else FirstLength(g)
    ensures FinalHeader(g, idx, logdev, prev) ==
            Header(HEADER_MAGIC, 0, |g.slots|, idx, size, HEADER + SLOT * g.max, FirstLength(g), footerOff,
                   prev, crc, logdev)
  {
    hide CrcOf, OwnFooter, OobPos, FirstLength;
  }

  lemma PiecesAre(g: Group, buf: seq<Byte>, foot: seq<Byte>, pieces: seq<seq<Byte>>)
    requires Shape(g) && g.slots != [] && FirstLength(g) <= |g.buf| == |buf| && HEADER <= FirstLength(g)
    requires buf == if OwnFooter(g) then g.buf else Put(g.buf, g.inlinePos, FooterBytes(g))
    requires OwnFooter(g) ==> foot == Put(g.foot, 0, FooterBytes(g))
    requires pieces == [buf[HEADER..FirstLength(g)]] + g.oob + if OwnFooter(g) then [foot] else []
    ensures pieces == Pieces(g) && ChainCrc(InitCrc(), pieces) == Crc(InitCrc(), Concat(pieces))
  {
    hide FooterBytes, Put, RoundUp, ChainCrc, Crc, Concat;
    ChainIsWhole(InitCrc(), pieces);
  }

  /** The buffers with the header written are the finished group. */
  lemma Assembled(g: Group, idx: nat, logdev: nat, prev: nat, before: seq<Byte>, foot: seq<Byte>, after: seq<Byte>)
    requires Shape(g) && g.slots != [] && FirstLength(g) <= |g.buf| == |before| && HEADER <= FirstLength(g)
    requires before == if OwnFooter(g) then g.buf else Put(g.buf, g.inlinePos, FooterBytes(g))
    requires OwnFooter(g) ==> foot == Put(g.foot, 0, FooterBytes(g))
    requires before[12..20] == Encode(idx, 8)
    requires var h := FinalHeader(g, idx, logdev, prev);
             var low, high := Words([h.magic, h.version, h.n]),
                              Words([h.size, h.inlineOff, h.oobOff, h.footerOff, h.prevCrc, h.crc, h.logdev]);
             after == Splice(Splice(before, 0, low), 20, high)
    ensures Concat([after[..FirstLength(g)]] + g.oob + if OwnFooter(g) then [foot] else []) ==
            LogRead.Finish(g, idx, logdev, prev)
  {
    hide Splice, Encode, Concat, RoundUp, Words, Crc, ChainCrc, FooterBytes, Put, OwnFooter;
    var h, len := FinalHeader(g, idx, logdev, prev), FirstLength(g);
    var low, high := Words([h.magic, h.version, h.n]),
                     Words([h.size, h.inlineOff, h.oobOff, h.footerOff, h.prevCrc, h.crc, h.logdev]);
    HeaderInPlace(before, low, high);
    SubSlice(after, HEADER, |after|, 0, len - HEADER);
    SubSlice(before, HEADER, |after|, 0, len - HEADER);
    var last := if OwnFooter(g) then [foot] else [];
    var iovs := [after[..len]] + g.oob + last;
    assert after[..len] == after[..HEADER] + after[HEADER..len];
    SplitFirst(iovs, Pieces(g), after[..HEADER], before[HEADER..len]);
  }

  /** The footer does not touch the start index. */
  lemma KeepsStart(g: Group, buf: seq<Byte>)
    requires Shape(g) && g.slots != [] && buf == if OwnFooter(g) then g.buf else Put(g.buf, g.inlinePos, FooterBytes(g))
    ensures buf[12..20] == g.buf[12..20]
  {
    hide Splice, FooterBytes;
    if !OwnFooter(g) {
      SpliceBefore(g.buf, g.inlinePos, FooterBytes(g), 12, 20);
    }
  }

  /** Writing the words of the header around the start index leaves everything behind the header. */
  lemma HeaderInPlace(b: seq<Byte>, low: seq<Byte>, high: seq<Byte>)
    requires |b| >= HEADER && |low| == 12 && |high| == 28
    ensures var b' := Splice(Splice(b, 0, low), 20, high);
            b'[..HEADER] == low + b[12..20] + high && b'[HEADER..] == b[HEADER..]
  {
  }

  /** The first buffer is the header and the first piece. */
  lemma SplitFirst(iovs: seq<seq<Byte>>, pieces: seq<seq<Byte>>, hdr: seq<Byte>, first: seq<Byte>)
    requires iovs != [] && pieces != [] && iovs[0] == hdr + first && pieces[0] == first && iovs[1..] == pieces[1..]
    ensures Concat(iovs) == hdr + Concat(pieces)
  {
    hide Concat;
    ConcatSplit(iovs, 1);
    ConcatSplit(pieces, 1);
    assert iovs[..1] == [iovs[0]] && pieces[..1] == [first];
    ConcatOne(iovs[0]);
    ConcatOne(first);
  }

  /** What is left of add_record once the buffer is large enough. */
  ghost function Placed(g: Group, r: Rec): Group
    requires g.flush > 0
  {
    var slot := NewSlot(g, r);
    var b := Put(g.buf, HEADER + SLOT * |g.slots|, EncodeSlot(slot));
    if slot.inlined then
      g.(buf := Put(b, g.inlinePos, r.data), inlinePos := g.inlinePos + |r.data|, slots := g.slots + [slot])
    else g.(buf := b, oob := g.oob + [r.data], slots := g.slots + [slot])
  }

  lemma AddIs(g: Group, r: Rec, idx: nat, junk: nat -> Byte)
    requires g.flush > 0
    ensures |g.slots| >= g.max ==> Add(g, r, idx, junk) == (false, g)
    ensures |g.slots| < g.max ==> Add(g, r, idx, junk) == (true, Placed(g.(buf := Buffer(g, r, idx, junk)), r))
  {
    hide Grow, Encode, EncodeSlot, Put, Concat, Inlineable;
  }

  lemma PlacedShape(g: Group, r: Rec)
    requires g.flush > 0 && |g.buf| >= INLINE_BUF && |g.buf| % g.flush == 0 && |g.foot| == RoundUp(FOOTER, g.flush)
    requires |g.slots| < g.max <= MAX_BATCH && HEADER + SLOT * g.max <= g.inlinePos && g.inlinePos + |r.data| <= |g.buf|
    ensures Shape(Placed(g, r))
  {
    hide EncodeSlot, Put, Concat, Inlineable, RoundUp;
  }
}
