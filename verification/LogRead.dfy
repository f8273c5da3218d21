/**
 A finished log group as bytes on the device, and the reader that takes one record out of it.
 */
module LogRead {

  import opened Bytes
  import opened Crc32
  import opened Options
  import opened LogLayout
  import opened Arithmetic

  const HEADER_MAGIC := 0xF00D1E
  const FOOTER_MAGIC := 0xB00D1E

  function InitCrc(): bv32 {
    0x1234_5678
  }

  // ---------- words ----------

  function Words(ws: seq<nat>): (r: seq<Byte>)
    ensures |r| == 4 * |ws|
  {
    if ws == [] then [] else Words(ws[..|ws| - 1]) + Encode(ws[|ws| - 1], 4)
  }

  function Word(b: seq<Byte>, k: nat): nat
    requires 4 * k + 4 <= |b|
  {
    Decode(b[4 * k..4 * k + 4])
  }

  lemma {:induction false} WordAt(ws: seq<nat>, k: nat)
    requires k < |ws| && ws[k] < 0x1_0000_0000
    ensures Word(Words(ws), k) == ws[k]
    decreases ws
  {
    hide Decode, Encode;
    var n := |ws| - 1;
    var front := Words(ws[..n]);
    if k == n {
      assert Words(ws)[4 * k..4 * k + 4] == Encode(ws[n], 4);
      Ranges();
      RoundTrip(ws[n], 4);
    } else {
      WordAt(ws[..n], k);
      assert Words(ws)[4 * k..4 * k + 4] == front[4 * k..4 * k + 4];
    }
  }

  // ---------- the header ----------

  /** log_group_header. The start index sits between the first three words and the others. */
  datatype Header = Header(
    magic: nat, version: nat, n: nat, start: nat, size: nat, inlineOff: nat,
    oobOff: nat, footerOff: nat, prevCrc: nat, crc: nat, logdev: nat)

  function EncodeHeader(h: Header): (r: seq<Byte>)
    ensures |r| == HEADER
  {
    Words([h.magic, h.version, h.n]) + Encode(h.start, 8)
    + Words([h.size, h.inlineOff, h.oobOff, h.footerOff, h.prevCrc, h.crc, h.logdev])
  }

  function DecodeHeader(b: seq<Byte>): Header
    requires |b| >= HEADER
  {
    var (a, c) := (b[..12], b[20..48]);
    Header(Word(a, 0), Word(a, 1), Word(a, 2), Decode(b[12..20]),
           Word(c, 0), Word(c, 1), Word(c, 2), Word(c, 3), Word(c, 4), Word(c, 5), Word(c, 6))
  }

  ghost predicate HeaderFits(h: Header) {
    && h.magic < 0x1_0000_0000 && h.version < 0x1_0000_0000 && h.n < 0x1_0000_0000 && h.start < 0x1_0000_0000_0000_0000
    && h.size < 0x1_0000_0000 && h.inlineOff < 0x1_0000_0000 && h.oobOff < 0x1_0000_0000 && h.footerOff < 0x1_0000_0000
    && h.prevCrc < 0x1_0000_0000 && h.crc < 0x1_0000_0000 && h.logdev < 0x1_0000_0000
  }

  lemma Cut3<T>(a: seq<T>, b: seq<T>, c: seq<T>, d: seq<T>)
    ensures var s, i, j := a + b + c + d, |a|, |a| + |b|;
            s[..i] == a && s[i..j] == b && s[j..j + |c|] == c
  {
  }

  lemma HeaderRoundTrip(h: Header, rest: seq<Byte>)
    requires HeaderFits(h)
    ensures DecodeHeader(EncodeHeader(h) + rest) == h
  {
    hide Words, Word, Encode, Decode, Range;
    var ws, vs := [h.magic, h.version, h.n], [h.size, h.inlineOff, h.oobOff, h.footerOff, h.prevCrc, h.crc, h.logdev];
    Cut3(Words(ws), Encode(h.start, 8), Words(vs), rest);
    Ranges();
    RoundTrip(h.start, 8);
    WordAt(ws, 0);
    WordAt(ws, 1);
    WordAt(ws, 2);
    WordAt(vs, 0);
    WordAt(vs, 1);
    WordAt(vs, 2);
    WordAt(vs, 3);
    WordAt(vs, 4);
    WordAt(vs, 5);
    WordAt(vs, 6);
  }

  // ---------- finish ----------

  /** new_iovec_for_footer. */
  predicate OwnFooter(g: Group) {
    g.inlinePos + FOOTER >= |g.buf| || OobPos(g) != 0
  }

  /** The length of the first piece that is written. */
  function FirstLength(g: Group): nat
    requires g.flush > 0
  {
    RoundUp(if OwnFooter(g) then g.inlinePos else g.inlinePos + FOOTER, g.flush)
  }

  /** The footer without its padding. */
  function FooterBytes(g: Group): (r: seq<Byte>)
    requires |g.buf| >= 20
    ensures |r| == 12
  {
    Encode(FOOTER_MAGIC, 4) + g.buf[12..20]
  }

  /** What is written of the log buffer, without the header. */
  function FirstPiece(g: Group): seq<Byte>
    requires Shape(g)
  {
    var buf := if OwnFooter(g) then g.buf else Put(g.buf, g.inlinePos, FooterBytes(g));
    var len := FirstLength(g);
    if HEADER <= len <= |buf| then buf[HEADER..len] else []
  }

  function FooterPiece(g: Group): seq<Byte>
    requires Shape(g)
  {
    if OwnFooter(g) then Put(g.foot, 0, FooterBytes(g)) else []
  }

  /** The pieces that are written, the first one without the header. */
  function Pieces(g: Group): seq<seq<Byte>>
    requires Shape(g)
  {
    [FirstPiece(g)] + g.oob + if OwnFooter(g) then [FooterPiece(g)] else []
  }

  /** compute_crc: chained through the pieces. */
  function ChainCrc(seed: bv32, pieces: seq<seq<Byte>>): bv32 {
    if pieces == [] then seed else Crc(ChainCrc(seed, pieces[..|pieces| - 1]), pieces[|pieces| - 1])
  }

  /** The checksum of the group, one call per piece. */
  function CrcOf(g: Group): nat
    requires Shape(g)
  {
    ChainCrc(InitCrc(), Pieces(g)) as nat
  }

  function FinalHeader(g: Group, idx: nat, logdev: nat, prev: nat): Header
    requires Shape(g)
  {
    var oobOff := FirstLength(g);
    var footerOff := if OwnFooter(g) then oobOff + OobPos(g) else g.inlinePos;
    Header(HEADER_MAGIC, 0, |g.slots|, idx, if OwnFooter(g) then footerOff + |g.foot| else oobOff,
           HEADER + SLOT * g.max, oobOff, footerOff, prev, CrcOf(g), logdev)
  }

  /** The group as it is written. */
  function Finish(g: Group, idx: nat, logdev: nat, prev: nat): seq<Byte>
    requires Shape(g)
  {
    EncodeHeader(FinalHeader(g, idx, logdev, prev)) + Concat(Pieces(g))
  }

  lemma EmptyCrc(seed: bv32)
    ensures Crc(seed, []) == seed
  {
    hide Flip;
    FlipFlip(seed);
  }

  /** The CRC chained over the pieces is the CRC of the whole. */
  lemma {:induction false} ChainIsWhole(seed: bv32, pieces: seq<seq<Byte>>)
    ensures ChainCrc(seed, pieces) == Crc(seed, Concat(pieces))
  {
    hide Crc;
    if pieces == [] {
      EmptyCrc(seed);
    } else {
      var n := |pieces| - 1;
      ChainIsWhole(seed, pieces[..n]);
      Chained(seed, Concat(pieces[..n]), pieces[n]);
    }
  }

  // ---------- the reader ----------

  /** verify_log_group_header: the CRC is checked when the first read holds the whole group. */
  predicate Verified(h: Header, idx: nat, buf: seq<Byte>) {
    && h.magic == HEADER_MAGIC && h.version % 256 == 0 && h.start <= idx < h.start + h.n && h.inlineOff <= h.size
    && (h.size <= INITIAL_READ ==> HEADER <= h.size <= |buf| && h.crc == Crc(InitCrc(), buf[HEADER..h.size]) as nat)
  }

  function Min(a: nat, b: nat): nat {
    if a < b then a else b
  }

  /** The data of a record at offset `off`: in the first read, or read again at aligned offsets. */
  function Extract(dev: seq<Byte>, buf: seq<Byte>, off: nat, size: nat, align: nat): Option<seq<Byte>>
    requires align > 0
  {
    if off + size < INITIAL_READ then (if off + size <= |buf| then Some(buf[off..off + size]) else None)
    else
      var from := RoundDown(off, align);
      if from > off then None
      else
        var to := Min(from + RoundUp(size + off - from, align), |dev|);
        if off + size <= to then Some(dev[from..to][off - from..off - from + size]) else None
  }

  /** LogDev::read of log `idx` in the group that starts at `dev[0]`. */
  function Read(dev: seq<Byte>, idx: nat, align: nat): Option<seq<Byte>>
    requires align > 0
  {
    var buf := dev[..Min(INITIAL_READ, |dev|)];
    if |buf| < HEADER then None
    else
      var h := DecodeHeader(buf);
      var at := HEADER + SLOT * (idx - h.start);
      if !Verified(h, idx, buf) || at + SLOT > |buf| then None
      else
        var s := DecodeSlot(buf[at..at + SLOT]);
        Extract(dev, buf, s.offset + if s.inlined then 0 else h.oobOff, s.size, align)
  }

  lemma ExtractIs(dev: seq<Byte>, off: nat, size: nat, align: nat)
    requires align > 0 && off + size <= |dev|
    ensures Extract(dev, dev[..Min(INITIAL_READ, |dev|)], off, size, align) == Some(dev[off..off + size])
  {
    hide RoundDown, RoundUp;
    var from := RoundDown(off, align);
    RoundDownIs(off, align);
    if off + size >= INITIAL_READ {
      var len := size + off - from;
      RoundUpIs(len, align);
      var to := Min(from + RoundUp(len, align), |dev|);
      SubSlice(dev, from, to, off - from, off - from + size);
    } else {
      SubSlice(dev, 0, Min(INITIAL_READ, |dev|), off, off + size);
    }
  }

  lemma SubSlice<T>(s: seq<T>, a: nat, b: nat, c: nat, d: nat)
    requires a <= b <= |s| && c <= d <= b - a
    ensures s[a..b][c..d] == s[a + c..a + d]
  {
    forall k | 0 <= k < d - c
      ensures s[a..b][c..d][k] == s[a + c..a + d][k]
    {
    }
  }

  // ---------- the layout of a finished group ----------

  lemma WholeIs(g: Group)
    requires Shape(g)
    ensures Concat(Pieces(g)) == FirstPiece(g) + Concat(g.oob) + FooterPiece(g)
  {
    hide FirstPiece, FooterPiece, Concat;
    var last := if OwnFooter(g) then [FooterPiece(g)] else [];
    ConcatThree([FirstPiece(g)], g.oob, last);
    ConcatOne(FirstPiece(g));
    ConcatOne(FooterPiece(g));
    NoFooter(g);
  }

  lemma NoFooter(g: Group)
    requires Shape(g)
    ensures !OwnFooter(g) ==> FooterPiece(g) == []
  {
  }

  /** All pieces fit in their buffers, the sizes add up, and the footer lies inside the group. */
  lemma PiecesShape(g: Group)
    requires Shape(g) && g.slots != []
    ensures HEADER <= g.inlinePos <= FirstLength(g) <= |g.buf| && |FirstPiece(g)| + HEADER == FirstLength(g)
    ensures var h := FinalHeader(g, 0, 0, 0); |Concat(Pieces(g))| + HEADER == h.size && h.footerOff + FOOTER <= h.size
  {
    hide RoundUp, Encode, ChainCrc, Concat, Pieces;
    FirstFits(g);
    RoundUpIs(FOOTER, g.flush);
    RoundUpIs(if OwnFooter(g) then g.inlinePos else g.inlinePos + FOOTER, g.flush);
    WholeIs(g);
  }

  lemma ConcatThree(a: seq<seq<Byte>>, b: seq<seq<Byte>>, c: seq<seq<Byte>>)
    ensures Concat(a + b + c) == Concat(a) + Concat(b) + Concat(c)
  {
    hide Concat;
    ConcatSplit(a + b + c, |a + b|);
    ConcatSplit(a + b, |a|);
    assert (a + b + c)[..|a + b|] == a + b && (a + b + c)[|a + b|..] == c && (a + b)[..|a|] == a && (a + b)[|a|..] == b;
  }

  lemma FirstFits(g: Group)
    requires Shape(g) && g.slots != []
    ensures HEADER <= g.inlinePos <= FirstLength(g) <= |g.buf|
  {
    hide RoundUp;
    var len := if OwnFooter(g) then g.inlinePos else g.inlinePos + FOOTER;
    RoundUpIs(len, g.flush);
    MultipleAbove(len, |g.buf|, g.flush);
  }

  // ---------- reading back ----------

  lemma InThree<T>(a: seq<T>, b: seq<T>, c: seq<T>, from: nat, to: nat)
    requires from <= to <= |b|
    ensures (a + b + c)[|a| + from..|a| + to] == b[from..to]
  {
    var s := a + b + c;
    assert s[|a|..|a| + |b|] == b;
    SubSlice(s, |a|, |a| + |b|, from, to);
  }

  /** Bytes of the log buffer before the footer are in the group where they are in the buffer. */
  lemma InFirst(g: Group, hdr: seq<Byte>, rest: seq<Byte>, from: nat, to: nat)
    requires Shape(g) && g.slots != [] && |hdr| == HEADER && HEADER <= from <= to <= g.inlinePos
    ensures to <= |hdr + Concat(Pieces(g)) + rest| && (hdr + Concat(Pieces(g)) + rest)[from..to] == g.buf[from..to]
  {
    hide RoundUp, Encode, Concat, Pieces, Splice;
    PiecesShape(g);
    WholeIs(g);
    var tail := Concat(g.oob) + FooterPiece(g) + rest;
    assert hdr + Concat(Pieces(g)) + rest == hdr + FirstPiece(g) + tail;
    InThree(hdr, FirstPiece(g), tail, from - HEADER, to - HEADER);
    var buf := if OwnFooter(g) then g.buf else Put(g.buf, g.inlinePos, FooterBytes(g));
    SubSlice(buf, HEADER, FirstLength(g), from - HEADER, to - HEADER);
    if !OwnFooter(g) {
      SpliceBefore(g.buf, g.inlinePos, FooterBytes(g), from, to);
    }
  }

  /** Out-of-band bytes are in the group behind the first piece. */
  lemma InOob(g: Group, hdr: seq<Byte>, rest: seq<Byte>, from: nat, to: nat)
    requires Shape(g) && g.slots != [] && |hdr| == HEADER && from <= to <= OobPos(g)
    ensures var dev, at := hdr + Concat(Pieces(g)) + rest, FirstLength(g);
            at + to <= |dev| && dev[at + from..at + to] == Concat(g.oob)[from..to]
  {
    hide RoundUp, Encode, Concat, Pieces, FirstPiece, FooterPiece;
    PiecesShape(g);
    WholeIs(g);
    var tail := FooterPiece(g) + rest;
    assert hdr + Concat(Pieces(g)) + rest == (hdr + FirstPiece(g)) + Concat(g.oob) + tail;
    InThree(hdr + FirstPiece(g), Concat(g.oob), tail, from, to);
  }

  ghost predicate GroupFits(g: Group, recs: seq<Rec>, idx: nat, logdev: nat, prev: nat)
    requires Shape(g)
  {
    && FinalHeader(g, idx, logdev, prev).size < 0x8000_0000
    && idx < 0x1_0000_0000_0000_0000 && logdev < 0x1_0000_0000 && prev < 0x1_0000_0000
    && forall i :: 0 <= i < |recs| ==> recs[i].seqNum < 0x1_0000_0000_0000_0000 && recs[i].store < 0x1_0000_0000
  }

  lemma CrcFits(c: bv32)
    ensures (c as nat) < 0x1_0000_0000
  {
  }

  lemma FinalFits(g: Group, recs: seq<Rec>, idx: nat, logdev: nat, prev: nat)
    requires Shape(g) && g.slots != [] && GroupFits(g, recs, idx, logdev, prev)
    ensures HeaderFits(FinalHeader(g, idx, logdev, prev))
  {
    hide RoundUp, Concat, Pieces, ChainCrc;
    PiecesShape(g);
    CrcFits(ChainCrc(InitCrc(), Pieces(g)));
  }

  /** The first read of header and body. */
  lemma DecodesFirst(h: Header, body: seq<Byte>, rest: seq<Byte>)
    requires HeaderFits(h) && h.size == HEADER + |body|
    ensures var dev := EncodeHeader(h) + body + rest;
            var buf := dev[..Min(INITIAL_READ, |dev|)];
            && |buf| >= HEADER && DecodeHeader(buf) == h
            && (h.size <= INITIAL_READ ==> h.size <= |buf| && buf[HEADER..h.size] == body)
  {
    hide EncodeHeader, DecodeHeader, HeaderFits;
    var dev := EncodeHeader(h) + body + rest;
    var buf := dev[..Min(INITIAL_READ, |dev|)];
    assert buf == EncodeHeader(h) + buf[HEADER..];
    HeaderRoundTrip(h, buf[HEADER..]);
    if h.size <= INITIAL_READ {
      SubSlice(dev, 0, |buf|, HEADER, h.size);
      assert dev[HEADER..h.size] == body;
    }
  }

  /** What the reader finds at the start of the group. */
  lemma ReadsHeader(g: Group, recs: seq<Rec>, idx: nat, logdev: nat, prev: nat, rest: seq<Byte>, k: nat)
    requires Inv(g, recs, idx) && recs != [] && GroupFits(g, recs, idx, logdev, prev) && k < |recs|
    ensures var dev := Finish(g, idx, logdev, prev) + rest;
            var buf := dev[..Min(INITIAL_READ, |dev|)];
            && |buf| >= HEADER && DecodeHeader(buf) == FinalHeader(g, idx, logdev, prev)
            && Verified(FinalHeader(g, idx, logdev, prev), idx + k, buf)
  {
    hide RoundUp, EncodeHeader, DecodeHeader, Concat, Pieces, Found, ChainCrc, Crc, HeaderFits;
    PiecesShape(g);
    FinalFits(g, recs, idx, logdev, prev);
    DecodesFirst(FinalHeader(g, idx, logdev, prev), Concat(Pieces(g)), rest);
    ChainIsWhole(InitCrc(), Pieces(g));
  }

  lemma SlotInRange(g: Group, recs: seq<Rec>, idx: nat, logdev: nat, prev: nat, k: nat)
    requires Inv(g, recs, idx) && recs != [] && GroupFits(g, recs, idx, logdev, prev) && k < |recs|
    ensures SlotFits(g.slots[k])
  {
    hide RoundUp, Concat, Pieces, ChainCrc, EncodeSlot, Encode;
    PiecesShape(g);
    assert Found(g.buf, Concat(g.oob), HEADER + SLOT * g.max, g.inlinePos, k, g.slots[k], recs[k]);
  }

  /** The slot of record `k` and its data, as the reader sees them. */
  lemma ReadsSlot(g: Group, recs: seq<Rec>, idx: nat, hdr: seq<Byte>, rest: seq<Byte>, k: nat)
    requires Inv(g, recs, idx) && k < |recs| && |hdr| == HEADER
    ensures var dev, s, at := hdr + Concat(Pieces(g)) + rest, g.slots[k], HEADER + SLOT * k;
            var off := s.offset + if s.inlined then 0 else FirstLength(g);
            && at + SLOT <= INITIAL_READ && at + SLOT <= |dev| && dev[at..at + SLOT] == EncodeSlot(s)
            && off + s.size <= |dev| && dev[off..off + s.size] == recs[k].data
  {
    hide RoundUp, Concat, Pieces, ChainCrc, EncodeSlot, Encode;
    var s, at := g.slots[k], HEADER + SLOT * k;
    assert Found(g.buf, Concat(g.oob), HEADER + SLOT * g.max, g.inlinePos, k, s, recs[k]);
    InFirst(g, hdr, rest, at, at + SLOT);
    if s.inlined {
      InFirst(g, hdr, rest, s.offset, s.offset + s.size);
    } else {
      InOob(g, hdr, rest, s.offset, s.offset + s.size);
    }
  }

  /** Every record of a finished group is read back, wherever its data went and whatever follows the
      group on the device. */
  lemma ReadBack(g: Group, recs: seq<Rec>, idx: nat, logdev: nat, prev: nat, rest: seq<Byte>, align: nat, k: nat)
    requires Inv(g, recs, idx) && recs != [] && GroupFits(g, recs, idx, logdev, prev) && k < |recs| && align > 0
    ensures Read(Finish(g, idx, logdev, prev) + rest, idx + k, align) == Some(recs[k].data)
  {
    hide Inv, RoundUp, RoundDown, EncodeHeader, DecodeHeader, Concat, Pieces, Found, ChainCrc, Crc, Verified,
      EncodeSlot, DecodeSlot, Extract, GroupFits, SlotFits;
    ShapeOf(g, recs, idx);
    var hdr := EncodeHeader(FinalHeader(g, idx, logdev, prev));
    var dev := Finish(g, idx, logdev, prev) + rest;
    var n, s, at := Min(INITIAL_READ, |dev|), g.slots[k], HEADER + SLOT * k;
    ReadsHeader(g, recs, idx, logdev, prev, rest, k);
    ReadsSlot(g, recs, idx, hdr, rest, k);
    SlotInRange(g, recs, idx, logdev, prev, k);
    SlotRoundTrip(s);
    SubSlice(dev, 0, n, at, at + SLOT);
    ExtractIs(dev, s.offset + if s.inlined then 0 else FirstLength(g), s.size, align);
  }

  lemma ShapeOf(g: Group, recs: seq<Rec>, idx: nat)
    requires Inv(g, recs, idx)
    ensures Shape(g) && |recs| == |g.slots|
  {
  }

  // ---------- from reset to read ----------

  /** Records added in order, the first one with log index `idx`. */
  function AddAll(g: Group, recs: seq<Rec>, idx: nat, junk: nat -> Byte): Group
    requires g.flush > 0
    decreases recs
  {
    if recs == [] then g
    else
      var before := AddAll(g, recs[..|recs| - 1], idx, junk);
      if before.flush == 0 then before else Add(before, recs[|recs| - 1], idx + |recs| - 1, junk).1
  }

  lemma {:induction false} AddAllKeeps(g: Group, recs: seq<Rec>, idx: nat, junk: nat -> Byte)
    requires Inv(g, [], idx) && |recs| <= g.max
    ensures Inv(AddAll(g, recs, idx, junk), recs, idx) && AddAll(g, recs, idx, junk).max == g.max
    decreases recs
  {
    hide Inv, Add;
    ShapeOf(g, [], idx);
    if recs != [] {
      var n := |recs| - 1;
      AddAllKeeps(g, recs[..n], idx, junk);
      var h := AddAll(g, recs[..n], idx, junk);
      ShapeOf(h, recs[..n], idx);
      AddKeeps(h, recs[..n], idx, recs[n], idx + n, junk);
      SameMax(h, recs[n], idx + n, junk);
      assert recs[..n] + [recs[n]] == recs;
    }
  }

  lemma SameMax(g: Group, r: Rec, idx: nat, junk: nat -> Byte)
    requires g.flush > 0
    ensures Add(g, r, idx, junk).1.max == g.max
  {
    hide Encode, EncodeSlot, Grow, Put;
  }

  /** The round trip: any non-empty batch of records, inline and out of band in any mix, with any
      growth of the buffer, added to a reset group and finished. */
  lemma GroupRoundTrip(flush: nat, optimal: nat, buf: seq<Byte>, foot: seq<Byte>, maxRecords: nat, recs: seq<Rec>,
                       idx: nat,
                       junk: nat -> Byte, logdev: nat, prev: nat, rest: seq<Byte>, align: nat, k: nat)
    requires flush > 0 && |buf| == RoundUp(INLINE_BUF, flush) && |foot| == RoundUp(FOOTER, flush)
    requires 0 < |recs| <= maxRecords && |recs| <= MAX_BATCH && k < |recs| && align > 0
    ensures var g := AddAll(Reset(flush, optimal, buf, foot, maxRecords), recs, idx, junk);
            && Shape(g)
            && (GroupFits(g, recs, idx, logdev, prev) ==>
                  Read(Finish(g, idx, logdev, prev) + rest, idx + k, align) == Some(recs[k].data))
  {
    hide Inv, AddAll, GroupFits, RoundUp, Read, Finish;
    ResetInv(flush, optimal, buf, foot, maxRecords);
    var g0 := Reset(flush, optimal, buf, foot, maxRecords);
    assert Inv(g0, [], idx);
    AddAllKeeps(g0, recs, idx, junk);
    var g := AddAll(g0, recs, idx, junk);
    ShapeOf(g, recs, idx);
    if GroupFits(g, recs, idx, logdev, prev) {
      ReadBack(g, recs, idx, logdev, prev, rest, align, k);
    }
  }

  // ---------- damage ----------

  lemma SameNumber(c: bv32, d: bv32)
    requires c as nat == d as nat
    ensures c == d
  {
    assert (c as nat) as bv32 == c;
    assert (d as nat) as bv32 == d;
  }

  lemma OneByteOff(seed: bv32, s: seq<Byte>, p: nat, b: Byte)
    requires p < |s| && s[p] != b
    ensures Crc(seed, s[p := b]) as nat != Crc(seed, s) as nat
  {
    hide Crc;
    var x, y := s[..p], s[p + 1..];
    assert s == x + [s[p]] + y && s[p := b] == x + [b] + y;
    DetectsByte(seed, x, s[p], b, y);
    if Crc(seed, s[p := b]) as nat == Crc(seed, s) as nat {
      SameNumber(Crc(seed, s[p := b]), Crc(seed, s));
    }
  }

  /** A group that fits the first read and has one byte after the header changed is not accepted, for
      any log index. */
  lemma DamageDetected(g: Group, recs: seq<Rec>, idx: nat, logdev: nat, prev: nat, rest: seq<Byte>, align: nat, p: nat,
                       b: Byte, at: nat)
    requires Inv(g, recs, idx) && recs != [] && GroupFits(g, recs, idx, logdev, prev) && align > 0
    requires HEADER <= p < |Finish(g, idx, logdev, prev)| <= INITIAL_READ && Finish(g, idx, logdev, prev)[p] != b
    ensures Read(Finish(g, idx, logdev, prev)[p := b] + rest, at, align) == None
  {
    hide RoundUp, EncodeHeader, Concat, Pieces, Found, ChainCrc, Crc, HeaderFits, Read, InitCrc, FirstPiece,
         FooterPiece;
    PiecesShape(g);
    var h := FinalHeader(g, idx, logdev, prev);
    var body := Concat(Pieces(g));
    var bad := body[p - HEADER := b];
    assert Finish(g, idx, logdev, prev)[p := b] == EncodeHeader(h) + bad;
    FinalFits(g, recs, idx, logdev, prev);
    ChainIsWhole(InitCrc(), Pieces(g));
    OneByteOff(InitCrc(), body, p - HEADER, b);
    NotAccepted(h, bad, rest, at, align);
  }

  /** A body that does not match the CRC of its header. */
  lemma NotAccepted(h: Header, bad: seq<Byte>, rest: seq<Byte>, at: nat, align: nat)
    requires HeaderFits(h) && h.size == HEADER + |bad| <= INITIAL_READ && h.crc != Crc(InitCrc(), bad) as nat
    requires align > 0
    ensures Read(EncodeHeader(h) + bad + rest, at, align) == None
  {
    hide EncodeHeader, DecodeHeader, Crc, InitCrc, DecodeSlot, Extract, HeaderFits;
    DecodesFirst(h, bad, rest);
  }
}
