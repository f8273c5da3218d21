/**
 The layout of a log group: header, one slot per record, inline data, out-of-band data, footer. The
 writer builds it step by step in a buffer that may have to grow; the reader finds each record again
 through its slot.
 */
module LogLayout {

  import opened Bytes
  import opened Arithmetic

  const HEADER := 48
  const SLOT := 20
  const FOOTER := 24
  const MAX_BATCH := 202
  const INITIAL_READ := 4096
  const INLINE_BUF := 8192

  // ---------- slots ----------

  datatype Slot = Slot(size: nat, offset: nat, inlined: bool, seqNum: nat, store: nat)

  /** serialized_log_record: the inlined bit is the top bit of the offset word. */
  function EncodeSlot(s: Slot): (r: seq<Byte>)
    ensures |r| == SLOT
  {
    Encode(s.size, 4) + Encode(s.offset + if s.inlined then 0x8000_0000 else 0, 4)
    + Encode(s.seqNum, 8) + Encode(s.store, 4)
  }

  function DecodeSlot(b: seq<Byte>): Slot
    requires |b| == SLOT
  {
    var word := Decode(b[4..8]);
    Slot(Decode(b[..4]), word % 0x8000_0000, word >= 0x8000_0000, Decode(b[8..16]), Decode(b[16..20]))
  }

  ghost predicate SlotFits(s: Slot) {
    s.size < 0x1_0000_0000 && s.offset < 0x8000_0000 && s.seqNum < 0x1_0000_0000_0000_0000 && s.store < 0x1_0000_0000
  }

  lemma Cut4<T>(a: seq<T>, b: seq<T>, c: seq<T>, d: seq<T>)
    ensures var s, i, j := a + b + c + d, |a|, |a| + |b|;
            s[..i] == a && s[i..j] == b && s[j..j + |c|] == c && s[j + |c|..j + |c| + |d|] == d
  {
  }

  lemma SlotRoundTrip(s: Slot)
    requires SlotFits(s)
    ensures DecodeSlot(EncodeSlot(s)) == s
  {
    hide Encode, Decode, Range;
    var word := s.offset + if s.inlined then 0x8000_0000 else 0;
    Ranges();
    RoundTrip(s.size, 4);
    RoundTrip(word, 4);
    RoundTrip(s.seqNum, 8);
    RoundTrip(s.store, 4);
    Cut4(Encode(s.size, 4), Encode(word, 4), Encode(s.seqNum, 8), Encode(s.store, 4));
  }

  // ---------- the group while it is built ----------

  /** A record: `aligned` says whether its buffer could be written as it is. */
  datatype Rec = Rec(data: seq<Byte>, aligned: bool, seqNum: nat, store: nat)

  /** LogGroup. `buf` and `foot` are the current log buffer and the footer buffer. `slots` is history:
      what the record slots hold. */
  datatype Group = Group(
    flush: nat,
    optimal: nat,
    buf: seq<Byte>,
    foot: seq<Byte>,
    inlinePos: nat,
    oob: seq<seq<Byte>>,
    slots: seq<Slot>,
    max: nat)

  predicate Inlineable(flush: nat, optimal: nat, r: Rec)
    requires flush > 0
  {
    |r.data| < optimal || |r.data| % flush != 0 || !r.aligned
  }

  function OobPos(g: Group): nat {
    |Concat(g.oob)|
  }

  /** reset, on a log buffer with any contents. */
  function Reset(flush: nat, optimal: nat, buf: seq<Byte>, foot: seq<Byte>, maxRecords: nat): Group {
    Group(flush, optimal, buf, foot, HEADER + SLOT * maxRecords, [], [],
          if maxRecords < MAX_BATCH then maxRecords else MAX_BATCH)
  }

  function GrownLength(len: nat, needed: nat, flush: nat): nat
    requires flush > 0
  {
    RoundUp(if needed < 2 * len then 2 * len else needed, flush)
  }

  /** create_overflow_buf: `junk` is what the new memory holds. */
  function Grow(buf: seq<Byte>, needed: nat, flush: nat, junk: nat -> Byte): seq<Byte>
    requires flush > 0
  {
    var len := GrownLength(|buf|, needed, flush);
    if len <= |buf| then buf else buf + seq(len - |buf|, i requires 0 <= i => junk(|buf| + i))
  }

  /** add_record: false when the group is full. */
  function Add(g: Group, r: Rec, idx: nat, junk: nat -> Byte): (bool, Group)
    requires g.flush > 0
  {
    var n, needed := |g.slots|, g.inlinePos + |r.data|;
    if n >= g.max then (false, g)
    else
      var inl := Inlineable(g.flush, g.optimal, r);
      var slot := Slot(|r.data|, if inl then g.inlinePos else OobPos(g), inl, r.seqNum, r.store);
      var b0 := if needed >= |g.buf| then Grow(g.buf, needed, g.flush, junk) else g.buf;
      var b1 := if n == 0 then Put(b0, 12, Encode(idx, 8)) else b0;
      var b2 := Put(b1, HEADER + SLOT * n, EncodeSlot(slot));
      (true,
       if inl then g.(buf := Put(b2, g.inlinePos, r.data), inlinePos := needed, slots := g.slots + [slot])
       else g.(buf := b2, oob := g.oob + [r.data], slots := g.slots + [slot]))
  }

  /** A write that must be in bounds. */
  function Put(s: seq<Byte>, pos: nat, b: seq<Byte>): (r: seq<Byte>)
    ensures |r| == |s|
  {
    if pos + |b| <= |s| then Splice(s, pos, b) else s
  }

  // ---------- the invariant ----------

  /** Slot `i` is in place and leads to the data of record `r`. */
  ghost predicate Found(buf: seq<Byte>, oob: seq<Byte>, lo: nat, hi: nat, i: nat, s: Slot, r: Rec) {
    var at := HEADER + SLOT * i;
    && at + SLOT <= lo && lo <= hi <= |buf| && buf[at..at + SLOT] == EncodeSlot(s)
    && s.size == |r.data| && s.seqNum == r.seqNum && s.store == r.store
    && if s.inlined then lo <= s.offset && s.offset + s.size <= hi && buf[s.offset..s.offset + s.size] == r.data
       else s.offset + s.size <= |oob| && oob[s.offset..s.offset + s.size] == r.data
  }

  ghost predicate Shape(g: Group) {
    && g.flush > 0 && |g.buf| >= INLINE_BUF && |g.buf| % g.flush == 0 && |g.foot| == RoundUp(FOOTER, g.flush)
    && |g.slots| <= g.max <= MAX_BATCH && HEADER + SLOT * g.max <= g.inlinePos
    && (g.slots != [] ==> g.inlinePos <= |g.buf|)
  }

  ghost predicate Inv(g: Group, recs: seq<Rec>, idx: nat) {
    && Shape(g) && |recs| == |g.slots|
    && (recs != [] ==> g.buf[12..20] == Encode(idx, 8))
    && forall i :: 0 <= i < |recs| ==>
         Found(g.buf, Concat(g.oob), HEADER + SLOT * g.max, g.inlinePos, i, g.slots[i], recs[i])
  }

  lemma ResetInv(flush: nat, optimal: nat, buf: seq<Byte>, foot: seq<Byte>, maxRecords: nat)
    requires flush > 0 && |buf| == RoundUp(INLINE_BUF, flush) && |foot| == RoundUp(FOOTER, flush)
    ensures forall idx :: Inv(Reset(flush, optimal, buf, foot, maxRecords), [], idx)
  {
    RoundUpIs(INLINE_BUF, flush);
  }

  // ---------- adding a record ----------

  lemma GrownShape(buf: seq<Byte>, needed: nat, flush: nat, junk: nat -> Byte)
    requires flush > 0 && |buf| >= INLINE_BUF && |buf| % flush == 0
    ensures var b := Grow(buf, needed, flush, junk);
            |b| >= needed && |b| >= |buf| && |b| % flush == 0 && b[..|buf|] == buf
  {
    hide RoundUp;
    RoundUpIs(if needed < 2 * |buf| then 2 * |buf| else needed, flush);
  }

  lemma FoundGrown(buf: seq<Byte>, b: seq<Byte>, oob: seq<Byte>, o: seq<Byte>, lo: nat, hi: nat, hi': nat, i: nat,
                   s: Slot, r: Rec)
    requires Found(buf, oob, lo, hi, i, s, r) && hi <= hi' <= |b|
    requires |buf| <= |b| && b[..|buf|] == buf && |oob| <= |o| && o[..|oob|] == oob
    ensures Found(b, o, lo, hi', i, s, r)
  {
    hide EncodeSlot;
    var at := HEADER + SLOT * i;
    PrefixSlice(buf, b, at, at + SLOT);
    if s.inlined {
      PrefixSlice(buf, b, s.offset, s.offset + s.size);
    } else {
      PrefixSlice(oob, o, s.offset, s.offset + s.size);
    }
  }

  /** A write between the slot and the data, or behind the data, changes nothing that is found. */
  lemma FoundPut(buf: seq<Byte>, oob: seq<Byte>, lo: nat, hi: nat, i: nat, s: Slot, r: Rec, pos: nat, b: seq<Byte>)
    requires Found(buf, oob, lo, hi, i, s, r) && pos + |b| <= |buf|
    requires (HEADER + SLOT * i + SLOT <= pos && pos + |b| <= lo) || hi <= pos
    ensures Found(Put(buf, pos, b), oob, lo, hi, i, s, r)
  {
    hide EncodeSlot, Splice;
    var at := HEADER + SLOT * i;
    SpliceBefore(buf, pos, b, at, at + SLOT);
    if s.inlined {
      if hi <= pos {
        SpliceBefore(buf, pos, b, s.offset, s.offset + s.size);
      } else {
        SpliceAfter(buf, pos, b, s.offset, s.offset + s.size);
      }
    }
  }

  /** The buffers add_record works through. */
  ghost function Buffer(g: Group, r: Rec, idx: nat, junk: nat -> Byte): seq<Byte>
    requires g.flush > 0
  {
    var needed := g.inlinePos + |r.data|;
    var b := if needed >= |g.buf| then Grow(g.buf, needed, g.flush, junk) else g.buf;
    if g.slots == [] then Put(b, 12, Encode(idx, 8)) else b
  }

  lemma BufferShape(g: Group, r: Rec, idx: nat, junk: nat -> Byte)
    requires Shape(g)
    ensures var b := Buffer(g, r, idx, junk);
            && |g.buf| <= |b| && |b| % g.flush == 0 && g.inlinePos + |r.data| <= |b|
            && (g.slots == [] ==> b[12..20] == Encode(idx, 8)) && (g.slots != [] ==> b[..|g.buf|] == g.buf)
  {
    hide Grow, Encode, RoundUp;
    var needed := g.inlinePos + |r.data|;
    GrownShape(g.buf, needed, g.flush, junk);
    var b := if needed >= |g.buf| then Grow(g.buf, needed, g.flush, junk) else g.buf;
    assert g.buf[..|g.buf|] == g.buf;
    SpliceParts(b, 12, Encode(idx, 8));
  }

  /** The slot of the new record is written behind the other slots, its data behind the other data. */
  lemma FoundAfter(b: seq<Byte>, oob: seq<Byte>, lo: nat, hi: nat, i: nat, s: Slot, r: Rec, n: nat, slot: Slot,
                   data: seq<Byte>)
    requires Found(b, oob, lo, hi, i, s, r) && i < n && HEADER + SLOT * n + SLOT <= lo && hi + |data| <= |b|
    ensures var b' := Put(b, HEADER + SLOT * n, EncodeSlot(slot));
            Found(b', oob, lo, hi, i, s, r) && Found(Put(b', hi, data), oob, lo, hi + |data|, i, s, r)
  {
    hide EncodeSlot, Put;
    var b' := Put(b, HEADER + SLOT * n, EncodeSlot(slot));
    FoundPut(b, oob, lo, hi, i, s, r, HEADER + SLOT * n, EncodeSlot(slot));
    FoundPut(b', oob, lo, hi, i, s, r, hi, data);
    FoundGrown(Put(b', hi, data), Put(b', hi, data), oob, oob, lo, hi, hi + |data|, i, s, r);
  }

  lemma OobGrows(oob: seq<seq<Byte>>, data: seq<Byte>)
    ensures Concat(oob + [data]) == Concat(oob) + data
  {
    assert (oob + [data])[..|oob|] == oob;
  }

  lemma NewInline(b: seq<Byte>, oob: seq<Byte>, lo: nat, hi: nat, n: nat, slot: Slot, r: Rec)
    requires HEADER + SLOT * n + SLOT <= lo <= hi && hi + |r.data| <= |b|
    requires slot == Slot(|r.data|, hi, true, r.seqNum, r.store)
    ensures Found(Put(Put(b, HEADER + SLOT * n, EncodeSlot(slot)), hi, r.data), oob, lo, hi + |r.data|, n, slot, r)
  {
    hide EncodeSlot, Splice;
    var at := HEADER + SLOT * n;
    var b' := Put(b, at, EncodeSlot(slot));
    SpliceParts(b, at, EncodeSlot(slot));
    SpliceParts(b', hi, r.data);
    SpliceBefore(b', hi, r.data, at, at + SLOT);
  }

  lemma NewOob(b: seq<Byte>, oob: seq<Byte>, lo: nat, hi: nat, n: nat, slot: Slot, r: Rec)
    requires HEADER + SLOT * n + SLOT <= lo <= hi <= |b|
    requires slot == Slot(|r.data|, |oob|, false, r.seqNum, r.store)
    ensures Found(Put(b, HEADER + SLOT * n, EncodeSlot(slot)), oob + r.data, lo, hi, n, slot, r)
  {
    hide EncodeSlot, Splice;
    SpliceParts(b, HEADER + SLOT * n, EncodeSlot(slot));
    assert (oob + r.data)[|oob|..|oob| + |r.data|] == r.data;
  }

  function NewSlot(g: Group, r: Rec): Slot
    requires g.flush > 0
  {
    var inl := Inlineable(g.flush, g.optimal, r);
    Slot(|r.data|, if inl then g.inlinePos else OobPos(g), inl, r.seqNum, r.store)
  }

  /** Records found before are found after; so is the new one. */
  lemma AddFinds(g: Group, recs: seq<Rec>, idx: nat, r: Rec, at: nat, junk: nat -> Byte, i: nat)
    requires Inv(g, recs, idx) && |g.slots| < g.max && i <= |recs|
    ensures var h := Add(g, r, at, junk).1;
            && |h.slots| == |recs| + 1
            && Found(h.buf, Concat(h.oob), HEADER + SLOT * g.max, h.inlinePos, i, h.slots[i], (recs + [r])[i])
  {
    hide Grow, Encode, EncodeSlot, Found, Put, RoundUp, Concat, Inlineable;
    var h := Add(g, r, at, junk).1;
    var n, lo, b, slot := |g.slots|, HEADER + SLOT * g.max, Buffer(g, r, at, junk), NewSlot(g, r);
    var oob, o := Concat(g.oob), Concat(h.oob);
    BufferShape(g, r, at, junk);
    OobGrows(g.oob, r.data);
    if i < n {
      FoundGrown(g.buf, b, oob, o, lo, g.inlinePos, g.inlinePos, i, g.slots[i], recs[i]);
      FoundAfter(b, o, lo, g.inlinePos, i, g.slots[i], recs[i], n, slot, r.data);
    } else if slot.inlined {
      NewInline(b, o, lo, g.inlinePos, n, slot, r);
    } else {
      NewOob(b, oob, lo, g.inlinePos, n, slot, r);
    }
  }

  lemma AddShape(g: Group, recs: seq<Rec>, idx: nat, r: Rec, at: nat, junk: nat -> Byte)
    requires Inv(g, recs, idx) && |g.slots| < g.max && (recs == [] ==> at == idx)
    ensures var (ok, h) := Add(g, r, at, junk); ok && Shape(h) && h.buf[12..20] == Encode(idx, 8) && h.max == g.max
  {
    hide Grow, Encode, EncodeSlot, Found, Splice, RoundUp, Concat, Inlineable;
    var n, b, slot := |g.slots|, Buffer(g, r, at, junk), NewSlot(g, r);
    BufferShape(g, r, at, junk);
    if n > 0 {
      PrefixSlice(g.buf, b, 12, 20);
    }
    var b' := Put(b, HEADER + SLOT * n, EncodeSlot(slot));
    SpliceBefore(b, HEADER + SLOT * n, EncodeSlot(slot), 12, 20);
    SpliceBefore(b', g.inlinePos, r.data, 12, 20);
  }

  /** A new record is found, and every record before it is still found. */
  lemma AddKeeps(g: Group, recs: seq<Rec>, idx: nat, r: Rec, at: nat, junk: nat -> Byte)
    requires Inv(g, recs, idx) && |g.slots| < g.max && (recs == [] ==> at == idx)
    ensures var (ok, h) := Add(g, r, at, junk); ok && Inv(h, recs + [r], idx)
  {
    hide Add, Found, Encode, Concat;
    AddShape(g, recs, idx, r, at, junk);
    forall i | 0 <= i < |recs| + 1
      ensures var h := Add(g, r, at, junk).1;
              && |h.slots| == |recs| + 1
              && Found(h.buf, Concat(h.oob), HEADER + SLOT * h.max, h.inlinePos, i, h.slots[i], (recs + [r])[i])
    {
      AddFinds(g, recs, idx, r, at, junk, i);
    }
    AddFinds(g, recs, idx, r, at, junk, 0);
  }
}
