/**
 The transaction journal as bytes: a header that counts records and bytes, and variable-size records
 behind it in a buffer that grows.
 */
module TxnJournal {

  import opened Bytes
  import opened Options
  import opened Replay
  import FlushGraph

  /** compact_blkid_t: block number and chunk, eight bytes with padding. */
  datatype BlkId = BlkId(blk: nat, chunk: nat)

  /** txn_record. */
  datatype TxnRec = TxnRec(ids: Record<BlkId>, meta: bool, level: nat, ordinal: nat)

  const JOURNAL_HEADER := 16
  const RECORD_HEADER := 8
  const ID := 8

  // ---------- records ----------

  function Count<T>(o: Option<T>): nat {
    if o.Some? then 1 else 0
  }

  function ListOf<T>(o: Option<T>): seq<T> {
    if o.Some? then [o.value] else []
  }

  /** The ids in the order they are appended. */
  function IdsOf(r: Record<BlkId>): seq<BlkId> {
    ListOf(r.parent) + ListOf(r.child) + r.created + r.freed
  }

  function EncodeId(id: BlkId): (r: seq<Byte>)
    ensures |r| == ID
  {
    Encode(id.blk, 4) + Encode(id.chunk, 2) + [0, 0]
  }

  function DecodeId(b: seq<Byte>): BlkId
    requires |b| == ID
  {
    BlkId(Decode(b[..4]), Decode(b[4..6]))
  }

  function EncodeIds(ids: seq<BlkId>): (r: seq<Byte>)
    ensures |r| == ID * |ids|
  {
    if ids == [] then [] else EncodeIds(ids[..|ids| - 1]) + EncodeId(ids[|ids| - 1])
  }

  const INDEXES := 256

  /** blk_id: its argument is one byte wide. */
  function IdIndex(k: nat): (i: nat)
    ensures i <= k
  {
    k % INDEXES
  }

  /** The ids of a record as process_txn_record reads them, one after the other. */
  function DecodeIds(b: seq<Byte>, n: nat): (r: seq<BlkId>)
    requires |b| >= ID * n
    ensures |r| == n
  {
    if n == 0 then []
    else DecodeIds(b, n - 1) + [DecodeId(b[ID * IdIndex(n - 1)..ID * IdIndex(n - 1) + ID])]
  }

  function Flags(r: TxnRec): nat {
    Count(r.ids.parent) + 2 * Count(r.ids.child) + (if r.meta then 4 else 0) + 8 * (r.level % 16)
  }

  function EncodeRec(r: TxnRec): (b: seq<Byte>)
    ensures |b| == RECORD_HEADER + ID * |IdsOf(r.ids)|
  {
    [ByteOf(Flags(r)), ByteOf(|r.ids.created|), ByteOf(|r.ids.freed|), 0]
    + Encode(r.ordinal, 4) + EncodeIds(IdsOf(r.ids))
  }

  /** The numbers in the first bytes of a record: flags, new ids, freed ids. */
  function TotalIds(b: seq<Byte>): nat
    requires |b| >= RECORD_HEADER
  {
    var flags := ValueOf(b[0]);
    ValueOf(b[1]) + ValueOf(b[2]) + flags % 2 + flags / 2 % 2
  }

  function SplitIds(ids: seq<BlkId>, parent: bool, child: bool, created: nat): Record<BlkId>
    requires |ids| >= (if parent then 1 else 0) + (if child then 1 else 0) + created
  {
    var p := if parent then 1 else 0;
    var c := p + if child then 1 else 0;
    Record(if parent then Some(ids[0]) else None, if child then Some(ids[p]) else None,
           ids[c..c + created], ids[c + created..])
  }

  function DecodeRec(b: seq<Byte>): Option<TxnRec>
    requires |b| >= RECORD_HEADER
  {
    var (flags, n) := (ValueOf(b[0]), TotalIds(b));
    if |b| < RECORD_HEADER + ID * n then None
    else
      var ids := DecodeIds(b[RECORD_HEADER..], n);
      Some(TxnRec(SplitIds(ids, flags % 2 == 1, flags / 2 % 2 == 1, ValueOf(b[1])),
                  flags / 4 % 2 == 1, flags / 8 % 16, Decode(b[4..8])))
  }

  ghost predicate IdFits(id: BlkId) {
    id.blk < 0x1_0000_0000 && id.chunk < 0x1_0000
  }

  ghost predicate RecFits(r: TxnRec) {
    && (forall i :: 0 <= i < |IdsOf(r.ids)| ==> IdFits(IdsOf(r.ids)[i]))
    && |r.ids.created| < 256 && |r.ids.freed| < 256 && r.level < 16 && r.ordinal < 0x1_0000_0000
  }

  lemma IdRoundTrip(id: BlkId)
    requires IdFits(id)
    ensures DecodeId(EncodeId(id)) == id
  {
    hide Encode, Decode;
    Ranges();
    assert Range(2) == 0x1_0000;
    RoundTrip(id.blk, 4);
    RoundTrip(id.chunk, 2);
    var b := EncodeId(id);
    assert b[..4] == Encode(id.blk, 4) && b[4..6] == Encode(id.chunk, 2);
  }

  /** The ids that come back: from the 257th on they start again. */
  function Indexed(ids: seq<BlkId>): (r: seq<BlkId>)
    ensures |r| == |ids| && forall k :: 0 <= k < |r| ==> r[k] == ids[IdIndex(k)]
  {
    seq(|ids|, k requires 0 <= k < |ids| => ids[IdIndex(k)])
  }

  lemma {:induction false} IdsRoundTrip(ids: seq<BlkId>, rest: seq<Byte>, n: nat)
    requires n <= |ids| && forall i :: 0 <= i < |ids| ==> IdFits(ids[i])
    ensures DecodeIds(EncodeIds(ids) + rest, n) == Indexed(ids)[..n]
    decreases n
  {
    hide EncodeId, DecodeId, IdIndex;
    if n > 0 {
      var k := IdIndex(n - 1);
      IdsRoundTrip(ids, rest, n - 1);
      IdAt(ids, k);
      IdRoundTrip(ids[k]);
      assert (EncodeIds(ids) + rest)[ID * k..ID * k + ID] == EncodeIds(ids)[ID * k..ID * k + ID];
    }
  }

  /** Every id behind the first 256 is the same as the one 256 places before it. */
  predicate Repeats(ids: seq<BlkId>) {
    forall k :: INDEXES <= k < |ids| ==> ids[k] == ids[k - INDEXES]
  }

  lemma IndexedIff(ids: seq<BlkId>)
    requires |ids| <= 2 * INDEXES
    ensures Indexed(ids) == ids <==> Repeats(ids)
  {
    assert forall k :: 0 <= k < |ids| ==> IdIndex(k) == if k < INDEXES then k else k - INDEXES;
    if Indexed(ids) == ids {
      forall k | INDEXES <= k < |ids|
        ensures ids[k] == ids[k - INDEXES]
      {
        assert Indexed(ids)[k] == ids[k - INDEXES];
      }
    }
  }

  lemma {:induction false} IdAt(ids: seq<BlkId>, k: nat)
    requires k < |ids|
    ensures EncodeIds(ids)[ID * k..ID * k + ID] == EncodeId(ids[k])
    decreases ids
  {
    hide EncodeId;
    var n := |ids| - 1;
    if k < n {
      IdAt(ids[..n], k);
      assert EncodeIds(ids)[ID * k..ID * k + ID] == EncodeIds(ids[..n])[ID * k..ID * k + ID];
    }
  }

  lemma SplitIs(r: Record<BlkId>)
    ensures SplitIds(IdsOf(r), r.parent.Some?, r.child.Some?, |r.created|) == r
  {
    var ids := IdsOf(r);
    var c := Count(r.parent) + Count(r.child);
    assert ids[c..c + |r.created|] == r.created;
    assert ids[c + |r.created|..] == r.freed;
  }

  lemma IdsOfSplit(ids: seq<BlkId>, parent: bool, child: bool, created: nat)
    requires |ids| >= (if parent then 1 else 0) + (if child then 1 else 0) + created
    ensures IdsOf(SplitIds(ids, parent, child, created)) == ids
  {
  }

  /** The record that recovery sees. */
  function AsRead(r: TxnRec): TxnRec {
    r.(ids := SplitIds(Indexed(IdsOf(r.ids)), r.ids.parent.Some?, r.ids.child.Some?, |r.ids.created|))
  }

  predicate ReadsBack(r: TxnRec) {
    Repeats(IdsOf(r.ids))
  }

  lemma AsReadIff(r: TxnRec)
    requires RecFits(r)
    ensures AsRead(r) == r <==> ReadsBack(r)
    ensures |IdsOf(r.ids)| <= INDEXES ==> ReadsBack(r)
  {
    hide SplitIds, IdsOf, Indexed, Repeats;
    var ids := IdsOf(r.ids);
    IdCount(r.ids);
    IndexedIff(ids);
    SplitIs(r.ids);
    IdsOfSplit(Indexed(ids), r.ids.parent.Some?, r.ids.child.Some?, |r.ids.created|);
    FewRepeat(ids);
  }

  lemma FewRepeat(ids: seq<BlkId>)
    ensures |ids| <= INDEXES ==> Repeats(ids)
  {
  }

  lemma FlagsAre(r: TxnRec)
    requires r.level < 16
    ensures var f := Flags(r);
            && f < 256 && (f % 2 == 1 <==> r.ids.parent.Some?) && (f / 2 % 2 == 1 <==> r.ids.child.Some?)
            && (f / 4 % 2 == 1 <==> r.meta) && f / 8 % 16 == r.level
  {
  }

  lemma RecParts(r: TxnRec, rest: seq<Byte>)
    ensures var b := EncodeRec(r) + rest;
            && b[0] == ByteOf(Flags(r)) && b[1] == ByteOf(|r.ids.created|) && b[2] == ByteOf(|r.ids.freed|)
            && b[4..8] == Encode(r.ordinal, 4) && b[RECORD_HEADER..] == EncodeIds(IdsOf(r.ids)) + rest
  {
    hide Encode, EncodeIds, ByteOf, Flags, IdsOf;
  }

  lemma SmallFlags(r: TxnRec)
    requires r.level < 16
    ensures Flags(r) < 256
  {
    hide Flags;
    FlagsAre(r);
  }

  lemma WordRoundTrip(n: nat)
    requires n < 0x1_0000_0000
    ensures Decode(Encode(n, 4)) == n
  {
    hide Encode, Decode;
    Ranges();
    RoundTrip(n, 4);
  }

  lemma RecBytes(r: TxnRec, rest: seq<Byte>)
    requires RecFits(r)
    ensures var b := EncodeRec(r) + rest;
            && ValueOf(b[0]) == Flags(r) && ValueOf(b[1]) == |r.ids.created| && ValueOf(b[2]) == |r.ids.freed|
            && Decode(b[4..8]) == r.ordinal
  {
    hide Encode, Decode, EncodeIds, EncodeRec, ByteOf, ValueOf, Flags, IdsOf;
    RecParts(r, rest);
    SmallFlags(r);
    ByteValue(Flags(r));
    ByteValue(|r.ids.created|);
    ByteValue(|r.ids.freed|);
    WordRoundTrip(r.ordinal);
  }

  lemma FlagBits(r: TxnRec)
    requires r.level < 16
    ensures Flags(r) % 2 + Flags(r) / 2 % 2 == Count(r.ids.parent) + Count(r.ids.child)
  {
    hide Flags;
    FlagsAre(r);
  }

  lemma RecNumbers(r: TxnRec, rest: seq<Byte>)
    requires RecFits(r)
    ensures var b := EncodeRec(r) + rest;
            && ValueOf(b[0]) == Flags(r) && ValueOf(b[1]) == |r.ids.created| && ValueOf(b[2]) == |r.ids.freed|
            && Decode(b[4..8]) == r.ordinal && TotalIds(b) == |IdsOf(r.ids)|
  {
    hide Encode, Decode, EncodeRec, ValueOf, Flags, IdsOf, Count;
    RecBytes(r, rest);
    FlagBits(r);
    IdCount(r.ids);
  }

  /** What recovery reads of a record, whatever follows it. It is the record if and only if the ids behind
      the first 256 repeat those before. */
  lemma RecRoundTrip(r: TxnRec, rest: seq<Byte>)
    requires RecFits(r)
    ensures DecodeRec(EncodeRec(r) + rest) == Some(AsRead(r)) && TotalIds(EncodeRec(r) + rest) == |IdsOf(r.ids)|
    ensures DecodeRec(EncodeRec(r) + rest) == Some(r) <==> ReadsBack(r)
    ensures |IdsOf(r.ids)| <= INDEXES ==> ReadsBack(r)
  {
    hide Encode, Decode, EncodeIds, DecodeIds, EncodeRec, ByteOf, ValueOf, Flags, IdsOf, SplitIds, TotalIds, Indexed,
         ReadsBack;
    var ids := IdsOf(r.ids);
    RecParts(r, rest);
    RecNumbers(r, rest);
    FlagsAre(r);
    IdsRoundTrip(ids, rest, |ids|);
    assert Indexed(ids)[..|ids|] == Indexed(ids);
    AsReadIff(r);
  }

  /** A record of `n` ids, all of them different. */
  function Numbered(n: nat): (r: TxnRec)
    requires INDEXES < n <= 2 * INDEXES
    ensures RecFits(r) && |IdsOf(r.ids)| == n && !ReadsBack(r)
  {
    var r := TxnRec(Record(Some(BlkId(0, 0)), Some(BlkId(1, 0)), Row(2, 255), Row(257, n - 257)), false, 0, 0);
    assert IdsOf(r.ids)[INDEXES] == BlkId(256, 0) != IdsOf(r.ids)[0];
    r
  }

  function Row(from: nat, n: nat): (ids: seq<BlkId>)
    ensures |ids| == n && forall i :: 0 <= i < n ==> ids[i] == BlkId(from + i, 0)
  {
    seq(n, i requires 0 <= i => BlkId(from + i, 0))
  }

  /** Every record of `n` ids is read back if and only if there are at most 256. */
  lemma ReadsBackIff(n: nat, rest: seq<Byte>)
    requires n <= 2 * INDEXES
    ensures (forall r :: RecFits(r) && |IdsOf(r.ids)| == n ==> DecodeRec(EncodeRec(r) + rest) == Some(r)) <==>
            n <= INDEXES
  {
    hide EncodeRec, DecodeRec, RecFits, ReadsBack, IdsOf, TotalIds;
    if n > INDEXES {
      RecRoundTrip(Numbered(n), rest);
    } else {
      forall r | RecFits(r) && |IdsOf(r.ids)| == n
        ensures DecodeRec(EncodeRec(r) + rest) == Some(r)
      {
        RecRoundTrip(r, rest);
      }
    }
  }

  lemma IdCount(r: Record<BlkId>)
    ensures |IdsOf(r)| == Count(r.parent) + Count(r.child) + |r.created| + |r.freed|
  {
  }

  lemma FewIds(r: TxnRec)
    requires RecFits(r)
    ensures |r.ids.created| + |r.ids.freed| <= 510
  {
  }

  // ---------- the journal ----------

  function Encoded(rs: seq<TxnRec>): (r: seq<seq<Byte>>)
    ensures |r| == |rs| && forall i :: 0 <= i < |r| ==> r[i] == EncodeRec(rs[i])
  {
    seq(|rs|, i requires 0 <= i < |rs| => EncodeRec(rs[i]))
  }

  function EncodeRecs(rs: seq<TxnRec>): seq<Byte> {
    Concat(Encoded(rs))
  }

  /** The loop of recover: `num` records from `at` on. */
  function ParseRecs(b: seq<Byte>, at: nat, num: nat): Option<seq<TxnRec>>
    decreases num
  {
    if num == 0 then Some([])
    else if at + RECORD_HEADER > |b| then None
    else
      var rec := DecodeRec(b[at..]);
      if rec == None then None
      else
        var rest := ParseRecs(b, at + RECORD_HEADER + ID * TotalIds(b[at..]), num - 1);
        if rest == None then None else Some([rec.value] + rest.value)
  }

  /** The checkpoint id and the records of a journal. */
  function Parse(b: seq<Byte>): Option<(nat, seq<TxnRec>)>
    requires |b| >= JOURNAL_HEADER
  {
    var rs := ParseRecs(b, JOURNAL_HEADER, Decode(b[8..12]));
    if rs == None then None else Some((Decode(b[..8]), rs.value))
  }

  /** What the buffer holds after the records `rs` of checkpoint `cp`. */
  ghost predicate Holds(b: seq<Byte>, cp: nat, rs: seq<TxnRec>) {
    var size := JOURNAL_HEADER + |EncodeRecs(rs)|;
    && 512 <= |b| && size <= |b| && cp < 0x1_0000_0000_0000_0000 && size < 0x1_0000_0000 && |rs| < 0x1_0000_0000
    && b[..8] == Encode(cp, 8) && b[8..12] == Encode(|rs|, 4) && b[12..16] == Encode(size, 4)
    && b[JOURNAL_HEADER..size] == EncodeRecs(rs)
    && forall i :: 0 <= i < |rs| ==> RecFits(rs[i])
  }

  lemma EncodeRecsFront(rs: seq<TxnRec>)
    requires rs != []
    ensures EncodeRecs(rs) == EncodeRec(rs[0]) + EncodeRecs(rs[1..])
  {
    hide EncodeRec, Concat;
    var es := Encoded(rs);
    ConcatSplit(es, 1);
    assert es[..1] == [EncodeRec(rs[0])] && es[1..] == Encoded(rs[1..]);
    ConcatOne(EncodeRec(rs[0]));
  }

  lemma EncodeRecsBack(rs: seq<TxnRec>, r: TxnRec)
    ensures EncodeRecs(rs + [r]) == EncodeRecs(rs) + EncodeRec(r)
  {
    hide EncodeRec;
    var es := Encoded(rs + [r]);
    assert es[..|rs|] == Encoded(rs) && es[|rs|] == EncodeRec(r);
  }

  /** The records of a journal as recovery sees them. */
  function AllAsRead(rs: seq<TxnRec>): (r: seq<TxnRec>)
    ensures |r| == |rs| && forall i :: 0 <= i < |r| ==> r[i] == AsRead(rs[i])
  {
    seq(|rs|, i requires 0 <= i < |rs| => AsRead(rs[i]))
  }

  lemma AllAsReadIff(rs: seq<TxnRec>)
    requires forall i :: 0 <= i < |rs| ==> RecFits(rs[i])
    ensures AllAsRead(rs) == rs <==> forall i :: 0 <= i < |rs| ==> ReadsBack(rs[i])
  {
    hide AsRead, RecFits, ReadsBack, IdsOf;
    forall i | 0 <= i < |rs|
      ensures AsRead(rs[i]) == rs[i] <==> ReadsBack(rs[i])
    {
      AsReadIff(rs[i]);
    }
    if AllAsRead(rs) == rs {
      forall i | 0 <= i < |rs|
        ensures ReadsBack(rs[i])
      {
        assert AllAsRead(rs)[i] == rs[i];
      }
    }
  }

  lemma {:induction false} ParsesRecs(before: seq<Byte>, rs: seq<TxnRec>, rest: seq<Byte>)
    requires forall i :: 0 <= i < |rs| ==> RecFits(rs[i])
    ensures ParseRecs(before + EncodeRecs(rs) + rest, |before|, |rs|) == Some(AllAsRead(rs))
    decreases rs
  {
    hide EncodeRec, DecodeRec, EncodeRecs, TotalIds, IdsOf, RecFits, AsRead, ReadsBack;
    if rs != [] {
      var b := before + EncodeRecs(rs) + rest;
      EncodeRecsFront(rs);
      var more := EncodeRecs(rs[1..]) + rest;
      assert b[|before|..] == EncodeRec(rs[0]) + more;
      RecRoundTrip(rs[0], more);
      ParsesRecs(before + EncodeRec(rs[0]), rs[1..], rest);
      assert b == before + EncodeRec(rs[0]) + EncodeRecs(rs[1..]) + rest;
      assert AllAsRead(rs) == [AsRead(rs[0])] + AllAsRead(rs[1..]);
    }
  }

  /** The journal parses to its records as far as they are read right: to exactly the records appended if
      and only if each of them reads back. */
  lemma ParsesBack(b: seq<Byte>, cp: nat, rs: seq<TxnRec>)
    requires Holds(b, cp, rs)
    ensures Parse(b) == Some((cp, AllAsRead(rs)))
    ensures Parse(b) == Some((cp, rs)) <==> forall i :: 0 <= i < |rs| ==> ReadsBack(rs[i])
  {
    hide Encode, Decode, EncodeRecs, ParseRecs, RecFits, AsRead, ReadsBack;
    AllAsReadIff(rs);
    var size := JOURNAL_HEADER + |EncodeRecs(rs)|;
    Ranges();
    RoundTrip(cp, 8);
    RoundTrip(|rs|, 4);
    assert b == b[..JOURNAL_HEADER] + EncodeRecs(rs) + b[size..];
    ParsesRecs(b[..JOURNAL_HEADER], rs, b[size..]);
  }

  // ---------- appending ----------

  /** size_for_num_ids: its argument is one byte wide. */
  function RecordSize(n: nat): nat {
    RECORD_HEADER + ID * (n % 256)
  }

  /** The length of the buffer once there should be room for a record of `n` ids. */
  function LengthFor(len: nat, size: nat, n: nat): nat {
    var needed := size + RecordSize(n);
    if len >= needed then len else len + if needed < 512 then 512 else needed
  }

  /** Records of `n` ids always fit the buffer that was made for them exactly when n is at most 255;
      with more, a fresh journal overruns. */
  lemma NeverOverrunsIff(n: nat)
    ensures (forall len: nat, size: nat :: 512 <= len && JOURNAL_HEADER <= size <= len ==>
               size + RECORD_HEADER + ID * n <= LengthFor(len, size, n)) <==> n <= 255
  {
    if n > 255 {
      assert JOURNAL_HEADER + RECORD_HEADER + ID * n > LengthFor(512, JOURNAL_HEADER, n);
    }
  }

  lemma SpliceTwice<T>(s: seq<T>, pos: nat, a: seq<T>, b: seq<T>)
    requires pos + |a| + |b| <= |s|
    ensures Splice(Splice(s, pos, a), pos + |a|, b) == Splice(s, pos, a + b)
  {
  }

  /** The buffer after the record and the two counters were written. */
  function Written(b: seq<Byte>, size: nat, num: nat, r: TxnRec): (w: seq<Byte>)
    requires JOURNAL_HEADER <= size && size + |EncodeRec(r)| <= |b|
    ensures |w| == |b|
  {
    Splice(Splice(Splice(b, size, EncodeRec(r)), 8, Encode(num, 4)), 12, Encode(size + |EncodeRec(r)|, 4))
  }

  lemma WrittenParts(b: seq<Byte>, size: nat, num: nat, r: TxnRec)
    requires JOURNAL_HEADER <= size && size + |EncodeRec(r)| <= |b|
    ensures var b', to := Written(b, size, num, r), size + |EncodeRec(r)|;
            && b'[..8] == b[..8] && b'[8..12] == Encode(num, 4) && b'[12..16] == Encode(to, 4)
            && b'[JOURNAL_HEADER..to] == b[JOURNAL_HEADER..size] + EncodeRec(r)
  {
    hide Encode, EncodeRec, Splice;
    var e, n, to := EncodeRec(r), Encode(num, 4), size + |EncodeRec(r)|;
    var x := Splice(b, size, e);
    var y := Splice(x, 8, n);
    var s := Encode(to, 4);
    SpliceParts(b, size, e);
    SpliceParts(x, 8, n);
    SpliceParts(y, 12, s);
    SpliceBefore(b, size, e, 0, 8);
    SpliceBefore(y, 12, s, 0, 8);
    SpliceBefore(y, 12, s, 8, 12);
    SpliceBefore(b, size, e, JOURNAL_HEADER, size);
    SpliceAfter(x, 8, n, JOURNAL_HEADER, to);
    SpliceAfter(y, 12, s, JOURNAL_HEADER, to);
    assert x[JOURNAL_HEADER..to] == x[JOURNAL_HEADER..size] + x[size..to];
  }

  lemma WrittenHolds(b: seq<Byte>, cp: nat, rs: seq<TxnRec>, r: TxnRec)
    requires Holds(b, cp, rs) && RecFits(r) && |rs| + 1 < 0x1_0000_0000
    requires JOURNAL_HEADER + |EncodeRecs(rs)| + |EncodeRec(r)| <= |b|
    requires JOURNAL_HEADER + |EncodeRecs(rs)| + |EncodeRec(r)| < 0x1_0000_0000
    ensures Holds(Written(b, JOURNAL_HEADER + |EncodeRecs(rs)|, |rs| + 1, r), cp, rs + [r])
  {
    hide Encode, EncodeRec, EncodeRecs, RecFits, Written;
    WrittenParts(b, JOURNAL_HEADER + |EncodeRecs(rs)|, |rs| + 1, r);
    EncodeRecsBack(rs, r);
  }

  /** A longer buffer with the same beginning. */
  lemma LongerHolds(b: seq<Byte>, c: seq<Byte>, cp: nat, rs: seq<TxnRec>)
    requires Holds(b, cp, rs) && |b| <= |c| && c[..|b|] == b
    ensures Holds(c, cp, rs)
  {
    hide Encode, EncodeRecs, RecFits;
    var size := JOURNAL_HEADER + |EncodeRecs(rs)|;
    PrefixSlice(b, c, 0, 8);
    PrefixSlice(b, c, 8, 12);
    PrefixSlice(b, c, 12, 16);
    PrefixSlice(b, c, JOURNAL_HEADER, size);
  }

  lemma HeaderHolds(memory: seq<Byte>, cp: nat)
    requires |memory| == 512 && cp < 0x1_0000_0000_0000_0000
    ensures Holds(
      Splice(Splice(Splice(memory, 0, Encode(cp, 8)), 8, Encode(0, 4)), 12, Encode(JOURNAL_HEADER, 4)), cp, [])
  {
    hide Encode;
  }

  class TxnJournalBuf {
    const cp: nat
    var buf: array?<Byte>
    ghost var recs: seq<TxnRec>

    ghost predicate Valid()
      reads this, buf
    {
      if buf == null then recs == [] && cp < 0x1_0000_0000_0000_0000 else Holds(buf[..], cp, recs)
    }

    constructor (id: nat)
      requires id < 0x1_0000_0000_0000_0000
      ensures Valid() && cp == id && recs == [] && buf == null
    {
      cp, buf, recs := id, null, [];
    }

    /** The buffer and its header, once. */
    method Create()
      requires Valid() && buf == null
      modifies this`buf
      ensures Valid() && fresh(buf) && buf != null && buf.Length == 512 && recs == []
    {
      hide Encode, Splice, Concat;
      var b := new Byte[512];
      ghost var memory := b[..];
      Copy(b, 0, Encode(cp, 8));
      Copy(b, 8, Encode(0, 4));
      Copy(b, 12, Encode(JOURNAL_HEADER, 4));
      buf := b;
      HeaderHolds(memory, cp);
    }

    /** Makes room for a record of `n` ids, as the size computation sees it. */
    method Reserve(n: nat)
      requires Valid() && buf != null
      modifies this`buf
      ensures Valid() && buf != null && (buf == old(buf) || fresh(buf))
      ensures buf.Length == LengthFor(old(buf.Length), JOURNAL_HEADER + |EncodeRecs(recs)|, n)
    {
      hide Encode, Decode, Splice, EncodeRecs;
      Ranges();
      RoundTrip(JOURNAL_HEADER + |EncodeRecs(recs)|, 4);
      var size := Decode(buf[12..16]);
      var needed := size + RecordSize(n);
      if buf.Length < needed {
        var more := new Byte[buf.Length + if needed < 512 then 512 else needed];
        var b := buf[..];
        ghost var memory := more[..];
        Copy(more, 0, b);
        SpliceParts(memory, 0, b);
        LongerHolds(b, more[..], cp, recs);
        buf := more;
      }
    }

    /** The length of the buffer before a record is appended. */
    ghost function Room(): nat
      reads this, buf
    {
      if buf == null then 512 else buf.Length
    }

    /** add_to_txn_journal: a child that is the parent is counted but not appended. `ok` is false where the
        code writes behind the buffer: exactly when the record is longer than the room that the one-byte
        count made for it. A record that fits and does not read back is appended like any other. */
    method AddToTxnJournal(ordinal: nat, parent: Option<BlkId>, child: Option<BlkId>, meta: bool, level: nat,
                           created: seq<BlkId>, freed: seq<BlkId>)
      returns (ok: bool, ghost rec: TxnRec)
      requires Valid()
      requires RecFits(RecordOf(ordinal, parent, child, meta, level, created, freed))
      requires |recs| + 1 < 0x1_0000_0000
      requires JOURNAL_HEADER + |EncodeRecs(recs)| + RECORD_HEADER + ID * 512 < 0x1_0000_0000
      modifies this, buf
      ensures Valid() && buf != null && (buf == old(buf) || fresh(buf))
      ensures rec == RecordOf(ordinal, parent, child, meta, level, created, freed)
      ensures var size, n := JOURNAL_HEADER + |EncodeRecs(old(recs))|,
                             Count(parent) + Count(child) + |created| + |freed|;
              && (ok <==> size + |EncodeRec(rec)| <= LengthFor(old(Room()), size, n))
              && (n <= 255 ==> ok) && Room() == LengthFor(old(Room()), size, n)
      ensures recs == if ok then old(recs) + [rec] else old(recs)
      ensures Parse(buf[..]) == Some((cp, AllAsRead(recs)))
      ensures Parse(buf[..]) == Some((cp, recs)) <==> forall i :: 0 <= i < |recs| ==> ReadsBack(recs[i])
    {
      hide Encode, Decode, Splice, EncodeRecs, EncodeRec, RecFits, Holds, Parse, IdsOf, ReadsBack, AllAsRead;
      var r := RecordOf(ordinal, parent, child, meta, level, created, freed);
      rec := r;
      if buf == null {
        Create();
      }
      Reserve(Count(parent) + Count(child) + |created| + |freed|);
      var size, num := ReadHeader();
      IdCount(r.ids);
      FewIds(r);
      var a := buf;
      if size + RECORD_HEADER + ID * |IdsOf(r.ids)| > a.Length {
        ParsesBack(a[..], cp, recs);
        return false, rec;
      }
      ok := true;
      ghost var b := a[..];
      WriteRec(a, size, r);
      Copy(a, 8, Encode(num + 1, 4));
      Copy(a, 12, Encode(size + RECORD_HEADER + ID * |IdsOf(r.ids)|, 4));
      WrittenHolds(b, cp, recs, r);
      recs := recs + [rec];
      ParsesBack(buf[..], cp, recs);
    }

    /** The two counters in the header. */
    method ReadHeader() returns (size: nat, num: nat)
      requires Valid() && buf != null
      ensures size == JOURNAL_HEADER + |EncodeRecs(recs)| <= buf.Length && num == |recs|
    {
      hide Encode, Decode, EncodeRecs;
      Ranges();
      RoundTrip(JOURNAL_HEADER + |EncodeRecs(recs)|, 4);
      RoundTrip(|recs|, 4);
      size, num := Decode(buf[12..16]), Decode(buf[8..12]);
    }
  }

  /** The append_guard: the fixed part of a record, then its ids one by one. */
  method WriteRec(a: array<Byte>, size: nat, r: TxnRec)
    requires size + |EncodeRec(r)| <= a.Length
    modifies a
    ensures a[..] == Splice(old(a[..]), size, EncodeRec(r))
  {
    hide Encode, Splice, EncodeIds, EncodeId, ByteOf, Flags, IdsOf;
    var ids := IdsOf(r.ids);
    ghost var b := a[..];
    var head := [ByteOf(Flags(r)), ByteOf(|r.ids.created|), ByteOf(|r.ids.freed|), 0] + Encode(r.ordinal, 4);
    Copy(a, size, head);
    NoIds(head);
    assert ids[..0] == [] && ids[..|ids|] == ids;
    for k := 0 to |ids|
      invariant a[..] == Splice(b, size, head + EncodeIds(ids[..k]))
    {
      SpliceTwice(b, size, head + EncodeIds(ids[..k]), EncodeId(ids[k]));
      EncodeIdsStep(head, ids, k);
      Copy(a, size + RECORD_HEADER + ID * k, EncodeId(ids[k]));
    }
  }

  lemma NoIds(head: seq<Byte>)
    ensures head + EncodeIds([]) == head
  {
  }

  lemma EncodeIdsStep(head: seq<Byte>, ids: seq<BlkId>, k: nat)
    requires k < |ids|
    ensures head + EncodeIds(ids[..k]) + EncodeId(ids[k]) == head + EncodeIds(ids[..k + 1])
  {
    hide EncodeId;
    assert ids[..k + 1][..k] == ids[..k];
  }

  /** The record that is appended for these arguments. */
  function RecordOf(ordinal: nat, parent: Option<BlkId>, child: Option<BlkId>, meta: bool, level: nat,
                    created: seq<BlkId>, freed: seq<BlkId>): TxnRec {
    TxnRec(Record(parent, if child == parent then None else child, created, freed),
           meta && parent.Some?, if freed == [] then 0 else level, ordinal)
  }

  // ---------- from bytes to graph ----------

  /** The key of a buffer in the map the replay fills. The superblock's buffer of a table has no block of
      its own and is told apart by the table's ordinal. */
  datatype Key = Meta(ordinal: nat) | Node(id: BlkId)

  function Nodes(ids: seq<BlkId>): (r: seq<Key>)
    ensures |r| == |ids| && forall i :: 0 <= i < |r| ==> r[i] == Node(ids[i])
  {
    seq(|ids|, i requires 0 <= i < |ids| => Node(ids[i]))
  }

  function KeyOf(rec: TxnRec, id: Option<BlkId>, meta: bool): Option<Key> {
    if id == None then None else if meta then Some(Meta(rec.ordinal)) else Some(Node(id.value))
  }

  /** A record with the keys that rec_to_buf looks up. */
  function Keyed(rec: TxnRec): Record<Key> {
    Record(KeyOf(rec, rec.ids.parent, rec.meta), KeyOf(rec, rec.ids.child, false),
           Nodes(rec.ids.created), Nodes(rec.ids.freed))
  }

  function Replayable(rs: seq<TxnRec>): (r: seq<Record<Key>>)
    ensures |r| == |rs| && forall i :: 0 <= i < |r| ==> r[i] == Keyed(rs[i])
  {
    seq(|rs|, i requires 0 <= i < |rs| => Keyed(rs[i]))
  }

  /** What the replay marks as freed stays so. */
  lemma {:induction false} FreedsFreed(r: Option<Replayed<Key>>, up: Option<Key>, bs: seq<Key>, x: Key)
    requires x in bs
    ensures var h := ReplayFreeds(r, up, bs); h.Some? ==> x in h.value.g && h.value.g[x].freed
  {
    hide RecToBuf;
    var n := |bs| - 1;
    var q := ReplayFreeds(r, up, bs[..n]);
    if x != bs[n] {
      FreedsFreed(r, up, bs[..n], x);
      FreedKept(q, bs[n], up, x);
    }
  }

  lemma FreedKept(r: Option<Replayed<Key>>, b: Key, up: Option<Key>, x: Key)
    requires r.Some? ==> x in r.value.g && r.value.g[x].freed
    ensures var h := RecToBuf(r, b, up); h.Some? ==> x in h.value.g && h.value.g[x].freed
  {
  }

  /** What a record of too many ids does to the recovered graph: when its 257th id is that of a freed node it
      is taken for the first one, so the parent (or the child, if no parent is named), which the transaction
      left alone, is marked as freed. */
  lemma FirstIsFreed(r: Option<Replayed<Key>>, rec: TxnRec)
    requires !rec.meta && |IdsOf(rec.ids)| > INDEXES >= |IdsOf(rec.ids)| - |rec.ids.freed|
    ensures var h := ReplayRecord(r, Keyed(AsRead(rec)));
            h.Some? ==> Node(IdsOf(rec.ids)[0]) in h.value.g && h.value.g[Node(IdsOf(rec.ids)[0])].freed
  {
    hide RecToBuf, ReplayNews, ReplayFreeds;
    var ids, k := IdsOf(rec.ids), Keyed(AsRead(rec));
    var i := INDEXES - (|ids| - |rec.ids.freed|);
    assert AsRead(rec).ids.freed[i] == Indexed(ids)[INDEXES] == ids[0];
    assert k.freed[i] == Node(ids[0]);
    var up := if k.child.Some? then k.child else k.parent;
    var r1 := if k.child.Some? then RecToBuf(r, k.child.value, k.parent) else r;
    FreedsFreed(ReplayNews(r1, up, k.created), up, k.freed, Node(ids[0]));
  }

  /** Recovery from the bytes of the journal, for any number of tables. The records come back if and only if
      each of them reads back. Then what is parsed, replayed and relinked puts every surviving buffer below
      its nearest surviving ancestor in the graph that the checkpoint had built. */
  lemma RecoveredFromBytes(b: seq<Byte>, cp: nat, rs: seq<TxnRec>, g: FlushGraph.Graph<Key>, depth: map<Key, nat>,
                           ts: seq<Txn<Key>>, order: seq<Key>)
    requires Holds(b, cp, rs) && Replayable(rs) == RunTxns(g, cp, ts).1
    requires NoLinks(g, depth) && (forall x :: x in g ==> g[x].createdCp <= cp) && TxnsOk(g, cp, depth, ts)
    requires forall x :: x in order <==> x in g
    ensures Parse(b) == Some((cp, AllAsRead(rs)))
    ensures Parse(b) == Some((cp, rs)) <==> forall i :: 0 <= i < |rs| ==> ReadsBack(rs[i])
    ensures (forall i :: 0 <= i < |rs| ==> ReadsBack(rs[i])) ==>
              Restores(RunTxns(g, cp, ts).0, cp, depth, Displaced(g, cp, depth, ts),
                       ReplayAll(Some(EmptyReplay(g, cp)), Replayable(Parse(b).value.1)), order)
  {
    hide Holds, Parse, RunTxns, ReplayAll, NoLinks, TxnsOk, Displaced, Replayable, AllAsRead, ReadsBack, Restores;
    ParsesBack(b, cp, rs);
    RecoveredGraph(g, cp, depth, ts, order);
  }

  // ---------- a record that fits and does not read back ----------

  lemma RowFits(from: nat, n: nat)
    requires from + n < 0x1_0000_0000
    ensures forall i :: 0 <= i < n ==> IdFits(Row(from, n)[i])
  {
  }

  lemma NewsOnly(created: seq<BlkId>)
    requires |created| <= 255 && forall i :: 0 <= i < |created| ==> IdFits(created[i])
    ensures var r := RecordOf(0, None, None, false, 0, created, []);
            RecFits(r) && |IdsOf(r.ids)| == |created| && |EncodeRec(r)| == RECORD_HEADER + ID * |created|
  {
  }

  /** Two records of 255 ids make the buffer grow so far that a third one of 257 ids finds room. It is
      journaled without complaint, and recovery reads another record. */
  method JournaledButMisread() returns (ok: bool, j: TxnJournalBuf)
    ensures ok && j.buf != null && j.buf.Length >= JOURNAL_HEADER && |j.recs| == 3 && |IdsOf(j.recs[2].ids)| == 257
    ensures Parse(j.buf[..]) != Some((j.cp, j.recs))
  {
    hide EncodeRec, EncodeRecs, RecFits, IdsOf, Parse, AllAsRead, ReadsBack, IdFits, Row, Holds;
    j := new TxnJournalBuf(1);
    NoRecs();
    var row := Row(1, 255);
    RowFits(1, 255);
    NewsOnly(row);
    ghost var rec: TxnRec;
    var big := Numbered(257);
    ok, rec := j.AddToTxnJournal(0, None, None, false, 0, row, []);
    EncodeRecsBack([], rec);
    assert [] + [rec] == [rec];
    assert |EncodeRecs(j.recs)| == 2048 && j.Room() == 2576;
    ok, rec := j.AddToTxnJournal(0, None, None, false, 0, row, []);
    EncodeRecsBack([rec], rec);
    assert j.recs == [rec] + [rec];
    assert |EncodeRecs(j.recs)| == 4096 && j.Room() == 6688;
    assert RecordOf(0, big.ids.parent, big.ids.child, false, 0, big.ids.created, big.ids.freed) == big;
    ok, rec := j.AddToTxnJournal(0, big.ids.parent, big.ids.child, false, 0, big.ids.created, big.ids.freed);
    assert rec == big;
    assert j.recs[2] == big;
  }

  lemma NoRecs()
    ensures EncodeRecs([]) == []
  {
  }
}
