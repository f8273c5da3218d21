/**
 The read tracker: frees wait for the reads that were under way when they came. Reads and frees are
 kept in records of aligned groups of blocks; a waiter is shared by all records it is attached to, and
 its callback runs when the last reference to it goes away.

 Every operation works record by record, and operations of other threads may come in between, so each
 record access is one step of the machine below.
 */
module ReadTracker {

  import opened Sequences
  import opened Arithmetic

  // ---------- keys ----------

  /** The first block of an aligned group, with its chunk. */
  datatype Key = Key(chunk: nat, base: nat)

  datatype BlkId = BlkId(blk: nat, count: nat, chunk: nat)

  function KeysFrom(chunk: nat, cur: nat, last: nat, size: nat): seq<Key>
    requires size > 0
    decreases last + 1 - cur
  {
    if cur > last then [] else [Key(chunk, cur)] + KeysFrom(chunk, cur + size, last, size)
  }

  /** The records that a run of blocks touches. */
  function KeysOf(b: BlkId, size: nat): seq<Key>
    requires size > 0 && b.count > 0
  {
    KeysFrom(b.chunk, RoundDown(b.blk, size), RoundDown(b.blk + b.count - 1, size), size)
  }

  lemma {:induction false} KeyAmong(chunk: nat, cur: nat, last: nat, size: nat, k: nat)
    requires size > 0 && cur + k * size <= last
    ensures Key(chunk, cur + k * size) in KeysFrom(chunk, cur, last, size)
    decreases k
  {
    if k > 0 {
      assert cur + size + (k - 1) * size == cur + k * size;
      assert (k - 1) * size >= 0;
      KeyAmong(chunk, cur + size, last, size, k - 1);
    }
  }

  /** From one aligned group to a later one in whole steps. */
  lemma StepsBetween(a: nat, x: nat, size: nat) returns (k: nat)
    requires size > 0 && a <= x
    ensures RoundDown(x, size) == RoundDown(a, size) + k * size
  {
    DivMonotone(a, x, size);
    k := x / size - a / size;
    assert a / size * size + (x / size - a / size) * size == x / size * size;
  }

  lemma RoundDownMonotone(a: nat, b: nat, size: nat)
    requires size > 0 && a <= b
    ensures RoundDown(a, size) <= RoundDown(b, size)
  {
    DivMonotone(a, b, size);
    assert (b / size - a / size) * size >= 0;
  }

  /** Runs that share a block share a record. */
  lemma SharedBlock(a: BlkId, size: nat, x: nat)
    requires size > 0 && a.count > 0 && a.blk <= x < a.blk + a.count
    ensures Key(a.chunk, RoundDown(x, size)) in KeysOf(a, size)
  {
    hide RoundDown, KeysFrom;
    var last := a.blk + a.count - 1;
    RoundDownMonotone(x, last, size);
    var k := StepsBetween(a.blk, x, size);
    KeyAmong(a.chunk, RoundDown(a.blk, size), RoundDown(last, size), size, k);
  }

  lemma {:induction false} KeysAscend(chunk: nat, cur: nat, last: nat, size: nat)
    requires size > 0
    ensures Ascending(KeysFrom(chunk, cur, last, size), cur)
    decreases last + 1 - cur
  {
    if cur <= last {
      var rest := KeysFrom(chunk, cur + size, last, size);
      KeysAscend(chunk, cur + size, last, size);
      AscendingFront(Key(chunk, cur), rest, cur + size);
    }
  }

  ghost predicate Ascending(keys: seq<Key>, from: nat) {
    && (forall i :: 0 <= i < |keys| ==> from <= keys[i].base)
    && (forall i, j :: 0 <= i < j < |keys| ==> keys[i].base < keys[j].base)
  }

  lemma AscendingFront(k: Key, rest: seq<Key>, from: nat)
    requires Ascending(rest, from) && k.base < from
    ensures Ascending([k] + rest, k.base)
  {
  }

  /** A run touches each of its records once. */
  lemma KeysDistinct(b: BlkId, size: nat)
    requires size > 0 && b.count > 0
    ensures Distinct(KeysOf(b, size))
  {
    KeysAscend(b.chunk, RoundDown(b.blk, size), RoundDown(b.blk + b.count - 1, size), size);
  }

  /** The pieces of a MultiBlkId; a piece has at least one block. */
  predicate Pieces(runs: seq<BlkId>) {
    forall i :: 0 <= i < |runs| ==> runs[i].count > 0
  }

  /** The records that the pieces touch, one piece after the other. Pieces may share a record. */
  function KeysOfAll(runs: seq<BlkId>, size: nat): seq<Key>
    requires size > 0 && Pieces(runs)
  {
    if runs == [] then [] else KeysOfAll(runs[..|runs| - 1], size) + KeysOf(runs[|runs| - 1], size)
  }

  lemma {:induction false} PieceAmong(runs: seq<BlkId>, size: nat, i: nat, k: Key)
    requires size > 0 && Pieces(runs) && i < |runs| && k in KeysOf(runs[i], size)
    ensures k in KeysOfAll(runs, size)
    decreases runs
  {
    hide KeysOf;
    if i < |runs| - 1 {
      PieceAmong(runs[..|runs| - 1], size, i, k);
    }
  }

  // ---------- records ----------

  /** BlkTrackRecord. */
  datatype Rec = Rec(count: int, waiters: seq<nat>)

  type Records = map<Key, Rec>

  function AddRef(recs: Records, k: Key): Records {
    if k in recs then recs[k := recs[k].(count := recs[k].count + 1)] else recs[k := Rec(1, [])]
  }

  /** The record goes away with its last reference, and its waiters with it. */
  function DropRef(recs: Records, k: Key): Records
    requires k in recs
  {
    if recs[k].count == 1 then recs - {k} else recs[k := recs[k].(count := recs[k].count - 1)]
  }

  function Attach(recs: Records, k: Key, w: nat): Records {
    if k in recs then recs[k := recs[k].(waiters := recs[k].waiters + [w])] else recs
  }

  ghost predicate Referenced(recs: Records, w: nat) {
    exists k :: k in recs && w in recs[k].waiters
  }

  // ---------- the machine ----------

  /** A read of a run of blocks: keys [..ins) were inserted, [..rem) removed again. */
  datatype Read = Read(run: BlkId, keys: seq<Key>, ins: nat, rem: nat)

  /** A free of several runs of blocks with one callback: keys [..pos) were looked at. `since`: history,
      the reads under way when it began. */
  datatype Wait = Wait(runs: seq<BlkId>, keys: seq<Key>, pos: nat, ended: bool, since: set<nat>)

  /** `size`: the blocks of a record. `fired` counts the callbacks run. */
  datatype State = State(size: nat, recs: Records, pend: map<nat, Read>, waits: map<nat, Wait>, fired: multiset<nat>)

  datatype Step =
    | BeginRead(r: nat, run: BlkId)
    | InsertKey(r: nat)
    | RemoveKey(r: nat)
    | BeginWait(w: nat, runs: seq<BlkId>)
    | WaitKey(w: nat)
    | EndWait(w: nat)

  /** Read `r` has an uncounted reference on key `k`. */
  ghost predicate Holds(read: Read, k: Key) {
    exists i :: read.rem <= i < read.ins <= |read.keys| && read.keys[i] == k
  }

  ghost function Holders(pend: map<nat, Read>, k: Key): set<nat> {
    set r | r in pend && Holds(pend[r], k)
  }

  /** Reads that are under way: inserted and not yet being removed. */
  ghost function Underway(pend: map<nat, Read>): set<nat> {
    set r | r in pend && pend[r].rem == 0 && pend[r].ins == |pend[r].keys|
  }

  ghost predicate Enabled(s: State, step: Step) {
    match step
    case BeginRead(r, b) => r !in s.pend && s.size > 0 && b.count > 0
    case InsertKey(r) => r in s.pend && s.pend[r].rem == 0 && s.pend[r].ins < |s.pend[r].keys|
    case RemoveKey(r) => r in s.pend && s.pend[r].rem < s.pend[r].ins == |s.pend[r].keys|
    case BeginWait(w, bs) => w !in s.waits && s.size > 0 && Pieces(bs)
    case WaitKey(w) => w in s.waits && s.waits[w].pos < |s.waits[w].keys|
    case EndWait(w) => w in s.waits && s.waits[w].pos == |s.waits[w].keys| && !s.waits[w].ended
  }

  /** The waiters whose last reference goes away when `recs` becomes `recs'`. */
  ghost function Released(recs: Records, recs': Records, waits: map<nat, Wait>): set<nat> {
    set w | w in waits && waits[w].ended && Referenced(recs, w) && !Referenced(recs', w)
  }

  ghost function Apply(s: State, step: Step): State {
    if !Enabled(s, step) then s
    else
      match step
      case BeginRead(r, b) => s.(pend := s.pend[r := Read(b, KeysOf(b, s.size), 0, 0)])
      case InsertKey(r) =>
        var d := s.pend[r];
        s.(recs := AddRef(s.recs, d.keys[d.ins]), pend := s.pend[r := d.(ins := d.ins + 1)])
      case RemoveKey(r) =>
        var d := s.pend[r];
        var recs := if d.keys[d.rem] in s.recs then DropRef(s.recs, d.keys[d.rem]) else s.recs;
        s.(recs := recs, pend := s.pend[r := d.(rem := d.rem + 1)],
           fired := s.fired + multiset(Released(s.recs, recs, s.waits)))
      case BeginWait(w, bs) =>
        s.(waits := s.waits[w := Wait(bs, KeysOfAll(bs, s.size), 0, false, Underway(s.pend))])
      case WaitKey(w) =>
        var d := s.waits[w];
        s.(recs := Attach(s.recs, d.keys[d.pos], w), waits := s.waits[w := d.(pos := d.pos + 1)])
      case EndWait(w) =>
        s.(waits := s.waits[w := s.waits[w].(ended := true)],
           fired := if Referenced(s.recs, w) then s.fired else s.fired + multiset{w})
  }

  ghost function Exec(s: State, steps: seq<Step>): State {
    if steps == [] then s else Apply(Exec(s, steps[..|steps| - 1]), steps[|steps| - 1])
  }

  // ---------- the invariant ----------

  /** Every record counts the reads that hold its key, and there is one for each such key. */
  ghost predicate Counted(recs: Records, pend: map<nat, Read>) {
    && (forall r :: r in pend ==> Distinct(pend[r].keys) && pend[r].rem <= pend[r].ins <= |pend[r].keys|)
    && (forall k :: k in recs ==> recs[k].count == |Holders(pend, k)| > 0)
    && (forall k :: k !in recs ==> Holders(pend, k) == {})
  }

  /** A callback has run once for each free that ended and is attached nowhere any more, and for no other. */
  ghost predicate Fired(recs: Records, waits: map<nat, Wait>, fired: multiset<nat>) {
    && (forall w :: w in waits ==>
         waits[w].pos <= |waits[w].keys| && (waits[w].ended ==> waits[w].pos == |waits[w].keys|))
    && (forall w :: Referenced(recs, w) ==> w in waits)
    && (forall w :: fired[w] == if w in waits && waits[w].ended && !Referenced(recs, w) then 1 else 0)
  }

  /** A free has looked at key `k`. */
  ghost predicate Seen(wait: Wait, k: Key) {
    exists j :: 0 <= j < wait.pos <= |wait.keys| && wait.keys[j] == k
  }

  ghost predicate AttachedTo(recs: Records, k: Key, w: nat) {
    k in recs && w in recs[k].waiters
  }

  /** A free is attached to every key it has looked at that is held by a read from before it began. */
  ghost predicate Guarded(recs: Records, pend: map<nat, Read>, waits: map<nat, Wait>) {
    && (forall w :: w in waits ==> waits[w].since <= pend.Keys)
    && (forall w, r, k :: w in waits && r in waits[w].since && r in pend && Holds(pend[r], k) && Seen(waits[w], k) ==>
         AttachedTo(recs, k, w))
  }

  /** Reads from before a free were fully inserted when it began, and stay so. */
  ghost predicate Inserted(pend: map<nat, Read>, waits: map<nat, Wait>) {
    forall w, r :: w in waits && r in waits[w].since && r in pend ==> pend[r].ins == |pend[r].keys|
  }

  /** Reads and frees go through the records of their runs. */
  ghost predicate Runs(size: nat, pend: map<nat, Read>, waits: map<nat, Wait>) {
    && (forall r :: r in pend ==> size > 0 && pend[r].run.count > 0 && pend[r].keys == KeysOf(pend[r].run, size))
    && (forall w :: w in waits ==> size > 0 && Pieces(waits[w].runs) && waits[w].keys == KeysOfAll(waits[w].runs, size))
  }

  ghost predicate Inv(s: State) {
    && Runs(s.size, s.pend, s.waits) && Counted(s.recs, s.pend) && Fired(s.recs, s.waits, s.fired)
    && Guarded(s.recs, s.pend, s.waits) && Inserted(s.pend, s.waits)
  }

  // ---------- counting ----------

  lemma HoldersWithout(pend: map<nat, Read>, r: nat, d: Read, k: Key)
    requires r in pend
    ensures Holders(pend[r := d], k) == (Holders(pend, k) - {r}) + if Holds(d, k) then {r} else {}
  {
  }

  lemma InsertCounted(recs: Records, pend: map<nat, Read>, r: nat)
    requires Counted(recs, pend) && r in pend && pend[r].rem == 0 && pend[r].ins < |pend[r].keys|
    ensures var d := pend[r]; Counted(AddRef(recs, d.keys[d.ins]), pend[r := d.(ins := d.ins + 1)])
  {
    hide Holders;
    var d := pend[r];
    var x, e := d.keys[d.ins], d.(ins := d.ins + 1);
    forall k: Key
      ensures k != x ==> Holders(pend[r := e], k) == Holders(pend, k)
      ensures k == x ==> Holders(pend[r := e], k) == Holders(pend, k) + {r} && r !in Holders(pend, k)
    {
      InsertHolders(pend, r, k);
    }
  }

  lemma InsertHolders(pend: map<nat, Read>, r: nat, k: Key)
    requires r in pend && Distinct(pend[r].keys) && pend[r].rem == 0 && pend[r].ins < |pend[r].keys|
    ensures var d := pend[r];
            var e := d.(ins := d.ins + 1);
            && (k != d.keys[d.ins] ==> Holders(pend[r := e], k) == Holders(pend, k))
            && (k == d.keys[d.ins] ==> Holders(pend[r := e], k) == Holders(pend, k) + {r} && r !in Holders(pend, k))
  {
    var d := pend[r];
    var e := d.(ins := d.ins + 1);
    HoldersWithout(pend, r, e, k);
    if k == d.keys[d.ins] {
      assert e.keys[d.ins] == k;
    } else {
      HoldsSame(d, e, k);
    }
  }

  lemma HoldsSame(d: Read, e: Read, k: Key)
    requires d.keys == e.keys && d.rem <= e.rem <= |d.keys| && d.ins <= e.ins <= |d.keys|
    requires forall i :: d.rem <= i < e.rem ==> d.keys[i] != k
    requires forall i :: d.ins <= i < e.ins ==> d.keys[i] != k
    requires e.rem <= d.ins
    ensures Holds(d, k) <==> Holds(e, k)
  {
    if Holds(d, k) {
      var i :| d.rem <= i < d.ins <= |d.keys| && d.keys[i] == k;
      assert e.keys[i] == k;
    }
    if Holds(e, k) {
      var i :| e.rem <= i < e.ins <= |e.keys| && e.keys[i] == k;
      assert d.keys[i] == k;
    }
  }

  lemma RemoveHolders(pend: map<nat, Read>, r: nat, k: Key)
    requires r in pend && Distinct(pend[r].keys) && pend[r].rem < pend[r].ins == |pend[r].keys|
    ensures var d := pend[r];
            var e := d.(rem := d.rem + 1);
            && (k != d.keys[d.rem] ==> Holders(pend[r := e], k) == Holders(pend, k))
            && (k == d.keys[d.rem] ==> Holders(pend[r := e], k) == Holders(pend, k) - {r} && r in Holders(pend, k))
  {
    var d := pend[r];
    var e := d.(rem := d.rem + 1);
    HoldersWithout(pend, r, e, k);
    if k == d.keys[d.rem] {
      assert Holds(d, k);
      assert !Holds(e, k);
    } else {
      HoldsSame(d, e, k);
    }
  }

  lemma RemoveCounted(recs: Records, pend: map<nat, Read>, r: nat)
    requires Counted(recs, pend) && r in pend && pend[r].rem < pend[r].ins == |pend[r].keys|
    ensures var d := pend[r];
            d.keys[d.rem] in recs && Counted(DropRef(recs, d.keys[d.rem]), pend[r := d.(rem := d.rem + 1)])
  {
    hide Holders;
    var d := pend[r];
    var x, e := d.keys[d.rem], d.(rem := d.rem + 1);
    forall k: Key
      ensures k != x ==> Holders(pend[r := e], k) == Holders(pend, k)
      ensures k == x ==> Holders(pend[r := e], k) == Holders(pend, k) - {r} && r in Holders(pend, k)
    {
      RemoveHolders(pend, r, k);
    }
    OnlyOne(Holders(pend, x), r);
  }

  lemma OnlyOne(s: set<nat>, r: nat)
    requires r in s
    ensures |s - {r}| == |s| - 1 && (|s| == 1 <==> s - {r} == {})
  {
    assert s == (s - {r}) + {r};
  }

  lemma BeginCounted(recs: Records, pend: map<nat, Read>, r: nat, d: Read)
    requires Counted(recs, pend) && r !in pend && Distinct(d.keys) && d.ins == d.rem == 0
    ensures Counted(recs, pend[r := d])
  {
    forall k: Key
      ensures Holders(pend[r := d], k) == Holders(pend, k)
    {
    }
  }

  // ---------- callbacks ----------

  lemma ReferencedAfter(recs: Records, k: Key, w: nat)
    ensures Referenced(AddRef(recs, k), w) <==> Referenced(recs, w)
    ensures k in recs && Referenced(DropRef(recs, k), w) ==> Referenced(recs, w)
  {
    var a := AddRef(recs, k);
    if Referenced(recs, w) {
      var i :| i in recs && w in recs[i].waiters;
      assert i in a && w in a[i].waiters;
    }
    if Referenced(a, w) {
      var i :| i in a && w in a[i].waiters;
      assert i in recs && w in recs[i].waiters;
    }
    if k in recs && Referenced(DropRef(recs, k), w) {
      var d := DropRef(recs, k);
      var i :| i in d && w in d[i].waiters;
      assert i in recs && w in recs[i].waiters;
    }
  }

  lemma ReferencedAttach(recs: Records, k: Key, w: nat, v: nat)
    ensures v != w ==> (Referenced(Attach(recs, k, w), v) <==> Referenced(recs, v))
  {
    var a := Attach(recs, k, w);
    if Referenced(recs, v) {
      var i :| i in recs && v in recs[i].waiters;
      assert i in a && v in a[i].waiters;
    }
    if v != w && Referenced(a, v) {
      var i :| i in a && v in a[i].waiters;
      assert i in recs && v in recs[i].waiters;
    }
  }

  lemma InsertFired(recs: Records, waits: map<nat, Wait>, fired: multiset<nat>, k: Key)
    requires Fired(recs, waits, fired)
    ensures Fired(AddRef(recs, k), waits, fired)
  {
    hide Referenced, AddRef;
    forall w: nat
      ensures Referenced(AddRef(recs, k), w) <==> Referenced(recs, w)
    {
      ReferencedAfter(recs, k, w);
    }
  }

  lemma RemoveFired(recs: Records, waits: map<nat, Wait>, fired: multiset<nat>, k: Key)
    requires Fired(recs, waits, fired) && k in recs
    ensures Fired(DropRef(recs, k), waits, fired + multiset(Released(recs, DropRef(recs, k), waits)))
  {
    hide Referenced, DropRef;
    forall w: nat
      ensures Referenced(DropRef(recs, k), w) ==> Referenced(recs, w)
    {
      ReferencedAfter(recs, k, w);
    }
  }

  lemma WaitFired(recs: Records, waits: map<nat, Wait>, fired: multiset<nat>, w: nat)
    requires Fired(recs, waits, fired) && w in waits && waits[w].pos < |waits[w].keys|
    ensures var d := waits[w]; Fired(Attach(recs, d.keys[d.pos], w), waits[w := d.(pos := d.pos + 1)], fired)
  {
    hide Referenced, Attach;
    var k := waits[w].keys[waits[w].pos];
    forall v: nat
      ensures v != w ==> (Referenced(Attach(recs, k, w), v) <==> Referenced(recs, v))
    {
      ReferencedAttach(recs, k, w, v);
    }
  }

  lemma EndFired(recs: Records, waits: map<nat, Wait>, fired: multiset<nat>, w: nat)
    requires Fired(recs, waits, fired) && w in waits && waits[w].pos == |waits[w].keys| && !waits[w].ended
    ensures Fired(
      recs, waits[w := waits[w].(ended := true)], if Referenced(recs, w) then fired else fired + multiset{w})
  {
    hide Referenced;
  }

  // ---------- guarding ----------

  lemma AttachedAfter(recs: Records, k: Key, x: Key, w: nat)
    requires AttachedTo(recs, k, w)
    ensures AttachedTo(AddRef(recs, x), k, w)
    ensures x in recs && (k != x || recs[x].count != 1) ==> AttachedTo(DropRef(recs, x), k, w)
    ensures forall v :: AttachedTo(Attach(recs, x, v), k, w)
  {
  }

  lemma InsertGuarded(recs: Records, pend: map<nat, Read>, waits: map<nat, Wait>, r: nat)
    requires Guarded(recs, pend, waits) && Inserted(pend, waits) && r in pend && pend[r].ins < |pend[r].keys|
    ensures var d := pend[r];
            var pend' := pend[r := d.(ins := d.ins + 1)];
            Guarded(AddRef(recs, d.keys[d.ins]), pend', waits) && Inserted(pend', waits)
  {
    hide AddRef, AttachedTo, Holds, Seen;
    var d := pend[r];
    var x, pend' := d.keys[d.ins], pend[r := d.(ins := d.ins + 1)];
    forall w, q, k | w in waits && q in waits[w].since && q in pend' && Holds(pend'[q], k) && Seen(waits[w], k)
      ensures AttachedTo(AddRef(recs, x), k, w)
    {
      assert pend'[q] == pend[q];
      AttachedAfter(recs, k, x, w);
    }
  }

  lemma RemoveGuarded(recs: Records, pend: map<nat, Read>, waits: map<nat, Wait>, r: nat)
    requires Guarded(recs, pend, waits) && Inserted(pend, waits) && Counted(recs, pend)
    requires r in pend && pend[r].rem < pend[r].ins == |pend[r].keys|
    ensures var d := pend[r];
            var pend' := pend[r := d.(rem := d.rem + 1)];
            d.keys[d.rem] in recs && Guarded(DropRef(recs, d.keys[d.rem]), pend', waits) && Inserted(pend', waits)
  {
    hide DropRef, AttachedTo, Seen;
    RemoveCounted(recs, pend, r);
    var d := pend[r];
    var x, pend' := d.keys[d.rem], pend[r := d.(rem := d.rem + 1)];
    forall w, q, k | w in waits && q in waits[w].since && q in pend' && Holds(pend'[q], k) && Seen(waits[w], k)
      ensures AttachedTo(DropRef(recs, x), k, w)
    {
      StillHeld(recs, pend, r, q, k);
      AttachedAfter(recs, k, x, w);
    }
  }

  /** A key that is held after the removal was held before, and its record survives. */
  lemma StillHeld(recs: Records, pend: map<nat, Read>, r: nat, q: nat, k: Key)
    requires Counted(recs, pend) && r in pend && pend[r].rem < pend[r].ins == |pend[r].keys| && q in pend
    requires Holds(pend[r := pend[r].(rem := pend[r].rem + 1)][q], k)
    ensures Holds(pend[q], k) && k in recs && (k == pend[r].keys[pend[r].rem] ==> recs[k].count != 1)
  {
    var d := pend[r];
    var pend' := pend[r := d.(rem := d.rem + 1)];
    RemoveHolders(pend, r, k);
    assert q in Holders(pend', k);
    assert q in Holders(pend, k);
    if k == d.keys[d.rem] {
      OnlyOne(Holders(pend, k), r);
    }
  }

  lemma WaitGuarded(recs: Records, pend: map<nat, Read>, waits: map<nat, Wait>, w: nat)
    requires Guarded(recs, pend, waits) && Inserted(pend, waits) && Counted(recs, pend)
    requires w in waits && waits[w].pos < |waits[w].keys|
    ensures var d := waits[w];
            var waits' := waits[w := d.(pos := d.pos + 1)];
            Guarded(Attach(recs, d.keys[d.pos], w), pend, waits') && Inserted(pend, waits')
  {
    hide Attach, AttachedTo, Holds;
    var d := waits[w];
    var x, waits' := d.keys[d.pos], waits[w := d.(pos := d.pos + 1)];
    forall v, q, k | v in waits' && q in waits'[v].since && q in pend && Holds(pend[q], k) && Seen(waits'[v], k)
      ensures AttachedTo(Attach(recs, x, w), k, v)
    {
      if v == w && k == x {
        assert q in Holders(pend, k);
        NowAttached(recs, x, w);
      } else {
        SeenBefore(waits[v], waits'[v], k);
        AttachedAfter(recs, k, x, v);
      }
    }
  }

  lemma NowAttached(recs: Records, x: Key, w: nat)
    requires x in recs
    ensures AttachedTo(Attach(recs, x, w), x, w)
  {
  }

  lemma SeenBefore(a: Wait, b: Wait, k: Key)
    requires Seen(b, k) && (a == b || (a.pos < |a.keys| && b == a.(pos := a.pos + 1) && k != a.keys[a.pos]))
    ensures Seen(a, k)
  {
  }

  lemma OtherGuarded(recs: Records, pend: map<nat, Read>, waits: map<nat, Wait>, pend': map<nat, Read>, waits': map<nat,
                     Wait>)
    requires Guarded(recs, pend, waits) && Inserted(pend, waits)
    requires forall r :: r in pend ==> r in pend' && pend'[r] == pend[r]
    requires forall w :: w in waits' ==>
      if w in waits then waits'[w].(ended := waits[w].ended) == waits[w]
      else waits'[w].pos == 0 && waits'[w].since == Underway(pend)
    ensures Guarded(recs, pend', waits') && Inserted(pend', waits')
  {
    hide Holds, AttachedTo;
    forall w, q, k | w in waits' && q in waits'[w].since && q in pend' && Holds(pend'[q], k) && Seen(waits'[w], k)
      ensures AttachedTo(recs, k, w)
    {
      assert w in waits;
      assert Seen(waits[w], k);
    }
  }

  // ---------- runs ----------

  lemma AttachCounted(recs: Records, pend: map<nat, Read>, k: Key, w: nat)
    requires Counted(recs, pend)
    ensures Counted(Attach(recs, k, w), pend)
  {
    hide Holders;
  }

  lemma StepKeeps(s: State, step: Step)
    requires Inv(s)
    ensures Inv(Apply(s, step))
  {
    hide Counted, Fired, Guarded, Inserted, AddRef, DropRef, Attach, Distinct, Underway, Released, Referenced, KeysOf,
         KeysOfAll, Pieces;
    if Enabled(s, step) {
      match step
      case BeginRead(r, b) =>
        KeysDistinct(b, s.size);
        BeginCounted(s.recs, s.pend, r, Read(b, KeysOf(b, s.size), 0, 0));
        OtherGuarded(s.recs, s.pend, s.waits, s.pend[r := Read(b, KeysOf(b, s.size), 0, 0)], s.waits);
      case InsertKey(r) =>
        InsertCounted(s.recs, s.pend, r);
        InsertFired(s.recs, s.waits, s.fired, s.pend[r].keys[s.pend[r].ins]);
        InsertGuarded(s.recs, s.pend, s.waits, r);
      case RemoveKey(r) =>
        RemoveCounted(s.recs, s.pend, r);
        RemoveFired(s.recs, s.waits, s.fired, s.pend[r].keys[s.pend[r].rem]);
        RemoveGuarded(s.recs, s.pend, s.waits, r);
      case BeginWait(w, bs) =>
        var d := Wait(bs, KeysOfAll(bs, s.size), 0, false, Underway(s.pend));
        BeginFired(s.recs, s.pend, s.waits, s.fired, w, d);
        OtherGuarded(s.recs, s.pend, s.waits, s.pend, s.waits[w := d]);
      case WaitKey(w) =>
        AttachCounted(s.recs, s.pend, s.waits[w].keys[s.waits[w].pos], w);
        WaitFired(s.recs, s.waits, s.fired, w);
        WaitGuarded(s.recs, s.pend, s.waits, w);
      case EndWait(w) =>
        EndFired(s.recs, s.waits, s.fired, w);
        OtherGuarded(s.recs, s.pend, s.waits, s.pend, s.waits[w := s.waits[w].(ended := true)]);
    }
  }

  lemma BeginFired(recs: Records, pend: map<nat, Read>, waits: map<nat, Wait>, fired: multiset<nat>, w: nat, d: Wait)
    requires Fired(recs, waits, fired) && w !in waits && d.pos == 0 && !d.ended
    ensures Fired(recs, waits[w := d], fired)
  {
    hide Referenced;
  }

  ghost function Initial(size: nat): State {
    State(size, map[], map[], map[], multiset{})
  }

  lemma {:induction false} RunKeeps(size: nat, steps: seq<Step>)
    ensures Inv(Exec(Initial(size), steps))
  {
    if steps == [] {
    } else {
      hide Inv, Apply;
      RunKeeps(size, steps[..|steps| - 1]);
      StepKeeps(Exec(Initial(size), steps[..|steps| - 1]), steps[|steps| - 1]);
    }
  }

  /** The keys a read and a free share. */
  ghost predicate Share(d: Read, f: Wait, k: Key) {
    k in d.keys && k in f.keys
  }

  /** Two runs have a block in common. */
  predicate Overlap(a: BlkId, b: BlkId) {
    a.chunk == b.chunk && a.blk < b.blk + b.count && b.blk < a.blk + a.count
  }

  /** In every run: a callback runs at most once; when it has run, every read that was under way when the
      free began and has a block in common with any of its pieces is over; and once no read holds anything, the callback
      of every free that was issued has run. */
  lemma CallbackRun(size: nat, steps: seq<Step>, w: nat)
    ensures var s := Exec(Initial(size), steps);
            && s.fired[w] <= 1
            && (s.fired[w] == 1 ==>
                  && w in s.waits && s.waits[w].ended
                  && forall r, b :: r in s.waits[w].since && r in s.pend && b in s.waits[w].runs
                                    && Overlap(s.pend[r].run, b) ==>
                       s.pend[r].rem > 0)
            && (w in s.waits && s.waits[w].ended && (forall k :: Holders(s.pend, k) == {}) ==> s.fired[w] == 1)
  {
    hide Exec, Holds, Holders, KeysOf, KeysOfAll, RoundDown, Overlap;
    RunKeeps(size, steps);
    var s := Exec(Initial(size), steps);
    if s.fired[w] == 1 {
      forall r, b | r in s.waits[w].since && r in s.pend && b in s.waits[w].runs && Overlap(s.pend[r].run, b)
        ensures s.pend[r].rem > 0
      {
        var i :| 0 <= i < |s.waits[w].runs| && s.waits[w].runs[i] == b;
        var k := SharedKey(s.pend[r].run, b, s.size);
        PieceAmong(s.waits[w].runs, s.size, i, k);
        LetGo(s, w, r, k);
      }
    }
  }

  lemma SharedKey(a: BlkId, b: BlkId, size: nat) returns (k: Key)
    requires size > 0 && a.count > 0 && b.count > 0 && Overlap(a, b)
    ensures k in KeysOf(a, size) && k in KeysOf(b, size)
  {
    hide KeysOf, RoundDown;
    var x := if a.blk < b.blk then b.blk else a.blk;
    SharedBlock(a, size, x);
    SharedBlock(b, size, x);
    k := Key(a.chunk, RoundDown(x, size));
  }

  lemma LetGo(s: State, w: nat, r: nat, k: Key)
    requires Inv(s) && w in s.waits && s.waits[w].ended && !Referenced(s.recs, w)
    requires r in s.waits[w].since && r in s.pend && Share(s.pend[r], s.waits[w], k)
    ensures !Holds(s.pend[r], k) && s.pend[r].rem > 0
  {
    hide Counted;
    assert Seen(s.waits[w], k);
    assert Holds(s.pend[r], k) ==> AttachedTo(s.recs, k, w);
    HeldAtFirst(s.pend[r], k);
  }

  lemma HeldAtFirst(d: Read, k: Key)
    ensures k in d.keys && d.rem == 0 && d.ins == |d.keys| ==> Holds(d, k)
  {
    if k in d.keys && d.rem == 0 && d.ins == |d.keys| {
      var i :| 0 <= i < |d.keys| && d.keys[i] == k;
    }
  }

  /** Record counts are the numbers of reads that hold the record, in every state of every run. */
  lemma CountsRun(size: nat, steps: seq<Step>, k: Key)
    ensures var s := Exec(Initial(size), steps);
            if k in s.recs then s.recs[k].count == |Holders(s.pend, k)| > 0 else Holders(s.pend, k) == {}
  {
    hide Exec, Holders;
    RunKeeps(size, steps);
  }

  // ---------- the tracker ----------

  /** An operation on every key of a run in turn. */
  function AddRefs(recs: Records, keys: seq<Key>): Records {
    if keys == [] then recs else AddRef(AddRefs(recs, keys[..|keys| - 1]), keys[|keys| - 1])
  }

  function DropRefs(recs: Records, keys: seq<Key>): Records {
    if keys == [] then recs
    else
      var before := DropRefs(recs, keys[..|keys| - 1]);
      if keys[|keys| - 1] in before then DropRef(before, keys[|keys| - 1]) else before
  }

  function AttachAll(recs: Records, keys: seq<Key>, w: nat): Records {
    if keys == [] then recs else Attach(AttachAll(recs, keys[..|keys| - 1], w), keys[|keys| - 1], w)
  }

  lemma {:induction false} AttachConcat(recs: Records, a: seq<Key>, b: seq<Key>, w: nat)
    ensures AttachAll(recs, a + b, w) == AttachAll(AttachAll(recs, a, w), b, w)
    decreases b
  {
    hide Attach;
    if b == [] {
      assert a + b == a;
    } else {
      AttachConcat(recs, a, b[..|b| - 1], w);
      assert (a + b)[..|a + b| - 1] == a + b[..|b| - 1];
    }
  }

  /** KeysFrom visits the bases in the order the loop does. */
  lemma KeysStep(chunk: nat, from: nat, cur: nat, last: nat, size: nat, done: seq<Key>)
    requires size > 0 && cur <= last && done + KeysFrom(chunk, cur, last, size) == KeysFrom(chunk, from, last, size)
    ensures (done + [Key(chunk, cur)]) + KeysFrom(chunk, cur + size, last, size) == KeysFrom(chunk, from, last, size)
  {
    assert (done + [Key(chunk, cur)]) + KeysFrom(chunk, cur + size, last, size) ==
           done + ([Key(chunk, cur)] + KeysFrom(chunk, cur + size, last, size));
  }

  class BlkReadTracker {
    var recs: Records
    const size: nat

    constructor (entriesPerRecord: nat)
      ensures recs == map[] && size == entriesPerRecord
    {
      recs, size := map[], entriesPerRecord;
    }

    /** merge: a positive count inserts, a negative one removes, zero attaches the waiter. A record that
        is missing on removal is left alone here; in every run it is there. */
    method Merge(b: BlkId, delta: int, w: nat)
      requires size > 0 && b.count > 0 && -1 <= delta <= 1
      modifies this
      ensures var keys := KeysOf(b, size);
              recs == if delta > 0 then AddRefs(old(recs), keys) else if delta < 0 then DropRefs(old(recs), keys)
                      else AttachAll(old(recs), keys, w)
    {
      hide RoundDown, AddRef, DropRef, Attach;
      var first, last := RoundDown(b.blk, size), RoundDown(b.blk + b.count - 1, size);
      var cur := first;
      ghost var done: seq<Key> := [];
      while cur <= last
        invariant done + KeysFrom(b.chunk, cur, last, size) == KeysOf(b, size)
        invariant recs ==
                  if delta > 0 then AddRefs(old(recs), done) else if delta < 0 then DropRefs(old(recs), done)
                  else AttachAll(old(recs), done, w)
        decreases last + 1 - cur
      {
        var k := Key(b.chunk, cur);
        KeysStep(b.chunk, first, cur, last, size, done);
        assert (done + [k])[..|done|] == done;
        if delta > 0 {
          recs := AddRef(recs, k);
        } else if delta < 0 {
          if k in recs {
            recs := DropRef(recs, k);
          }
        } else {
          recs := Attach(recs, k, w);
        }
        done := done + [k];
        cur := cur + size;
      }
      assert done + [] == done;
    }

    /** wait_on: one waiter for all pieces. */
    method WaitOn(runs: seq<BlkId>, w: nat)
      requires size > 0 && Pieces(runs)
      modifies this
      ensures recs == AttachAll(old(recs), KeysOfAll(runs, size), w)
    {
      hide KeysOf, Attach;
      if |runs| == 1 {
        Merge(runs[0], 0, w);
        assert KeysOfAll(runs[..0], size) + KeysOf(runs[0], size) == KeysOf(runs[0], size);
      } else {
        for i := 0 to |runs|
          invariant recs == AttachAll(old(recs), KeysOfAll(runs[..i], size), w)
        {
          Merge(runs[i], 0, w);
          AttachConcat(old(recs), KeysOfAll(runs[..i], size), KeysOf(runs[i], size), w);
          assert runs[..i + 1][..i] == runs[..i];
        }
        assert runs[..|runs|] == runs;
      }
    }
  }
}
