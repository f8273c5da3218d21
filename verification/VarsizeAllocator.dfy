/**
 The variable-size block allocator: a bitmap in which a set bit is a block that is cached or allocated,
 and the slab cache in front of it. `held` is history: the blocks that callers hold.
 */
module VarsizeAllocator {

  import opened Arithmetic
  import opened Blocks
  import opened SlabCache

  /** MultiBlkId::max_pieces. */
  const MAX_PIECES := 6

  datatype Hints = Hints(temp: nat, contiguous: bool, partialOk: bool, minPerPiece: nat)

  /** OutOfRange: the code would read outside the slab array or a session's requirements. */
  datatype AllocStatus = AllocSuccess | AllocPartial | AllocFailed | AllocSpaceFull | InvalidInput | OutOfRange

  // ---------- counting ----------

  ghost function Has(s: set<nat>, x: nat): nat {
    if x in s then 1 else 0
  }

  function RunSet(e: Entry): set<nat> {
    set x: nat | e.blk <= x < e.blk + e.count && In(e, x) > 0
  }

  /** Every block is cached, held or in flight in `out` exactly when its bit is set, and then in one of
      these places only. */
  ghost predicate Balanced(slabs: seq<Slab>, held: set<nat>, bits: set<nat>, out: seq<Entry>) {
    forall x :: CachedAt(slabs, x) + Has(held, x) + At(out, x) == Has(bits, x)
  }

  ghost function BlocksOf(es: seq<Entry>): set<nat> {
    if es == [] then {} else BlocksOf(es[..|es| - 1]) + RunSet(es[|es| - 1])
  }

  lemma {:induction false} RunSetSize(blk: nat, count: nat)
    ensures |RunSet(Entry(blk, count, 0))| == count
  {
    if count == 0 {
      assert RunSet(Entry(blk, count, 0)) == {};
    } else {
      RunSetSize(blk, count - 1);
      assert RunSet(Entry(blk, count, 0)) == RunSet(Entry(blk, count - 1, 0)) + {blk + count - 1};
    }
  }

  lemma {:induction false} InBlocksOf(es: seq<Entry>, x: nat)
    ensures x in BlocksOf(es) <==> At(es, x) > 0
  {
    if es != [] {
      InBlocksOf(es[..|es| - 1], x);
    }
  }

  /** Runs that do not overlap hold as many blocks as their sizes say. */
  lemma {:induction false} BlocksSize(es: seq<Entry>)
    requires forall x :: At(es, x) <= 1
    ensures |BlocksOf(es)| == Total(es)
  {
    if es != [] {
      var n := |es| - 1;
      var front, last := es[..n], es[n];
      forall x: nat
        ensures At(front, x) <= 1 && !(x in BlocksOf(front) && x in RunSet(last))
      {
        assert At(es, x) <= 1;
        InBlocksOf(front, x);
      }
      BlocksSize(front);
      RunSetSize(last.blk, last.count);
      assert RunSet(last) == RunSet(Entry(last.blk, last.count, 0));
      assert BlocksOf(front) !! RunSet(last);
    }
  }

  /** Handing `out` to a caller, and taking it back. */
  lemma Handover(slabs: seq<Slab>, held: set<nat>, bits: set<nat>, out: seq<Entry>)
    requires Balanced(slabs, held, bits, out)
    ensures Balanced(slabs, held + BlocksOf(out), bits, []) && |held + BlocksOf(out)| == |held| + Total(out)
  {
    hide CachedAt, At, BlocksOf, Total;
    AtNone();
    forall x: nat
      ensures At(out, x) <= 1 && !(x in held && x in BlocksOf(out))
      ensures CachedAt(slabs, x) + Has(held + BlocksOf(out), x) + At([], x) == Has(bits, x)
    {
      assert CachedAt(slabs, x) + Has(held, x) + At(out, x) == Has(bits, x);
      InBlocksOf(out, x);
    }
    BlocksSize(out);
    assert held !! BlocksOf(out);
  }

  lemma Takeback(slabs: seq<Slab>, held: set<nat>, bits: set<nat>, out: seq<Entry>)
    requires Balanced(slabs, held, bits, []) && forall x :: At(out, x) <= Has(held, x)
    ensures Balanced(slabs, held - BlocksOf(out), bits, out) && |held - BlocksOf(out)| == |held| - Total(out)
  {
    hide CachedAt, At, BlocksOf, Total;
    AtNone();
    forall x: nat
      ensures At(out, x) <= 1 && (x in BlocksOf(out) ==> x in held)
      ensures CachedAt(slabs, x) + Has(held - BlocksOf(out), x) + At(out, x) == Has(bits, x)
    {
      assert CachedAt(slabs, x) + Has(held, x) + At([], x) == Has(bits, x);
      assert At(out, x) <= Has(held, x);
      InBlocksOf(out, x);
    }
    BlocksSize(out);
    assert BlocksOf(out) <= held;
    assert held == (held - BlocksOf(out)) + BlocksOf(out);
  }

  /** The smallest slab of a request is not above the slab its search starts with. */
  predicate SlabOk(slabs: nat, nblks: nat, hints: Hints)
    requires slabs > 0
  {
    hints.contiguous || FindSlab(hints.minPerPiece) <= SlabOf(RequestOf(nblks, hints, slabs))
  }

  /** It is not whenever the smallest piece allowed is not larger than the request. */
  lemma SmallPieceIsOk(slabs: nat, nblks: nat, hints: Hints)
    requires slabs > 0 && hints.minPerPiece <= nblks <= Pow2(slabs - 1)
    ensures SlabOk(slabs, nblks, hints)
  {
    FindSlabIsLeast(nblks);
    FitsSlab(nblks, slabs - 1);
    FitsSlab(hints.minPerPiece, FindSlab(nblks));
  }

  /** Every sweep has a requirement per slab. */
  ghost predicate FullSessions(session: nat -> Session, slabs: nat) {
    forall r :: |session(r).reqs| >= slabs
  }

  lemma FullSession(session: nat -> Session, slabs: nat, r: nat)
    ensures FullSessions(session, slabs) ==> |session(r).reqs| >= slabs
  {
  }

  /** `n` free blocks in a row from `s` on. */
  ghost predicate FreeRun(bits: set<nat>, s: nat, n: nat) {
    forall x :: s <= x < s + n ==> x !in bits
  }

  /** No run of `n` free blocks from `from` on and before `end`. */
  ghost predicate NoneAfter(bits: set<nat>, from: nat, end: nat, n: nat) {
    forall t :: from <= t && t + n <= end ==> !FreeRun(bits, t, n)
  }

  /** No `n` free blocks in a row in a portion. */
  ghost predicate NoRoom(bits: set<nat>, per: nat, portion: nat, n: nat) {
    NoneAfter(bits, Times(portion, per), Times(portion, per) + per, n)
  }

  function Least(a: nat, b: nat): nat {
    if a < b then a else b
  }

  /** The first run of at least `min` free blocks between `from` and `last`, cut to `max` blocks. */
  ghost predicate FirstFit(bits: set<nat>, from: nat, last: nat, min: nat, max: nat, s: nat, n: nat) {
    && from <= s && s + n <= last + 1 && min <= n <= max && FreeRun(bits, s, n)
    && (n == max || s + n == last + 1 || s + n in bits)
    && forall t :: from <= t < s ==> !FreeRun(bits, t, min)
  }

  lemma FirstFitUnique(bits: set<nat>, from: nat, last: nat, min: nat, max: nat, s: nat, n: nat, s': nat, n': nat)
    requires FirstFit(bits, from, last, min, max, s, n) && FirstFit(bits, from, last, min, max, s', n')
    ensures s == s' && n == n'
  {
    assert FreeRun(bits, s, min) && FreeRun(bits, s', min);
  }

  /** The first fit of a portion is shorter than the request, and a further run follows it there. */
  ghost predicate Splits(bits: set<nat>, per: nat, portion: nat, min: nat, nblks: nat)
    requires per > 0
  {
    var first := Times(portion, per);
    var last := first + per - 1;
    exists s, n, t :: IsSplit(bits, first, last, min, nblks, s, n, t)
  }

  ghost predicate IsSplit(bits: set<nat>, first: nat, last: nat, min: nat, nblks: nat, s: nat, n: nat, t: nat) {
    && FirstFit(bits, first, last, Least(min, nblks), nblks, s, n) && n < nblks
    && s + n <= t && t + Least(min, nblks - n) <= last + 1 && FreeRun(bits, t, Least(min, nblks - n))
  }

  lemma NoSplit(bits: set<nat>, per: nat, portion: nat, min: nat, nblks: nat, s: nat, n: nat)
    requires per > 0
    requires var first := Times(portion, per);
             FirstFit(bits, first, first + per - 1, Least(min, nblks), nblks, s, n)
    requires n == nblks || NoneAfter(bits, s + n, Times(portion, per) + per, Least(min, nblks - n))
    ensures !Splits(bits, per, portion, min, nblks)
  {
    hide FirstFit, FreeRun;
    var first := Times(portion, per);
    var last := first + per - 1;
    if Splits(bits, per, portion, min, nblks) {
      var s', n', t :| IsSplit(bits, first, last, min, nblks, s', n', t);
      FirstFitUnique(bits, first, last, Least(min, nblks), nblks, s, n, s', n');
    }
  }

  lemma NoneSplits(bits: set<nat>, per: nat, portion: nat, min: nat, nblks: nat)
    requires per > 0 && NoRoom(bits, per, portion, Least(min, nblks))
    ensures !Splits(bits, per, portion, min, nblks)
  {
    var first := Times(portion, per);
    var last := first + per - 1;
    if Splits(bits, per, portion, min, nblks) {
      var s, n, t :| IsSplit(bits, first, last, min, nblks, s, n, t);
      assert FreeRun(bits, s, Least(min, nblks));
    }
  }

  /** Setting the bits before `from` changes no run from there on. */
  lemma SameAfter(bits: set<nat>, e: Entry, end: nat, n: nat)
    requires NoneAfter(bits + RunSet(e), e.blk + e.count, end, n)
    ensures NoneAfter(bits, e.blk + e.count, end, n)
  {
    forall t | e.blk + e.count <= t && t + n <= end
      ensures !FreeRun(bits, t, n)
    {
      assert !FreeRun(bits + RunSet(e), t, n);
    }
  }

  lemma FitsSomewhere(bits: set<nat>, per: nat, portion: nat, min: nat, nblks: nat, e: Entry)
    requires per > 0
    requires var first := Times(portion, per);
             FirstFit(bits, first, first + per - 1, Least(min, nblks), nblks, e.blk, e.count)
    ensures !NoRoom(bits, per, portion, Least(min, nblks))
  {
    assert FreeRun(bits, e.blk, Least(min, nblks));
  }

  /** A second run taken in a portion is a split. */
  lemma SecondRun(bits: set<nat>, per: nat, portion: nat, e0: Entry, e: Entry, min: nat, remain: nat, nblks: nat)
    requires per > 0 && 0 < remain == nblks - e0.count && min > 0
    requires var first := Times(portion, per);
             var last := first + per - 1;
             && FirstFit(bits, first, last, Least(min, nblks), nblks, e0.blk, e0.count)
             && FirstFit(bits + RunSet(e0), e0.blk + e0.count, last, Least(min, remain), remain, e.blk, e.count)
    ensures Splits(bits, per, portion, min, nblks)
  {
    var first := Times(portion, per);
    var last := first + per - 1;
    assert FreeRun(bits, e.blk, Least(min, remain)) by {
      assert FreeRun(bits + RunSet(e0), e.blk, e.count);
    }
    assert IsSplit(bits, first, last, min, nblks, e0.blk, e0.count, e.blk);
  }

  /** After one run: the request is met, or no further run follows. */
  lemma OneRun(bits: set<nat>, per: nat, portion: nat, min: nat, nblks: nat, e: Entry, stuck: bool)
    requires per > 0 && min > 0
    requires var first := Times(portion, per);
             FirstFit(bits, first, first + per - 1, Least(min, nblks), nblks, e.blk, e.count)
    requires e.count == nblks || e.blk + e.count >= Times(portion, per) + per || stuck
    requires stuck ==>
      NoneAfter(bits + RunSet(e), e.blk + e.count, Times(portion, per) + per, Least(min, nblks - e.count))
    ensures !Splits(bits, per, portion, min, nblks)
  {
    hide FreeRun;
    if stuck {
      SameAfter(bits, e, Times(portion, per) + per, Least(min, nblks - e.count));
    }
    NoSplit(bits, per, portion, min, nblks, e.blk, e.count);
  }

  /** The first portion, from `start` on and around, that has a run of `min` blocks splits the request. */
  ghost predicate SplitsFrom(bits: set<nat>, per: nat, start: nat, portions: nat, min: nat, nblks: nat)
    requires per > 0 && start < portions
  {
    exists v :: 0 <= v < portions && Splits(bits, per, Around(start, v, portions), min, nblks)
                && forall u :: 0 <= u < v ==> NoRoom(bits, per, Around(start, u, portions), Least(min, nblks))
  }

  /** The run that a direct allocation takes first: the first fit of the first portion, from `start` on and
      around, that has a run of `min` blocks. */
  ghost predicate FirstRun(bits: set<nat>, per: nat, start: nat, portions: nat, min: nat, nblks: nat, e: Entry)
    requires per > 0 && start < portions
  {
    exists v :: 0 <= v < portions && FitsPortion(bits, per, Around(start, v, portions), min, nblks, e)
                && forall u :: 0 <= u < v ==> NoRoom(bits, per, Around(start, u, portions), min)
  }

  ghost predicate FitsPortion(bits: set<nat>, per: nat, portion: nat, min: nat, nblks: nat, e: Entry)
    requires per > 0
  {
    var first := Times(portion, per);
    FirstFit(bits, first, first + per - 1, min, nblks, e.blk, e.count)
  }

  /** The shortest run a direct allocation takes. */
  function MinRun(nblks: nat, hints: Hints): (r: nat)
    ensures r <= nblks
  {
    if hints.contiguous && !hints.partialOk then nblks else Least(nblks, hints.minPerPiece)
  }

  /** The portion `v` steps on is the first with a run: it decides. */
  lemma SplitsAt(bits: set<nat>, per: nat, start: nat, portions: nat, min: nat, nblks: nat, v: nat)
    requires per > 0 && start < portions && v < portions && min <= nblks
    requires !NoRoom(bits, per, Around(start, v, portions), min)
    requires forall u :: 0 <= u < v ==> NoRoom(bits, per, Around(start, u, portions), min)
    ensures SplitsFrom(bits, per, start, portions, min, nblks) <==>
      Splits(bits, per, Around(start, v, portions), min, nblks)
  {
    hide NoRoom, Splits;
    assert Least(min, nblks) == min;
    if SplitsFrom(bits, per, start, portions, min, nblks) {
      var w :| 0 <= w < portions && Splits(bits, per, Around(start, w, portions), min, nblks)
                && forall u :: 0 <= u < w ==> NoRoom(bits, per, Around(start, u, portions), Least(min, nblks));
      if w < v {
        NoneSplits(bits, per, Around(start, w, portions), min, nblks);
      }
    }
  }

  lemma SplitsNowhere(bits: set<nat>, per: nat, start: nat, portions: nat, min: nat, nblks: nat)
    requires per > 0 && start < portions && min <= nblks
    requires forall p :: 0 <= p < portions ==> NoRoom(bits, per, p, min)
    ensures !SplitsFrom(bits, per, start, portions, min, nblks)
  {
    hide NoRoom, Splits;
    assert Least(min, nblks) == min;
    forall v | 0 <= v < portions
      ensures !Splits(bits, per, Around(start, v, portions), min, nblks)
    {
      NoneSplits(bits, per, Around(start, v, portions), min, nblks);
    }
  }

  // ---------- the allocator ----------

  class VarsizeBlkAllocator {
    const blksPerPortion: nat
    const numPortions: nat
    const useSlabs: bool
    const cache: FreeBlkCacheQueue
    var bits: set<nat>
    var alloced: int
    var startPortion: nat
    ghost var held: set<nat>

    /** A fresh allocator: every block is free. */
    constructor (portions: nat, perPortion: nat, slabs: bool, limits: seq<seq<nat>>)
      requires portions > 0 && perPortion > 0 && limits != [] && forall i :: 0 <= i < |limits| ==> limits[i] != []
      ensures Valid() && fresh(cache) && bits == held == {} && alloced == 0
      ensures numPortions == portions && blksPerPortion == perPortion && useSlabs == slabs && |cache.slabs| == |limits|
      ensures forall x :: CachedAt(cache.slabs, x) == 0
    {
      numPortions, blksPerPortion, useSlabs := portions, perPortion, slabs;
      cache := new FreeBlkCacheQueue(perPortion, limits);
      bits, alloced, startPortion, held := {}, 0, 0, {};
      new;
      forall x: nat
        ensures CachedAt(cache.slabs, x) + Has(held, x) + At([], x) == Has(bits, x)
      {
        EmptySlabs(cache.slabs, x);
      }
    }

    /** `out`: blocks on their way between the allocator and a caller. */
    ghost predicate Sound(out: seq<Entry>)
      reads this, cache
    {
      && cache.portion == blksPerPortion > 0 && numPortions > 0 && startPortion < numPortions
      && cache.Valid() && Balanced(cache.slabs, held, bits, out)
    }

    ghost predicate Valid()
      reads this, cache
    {
      Sound([]) && alloced == |held|
    }

    /** The bitset search: a run of clear bits in [from, last], at least `min` and at most `max` long. */
    method NextResetBits(from: nat, last: nat, min: nat, max: nat) returns (start: nat, n: nat)
      requires 0 < min <= max
      ensures n > 0 ==> from <= start && start + n - 1 <= last && min <= n <= max
      ensures FreeRun(bits, start, n)
      ensures n == 0 ==> NoneAfter(bits, from, last + 1, min)
      ensures n > 0 ==> FirstFit(bits, from, last, min, max, start, n)
    {
      start, n := from, 0;
      while start <= last
        invariant from <= start && n == 0
        invariant forall s :: from <= s < start && s + min <= last + 1 ==> !FreeRun(bits, s, min)
        decreases last + 1 - start
      {
        while start + n <= last && n < max && start + n !in bits
          invariant n <= max && start + n <= last + 1 && FreeRun(bits, start, n)
        {
          n := n + 1;
        }
        if n >= min {
          return;
        }
        forall s | start <= s <= start + n && s + min <= last + 1
          ensures !FreeRun(bits, s, min)
        {
          assert start + n in bits;
        }
        start, n := start + n + 1, 0;
      }
    }

    /** free_blks_direct: the bits of the runs, which are all set, are cleared. */
    method FreeDirect(pieces: seq<Entry>)
      requires forall x :: At(pieces, x) <= Has(bits, x)
      modifies this`bits
      ensures forall x :: Has(bits, x) + At(pieces, x) == Has(old(bits), x)
    {
      hide At;
      AtNone();
      for k := 0 to |pieces|
        invariant forall x :: Has(bits, x) + At(pieces[..k], x) == Has(old(bits), x)
      {
        var e := pieces[k];
        assert pieces[..k + 1] == pieces[..k] + [e];
        AtPush(pieces[..k], e);
        forall x: nat | x in RunSet(e)
          ensures x in bits
        {
          TakeAt(pieces, k + 1, x);
          assert At(pieces, x) <= Has(old(bits), x);
        }
        bits := bits - RunSet(e);
      }
      assert pieces[..|pieces|] == pieces;
    }

    /** Takes free runs of one portion, until enough is found or no run or no room is left. The first run
        taken is the first that fits, and there is a second one exactly when that splits the request. */
    method AllocInPortion(portion: nat, min: nat, remain0: nat, out0: seq<Entry>) returns (remain: nat, out: seq<Entry>)
      requires blksPerPortion > 0 && min > 0 && |out0| <= MAX_PIECES && AllInPortion(blksPerPortion, out0)
      modifies this`bits
      ensures remain <= remain0 && Total(out) + remain == Total(out0) + remain0
      ensures |out0| <= |out| <= MAX_PIECES && AllInPortion(blksPerPortion, out)
      ensures forall x :: Has(bits, x) + At(out0, x) == Has(old(bits), x) + At(out, x)
      ensures if out == out0 then remain == remain0 && bits == old(bits) else remain < remain0
      ensures remain0 > 0 && |out0| < MAX_PIECES ==>
        (out == out0 <==> NoRoom(old(bits), blksPerPortion, portion, Least(min, remain0)))
      ensures min >= remain0 ==> out == out0 || (remain == 0 && |out| == |out0| + 1)
      ensures out0 == [] && remain0 > 0 ==> (|out| > 1 <==> Splits(old(bits), blksPerPortion, portion, min, remain0))
      ensures out0 == [] && out != [] ==>
        FitsPortion(old(bits), blksPerPortion, portion, Least(min, remain0), remain0, out[0])
    {
      hide At, InPortion, Total, FreeRun, FirstFit, NoneAfter;
      remain, out := remain0, out0;
      var first := Times(portion, blksPerPortion);
      var cur, last := first, first + blksPerPortion - 1;
      ghost var e0 := Entry(0, 0, 0);
      while remain > 0 && cur <= last && |out| < MAX_PIECES
        invariant first <= cur && remain <= remain0 && Total(out) + remain == Total(out0) + remain0
        invariant |out0| <= |out| <= MAX_PIECES && AllInPortion(blksPerPortion, out)
        invariant forall x :: Has(bits, x) + At(out0, x) == Has(old(bits), x) + At(out, x)
        invariant |out| == |out0| ==> remain == remain0 && out == out0 && bits == old(bits) && cur == first
        invariant |out| > |out0| ==>
          && remain < remain0 && out[|out0|] == e0
          && FirstFit(old(bits), first, last, Least(min, remain0), remain0, e0.blk, e0.count)
        invariant |out| == |out0| + 1 ==>
          remain == remain0 - e0.count && cur == e0.blk + e0.count && bits == old(bits) + RunSet(e0)
        invariant |out| > |out0| + 1 ==> Splits(old(bits), blksPerPortion, portion, min, remain0)
        invariant min >= remain0 ==> |out| == |out0| || (remain == 0 && |out| == |out0| + 1)
        decreases remain
      {
        var start, n := NextResetBits(cur, last, Least(min, remain), remain);
        if n == 0 {
          break;
        }
        var e := Entry(start, n, 0);
        if |out| == |out0| {
          e0 := e;
        } else if |out| == |out0| + 1 {
          SecondRun(old(bits), blksPerPortion, portion, e0, e, min, remain, remain0);
        }
        AtPush(out, e);
        PortionOf(portion, blksPerPortion, start, n);
        Unset(bits, e);
        remain, out := remain - n, out + [e];
        bits := bits + RunSet(e);
        cur := start + n;
      }
      if |out| > |out0| {
        FitsSomewhere(old(bits), blksPerPortion, portion, min, remain0, e0);
      }
      if |out| == |out0| && remain0 > 0 && |out0| < MAX_PIECES {
        NoneSplits(bits, blksPerPortion, portion, min, remain0);
      } else if out0 == [] && |out| == 1 {
        OneRun(old(bits), blksPerPortion, portion, min, remain0, e0, remain > 0 && cur <= last && |out| < MAX_PIECES);
      }
    }

    /** alloc_blks_direct: searches the portions in turn from where the last search stopped. A contiguous
        request comes back in several pieces if and only if the first portion with a run of the smallest
        size splits it; that cannot be when no part will do, because then the smallest size is the whole. */
    method AllocDirect(nblks: nat, hints: Hints, out0: seq<Entry>) returns (num: nat, out: seq<Entry>)
      requires blksPerPortion > 0 && startPortion < numPortions && hints.minPerPiece > 0
      requires |out0| <= MAX_PIECES && AllInPortion(blksPerPortion, out0) && nblks > 0
      modifies this`bits, this`startPortion
      ensures startPortion < numPortions && num <= nblks && Total(out) == Total(out0) + num
      ensures |out| <= MAX_PIECES && AllInPortion(blksPerPortion, out)
      ensures forall x :: Has(bits, x) + At(out0, x) == Has(old(bits), x) + At(out, x)
      ensures hints.contiguous && !hints.partialOk ==>
        (num == 0 && out == out0 && bits == old(bits)) || (num == nblks && |out| == |out0| + 1)
      ensures hints.contiguous && out0 == [] && num == 0 ==>
        && out == [] && bits == old(bits)
        && forall p :: 0 <= p < numPortions ==> NoRoom(bits, blksPerPortion, p, MinRun(nblks, hints))
      ensures hints.contiguous && out0 == [] ==>
        (|out| > 1 <==>
         SplitsFrom(old(bits), blksPerPortion, old(startPortion), numPortions, MinRun(nblks, hints), nblks))
      ensures hints.contiguous && out0 == [] && out != [] ==>
        FirstRun(old(bits), blksPerPortion, old(startPortion), numPortions, MinRun(nblks, hints), nblks, out[0])
    {
      hide At, InPortion, Total, NoRoom, Splits, FitsPortion;
      var start, portion: nat, visited: nat := startPortion, startPortion, 0;
      var maxPieces := if hints.contiguous then 1 else MAX_PIECES;
      var min := MinRun(nblks, hints);
      var remain: nat := nblks;
      out := out0;
      while remain > 0 && visited < numPortions && (visited == 0 || |out| < maxPieces)
        invariant visited <= numPortions && portion < numPortions
        invariant remain > 0 ==> portion == Around(start, visited, numPortions)
        invariant remain <= nblks && Total(out) + remain == Total(out0) + nblks
        invariant |out0| <= |out| <= MAX_PIECES && AllInPortion(blksPerPortion, out)
        invariant forall x :: Has(bits, x) + At(out0, x) == Has(old(bits), x) + At(out, x)
        invariant hints.contiguous && !hints.partialOk ==>
          (remain == nblks && out == out0 && bits == old(bits)) || (remain == 0 && |out| == |out0| + 1)
        invariant hints.contiguous && out0 == [] && out == [] ==>
          && remain == nblks && bits == old(bits)
          && forall v :: 0 <= v < visited ==> NoRoom(bits, blksPerPortion, Around(start, v, numPortions), min)
        invariant hints.contiguous && out0 == [] && out != [] ==>
          && visited > 0 && remain < nblks
          && (|out| > 1 <==> SplitsFrom(old(bits), blksPerPortion, start, numPortions, min, nblks))
          && FirstRun(old(bits), blksPerPortion, start, numPortions, min, nblks, out[0])
        decreases numPortions - visited
      {
        ghost var was := out;
        remain, out := AllocInPortion(portion, min, remain, out);
        if hints.contiguous && out0 == [] && was == [] && out != [] {
          SplitsAt(old(bits), blksPerPortion, start, numPortions, min, nblks, visited);
        }
        if remain > 0 {
          portion := portion + 1;
          if portion == numPortions {
            portion := 0;
          }
        }
        visited := visited + 1;
      }
      startPortion := portion;
      num := nblks - remain;
      if hints.contiguous && out0 == [] && out == [] {
        forall p | 0 <= p < numPortions
          ensures NoRoom(bits, blksPerPortion, p, min)
        {
          var v := if p >= start then p - start else p + numPortions - start;
          assert Around(start, v, numPortions) == p;
        }
        SplitsNowhere(bits, blksPerPortion, start, numPortions, min, nblks);
      }
    }

    /** fill_cache_in_portion: free runs of a portion move into the cache, their bits are set. */
    method FillPortion(portion: nat, temp: nat, s0: Session) returns (inRange: bool, s: Session)
      requires Valid()
      modifies this`bits, cache
      ensures Valid() && |cache.slabs| == |old(cache.slabs)| && |s.reqs| == |s0.reqs|
      ensures s0.blks <= s.blks && (|s0.reqs| >= |cache.slabs| ==> inRange)
    {
      hide At, InPortion, CachedAt, ValidSlabs, FindSlab;
      inRange, s := true, s0;
      var first := Times(portion, blksPerPortion);
      var cur, last := first, first + blksPerPortion - 1;
      while inRange && !s.done && cur <= last
        invariant Valid() && |cache.slabs| == |old(cache.slabs)| && |s.reqs| == |s0.reqs|
        invariant first <= cur && s0.blks <= s.blks && (|s0.reqs| >= |cache.slabs| ==> inRange)
        decreases last + 1 - cur
      {
        var start, n := NextResetBits(cur, last, 1, last - cur + 1);
        if n == 0 {
          break;
        }
        PortionOf(portion, blksPerPortion, start, n);
        ghost var slabs := cache.slabs;
        var added;
        inRange, added, s := cache.TryFillCache(start, n, temp, false, s);
        var e := Entry(start, added, temp);
        Cached(slabs, cache.slabs, held, bits, bits + RunSet(e), e);
        bits := bits + RunSet(e);
        cur := start + n;
      }
    }

    /** A sweep over some portions, by the sweep thread. It loses no block whatever the session asks for;
        `inRange` is false where the code would read a requirement the session does not have. */
    method Sweep(portions: seq<(nat, nat)>, s0: Session) returns (inRange: bool)
      requires Valid()
      modifies this`bits, cache
      ensures Valid() && |cache.slabs| == |old(cache.slabs)|
      ensures |s0.reqs| >= |cache.slabs| ==> inRange
    {
      var s := s0;
      inRange := true;
      for k := 0 to |portions|
        invariant Valid() && |cache.slabs| == |old(cache.slabs)| && |s.reqs| == |s0.reqs|
        invariant |s0.reqs| >= |cache.slabs| ==> inRange
      {
        if inRange && !s.done {
          inRange, s := FillPortion(portions[k].0, portions[k].1, s);
        }
      }
    }

    /** Excess entries go back to the bitmap. */
    method FreeExcess(excess: seq<Entry>, ghost out: seq<Entry>)
      requires Sound(out + excess)
      modifies this`bits
      ensures Sound(out)
    {
      hide At, CachedAt, ValidSlabs;
      AtJoin(out, excess);
      forall x: nat
        ensures At(excess, x) <= Has(bits, x)
      {
        assert CachedAt(cache.slabs, x) + Has(held, x) + At(out + excess, x) == Has(bits, x);
      }
      ghost var was := bits;
      FreeDirect(excess);
      forall x: nat
        ensures CachedAt(cache.slabs, x) + Has(held, x) + At(out, x) == Has(bits, x)
      {
        assert CachedAt(cache.slabs, x) + Has(held, x) + At(out + excess, x) == Has(was, x);
      }
    }

    /** Runs go back to the cache, and to the bitmap where the cache is full. */
    method FreeToCache(pieces: seq<Entry>, excess: seq<Entry>)
      requires Sound(pieces + excess) && AllInPortion(blksPerPortion, pieces) && AllInPortion(blksPerPortion, excess)
      requires forall k :: 0 <= k < |pieces| ==> pieces[k].count < Pow2(|cache.slabs|)
      modifies this`bits, cache
      ensures Sound([]) && |cache.slabs| == |old(cache.slabs)|
    {
      hide At, CachedAt, ValidSlabs, InPortion, Pow2;
      ghost var slabs := cache.slabs;
      var _, rest := cache.TryFreeAll(pieces, excess);
      AtJoin(pieces, excess);
      AtJoin([], rest);
      AtNone();
      forall x: nat
        ensures CachedAt(cache.slabs, x) + Has(held, x) + At([] + rest, x) == Has(bits, x)
      {
        assert CachedAt(slabs, x) + Has(held, x) + At(pieces + excess, x) == Has(bits, x);
      }
      FreeExcess(rest, []);
    }

    function Highest(): nat
      requires cache.slabs != []
      reads cache
    {
      Pow2(|cache.slabs| - 1)
    }

    /** One attempt to allocate from the cache. `ok` is false when everything was given back. The attempt
        leaves the slab array exactly when the smallest slab of the request is above its first one and the
        cache holds too little. */
    method TrySlab(nblks: nat, hints: Hints) returns (inRange: bool, ok: bool, out: seq<Entry>)
      requires Sound([]) && cache.slabs != [] && 0 < nblks <= Highest()
      modifies this`bits, cache
      ensures |cache.slabs| == |old(cache.slabs)|
      ensures inRange <==>
        SlabOk(|cache.slabs|, nblks, hints) || Blks(old(cache.slabs), 0, |old(cache.slabs)|) >= nblks
      ensures inRange ==> Sound(out)
      ensures inRange && hints.partialOk && !SlabOk(|cache.slabs|, nblks, hints) ==> ok
      ensures Total(out) <= nblks && |out| <= MAX_PIECES && AllInPortion(blksPerPortion, out) && (!ok ==> out == [])
      ensures hints.contiguous ==> (Total(out) == 0 && out == []) || (Total(out) == nblks && |out| == 1)
    {
      hide At, CachedAt, ValidSlabs, InPortion, Pow2, Total, FindSlab, Blks;
      var req := RequestOf(nblks, hints, |cache.slabs|);
      ghost var slabs := cache.slabs;
      var status, resp;
      inRange, status, resp := cache.TryAllocBlks(req, false);
      TotalNone();
      if !inRange {
        return false, false, [];
      }
      PowMonotone(|cache.slabs| - 1, |cache.slabs|);
      Pieces(resp.out, nblks);
      InFlight(slabs, cache.slabs, held, bits, resp.out, resp.excess);
      if (status.Success? || (status.Partial? && (hints.partialOk || !hints.contiguous)))
         && (|resp.out| <= MAX_PIECES || hints.partialOk) {
        var k := if |resp.out| <= MAX_PIECES then |resp.out| else MAX_PIECES;
        out := resp.out[..k];
        Cut(resp.out, resp.excess, k, cache.slabs, held, bits);
        FreeExcess(resp.out[k..] + resp.excess, out);
        ok := true;
      } else {
        FreeToCache(resp.out, resp.excess);
        ok, out := false, [];
      }
    }

    /** alloc_blks_slab: attempts with sweeps in between. What a sweep fills is up to the sweep thread:
        `portions` and `session` say what it does before attempt r + 1. */
    method AllocSlab(nblks: nat, hints: Hints, attempts: nat, portions: nat -> seq<(nat, nat)>, session: nat -> Session)
      returns (inRange: bool, num: nat, out: seq<Entry>)
      requires Valid() && cache.slabs != [] && 0 < nblks <= Highest()
      modifies this`bits, cache
      ensures |cache.slabs| == |old(cache.slabs)|
      ensures SlabOk(|cache.slabs|, nblks, hints) && FullSessions(session, |cache.slabs|) ==> inRange
      ensures !SlabOk(|cache.slabs|, nblks, hints) && hints.partialOk ==>
        (inRange <==> Blks(old(cache.slabs), 0, |old(cache.slabs)|) >= nblks)
      ensures !SlabOk(|cache.slabs|, nblks, hints) && Blks(old(cache.slabs), 0, |old(cache.slabs)|) < nblks ==> !inRange
      ensures inRange ==> Sound(out) && num == Total(out) <= nblks
      ensures inRange ==> |out| <= MAX_PIECES && AllInPortion(blksPerPortion, out)
      ensures inRange && hints.contiguous ==> (num == 0 && out == []) || (num == nblks && |out| == 1)
    {
      hide At, CachedAt, ValidSlabs, InPortion, Pow2, Total, FindSlab, Balanced, SlabOk, Blks, FullSessions;
      var retries := if attempts < 2 then 2 else attempts;
      TotalNone();
      inRange, num, out := true, 0, [];
      for retry := 0 to retries
        invariant Sound([]) && alloced == |held| && |cache.slabs| == |old(cache.slabs)| && inRange
        invariant retry == 0 ==> cache.slabs == old(cache.slabs)
        invariant retry > 0 && !SlabOk(|cache.slabs|, nblks, hints) ==>
          !hints.partialOk && Blks(old(cache.slabs), 0, |old(cache.slabs)|) >= nblks
      {
        var ok;
        inRange, ok, out := TrySlab(nblks, hints);
        if !inRange {
          return false, 0, [];
        }
        if ok {
          return true, Total(out), out;
        }
        if retry + 1 < retries {
          inRange := Sweep(portions(retry), session(retry));
          FullSession(session, |cache.slabs|, retry);
          if !inRange {
            return false, 0, [];
          }
        }
      }
      num, out := 0, [];
    }

    /** Direct allocation of what the cache did not give. When that is not enough either, and a part will
        not do, all of it is freed. */
    method AllocRest(nblks: nat, num0: nat, hints: Hints, out0: seq<Entry>)
      returns (ok: bool, num: nat, out: seq<Entry>)
      requires Sound(out0) && num0 == Total(out0) < nblks && hints.minPerPiece > 0
      requires |out0| <= MAX_PIECES && AllInPortion(blksPerPortion, out0)
      modifies this`bits, this`startPortion
      ensures ok <==> num == nblks || (num != 0 && hints.partialOk)
      ensures if ok then
                Sound(out) && num == Total(out) <= nblks && |out| <= MAX_PIECES && AllInPortion(blksPerPortion, out)
              else Sound([]) && out == []
      ensures ok && hints.contiguous && !hints.partialOk && out0 == [] ==> |out| == 1
      ensures ok && hints.contiguous && out0 == [] ==>
        (|out| > 1 <==>
         SplitsFrom(old(bits), blksPerPortion, old(startPortion), numPortions, MinRun(nblks, hints), nblks))
      ensures ok && hints.contiguous && out0 == [] ==>
        out != []
        && FirstRun(old(bits), blksPerPortion, old(startPortion), numPortions, MinRun(nblks, hints), nblks, out[0])
      ensures !ok && hints.contiguous && out0 == [] ==> bits == old(bits)
      ensures !ok && hints.contiguous && out0 == [] ==>
        forall p :: 0 <= p < numPortions ==> NoRoom(bits, blksPerPortion, p, MinRun(nblks, hints))
    {
      hide At, CachedAt, ValidSlabs, InPortion, Total, Balanced, NoRoom, SplitsFrom, FirstRun;
      TotalNone();
      ghost var bits0 := bits;
      var more;
      more, out := AllocDirect(nblks - num0, hints, out0);
      Extended(cache.slabs, held, bits0, bits, out0, out);
      num := num0 + more;
      ok := num == nblks || (num != 0 && hints.partialOk);
      if !ok {
        Dropped(cache.slabs, held, bits, out);
        ghost var bits1 := bits;
        FreeDirect(out);
        Returned(cache.slabs, held, bits1, bits, out);
        NothingFreed(bits1, bits, out);
        out := [];
      }
    }

    /** The blocks now belong to the caller. */
    method HandOut(num: nat, out: seq<Entry>)
      requires Sound(out) && alloced == |held| && num == Total(out)
      modifies this`held, this`alloced
      ensures Valid() && held == old(held) + BlocksOf(out) && old(held) !! BlocksOf(out) && forall x :: At(out, x) <= 1
    {
      hide At, CachedAt, ValidSlabs, Balanced, BlocksOf, Total;
      Handover(cache.slabs, held, bits, out);
      Apart(cache.slabs, held, bits, out);
      held := held + BlocksOf(out);
      alloced := alloced + num;
    }

    /** alloc: the cache first, the bitmap for what is missing. A caller gets blocks nobody holds; when
        the request fails, nothing it took on the way is lost. A contiguous request fails only when no
        portion has as many free blocks in a row as the shortest run it takes. Without the cache it takes
        the first fit. */
    method Alloc(nblks: nat, hints: Hints, multi: bool, attempts: nat, portions: nat -> seq<(nat, nat)>,
                 session: nat -> Session)
      returns (status: AllocStatus, out: seq<Entry>)
      requires Valid() && nblks > 0 && cache.slabs != [] && hints.minPerPiece > 0
      modifies this, cache
      ensures |cache.slabs| == |old(cache.slabs)| && (status != OutOfRange ==> Valid())
      ensures SlabOk(|cache.slabs|, nblks, hints) && FullSessions(session, |cache.slabs|) ==> status != OutOfRange
      ensures status == OutOfRange ==> useSlabs && nblks <= Highest()
      ensures useSlabs && nblks <= Highest() && multi && !SlabOk(|cache.slabs|, nblks, hints) && hints.partialOk ==>
        (status == OutOfRange <==> Blks(old(cache.slabs), 0, |old(cache.slabs)|) < nblks)
      ensures useSlabs && nblks <= Highest() && multi && !SlabOk(|cache.slabs|, nblks, hints) ==>
        (Blks(old(cache.slabs), 0, |old(cache.slabs)|) < nblks ==> status == OutOfRange)
      ensures status == InvalidInput <==> !hints.contiguous && !multi
      ensures status == AllocSuccess ==> Total(out) == nblks && (hints.contiguous && !hints.partialOk ==> |out| == 1)
      ensures status == AllocPartial ==> hints.partialOk && 0 < Total(out) < nblks
      ensures (status == AllocFailed ==> hints.contiguous) && (status == AllocSpaceFull ==> !hints.contiguous)
      ensures status == AllocFailed ==>
        forall p :: 0 <= p < numPortions ==> NoRoom(bits, blksPerPortion, p, MinRun(nblks, hints))
      ensures hints.contiguous && !(useSlabs && nblks <= Highest()) && status in {AllocSuccess, AllocPartial} ==>
        (|out| > 1 <==>
         SplitsFrom(old(bits), blksPerPortion, old(startPortion), numPortions, MinRun(nblks, hints), nblks))
      ensures hints.contiguous && !(useSlabs && nblks <= Highest()) && status in {AllocSuccess, AllocPartial} ==>
        out != []
        && FirstRun(old(bits), blksPerPortion, old(startPortion), numPortions, MinRun(nblks, hints), nblks, out[0])
      ensures status == AllocFailed && !(useSlabs && nblks <= Highest()) ==> bits == old(bits)
      ensures !(useSlabs && nblks <= Highest()) ==> cache.slabs == old(cache.slabs)
      ensures if status == AllocSuccess || status == AllocPartial then
                && held == old(held) + BlocksOf(out) && old(held) !! BlocksOf(out) && (forall x :: At(out, x) <= 1)
                && |out| <= MAX_PIECES && AllInPortion(blksPerPortion, out)
              else
                held == old(held) && out == []
    {
      hide At, CachedAt, ValidSlabs, InPortion, Pow2, Total, FindSlab, Balanced, BlocksOf, NoRoom, SlabOk, Blks,
           FullSessions, SplitsFrom, FirstRun;
      out := [];
      if !hints.contiguous && !multi {
        return InvalidInput, out;
      }
      TotalNone();
      var num := 0;
      if useSlabs && nblks <= Highest() {
        var inRange;
        inRange, num, out := AllocSlab(nblks, hints, attempts, portions, session);
        if !inRange {
          return OutOfRange, [];
        }
      }
      if num < nblks {
        var ok;
        ok, num, out := AllocRest(nblks, num, hints, out);
        if !ok {
          return if hints.contiguous then AllocFailed else AllocSpaceFull, [];
        }
      }
      HandOut(num, out);
      status := if num == nblks then AllocSuccess else AllocPartial;
    }

    /** free: small requests go to the cache, large ones to the bitmap. */
    method Free(pieces: seq<Entry>)
      requires Valid() && cache.slabs != [] && AllInPortion(blksPerPortion, pieces)
      requires forall x :: At(pieces, x) <= Has(held, x)
      modifies this, cache
      ensures Valid() && |cache.slabs| == |old(cache.slabs)| && held == old(held) - BlocksOf(pieces)
      ensures !useSlabs ==> cache.slabs == old(cache.slabs)
    {
      hide At, CachedAt, ValidSlabs, InPortion, Pow2, Total, Balanced, BlocksOf;
      Takeback(cache.slabs, held, bits, pieces);
      held := held - BlocksOf(pieces);
      var count := Total(pieces);
      if useSlabs && count <= Highest() {
        Pieces(pieces, count);
        PowMonotone(|cache.slabs| - 1, |cache.slabs|);
        assert pieces + [] == pieces;
        FreeToCache(pieces, []);
      } else {
        Dropped(cache.slabs, held, bits, pieces);
        ghost var bits0 := bits;
        FreeDirect(pieces);
        Returned(cache.slabs, held, bits0, bits, pieces);
      }
      alloced := alloced - count;
    }
  }

  lemma SplitExample()
    ensures SplitsFrom({1}, 4, 0, 1, 1, 2)
  {
    assert FreeRun({1}, 0, 1) && FreeRun({1}, 2, 1) && Times(0, 4) == 0;
    assert FirstFit({1}, 0, 3, 1, 2, 0, 1);
    assert IsSplit({1}, 0, 3, 1, 2, 0, 1, 2);
    assert Around(0, 0, 1) == 0;
    assert Splits({1}, 4, Around(0, 0, 1), 1, 2);
  }

  /** The first fit for one block, in a portion of four. */
  lemma FitExample(bits: set<nat>, s: nat, e: Entry)
    requires FirstRun(bits, 4, 0, 1, 1, 1, e) && s < 4 && s !in bits && forall x :: 0 <= x < s ==> x in bits
    ensures e.blk == s && e.count == 1
  {
    assert Around(0, 0, 1) == 0 && Times(0, 4) == 0;
    assert FreeRun(bits, s, 1);
    forall t | 0 <= t < s
      ensures !FreeRun(bits, t, 1)
    {
      assert t in bits;
    }
    assert FirstFit(bits, 0, 3, 1, 1, s, 1);
    FirstFitUnique(bits, 0, 3, 1, 1, s, 1, e.blk, e.count);
  }

  /** With an empty cache the bits are those of the held blocks. */
  lemma BitsAreHeld(slabs: seq<Slab>, held: set<nat>, bits: set<nat>)
    requires Balanced(slabs, held, bits, []) && forall x :: CachedAt(slabs, x) == 0
    ensures bits == held
  {
    hide CachedAt;
    AtNone();
    forall x: nat
      ensures x in bits <==> x in held
    {
      assert CachedAt(slabs, x) + Has(held, x) + At([], x) == Has(bits, x);
    }
  }

  lemma OneBlock(e: Entry)
    requires e.count == 1
    ensures BlocksOf([e]) == {e.blk} && forall x :: At([e], x) <= if x == e.blk then 1 else 0
  {
    AtNone();
    AtPush([], e);
    assert [] + [e] == [e];
  }

  /** One block, taken from four of which some are held. */
  method TakeOne(a: VarsizeBlkAllocator, ghost s: nat) returns (e: Entry)
    requires a.Valid() && a.cache.slabs != [] && !a.useSlabs && a.numPortions == 1 && a.blksPerPortion == 4
    requires forall x :: CachedAt(a.cache.slabs, x) == 0
    requires s < 4 && s !in a.held && forall x :: 0 <= x < s ==> x in a.held
    modifies a, a.cache
    ensures a.Valid() && a.cache.slabs == old(a.cache.slabs) && a.held == old(a.held) + {s}
    ensures e.blk == s && e.count == 1 && InPortion(4, e.blk, e.count)
  {
    hide CachedAt, ValidSlabs, Balanced, At, BlocksOf, Total, FirstRun, SplitsFrom, InPortion, NoRoom;
    BitsAreHeld(a.cache.slabs, a.held, a.bits);
    ghost var bits := a.bits;
    var hints := Hints(0, true, false, 1);
    RoomForOne(bits, s);
    assert MinRun(1, hints) == 1;
    var status, out := a.Alloc(1, hints, true, 2, _ => [], _ => Session([], 0, false));
    assert status != AllocFailed;
    e := out[0];
    FitExample(bits, s, e);
    OneBlock(e);
    assert out == [e];
  }

  lemma RoomForOne(bits: set<nat>, s: nat)
    requires s < 4 && s !in bits
    ensures !NoRoom(bits, 4, 0, 1)
  {
    assert Times(0, 4) == 0 && FreeRun(bits, s, 1);
  }

  /** Of four blocks the first two are taken and the first is freed again. A contiguous request for two, with
      a part allowed, gets the first and the third although the last two are free in a row. */
  method SeveralPieces() returns (status: AllocStatus, out: seq<Entry>)
    ensures |out| > 1
  {
    hide CachedAt, ValidSlabs, Balanced, At, BlocksOf, Total, FirstRun, SplitsFrom, InPortion, NoRoom;
    var a := new VarsizeBlkAllocator(1, 4, false, [[1]]);
    var e := TakeOne(a, 0);
    var f := TakeOne(a, 1);
    OneBlock(e);
    a.Free([e]);
    BitsAreHeld(a.cache.slabs, a.held, a.bits);
    assert a.bits == {1};
    SplitExample();
    RoomForOne({1}, 0);
    var hints := Hints(0, true, true, 1);
    assert a.startPortion == 0 && MinRun(2, hints) == 1;
    status, out := a.Alloc(2, hints, true, 2, _ => [], _ => Session([], 0, false));
  }

  lemma Extended(slabs: seq<Slab>, held: set<nat>, bits: set<nat>, bits': set<nat>, out: seq<Entry>, out': seq<Entry>)
    requires Balanced(slabs, held, bits, out) && forall x :: Has(bits', x) + At(out, x) == Has(bits, x) + At(out', x)
    ensures Balanced(slabs, held, bits', out')
  {
    hide CachedAt, At;
    forall x: nat
      ensures CachedAt(slabs, x) + Has(held, x) + At(out', x) == Has(bits', x)
    {
      assert CachedAt(slabs, x) + Has(held, x) + At(out, x) == Has(bits, x);
    }
  }

  lemma Dropped(slabs: seq<Slab>, held: set<nat>, bits: set<nat>, out: seq<Entry>)
    requires Balanced(slabs, held, bits, out)
    ensures forall x :: At(out, x) <= Has(bits, x)
  {
    hide CachedAt, At;
    forall x: nat
      ensures At(out, x) <= Has(bits, x)
    {
      assert CachedAt(slabs, x) + Has(held, x) + At(out, x) == Has(bits, x);
    }
  }

  lemma Returned(slabs: seq<Slab>, held: set<nat>, bits: set<nat>, bits': set<nat>, out: seq<Entry>)
    requires Balanced(slabs, held, bits, out) && forall x :: Has(bits', x) + At(out, x) == Has(bits, x)
    ensures Balanced(slabs, held, bits', [])
  {
    hide CachedAt, At;
    AtNone();
    forall x: nat
      ensures CachedAt(slabs, x) + Has(held, x) + At([], x) == Has(bits', x)
    {
      assert CachedAt(slabs, x) + Has(held, x) + At(out, x) == Has(bits, x);
    }
  }

  lemma NothingFreed(bits: set<nat>, bits': set<nat>, out: seq<Entry>)
    requires forall x :: Has(bits', x) + At(out, x) == Has(bits, x)
    ensures out == [] ==> bits' == bits
  {
    hide At;
    AtNone();
    if out == [] {
      forall x: nat
        ensures x in bits' <==> x in bits
      {
        assert Has(bits', x) + At(out, x) == Has(bits, x);
      }
    }
  }

  lemma Apart(slabs: seq<Slab>, held: set<nat>, bits: set<nat>, out: seq<Entry>)
    requires Balanced(slabs, held, bits, out)
    ensures held !! BlocksOf(out) && forall x :: At(out, x) <= 1
  {
    hide CachedAt, At;
    forall x: nat
      ensures !(x in held && x in BlocksOf(out)) && At(out, x) <= 1
    {
      InBlocksOf(out, x);
      assert CachedAt(slabs, x) + Has(held, x) + At(out, x) == Has(bits, x);
    }
  }

  function RequestOf(nblks: nat, hints: Hints, slabs: nat): Req
    requires slabs > 0
  {
    Req(nblks, hints.temp, hints.contiguous, FindSlab(hints.minPerPiece), slabs - 1)
  }

  lemma {:induction false} PieceSmall(es: seq<Entry>, k: nat)
    requires k < |es|
    ensures es[k].count <= Total(es)
    decreases es
  {
    if k < |es| - 1 {
      PieceSmall(es[..|es| - 1], k);
    }
  }

  lemma Pieces(es: seq<Entry>, n: nat)
    requires Total(es) <= n
    ensures forall k :: 0 <= k < |es| ==> es[k].count <= n
  {
    forall k | 0 <= k < |es|
      ensures es[k].count <= n
    {
      PieceSmall(es, k);
    }
  }

  lemma InFlight(slabs: seq<Slab>, slabs': seq<Slab>, held: set<nat>, bits: set<nat>, out: seq<Entry>,
                 excess: seq<Entry>)
    requires Balanced(slabs, held, bits, [])
    requires forall x :: CachedAt(slabs, x) == CachedAt(slabs', x) + At(out, x) + At(excess, x)
    ensures Balanced(slabs', held, bits, out + excess)
  {
    hide CachedAt, At;
    AtNone();
    AtJoin(out, excess);
    forall x: nat
      ensures CachedAt(slabs', x) + Has(held, x) + At(out + excess, x) == Has(bits, x)
    {
      assert CachedAt(slabs, x) + Has(held, x) + At([], x) == Has(bits, x);
    }
  }

  /** Keeping the first `k` pieces and treating the others as excess. */
  lemma Cut(out: seq<Entry>, excess: seq<Entry>, k: nat, slabs: seq<Slab>, held: set<nat>, bits: set<nat>)
    requires k <= |out| && Balanced(slabs, held, bits, out + excess)
    ensures Balanced(slabs, held, bits, out[..k] + (out[k..] + excess)) && Total(out[..k]) <= Total(out)
    ensures k == |out| ==> out[..k] == out
  {
    hide Balanced, At, Total;
    assert out[..k] + (out[k..] + excess) == out + excess;
    AtJoin(out[..k], out[k..]);
    assert out[..k] + out[k..] == out;
  }

  /** Free blocks that go into the cache. */
  lemma Cached(slabs: seq<Slab>, slabs': seq<Slab>, held: set<nat>, bits: set<nat>, bits': set<nat>, e: Entry)
    requires Balanced(slabs, held, bits, []) && bits' == bits + RunSet(e) && bits !! RunSet(e)
    requires forall x :: CachedAt(slabs', x) == CachedAt(slabs, x) + In(e, x)
    ensures Balanced(slabs', held, bits', [])
  {
    hide CachedAt, At;
    forall x: nat
      ensures CachedAt(slabs', x) + Has(held, x) + At([], x) == Has(bits', x)
    {
      assert CachedAt(slabs, x) + Has(held, x) + At([], x) == Has(bits, x);
    }
  }

  lemma Unset(bits: set<nat>, e: Entry)
    requires FreeRun(bits, e.blk, e.count)
    ensures bits !! RunSet(e) && forall x :: Has(bits + RunSet(e), x) == Has(bits, x) + In(e, x)
  {
  }

  lemma PortionOf(portion: nat, p: nat, blk: nat, count: nat)
    requires p > 0 && count > 0 && Times(portion, p) <= blk && blk + count <= Times(portion, p) + p
    ensures InPortion(p, blk, count)
  {
    DivMod(p, portion, blk - Times(portion, p));
    DivMod(p, portion, blk + count - 1 - Times(portion, p));
  }

  lemma TakeAt(es: seq<Entry>, k: nat, x: nat)
    requires k <= |es|
    ensures At(es[..k], x) <= At(es, x)
  {
    AtConcat(es[..k], es[k..], x);
    assert es[..k] + es[k..] == es;
  }

  // ---------- runs ----------

  datatype Op =
    | AllocOp(nblks: nat, hints: Hints, multi: bool, attempts: nat,
              portions: nat -> seq<(nat, nat)>, session: nat -> Session)
    | FreeOp(k: nat)
    | SweepOp(swept: seq<(nat, nat)>, fill: Session)

  /** What keeps an operation in range whatever the cache holds. */
  ghost predicate OpOk(op: Op, useSlabs: bool, slabs: nat)
    requires slabs > 0
  {
    match op
    case AllocOp(nblks, hints, _, _, _, session) =>
      useSlabs && nblks <= Pow2(slabs - 1) ==> SlabOk(slabs, nblks, hints) && FullSessions(session, slabs)
    case FreeOp(_) => true
    case SweepOp(_, fill) => |fill.reqs| >= slabs
  }

  /** What the source demands of a request. */
  predicate OpIn(op: Op) {
    op.AllocOp? ==> op.nblks > 0 && op.hints.minPerPiece > 0
  }

  lemma LevelsPush(live: seq<seq<Entry>>, out: seq<Entry>)
    ensures forall x :: LevelsAt(live + [out], x) == LevelsAt(live, x) + At(out, x)
  {
    assert (live + [out])[..|live|] == live;
  }

  lemma {:induction false} LevelAtMost(live: seq<seq<Entry>>, k: nat, x: nat)
    requires k < |live|
    ensures At(live[k], x) <= LevelsAt(live, x)
    decreases live
  {
    if k < |live| - 1 {
      LevelAtMost(live[..|live| - 1], k, x);
    }
  }

  /** `live` lists what the callers hold, each block once. */
  ghost predicate Live(live: seq<seq<Entry>>, held: set<nat>, p: nat) {
    && (forall x :: LevelsAt(live, x) == Has(held, x))
    && forall k :: 0 <= k < |live| ==> AllInPortion(p, live[k])
  }

  lemma LiveGrows(live: seq<seq<Entry>>, held: set<nat>, p: nat, out: seq<Entry>, slabs: seq<Slab>, bits: set<nat>)
    requires Live(live, held, p) && AllInPortion(p, out) && held !! BlocksOf(out)
    requires Balanced(slabs, held + BlocksOf(out), bits, [])
    requires forall x :: At(out, x) <= 1
    ensures Live(live + [out], held + BlocksOf(out), p)
  {
    hide LevelsAt, At, CachedAt, BlocksOf, InPortion;
    LevelsPush(live, out);
    forall x: nat
      ensures LevelsAt(live + [out], x) == Has(held + BlocksOf(out), x)
    {
      InBlocksOf(out, x);
      assert LevelsAt(live, x) == Has(held, x);
      assert At(out, x) <= 1;
    }
  }

  lemma LiveShrinks(live: seq<seq<Entry>>, held: set<nat>, p: nat, k: nat)
    requires Live(live, held, p) && k < |live|
    ensures forall x :: At(live[k], x) <= Has(held, x)
    ensures Live(live[k := []], held - BlocksOf(live[k]), p)
  {
    hide LevelsAt, At, CachedAt, BlocksOf, InPortion;
    AtNone();
    forall x: nat
      ensures At(live[k], x) <= Has(held, x) && LevelsAt(live[k := []], x) == Has(held - BlocksOf(live[k]), x)
    {
      LevelAtMost(live, k, x);
      LevelsUpdate(live, k, [], x);
      InBlocksOf(live[k], x);
      assert LevelsAt(live, x) == Has(held, x);
    }
  }

  /** Any run of allocations, frees and sweeps from a fresh allocator, whatever sizes, hints and sweeps it
      uses and whichever allocations fail: a block is free in the bitmap, cached, or held by one
      caller, never two of these; pieces stay within portions; the count is that of the held blocks.
      The run ends early, with `inRange` false, only at an operation whose smallest piece is too large for
      it or whose sweep lacks a requirement. */
  method AnyRun(portions: nat, perPortion: nat, slabs: bool, limits: seq<seq<nat>>, ops: seq<Op>)
    returns (a: VarsizeBlkAllocator, inRange: bool, live: seq<seq<Entry>>)
    requires portions > 0 && perPortion > 0 && limits != [] && forall i :: 0 <= i < |limits| ==> limits[i] != []
    requires forall k :: 0 <= k < |ops| ==> OpIn(ops[k])
    ensures (forall k :: 0 <= k < |ops| ==> OpOk(ops[k], slabs, |limits|)) ==> inRange
    ensures inRange ==> Live(live, a.held, perPortion) && a.alloced == |a.held|
    ensures inRange ==> forall x :: CachedAt(a.cache.slabs, x) + LevelsAt(live, x) == Has(a.bits, x)
  {
    hide LevelsAt, At, CachedAt, BlocksOf, InPortion, ValidSlabs, SlabOk, Total, Blks, Pow2, FullSessions;
    a := new VarsizeBlkAllocator(portions, perPortion, slabs, limits);
    live, inRange := [], true;
    NoneLive(perPortion);
    for k := 0 to |ops|
      invariant a.Valid() && a.useSlabs == slabs && |a.cache.slabs| == |limits| && a.blksPerPortion == perPortion
      invariant fresh(a) && fresh(a.cache) && inRange
      invariant Live(live, a.held, perPortion)
    {
      match ops[k]
      case AllocOp(nblks, hints, multi, attempts, ports, session) =>
        ghost var held := a.held;
        var status, out := a.Alloc(nblks, hints, multi, attempts, ports, session);
        if status == OutOfRange {
          inRange := false;
          return;
        }
        if status == AllocSuccess || status == AllocPartial {
          LiveGrows(live, held, perPortion, out, a.cache.slabs, a.bits);
          live := live + [out];
        }
      case FreeOp(j) =>
        if j < |live| {
          LiveShrinks(live, a.held, perPortion, j);
          a.Free(live[j]);
          live := live[j := []];
        }
      case SweepOp(swept, fill) =>
        inRange := a.Sweep(swept, fill);
        if !inRange {
          return;
        }
    }
    AtNone();
    forall x: nat
      ensures CachedAt(a.cache.slabs, x) + LevelsAt(live, x) == Has(a.bits, x)
    {
      assert CachedAt(a.cache.slabs, x) + Has(a.held, x) + At([], x) == Has(a.bits, x);
      assert LevelsAt(live, x) == Has(a.held, x);
    }
  }

  lemma NoneLive(p: nat)
    ensures Live([], {}, p)
  {
  }
}
