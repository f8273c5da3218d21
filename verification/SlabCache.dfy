/**
 The slab cache of free blocks: slab i holds runs of 2^i blocks in one queue per temperature level.
 Allocation takes entries of the best slab, splits larger ones, or collects smaller ones.
 */
module SlabCache {

  import opened Arithmetic
  import opened Blocks
  import opened Options

  datatype Status = Success | Partial | Failed | SpaceFull

  /** SlabCacheQueue: queues with their capacities. */
  datatype Slab = Slab(limits: seq<nat>, levels: seq<seq<Entry>>)

  // ---------- what is cached ----------

  ghost function LevelsAt(levels: seq<seq<Entry>>, x: nat): nat {
    if levels == [] then 0 else LevelsAt(levels[..|levels| - 1], x) + At(levels[|levels| - 1], x)
  }

  /** How many cached entries contain block `x`. */
  ghost function CachedAt(slabs: seq<Slab>, x: nat): nat {
    if slabs == [] then 0 else CachedAt(slabs[..|slabs| - 1], x) + LevelsAt(slabs[|slabs| - 1].levels, x)
  }

  ghost predicate ValidLevel(p: nat, size: nat, limit: nat, level: seq<Entry>) {
    |level| <= limit && AllInPortion(p, level) && forall k :: 0 <= k < |level| ==> level[k].count == size
  }

  ghost predicate ValidSlab(p: nat, size: nat, slab: Slab) {
    && |slab.levels| == |slab.limits| > 0
    && forall l :: 0 <= l < |slab.levels| ==> ValidLevel(p, size, slab.limits[l], slab.levels[l])
  }

  ghost predicate ValidSlabs(p: nat, slabs: seq<Slab>) {
    slabs != [] && forall i :: 0 <= i < |slabs| ==> ValidSlab(p, Pow2(i), slabs[i])
  }

  function SetLevel(slabs: seq<Slab>, i: nat, l: nat, level: seq<Entry>): seq<Slab>
    requires i < |slabs| && l < |slabs[i].levels|
  {
    slabs[i := slabs[i].(levels := slabs[i].levels[l := level])]
  }

  lemma {:induction false} LevelsUpdate(levels: seq<seq<Entry>>, l: nat, level: seq<Entry>, x: nat)
    requires l < |levels|
    ensures LevelsAt(levels[l := level], x) + At(levels[l], x) == LevelsAt(levels, x) + At(level, x)
  {
    var n, m := |levels| - 1, levels[l := level];
    if l == n {
      assert m[..n] == levels[..n];
    } else {
      assert m[..n] == levels[..n][l := level];
      LevelsUpdate(levels[..n], l, level, x);
    }
  }

  lemma {:induction false} SlabsUpdate(slabs: seq<Slab>, i: nat, slab: Slab, x: nat)
    requires i < |slabs|
    ensures CachedAt(slabs[i := slab], x) + LevelsAt(slabs[i].levels, x) ==
            CachedAt(slabs, x) + LevelsAt(slab.levels, x)
  {
    hide LevelsAt;
    var n, m := |slabs| - 1, slabs[i := slab];
    if i == n {
      assert m[..n] == slabs[..n];
    } else {
      assert m[..n] == slabs[..n][i := slab];
      SlabsUpdate(slabs[..n], i, slab, x);
    }
  }

  /** Replacing one queue changes the count of each block by the difference of the two queues. */
  lemma SetLevelAt(p: nat, slabs: seq<Slab>, i: nat, l: nat, level: seq<Entry>)
    requires ValidSlabs(p, slabs) && i < |slabs| && l < |slabs[i].levels|
    requires ValidLevel(p, Pow2(i), slabs[i].limits[l], level)
    ensures ValidSlabs(p, SetLevel(slabs, i, l, level))
    ensures forall x ::
      CachedAt(SetLevel(slabs, i, l, level), x) + At(slabs[i].levels[l], x) == CachedAt(slabs, x) + At(level, x)
  {
    hide CachedAt, LevelsAt, ValidLevel, At;
    forall x: nat
      ensures CachedAt(SetLevel(slabs, i, l, level), x) + At(slabs[i].levels[l], x) == CachedAt(slabs, x) + At(level, x)
    {
      LevelsUpdate(slabs[i].levels, l, level, x);
      SlabsUpdate(slabs, i, slabs[i].(levels := slabs[i].levels[l := level]), x);
    }
  }

  // ---------- how much is cached ----------

  ghost function LevelsTotal(levels: seq<seq<Entry>>): nat {
    if levels == [] then 0 else LevelsTotal(levels[..|levels| - 1]) + Total(levels[|levels| - 1])
  }

  /** The blocks cached in the slabs from `lo` up to, not including, `hi`. */
  ghost function Blks(slabs: seq<Slab>, lo: nat, hi: nat): nat
    requires hi <= |slabs|
  {
    if hi <= lo then 0 else Blks(slabs, lo, hi - 1) + LevelsTotal(slabs[hi - 1].levels)
  }

  lemma {:induction false} LevelsTotalUpdate(levels: seq<seq<Entry>>, l: nat, level: seq<Entry>)
    requires l < |levels|
    ensures LevelsTotal(levels[l := level]) + Total(levels[l]) == LevelsTotal(levels) + Total(level)
  {
    var n, m := |levels| - 1, levels[l := level];
    if l == n {
      assert m[..n] == levels[..n];
    } else {
      assert m[..n] == levels[..n][l := level];
      LevelsTotalUpdate(levels[..n], l, level);
    }
  }

  lemma {:induction false} EmptyTotal(levels: seq<seq<Entry>>)
    requires forall l :: 0 <= l < |levels| ==> levels[l] == []
    ensures LevelsTotal(levels) == 0
  {
    if levels != [] {
      EmptyTotal(levels[..|levels| - 1]);
    }
  }

  lemma {:induction false} BlksSame(slabs: seq<Slab>, slabs': seq<Slab>, lo: nat, hi: nat)
    requires hi <= |slabs| == |slabs'| && forall j :: lo <= j < hi ==> slabs[j] == slabs'[j]
    ensures Blks(slabs, lo, hi) == Blks(slabs', lo, hi)
  {
    hide LevelsTotal;
    if lo < hi {
      BlksSame(slabs, slabs', lo, hi - 1);
    }
  }

  lemma {:induction false} BlksSplit(slabs: seq<Slab>, lo: nat, mid: nat, hi: nat)
    requires lo <= mid <= hi <= |slabs|
    ensures Blks(slabs, lo, hi) == Blks(slabs, lo, mid) + Blks(slabs, mid, hi)
  {
    hide LevelsTotal;
    if mid < hi {
      BlksSplit(slabs, lo, mid, hi - 1);
    }
  }

  predicate Empty(slab: Slab) {
    forall l :: 0 <= l < |slab.levels| ==> slab.levels[l] == []
  }

  lemma {:induction false} EmptyLevels(levels: seq<seq<Entry>>, x: nat)
    requires forall l :: 0 <= l < |levels| ==> levels[l] == []
    ensures LevelsAt(levels, x) == 0
  {
    if levels != [] {
      EmptyLevels(levels[..|levels| - 1], x);
    }
  }

  lemma {:induction false} EmptySlabs(slabs: seq<Slab>, x: nat)
    requires forall i :: 0 <= i < |slabs| ==> Empty(slabs[i])
    ensures CachedAt(slabs, x) == 0
  {
    if slabs != [] {
      EmptySlabs(slabs[..|slabs| - 1], x);
      EmptyLevels(slabs[|slabs| - 1].levels, x);
    }
  }

  /** The level after `k` steps around `n` levels. */
  function Around(start: nat, k: nat, n: nat): (r: nat)
    requires start < n && k <= n
    ensures r < n
  {
    if start + k < n then start + k else start + k - n
  }

  /** blk_cache_alloc_req. */
  datatype Req = Req(nblks: nat, level: nat, contiguous: bool, minSlab: nat, maxSlab: nat)

  /** blk_cache_alloc_resp. */
  datatype Resp = Resp(alloced: nat, zombied: nat, needRefill: bool, out: seq<Entry>, excess: seq<Entry>)

  ghost predicate ValidResp(p: nat, req: Req, resp: Resp) {
    && resp.alloced == Total(resp.out) <= req.nblks && resp.zombied == Total(resp.excess)
    && AllInPortion(p, resp.out) && AllInPortion(p, resp.excess)
  }

  /** Blocks of the cache and of a response together. */
  ghost function AllAt(slabs: seq<Slab>, resp: Resp, x: nat): nat {
    CachedAt(slabs, x) + At(resp.out, x) + At(resp.excess, x)
  }

  /** blk_cache_refill_status. */
  datatype Refill = Refill(required: nat, refilled: nat) {
    predicate Need() {
      required != 0 && refilled != required
    }

    predicate Done() {
      required == 0 || refilled == required
    }
  }

  /** blk_cache_fill_session. */
  datatype Session = Session(reqs: seq<Refill>, blks: nat, done: bool)

  lemma InSplit(e: Entry, n: nat)
    requires n <= e.count
    ensures forall x :: In(e, x) == In(Entry(e.blk, n, e.temp), x) + In(Entry(e.blk + n, e.count - n, e.temp), x)
  {
  }

  // ---------- the cache ----------

  class FreeBlkCacheQueue {
    const portion: nat
    var slabs: seq<Slab>

    ghost predicate Valid()
      reads this
    {
      ValidSlabs(portion, slabs)
    }

    /** Empty queues with the given capacities per slab and level. */
    constructor (p: nat, limits: seq<seq<nat>>)
      requires limits != [] && forall i :: 0 <= i < |limits| ==> limits[i] != []
      ensures portion == p && Valid() && |slabs| == |limits|
      ensures forall i :: 0 <= i < |slabs| ==> Empty(slabs[i]) && slabs[i].limits == limits[i]
    {
      portion := p;
      slabs := seq(|limits|, i requires 0 <= i < |limits| => Slab(limits[i], seq(|limits[i]|, _ => [])));
    }

    /** SlabCacheQueue::push: the level of the entry's temperature first, then the others in turn. */
    method PushSlab(i: nat, e: Entry, onlyThisLevel: bool) returns (level: Option<nat>)
      requires Valid() && i < |slabs| && e.count == Pow2(i) && InPortion(portion, e.blk, e.count)
      modifies this
      ensures Valid() && |slabs| == |old(slabs)|
      ensures level.None? ==> slabs == old(slabs)
      ensures forall j :: 0 <= j < |slabs| && j != i ==> slabs[j] == old(slabs)[j]
      ensures slabs[i].limits == old(slabs)[i].limits
      ensures Entries(slabs[i].levels) == Entries(old(slabs)[i].levels) + if level.Some? then 1 else 0
      ensures level.None? && !onlyThisLevel ==> forall l :: 0 <= l < |slabs[i].levels| ==>
        |slabs[i].levels[l]| == slabs[i].limits[l]
      ensures forall x :: CachedAt(slabs, x) == CachedAt(old(slabs), x) + if level.Some? then In(e, x) else 0
    {
      hide CachedAt, At, Pow2, InPortion, Entries;
      var slab := slabs[i];
      var n := |slab.levels|;
      var start := if e.temp >= n then n - 1 else e.temp;
      var k := 0;
      while k < n && (k == 0 || !onlyThisLevel)
        invariant k <= n && slabs == old(slabs) && slab == slabs[i]
        invariant forall j :: 0 <= j < k ==> |slab.levels[Around(start, j, n)]| == slab.limits[Around(start, j, n)]
      {
        var l := Around(start, k, n);
        assert ValidLevel(portion, Pow2(i), slab.limits[l], slab.levels[l]);
        if |slab.levels[l]| < slab.limits[l] {
          AtPush(slab.levels[l], e);
          SetLevelAt(portion, slabs, i, l, slab.levels[l] + [e]);
          EntriesUpdate(slab.levels, l, slab.levels[l] + [e]);
          slabs := SetLevel(slabs, i, l, slab.levels[l] + [e]);
          return Some(l);
        }
        k := k + 1;
      }
      level := None;
      if !onlyThisLevel {
        forall l | 0 <= l < n
          ensures |slab.levels[l]| == slab.limits[l]
        {
          var j := if l >= start then l - start else l + n - start;
          assert Around(start, j, n) == l;
        }
      }
    }

    /** SlabCacheQueue::pop. The level returned is the one the search started with. */
    method PopSlab(i: nat, level: nat) returns (r: Option<(nat, Entry)>)
      requires Valid() && i < |slabs|
      modifies this
      ensures Valid() && |slabs| == |old(slabs)|
      ensures r.None? ==> slabs == old(slabs) && Empty(slabs[i])
      ensures forall j :: 0 <= j < |slabs| && j != i ==> slabs[j] == old(slabs)[j]
      ensures r.Some? ==> r.value.1.count == Pow2(i) && InPortion(portion, r.value.1.blk, r.value.1.count)
      ensures LevelsTotal(old(slabs)[i].levels) == LevelsTotal(slabs[i].levels) + if r.Some? then Pow2(i) else 0
      ensures forall x :: CachedAt(old(slabs), x) == CachedAt(slabs, x) + if r.Some? then In(r.value.1, x) else 0
    {
      hide CachedAt, At, Pow2, InPortion, Total, LevelsTotal;
      var slab := slabs[i];
      var n := |slab.levels|;
      var start := if level >= n then n - 1 else level;
      var k := 0;
      while k < n
        invariant k <= n && slabs == old(slabs) && slab == slabs[i]
        invariant forall j :: 0 <= j < k ==> slab.levels[Around(start, j, n)] == []
      {
        var l := Around(start, k, n);
        assert ValidLevel(portion, Pow2(i), slab.limits[l], slab.levels[l]);
        if slab.levels[l] != [] {
          var e := slab.levels[l][0];
          AtPop(slab.levels[l]);
          SetLevelAt(portion, slabs, i, l, slab.levels[l][1..]);
          LevelsTotalUpdate(slab.levels, l, slab.levels[l][1..]);
          slabs := SetLevel(slabs, i, l, slab.levels[l][1..]);
          return Some((start, e));
        }
        k := k + 1;
      }
      r := None;
      forall l | 0 <= l < n
        ensures slab.levels[l] == []
      {
        var j := if l >= start then l - start else l + n - start;
        assert Around(start, j, n) == l;
      }
    }

    /** Splits a run into slab-sized entries, largest first. What finds no room is excess. */
    method TryFreeBlks(entry: Entry, excess: seq<Entry>) returns (zombied: nat, rest: seq<Entry>)
      requires Valid() && entry.count < Pow2(|slabs|) && AllInPortion(portion, excess)
      requires entry.count > 0 ==> InPortion(portion, entry.blk, entry.count)
      modifies this
      ensures Valid() && |slabs| == |old(slabs)|
      ensures AllInPortion(portion, rest) && Total(rest) == Total(excess) + zombied
      ensures forall x :: CachedAt(slabs, x) + At(rest, x) == CachedAt(old(slabs), x) + At(excess, x) + In(entry, x)
    {
      hide CachedAt, At, Pow2, InPortion, Total, FindRoundDownSlab, ValidSlabs;
      var e := entry;
      zombied, rest := 0, excess;
      while e.count > 0
        invariant Valid() && |slabs| == |old(slabs)| && e.count < Pow2(|slabs|)
        invariant e.count > 0 ==> InPortion(portion, e.blk, e.count)
        invariant AllInPortion(portion, rest) && Total(rest) == Total(excess) + zombied
        invariant forall x ::
          CachedAt(slabs, x) + At(rest, x) + In(e, x) == CachedAt(old(slabs), x) + At(excess, x) + In(entry, x)
        decreases e.count
      {
        var (s, more) := FindRoundDownSlab(e.count);
        RoundDownSlabIsLargest(e.count);
        SlabFits(s, |slabs|, e.count);
        var size := Pow2(s);
        InSplit(e, size);
        PartInPortion(portion, e.blk, e.count, e.blk, size);
        var part := e.(count := size);
        var pushed := PushSlab(s, part, false);
        if pushed.None? {
          AtPush(rest, part);
          rest := rest + [part];
          zombied := zombied + part.count;
        }
        if more > 0 {
          PartInPortion(portion, e.blk, e.count, e.blk + size, more);
        }
        e := e.(blk := e.blk + size, count := more);
      }
    }

    /** The end of an allocation in slab `i`: blocks beyond the request are cut off the last entry and freed. */
    method FreeResidue(i: nat, req: Req, resp0: Resp) returns (resp: Resp)
      requires Valid() && i < |slabs| && resp0.alloced == Total(resp0.out) && resp0.zombied == Total(resp0.excess)
      requires AllInPortion(portion, resp0.out) && AllInPortion(portion, resp0.excess)
      requires resp0.alloced > req.nblks ==>
        resp0.alloced < req.nblks + Pow2(i) && resp0.out != [] && resp0.out[|resp0.out| - 1].count == Pow2(i)
      modifies this
      ensures Valid() && |slabs| == |old(slabs)| && ValidResp(portion, req, resp)
      ensures resp.alloced == if resp0.alloced > req.nblks then req.nblks else resp0.alloced
      ensures |resp.out| == |resp0.out| && (resp0.alloced <= req.nblks ==> resp == resp0 && slabs == old(slabs))
      ensures forall x :: AllAt(slabs, resp, x) == AllAt(old(slabs), resp0, x)
    {
      hide CachedAt, At, Pow2, InPortion, Total, ValidSlabs;
      resp := resp0;
      if resp.alloced > req.nblks {
        var residue := resp.alloced - req.nblks;
        var needed := Pow2(i) - residue;
        var n := |resp.out| - 1;
        var last := resp.out[n];
        var part, rest := last.(count := needed), last.(blk := last.blk + needed, count := residue);
        InSplit(last, needed);
        PartInPortion(portion, last.blk, last.count, last.blk, needed);
        PartInPortion(portion, last.blk, last.count, last.blk + needed, residue);
        AtPush(resp.out[..n], part);
        AtPush(resp.out[..n], last);
        assert resp.out == resp.out[..n] + [last];
        PowMonotone(i, |slabs|);
        var zombied, excess := TryFreeBlks(rest, resp.excess);
        resp := resp.(alloced := req.nblks, out := resp.out[..n] + [part],
                      excess := excess, zombied := resp.zombied + zombied);
      }
    }

    /** Takes up to `entries` entries of slab `i`. */
    method PopEntries(i: nat, entries: nat, req: Req, resp0: Resp) returns (got: nat, resp: Resp)
      requires Valid() && i < |slabs| && ValidResp(portion, req, resp0)
      modifies this
      ensures Valid() && |slabs| == |old(slabs)| && got <= entries
      ensures resp == resp0.(out := resp.out, needRefill := resp.needRefill)
      ensures Total(resp.out) == resp0.alloced + Times(got, Pow2(i)) && |resp.out| == |resp0.out| + got
      ensures AllInPortion(portion, resp.out) && (got > 0 ==> resp.out[|resp.out| - 1].count == Pow2(i))
      ensures got == 0 && entries > 0 ==> resp == resp0 && slabs == old(slabs)
      ensures got < entries ==> Empty(slabs[i])
      ensures LevelsTotal(old(slabs)[i].levels) == LevelsTotal(slabs[i].levels) + Times(got, Pow2(i))
      ensures forall j :: 0 <= j < |slabs| && j != i ==> slabs[j] == old(slabs)[j]
      ensures forall x :: AllAt(slabs, resp, x) == AllAt(old(slabs), resp0, x)
    {
      hide CachedAt, At, Pow2, InPortion, Total, ValidSlabs, Times, Empty, LevelsTotal;
      resp, got := resp0, 0;
      TimesStep(0, Pow2(i));
      while got < entries
        invariant Valid() && |slabs| == |old(slabs)| && got <= entries
        invariant resp == resp0.(out := resp.out, needRefill := resp.needRefill)
        invariant Total(resp.out) == resp0.alloced + Times(got, Pow2(i)) && |resp.out| == |resp0.out| + got
        invariant AllInPortion(portion, resp.out) && (got > 0 ==> resp.out[|resp.out| - 1].count == Pow2(i))
        invariant got == 0 ==> resp == resp0 && slabs == old(slabs)
        invariant LevelsTotal(old(slabs)[i].levels) == LevelsTotal(slabs[i].levels) + Times(got, Pow2(i))
        invariant forall j :: 0 <= j < |slabs| && j != i ==> slabs[j] == old(slabs)[j]
        invariant forall x :: AllAt(slabs, resp, x) == AllAt(old(slabs), resp0, x)
      {
        TimesStep(got, Pow2(i));
        var popped := PopSlab(i, req.level);
        if popped.None? {
          return;
        }
        var e := popped.value.1;
        AtPush(resp.out, e);
        resp := resp.(out := resp.out + [e], needRefill := resp.needRefill || popped.value.0 != req.level);
        got := got + 1;
      }
    }

    /** try_alloc_in_slab. */
    method TryAllocInSlab(i: nat, req: Req, resp0: Resp) returns (status: Status, resp: Resp)
      requires Valid() && i < |slabs| && ValidResp(portion, req, resp0)
      modifies this
      ensures Valid() && |slabs| == |old(slabs)| && ValidResp(portion, req, resp)
      ensures forall x :: AllAt(slabs, resp, x) == AllAt(old(slabs), resp0, x)
      ensures status.Success? <==> resp.alloced == req.nblks
      ensures status.Partial? ==> resp0.alloced < resp.alloced < req.nblks
      ensures status.Failed? ==> resp == resp0 && slabs == old(slabs)
      ensures !status.SpaceFull?
      ensures !status.Success? ==> forall j :: 0 <= j < |slabs| && j != i ==> slabs[j] == old(slabs)[j]
      ensures !status.Success? && (req.contiguous ==> req.nblks <= Pow2(i)) ==> Empty(slabs[i])
      ensures !req.contiguous ==>
        (status.Success? <==> resp0.alloced + LevelsTotal(old(slabs)[i].levels) >= req.nblks)
      ensures !req.contiguous && !status.Success? ==> resp.alloced == resp0.alloced + LevelsTotal(old(slabs)[i].levels)
      ensures req.contiguous ==>
        !status.Partial? && (status.Success? && resp0.out == [] && req.nblks > 0 ==> |resp.out| == 1)
    {
      hide CachedAt, At, AllAt, Pow2, InPortion, Total, ValidSlabs, Times, EntriesNeeded, AllInPortion, Empty,
           LevelsTotal;
      TotalNone();
      resp := resp0;
      if resp.alloced >= req.nblks {
        return Success, resp;
      }
      var needed := req.nblks - resp.alloced;
      var entries := EntriesNeeded(needed, Pow2(i));
      EntriesCover(needed, Pow2(i));
      if req.contiguous && entries > 1 {
        TimesMonotone(1, entries, Pow2(i));
        TimesStep(0, Pow2(i));
        return Failed, resp;
      }
      var got;
      got, resp := PopEntries(i, entries, req, resp);
      TimesMonotone(got, entries, Pow2(i));
      if got < entries {
        NoneLeft(slabs[i]);
      }
      ghost var before := resp;
      resp := resp.(alloced := resp.alloced + Times(got, Pow2(i)));
      SameAll(slabs, before, resp);
      resp := FreeResidue(i, req, resp);
      status := if got == entries then Success else if got == 0 then Failed else Partial;
    }

    /** Tries the larger slabs in turn. A contiguous request is never Partial in a slab, so there is
        no partial result to give back. */
    method BreakUp(i: nat, req: Req, resp0: Resp) returns (status: Status, resp: Resp)
      requires Valid() && ValidResp(portion, req, resp0) && resp0.alloced < req.nblks
      modifies this
      ensures Valid() && |slabs| == |old(slabs)| && ValidResp(portion, req, resp)
      ensures forall x :: AllAt(slabs, resp, x) == AllAt(old(slabs), resp0, x)
      ensures status == Outcome(req, resp)
      ensures req.contiguous && resp0.out == [] ==> if status.Success? then |resp.out| == 1 else resp == resp0
      ensures !req.contiguous && i < |slabs| ==>
        && (status.Success? <==> resp0.alloced + Blks(old(slabs), i + 1, |slabs|) >= req.nblks)
        && (!status.Success? ==> resp.alloced == resp0.alloced + Blks(old(slabs), i + 1, |slabs|))
      ensures !status.Success? ==> forall j :: 0 <= j < |slabs| ==>
        (j <= i ==> slabs[j] == old(slabs)[j])
        && (j > i && (req.contiguous ==> req.nblks <= Pow2(j)) ==> Empty(slabs[j]))
      decreases |slabs| - i
    {
      hide CachedAt, At, AllAt, InPortion, Total, ValidSlabs, AllInPortion, Empty, Pow2, LevelsTotal;
      resp := resp0;
      if i >= |slabs| - 1 {
        return if resp.alloced > 0 then Partial else Failed, resp;
      }
      BlksSplit(slabs, i + 1, i + 2, |slabs|);
      assert Blks(slabs, i + 1, i + 1) == 0;
      status, resp := TryAllocInSlab(i + 1, req, resp);
      if status != Success {
        BlksSame(slabs, old(slabs), i + 2, |slabs|);
        status, resp := BreakUp(i + 1, req, resp);
      }
    }

    /** merge_down: collects from the smaller slabs in turn, down to the smallest the request allows. From
        below that slab it meets no end, and it leaves the slab array (`inRange` is false) if and only if
        the smaller slabs do not hold what is missing. */
    method MergeDown(i: nat, req: Req, resp0: Resp) returns (inRange: bool, status: Status, resp: Resp)
      requires Valid() && ValidResp(portion, req, resp0) && resp0.alloced < req.nblks && i < |slabs|
      modifies this
      ensures Valid() && |slabs| == |old(slabs)| && ValidResp(portion, req, resp)
      ensures forall x :: AllAt(slabs, resp, x) == AllAt(old(slabs), resp0, x)
      ensures status == Outcome(req, resp)
      ensures inRange <==> req.minSlab <= i || status.Success?
      ensures !req.contiguous ==>
        (status.Success? <==> resp0.alloced + Blks(old(slabs), Lowest(i, req), i) >= req.nblks)
      ensures !status.Success? && !req.contiguous ==> forall j :: 0 <= j < |slabs| ==>
        (j >= i ==> slabs[j] == old(slabs)[j]) && (Lowest(i, req) <= j < i ==> Empty(slabs[j]))
      decreases i
    {
      hide CachedAt, At, AllAt, InPortion, Total, ValidSlabs, AllInPortion, Empty, Pow2, LevelsTotal;
      resp := resp0;
      if i == req.minSlab || i == 0 {
        return i == req.minSlab, if resp.alloced > 0 then Partial else Failed, resp;
      }
      inRange := true;
      status, resp := TryAllocInSlab(i - 1, req, resp);
      if status != Success {
        BlksSame(slabs, old(slabs), Lowest(i, req), i - 1);
        inRange, status, resp := MergeDown(i - 1, req, resp);
      }
    }

    /** try_alloc_blks: every block of the cache is still cached, given out or excess, and in one of
        these places only. Success gives exactly the blocks asked for, in one entry when contiguous;
        a contiguous request that fails gives nothing. A request that need not be contiguous succeeds
        exactly when the slabs it may use hold enough. It stays within the slab array unless its smallest
        slab lies above the slab it starts with and the whole cache holds too little. */
    method TryAllocBlks(req: Req, needRefill: bool) returns (inRange: bool, status: Status, resp: Resp)
      requires Valid() && req.maxSlab < |slabs| && req.nblks > 0
      modifies this
      ensures Valid() && |slabs| == |old(slabs)| && ValidResp(portion, req, resp)
      ensures forall x :: CachedAt(old(slabs), x) == CachedAt(slabs, x) + At(resp.out, x) + At(resp.excess, x)
      ensures status == Outcome(req, resp)
      ensures req.contiguous ==> if status.Success? then |resp.out| == 1 else status == Failed && resp.out == []
      ensures !status.Success? ==> forall j :: req.minSlab <= j < |slabs| ==>
        (!req.contiguous || (req.nblks <= Pow2(j) && j >= SlabOf(req)) ==> Empty(slabs[j]))
      ensures inRange <==>
        req.contiguous || req.minSlab <= SlabOf(req) || Blks(old(slabs), 0, |old(slabs)|) >= req.nblks
      ensures !req.contiguous ==>
        (status.Success? <==> Blks(old(slabs), Lowest(SlabOf(req), req), |old(slabs)|) >= req.nblks)
    {
      hide CachedAt, At, AllAt, InPortion, Total, ValidSlabs, FindSlab, Empty, Pow2, LevelsTotal, Blks;
      TotalNone();
      var i := SlabOf(req);
      ghost var low := Lowest(i, req);
      BlksSplit(slabs, low, i, |slabs|);
      BlksSplit(slabs, i, i + 1, |slabs|);
      OneSlab(slabs, i);
      resp := Resp(0, 0, needRefill, [], []);
      ghost var start := resp;
      inRange := true;
      status, resp := TryAllocInSlab(i, req, resp);
      if status != Success {
        BlksSame(slabs, old(slabs), i + 1, |slabs|);
        status, resp := BreakUp(i, req, resp);
        if status != Success && !req.contiguous {
          BlksSame(slabs, old(slabs), low, i);
          inRange, status, resp := MergeDown(i, req, resp);
        }
      }
      FromNothing(old(slabs), start, slabs, resp);
    }

    /** Frees a list of runs. */
    method TryFreeAll(blks: seq<Entry>, excess: seq<Entry>) returns (zombied: nat, rest: seq<Entry>)
      requires Valid() && AllInPortion(portion, blks) && AllInPortion(portion, excess)
      requires forall k :: 0 <= k < |blks| ==> blks[k].count < Pow2(|slabs|)
      modifies this
      ensures Valid() && |slabs| == |old(slabs)|
      ensures AllInPortion(portion, rest) && Total(rest) == Total(excess) + zombied
      ensures forall x :: CachedAt(slabs, x) + At(rest, x) == CachedAt(old(slabs), x) + At(excess, x) + At(blks, x)
    {
      hide CachedAt, At, InPortion, Total, ValidSlabs, Pow2;
      zombied, rest := 0, excess;
      AtNone();
      assert blks[..0] == [] && blks[..|blks|] == blks;
      for k := 0 to |blks|
        invariant Valid() && |slabs| == |old(slabs)|
        invariant AllInPortion(portion, rest) && Total(rest) == Total(excess) + zombied
        invariant forall x ::
          CachedAt(slabs, x) + At(rest, x) == CachedAt(old(slabs), x) + At(excess, x) + At(blks[..k], x)
      {
        var more;
        more, rest := TryFreeBlks(blks[k], rest);
        zombied := zombied + more;
        AtPush(blks[..k], blks[k]);
        assert blks[..k + 1] == blks[..k] + [blks[k]];
      }
    }

    /** Fills slab `i` from the run that starts at `blk`. */
    method FillSlab(i: nat, blk0: nat, remain0: nat, temp: nat, only: bool, s0: Session)
      returns (blk: nat, remain: nat, s: Session)
      requires Valid() && i < |slabs| && i < |s0.reqs| && (remain0 > 0 ==> InPortion(portion, blk0, remain0))
      modifies this
      ensures Valid() && |slabs| == |old(slabs)| && |s.reqs| == |s0.reqs|
      ensures remain <= remain0 && blk == blk0 + (remain0 - remain) && s.done == s0.done
      ensures remain > 0 ==> InPortion(portion, blk, remain)
      ensures s.blks == s0.blks + (remain0 - remain)
      ensures forall j :: 0 <= j < |s.reqs| && j != i ==> s.reqs[j] == s0.reqs[j]
      ensures forall x :: CachedAt(slabs, x) == CachedAt(old(slabs), x) + In(Entry(blk0, remain0 - remain, temp), x)
    {
      hide CachedAt, InPortion, ValidSlabs, Pow2;
      blk, remain, s := blk0, remain0, s0;
      InNone(blk0, temp);
      var size := Pow2(i);
      while remain >= size && s.reqs[i].Need()
        invariant Valid() && |slabs| == |old(slabs)| && |s.reqs| == |s0.reqs| && s.done == s0.done
        invariant remain <= remain0 && blk == blk0 + (remain0 - remain) && s.blks == s0.blks + (remain0 - remain)
        invariant remain > 0 ==> InPortion(portion, blk, remain)
        invariant forall j :: 0 <= j < |s.reqs| && j != i ==> s.reqs[j] == s0.reqs[j]
        invariant forall x :: CachedAt(slabs, x) == CachedAt(old(slabs), x) + In(Entry(blk0, remain0 - remain, temp), x)
        decreases remain
      {
        PartInPortion(portion, blk, remain, blk, size);
        var pushed := PushSlab(i, Entry(blk, size, temp), only);
        if pushed.None? {
          s := s.(reqs := s.reqs[i := s.reqs[i].(refilled := s.reqs[i].required)]);
          break;
        }
        if remain > size {
          PartInPortion(portion, blk, remain, blk + size, remain - size);
        }
        InSplit(Entry(blk0, remain0 - remain + size, temp), remain0 - remain);
        s := s.(reqs := s.reqs[i := s.reqs[i].(refilled := s.reqs[i].refilled + 1)], blks := s.blks + size);
        remain, blk := remain - size, blk + size;
      }
    }

    /** try_fill_cache: a prefix of the free run goes into the cache, largest slab first. The code reads the
        requirement of the first slab it tries, and is in range if and only if the session has that many.
        The session is over only when no slab needs more. */
    method TryFillCache(start: nat, nblks: nat, temp: nat, only: bool, s0: Session)
      returns (inRange: bool, added: nat, s: Session)
      requires Valid() && InPortion(portion, start, nblks)
      modifies this
      ensures Valid() && |slabs| == |old(slabs)| && |s.reqs| == |s0.reqs|
      ensures inRange <==> TopSlab(nblks, |slabs|) < |s0.reqs|
      ensures added <= nblks && s.blks == s0.blks + added && (!inRange ==> added == 0 && s == s0)
      ensures forall x :: CachedAt(slabs, x) == CachedAt(old(slabs), x) + In(Entry(start, added, temp), x)
      ensures inRange && s.done ==> forall j :: 0 <= j < |slabs| ==> j < |s.reqs| && s.reqs[j].Done()
    {
      hide CachedAt, ValidSlabs, Pow2, InPortion, FindSlab;
      s := s0;
      SomeSlab(portion, slabs);
      var pending := |slabs|;
      var i := TopSlab(nblks, |slabs|);
      InNone(start, temp);
      if i >= |s.reqs| {
        return false, 0, s;
      }
      inRange := true;
      var blk: nat, remain: nat := start, nblks;
      var top, next := i, i + 1;
      while next > 0 && (next == top + 1 || remain > 0)
        invariant Valid() && |slabs| == |old(slabs)| && |s.reqs| == |s0.reqs|
        invariant 0 <= next <= top + 1 <= |slabs| && top < |s.reqs|
        invariant remain <= nblks && blk == start + (nblks - remain) && s.blks == s0.blks + (nblks - remain)
        invariant remain > 0 ==> InPortion(portion, blk, remain)
        invariant pending >= |slabs| - (top + 1 - next)
        invariant pending == |slabs| - (top + 1 - next) ==> forall j :: next <= j <= top ==> s.reqs[j].Done()
        invariant forall x :: CachedAt(slabs, x) == CachedAt(old(slabs), x) + In(Entry(start, nblks - remain, temp), x)
        decreases next
      {
        i := next - 1;
        ghost var remain1 := remain;
        blk, remain, s := FillSlab(i, blk, remain, temp, only, s);
        InSplit(Entry(start, nblks - remain, temp), nblks - remain1);
        if s.reqs[i].Done() {
          pending := pending - 1;
        }
        next := i;
      }
      s := s.(done := pending == 0);
      added := nblks - remain;
    }

    /** create_cache_fill_session: asks every slab how many entries it needs. */
    method CreateSession(refills: seq<RefillState>, whole: bool) returns (s: Session)
      requires |refills| == |slabs|
      ensures s == Session(Requirements(slabs, refills, whole), 0, false)
    {
      var reqs := [];
      assert slabs[..0] == [] && slabs[..|slabs|] == slabs && refills[..|slabs|] == refills;
      for k := 0 to |slabs|
        invariant reqs == Requirements(slabs[..k], refills[..k], whole)
      {
        assert slabs[..k + 1][..k] == slabs[..k] && refills[..k + 1][..k] == refills[..k];
        var needed := Needed(slabs[k], refills[k], whole);
        if needed > 0 {
          reqs := reqs + [Refill(needed, 0)];
        }
      }
      s := Session(reqs, 0, false);
    }
  }

  lemma SomeSlab(p: nat, slabs: seq<Slab>)
    requires ValidSlabs(p, slabs)
    ensures slabs != []
  {
  }

  /** The slab that takes the first part of a run of `n` blocks. */
  function TopSlab(n: nat, slabs: nat): nat
    requires slabs > 0
  {
    if FindSlab(n) >= slabs then slabs - 1 else FindSlab(n)
  }

  /** When a slab asks for a refill, and whether a session is running on it. */
  datatype RefillState = RefillState(threshold: nat, busy: bool)

  function Entries(levels: seq<seq<Entry>>): nat {
    if levels == [] then 0 else Entries(levels[..|levels| - 1]) + |levels[|levels| - 1]|
  }

  function Capacity(limits: seq<nat>): nat {
    if limits == [] then 0 else Capacity(limits[..|limits| - 1]) + limits[|limits| - 1]
  }

  lemma {:induction false} EntriesUpdate(levels: seq<seq<Entry>>, l: nat, level: seq<Entry>)
    requires l < |levels|
    ensures Entries(levels[l := level]) + |levels[l]| == Entries(levels) + |level|
  {
    var n, m := |levels| - 1, levels[l := level];
    if l == n {
      assert m[..n] == levels[..n];
    } else {
      assert m[..n] == levels[..n][l := level];
      EntriesUpdate(levels[..n], l, level);
    }
  }

  /** open_session: how many entries a slab needs. */
  function Needed(slab: Slab, refill: RefillState, whole: bool): nat {
    var n, max := Entries(slab.levels), Capacity(slab.limits);
    if !refill.busy && (whole || n < refill.threshold) && n < max then max - n else 0
  }

  /** The requirements of a session: those of the slabs that need entries. */
  function Requirements(slabs: seq<Slab>, refills: seq<RefillState>, whole: bool): (reqs: seq<Refill>)
    requires |refills| == |slabs|
    ensures |reqs| <= |slabs|
  {
    if slabs == [] then []
    else
      var n := |slabs| - 1;
      var needed := Needed(slabs[n], refills[n], whole);
      Requirements(slabs[..n], refills[..n], whole) + if needed > 0 then [Refill(needed, 0)] else []
  }

  /** A session has one requirement per slab if and only if every slab needs a refill; only then is the
      requirement at each slab's index that slab's own. */
  lemma {:induction false} SessionPerSlabIff(slabs: seq<Slab>, refills: seq<RefillState>, whole: bool)
    requires |refills| == |slabs|
    ensures var reqs := Requirements(slabs, refills, whole);
            && (|reqs| == |slabs| <==> forall i :: 0 <= i < |slabs| ==> Needed(slabs[i], refills[i], whole) > 0)
            && (|reqs| == |slabs| ==>
                 forall i :: 0 <= i < |slabs| ==> reqs[i].required == Needed(slabs[i], refills[i], whole))
  {
    hide Needed;
    if slabs != [] {
      var n := |slabs| - 1;
      SessionPerSlabIff(slabs[..n], refills[..n], whole);
    }
  }

  lemma OneLevel(slab: Slab)
    requires |slab.limits| == |slab.levels| == 1
    ensures Capacity(slab.limits) == slab.limits[0] && Entries(slab.levels) == |slab.levels[0]|
  {
    assert slab.limits[..0] == [] && slab.levels[..0] == [];
  }

  /** Two slabs, the first of them full: the session has one requirement, that of the second slab, and a
      free run of two blocks makes the code read a second one. */
  method MissingRequirement() returns (s: Session, inRange: bool)
    ensures |s.reqs| == 1 && !inRange
  {
    var cache := new FreeBlkCacheQueue(16, [[1], [1]]);
    assert InPortion(16, 0, 1) && InPortion(16, 2, 2);
    OneLevel(cache.slabs[0]);
    OneLevel(cache.slabs[1]);
    var pushed := cache.PushSlab(0, Entry(0, 1, 0), false);
    OneLevel(cache.slabs[0]);
    var refills := [RefillState(1, false), RefillState(1, false)];
    s := cache.CreateSession(refills, true);
    assert cache.slabs[..1] == [cache.slabs[0]];
    var added;
    inRange, added, s := cache.TryFillCache(2, 2, 0, false, s);
  }

  /** What the status says about a response. */
  function Outcome(req: Req, resp: Resp): Status {
    if resp.alloced >= req.nblks then Success else if resp.alloced > 0 then Partial else Failed
  }

  /** The slab an allocation starts with. */
  function SlabOf(req: Req): nat {
    if FindSlab(req.nblks) < req.maxSlab then FindSlab(req.nblks) else req.maxSlab
  }

  /** The lowest slab that merge_down from slab `i` takes entries of. */
  function Lowest(i: nat, req: Req): nat {
    if req.minSlab <= i then req.minSlab else 0
  }

  lemma OneSlab(slabs: seq<Slab>, i: nat)
    requires i < |slabs|
    ensures Blks(slabs, i, i + 1) == LevelsTotal(slabs[i].levels)
  {
    assert Blks(slabs, i, i) == 0;
  }

  /** A request for one block in pieces of at least four, on an empty cache, leaves the slab array. */
  method LeavesSlabs() returns (inRange: bool)
    ensures !inRange
  {
    hide Blks, FindSlab;
    var cache := new FreeBlkCacheQueue(16, [[1], [1], [1]]);
    var req := Req(1, 0, false, 2, 2);
    assert SlabOf(req) == 0 by { FitsSlab(1, 0); }
    NoBlks(cache.slabs, 3);
    var status, resp;
    inRange, status, resp := cache.TryAllocBlks(req, false);
  }

  lemma {:induction false} NoBlks(slabs: seq<Slab>, hi: nat)
    requires hi <= |slabs| && forall i :: 0 <= i < |slabs| ==> Empty(slabs[i])
    ensures Blks(slabs, 0, hi) == 0
  {
    if hi > 0 {
      NoBlks(slabs, hi - 1);
      NoneLeft(slabs[hi - 1]);
    }
  }

  lemma InNone(blk: nat, temp: nat)
    ensures forall x :: In(Entry(blk, 0, temp), x) == 0
  {
  }

  lemma AtNone()
    ensures forall x :: At([], x) == 0
  {
  }

  lemma TotalNone()
    ensures Total([]) == 0
  {
  }

  lemma FromNothing(slabs: seq<Slab>, resp: Resp, slabs': seq<Slab>, resp': Resp)
    requires resp.out == resp.excess == [] && forall x :: AllAt(slabs', resp', x) == AllAt(slabs, resp, x)
    ensures forall x :: CachedAt(slabs, x) == CachedAt(slabs', x) + At(resp'.out, x) + At(resp'.excess, x)
  {
    hide CachedAt;
    forall x: nat
      ensures CachedAt(slabs, x) == CachedAt(slabs', x) + At(resp'.out, x) + At(resp'.excess, x)
    {
      assert AllAt(slabs', resp', x) == AllAt(slabs, resp, x);
    }
  }

  lemma NoneLeft(slab: Slab)
    requires Empty(slab)
    ensures LevelsTotal(slab.levels) == 0
  {
    EmptyTotal(slab.levels);
  }

  /** Counts depend on the lists of a response only. */
  lemma SameAll(slabs: seq<Slab>, a: Resp, b: Resp)
    requires a.out == b.out && a.excess == b.excess
    ensures forall x :: AllAt(slabs, a, x) == AllAt(slabs, b, x)
  {
  }

  function Times(k: nat, size: nat): nat {
    k * size
  }

  function EntriesNeeded(n: nat, size: nat): nat
    requires n > 0 && size > 0
  {
    (n - 1) / size + 1
  }

  lemma EntriesCover(n: nat, size: nat)
    requires n > 0 && size > 0
    ensures var k := EntriesNeeded(n, size);
            k > 0 && Times(k - 1, size) < n <= Times(k, size) == Times(k - 1, size) + size
  {
  }

  lemma TimesStep(k: nat, size: nat)
    ensures Times(k + 1, size) == Times(k, size) + size && Times(0, size) == 0
  {
  }

  lemma TimesMonotone(j: nat, k: nat, size: nat)
    requires j <= k && size > 0
    ensures (j < k ==> Times(j, size) <= Times(k - 1, size)) && (j > 0 ==> Times(j, size) > 0)
    ensures j == 0 ==> Times(j, size) == 0
  {
    MultipleGrows(j, size);
    if j < k {
      MultipleGrows(k - 1 - j, size);
      assert (k - 1 - j) * size == (k - 1) * size - j * size;
    }
  }

  lemma SlabFits(s: nat, n: nat, count: nat)
    requires Pow2(s) <= count < Pow2(n)
    ensures s < n
  {
    if n <= s {
      PowMonotone(n, s);
    }
  }
}
