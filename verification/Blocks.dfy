/**
 Runs of blocks. `At(es, x)` counts how many entries of `es` contain block `x`, so an equation between
 counts for every block says both that no block is lost and that no block is handed out twice.
 */
module Blocks {

  import opened Arithmetic

  /** blk_cache_entry: `count` blocks from `blk` on. */
  datatype Entry = Entry(blk: nat, count: nat, temp: nat)

  function In(e: Entry, x: nat): nat {
    if e.blk <= x < e.blk + e.count then 1 else 0
  }

  ghost function At(es: seq<Entry>, x: nat): nat {
    if es == [] then 0 else At(es[..|es| - 1], x) + In(es[|es| - 1], x)
  }

  function Total(es: seq<Entry>): nat {
    if es == [] then 0 else Total(es[..|es| - 1]) + es[|es| - 1].count
  }

  lemma {:induction false} AtConcat(a: seq<Entry>, b: seq<Entry>, x: nat)
    ensures At(a + b, x) == At(a, x) + At(b, x) && Total(a + b) == Total(a) + Total(b)
    decreases b
  {
    var n := |b| - 1;
    if b == [] {
      assert a + b == a;
    } else {
      AtConcat(a, b[..n], x);
      assert (a + b)[..|a + b| - 1] == a + b[..n];
    }
  }

  lemma AtPush(a: seq<Entry>, e: Entry)
    ensures Total(a + [e]) == Total(a) + e.count
    ensures forall x :: At(a + [e], x) == At(a, x) + In(e, x)
  {
    assert (a + [e])[..|a|] == a;
  }

  lemma AtJoin(a: seq<Entry>, b: seq<Entry>)
    ensures Total(a + b) == Total(a) + Total(b)
    ensures forall x :: At(a + b, x) == At(a, x) + At(b, x)
  {
    AtConcat(a, b, 0);
    forall x: nat
      ensures At(a + b, x) == At(a, x) + At(b, x)
    {
      AtConcat(a, b, x);
    }
  }

  lemma AtPop(a: seq<Entry>)
    requires a != []
    ensures Total(a) == a[0].count + Total(a[1..])
    ensures forall x :: At(a, x) == In(a[0], x) + At(a[1..], x)
  {
    AtJoin([a[0]], a[1..]);
    assert a == [a[0]] + a[1..];
    AtPush([], a[0]);
    assert [] + [a[0]] == [a[0]];
  }

  // ---------- portions ----------

  /** A run that lies in one portion of `p` blocks. */
  ghost predicate InPortion(p: nat, blk: nat, count: nat) {
    p > 0 && count > 0 && blk / p == (blk + count - 1) / p
  }

  ghost predicate AllInPortion(p: nat, es: seq<Entry>) {
    forall i :: 0 <= i < |es| ==> InPortion(p, es[i].blk, es[i].count)
  }

  lemma PartInPortion(p: nat, blk: nat, count: nat, from: nat, n: nat)
    requires InPortion(p, blk, count) && blk <= from && n > 0 && from + n <= blk + count
    ensures InPortion(p, from, n)
  {
    DivMonotone(blk, from, p);
    DivMonotone(from, from + n - 1, p);
    DivMonotone(from + n - 1, blk + count - 1, p);
  }

  // ---------- powers of two ----------

  function Pow2(k: nat): (r: nat)
    ensures r >= 1
  {
    if k == 0 then 1 else 2 * Pow2(k - 1)
  }

  lemma {:induction false} PowMonotone(a: nat, b: nat)
    requires a <= b
    ensures Pow2(a) <= Pow2(b) && (a < b ==> 2 * Pow2(a) <= Pow2(b))
    decreases b - a
  {
    if a < b {
      PowMonotone(a, b - 1);
    }
  }

  /** sisl::logBase2 of a positive number. */
  function LogBase2(n: nat): nat
    requires n > 0
  {
    if n == 1 then 0 else 1 + LogBase2(n / 2)
  }

  lemma {:induction false} LogBounds(n: nat)
    requires n > 0
    ensures Pow2(LogBase2(n)) <= n < Pow2(LogBase2(n) + 1)
  {
    if n > 1 {
      LogBounds(n / 2);
    }
  }

  /** find_slab: the rule that the lookup table tabulates below 257. */
  function FindSlab(n: nat): nat {
    if n > 1 then LogBase2(n - 1) + 1 else 0
  }

  /** find_round_down_slab: the slab and what is left over. */
  function FindRoundDownSlab(n: nat): (nat, int) {
    if n == 0 then (0, 0)
    else
      var s := FindSlab(n + 1) - 1;
      (s, n - Pow2(s))
  }

  /** find_slab gives the smallest slab that holds n blocks. */
  lemma FindSlabIsLeast(n: nat)
    ensures n <= Pow2(FindSlab(n))
    ensures forall k :: 0 <= k < FindSlab(n) ==> Pow2(k) < n
  {
    if n > 1 {
      LogBounds(n - 1);
      forall k | 0 <= k < FindSlab(n)
        ensures Pow2(k) < n
      {
        PowMonotone(k, LogBase2(n - 1));
      }
    }
  }

  lemma FitsSlab(n: nat, k: nat)
    requires n <= Pow2(k)
    ensures FindSlab(n) <= k
  {
    FindSlabIsLeast(n);
  }

  /** find_round_down_slab gives the largest slab not larger than n blocks, and a smaller rest. */
  lemma RoundDownSlabIsLargest(n: nat)
    requires n > 0
    ensures var (s, excess) := FindRoundDownSlab(n);
            && Pow2(s) <= n < Pow2(s + 1) && 0 <= excess == n - Pow2(s) < Pow2(s)
            && forall k :: s < k ==> n < Pow2(k)
  {
    LogBounds(n);
    var s := FindRoundDownSlab(n).0;
    forall k | s < k
      ensures n < Pow2(k)
    {
      PowMonotone(s + 1, k);
    }
  }

  /** find_round_down_slab with its 16-bit argument: the sum n + 1 wraps. */
  function FindRoundDownSlab16(n: nat): (int, int) {
    if n == 0 then (0, 0)
    else
      var s := FindSlab((n + 1) % 65536) - 1;
      (s, if s < 0 then n else n - Pow2(s))
  }

  /** In the range of the argument it is the rule, except at the largest value, where it gives no slab. */
  lemma RoundDownWraps(n: nat)
    requires n < 65536
    ensures FindRoundDownSlab16(n) == FindRoundDownSlab(n) <==> n != 65535
    ensures FindRoundDownSlab16(65535).0 == -1
  {
    hide Pow2, LogBase2;
    assert FindSlab(0) == 0;
    if n < 65535 {
      assert (n + 1) % 65536 == n + 1;
    }
  }
}
