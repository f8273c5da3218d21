/** Rounding and division, as the journal, the log and the block layers use them. */
module Arithmetic {

  function RoundDown(x: nat, m: nat): nat
    requires m > 0
  {
    x / m * m
  }

  function RoundUp(x: nat, m: nat): nat
    requires m > 0
  {
    (x + m - 1) / m * m
  }

  /** Offset within a multiple of `m`. */
  function Mod(x: nat, m: nat): (r: nat)
    requires m > 0
    ensures r < m
  {
    x % m
  }

  lemma MultipleGrows(k: int, m: int)
    requires m > 0
    ensures (k >= 1 ==> k * m >= m) && (k <= -1 ==> k * m <= -m)
  {
  }

  lemma DivMod(m: int, q: int, r: int)
    requires 0 <= r < m
    ensures (q * m + r) % m == r && (q * m + r) / m == q
  {
    var x := q * m + r;
    assert x == x / m * m + x % m;
    assert (x / m - q) * m == r - x % m;
    MultipleGrows(x / m - q, m);
  }

  lemma DivMonotone(a: nat, b: nat, p: nat)
    requires p > 0 && a <= b
    ensures a / p <= b / p
  {
    MultipleGrows(a / p - b / p, p);
  }

  lemma RoundUpIs(x: nat, m: nat)
    requires m > 0
    ensures var r := RoundUp(x, m); x <= r < x + m && r % m == 0
  {
    var q := (x + m - 1) / m;
    DivMod(m, q, 0);
    assert x + m - 1 == q * m + (x + m - 1) % m;
  }

  lemma RoundDownIs(x: nat, m: nat)
    requires m > 0
    ensures RoundDown(x, m) <= x
  {
  }

  /** The least multiple above x is at most any multiple above x. */
  lemma MultipleAbove(x: nat, y: nat, m: nat)
    requires m > 0 && x <= y && y % m == 0
    ensures RoundUp(x, m) <= y
  {
    RoundUpIs(x, m);
    var r := RoundUp(x, m);
    MultipleGrows(r / m - y / m, m);
    assert r == r / m * m && y == y / m * m;
    assert (r / m - y / m) * m == r - y;
  }
}
