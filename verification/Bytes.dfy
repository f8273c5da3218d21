/** Little-endian integers in byte sequences, writes into sequences, and concatenation of pieces. */
module Bytes {

  import opened Arithmetic

  type Byte = bv8

  /** The byte that has bit `b` when n is 1. */
  function Bit(n: nat, b: Byte): Byte {
    if n == 1 then b else 0
  }

  function BitAt(x: Byte, b: Byte): nat {
    if x & b != 0 then 1 else 0
  }

  function Half(v: nat): nat {
    v / 2
  }

  function Odd(v: nat): (r: nat)
    ensures r <= 1
  {
    v % 2
  }

  function Pack(a: nat, b: nat, c: nat, d: nat, e: nat, f: nat, g: nat, h: nat): Byte {
    Bit(a, 1) | Bit(b, 2) | Bit(c, 4) | Bit(d, 8) | Bit(e, 16) | Bit(f, 32) | Bit(g, 64) | Bit(h, 128)
  }

  /** The low byte of a number, bit by bit. */
  function ByteOf(v: nat): Byte {
    var b := Half(v);
    var c := Half(b);
    var d := Half(c);
    var e := Half(d);
    var f := Half(e);
    var g := Half(f);
    Pack(Odd(v), Odd(b), Odd(c), Odd(d), Odd(e), Odd(f), Odd(g), Odd(Half(g)))
  }

  function ValueOf(x: Byte): nat {
    BitAt(x, 1) + 2 * BitAt(x, 2) + 4 * BitAt(x, 4) + 8 * BitAt(x, 8)
    + 16 * BitAt(x, 16) + 32 * BitAt(x, 32) + 64 * BitAt(x, 64) + 128 * BitAt(x, 128)
  }

  lemma PackLow(a: nat, b: nat, c: nat, d: nat, e: nat, f: nat, g: nat, h: nat)
    requires a <= 1 && b <= 1 && c <= 1 && d <= 1
    ensures var x := Pack(a, b, c, d, e, f, g, h);
            BitAt(x, 1) == a && BitAt(x, 2) == b && BitAt(x, 4) == c && BitAt(x, 8) == d
  {
  }

  lemma PackHigh(a: nat, b: nat, c: nat, d: nat, e: nat, f: nat, g: nat, h: nat)
    requires e <= 1 && f <= 1 && g <= 1 && h <= 1
    ensures var x := Pack(a, b, c, d, e, f, g, h);
            BitAt(x, 16) == e && BitAt(x, 32) == f && BitAt(x, 64) == g && BitAt(x, 128) == h
  {
  }

  lemma LowHalf(v: nat, m: nat)
    requires m > 0
    ensures v % (2 * m) == Odd(v) + 2 * (Half(v) % m)
  {
    var q, r := v / 2 / m, v / 2 % m;
    assert v == q * (2 * m) + (2 * r + v % 2);
    DivMod(2 * m, q, 2 * r + v % 2);
  }

  lemma Digits(v: nat)
    ensures var b := Half(v);
            var c := Half(b);
            var d := Half(c);
            var e := Half(d);
            var f := Half(e);
            var g := Half(f);
            v % 256 == Odd(v) + 2 * Odd(b) + 4 * Odd(c) + 8 * Odd(d) + 16 * Odd(e) + 32 * Odd(f)
            + 64 * Odd(g) + 128 * Odd(Half(g))
  {
    hide Half, Odd;
    var b := Half(v);
    var c := Half(b);
    var d := Half(c);
    var e := Half(d);
    var f := Half(e);
    var g := Half(f);
    LowHalf(v, 128);
    LowHalf(b, 64);
    LowHalf(c, 32);
    LowHalf(d, 16);
    LowHalf(e, 8);
    LowHalf(f, 4);
    LowHalf(g, 2);
    LowHalf(Half(g), 1);
  }

  lemma ByteValue(v: nat)
    ensures ValueOf(ByteOf(v)) == v % 256
  {
    hide Pack, Half, Odd, BitAt;
    Digits(v);
    var b := Half(v);
    var c := Half(b);
    var d := Half(c);
    var e := Half(d);
    var f := Half(e);
    var g := Half(f);
    PackLow(Odd(v), Odd(b), Odd(c), Odd(d), Odd(e), Odd(f), Odd(g), Odd(Half(g)));
    PackHigh(Odd(v), Odd(b), Odd(c), Odd(d), Odd(e), Odd(f), Odd(g), Odd(Half(g)));
  }

  /** 256^n. */
  function Range(n: nat): nat {
    if n == 0 then 1 else 256 * Range(n - 1)
  }

  function Encode(v: nat, n: nat): (r: seq<Byte>)
    ensures |r| == n
    decreases n
  {
    if n == 0 then [] else [ByteOf(v)] + Encode(v / 256, n - 1)
  }

  function Decode(s: seq<Byte>): nat {
    if s == [] then 0 else ValueOf(s[0]) + 256 * Decode(s[1..])
  }

  lemma {:induction false} RoundTrip(v: nat, n: nat)
    requires v < Range(n)
    ensures Decode(Encode(v, n)) == v
    decreases n
  {
    if n > 0 {
      hide ByteOf, ValueOf;
      RoundTrip(v / 256, n - 1);
      ByteValue(v);
      assert Encode(v, n)[1..] == Encode(v / 256, n - 1);
    }
  }

  lemma Ranges()
    ensures Range(4) == 0x1_0000_0000 && Range(8) == 0x1_0000_0000_0000_0000
  {
    assert Range(2) == 0x1_0000;
    assert Range(4) == 256 * (256 * Range(2));
    assert Range(6) == 256 * (256 * Range(4));
    assert Range(8) == 256 * (256 * Range(6));
  }

  // ---------- writes ----------

  /** `s` with `b` written at `pos`. */
  function Splice<T>(s: seq<T>, pos: nat, b: seq<T>): (r: seq<T>)
    requires pos + |b| <= |s|
    ensures |r| == |s|
  {
    s[..pos] + b + s[pos + |b|..]
  }

  /** A write is read back, and leaves everything before and after it alone. */
  lemma SpliceParts<T>(s: seq<T>, pos: nat, b: seq<T>)
    requires pos + |b| <= |s|
    ensures Splice(s, pos, b)[pos..pos + |b|] == b
    ensures Splice(s, pos, b)[..pos] == s[..pos] && Splice(s, pos, b)[pos + |b|..] == s[pos + |b|..]
  {
  }

  lemma SpliceBefore<T>(s: seq<T>, pos: nat, b: seq<T>, from: nat, to: nat)
    requires pos + |b| <= |s| && from <= to <= pos
    ensures Splice(s, pos, b)[from..to] == s[from..to]
  {
  }

  lemma SpliceAfter<T>(s: seq<T>, pos: nat, b: seq<T>, from: nat, to: nat)
    requires pos + |b| <= from <= to <= |s|
    ensures Splice(s, pos, b)[from..to] == s[from..to]
  {
  }

  /** memcpy. */
  method Copy(a: array<Byte>, pos: nat, data: seq<Byte>)
    requires pos + |data| <= a.Length
    modifies a
    ensures a[..] == Splice(old(a[..]), pos, data)
  {
    hide Splice;
    ghost var s := a[..];
    SpliceNone(s, pos);
    assert data[..0] == [] && data[..|data|] == data;
    for k := 0 to |data|
      invariant a[..] == Splice(s, pos, data[..k])
    {
      SpliceStep(s, pos, data, k);
      ghost var before := a[..];
      a[pos + k] := data[k];
      assert a[..] == before[pos + k := data[k]];
    }
  }

  lemma SpliceNone<T>(s: seq<T>, pos: nat)
    requires pos <= |s|
    ensures Splice(s, pos, []) == s
  {
  }

  lemma SpliceStep<T>(s: seq<T>, pos: nat, b: seq<T>, k: nat)
    requires pos + |b| <= |s| && k < |b|
    ensures Splice(s, pos, b[..k])[pos + k := b[k]] == Splice(s, pos, b[..k + 1])
  {
  }

  lemma PrefixSlice<T>(a: seq<T>, b: seq<T>, from: nat, to: nat)
    requires |a| <= |b| && b[..|a|] == a && from <= to <= |a|
    ensures b[from..to] == a[from..to]
  {
    forall k | 0 <= k < to - from
      ensures b[from..to][k] == a[from..to][k]
    {
      assert b[..|a|][from + k] == b[from + k];
    }
  }

  // ---------- concatenation ----------

  function Concat<B>(parts: seq<seq<B>>): seq<B> {
    if parts == [] then [] else Concat(parts[..|parts| - 1]) + parts[|parts| - 1]
  }

  lemma {:induction false} ConcatSplit<B>(parts: seq<seq<B>>, k: nat)
    requires k <= |parts|
    ensures Concat(parts) == Concat(parts[..k]) + Concat(parts[k..])
    decreases |parts|
  {
    var n := |parts| - 1;
    if k == |parts| {
      assert parts[..k] == parts;
    } else {
      ConcatSplit(parts[..n], k);
      assert parts[..n][..k] == parts[..k];
      assert parts[k..][..n - k] == parts[..n][k..];
    }
  }

  lemma ConcatOne<B>(p: seq<B>)
    ensures Concat([p]) == p && Concat<B>([]) == []
  {
    assert [p][..0] == [];
  }
}
