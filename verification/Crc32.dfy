/**
 crc32_ieee: the polynomial of section 3.2.9 of IEEE Std 802.3, most significant bit first. The code
 keeps a 64-bit remainder whose upper half fills with leftovers; the result does not depend on them.
 */
module Crc32 {

  import opened Bytes

  // ---------- the 32-bit definition ----------

  function Shift(r: bv32): bv32 {
    if r & 0x8000_0000 != 0 then (r << 1) ^ 0x04C1_1DB7 else r << 1
  }

  function Shifts(r: bv32, n: nat): bv32 {
    if n == 0 then r else Shift(Shifts(r, n - 1))
  }

  function AddByte(r: bv32, b: Byte): bv32 {
    Shifts(Mix(r, b), 8)
  }

  function Remainder(r: bv32, s: seq<Byte>): bv32 {
    if s == [] then r else AddByte(Remainder(r, s[..|s| - 1]), s[|s| - 1])
  }

  function Flip(r: bv32): bv32 {
    !r
  }

  function Crc(seed: bv32, s: seq<Byte>): bv32 {
    Flip(Remainder(Flip(seed), s))
  }

  // ---------- the loops of the code ----------

  /** The half of the 64-bit remainder that matters. */
  function Low(r: bv64): bv32 {
    (r & 0xFFFF_FFFF) as bv32
  }

  /** One turn of the inner loop. */
  function Shift64(r: bv64): bv64 {
    var t := r << 1;
    if t & 0x1_0000_0000 != 0 then t ^ 0x04C1_1DB7 else t
  }

  lemma TopBit(r: bv64)
    ensures (r << 1) & 0x1_0000_0000 != 0 <==> Low(r) & 0x8000_0000 != 0
  {
  }

  lemma LowShift(r: bv64)
    ensures Low(r << 1) == Low(r) << 1
  {
  }

  lemma LowXor(r: bv64)
    ensures Low(r ^ 0x04C1_1DB7) == Low(r) ^ 0x04C1_1DB7
  {
  }

  /** The lower half shifts like a 32-bit remainder. */
  lemma ShiftLow(r: bv64)
    ensures Low(Shift64(r)) == Shift(Low(r))
  {
    hide Low;
    TopBit(r);
    LowShift(r);
    LowXor(r << 1);
  }

  function Mix64(r: bv64, b: Byte): bv64 {
    r ^ ((b as bv64) << 24)
  }

  function Mix(r: bv32, b: Byte): bv32 {
    r ^ ((b as bv32) << 24)
  }

  lemma MixLow(r: bv64, b: Byte)
    ensures Low(Mix64(r, b)) == Mix(Low(r), b)
  {
  }

  function Widen(r: bv32): bv64 {
    r as bv64
  }

  lemma WidenLow(r: bv32)
    ensures Low(Widen(r)) == r
  {
  }

  /** The byte and bit loops compute the CRC as defined. */
  method Crc32Ieee(seed: bv32, buf: seq<Byte>) returns (crc: bv32)
    ensures crc == Crc(seed, buf)
  {
    hide Low, Shift64, Shift, Mix, Mix64, Widen, Flip;
    var rem := Widen(Flip(seed));
    WidenLow(Flip(seed));
    assert buf[..0] == [] && buf[..|buf|] == buf;
    for i := 0 to |buf|
      invariant Low(rem) == Remainder(Flip(seed), buf[..i])
    {
      assert buf[..i + 1][..i] == buf[..i];
      MixLow(rem, buf[i]);
      rem := Mix64(rem, buf[i]);
      ghost var start := Low(rem);
      for j := 0 to 8
        invariant Low(rem) == Shifts(start, j)
      {
        ShiftLow(rem);
        rem := Shift64(rem);
      }
    }
    crc := Flip(Low(rem));
  }

  // ---------- properties ----------

  lemma {:induction false} RemainderConcat(r: bv32, a: seq<Byte>, b: seq<Byte>)
    ensures Remainder(r, a + b) == Remainder(Remainder(r, a), b)
    decreases b
  {
    hide AddByte;
    if b == [] {
      assert a + b == a;
    } else {
      var n := |b| - 1;
      RemainderConcat(r, a, b[..n]);
      assert (a + b)[..|a + b| - 1] == a + b[..n];
    }
  }

  lemma FlipFlip(x: bv32)
    ensures Flip(Flip(x)) == x
  {
  }

  /** The CRC of a message cut into pieces is chained through the pieces. */
  lemma Chained(seed: bv32, a: seq<Byte>, b: seq<Byte>)
    ensures Crc(Crc(seed, a), b) == Crc(seed, a + b)
  {
    hide Remainder, Flip;
    FlipFlip(Remainder(Flip(seed), a));
    RemainderConcat(Flip(seed), a, b);
  }

  /** The shift can be undone: the last bit tells whether the polynomial was added. */
  function Unshift(r: bv32): bv32 {
    if r & 1 != 0 then ((r ^ 0x04C1_1DB7) >> 1) | 0x8000_0000 else r >> 1
  }

  lemma UnshiftAdded(x: bv32)
    requires x & 0x8000_0000 != 0
    ensures ((x << 1) ^ 0x04C1_1DB7) & 1 != 0 && ((((x << 1) ^ 0x04C1_1DB7) ^ 0x04C1_1DB7) >> 1) | 0x8000_0000 == x
  {
  }

  lemma UnshiftPlain(x: bv32)
    requires x & 0x8000_0000 == 0
    ensures (x << 1) & 1 == 0 && (x << 1) >> 1 == x
  {
  }

  lemma ShiftIs(x: bv32)
    ensures x & 0x8000_0000 != 0 ==> Shift(x) == (x << 1) ^ 0x04C1_1DB7
    ensures x & 0x8000_0000 == 0 ==> Shift(x) == x << 1
  {
  }

  lemma UnshiftIs(r: bv32)
    ensures r & 1 != 0 ==> Unshift(r) == ((r ^ 0x04C1_1DB7) >> 1) | 0x8000_0000
    ensures r & 1 == 0 ==> Unshift(r) == r >> 1
  {
  }

  lemma ShiftUndone(x: bv32)
    ensures Unshift(Shift(x)) == x
  {
    hide Shift, Unshift;
    ShiftIs(x);
    if x & 0x8000_0000 != 0 {
      UnshiftAdded(x);
      UnshiftIs((x << 1) ^ 0x04C1_1DB7);
    } else {
      UnshiftPlain(x);
      UnshiftIs(x << 1);
    }
  }

  lemma {:induction false} ShiftsInjective(x: bv32, y: bv32, n: nat)
    requires Shifts(x, n) == Shifts(y, n)
    ensures x == y
  {
    if n > 0 {
      hide Shift, Unshift;
      ShiftUndone(Shifts(x, n - 1));
      ShiftUndone(Shifts(y, n - 1));
      ShiftsInjective(x, y, n - 1);
    }
  }

  lemma MixInjective(x: bv32, a: Byte, y: bv32, b: Byte)
    requires Mix(x, a) == Mix(y, b)
    ensures a == b ==> x == y
    ensures x == y ==> a == b
  {
  }

  /** Remainders that differ stay different, whatever follows. */
  lemma {:induction false} StaysDifferent(x: bv32, y: bv32, s: seq<Byte>)
    requires x != y
    ensures Remainder(x, s) != Remainder(y, s)
    decreases s
  {
    hide Mix, Shifts;
    if s != [] {
      var n := |s| - 1;
      var a, b := Remainder(x, s[..n]), Remainder(y, s[..n]);
      StaysDifferent(x, y, s[..n]);
      if AddByte(a, s[n]) == AddByte(b, s[n]) {
        ShiftsInjective(Mix(a, s[n]), Mix(b, s[n]), 8);
        MixInjective(a, s[n], b, s[n]);
      }
    }
  }

  /** Changing one byte of a message changes its CRC. */
  lemma DetectsByte(seed: bv32, before: seq<Byte>, a: Byte, b: Byte, after: seq<Byte>)
    requires a != b
    ensures Crc(seed, before + [a] + after) != Crc(seed, before + [b] + after)
  {
    hide Remainder, Flip, AddByte, Mix, Shifts;
    var r := Remainder(Flip(seed), before);
    OneByte(Flip(seed), before, a);
    OneByte(Flip(seed), before, b);
    ByteDiffers(r, a, b);
    StaysDifferent(AddByte(r, a), AddByte(r, b), after);
    RemainderConcat(Flip(seed), before + [a], after);
    RemainderConcat(Flip(seed), before + [b], after);
    FlipFlip(Remainder(Flip(seed), before + [a] + after));
    FlipFlip(Remainder(Flip(seed), before + [b] + after));
  }

  lemma ByteDiffers(r: bv32, a: Byte, b: Byte)
    requires a != b
    ensures AddByte(r, a) != AddByte(r, b)
  {
    hide Mix, Shifts;
    if AddByte(r, a) == AddByte(r, b) {
      ShiftsInjective(Mix(r, a), Mix(r, b), 8);
      MixInjective(r, a, r, b);
    }
  }

  lemma OneByte(r: bv32, s: seq<Byte>, b: Byte)
    ensures Remainder(r, s + [b]) == AddByte(Remainder(r, s), b)
  {
    hide AddByte;
    assert (s + [b])[..|s|] == s;
  }
}
