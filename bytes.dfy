/** Fixed-width unsigned integers as the firmware uses them, and the bit-level
    facts the decoders rely on. Every value is an unbounded `int` restricted by a
    subset type; wrap-around is always written out where the source has it. */
module Bytes {

  type uint8 = x: int | 0 <= x < 0x100
  type uint16 = x: int | 0 <= x < 0x1_0000
  type uint32 = x: int | 0 <= x < 0x1_0000_0000

  function Min(a: int, b: int): int { if a <= b then a else b }

  function Pow2(k: nat): (r: nat)
    ensures r >= 1
  {
    if k == 0 then 1 else 2 * Pow2(k - 1)
  }

  /** Bit `k` of `x`: what `(x >> k) & 1`, and `x & (1 << k)` read as a
      boolean, compute in C. */
  function Bit(x: nat, k: nat): bool
  {
    if k == 0 then x % 2 == 1 else Bit(x / 2, k - 1)
  }

  /** The big-endian pair `(uint16_t)(hi << 8u) | (uint16_t)(lo)`. The two
      operands of `|` share no bit, so the OR is a sum. */
  function Word16(hi: uint8, lo: uint8): uint16
  {
    hi * 0x100 + lo
  }

  /** The word's high and low bytes are the two bytes it was built from. */
  lemma Word16Bytes(hi: uint8, lo: uint8)
    ensures Word16(hi, lo) / 0x100 == hi && Word16(hi, lo) % 0x100 == lo
  {
  }

  lemma Word16Injective(hi: uint8, lo: uint8, hi': uint8, lo': uint8)
    ensures Word16(hi, lo) == Word16(hi', lo') <==> hi == hi' && lo == lo'
  {
    Word16Bytes(hi, lo);
    Word16Bytes(hi', lo');
  }

  lemma Pow2Sixteen()
    ensures Pow2(8) == 0x100 && Pow2(16) == 0x1_0000
  {
    assert Pow2(4) == 0x10;
    assert Pow2(8) == 0x100;
    assert Pow2(12) == 0x1000;
  }

  /** Appending `m` low bits `lo` below `hi`: low bits come from `lo`, the rest
      from `hi` shifted down by `m`. */
  lemma {:induction false} BitOfConcat(hi: nat, lo: nat, m: nat, k: nat)
    requires lo < Pow2(m)
    ensures Bit(hi * Pow2(m) + lo, k) == if k < m then Bit(lo, k) else Bit(hi, k - m)
  {
    if m == 0 {
      assert lo == 0;
    } else {
      var q := hi * Pow2(m - 1);
      assert hi * Pow2(m) + lo == 2 * q + lo;
      if k > 0 {
        assert (2 * q + lo) / 2 == q + lo / 2;
        BitOfConcat(hi, lo / 2, m - 1, k - 1);
      }
    }
  }

  /** Bits at or above the width of a value are clear. */
  lemma {:induction false} BitAboveWidth(x: nat, m: nat, k: nat)
    requires x < Pow2(m) && m <= k
    ensures !Bit(x, k)
  {
    if k > 0 {
      if m > 0 {
        BitAboveWidth(x / 2, m - 1, k - 1);
      } else {
        assert x == 0;
        BitAboveWidth(0, 0, k - 1);
      }
    }
  }

  /** The low `m` bits of 2^m - 1 are all set. */
  lemma {:induction false} BitOfAllOnes(m: nat, k: nat)
    requires k < m
    ensures Bit(Pow2(m) - 1, k)
  {
    if k > 0 {
      assert (Pow2(m) - 1) / 2 == Pow2(m - 1) - 1;
      BitOfAllOnes(m - 1, k - 1);
    }
  }
}
