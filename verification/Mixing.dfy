/**
  The SplitMix64-style mixing function (crates/eldr/src/builtin.rs).
 */
module Mixing {
  import opened Binary
  import opened MachineWords

  lemma WordIsPow2()
    ensures Pow2(64) == WORD
  {
    assert Pow2(8) == 256;
    Pow2Add(8, 8);
    assert Pow2(16) == 0x1_0000;
    Pow2Add(16, 16);
    assert Pow2(32) == 0x1_0000_0000;
    Pow2Add(32, 32);
  }

  // ---------- The mixing function is a bijection ----------

  function XorWord(a: Word, b: Word): Word {
    WordIsPow2();
    BitwiseBelow(Xor, a, b, 64);
    Bitwise(Xor, a, b)
  }

  function ShiftXor(x: Word, k: nat): Word {
    XorWord(x, Shift(x, k))
  }

  function UnshiftXor(y: Word, k: nat): Word {
    XorWord(XorWord(y, Shift(y, k)), Shift(y, 2 * k))
  }

  lemma ShiftXorBit(x: Word, k: nat, j: nat)
    ensures Bit(ShiftXor(x, k), j) == (Bit(x, j) != Bit(x, j + k))
  {
    BitwiseBit(Xor, x, Shift(x, k), j);
    ShiftedBit(x, k, j);
  }

  lemma UnshiftXorBit(y: Word, k: nat, j: nat)
    ensures Bit(UnshiftXor(y, k), j) == ((Bit(y, j) != Bit(y, j + k)) != Bit(y, j + 2 * k))
  {
    BitwiseBit(Xor, y, Shift(y, k), j);
    BitwiseBit(Xor, XorWord(y, Shift(y, k)), Shift(y, 2 * k), j);
    ShiftedBit(y, k, j);
    ShiftedBit(y, 2 * k, j);
  }

  lemma ShiftXorInverse(x: Word, k: nat)
    requires 3 * k >= 64
    ensures UnshiftXor(ShiftXor(x, k), k) == x && ShiftXor(UnshiftXor(x, k), k) == x
  {
    forall j: nat
      ensures Bit(UnshiftXor(ShiftXor(x, k), k), j) == Bit(x, j) && Bit(ShiftXor(UnshiftXor(x, k), k), j) == Bit(x, j)
    {
      UnshiftXorBit(ShiftXor(x, k), k, j);
      ShiftXorBit(UnshiftXor(x, k), k, j);
      ShiftXorBit(x, k, j);
      ShiftXorBit(x, k, j + k);
      ShiftXorBit(x, k, j + 2 * k);
      UnshiftXorBit(x, k, j);
      UnshiftXorBit(x, k, j + k);
      WordIsPow2();
      HighBitsClear(x, 64, j + k + 2 * k);
    }
    SameBits(UnshiftXor(ShiftXor(x, k), k), x);
    SameBits(ShiftXor(UnshiftXor(x, k), k), x);
  }

  function WrappingMul(x: Word, c: Word): Word {
    x * c % WORD
  }

  lemma WrappingMulInverse(x: Word, c: Word, d: Word)
    requires c * d % WORD == 1
    ensures WrappingMul(WrappingMul(x, c), d) == x
  {
    var q, r := x * c / WORD, x * c % WORD;
    var s := c * d / WORD;
    calc {
      r * d;
      (x * c - WORD * q) * d;
      x * (c * d) - WORD * (q * d);
      { assert c * d == WORD * s + 1; }
      x * (WORD * s + 1) - WORD * (q * d);
      WORD * (x * s - q * d) + x;
    }
    DivModUnique(r * d, WORD, x * s - q * d, x);
  }

  const MUL1 := 0xbf58_476d_1ce4_e5b9
  const MUL2 := 0x94d0_49bb_1331_11eb
  const MUL1_INVERSE := 0x96de_1b17_3f11_9089
  const MUL2_INVERSE := 0x3196_42b2_d24d_8ec3

  function Mix64(value: Word): Word {
    ShiftXor(WrappingMul(ShiftXor(WrappingMul(ShiftXor(value, 30), MUL1), 27), MUL2), 31)
  }

  function Unmix64(value: Word): Word {
    UnshiftXor(WrappingMul(UnshiftXor(WrappingMul(UnshiftXor(value, 31), MUL2_INVERSE), 27), MUL1_INVERSE), 30)
  }

  /** Mixing is a bijection of the 64-bit words. */
  lemma Mix64Bijective(x: Word)
    ensures Unmix64(Mix64(x)) == x && Mix64(Unmix64(x)) == x
  {
    hide ShiftXor, UnshiftXor, WrappingMul;
    var a := ShiftXor(x, 30);
    var b := ShiftXor(WrappingMul(a, MUL1), 27);
    ShiftXorInverse(x, 30);
    ShiftXorInverse(WrappingMul(a, MUL1), 27);
    ShiftXorInverse(WrappingMul(b, MUL2), 31);
    WrappingMulInverse(a, MUL1, MUL1_INVERSE);
    WrappingMulInverse(b, MUL2, MUL2_INVERSE);
    var c := UnshiftXor(x, 31);
    var d := UnshiftXor(WrappingMul(c, MUL2_INVERSE), 27);
    ShiftXorInverse(x, 31);
    ShiftXorInverse(WrappingMul(c, MUL2_INVERSE), 27);
    ShiftXorInverse(WrappingMul(d, MUL1_INVERSE), 30);
    WrappingMulInverse(c, MUL2_INVERSE, MUL2);
    WrappingMulInverse(d, MUL1_INVERSE, MUL1);
  }

  lemma Mix64Zero()
    ensures Mix64(0) == 0
  {
    hide ShiftXor;
    ShiftXorZero(30);
    ShiftXorZero(27);
    ShiftXorZero(31);
  }

  lemma {:induction false} ShiftXorZero(k: nat)
    ensures ShiftXor(0, k) == 0
  {
    if k > 0 { ShiftXorZero(k - 1); }
  }
}
