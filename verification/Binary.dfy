/**
  Integers as binary numerals: infinite two's complement for the bit operations, and low bits, shifts
  and powers of two for words and byte strings.
 */
module Binary {

  // ---------- Two's complement ----------

  function Pow2(n: nat): (p: nat)
    ensures p > 0
  {
    if n == 0 then 1 else 2 * Pow2(n - 1)
  }

  predicate Bit(x: int, j: nat)
    decreases j
  {
    if j == 0 then x % 2 == 1 else Bit(x / 2, j - 1)
  }

  datatype BitOp = And | Or | Xor

  predicate Apply(op: BitOp, p: bool, q: bool) {
    match op
    case And => p && q
    case Or => p || q
    case Xor => p != q
  }

  /** How far a number is from the two constant expansions 0 and -1. */
  function Magnitude(x: int): nat {
    if x >= 0 then x else -x - 1
  }

  function Digit(bit: bool): nat {
    if bit then 1 else 0
  }

  /** The bitwise operations, one binary digit at a time down to the sign. */
  function Bitwise(op: BitOp, a: int, b: int): int
    decreases Magnitude(a) + Magnitude(b)
  {
    if Magnitude(a) + Magnitude(b) == 0 then 0 - Digit(Apply(op, a < 0, b < 0))
    else 2 * Bitwise(op, a / 2, b / 2) + Digit(Apply(op, a % 2 == 1, b % 2 == 1))
  }

  function Not(x: int): int {
    -x - 1
  }

  lemma {:induction false} ConstantBits(j: nat)
    ensures !Bit(0, j) && Bit(-1, j)
  {
    if j > 0 { ConstantBits(j - 1); }
  }

  lemma {:induction false} BitwiseBit(op: BitOp, a: int, b: int, j: nat)
    ensures Bit(Bitwise(op, a, b), j) == Apply(op, Bit(a, j), Bit(b, j))
    decreases j
  {
    ConstantBits(j);
    if Magnitude(a) + Magnitude(b) != 0 {
      var r := Bitwise(op, a / 2, b / 2);
      assert (2 * r) / 2 == r && (2 * r + 1) / 2 == r;
      if j > 0 { BitwiseBit(op, a / 2, b / 2, j - 1); }
    }
  }

  lemma {:induction false} NotBit(x: int, j: nat)
    ensures Bit(Not(x), j) == !Bit(x, j)
    decreases j
  {
    assert Not(x) / 2 == Not(x / 2);
    if j > 0 { NotBit(x / 2, j - 1); }
  }

  lemma {:induction false} Pow2Bit(i: nat, j: nat)
    ensures Bit(Pow2(i), j) <==> i == j
  {
    if i == 0 {
      if j > 0 { ConstantBits(j - 1); }
    } else if j > 0 {
      Pow2Bit(i - 1, j - 1);
    }
  }

  /** Numbers with the same bits are equal. */
  lemma {:induction false} SameBits(a: int, b: int)
    requires forall j: nat :: Bit(a, j) == Bit(b, j)
    ensures a == b
    decreases Magnitude(a) + Magnitude(b)
  {
    assert Bit(a, 0) == Bit(b, 0);
    if Magnitude(a) + Magnitude(b) == 0 {
    } else {
      forall j: nat ensures Bit(a / 2, j) == Bit(b / 2, j) {
        assert Bit(a, j + 1) == Bit(b, j + 1);
      }
      SameBits(a / 2, b / 2);
    }
  }

  /** A number with no bit set is zero. */
  lemma NoBits(x: int)
    requires forall j: nat :: !Bit(x, j)
    ensures x == 0
  {
    forall j: nat ensures Bit(x, j) == Bit(0, j) { ConstantBits(j); }
    SameBits(x, 0);
  }

  // ---------- Shifts and low bits ----------

  lemma {:induction false} Pow2Add(a: nat, b: nat)
    ensures Pow2(a + b) == Pow2(a) * Pow2(b)
  {
    if a > 0 { Pow2Add(a - 1, b); }
  }

  lemma MulAtLeast(d: int, k: int)
    requires d > 0
    ensures k >= 1 ==> d * k >= d && d * k >= k
    ensures k <= -1 ==> d * k <= -d
  {}

  /** A number is determined by its remainder and quotient. */
  lemma DivModUnique(x: int, d: int, q: int, r: int)
    requires 0 <= r < d && x == d * q + r
    ensures x / d == q && x % d == r
  {
    assert d * (q - x / d) == x % d - r;
    MulAtLeast(d, q - x / d);
  }

  /** The low `k` bits. */
  function Low(x: nat, k: nat): nat
    decreases k
  {
    if k == 0 then 0 else x % 2 + 2 * Low(x / 2, k - 1)
  }

  /** The bits from `k` up: the logical right shift. */
  function Shift(x: nat, k: nat): (r: nat)
    ensures r <= x
    decreases k
  {
    if k == 0 then x else Shift(x / 2, k - 1)
  }

  /** The left shift. */
  function Scale(x: nat, k: nat): nat {
    if k == 0 then x else 2 * Scale(x, k - 1)
  }

  lemma {:induction false} ScaleIsProduct(x: nat, k: nat)
    ensures Scale(x, k) == Pow2(k) * x
  {
    if k > 0 {
      ScaleIsProduct(x, k - 1);
      assert Pow2(k) * x == 2 * (Pow2(k - 1) * x);
    }
  }

  lemma {:induction false} ScaleAdd(x: nat, a: nat, b: nat)
    ensures Scale(x, a + b) == Scale(Scale(x, b), a)
    decreases a
  {
    if a > 0 { ScaleAdd(x, a - 1, b); }
  }

  lemma {:induction false} ScaleSum(x: nat, y: nat, k: nat)
    ensures Scale(x + y, k) == Scale(x, k) + Scale(y, k)
  {
    if k > 0 { ScaleSum(x, y, k - 1); }
  }

  lemma {:induction false} LowAndShift(x: nat, k: nat)
    ensures x == Low(x, k) + Scale(Shift(x, k), k) && Low(x, k) < Pow2(k)
    decreases k
  {
    if k > 0 { LowAndShift(x / 2, k - 1); }
  }

  /** Taking the low bits is reduction modulo a power of two, and shifting is division by it. */
  lemma LowIsMod(x: nat, k: nat)
    ensures Low(x, k) == x % Pow2(k) && Shift(x, k) == x / Pow2(k)
  {
    LowAndShift(x, k);
    ScaleIsProduct(Shift(x, k), k);
    DivModUnique(x, Pow2(k), Shift(x, k), Low(x, k));
  }

  lemma {:induction false} LowOfLow(x: nat, k: nat, m: nat)
    requires k <= m
    ensures Low(Low(x, m), k) == Low(x, k)
    decreases k
  {
    if k > 0 { LowOfLow(x / 2, k - 1, m - 1); }
  }

  lemma {:induction false} LowSmall(x: nat, k: nat)
    requires x < Pow2(k)
    ensures Low(x, k) == x
    decreases k
  {
    if k > 0 { LowSmall(x / 2, k - 1); }
  }

  /** The low bits of a number put together from two parts. */
  lemma {:induction false} LowOfSum(low: nat, high: nat, a: nat, m: nat)
    requires low < Pow2(a)
    ensures Low(low + Scale(high, a), a + m) == low + Scale(Low(high, m), a)
    decreases a
  {
    if a > 0 { LowOfSum(low / 2, high, a - 1, m); }
  }

  lemma {:induction false} HighBitsClear(x: nat, n: nat, j: nat)
    requires x < Pow2(n) && n <= j
    ensures !Bit(x, j)
    decreases j
  {
    if n == 0 { ConstantBits(j); } else { HighBitsClear(x / 2, n - 1, j - 1); }
  }

  lemma {:induction false} BitwiseBelow(op: BitOp, a: nat, b: nat, n: nat)
    requires a < Pow2(n) && b < Pow2(n)
    ensures 0 <= Bitwise(op, a, b) < Pow2(n)
    decreases n
  {
    if n > 0 && Magnitude(a) + Magnitude(b) != 0 { BitwiseBelow(op, a / 2, b / 2, n - 1); }
  }

  lemma {:induction false} ShiftedBit(x: nat, k: nat, j: nat)
    ensures Bit(Shift(x, k), j) == Bit(x, j + k)
    decreases k
  {
    if k > 0 { ShiftedBit(x / 2, k - 1, j); }
  }

  /** Masking with a run of ones takes the low bits. */
  lemma {:induction false} MaskIsLow(x: nat, k: nat)
    ensures Bitwise(And, x, Pow2(k) - 1) == Low(x, k)
    decreases k
  {
    if k == 0 {
      ClearAll(x);
    } else {
      MaskIsLow(x / 2, k - 1);
      MaskStep(x, Pow2(k - 1) - 1);
    }
  }

  lemma MaskStep(x: nat, half: nat)
    ensures Bitwise(And, x, 2 * half + 1) == x % 2 + 2 * Bitwise(And, x / 2, half)
  {
    assert (2 * half + 1) / 2 == half && (2 * half + 1) % 2 == 1;
  }

  lemma {:induction false} ClearAll(x: nat)
    ensures Bitwise(And, x, 0) == 0
  {
    if x > 0 { ClearAll(x / 2); }
  }
}
