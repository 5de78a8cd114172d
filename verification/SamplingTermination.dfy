/**
  When rejection sampling ends (crates/eldr/src/builtin.rs). Every attempt advances the state by the same
  number of draws, so the attempts visit exactly the states congruent to the first one modulo the power of
  two in that number.
 */
module SamplingTermination {
  import opened Binary
  import opened MachineWords
  import opened Mixing
  import opened Sampling

  // ---------- The states an execution visits ----------

  /** The exponent of two in a number. */
  function Twos(n: nat): nat
    requires n > 0
  {
    if n % 2 == 1 then 0 else 1 + Twos(n / 2)
  }

  function OddPart(n: nat): (m: nat)
    requires n > 0
    ensures m % 2 == 1
  {
    if n % 2 == 1 then n else OddPart(n / 2)
  }

  lemma {:induction false} TwosSplit(n: nat)
    requires n > 0
    ensures n == Pow2(Twos(n)) * OddPart(n)
  {
    if n % 2 == 0 {
      TwosSplit(n / 2);
      assert Pow2(Twos(n)) * OddPart(n) == 2 * (Pow2(Twos(n / 2)) * OddPart(n / 2));
    }
  }

  /** The power of two in the number of draws of an attempt. */
  function Stride(upper: nat): (p: nat)
    requires upper > 0
    ensures p > 0
  {
    Pow2(Twos(Chunks(upper)))
  }

  lemma SomeDraws(upper: nat)
    requires upper > 0
    ensures Chunks(upper) > 0
  {}

  lemma WholePeriod(state: Word, n: nat, k: nat)
    ensures Advance(state, k * (WORD * n)) == state
  {
    assert k * (WORD * n) * GOLDEN == WORD * (k * n * GOLDEN) by {
      assert k * (WORD * n) == WORD * (k * n);
    }
    DivModUnique(state + WORD * (k * n * GOLDEN), WORD, k * n * GOLDEN, state);
  }

  lemma WordFactor(e: nat, m: nat) returns (n: nat)
    requires e >= 64
    ensures Pow2(e) * m == WORD * n
  {
    hide Pow2;
    WordIsPow2();
    Pow2Add(64, e - 64);
    n := Pow2(e - 64) * m;
    assert WORD * Pow2(e - 64) * m == WORD * n;
  }

  lemma StaysInClass(state: Word, e: nat, m: nat, k: nat) returns (t: int)
    ensures Advance(state, k * (Pow2(e) * m)) - state == Pow2(e) * t
  {
    hide Pow2;
    if e >= 64 {
      var n := WordFactor(e, m);
      WholePeriod(state, n, k);
      t := 0;
    } else {
      WordIsPow2();
      Pow2Add(e, 64 - e);
      t := AdvanceInClass(state, Pow2(e), Pow2(64 - e), m, k);
    }
  }

  lemma AdvanceInClass(state: Word, p: nat, r: nat, m: nat, k: nat) returns (t: int)
    requires p > 0 && p * r == WORD
    ensures Advance(state, k * (p * m)) - state == p * t
  {
    var x := state + k * (p * m) * GOLDEN;
    MulSwap(k, p, m);
    t := Factor(p, r, (m * GOLDEN) * k, x / WORD);
  }

  lemma Factor(p: nat, r: nat, a: int, q: int) returns (t: int)
    ensures p * a - (p * r) * q == p * t
  {
    t := a - r * q;
    assert (p * r) * q == p * (r * q);
  }

  /** The two states are congruent modulo the power of two in the number of draws of an attempt. */
  predicate SameClass(upper: nat, x: Word, y: Word)
    requires upper > 0
  {
    (x - y) % Stride(upper) == 0
  }

  lemma Multiple(p: nat, d: int, t: int)
    requires p > 0
    ensures d == p * t ==> d % p == 0
    ensures d % p == 0 ==> d == p * (d / p)
  {
    if d == p * t { DivModUnique(d, p, t, 0); }
  }

  /** For every bound and state, the loop ends exactly when some state of the class is accepted. */
  lemma TerminatesIffClassAccepts(upper: nat, state: Word)
    requires upper > 0
    ensures Terminates(upper, state) <==> exists x: Word :: SameClass(upper, x, state) && Candidate(upper, x) < upper
  {
    hide Candidate, Chunks, Advance, SameClass;
    if Terminates(upper, state) {
      var k: nat :| AcceptsAt(upper, state, k);
      VisitedInClass(upper, state, k);
    }
    forall x: Word | SameClass(upper, x, state) && Candidate(upper, x) < upper ensures Terminates(upper, state) {
      ClassVisited(upper, state, x);
      var k: nat :| AttemptState(upper, state, k) == x;
      assert AcceptsAt(upper, state, k);
    }
  }

  /** Only states of the class are visited. */
  lemma VisitedInClass(upper: nat, state: Word, k: nat)
    requires upper > 0
    ensures SameClass(upper, AttemptState(upper, state, k), state)
  {
    SomeDraws(upper);
    hide Candidate, Chunks, Advance, Twos, OddPart, Pow2;
    TwosSplit(Chunks(upper));
    AttemptStateAdvance(upper, state, k);
    var t := StaysInClass(state, Twos(Chunks(upper)), OddPart(Chunks(upper)), k);
    Multiple(Stride(upper), AttemptState(upper, state, k) - state, t);
  }

  /** Every state of the class is visited. */
  lemma ClassVisited(upper: nat, state: Word, x: Word)
    requires upper > 0 && SameClass(upper, x, state)
    ensures exists k: nat :: AttemptState(upper, state, k) == x
  {
    SomeDraws(upper);
    hide Candidate, Chunks, Advance, Twos, OddPart, Pow2, SameClass, AttemptState;
    var e, m, t := Twos(Chunks(upper)), OddPart(Chunks(upper)), ClassDistance(upper, x, state);
    TwosSplit(Chunks(upper));
    if e > 64 {
      WordIsPow2();
      Pow2Grows(64, e);
      MulAtLeast(Pow2(e), t);
      FirstAttempt(upper, state);
    } else {
      var k := Reaches(state, x, e, m, t);
      AttemptStateAdvance(upper, state, k);
    }
  }

  lemma FirstAttempt(upper: nat, state: Word)
    ensures AttemptState(upper, state, 0) == state
  {}

  function ClassDistance(upper: nat, x: Word, y: Word): (t: int)
    requires upper > 0 && SameClass(upper, x, y)
    ensures x - y == Pow2(Twos(Chunks(upper))) * t
  {
    Multiple(Stride(upper), x - y, 0);
    (x - y) / Stride(upper)
  }

  lemma {:induction false} Pow2Grows(a: nat, b: nat)
    requires a <= b
    ensures Pow2(a) <= Pow2(b)
  {
    if a < b { Pow2Grows(a, b - 1); }
  }

  // ---------- A bound that is never sampled ----------

  lemma {:induction false} BitLengthOfPow2(k: nat)
    ensures BitLength(Pow2(k)) == k + 1
  {
    if k > 0 { BitLengthOfPow2(k - 1); }
  }

  lemma {:induction false} LowWithTop(x: nat, t: nat)
    requires Bit(x, t)
    ensures Low(x, t + 1) >= Pow2(t)
    decreases t
  {
    if t > 0 { LowWithTop(x / 2, t - 1); }
  }

  lemma {:induction false} ScaleAtLeast(x: nat, t: nat, k: nat)
    requires x >= Pow2(t)
    ensures Scale(x, k) >= Pow2(k + t)
  {
    if k > 0 { ScaleAtLeast(x, t, k - 1); }
  }

  /** An attempt whose last draw sets the top bit tries a number that has it set. */
  lemma TopBitSetIsLarge(upper: nat, state: Word)
    requires upper > 0 && Bit(Mix64(Advance(state, Chunks(upper))), TopBit(upper))
    ensures Candidate(upper, state) >= Pow2(BitLength(upper) - 1)
  {
    hide Draws, Low, Pow2, Scale, BitLength, Mix64, Candidate, Bit;
    CandidateIsLow(upper, state);
    var n, t := Chunks(upper), TopBit(upper);
    var raw, low := Mix64(Advance(state, n)), Draws(state, n - 1);
    TopDraw(state, n);
    LowOfSum(low, raw, 64 * (n - 1), t + 1);
    LowWithTop(raw, t);
    ScaleAtLeast(Low(raw, t + 1), t, 64 * (n - 1));
  }

  /** A power of two accepts an attempt exactly when its last draw leaves the top bit clear. */
  lemma TopBitDecides(k: nat, state: Word)
    ensures var upper := Pow2(k);
            Candidate(upper, state) < upper <==> !Bit(Mix64(Advance(state, Chunks(upper))), TopBit(upper))
  {
    BitLengthOfPow2(k);
    hide Pow2, BitLength, Mix64, Candidate, Advance, Chunks, TopBit, Bit;
    if Bit(Mix64(Advance(state, Chunks(Pow2(k)))), TopBit(Pow2(k))) {
      TopBitSetIsLarge(Pow2(k), state);
    } else {
      TopBitClearAccepts(Pow2(k), state);
    }
  }

  lemma ChunksOfPow2(k: nat, n: nat)
    requires n > 0 && k + 1 == 64 * n
    ensures Chunks(Pow2(k)) == n && TopBit(Pow2(k)) == 63
  {
    BitLengthOfPow2(k);
    hide Pow2, BitLength;
  }

  /**
    Sampling does not end for every bound and state. A power of two whose bits fill a multiple of 2^64
    draws is tried from one state only, and some states draw a number that is too large.
   */
  lemma NeverEnds(k: nat, n: nat, state: Word)
    requires n > 0 && k + 1 == 64 * (WORD * n) && Bit(Mix64(state), 63)
    ensures !Terminates(Pow2(k), state)
  {
    ChunksOfPow2(k, WORD * n);
    WholePeriod(state, n, 1);
    assert 1 * (WORD * n) == WORD * n;
    hide Candidate, Advance, Mix64, Bit, Pow2, BitLength, AttemptState, Chunks, TopBit;
    TopBitDecides(k, state);
    forall i: nat ensures !AcceptsAt(Pow2(k), state, i) {
      AttemptStateAdvance(Pow2(k), state, i);
      WholePeriod(state, n, i);
    }
  }

  /** Such a state exists, already for the smallest such bound. */
  lemma SomeStateNeverEnds(k: nat)
    requires k + 1 == 64 * WORD
    ensures !Terminates(Pow2(k), Unmix64(0x8000_0000_0000_0000))
  {
    Mix64Bijective(0x8000_0000_0000_0000);
    TopBitOfWord();
    hide Mix64, Unmix64, Bit, Pow2, Terminates;
    NeverEnds(k, 1, Unmix64(0x8000_0000_0000_0000));
  }

  lemma TopBitOfWord()
    ensures Bit(0x8000_0000_0000_0000, 63)
  {
    Pow2Bit(63, 63);
    WordIsPow2();
    assert Pow2(64) == 2 * Pow2(63);
  }

  // ---------- Bounds that need up to seven draws ----------

  /** The state that reaches `c` before the second multiplication. */
  function Preimage(c: Word): Word {
    UnshiftXor(WrappingMul(UnshiftXor(c, 27), MUL1_INVERSE), 30)
  }

  lemma MixOfPreimage(c: Word)
    ensures Mix64(Preimage(c)) == ShiftXor(WrappingMul(c, MUL2), 31)
  {
    hide ShiftXor, UnshiftXor, WrappingMul;
    var b := UnshiftXor(c, 27);
    ShiftXorInverse(c, 27);
    ShiftXorInverse(WrappingMul(b, MUL1_INVERSE), 30);
    WrappingMulInverse(b, MUL1_INVERSE, MUL1);
  }

  /** Exclusive or of numbers without a common bit is addition. */
  lemma {:induction false} XorAdds(high: nat, low: nat, k: nat)
    requires low < Pow2(k)
    ensures Bitwise(Xor, Scale(high, k), low) == Scale(high, k) + low
    decreases k
  {
    if k == 0 {
      XorZero(high);
    } else {
      XorAdds(high, low / 2, k - 1);
    }
  }

  lemma {:induction false} XorZero(x: nat)
    ensures Bitwise(Xor, x, 0) == x
  {
    if x > 0 { XorZero(x / 2); }
  }

  lemma {:induction false} ShiftScale(x: nat, a: nat, b: nat)
    ensures Shift(Scale(x, a + b), a) == Scale(x, b) && Shift(Scale(x, a), a + b) == Shift(x, b)
    decreases a
  {
    if a > 0 { ShiftScale(x, a - 1, b); }
  }

  /** The high 27 bits, moved down by 27 and by 54, meet no other bits. */
  lemma UnshiftAdds(h: nat, c: Word)
    requires h < Pow2(27) && c == Scale(h, 37)
    ensures UnshiftXor(c, 27) == Scale(h, 37) + Scale(h, 10) + Shift(h, 17)
  {
    hide Pow2, Scale, Shift, Bitwise;
    WordIsPow2();
    ShiftScale(h, 27, 10);
    ShiftScale(h, 37, 17);
    ShiftBelowPow2(c, 27, 37);
    ShiftBelowPow2(c, 54, 10);
    XorAdds(h, Scale(h, 10), 37);
    ScaleAdd(h, 10, 27);
    ScaleSum(Scale(h, 27), h, 10);
    XorAdds(Scale(h, 27) + h, Shift(h, 17), 10);
  }

  lemma SmallPowers()
    ensures Pow2(10) == 0x400 && Pow2(17) == 0x2_0000 && Pow2(27) == 0x800_0000 && Pow2(30) == 0x4000_0000
    ensures Pow2(31) == 0x8000_0000 && Pow2(32) == 0x1_0000_0000 && Pow2(37) == 0x20_0000_0000
    ensures Pow2(60) == 0x1000_0000_0000_0000 && Pow2(61) == 0x2000_0000_0000_0000
  {
    assert Pow2(10) == 0x400;
    Pow2Add(10, 17);
    Pow2Add(10, 7);
    Pow2Add(27, 10);
    Pow2Add(30, 30);
  }

  lemma {:induction false} BitIsOddShift(x: nat, j: nat)
    ensures Bit(x, j) <==> Shift(x, j) % 2 == 1
    decreases j
  {
    if j > 0 { BitIsOddShift(x / 2, j - 1); }
  }

  lemma BitIsDigit(x: nat, j: nat, p: nat)
    requires Pow2(j) == p
    ensures Bit(x, j) <==> x / p % 2 == 1
  {
    hide Shift, Bit, Pow2;
    BitIsOddShift(x, j);
    ShiftBy(x, j, p);
  }

  /** The two low bits of `UnshiftXor(a, 30)`. */
  function Residue(a: Word): nat {
    (a + a / 0x4000_0000 + a / 0x1000_0000_0000_0000) % 2
    + 2 * ((a / 2 + a / 0x8000_0000 + a / 0x2000_0000_0000_0000) % 2)
  }

  lemma FirstBits(x: nat)
    ensures Bit(x, 0) <==> x % 2 == 1
    ensures Bit(x, 1) <==> x / 2 % 2 == 1
    ensures x % 4 == Digit(Bit(x, 0)) + 2 * Digit(Bit(x, 1))
  {
    var half := x / 2;
    assert x == 2 * half + x % 2 && half == 2 * (half / 2) + half % 2;
    DivModUnique(x, 4, half / 2, 2 * (half % 2) + x % 2);
    assert Bit(x, 1) == Bit(half, 0);
  }

  lemma Parity(p: nat, q: nat, r: nat)
    ensures (p + q + r) % 2 == Digit(((p % 2 == 1) != (q % 2 == 1)) != (r % 2 == 1))
  {}

  lemma ResidueOfUnshift(a: Word)
    ensures UnshiftXor(a, 30) % 4 == Residue(a)
  {
    hide UnshiftXor, Pow2, Bit, Digit;
    SmallPowers();
    FirstBits(a);
    FirstBits(UnshiftXor(a, 30));
    UnshiftXorBit(a, 30, 0);
    UnshiftXorBit(a, 30, 1);
    BitIsDigit(a, 30, 0x4000_0000);
    BitIsDigit(a, 60, 0x1000_0000_0000_0000);
    BitIsDigit(a, 31, 0x8000_0000);
    BitIsDigit(a, 61, 0x2000_0000_0000_0000);
    Parity(a, a / 0x4000_0000, a / 0x1000_0000_0000_0000);
    Parity(a / 2, a / 0x8000_0000, a / 0x2000_0000_0000_0000);
  }

  /** The state mixes to the word with exactly the bits `j` and `j - 31`. */
  ghost predicate MixesTo(x: Word, j: nat) {
    forall t: nat :: Bit(Mix64(x), t) <==> t == j || t + 31 == j
  }

  lemma MixesToTwoBits(x: Word, d: Word, j: nat)
    requires Mix64(x) == ShiftXor(d, 31) && d == Pow2(j)
    ensures MixesTo(x, j)
  {
    hide Mix64, ShiftXor, Pow2, Bit;
    forall t: nat ensures Bit(Mix64(x), t) <==> t == j || t + 31 == j {
      ShiftXorBit(d, 31, t);
      Pow2Bit(j, t);
      Pow2Bit(j, t + 31);
    }
  }

  lemma ScaleBy(x: nat, k: nat, p: nat)
    requires Pow2(k) == p
    ensures Scale(x, k) == p * x
  {
    ScaleIsProduct(x, k);
  }

  lemma ShiftBy(x: nat, k: nat, p: nat)
    requires Pow2(k) == p
    ensures Shift(x, k) == x / p
  {
    LowIsMod(x, k);
  }

  lemma UnshiftMultiple(h: nat, c: Word)
    requires h < 0x800_0000 && c == h * 0x20_0000_0000
    ensures UnshiftXor(c, 27) == h * 0x20_0000_0400 + h / 0x2_0000
  {
    hide Pow2, UnshiftXor, Scale, Shift;
    SmallPowers();
    ScaleBy(h, 37, 0x20_0000_0000);
    ScaleBy(h, 10, 0x400);
    ShiftBy(h, 17, 0x2_0000);
    UnshiftAdds(h, c);
  }

  /** The word after the first multiplication. */
  function FirstProduct(h: nat): Word {
    (h * 0x20_0000_0400 + h / 0x2_0000) * MUL1_INVERSE % WORD
  }

  /** The word after the second multiplication. */
  function SecondProduct(h: nat): Word {
    h * 0x20_0000_0000 * MUL2 % WORD
  }

  /** A state with two given output bits, from the high bits `h` of the word before the second multiplication. */
  lemma TwoBits(h: nat, k: nat, p: nat) returns (x: Word)
    requires h < 0x800_0000 && Pow2(k) == p && SecondProduct(h) == 0x1_0000_0000 * p
    ensures x % 4 == Residue(FirstProduct(h)) && MixesTo(x, 32 + k)
  {
    hide Pow2, Mix64, ShiftXor, UnshiftXor, Residue, MixesTo;
    var c: Word := h * 0x20_0000_0000;
    SmallPowers();
    Pow2Add(32, k);
    UnshiftMultiple(h, c);
    x := Preimage(c);
    ResidueOfUnshift(FirstProduct(h));
    MixOfPreimage(c);
    MixesToTwoBits(x, WrappingMul(c, MUL2), 32 + k);
  }

  lemma FirstProducts()
    ensures FirstProduct(0x136_3b0c) == 0x7185_28af_5108_32f3
    ensures FirstProduct(0x4d8_ec30) == 0xc614_a2bd_4420_cbcc
    ensures FirstProduct(0x26c_7618) == 0xe30a_515e_a210_65e6
    ensures FirstProduct(0x1b1_d860) == 0x318a_d75e_41ff_7398
    ensures FirstProduct(0x24d_8ec3) == 0x81e2_5161_7685_6956
    ensures FirstProduct(0x6c3_0000) == 0x4da8_9ac5_8659_5ee9
  {}

  lemma SecondProducts()
    ensures SecondProduct(0x136_3b0c) == 0x1_0000_0000 * 0x80
    ensures SecondProduct(0x4d8_ec30) == 0x1_0000_0000 * 0x200
    ensures SecondProduct(0x26c_7618) == 0x1_0000_0000 * 0x100
    ensures SecondProduct(0x1b1_d860) == 0x1_0000_0000 * 0x400
    ensures SecondProduct(0x24d_8ec3) == 0x1_0000_0000 * 0x20
    ensures SecondProduct(0x6c3_0000) == 0x1_0000_0000 * 0x20_0000
  {}

  lemma Residues()
    ensures Residue(0x7185_28af_5108_32f3) == Residue(0xc614_a2bd_4420_cbcc) == 1
    ensures Residue(0xe30a_515e_a210_65e6) == Residue(0x318a_d75e_41ff_7398) == 2
    ensures Residue(0x81e2_5161_7685_6956) == Residue(0x4da8_9ac5_8659_5ee9) == 3
  {}

  lemma Pow2Of21()
    ensures Pow2(21) == 0x20_0000
  {
    assert Pow2(10) == 0x400;
    Pow2Add(10, 11);
  }

  lemma TwoBits39() returns (x: Word)
    ensures x % 4 == 1 && MixesTo(x, 39)
  {
    assert Pow2(7) == 0x80;
    hide Pow2, MixesTo, FirstProduct, SecondProduct, Residue;
    FirstProducts();
    SecondProducts();
    Residues();
    x := TwoBits(0x136_3b0c, 7, 0x80);
  }

  lemma TwoBits41() returns (x: Word)
    ensures x % 4 == 1 && MixesTo(x, 41)
  {
    assert Pow2(9) == 0x200;
    hide Pow2, MixesTo, FirstProduct, SecondProduct, Residue;
    FirstProducts();
    SecondProducts();
    Residues();
    x := TwoBits(0x4d8_ec30, 9, 0x200);
  }

  lemma TwoBits40() returns (x: Word)
    ensures x % 4 == 2 && MixesTo(x, 40)
  {
    assert Pow2(8) == 0x100;
    hide Pow2, MixesTo, FirstProduct, SecondProduct, Residue;
    FirstProducts();
    SecondProducts();
    Residues();
    x := TwoBits(0x26c_7618, 8, 0x100);
  }

  lemma TwoBits42() returns (x: Word)
    ensures x % 4 == 2 && MixesTo(x, 42)
  {
    assert Pow2(10) == 0x400;
    hide Pow2, MixesTo, FirstProduct, SecondProduct, Residue;
    FirstProducts();
    SecondProducts();
    Residues();
    x := TwoBits(0x1b1_d860, 10, 0x400);
  }

  lemma TwoBits37() returns (x: Word)
    ensures x % 4 == 3 && MixesTo(x, 37)
  {
    assert Pow2(5) == 0x20;
    hide Pow2, MixesTo, FirstProduct, SecondProduct, Residue;
    FirstProducts();
    SecondProducts();
    Residues();
    x := TwoBits(0x24d_8ec3, 5, 0x20);
  }

  lemma TwoBits53() returns (x: Word)
    ensures x % 4 == 3 && MixesTo(x, 53)
  {
    Pow2Of21();
    hide Pow2, MixesTo, FirstProduct, SecondProduct, Residue;
    FirstProducts();
    SecondProducts();
    Residues();
    x := TwoBits(0x6c3_0000, 21, 0x20_0000);
  }

  /** In every class modulo four and for every bit, some state mixes to a word with that bit clear. */
  lemma ClearBitInClass(r: nat, t: nat) returns (x: Word)
    requires r < 4
    ensures x % 4 == r && !Bit(Mix64(x), t)
  {
    hide Mix64, Bit;
    if r == 0 {
      Mix64Zero();
      ConstantBits(t);
      x := 0;
    } else if r == 1 {
      if t == 39 || t == 8 { x := TwoBits41(); } else { x := TwoBits39(); }
    } else if r == 2 {
      if t == 40 || t == 9 { x := TwoBits42(); } else { x := TwoBits40(); }
    } else {
      if t == 37 || t == 6 { x := TwoBits53(); } else { x := TwoBits37(); }
    }
  }

  lemma Halve(n: nat) returns (half: nat)
    requires n > 0 && Twos(n) > 0
    ensures n == 2 * half && half > 0 && Twos(half) == Twos(n) - 1
  {
    half := n / 2;
  }

  lemma EightDivides(n: nat)
    requires n > 0 && Twos(n) > 2
    ensures n % 8 == 0
  {
    hide Twos;
    var half := Halve(n);
    var quarter := Halve(half);
    var eighth := Halve(quarter);
  }

  lemma SmallStride(n: nat)
    requires n % 8 != 0
    ensures Twos(n) <= 2
  {
    hide Twos;
    if Twos(n) > 2 { EightDivides(n); }
  }

  lemma ClassMultiple(x: Word, y: Word, e: nat) returns (q: int)
    requires x % 4 == y % 4 && e <= 2
    ensures x - y == Pow2(e) * q
  {
    assert Pow2(0) == 1 && Pow2(1) == 2 && Pow2(2) == 4;
    var d := x / 4 - y / 4;
    q := if e == 0 then 4 * d else if e == 1 then 2 * d else d;
  }

  /** Sampling ends for every state when the number of draws is no multiple of eight. */
  lemma FewFactorsTerminate(upper: nat, state: Word)
    requires upper > 0 && Chunks(upper) % 8 != 0
    ensures Terminates(upper, state)
  {
    hide Mix64, Bit, Chunks, TopBit, Terminates, Twos, OddPart, Pow2;
    SmallStride(Chunks(upper));
    TwosSplit(Chunks(upper));
    var x := ClearBitInClass(state % 4, TopBit(upper));
    var q := ClassMultiple(x, state, Twos(Chunks(upper)));
    CongruentStateEndsLoop(upper, state, Twos(Chunks(upper)), OddPart(Chunks(upper)), x, q);
  }

  /** Every range of fewer than 2^448 integers is sampled in finite time from every state. */
  lemma SevenDrawsTerminate(upper: nat, state: Word)
    requires upper > 0 && BitLength(upper) <= 448
    ensures Terminates(upper, state)
  {
    hide BitLength, Terminates;
    FewFactorsTerminate(upper, state);
  }
}
