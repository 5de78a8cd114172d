/** The seeded generator and rejection sampling (crates/eldr/src/builtin.rs). */
module Sampling {
  import opened Wrappers
  import opened Binary
  import opened Mixing
  import opened MachineWords
  import opened Bytes

  const GOLDEN := 0x9e37_79b9_7f4a_7c15

  // ---------- The generator ----------

  /** The state after `n` draws. */
  function Advance(state: Word, n: nat): Word {
    (state + n * GOLDEN) % WORD
  }

  /** `random_next_u64`: the output and the next state. */
  function NextU64(state: Word): (Word, Word) {
    (Mix64(Advance(state, 1)), Advance(state, 1))
  }

  lemma AdvanceAdd(state: Word, m: nat, n: nat)
    ensures Advance(Advance(state, m), n) == Advance(state, m + n)
  {
    var x := state + m * GOLDEN;
    var q := (Advance(state, m) + n * GOLDEN) / WORD;
    assert state + (m + n) * GOLDEN == WORD * (x / WORD + q) + Advance(Advance(state, m), n);
    DivModUnique(state + (m + n) * GOLDEN, WORD, x / WORD + q, Advance(Advance(state, m), n));
  }

  lemma AdvanceNone(state: Word)
    ensures Advance(state, 0) == state
  {}

  lemma NextIsAdvance(state: Word)
    ensures NextU64(state).1 == Advance(state, 1)
  {}

  /** The number whose 64-bit digits, least significant first, are the next `n` draws. */
  function Draws(state: Word, n: nat): nat
    decreases n
  {
    if n == 0 then 0 else NextU64(state).0 + WORD * Draws(NextU64(state).1, n - 1)
  }

  lemma DrawsStep(state: Word, n: nat)
    ensures var (raw, next) := NextU64(state);
            Draws(state, n + 1) == raw + WORD * Draws(next, n)
  {}

  // ---------- One attempt ----------

  /** The number of significant bits. */
  function BitLength(x: nat): (b: nat)
    ensures x < Pow2(b)
    ensures b > 0 ==> Pow2(b - 1) <= x
    ensures b == 0 <==> x == 0
  {
    if x == 0 then 0 else 1 + BitLength(x / 2)
  }

  function ByteLength(upper: nat): nat {
    (BitLength(upper) + 7) / 8
  }

  /** How many draws one attempt makes. */
  function Chunks(upper: nat): nat {
    (ByteLength(upper) + 7) / 8
  }

  /** The number an attempt tries: its draws modulo two to the bit length of the bound. */
  function Candidate(upper: nat, state: Word): nat {
    Draws(state, Chunks(upper)) % Pow2(BitLength(upper))
  }

  lemma CandidateIsLow(upper: nat, state: Word)
    ensures Candidate(upper, state) == Low(Draws(state, Chunks(upper)), BitLength(upper))
  {
    hide Pow2, BitLength, Chunks, Draws, Low;
    LowIsMod(Draws(state, Chunks(upper)), BitLength(upper));
  }

  /** The bytes that `len` bytes' worth of draws leave in the buffer. */
  function Filled(state: Word, len: nat): (r: seq<Byte>)
    ensures |r| == len
    decreases len
  {
    if len == 0 then [] else
    var (raw, next) := NextU64(state);
    if len <= 8 then LowBytes(raw, len) else LowBytes(raw, 8) + Filled(next, len - 8)
  }

  lemma FilledNone(state: Word)
    ensures Filled(state, 0) == []
  {}

  lemma FilledStep(state: Word, len: nat)
    requires len > 0
    ensures var (raw, next) := NextU64(state);
            var chunk := if len < 8 then len else 8;
            Filled(state, len) == LowBytes(raw, chunk) + Filled(next, len - chunk)
  {}

  lemma FirstChunk(raw: Word, rest: seq<Byte>)
    ensures FromBytes(LowBytes(raw, 8) + rest) == raw + WORD * FromBytes(rest)
  {
    hide FromBytes, LowBytes, Pow2;
    WordBytes(raw);
    WordScale(FromBytes(rest));
    FromBytesAppend(LowBytes(raw, 8), rest);
  }

  lemma {:induction false} FilledValue(state: Word, len: nat)
    ensures FromBytes(Filled(state, len)) == Low(Draws(state, (len + 7) / 8), 8 * len)
    decreases len
  {
    hide NextU64, Pow2, LowBytes, FromBytes;
    var (raw, next) := NextU64(state);
    if len == 0 {
      NoBytes();
    } else if len <= 8 {
      assert Draws(next, 0) == 0;
      LowBytesValue(raw, len);
    } else {
      var more := (len - 8 + 7) / 8;
      assert (len + 7) / 8 == more + 1;
      FilledStep(state, len);
      DrawsStep(state, more);
      FilledValue(next, len - 8);
      hide Filled, Draws, Low, Scale;
      FirstChunk(raw, Filled(next, len - 8));
      WordIsPow2();
      WordScale(Draws(next, more));
      WordScale(FromBytes(Filled(next, len - 8)));
      LowOfSum(raw, Draws(next, more), 64, 8 * (len - 8));
    }
  }

  /** The excess bits of the last byte, which the mask clears. */
  function ExcessBits(bitLen: nat): nat {
    (8 - bitLen % 8) % 8
  }

  lemma {:induction false} ShiftOnes(n: nat, k: nat)
    requires k <= n
    ensures Shift(Pow2(n) - 1, k) == Pow2(n - k) - 1
  {
    if k > 0 {
      assert (Pow2(n) - 1) / 2 == Pow2(n - 1) - 1;
      ShiftOnes(n - 1, k - 1);
    }
  }

  lemma KeptBits(bitLen: nat)
    requires bitLen > 0
    ensures ExcessBits(bitLen) < 8 && bitLen == 8 * ((bitLen + 7) / 8 - 1) + (8 - ExcessBits(bitLen))
  {}

  lemma MaskLastByte(bytes: seq<Byte>, bitLen: nat, masked: int)
    requires bitLen > 0 && |bytes| == (bitLen + 7) / 8 && ExcessBits(bitLen) != 0
    requires masked == Bitwise(And, bytes[|bytes| - 1], Shift(0xff, ExcessBits(bitLen)))
    ensures 0 <= masked < 256
    ensures FromBytes(bytes[..|bytes| - 1] + [masked]) == Low(FromBytes(bytes), bitLen)
  {
    KeptBits(bitLen);
    hide Bitwise, Low, FromBytes, Shift, Pow2, ExcessBits;
    var low, last := bytes[..|bytes| - 1], bytes[|bytes| - 1];
    MaskedByte(last, ExcessBits(bitLen));
    MaskedValue(low, last, 8 - ExcessBits(bitLen));
    assert bytes == low + [last];
  }

  lemma MaskedByte(last: Byte, excess: nat)
    requires excess <= 8
    ensures Bitwise(And, last, Shift(0xff, excess)) == Low(last, 8 - excess)
  {
    hide Bitwise, Low, Shift, Pow2;
    ByteScale(0);
    ShiftOnes(8, excess);
    MaskIsLow(last, 8 - excess);
  }

  /** Copies the first `len` little-endian bytes of a word. */
  method CopyWord(bytes: array<Byte>, pos: nat, raw: Word, len: nat)
    requires len <= 8 && pos + len <= bytes.Length
    modifies bytes
    ensures bytes[..pos + len] == old(bytes[..pos]) + LowBytes(raw, len)
  {
    hide LowBytes;
    var rawBytes := LowBytes(raw, 8);
    for i := 0 to len
      invariant bytes[..pos + i] == old(bytes[..pos]) + rawBytes[..i]
    {
      bytes[pos + i] := rawBytes[i];
    }
    LowBytesPrefix(raw, len, 8);
  }

  lemma Regroup(a: seq<Byte>, b: seq<Byte>, c: seq<Byte>)
    ensures a + (b + c) == (a + b) + c
  {}

  lemma DrawsForBytes(len: nat, draws: nat)
    requires len <= 8 * draws < len + 8
    ensures (len + 7) / 8 == draws
  {}

  /** Fills the buffer from the generator, eight bytes a draw. */
  method FillBuffer(bytes: array<Byte>, state: Word) returns (rng: Word)
    modifies bytes
    ensures bytes[..] == Filled(state, bytes.Length)
    ensures rng == Advance(state, (bytes.Length + 7) / 8)
  {
    hide NextU64, LowBytes, Advance, Filled;
    rng := state;
    FilledNone(state);
    AdvanceNone(state);
    var pos := 0;
    ghost var draws := 0;
    while pos < bytes.Length
      invariant pos <= bytes.Length && pos <= 8 * draws < pos + 8 && (pos == 8 * draws || pos == bytes.Length)
      invariant bytes[..pos] + Filled(rng, bytes.Length - pos) == Filled(state, bytes.Length)
      invariant rng == Advance(state, draws)
    {
      ghost var before, start := bytes[..pos], rng;
      var (raw, next) := NextU64(rng);
      NextIsAdvance(rng);
      AdvanceAdd(state, draws, 1);
      rng, draws := next, draws + 1;
      var len := if bytes.Length - pos < 8 then bytes.Length - pos else 8;
      CopyWord(bytes, pos, raw, len);
      FilledStep(start, bytes.Length - pos);
      Regroup(before, LowBytes(raw, len), Filled(next, bytes.Length - pos - len));
      pos := pos + len;
    }
    FilledNone(rng);
    DrawsForBytes(pos, draws);
    assert bytes[..] == bytes[..pos];
  }

  /** Fills a byte buffer from the generator, clears the excess bits and reads the number. */
  method Attempt(upper: nat, state: Word) returns (candidate: nat, next: Word)
    requires upper > 0
    ensures candidate == Candidate(upper, state)
    ensures next == Advance(state, Chunks(upper))
  {
    hide BitLength, Filled, FromBytes, Low, Shift, Bitwise, Draws, Advance, Pow2, Candidate;
    var bitLen := BitLength(upper);
    var byteLen := (bitLen + 7) / 8;
    var bytes := new Byte[byteLen](_ => 0);
    next := FillBuffer(bytes, state);
    FilledValue(state, byteLen);
    LowOfLow(Draws(state, Chunks(upper)), bitLen, 8 * byteLen);
    CandidateIsLow(upper, state);
    var excess := ExcessBits(bitLen);
    if excess != 0 {
      ghost var filled := bytes[..];
      var masked := Bitwise(And, bytes[byteLen - 1], Shift(0xff, excess));
      MaskLastByte(filled, bitLen, masked);
      bytes[byteLen - 1] := masked;
      assert bytes[..] == filled[..byteLen - 1] + [masked];
    }
    candidate := FromBytes(bytes[..]);
  }

  // ---------- Rejection sampling ----------

  /** The generator state at the start of the attempt numbered `k`. */
  function AttemptState(upper: nat, state: Word, k: nat): Word {
    if k == 0 then state else Advance(AttemptState(upper, state, k - 1), Chunks(upper))
  }

  lemma {:induction false} AttemptStateAdvance(upper: nat, state: Word, k: nat)
    ensures AttemptState(upper, state, k) == Advance(state, k * Chunks(upper))
  {
    hide Advance, Chunks;
    if k == 0 {
      AdvanceNone(state);
    } else {
      AttemptStateAdvance(upper, state, k - 1);
      AdvanceAdd(state, (k - 1) * Chunks(upper), Chunks(upper));
      assert (k - 1) * Chunks(upper) + Chunks(upper) == k * Chunks(upper);
    }
  }

  /** The attempt numbered `k` draws a number below the bound. */
  predicate AcceptsAt(upper: nat, state: Word, k: nat) {
    Candidate(upper, AttemptState(upper, state, k)) < upper
  }

  /** The loop of attempts comes to an end. */
  ghost predicate Terminates(upper: nat, state: Word) {
    exists k: nat :: AcceptsAt(upper, state, k)
  }

  ghost predicate FirstAccepted(upper: nat, state: Word, k: nat) {
    AcceptsAt(upper, state, k) && forall i: nat | i < k :: !AcceptsAt(upper, state, i)
  }

  /** `value` is the first candidate below the bound and `next` the state after drawing it. */
  ghost predicate Sampled(upper: nat, state: Word, value: int, next: Word) {
    exists k: nat :: FirstAccepted(upper, state, k)
                     && value == Candidate(upper, AttemptState(upper, state, k))
                     && next == AttemptState(upper, state, k + 1)
  }

  /** A bound and a state determine the sampled value and the state after it. */
  lemma SampledOnce(upper: nat, state: Word, value: int, next: Word, value': int, next': Word)
    requires Sampled(upper, state, value, next) && Sampled(upper, state, value', next')
    ensures value == value' && next == next'
  {
    hide AcceptsAt, Candidate, AttemptState;
    var k: nat :| FirstAccepted(upper, state, k) && value == Candidate(upper, AttemptState(upper, state, k))
                  && next == AttemptState(upper, state, k + 1);
    var k': nat :| FirstAccepted(upper, state, k') && value' == Candidate(upper, AttemptState(upper, state, k'))
                   && next' == AttemptState(upper, state, k' + 1);
    assert k == k';
  }

  /** Whenever the loop ends, it returns the first candidate below the bound. */
  method SampleBelow(upper: nat, state: Word) returns (value: nat, next: Word)
    requires upper > 0 && Terminates(upper, state)
    ensures value < upper && Sampled(upper, state, value, next)
  {
    hide Candidate, Chunks, Advance, Draws, Pow2, BitLength;
    ghost var last: nat :| AcceptsAt(upper, state, last);
    ghost var k := 0;
    var rng := state;
    while true
      invariant rng == AttemptState(upper, state, k)
      invariant k <= last && forall i: nat | i < k :: !AcceptsAt(upper, state, i)
      decreases last - k
    {
      var candidate, advanced := Attempt(upper, rng);
      if candidate < upper {
        assert FirstAccepted(upper, state, k) && advanced == AttemptState(upper, state, k + 1);
        return candidate, advanced;
      }
      rng, k := advanced, k + 1;
    }
  }

  /** `sample_random_int_range`: an empty range is an error, every other result lies in the range. */
  method SampleIntRange(start: int, end: int, state: Word) returns (r: Result<(int, Word), string>)
    requires start < end ==> Terminates(end - start, state)
    ensures r.Ok? <==> start < end
    ensures r.Ok? ==> start <= r.value.0 < end && Sampled(end - start, state, r.value.0 - start, r.value.1)
  {
    if end <= start {
      return Err("validated random range must be positive");
    }
    var offset, next := SampleBelow(end - start, state);
    r := Ok((start + offset, next));
  }

  // ---------- When the loop ends ----------

  lemma {:induction false} SumBelow(low: nat, high: nat, a: nat, m: nat)
    requires low < Pow2(a) && high < Pow2(m)
    ensures low + Scale(high, a) < Pow2(a + m)
    decreases a
  {
    if a > 0 { SumBelow(low / 2, high, a - 1, m); }
  }

  lemma PrependDraw(raw: Word, rest: nat, top: nat, k: nat)
    requires rest < Pow2(k)
    ensures raw + WORD * (rest + Scale(top, k)) == raw + WORD * rest + Scale(top, 64 + k)
    ensures raw + WORD * rest < Pow2(64 + k)
  {
    hide Pow2, Scale;
    ScaleAdd(top, 64, k);
    WordScale(Scale(top, k));
    WordScale(rest);
    WordIsPow2();
    SumBelow(raw, rest, 64, k);
  }

  /** The last of `n` draws is the top digit. */
  lemma {:induction false} TopDraw(state: Word, n: nat)
    requires n > 0
    ensures Draws(state, n) == Draws(state, n - 1) + Scale(Mix64(Advance(state, n)), 64 * (n - 1))
    ensures Draws(state, n - 1) < Pow2(64 * (n - 1))
    decreases n
  {
    hide Mix64, Advance;
    if n == 1 {
      assert Draws(NextU64(state).1, 0) == 0;
    } else {
      hide Pow2, Scale;
      var (raw, next) := NextU64(state);
      TopDraw(next, n - 1);
      AdvanceAdd(state, 1, n - 1);
      PrependDraw(raw, Draws(next, n - 2), Mix64(Advance(state, n)), 64 * (n - 2));
    }
  }

  lemma {:induction false} LowWithoutTop(x: nat, t: nat)
    requires t > 0 && !Bit(x, t - 1)
    ensures Low(x, t) == Low(x, t - 1)
    decreases t
  {
    if t > 1 { LowWithoutTop(x / 2, t - 1); }
  }

  /** The position, in the last draw, of the top bit of the bound. */
  function TopBit(upper: nat): (t: nat)
    requires upper > 0
    ensures t < 64 && BitLength(upper) == 64 * (Chunks(upper) - 1) + t + 1
  {
    BitLength(upper) - 1 - 64 * (Chunks(upper) - 1)
  }

  /** An attempt whose last draw leaves the top bit clear is accepted. */
  lemma TopBitClearAccepts(upper: nat, state: Word)
    requires upper > 0 && !Bit(Mix64(Advance(state, Chunks(upper))), TopBit(upper))
    ensures Candidate(upper, state) < upper
  {
    hide Draws, Low, Pow2, Scale, BitLength, Mix64, Candidate;
    CandidateIsLow(upper, state);
    var n, t := Chunks(upper), TopBit(upper);
    var raw, low := Mix64(Advance(state, n)), Draws(state, n - 1);
    TopDraw(state, n);
    LowOfSum(low, raw, 64 * (n - 1), t + 1);
    LowWithoutTop(raw, t + 1);
    LowAndShift(raw, t);
    SumBelow(low, Low(raw, t), 64 * (n - 1), t);
  }

  lemma AddStep(a: nat, k: nat, c: int, p: nat, q: int)
    requires a * k == c + p * q
    ensures a * (k + p) == c + p * (q + a)
  {
    assert a * p == p * a;
  }

  lemma HalveFactor(p: nat, q: int)
    requires q % 2 == 0
    ensures p * q == (2 * p) * (q / 2)
  {
    var half := q / 2;
    assert p * (2 * half) == (2 * p) * half;
  }

  /** An odd factor can be divided out modulo a power of two. */
  lemma {:induction false} Solve(a: nat, c: int, j: nat) returns (k: nat, q: int)
    requires a % 2 == 1
    ensures a * k == c + Pow2(j) * q
  {
    if j == 0 {
      k, q := 0, -c;
    } else {
      k, q := Solve(a, c, j - 1);
      var p := Pow2(j - 1);
      if q % 2 == 1 {
        AddStep(a, k, c, p, q);
        k, q := k + p, q + a;
      }
      HalveFactor(p, q);
      q := q / 2;
    }
  }

  lemma MulSwap(k: nat, p: nat, m: nat)
    ensures k * (p * m) * GOLDEN == p * ((m * GOLDEN) * k)
  {
    assert k * (p * m) == p * (m * k);
    assert (m * GOLDEN) * k == (m * k) * GOLDEN;
    assert p * (m * k) * GOLDEN == p * ((m * k) * GOLDEN);
  }

  lemma MulSpread(p: nat, t: int, r: nat, q: int)
    ensures p * (t + r * q) == p * t + (p * r) * q
  {
    assert p * (r * q) == (p * r) * q;
  }

  lemma ReachedState(s: Word, x: Word, p: nat, r: nat, m: nat, t: int, k: nat, q: int)
    requires p * r == WORD && x - s == p * t && (m * GOLDEN) * k == t + r * q
    ensures Advance(s, k * (p * m)) == x
  {
    calc {
      k * (p * m) * GOLDEN;
      { MulSwap(k, p, m); }
      p * ((m * GOLDEN) * k);
      p * (t + r * q);
      { MulSpread(p, t, r, q); }
      p * t + (p * r) * q;
    }
    DivModUnique(s + k * (p * m) * GOLDEN, WORD, q, x);
  }

  /** With a step of 2^e times an odd number, every state congruent modulo 2^e is reached. */
  lemma Reaches(s: Word, x: Word, e: nat, m: nat, t: int) returns (k: nat)
    requires m % 2 == 1 && e <= 64 && x - s == Pow2(e) * t
    ensures k > 0 && Advance(s, k * (Pow2(e) * m)) == x
  {
    hide Pow2;
    var a := m * GOLDEN;
    var q: int;
    k, q := Solve(a, t, 64 - e);
    var p, r := Pow2(e), Pow2(64 - e);
    Pow2Add(e, 64 - e);
    WordIsPow2();
    assert a * (k + r) == t + r * (q + a);
    k, q := k + r, q + a;
    ReachedState(s, x, p, r, m, t, k, q);
  }

  /** If some state congruent to the current one modulo 2^e mixes to a clear top bit, the loop ends. */
  lemma CongruentStateEndsLoop(upper: nat, state: Word, e: nat, m: nat, x: Word, t: int)
    requires upper > 0 && Chunks(upper) == Pow2(e) * m && m % 2 == 1 && e <= 64
    requires x - state == Pow2(e) * t && !Bit(Mix64(x), TopBit(upper))
    ensures Terminates(upper, state)
  {
    hide Mix64, Advance, Chunks, TopBit, Candidate, Pow2;
    var k := Reaches(state, x, e, m, t);
    AttemptStateAdvance(upper, state, k);
    TopBitClearAccepts(upper, AttemptState(upper, state, k - 1));
    assert AcceptsAt(upper, state, k - 1);
  }

  lemma NegatedProduct(p: int, t: int)
    ensures p * (-t) == -(p * t)
  {}

  /** The draws of the state 0 force acceptance, so sampling ends when 2^e divides the state. */
  lemma DivisibleStateTerminates(upper: nat, state: Word, e: nat, m: nat, t: int)
    requires upper > 0 && Chunks(upper) == Pow2(e) * m && m % 2 == 1 && e <= 64
    requires state == Pow2(e) * t
    ensures Terminates(upper, state)
  {
    hide Mix64, Chunks, TopBit, Terminates, Pow2;
    Mix64Zero();
    ConstantBits(TopBit(upper));
    NegatedProduct(Pow2(e), t);
    CongruentStateEndsLoop(upper, state, e, m, 0, -t);
  }

  /** Bounds that need an odd number of draws are sampled in finite time from every state. */
  lemma OddDrawsTerminate(upper: nat, state: Word)
    requires upper > 0 && Chunks(upper) % 2 == 1
    ensures Terminates(upper, state)
  {
    assert Pow2(0) == 1;
    DivisibleStateTerminates(upper, state, 0, Chunks(upper), state);
  }

  lemma {:induction false} BitLengthMonotone(x: nat, b: nat)
    requires x < Pow2(b)
    ensures BitLength(x) <= b
  {
    if x > 0 && b > 0 { BitLengthMonotone(x / 2, b - 1); }
  }

  lemma WordBoundIsOneDraw(upper: nat)
    requires 0 < upper < WORD
    ensures Chunks(upper) == 1 && BitLength(upper) <= 64
  {
    WordIsPow2();
    BitLengthMonotone(upper, 64);
  }

  /** Every range of fewer than 2^64 integers is sampled in finite time from every state. */
  lemma WordRangeTerminates(upper: nat, state: Word)
    requires 0 < upper < WORD
    ensures Terminates(upper, state)
  {
    WordBoundIsOneDraw(upper);
    OddDrawsTerminate(upper, state);
  }

  /** The attempts repeat with period 2^64, so for every bound the first 2^64 of them decide. */
  lemma TerminatesWithinOnePeriod(upper: nat, state: Word)
    ensures Terminates(upper, state) <==> exists k: nat :: k < WORD && AcceptsAt(upper, state, k)
  {
    if Terminates(upper, state) {
      hide Advance, Candidate, Chunks;
      var k: nat :| AcceptsAt(upper, state, k);
      AttemptStateAdvance(upper, state, k);
      AttemptStateAdvance(upper, state, k % WORD);
      AdvancePeriod(state, k, Chunks(upper));
      assert AcceptsAt(upper, state, k % WORD);
    }
  }

  lemma AdvancePeriod(state: Word, k: nat, n: nat)
    ensures Advance(state, k * n) == Advance(state, (k % WORD) * n)
  {
    var q, r := k / WORD, k % WORD;
    var x := state + r * n * GOLDEN;
    assert k * n * GOLDEN == WORD * (q * n * GOLDEN) + r * n * GOLDEN by {
      assert k * n == WORD * (q * n) + r * n by { assert (WORD * q + r) * n == WORD * q * n + r * n; }
    }
    DivModUnique(state + k * n * GOLDEN, WORD, q * n * GOLDEN + x / WORD, x % WORD);
  }

  // ---------- Every value is equally likely ----------

  /** The state whose single draw is `raw`. */
  function StateDrawing(raw: Word): Word {
    (Unmix64(raw) + (WORD - GOLDEN)) % WORD
  }

  lemma StateDrawingInverse(s: Word, raw: Word)
    ensures NextU64(StateDrawing(raw)).0 == raw
    ensures StateDrawing(NextU64(s).0) == s
  {
    hide Mix64, Unmix64;
    Mix64Bijective(raw);
    Mix64Bijective(Advance(s, 1));
    assert Advance(StateDrawing(raw), 1) == Unmix64(raw);
  }

  /** The states from which one attempt at `upper` tries `value`. */
  function StatesTrying(upper: nat, value: nat): set<nat> {
    set s: nat | s < WORD && Candidate(upper, s) == value
  }

  lemma RawBelow(value: nat, b: nat, k: nat)
    requires b <= 64 && value < Pow2(b) && k < Pow2(64 - b)
    ensures value + Scale(k, b) < WORD
  {
    SumBelow(value, k, b, 64 - b);
    WordIsPow2();
  }

  /** The state whose draw has `value` as its low `b` bits and `k` above them. */
  function StateWithLow(value: nat, b: nat, k: nat): Word
    requires b <= 64 && value < Pow2(b) && k < Pow2(64 - b)
  {
    RawBelow(value, b, k);
    StateDrawing(value + Scale(k, b))
  }

  function StatesWithLow(value: nat, b: nat, count: nat): set<nat>
    requires b <= 64 && value < Pow2(b) && count <= Pow2(64 - b)
  {
    set k: nat | k < count :: StateWithLow(value, b, k)
  }

  lemma {:induction false} ScaleInjective(x: nat, y: nat, k: nat)
    requires Scale(x, k) == Scale(y, k)
    ensures x == y
  {
    if k > 0 { ScaleInjective(x, y, k - 1); }
  }

  lemma StateWithLowInjective(value: nat, b: nat, k: nat, l: nat)
    requires b <= 64 && value < Pow2(b) && k < Pow2(64 - b) && l < Pow2(64 - b)
    requires StateWithLow(value, b, k) == StateWithLow(value, b, l)
    ensures k == l
  {
    hide StateDrawing, NextU64, Pow2, Scale;
    RawBelow(value, b, k);
    RawBelow(value, b, l);
    StateDrawingInverse(0, value + Scale(k, b));
    StateDrawingInverse(0, value + Scale(l, b));
    ScaleInjective(k, l, b);
  }

  lemma {:induction false} CountStatesWithLow(value: nat, b: nat, count: nat)
    requires b <= 64 && value < Pow2(b) && count <= Pow2(64 - b)
    ensures |StatesWithLow(value, b, count)| == count
    decreases count
  {
    hide Pow2, StateWithLow;
    if count > 0 {
      CountStatesWithLow(value, b, count - 1);
      var last := StateWithLow(value, b, count - 1);
      forall k: nat | k < count - 1 ensures StateWithLow(value, b, k) != last {
        if StateWithLow(value, b, k) == last { StateWithLowInjective(value, b, k, count - 1); }
      }
      var fewer := StatesWithLow(value, b, count - 1);
      assert last !in fewer;
      assert StatesWithLow(value, b, count) == fewer + {last};
    }
  }

  lemma {:induction false} ScaleZero(k: nat)
    ensures Scale(0, k) == 0
  {
    if k > 0 { ScaleZero(k - 1); }
  }

  lemma {:induction false} ShiftBelowPow2(x: nat, a: nat, m: nat)
    requires x < Pow2(a + m)
    ensures Shift(x, a) < Pow2(m)
    decreases a
  {
    if a > 0 { ShiftBelowPow2(x / 2, a - 1, m); }
  }

  lemma DrawOfStateWithLow(value: nat, b: nat, k: nat)
    requires b <= 64 && value < Pow2(b) && k < Pow2(64 - b)
    ensures Low(NextU64(StateWithLow(value, b, k)).0, b) == value
  {
    hide NextU64, StateDrawing, Pow2;
    RawBelow(value, b, k);
    StateDrawingInverse(0, value + Scale(k, b));
    LowOfSum(value, k, b, 0);
    ScaleZero(b);
  }

  /** A state tries `value` exactly when its draw has `value` as its low bits. */
  lemma TriesExactly(upper: nat, value: nat, s: Word)
    requires Chunks(upper) == 1 && BitLength(upper) <= 64 && value < Pow2(BitLength(upper))
    ensures var b := BitLength(upper);
            Candidate(upper, s) == value <==> exists k: nat :: k < Pow2(64 - b) && StateWithLow(value, b, k) == s
  {
    hide Pow2, NextU64, StateDrawing, BitLength, Chunks, Candidate;
    CandidateIsLow(upper, s);
    var b, raw := BitLength(upper), NextU64(s).0;
    StateDrawingInverse(s, raw);
    assert Draws(NextU64(s).1, 0) == 0;
    assert Candidate(upper, s) == Low(raw, b);
    LowAndShift(raw, b);
    WordIsPow2();
    ShiftBelowPow2(raw, b, 64 - b);
    if Low(raw, b) == value {
      assert StateWithLow(value, b, Shift(raw, b)) == s;
    }
    forall k: nat | k < Pow2(64 - b) && StateWithLow(value, b, k) == s ensures Low(raw, b) == value {
      DrawOfStateWithLow(value, b, k);
    }
  }

  lemma StatesAgree(upper: nat, value: nat, s: nat)
    requires Chunks(upper) == 1 && BitLength(upper) <= 64 && value < Pow2(BitLength(upper))
    ensures var b := BitLength(upper);
            s in StatesTrying(upper, value) <==> s in StatesWithLow(value, b, Pow2(64 - b))
  {
    hide Pow2, StateWithLow, Candidate, BitLength, Chunks;
    if s < WORD { TriesExactly(upper, value, s); }
  }

  /** For a bound of `b` bits below 2^64, every value is tried from exactly 2^(64 - b) states. */
  lemma EveryValueEquallyLikely(upper: nat, value: nat)
    requires 0 < upper < WORD && value < upper
    ensures BitLength(upper) <= 64 && |StatesTrying(upper, value)| == Pow2(64 - BitLength(upper))
  {
    hide Pow2, StatesTrying, StatesWithLow, BitLength, Chunks;
    WordBoundIsOneDraw(upper);
    var b := BitLength(upper);
    CountStatesWithLow(value, b, Pow2(64 - b));
    forall s: nat ensures s in StatesTrying(upper, value) <==> s in StatesWithLow(value, b, Pow2(64 - b)) {
      StatesAgree(upper, value, s);
    }
    assert StatesTrying(upper, value) == StatesWithLow(value, b, Pow2(64 - b));
  }
}
