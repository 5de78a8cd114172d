/** The bit builtins on unbounded integers (crates/eldr/src/builtin.rs). */
module BitBuiltins {
  import opened Wrappers
  import opened Binary
  import opened MachineWords

  datatype IndexError = NegativeBitIndex(index: int) | IndexTooLarge(index: int)

  function BitIndex(index: int): Result<nat, IndexError> {
    if index < 0 then Err(NegativeBitIndex(index))
    else if index >= WORD then Err(IndexTooLarge(index))
    else Ok(index)
  }

  function TestBit(value: int, index: int): Result<bool, IndexError> {
    match BitIndex(index)
    case Ok(i) => Ok(Bitwise(And, value, Pow2(i)) != 0)
    case Err(e) => Err(e)
  }

  datatype Change = Set | Clear | Toggle

  /** `set_bit`, `clear_bit` and `toggle_bit`. */
  function ChangeBit(change: Change, value: int, index: int): Result<int, IndexError> {
    match BitIndex(index)
    case Err(e) => Err(e)
    case Ok(i) =>
      match change
      case Set => Ok(Bitwise(Or, value, Pow2(i)))
      case Clear => Ok(Bitwise(And, value, Not(Pow2(i))))
      case Toggle => Ok(Bitwise(Xor, value, Pow2(i)))
  }

  /** What a change makes of the bit it names. */
  predicate Changed(change: Change, bit: bool) {
    match change
    case Set => true
    case Clear => false
    case Toggle => !bit
  }

  predicate InRange(index: int) {
    0 <= index < WORD
  }

  /** Testing reads the bit of the expansion; an index outside the machine range is an error. */
  lemma TestBitReadsBit(value: int, index: int)
    ensures TestBit(value, index).Ok? <==> InRange(index)
    ensures InRange(index) ==> TestBit(value, index).value == Bit(value, index)
    ensures index < 0 ==> TestBit(value, index) == Err(NegativeBitIndex(index))
    ensures index >= WORD ==> TestBit(value, index) == Err(IndexTooLarge(index))
  {
    if InRange(index) {
      var masked := Bitwise(And, value, Pow2(index));
      forall j: nat ensures Bit(masked, j) == (j == index && Bit(value, j)) {
        BitwiseBit(And, value, Pow2(index), j);
        Pow2Bit(index, j);
      }
      if masked == 0 {
        ConstantBits(index);
      } else if !Bit(value, index) {
        NoBits(masked);
      }
    }
  }

  /** Set, clear and toggle accept exactly the machine's indices, and say why they refuse another. */
  lemma ChangeBitAccepts(change: Change, value: int, index: int)
    ensures ChangeBit(change, value, index).Ok? <==> 0 <= index < 0x1_0000_0000_0000_0000
    ensures index < 0 ==> ChangeBit(change, value, index) == Err(NegativeBitIndex(index))
    ensures index >= 0x1_0000_0000_0000_0000 ==> ChangeBit(change, value, index) == Err(IndexTooLarge(index))
  {}

  lemma ChangeBitAt(change: Change, value: int, i: int, j: nat)
    requires InRange(i)
    ensures ChangeBit(change, value, i).Ok?
    ensures Bit(ChangeBit(change, value, i).value, j)
         == if j == i then Changed(change, Bit(value, i)) else Bit(value, j)
  {
    Pow2Bit(i, j);
    NotBit(Pow2(i), j);
    BitwiseBit(Or, value, Pow2(i), j);
    BitwiseBit(And, value, Not(Pow2(i)), j);
    BitwiseBit(Xor, value, Pow2(i), j);
  }

  /** Set, clear and toggle change exactly the bit they name, as every later test sees it. */
  lemma ChangeBitSeenByTest(change: Change, value: int, i: int, j: int)
    requires InRange(i) && InRange(j)
    ensures var after := TestBit(ChangeBit(change, value, i).value, j);
            if j != i then after == TestBit(value, j)
            else match change
              case Set => after == Ok(true)
              case Clear => after == Ok(false)
              case Toggle => after.Ok? && after.value != TestBit(value, i).value
  {
    ChangeBitAt(change, value, i, j);
    TestBitReadsBit(value, i);
    TestBitReadsBit(value, j);
    TestBitReadsBit(ChangeBit(change, value, i).value, j);
  }

  /** Setting and clearing twice is doing it once; toggling twice is doing nothing. */
  lemma ChangeBitTwice(change: Change, value: int, i: int)
    requires InRange(i)
    ensures var once := ChangeBit(change, value, i).value;
            ChangeBit(change, once, i) == Ok(if change == Toggle then value else once)
  {
    var once := ChangeBit(change, value, i).value;
    var twice := ChangeBit(change, once, i).value;
    var expected := if change == Toggle then value else once;
    forall j: nat ensures Bit(twice, j) == Bit(expected, j) {
      ChangeBitAt(change, value, i, j);
      ChangeBitAt(change, value, i, i);
      ChangeBitAt(change, once, i, j);
    }
    SameBits(twice, expected);
  }

  /** Changes at different indices commute, whatever they are. */
  lemma ChangesCommute(first: Change, second: Change, value: int, i: int, k: int)
    requires InRange(i) && InRange(k) && i != k
    ensures ChangeBit(second, ChangeBit(first, value, i).value, k)
         == ChangeBit(first, ChangeBit(second, value, k).value, i)
  {
    var a, b := ChangeBit(first, value, i).value, ChangeBit(second, value, k).value;
    var left, right := ChangeBit(second, a, k).value, ChangeBit(first, b, i).value;
    forall j: nat ensures Bit(left, j) == Bit(right, j) {
      ChangeBitAt(first, value, i, j);
      ChangeBitAt(second, value, k, j);
      ChangeBitAt(first, value, i, k);
      ChangeBitAt(second, value, k, i);
      ChangeBitAt(second, a, k, j);
      ChangeBitAt(first, b, i, j);
    }
    SameBits(left, right);
  }
}
