/** Little-endian byte strings. */
module Bytes {
  import opened Binary
  import opened Mixing
  import opened MachineWords

  type Byte = n: nat | n < 256

  function FromBytes(bytes: seq<Byte>): nat {
    if bytes == [] then 0 else bytes[0] + 256 * FromBytes(bytes[1..])
  }

  /** The low `k` bytes of a number. */
  function LowBytes(x: nat, k: nat): (r: seq<Byte>)
    ensures |r| == k
    decreases k
  {
    if k == 0 then [] else [x % 256] + LowBytes(x / 256, k - 1)
  }

  lemma NoBytes()
    ensures FromBytes([]) == 0
  {}

  lemma OneByte(b: Byte)
    ensures FromBytes([b]) == b
  {}

  lemma ByteScale(x: nat)
    ensures Scale(x, 8) == 256 * x && Pow2(8) == 256
  {
    ScaleIsProduct(x, 8);
  }

  lemma WordScale(x: nat)
    ensures Scale(x, 64) == WORD * x
  {
    ScaleIsProduct(x, 64);
    WordIsPow2();
  }

  lemma {:induction false} LowBytesValue(x: nat, k: nat)
    ensures FromBytes(LowBytes(x, k)) == Low(x, 8 * k)
    decreases k
  {
    if k > 0 {
      LowBytesValue(x / 256, k - 1);
      ByteScale(x / 256);
      ByteScale(Low(x / 256, 8 * (k - 1)));
      LowOfSum(x % 256, x / 256, 8, 8 * (k - 1));
      assert LowBytes(x, k)[1..] == LowBytes(x / 256, k - 1);
    }
  }

  lemma {:induction false} LowBytesPrefix(x: nat, k: nat, n: nat)
    requires k <= n
    ensures LowBytes(x, n)[..k] == LowBytes(x, k)
    decreases k
  {
    if k > 0 {
      LowBytesPrefix(x / 256, k - 1, n - 1);
      assert LowBytes(x, n)[..k] == [x % 256] + LowBytes(x / 256, n - 1)[..k - 1];
    }
  }

  lemma {:induction false} FromBytesAppend(a: seq<Byte>, b: seq<Byte>)
    ensures FromBytes(a + b) == FromBytes(a) + Scale(FromBytes(b), 8 * |a|)
  {
    if a == [] {
      assert a + b == b;
    } else {
      assert (a + b)[1..] == a[1..] + b;
      FromBytesAppend(a[1..], b);
      ScaleAdd(FromBytes(b), 8, 8 * (|a| - 1));
      ByteScale(Scale(FromBytes(b), 8 * (|a| - 1)));
    }
  }

  lemma {:induction false} FromBytesBelow(bytes: seq<Byte>)
    ensures FromBytes(bytes) < Pow2(8 * |bytes|)
  {
    if bytes != [] {
      FromBytesBelow(bytes[1..]);
      Pow2Add(8, 8 * (|bytes| - 1));
      assert Pow2(8) == 256;
    }
  }

  /** The eight little-endian bytes of a word give the word back. */
  lemma WordBytes(x: Word)
    ensures FromBytes(LowBytes(x, 8)) == x
  {
    hide FromBytes, LowBytes, Pow2;
    WordIsPow2();
    LowBytesValue(x, 8);
    LowSmall(x, 64);
  }

  lemma {:induction false} MaskedValue(low: seq<Byte>, last: Byte, keep: nat)
    ensures Low(last, keep) <= last
    ensures FromBytes(low + [Low(last, keep)]) == Low(FromBytes(low + [last]), 8 * |low| + keep)
  {
    hide FromBytes, Pow2;
    LowAndShift(last, keep);
    OneByte(last);
    OneByte(Low(last, keep));
    FromBytesAppend(low, [last]);
    FromBytesAppend(low, [Low(last, keep)]);
    FromBytesBelow(low);
    LowOfSum(FromBytes(low), last, 8 * |low|, keep);
  }
}
