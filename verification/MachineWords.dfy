/** The machine words of the original as natural numbers; wrap-around is written out where it can occur. */
module MachineWords {

  const U32_MAX := 0xffff_ffff
  const U32_LIMIT := U32_MAX + 1

  type U32 = n: nat | n <= U32_MAX

  /** One more than the largest 64-bit word, which is also the largest index and length. */
  const WORD := 0x1_0000_0000_0000_0000

  type Word = n: nat | n < WORD
}
