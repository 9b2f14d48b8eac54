/** The four bit helpers of the firmware (`bit_clear`, `bit_toggle`,
    `bit_set`, `bit_check`). Each takes a 32-bit word and a bit POSITION;
    the shift `(uint32_t)1 << bit` is defined in C only for positions
    below 32, which is what each `requires` says. */
module Bits {

  /** `bit_check`: whether bit `bit` of `number` is one. */
  predicate BitCheck(number: bv32, bit: bv32)
    requires bit < 32
  {
    (number >> bit) & 1 == 1
  }

  /** `bit_check` shifts the word down; equivalently, the single-bit mask
      `1 << bit` that the other three helpers use meets the word. */
  lemma BitCheckIsMask(number: bv32, bit: bv32)
    requires bit < 32
    ensures BitCheck(number, bit) <==> number & (1 << bit) != 0
  {
  }

  /** `bit_clear`: `number & ~(1 << bit)`. */
  function BitClear(number: bv32, bit: bv32): (r: bv32)
    requires bit < 32
    ensures !BitCheck(r, bit)
    ensures forall j: bv32 :: j < 32 && j != bit ==> BitCheck(r, j) == BitCheck(number, j)
  {
    ClearKeepsOtherBits(number, bit);
    number & !(1 << bit)
  }

  /** `bit_toggle`: `number ^ (1 << bit)`. */
  function BitToggle(number: bv32, bit: bv32): (r: bv32)
    requires bit < 32
    ensures BitCheck(r, bit) == !BitCheck(number, bit)
    ensures forall j: bv32 :: j < 32 && j != bit ==> BitCheck(r, j) == BitCheck(number, j)
  {
    ToggleKeepsOtherBits(number, bit);
    number ^ (1 << bit)
  }

  /** `bit_set`: `number | (1 << bit)`. */
  function BitSet(number: bv32, bit: bv32): (r: bv32)
    requires bit < 32
    ensures BitCheck(r, bit)
    ensures forall j: bv32 :: j < 32 && j != bit ==> BitCheck(r, j) == BitCheck(number, j)
  {
    number | (1 << bit)
  }

  lemma ClearKeepsOtherBits(number: bv32, bit: bv32)
    requires bit < 32
    ensures forall j: bv32 :: j < 32 && j != bit ==> BitCheck(number & !(1 << bit), j) == BitCheck(number, j)
  {
    forall j: bv32 | j < 32 && j != bit
      ensures BitCheck(number & !(1 << bit), j) == BitCheck(number, j)
    {
    }
  }

  lemma ToggleKeepsOtherBits(number: bv32, bit: bv32)
    requires bit < 32
    ensures forall j: bv32 :: j < 32 && j != bit ==> BitCheck(number ^ (1 << bit), j) == BitCheck(number, j)
  {
    forall j: bv32 | j < 32 && j != bit
      ensures BitCheck(number ^ (1 << bit), j) == BitCheck(number, j)
    {
    }
  }

  /** A word is determined by its 32 bits, so the per-bit contracts above
      pin each helper's result down completely. */
  lemma BitsDetermineWord(a: bv32, b: bv32)
    requires forall j: bv32 :: j < 32 ==> BitCheck(a, j) == BitCheck(b, j)
    ensures a == b
  {
    AgreeFrom(a, b, 0);
  }

  /** Words that agree on every bit agree on every suffix `x >> k`,
      shown from `k = 32` (nothing left) downwards. */
  lemma {:induction false} AgreeFrom(a: bv32, b: bv32, k: bv32)
    requires k <= 32
    requires forall j: bv32 :: j < 32 ==> BitCheck(a, j) == BitCheck(b, j)
    ensures a >> k == b >> k
    decreases 32 - k
  {
    if k < 32 {
      AgreeFrom(a, b, k + 1);
      assert (a >> k) & 1 == (b >> k) & 1 by {
        assert BitCheck(a, k) == BitCheck(b, k);
        LowBit(a >> k);
        LowBit(b >> k);
      }
      ShiftSplit(a, k);
      ShiftSplit(b, k);
    }
  }

  /** The lowest bit of a word is 0 or 1. */
  lemma LowBit(x: bv32)
    ensures x & 1 == 0 || x & 1 == 1
  {
  }

  /** `x >> k` is `x >> (k + 1)` with bit `k` appended below it. */
  lemma ShiftSplit(x: bv32, k: bv32)
    requires k < 32
    ensures x >> k == ((x >> (k + 1)) << 1) | ((x >> k) & 1)
  {
  }

  /** Toggling the same bit twice restores the word. */
  lemma ToggleInvolution(number: bv32, bit: bv32)
    requires bit < 32
    ensures BitToggle(BitToggle(number, bit), bit) == number
  {
  }

  /** Setting a bit that is already set, or clearing one that is already
      clear, changes nothing. */
  lemma SetClearIdempotent(number: bv32, bit: bv32)
    requires bit < 32
    ensures BitCheck(number, bit) ==> BitSet(number, bit) == number
    ensures !BitCheck(number, bit) ==> BitClear(number, bit) == number
  {
  }
}
