/*
 * A lane as the sequence of its bits, bit 0 first: bit i has weight 2^i.
 * The shift and logic instructions are stated on this view exactly as their
 * reference pseudo-code states them (bit i of the result is bit i+k of the
 * source, or 0, or the sign bit), which keeps the shift count symbolic.
 */
module LaneBits {
  import opened Lanes

  type Bits = seq<bool>

  /** A lane of w bits, all equal to b (all ones or zero). */
  function Fill(w: nat, b: bool): (r: Bits)
    ensures |r| == w && forall i | 0 <= i < w :: r[i] == b
  {
    seq(w, i requires 0 <= i < w => b)
  }

  /** Logical right shift; counts of the width or more give zero. */
  function Shr(x: Bits, k: nat): (r: Bits)
    ensures |r| == |x|
  {
    seq(|x|, i requires 0 <= i < |x| => i + k < |x| && x[i + k])
  }

  /** Left shift; counts of the width or more give zero. */
  function Shl(x: Bits, k: nat): (r: Bits)
    ensures |r| == |x|
  {
    seq(|x|, i requires 0 <= i < |x| => i >= k && x[i - k])
  }

  /** Arithmetic right shift: the vacated bits copy the sign bit. */
  function Sra(x: Bits, k: nat): (r: Bits)
    requires |x| > 0
    ensures |r| == |x|
  {
    seq(|x|, i requires 0 <= i < |x| => if i + k < |x| then x[i + k] else x[|x| - 1])
  }

  function And(x: Bits, y: Bits): (r: Bits)
    requires |x| == |y|
    ensures |r| == |x|
  {
    seq(|x|, i requires 0 <= i < |x| => x[i] && y[i])
  }

  /** AndNot(a, b) = ~a & b. */
  function AndNot(x: Bits, y: Bits): (r: Bits)
    requires |x| == |y|
    ensures |r| == |x|
  {
    seq(|x|, i requires 0 <= i < |x| => !x[i] && y[i])
  }

  function Or(x: Bits, y: Bits): (r: Bits)
    requires |x| == |y|
    ensures |r| == |x|
  {
    seq(|x|, i requires 0 <= i < |x| => x[i] || y[i])
  }

  function Xor(x: Bits, y: Bits): (r: Bits)
    requires |x| == |y|
    ensures |r| == |x|
  {
    seq(|x|, i requires 0 <= i < |x| => x[i] != y[i])
  }

  /** The two's-complement value of a lane; its unsigned value is MaskNumber(x). */
  function SignedValue(x: Bits): int
    requires |x| > 0
  {
    MaskNumber(x) - (if x[|x| - 1] then Pow2(|x|) else 0)
  }

  // ---------------------------------------------------------------- lemmas

  /** The top bit is set exactly when the unsigned value is at least 2^(w-1). */
  lemma {:induction false} TopBit(x: Bits)
    requires |x| > 0
    ensures x[|x| - 1] <==> MaskNumber(x) >= Pow2(|x| - 1)
  {
    if |x| > 1 {
      TopBit(x[1..]);
      BitsOfMaskNumber(x[1..]);
      assert x[1..][|x[1..]| - 1] == x[|x| - 1];
    }
  }

  /** A lane is negative exactly when its sign bit is set. */
  lemma Negative(x: Bits)
    requires |x| > 0
    ensures SignedValue(x) < 0 <==> x[|x| - 1]
  {
    BitsOfMaskNumber(x);
  }
}
