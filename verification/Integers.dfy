/** The machine integers of the wire formats, and powers of two. */
module Integers {

  const TWO_32: int := 0x1_0000_0000
  const TWO_64: int := 0x1_0000_0000_0000_0000

  type byte = x: int | 0 <= x < 256
  type u32 = x: int | 0 <= x < TWO_32
  type u64 = x: int | 0 <= x < TWO_64

  function Pow2(n: nat): (r: nat)
    ensures r >= 1
  {
    if n == 0 then 1 else 2 * Pow2(n - 1)
  }

  /** The weight of the `k`-th base-128 digit. */
  function Weight(k: nat): (r: nat)
    ensures r >= 1
  {
    if k == 0 then 1 else 128 * Weight(k - 1)
  }

  lemma {:induction false} WeightIsPow2(k: nat)
    ensures Weight(k) == Pow2(7 * k)
  {
    if k > 0 {
      WeightIsPow2(k - 1);
      Pow2Seven(7 * (k - 1));
    }
  }

  lemma Pow2Seven(n: nat)
    ensures Pow2(n + 7) == 128 * Pow2(n)
  {
    assert Pow2(n + 7) == 2 * Pow2(n + 6) == 4 * Pow2(n + 5) == 8 * Pow2(n + 4);
    assert Pow2(n + 4) == 2 * Pow2(n + 3) == 4 * Pow2(n + 2) == 8 * Pow2(n + 1);
  }

  lemma {:induction false} Pow2Grows(m: nat, n: nat)
    requires m <= n
    ensures Pow2(m) <= Pow2(n)
    decreases n - m
  {
    if m < n {
      Pow2Grows(m, n - 1);
    }
  }

  lemma {:induction false} WeightGrows(j: nat, k: nat)
    requires j <= k
    ensures Weight(j) <= Weight(k)
    decreases k - j
  {
    if j < k {
      WeightGrows(j, k - 1);
    }
  }

  lemma WeightValues()
    ensures Weight(8) == 0x100_0000_0000_0000 && Weight(9) == 0x8000_0000_0000_0000
  {
    assert Weight(3) == 128 * Weight(2) == 128 * 128 * 128;
    assert Weight(6) == 128 * Weight(5) == 128 * 128 * Weight(4) == 128 * 128 * 128 * Weight(3);
    assert Weight(9) == 128 * Weight(8) == 128 * 128 * Weight(7) == 128 * 128 * 128 * Weight(6);
  }

  /** `x << n` on 64 bits: what does not fit is dropped. */
  function ShiftLeft(x: u64, n: nat): u64
    decreases n
  {
    if n == 0 then x else ShiftLeft(2 * x % TWO_64, n - 1)
  }

  /** On 64-bit words the masks, shifts and disjoint `|` of the byte codecs are
      the remainders, quotients and sums used here. */
  lemma BitsAreArithmetic(x: bv64, low: bv64)
    ensures x & 0x7F == x % 128 && x >> 7 == x / 128 && x & 1 == x % 2 && x >> 1 == x / 2
    ensures low < 128 ==> low | 0x80 == low + 128
    ensures low < 128 ==> (x << 7) | low == (x << 7) + low
  {
  }

  /** Bits shifted past those read so far are added by `|`, at every shift a
      reader of ten groups makes; what does not fit is dropped either way. */
  lemma OrIsSum(result: bv64, part: bv64)
    ensures result < 0x80 ==> result | (part << 7) == result + (part << 7)
    ensures result < 0x4000 ==> result | (part << 14) == result + (part << 14)
    ensures result < 0x200000 ==> result | (part << 21) == result + (part << 21)
    ensures result < 0x10000000 ==> result | (part << 28) == result + (part << 28)
    ensures result < 0x800000000 ==> result | (part << 35) == result + (part << 35)
    ensures result < 0x40000000000 ==> result | (part << 42) == result + (part << 42)
    ensures result < 0x2000000000000 ==> result | (part << 49) == result + (part << 49)
    ensures result < 0x100000000000000 ==> result | (part << 56) == result + (part << 56)
    ensures result < 0x8000000000000000 ==> result | (part << 63) == result + (part << 63)
  {
  }
}
