/** Fixed-width binary expansions, most significant bit first, and the word
    operations of the bit regrouper in terms of them. */
module Bits {

  function Pow2(n: nat): (p: nat)
    ensures p >= 1
  {
    if n == 0 then 1 else 2 * Pow2(n - 1)
  }

  lemma {:induction false} Pow2Monotone(m: nat, n: nat)
    requires m <= n
    ensures Pow2(m) <= Pow2(n)
  {
    if m < n { Pow2Monotone(m, n - 1); }
  }

  /** `x << k` */
  function Shl(x: nat, k: nat): nat {
    if k == 0 then x else 2 * Shl(x, k - 1)
  }

  /** `x >> k` */
  function Shr(x: nat, k: nat): nat {
    if k == 0 then x else Shr(x / 2, k - 1)
  }

  /** `x & (2^k - 1)`; with `k == 32`, what a 32-bit word keeps of `x`. */
  function Mask(x: nat, k: nat): (y: nat)
    ensures y < Pow2(k)
  {
    if k == 0 then 0 else 2 * Mask(x / 2, k - 1) + x % 2
  }

  /** The low `n` bits of `x`. */
  function Low(x: nat, n: nat): (bs: seq<bool>)
    ensures |bs| == n
  {
    if n == 0 then [] else Low(x / 2, n - 1) + [x % 2 == 1]
  }

  /** The number a bit string spells. */
  function Number(bs: seq<bool>): (x: nat)
    ensures x < Pow2(|bs|)
  {
    if bs == [] then 0
    else 2 * Number(bs[..|bs| - 1]) + if bs[|bs| - 1] then 1 else 0
  }

  lemma {:induction false} LowOfNumber(bs: seq<bool>)
    ensures Low(Number(bs), |bs|) == bs
  {
    if bs != [] {
      LowOfNumber(bs[..|bs| - 1]);
    }
  }

  lemma {:induction false} NumberOfLow(x: nat, n: nat)
    requires x < Pow2(n)
    ensures Number(Low(x, n)) == x
  {
    if n != 0 {
      NumberOfLow(x / 2, n - 1);
      assert Low(x, n)[..n - 1] == Low(x / 2, n - 1);
    }
  }

  /** Shifting `x` left by `f` and filling in `b` appends the `f` bits of `b`. */
  lemma {:induction false} LowAppend(x: nat, b: nat, n: nat, f: nat)
    requires b < Pow2(f)
    ensures Low(Shl(x, f) + b, n + f) == Low(x, n) + Low(b, f)
  {
    if f != 0 {
      LowAppend(x, b / 2, n, f - 1);
      assert (Shl(x, f) + b) / 2 == Shl(x, f - 1) + b / 2;
    }
  }

  lemma {:induction false} LowOfMask(x: nat, k: nat, n: nat)
    requires n <= k
    ensures Low(Mask(x, k), n) == Low(x, n)
  {
    if n != 0 { LowOfMask(x / 2, k - 1, n - 1); }
  }

  /** Filling the `f` vacated low bits commutes with cutting down to `k >= f` bits. */
  lemma {:induction false} MaskFill(x: nat, b: nat, f: nat, k: nat)
    requires f <= k && b < Pow2(f)
    ensures Mask(Shl(x, f), k) + b == Mask(Shl(x, f) + b, k)
  {
    if f != 0 {
      var y := Shl(x, f - 1);
      MaskFill(x, b / 2, f - 1, k - 1);
      assert Shl(x, f) == 2 * y;
      assert (2 * y + b) / 2 == y + b / 2 && (2 * y + b) % 2 == b % 2;
    }
  }

  /** The low `t + k` bits are those of the right-shifted word, then the low `k`. */
  lemma {:induction false} LowSplit(x: nat, t: nat, k: nat)
    ensures Low(x, t + k) == Low(Shr(x, k), t) + Low(x, k)
  {
    if k != 0 { LowSplit(x / 2, t, k - 1); }
  }

  function Zeros(n: nat): seq<bool> {
    seq(n, _ => false)
  }

  lemma {:induction false} LowOfZero(n: nat)
    ensures Low(0, n) == Zeros(n)
  {
    if n != 0 { LowOfZero(n - 1); }
  }

  /** A number below `2^n` is zero exactly when its `n` bits are. */
  lemma LowZeroIff(x: nat, n: nat)
    requires x < Pow2(n)
    ensures x == 0 <==> Low(x, n) == Zeros(n)
  {
    LowOfZero(n);
    NumberOfLow(x, n);
    NumberOfLow(0, n);
  }
}
