/** Exclusive or of words, as addition of bit vectors over GF(2). */
module Gf2 {
  import opened Bits

  /** `a ^ b` */
  function Xor(a: nat, b: nat): nat {
    if a == 0 then b
    else if b == 0 then a
    else 2 * Xor(a / 2, b / 2) + if a % 2 == b % 2 then 0 else 1
  }

  /** `(x >> i) & 1 == 1` */
  predicate Bit(x: nat, i: nat) {
    Shr(x, i) % 2 == 1
  }

  lemma Halves(a: nat, b: nat)
    ensures Xor(a, b) / 2 == Xor(a / 2, b / 2)
    ensures Xor(a, b) % 2 == if a % 2 == b % 2 then 0 else 1
  {}

  lemma {:induction false} Commutes(a: nat, b: nat)
    ensures Xor(a, b) == Xor(b, a)
  {
    if a != 0 && b != 0 { Commutes(a / 2, b / 2); }
  }

  lemma {:induction false} Cancels(a: nat)
    ensures Xor(a, a) == 0
  {
    if a != 0 { Cancels(a / 2); }
  }

  lemma {:induction false} Associates(a: nat, b: nat, c: nat)
    ensures Xor(Xor(a, b), c) == Xor(a, Xor(b, c))
    decreases a + b + c
  {
    if a != 0 && b != 0 && c != 0 {
      Halves(a, b);
      Halves(b, c);
      Halves(Xor(a, b), c);
      Halves(a, Xor(b, c));
      Associates(a / 2, b / 2, c / 2);
    }
  }

  /** Two sums of two terms each, regrouped. */
  lemma Exchange(a: nat, b: nat, c: nat, d: nat)
    ensures Xor(Xor(a, b), Xor(c, d)) == Xor(Xor(a, c), Xor(b, d))
  {
    Associates(a, b, Xor(c, d));
    Associates(b, c, d);
    Commutes(b, c);
    Associates(c, b, d);
    Associates(a, c, Xor(b, d));
  }

  lemma Injective(a: nat, b: nat, c: nat)
    requires Xor(a, c) == Xor(b, c)
    ensures a == b
  {
    Associates(a, c, c);
    Associates(b, c, c);
    Cancels(c);
    Commutes(a, 0);
    Commutes(b, 0);
  }

  lemma ZeroOnlyIfEqual(a: nat, b: nat)
    ensures Xor(a, b) == 0 <==> a == b
  {
    Cancels(b);
    if Xor(a, b) == 0 { Injective(a, b, b); }
  }

  lemma {:induction false} Below(a: nat, b: nat, k: nat)
    requires a < Pow2(k) && b < Pow2(k)
    ensures Xor(a, b) < Pow2(k)
  {
    if k != 0 {
      Below(a / 2, b / 2, k - 1);
      Halves(a, b);
    }
  }

  lemma Doubled(m: nat, p: nat, n: nat, q: nat)
    requires p < 2 && q < 2
    ensures Xor(2 * m + p, 2 * n + q) == 2 * Xor(m, n) + if p == q then 0 else 1
  {
    var a, b := 2 * m + p, 2 * n + q;
    assert a / 2 == m && b / 2 == n && a % 2 == p && b % 2 == q;
    Halves(a, b);
  }

  lemma {:induction false} OverShl(a: nat, b: nat, k: nat)
    ensures Shl(Xor(a, b), k) == Xor(Shl(a, k), Shl(b, k))
  {
    if k != 0 {
      OverShl(a, b, k - 1);
      Doubled(Shl(a, k - 1), 0, Shl(b, k - 1), 0);
    }
  }

  lemma {:induction false} OverShr(a: nat, b: nat, k: nat)
    ensures Shr(Xor(a, b), k) == Xor(Shr(a, k), Shr(b, k))
  {
    if k != 0 {
      Halves(a, b);
      OverShr(a / 2, b / 2, k - 1);
    }
  }

  lemma {:induction false} OverMask(a: nat, b: nat, k: nat)
    ensures Mask(Xor(a, b), k) == Xor(Mask(a, k), Mask(b, k))
  {
    hide Xor;
    if k == 0 {
      Commutes(0, 0);
      Cancels(0);
    } else {
      Halves(a, b);
      OverMask(a / 2, b / 2, k - 1);
      Doubled(Mask(a / 2, k - 1), a % 2, Mask(b / 2, k - 1), b % 2);
    }
  }

  lemma OverBit(a: nat, b: nat, i: nat)
    ensures Bit(Xor(a, b), i) <==> Bit(a, i) != Bit(b, i)
  {
    OverShr(a, b, i);
    Halves(Shr(a, i), Shr(b, i));
  }

  lemma {:induction false} NoBitsSet(x: nat, k: nat)
    requires x < Pow2(k)
    requires forall i :: 0 <= i < k ==> !Bit(x, i)
    ensures x == 0
  {
    if k != 0 {
      forall i | 0 <= i < k - 1 ensures !Bit(x / 2, i) {
        assert !Bit(x, i + 1);
      }
      NoBitsSet(x / 2, k - 1);
      assert !Bit(x, 0);
    }
  }

  /** Filling vacated low bits is addition. */
  lemma {:induction false} Fills(x: nat, v: nat, k: nat)
    requires v < Pow2(k)
    ensures Xor(Shl(x, k), v) == Shl(x, k) + v
  {
    if k == 0 {
      Commutes(x, 0);
    } else {
      Fills(x, v / 2, k - 1);
      Doubled(Shl(x, k - 1), 0, v / 2, v % 2);
    }
  }
}
