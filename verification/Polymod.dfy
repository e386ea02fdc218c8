/** The 30-bit BCH checksum register of stakeaddr.go (BIP-173, "Checksum"). */
module Polymod {
  import opened Bits
  import opened Gf2
  import opened ConvertBits

  const GEN: seq<nat> := [0x3b6a57b2, 0x26508e6d, 0x1ea119fa, 0x3d4233dd, 0x2a1462b3]

  /** The register after `n` of the five rounds of the inner loop. */
  function Taps(chk: nat, top: nat, n: nat): nat
    requires n <= 5
  {
    if n == 0 then chk
    else if Bit(top, n - 1) then Xor(Taps(chk, top, n - 1), GEN[n - 1])
    else Taps(chk, top, n - 1)
  }

  /** One round of the outer loop. */
  function Step(chk: nat, v: nat): nat {
    Taps(Xor(Shl(Mask(chk, 25), 5), v), Shr(chk, 25), 5)
  }

  /** The register after reading `values`, starting from `chk`. */
  function Run(chk: nat, values: seq<nat>): nat {
    if values == [] then chk
    else Step(Run(chk, values[..|values| - 1]), values[|values| - 1])
  }

  method Polymod(values: seq<Byte>) returns (chk: nat)
    ensures chk == Run(1, values)
  {
    chk := 1;
    for k := 0 to |values|
      invariant chk == Run(1, values[..k])
    {
      assert values[..k + 1][..k] == values[..k];
      var top := Shr(chk, 25);
      chk := Xor(Shl(Mask(chk, 25), 5), values[k]);
      ghost var start := chk;
      for i := 0 to 5
        invariant chk == Taps(start, top, i)
      {
        if Bit(top, i) {
          chk := Xor(chk, GEN[i]);
        }
      }
    }
    assert values[..|values|] == values;
  }

  // ---- The register is linear over GF(2) ----

  lemma TapAdds(p: nat, q: nat, g: nat, x: bool, y: bool)
    ensures Xor(if x then Xor(p, g) else p, if y then Xor(q, g) else q)
         == if x != y then Xor(Xor(p, q), g) else Xor(p, q)
  {
    Commutes(p, 0);
    Commutes(q, 0);
    Exchange(p, if x then g else 0, q, if y then g else 0);
    Cancels(g);
    Commutes(g, 0);
    Commutes(Xor(p, q), 0);
  }

  lemma {:induction false} TapsLinear(c: nat, d: nat, s: nat, t: nat, n: nat)
    requires n <= 5
    ensures Taps(Xor(c, d), Xor(s, t), n) == Xor(Taps(c, s, n), Taps(d, t, n))
  {
    hide Bit, Xor;
    if n != 0 {
      TapsLinear(c, d, s, t, n - 1);
      OverBit(s, t, n - 1);
      TapAdds(Taps(c, s, n - 1), Taps(d, t, n - 1), GEN[n - 1], Bit(s, n - 1), Bit(t, n - 1));
    }
  }

  lemma StepLinear(a: nat, b: nat, v: nat, w: nat)
    ensures Step(Xor(a, b), Xor(v, w)) == Xor(Step(a, v), Step(b, w))
  {
    var sa, sb := Shl(Mask(a, 25), 5), Shl(Mask(b, 25), 5);
    assert Shl(Mask(Xor(a, b), 25), 5) == Xor(sa, sb) by {
      OverMask(a, b, 25);
      OverShl(Mask(a, 25), Mask(b, 25), 5);
    }
    Exchange(sa, sb, v, w);
    OverShr(a, b, 25);
    TapsLinear(Xor(sa, v), Xor(sb, w), Shr(a, 25), Shr(b, 25), 5);
  }

  /** Symbol-wise sum of two messages of equal length. */
  function Sum(u: seq<nat>, e: seq<nat>): (s: seq<nat>)
    requires |u| == |e|
    ensures |s| == |u|
  {
    seq(|u|, i requires 0 <= i < |u| => Xor(u[i], e[i]))
  }

  /** The register of a disturbed message is that of the message plus that of the
      disturbance alone. */
  lemma {:induction false} RunLinear(a: nat, b: nat, u: seq<nat>, e: seq<nat>)
    requires |u| == |e|
    ensures Run(Xor(a, b), Sum(u, e)) == Xor(Run(a, u), Run(b, e))
  {
    if u != [] {
      var n := |u| - 1;
      assert Sum(u, e)[..n] == Sum(u[..n], e[..n]);
      RunLinear(a, b, u[..n], e[..n]);
      StepLinear(Run(a, u[..n]), Run(b, e[..n]), u[n], e[n]);
    }
  }

  lemma {:induction false} RunAppend(chk: nat, u: seq<nat>, v: seq<nat>)
    ensures Run(chk, u + v) == Run(Run(chk, u), v)
  {
    if v == [] {
      assert u + v == u;
    } else {
      var n := |v| - 1;
      assert (u + v)[..|u| + n] == u + v[..n];
      RunAppend(chk, u, v[..n]);
    }
  }

  // ---- No state is lost on the way ----

  const BITS: nat := 30

  lemma StateCount()
    ensures Pow2(BITS) == 0x4000_0000
  {
    assert Pow2(10) == 0x400;
    assert Pow2(20) == 0x10_0000;
    assert Pow2(30) == 0x4000_0000;
  }

  lemma {:induction false} TapsBelow(c: nat, top: nat, n: nat, k: nat)
    requires n <= 5 && k == BITS && c < Pow2(k)
    ensures Taps(c, top, n) < Pow2(k)
  {
    hide Bit, Xor;
    StateCount();
    if n != 0 {
      TapsBelow(c, top, n - 1, k);
      Below(Taps(c, top, n - 1), GEN[n - 1], k);
    }
  }

  lemma {:induction false} ShlBelow(x: nat, m: nat, k: nat)
    requires x < Pow2(m)
    ensures Shl(x, k) < Pow2(m + k)
  {
    if k != 0 { ShlBelow(x, m, k - 1); }
  }

  lemma StepBelow(a: nat, v: nat, k: nat)
    requires k == BITS && v < Pow2(k)
    ensures Step(a, v) < Pow2(k)
  {
    ShlBelow(Mask(a, 25), k - 5, 5);
    Below(Shl(Mask(a, 25), 5), v, k);
    TapsBelow(Xor(Shl(Mask(a, 25), 5), v), Shr(a, 25), 5, k);
  }

  /** Bit `j` of what the first `n` generators feed back for the top bits `top`. */
  predicate Parity(top: nat, j: nat, n: nat)
    requires n <= 5
    decreases n
  {
    n != 0 && (Bit(top, n - 1) && Bit(GEN[n - 1], j)) != Parity(top, j, n - 1)
  }

  lemma {:induction false} TapsParity(c: nat, top: nat, j: nat, n: nat)
    requires n <= 5
    ensures Bit(Taps(c, top, n), j) <==> Bit(c, j) != Parity(top, j, n)
  {
    hide Bit, Xor;
    if n != 0 {
      TapsParity(c, top, j, n - 1);
      OverBit(Taps(c, top, n - 1), GEN[n - 1], j);
    }
  }

  lemma {:induction false} ShlClearsLowBits(x: nat, k: nat, j: nat)
    requires j < k
    ensures !Bit(Shl(x, k), j)
  {
    if j != 0 { ShlClearsLowBits(x, k - 1, j - 1); }
  }

  lemma GeneratorBits()
    ensures !Bit(GEN[0], 0) && Bit(GEN[0], 1) && !Bit(GEN[0], 2) && !Bit(GEN[0], 3) && Bit(GEN[0], 4)
    ensures Bit(GEN[1], 0) && !Bit(GEN[1], 1) && Bit(GEN[1], 2) && Bit(GEN[1], 3) && !Bit(GEN[1], 4)
    ensures !Bit(GEN[2], 0) && Bit(GEN[2], 1) && !Bit(GEN[2], 2) && Bit(GEN[2], 3) && Bit(GEN[2], 4)
    ensures Bit(GEN[3], 0) && !Bit(GEN[3], 1) && Bit(GEN[3], 2) && Bit(GEN[3], 3) && Bit(GEN[3], 4)
    ensures Bit(GEN[4], 0) && Bit(GEN[4], 1) && !Bit(GEN[4], 2) && !Bit(GEN[4], 3) && Bit(GEN[4], 4)
  {
    assert !Bit(0x3b6a57b2, 0) && Bit(0x3b6a57b2, 1) && !Bit(0x3b6a57b2, 2) && !Bit(0x3b6a57b2, 3) && Bit(0x3b6a57b2, 4);
    assert Bit(0x26508e6d, 0) && !Bit(0x26508e6d, 1) && Bit(0x26508e6d, 2) && Bit(0x26508e6d, 3) && !Bit(0x26508e6d, 4);
    assert !Bit(0x1ea119fa, 0) && Bit(0x1ea119fa, 1) && !Bit(0x1ea119fa, 2) && Bit(0x1ea119fa, 3) && Bit(0x1ea119fa, 4);
    assert Bit(0x3d4233dd, 0) && !Bit(0x3d4233dd, 1) && Bit(0x3d4233dd, 2) && Bit(0x3d4233dd, 3) && Bit(0x3d4233dd, 4);
    assert Bit(0x2a1462b3, 0) && Bit(0x2a1462b3, 1) && !Bit(0x2a1462b3, 2) && !Bit(0x2a1462b3, 3) && Bit(0x2a1462b3, 4);
  }

  /** The low five bits of the five generators are linearly independent. */
  lemma FeedbackSeen(top: nat)
    requires top < Pow2(5)
    requires forall j :: 0 <= j < 5 ==> !Parity(top, j, 5)
    ensures top == 0
  {
    var b := (i: nat) => Bit(top, i);
    GeneratorBits();
    assert Parity(top, 0, 5) == (b(1) != (b(3) != b(4)));
    assert Parity(top, 1, 5) == (b(0) != (b(2) != b(4)));
    assert Parity(top, 2, 5) == (b(1) != b(3));
    assert Parity(top, 3, 5) == (b(1) != (b(2) != b(3)));
    assert Parity(top, 4, 5) == (b(0) != (b(2) != (b(3) != b(4))));
    assert !b(0) && !b(1) && !b(2) && !b(3) && !b(4);
    assert forall i :: 0 <= i < 5 ==> !Bit(top, i);
    NoBitsSet(top, 5);
  }

  lemma {:induction false} ShrBelow(x: nat, m: nat, k: nat)
    requires x < Pow2(m + k)
    ensures Shr(x, k) < Pow2(m)
  {
    if k != 0 { ShrBelow(x / 2, m, k - 1); }
  }

  lemma {:induction false} ShlZero(x: nat, k: nat)
    requires Shl(x, k) == 0
    ensures x == 0
  {
    if k != 0 { ShlZero(x, k - 1); }
  }

  lemma {:induction false} Rejoin(x: nat, k: nat)
    requires Mask(x, k) == 0 && Shr(x, k) == 0
    ensures x == 0
  {
    if k != 0 { Rejoin(x / 2, k - 1); }
  }

  lemma {:induction false} NoTaps(c: nat, top: nat, n: nat)
    requires n <= 5 && top == 0
    ensures Taps(c, top, n) == c
  {
    if n != 0 {
      NoTaps(c, top, n - 1);
      ShiftsOfZero(n - 1);
    }
  }

  lemma {:induction false} ShiftsOfZero(k: nat)
    ensures Shr(0, k) == 0 && Shl(0, k) == 0 && Mask(0, k) == 0
  {
    if k != 0 { ShiftsOfZero(k - 1); }
  }

  /** Shifting in a zero never sends a non-zero register to zero. */
  lemma StepKernel(a: nat)
    requires a < Pow2(BITS)
    requires Step(a, 0) == 0
    ensures a == 0
  {
    var shifted, top := Shl(Mask(a, 25), 5), Shr(a, 25);
    Commutes(shifted, 0);
    ShrBelow(a, 5, 25);
    forall j | 0 <= j < 5 ensures !Parity(top, j, 5) {
      TapsParity(shifted, top, j, 5);
      ShlClearsLowBits(Mask(a, 25), 5, j);
      ShiftsOfZero(j);
    }
    FeedbackSeen(top);
    NoTaps(shifted, top, 5);
    ShlZero(Mask(a, 25), 5);
    Rejoin(a, 25);
  }

  lemma StepInjective(a: nat, b: nat, v: nat, k: nat)
    requires k == BITS && a < Pow2(k) && b < Pow2(k)
    requires Step(a, v) == Step(b, v)
    ensures a == b
  {
    StepLinear(a, b, v, v);
    Cancels(v);
    Cancels(Step(a, v));
    Below(a, b, k);
    StepKernel(Xor(a, b));
    ZeroOnlyIfEqual(a, b);
  }

  predicate Words(values: seq<nat>, k: nat) {
    forall i :: 0 <= i < |values| ==> values[i] < Pow2(k)
  }

  lemma {:induction false} RunBelow(chk: nat, values: seq<nat>, k: nat)
    requires k == BITS && chk < Pow2(k) && Words(values, k)
    ensures Run(chk, values) < Pow2(k)
  {
    if values != [] {
      StepBelow(Run(chk, values[..|values| - 1]), values[|values| - 1], k);
    }
  }

  lemma {:induction false} RunInjective(a: nat, b: nat, values: seq<nat>, k: nat)
    requires k == BITS && a < Pow2(k) && b < Pow2(k) && Words(values, k)
    requires Run(a, values) == Run(b, values)
    ensures a == b
  {
    if values != [] {
      var n := |values| - 1;
      RunBelow(a, values[..n], k);
      RunBelow(b, values[..n], k);
      StepInjective(Run(a, values[..n]), Run(b, values[..n]), values[n], k);
      RunInjective(a, b, values[..n], k);
    }
  }

  lemma StepSeparates(a: nat, v: nat, w: nat)
    requires Step(a, v) == Step(a, w)
    ensures v == w
  {
    StepLinear(a, a, v, w);
    Cancels(a);
    Cancels(Step(a, v));
    StepOfZero(Xor(v, w));
    ZeroOnlyIfEqual(v, w);
  }

  lemma StepOfZero(v: nat)
    ensures Step(0, v) == v
  {
    ShiftsOfZero(25);
    ShiftsOfZero(5);
    NoTaps(v, 0, 5);
  }

  /** Changing one symbol of a message, wherever it stands and however long the
      message is, changes the register. */
  lemma OneChangeShows(chk: nat, values: seq<nat>, i: nat, w: nat, k: nat)
    requires k == BITS && chk < Pow2(k) && Words(values, k)
    requires i < |values| && w < Pow2(k) && w != values[i]
    ensures Run(chk, values[i := w]) != Run(chk, values)
  {
    hide Run, Step, Pow2;
    var before, after := values[..i], values[i + 1..];
    var s := Run(chk, before);
    assert values == (before + [values[i]]) + after;
    assert values[i := w] == (before + [w]) + after;
    RunSnoc(chk, before, values[i]);
    RunSnoc(chk, before, w);
    RunAppend(chk, before + [values[i]], after);
    RunAppend(chk, before + [w], after);
    if Run(chk, values[i := w]) == Run(chk, values) {
      StepBelow(s, values[i], k);
      StepBelow(s, w, k);
      RunInjective(Step(s, values[i]), Step(s, w), after, k);
      StepSeparates(s, values[i], w);
    }
  }

  lemma RunSnoc(chk: nat, values: seq<nat>, v: nat)
    ensures Run(chk, values + [v]) == Step(Run(chk, values), v)
  {
    assert (values + [v])[..|values|] == values;
  }

  // ---- Six trailing symbols are read out of the register as they went in ----

  lemma {:induction false} MaskOfSmall(x: nat, k: nat)
    requires x < Pow2(k)
    ensures Mask(x, k) == x
  {
    if k != 0 { MaskOfSmall(x / 2, k - 1); }
  }

  lemma StepOfSmall(p: nat, v: nat)
    requires p < Pow2(25) && v < Pow2(5)
    ensures Step(p, v) == Shl(p, 5) + v
  {
    MaskOfSmall(p, 25);
    ShrBelow(p, 0, 25);
    Fills(p, v, 5);
    NoTaps(Xor(Shl(p, 5), v), Shr(p, 25), 5);
  }

  lemma {:induction false} SixSymbolsFit(c: seq<Byte>, n: nat)
    requires n == 5 * |c| <= BITS && Fits(c, 5)
    ensures Run(0, c) < Pow2(n)
    ensures Low(Run(0, c), n) == BitString(c, 5)
  {
    hide Step, Pow2;
    if c != [] {
      SixSymbolsFit(c[..|c| - 1], n - 5);
      NextSymbolFits(Run(0, c[..|c| - 1]), c[|c| - 1], n - 5, n);
    }
  }

  lemma NextSymbolFits(p: nat, v: nat, m: nat, n: nat)
    requires n == m + 5 <= BITS && p < Pow2(m) && v < Pow2(5)
    ensures Step(p, v) < Pow2(n)
    ensures Low(Step(p, v), n) == Low(p, m) + Low(v, 5)
  {
    hide Step, Low, Shl, Pow2;
    Pow2Monotone(m, 25);
    StepOfSmall(p, v);
    LowAppend(p, v, m, 5);
    FillBelow(p, v, m, 5);
  }

  lemma {:induction false} FillBelow(x: nat, v: nat, m: nat, k: nat)
    requires x < Pow2(m) && v < Pow2(k)
    ensures Shl(x, k) + v < Pow2(m + k)
  {
    if k != 0 { FillBelow(x, v / 2, m, k - 1); }
  }

  /** Reading the symbols `c` adds their bits to what reading zeros leaves. */
  lemma TrailingSymbols(chk: nat, c: seq<Byte>)
    requires |c| == 6
    ensures Run(chk, c) == Xor(Run(chk, seq(6, _ => 0)), Run(0, c))
  {
    var zeros := seq(6, _ => 0);
    Commutes(chk, 0);
    assert Sum(zeros, c) == c;
    RunLinear(chk, 0, zeros, c);
  }

  // ---- Any change within six consecutive symbols shows ----

  lemma AddedSymbols(chk: nat, c: seq<nat>)
    ensures Run(chk, c) == Xor(Run(chk, seq(|c|, _ => 0)), Run(0, c))
  {
    var zeros := seq(|c|, _ => 0);
    Commutes(chk, 0);
    assert Sum(zeros, c) == c;
    RunLinear(chk, 0, zeros, c);
  }

  lemma ShortRunsDiffer(chk: nat, u: seq<Byte>, v: seq<Byte>)
    requires |u| == |v| <= 6 && Fits(u, 5) && Fits(v, 5) && Run(chk, u) == Run(chk, v)
    ensures u == v
  {
    hide Run, Group, BitString;
    AddedSymbols(chk, u);
    AddedSymbols(chk, v);
    var z := Run(chk, seq(|u|, _ => 0));
    Commutes(z, Run(0, u));
    Commutes(z, Run(0, v));
    Injective(Run(0, u), Run(0, v), z);
    SixSymbolsFit(u, 5 * |u|);
    SixSymbolsFit(v, 5 * |v|);
    GroupUnique(u, 5);
    GroupUnique(v, 5);
  }

  /** A message of any length in which up to six consecutive symbols are replaced in any way ends
      with another register. */
  lemma BurstShows(chk: nat, before: seq<Byte>, u: seq<Byte>, v: seq<Byte>, after: seq<Byte>, k: nat)
    requires k == BITS && chk < Pow2(k) && |u| == |v| <= 6 && u != v
    requires Fits(before, 5) && Fits(u, 5) && Fits(v, 5) && Fits(after, 5)
    ensures Run(chk, before + u + after) != Run(chk, before + v + after)
  {
    hide Run, Pow2;
    var s := Run(chk, before);
    RunAppend(chk, before + u, after);
    RunAppend(chk, before + v, after);
    RunAppend(chk, before, u);
    RunAppend(chk, before, v);
    Pow2Monotone(5, k);
    assert Words(before, k) && Words(u, k) && Words(v, k) && Words(after, k);
    RunBelow(chk, before, k);
    RunBelow(s, u, k);
    RunBelow(s, v, k);
    if Run(chk, before + u + after) == Run(chk, before + v + after) {
      RunInjective(Run(s, u), Run(s, v), after, k);
      ShortRunsDiffer(s, u, v);
    }
  }
}
