/** Which code the checksum register computes: the remainder modulo the generator polynomial
    of BIP-173, over the field of 32 elements. */
module Bch {
  import opened Bits
  import opened Gf2
  import opened ConvertBits
  import opened Polymod

  // ---- The field of 32 elements ----

  /** `x` times the element 2, in the field where a^5 = a^3 + 1. */
  function Twice(x: nat): nat {
    if x < 16 then 2 * x else Xor(2 * x - 32, 9)
  }

  function TwicePower(x: nat, n: nat): nat {
    if n == 0 then x else Twice(TwicePower(x, n - 1))
  }

  /** Multiplication, bit by bit of the first factor. */
  function Times(a: nat, b: nat): nat {
    if a == 0 then 0 else Xor(if a % 2 == 1 then b else 0, Times(a / 2, Twice(b)))
  }

  /** x^6 + 29 x^5 + 22 x^4 + 20 x^3 + 21 x^2 + 29 x + 18, leading coefficient first. */
  const GENERATOR: seq<nat> := [1, 29, 22, 20, 21, 29, 18]

  // ---- Polynomials over it, leading coefficient first ----

  function Scale(t: nat, p: seq<nat>): (r: seq<nat>)
    ensures |r| == |p|
  {
    seq(|p|, i requires 0 <= i < |p| => Times(t, p[i]))
  }

  function Blank(n: nat): seq<nat> {
    seq(n, _ => 0)
  }

  /** The product of `q` with the generator: multiply by x for each further coefficient, and
      add its multiple of the generator.  Polynomials are added like messages, by `Polymod.Sum`. */
  function Product(q: seq<nat>): (p: seq<nat>)
    ensures |p| == |q| + 6
  {
    if q == [] then Blank(6)
    else
      var n := |q| - 1;
      Sum(Product(q[..n]) + [0], Blank(n) + Scale(q[n], GENERATOR))
  }

  /** `r` is the remainder of `m`: they differ by a multiple of the generator, and `r` has
      degree below six. */
  ghost predicate Remainder(m: seq<nat>, r: seq<nat>) {
    exists q :: Divides(m, q, r)
  }

  ghost predicate Divides(m: seq<nat>, q: seq<nat>, r: seq<nat>) {
    |r| == 6 && |m| == |q| + 6 && Elements(q) && m == Sum(Product(q), Blank(|q|) + r)
  }

  predicate Elements(p: seq<nat>) {
    forall i :: 0 <= i < |p| ==> p[i] < 32
  }

  // ---- The register as six symbols ----

  function Sym(x: nat, j: nat): nat
    decreases j
  {
    if j == 0 then Mask(x, 5) else Sym(Shr(x, 5), j - 1)
  }

  function Symbols6(x: nat): (s: seq<nat>)
    ensures |s| == 6
  {
    [Sym(x, 5), Sym(x, 4), Sym(x, 3), Sym(x, 2), Sym(x, 1), Sym(x, 0)]
  }

  lemma {:induction false} SymXor(a: nat, b: nat, j: nat)
    ensures Sym(Xor(a, b), j) == Xor(Sym(a, j), Sym(b, j))
    decreases j
  {
    if j == 0 {
      OverMask(a, b, 5);
    } else {
      OverShr(a, b, 5);
      SymXor(Shr(a, 5), Shr(b, 5), j - 1);
    }
  }

  lemma {:induction false} ShrShl(x: nat, k: nat)
    ensures Shr(Shl(x, k), k) == x && Mask(Shl(x, k), k) == 0
  {
    if k != 0 { ShrShl(x, k - 1); }
  }

  lemma SymShl(x: nat, j: nat)
    ensures Sym(Shl(x, 5), 0) == 0 && Sym(Shl(x, 5), j + 1) == Sym(x, j)
  {
    ShrShl(x, 5);
  }

  lemma {:induction false} ShrMask(x: nat, k: nat, n: nat)
    ensures Shr(Mask(x, k + n), n) == Mask(Shr(x, n), k)
  {
    if n != 0 { ShrMask(x / 2, k, n - 1); }
  }

  lemma {:induction false} MaskMask(x: nat, k: nat, n: nat)
    requires k <= n
    ensures Mask(Mask(x, n), k) == Mask(x, k)
  {
    if k != 0 { MaskMask(x / 2, k - 1, n - 1); }
  }

  lemma {:induction false} SymMask(x: nat, m: nat, j: nat)
    requires j < m
    ensures Sym(Mask(x, 5 * m), j) == Sym(x, j)
    decreases j
  {
    if j == 0 {
      MaskMask(x, 5, 5 * m);
    } else {
      ShrMask(x, 5 * (m - 1), 5);
      SymMask(Shr(x, 5), m - 1, j - 1);
    }
  }

  lemma {:induction false} SymOfZero(j: nat)
    ensures Sym(0, j) == 0
  {
    ShiftsOfZero(5);
    if j != 0 { SymOfZero(j - 1); }
  }

  lemma SymOfSmall(v: nat, j: nat)
    requires v < Pow2(5)
    ensures Sym(v, 0) == v && Sym(v, j + 1) == 0
  {
    MaskOfSmall(v, 5);
    ShrBelow(v, 0, 5);
    SymOfZero(j);
  }

  lemma {:induction false} ShrShr(x: nat, a: nat, b: nat)
    ensures Shr(Shr(x, a), b) == Shr(x, a + b)
  {
    if a != 0 { ShrShr(x / 2, a - 1, b); }
  }

  lemma {:induction false} SymIsShift(x: nat, j: nat)
    ensures Sym(x, j) == Mask(Shr(x, 5 * j), 5)
    decreases j
  {
    if j != 0 {
      SymIsShift(Shr(x, 5), j - 1);
      ShrShr(x, 5, 5 * (j - 1));
    }
  }

  /** The five bits shifted out of the register are its leading symbol. */
  lemma TopSymbol(chk: nat, k: nat)
    requires k == 30 && chk < Pow2(k)
    ensures Sym(chk, 5) == Shr(chk, 25) && Shr(chk, 25) < Pow2(5)
  {
    ShrBelow(chk, 5, 25);
    SymIsShift(chk, 5);
    MaskOfSmall(Shr(chk, 25), 5);
  }

  // ---- What the generators of the source feed back ----

  /** The coefficient of the generator at x^j. */
  function Coefficient(j: nat): nat
    requires j < 6
  {
    GENERATOR[6 - j]
  }

  /** The symbols of the generator words, leading one first. */
  function Word(i: nat): (w: seq<nat>)
    requires i < 5
    ensures |w| == 6
  {
    match i
    case 0 => [29, 22, 20, 21, 29, 18]
    case 1 => [19, 5, 1, 3, 19, 13]
    case 2 => [15, 10, 2, 6, 15, 26]
    case 3 => [30, 20, 4, 12, 30, 29]
    case _ => [21, 1, 8, 24, 21, 19]
  }

  /** The number whose base-32 digits are these. */
  function Pack(w: seq<nat>): nat {
    if w == [] then 0 else 32 * Pack(w[..|w| - 1]) + w[|w| - 1]
  }

  lemma {:induction false} FillShifts(x: nat, v: nat, k: nat)
    requires v < Pow2(k)
    ensures Shr(Shl(x, k) + v, k) == x && Mask(Shl(x, k) + v, k) == v
  {
    if k != 0 {
      FillShifts(x, v / 2, k - 1);
      assert (Shl(x, k) + v) / 2 == Shl(x, k - 1) + v / 2;
    }
  }

  lemma {:induction false} ShlTimes(x: nat, k: nat)
    ensures Shl(x, k) == x * Pow2(k)
  {
    if k != 0 { ShlTimes(x, k - 1); }
  }

  lemma Shl32(x: nat, k: nat)
    requires k == 5
    ensures Shl(x, k) == 32 * x && Pow2(k) == 32
  {
    ShlTimes(x, k);
    assert Pow2(5) == 32;
  }

  lemma {:induction false} SymOfPack(w: seq<nat>, j: nat)
    requires j < |w| && forall i :: 0 <= i < |w| ==> w[i] < 32
    ensures Sym(Pack(w), j) == w[|w| - 1 - j]
    decreases j
  {
    var front, v := w[..|w| - 1], w[|w| - 1];
    Shl32(Pack(front), 5);
    FillShifts(Pack(front), v, 5);
    assert Pack(w) == Shl(Pack(front), 5) + v;
    if j != 0 {
      SymOfPack(front, j - 1);
      assert Sym(Pack(w), j) == Sym(Pack(front), j - 1);
    } else {
      assert Sym(Pack(w), 0) == Mask(Pack(w), 5);
    }
  }

  lemma PackSnoc(w: seq<nat>, v: nat)
    ensures Pack(w + [v]) == 32 * Pack(w) + v
  {
    assert (w + [v])[..|w|] == w;
  }

  lemma PackSix(a: nat, b: nat, c: nat, d: nat, e: nat, f: nat)
    ensures Pack([a, b, c, d, e, f]) == 32 * (32 * (32 * (32 * (32 * a + b) + c) + d) + e) + f
  {
    PackSnoc([], a);
    PackSnoc([a], b);
    PackSnoc([a, b], c);
    PackSnoc([a, b, c], d);
    PackSnoc([a, b, c, d], e);
    PackSnoc([a, b, c, d, e], f);
    assert [] + [a] == [a] && [a] + [b] == [a, b] && [a, b] + [c] == [a, b, c];
    assert [a, b, c] + [d] == [a, b, c, d] && [a, b, c, d] + [e] == [a, b, c, d, e];
    assert [a, b, c, d, e] + [f] == [a, b, c, d, e, f];
  }

  lemma PackWord(i: nat)
    requires i < 5
    ensures Pack(Word(i)) == GEN[i]
  {
    var w := Word(i);
    PackSix(w[0], w[1], w[2], w[3], w[4], w[5]);
    assert w == [w[0], w[1], w[2], w[3], w[4], w[5]];
  }

  /** Adding 9, that is a^3 + 1, flips bits 0 and 3. */
  lemma XorNine(h: nat, b3: nat, b2: nat, b1: nat, b0: nat)
    requires b3 < 2 && b2 < 2 && b1 < 2 && b0 < 2
    ensures Xor(16 * h + 8 * b3 + 4 * b2 + 2 * b1 + b0, 9) == 16 * h + 8 * (1 - b3) + 4 * b2 + 2 * b1 + (1 - b0)
  {
    hide Xor;
    XorZero(h);
    Doubled(h, b3, 0, 1);
    Doubled(2 * h + b3, b2, 1, 0);
    Doubled(4 * h + 2 * b3 + b2, b1, 2, 0);
    Doubled(8 * h + 4 * b3 + 2 * b2 + b1, b0, 4, 1);
  }

  lemma TwiceIs(h: nat, b3: nat, b2: nat, b1: nat, b0: nat)
    requires h < 2 && b3 < 2 && b2 < 2 && b1 < 2 && b0 < 2
    ensures Twice(16 * h + 8 * b3 + 4 * b2 + 2 * b1 + b0)
         == if h == 0 then 16 * b3 + 8 * b2 + 4 * b1 + 2 * b0
            else 16 * b3 + 8 * (1 - b2) + 4 * b1 + 2 * b0 + 1
  {
    hide Xor;
    if h == 1 { XorNine(b3, b2, b1, b0, 0); }
  }

  lemma TwiceTable(i: nat, j: nat)
    requires i < 4 && j < 6
    ensures Twice(Word(i)[j]) == Word(i + 1)[j]
  {
    hide Twice;
    var x := Word(i)[j];
    TwiceIs(x / 16, x / 8 % 2, x / 4 % 2, x / 2 % 2, x % 2);
  }

  /** Each generator word of the source is the previous one multiplied, symbol by symbol, by 2;
      the first is the generator polynomial without its leading term. */
  lemma {:induction false} GeneratorWords(i: nat, j: nat)
    requires i < 5 && j < 6
    ensures Sym(GEN[i], j) == TwicePower(Coefficient(j), i) && Word(i)[5 - j] == TwicePower(Coefficient(j), i)
    decreases i
  {
    hide Twice, Sym, Pack;
    PackWord(i);
    SymOfPack(Word(i), j);
    if i != 0 {
      GeneratorWords(i - 1, j);
      TwiceTable(i - 1, 5 - j);
    }
  }

  // ---- One round is one step of the division ----

  /** The multiple of `b` that the first `n` bits of `top` make. */
  function Part(top: nat, b: nat, n: nat): nat
    decreases n
  {
    if n == 0 then 0
    else if Bit(top, n - 1) then Xor(Part(top, b, n - 1), TwicePower(b, n - 1))
    else Part(top, b, n - 1)
  }

  lemma {:induction false} ShrHalf(x: nat, n: nat)
    ensures Shr(x, n) / 2 == Shr(x, n + 1)
  {
    if n != 0 { ShrHalf(x / 2, n - 1); }
  }

  lemma {:induction false} TimesSplits(a: nat, b: nat, n: nat)
    ensures Times(a, b) == Xor(Part(a, b, n), Times(Shr(a, n), TwicePower(b, n)))
    decreases n
  {
    if n != 0 {
      var m := n - 1;
      var rest, here := Shr(a, m), TwicePower(b, m);
      TimesSplits(a, b, m);
      ShrHalf(a, m);
      TimesUnfolds(rest, here);
      Associates(Part(a, b, m), if rest % 2 == 1 then here else 0, Times(rest / 2, Twice(here)));
      Commutes(Part(a, b, m), 0);
    }
  }

  lemma TimesUnfolds(a: nat, b: nat)
    ensures Times(a, b) == Xor(if a % 2 == 1 then b else 0, Times(a / 2, Twice(b)))
  {
    if a == 0 { Commutes(0, 0); }
  }

  lemma TimesIsPart(top: nat, b: nat)
    requires top < Pow2(5)
    ensures Times(top, b) == Part(top, b, 5)
  {
    hide Xor, Part, Twice, TwicePower;
    TimesSplits(top, b, 5);
    ShrBelow(top, 0, 5);
    assert Shr(top, 5) == 0 && Times(0, TwicePower(b, 5)) == 0;
    XorZero(Part(top, b, 5));
  }

  lemma {:induction false} TapsSymbol(c: nat, top: nat, n: nat, j: nat)
    requires n <= 5 && j < 6
    ensures Sym(Taps(c, top, n), j) == Xor(Sym(c, j), Part(top, Coefficient(j), n))
    decreases n
  {
    hide Sym, Bit, Xor, TwicePower;
    if n == 0 {
      XorZero(Sym(c, j));
    } else {
      TapsSymbol(c, top, n - 1, j);
      if Bit(top, n - 1) {
        SymXor(Taps(c, top, n - 1), GEN[n - 1], j);
        GeneratorWords(n - 1, j);
        Associates(Sym(c, j), Part(top, Coefficient(j), n - 1), TwicePower(Coefficient(j), n - 1));
      }
    }
  }

  lemma XorZero(a: nat)
    ensures Xor(a, 0) == a && Xor(0, a) == a
  {
    Commutes(a, 0);
  }

  /** The register moves up by one symbol, takes in the new one, and loses the multiple of the
      generator that its leading symbol calls for. */
  lemma StepSymbol(chk: nat, v: nat, j: nat, k: nat)
    requires k == 30 && chk < Pow2(k) && v < Pow2(5) && j < 6
    ensures Sym(Step(chk, v), j) ==
      Xor(if j == 0 then v else Sym(chk, j - 1), Times(Sym(chk, 5), Coefficient(j)))
  {
    hide Sym, Xor, Taps, Times, Part, Coefficient;
    TopSymbol(chk, k);
    var top, shifted := Shr(chk, 25), Shl(Mask(chk, 25), 5);
    TapsSymbol(Xor(shifted, v), top, 5, j);
    TimesIsPart(top, Coefficient(j));
    SymXor(shifted, v, j);
    ShiftedSymbol(chk, v, j);
  }

  lemma ShiftedSymbol(chk: nat, v: nat, j: nat)
    requires v < Pow2(5) && j < 6
    ensures Xor(Sym(Shl(Mask(chk, 25), 5), j), Sym(v, j)) == if j == 0 then v else Sym(chk, j - 1)
  {
    hide Sym, Xor;
    if j == 0 {
      SymShl(Mask(chk, 25), 0);
      SymOfSmall(v, 0);
      XorZero(v);
    } else {
      SymShl(Mask(chk, 25), j - 1);
      SymMask(chk, 5, j - 1);
      SymOfSmall(v, j - 1);
      XorZero(Sym(chk, j - 1));
    }
  }

  // ---- The whole message ----

  lemma ProductSnoc(q: seq<nat>, t: nat)
    ensures Product(q + [t]) == Sum(Product(q) + [0], Blank(|q|) + Scale(t, GENERATOR))
  {
    assert (q + [t])[..|q|] == q;
  }

  lemma TimesOne(t: nat, one: nat)
    requires t < 32 && one == 1
    ensures Times(t, one) == t
  {
    hide Times, Twice, Xor;
    assert Pow2(5) == 32;
    TimesIsPart(t, one);
    OnePowers(one);
    PartOfOne(t, one, 5);
    MaskOfSmall(t, 5);
  }

  lemma OnePowers(one: nat)
    requires one == 1
    ensures forall n :: 0 <= n < 5 ==> TwicePower(one, n) == Pow2(n)
  {
    assert Pow2(1) == 2 && Pow2(2) == 4 && Pow2(3) == 8 && Pow2(4) == 16;
    assert TwicePower(one, 1) == 2;
    assert TwicePower(one, 2) == 4;
    assert TwicePower(one, 3) == 8;
    assert TwicePower(one, 4) == 16;
  }

  lemma {:induction false} PartOfOne(t: nat, one: nat, n: nat)
    requires one == 1 && n <= 5
    ensures Part(t, one, n) == Mask(t, n)
    decreases n
  {
    hide Xor, TwicePower;
    if n != 0 {
      PartOfOne(t, one, n - 1);
      OnePowers(one);
      TopBit(t, n - 1);
    }
  }

  /** A word's low `n + 1` bits are its low `n` bits and bit `n`. */
  lemma {:induction false} TopBit(t: nat, n: nat)
    ensures Mask(t, n + 1) == if Bit(t, n) then Xor(Mask(t, n), Pow2(n)) else Mask(t, n)
  {
    hide Xor;
    if n == 0 {
      XorZero(1);
      assert Mask(t, 1) == t % 2;
    } else {
      TopBit(t / 2, n - 1);
      assert Bit(t, n) == Bit(t / 2, n - 1);
      Doubled(Mask(t / 2, n - 1), t % 2, Pow2(n - 1), 0);
    }
  }

  lemma Regroup(p: nat, s: nat, g: nat)
    ensures Xor(Xor(p, g), Xor(s, g)) == Xor(p, s)
  {
    Exchange(p, g, s, g);
    Cancels(g);
    XorZero(Xor(p, s));
  }

  /** The symbols of the register after one more symbol, leading one first. */
  lemma NextSymbols(chk: nat, v: nat, i: nat, k: nat)
    requires k == 30 && chk < Pow2(k) && v < Pow2(5) && i < 6
    ensures Symbols6(Step(chk, v))[i]
         == Xor((Symbols6(chk) + [v])[i + 1], Times(Symbols6(chk)[0], GENERATOR[i + 1]))
  {
    hide Sym, Xor, Times, Step;
    StepSymbol(chk, v, 5 - i, k);
  }

  /** One round extends the quotient by the leading symbol of the register. */
  lemma DivisionStep(m: seq<nat>, q: seq<nat>, chk: nat, v: nat, k: nat)
    requires k == 30 && chk < Pow2(k) && v < Pow2(5)
    requires Divides(m, q, Symbols6(chk))
    ensures Divides(m + [v], q + [Symbols6(chk)[0]], Symbols6(Step(chk, v)))
  {
    hide Sym, Xor, Times, Step, Product;
    var n, s, t := |q|, Symbols6(chk), Symbols6(chk)[0];
    var p, next := Product(q), Symbols6(Step(chk, v));
    ProductSnoc(q, t);
    TopSymbol(chk, k);
    assert Pow2(5) == 32;
    TimesOne(t, 1);
    XorZero(0);
    forall j | 0 <= j < n + 7
      ensures (m + [v])[j] == Xor(Product(q + [t])[j], (Blank(n + 1) + next)[j])
    {
      XorZero(if j < n + 6 then p[j] else v);
      if j < n {
      } else if j == n {
        XorZero(Xor(p[n], t));
      } else {
        NextSymbols(chk, v, j - n - 1, k);
        Regroup((p + [0])[j], (s + [v])[j - n], Times(t, GENERATOR[j - n]));
      }
    }
    assert m + [v] == Sum(Product(q + [t]), Blank(n + 1) + next);
  }

  /** The register after a message holds the remainder of the polynomial whose coefficients are
      those of the register before it, then the message. */
  lemma {:induction false} RunIsRemainder(chk: nat, values: seq<nat>, k: nat)
    requires k == 30 && chk < Pow2(k) && Elements(values)
    ensures Run(chk, values) < Pow2(k)
    ensures Remainder(Symbols6(chk) + values, Symbols6(Run(chk, values)))
  {
    hide Symbols6, Step, Product, Divides, Pow2;
    if values == [] {
      BlankProduct(chk);
      assert Symbols6(chk) + values == Symbols6(chk);
    } else {
      var n := |values| - 1;
      RunIsRemainder(chk, values[..n], k);
      var m, r := Symbols6(chk) + values[..n], Run(chk, values[..n]);
      var q :| Divides(m, q, Symbols6(r));
      var lead := Symbols6(r)[0];
      SymbolRange(values[n], 5);
      DivisionStep(m, q, r, values[n], k);
      assert m + [values[n]] == Symbols6(chk) + values;
      Pow2Monotone(5, k);
      StepBelow(r, values[n], k);
      assert Run(chk, values) == Step(r, values[n]);
      assert Divides(Symbols6(chk) + values, q + [lead], Symbols6(Run(chk, values)));
    }
  }

  lemma SymbolRange(v: nat, k: nat)
    requires k == 5
    ensures v < 32 <==> v < Pow2(k)
  {
    assert Pow2(5) == 32;
  }

  lemma BlankProduct(chk: nat)
    ensures Divides(Symbols6(chk), [], Symbols6(chk))
  {
    hide Sym;
    var s := Symbols6(chk);
    forall i | 0 <= i < 6 ensures Xor(Product([])[i], s[i]) == s[i] {
      XorZero(s[i]);
    }
    assert Blank(0) + s == s;
  }

  /** Division with remainder has one result, so the previous lemma says which one it is. */
  lemma RemainderUnique(m: seq<nat>, r: seq<nat>, s: seq<nat>)
    requires Remainder(m, r) && Remainder(m, s)
    ensures r == s
  {
    hide Xor, Times, Product;
    var p :| Divides(m, p, r);
    var q :| Divides(m, q, s);
    forall i | 0 <= i < |p| ensures Product(p)[i] == Product(q)[i] {
      XorZero(Product(p)[i]);
      XorZero(Product(q)[i]);
      assert m[i] == Xor(Product(p)[i], 0) && m[i] == Xor(Product(q)[i], 0);
    }
    QuotientUnique(p, q);
    forall i | 0 <= i < 6 ensures r[i] == s[i] {
      assert m[|p| + i] == Xor(Product(p)[|p| + i], r[i]);
      assert m[|p| + i] == Xor(Product(p)[|p| + i], s[i]);
      Commutes(Product(p)[|p| + i], r[i]);
      Commutes(Product(p)[|p| + i], s[i]);
      Injective(r[i], s[i], Product(p)[|p| + i]);
    }
  }

  lemma {:induction false} QuotientUnique(p: seq<nat>, q: seq<nat>)
    requires |p| == |q| && Elements(p) && Elements(q)
    requires forall i :: 0 <= i < |p| ==> Product(p)[i] == Product(q)[i]
    ensures p == q
  {
    hide Xor, Times, Product;
    if p != [] {
      var n := |p| - 1;
      assert p == p[..n] + [p[n]] && q == q[..n] + [q[n]];
      ProductSnoc(p[..n], p[n]);
      ProductSnoc(q[..n], q[n]);
      var a, b := Product(p[..n]), Product(q[..n]);
      forall i | 0 <= i < n ensures a[i] == b[i] {
        XorZero(a[i]);
        XorZero(b[i]);
        assert Product(p)[i] == Product(q)[i];
      }
      QuotientUnique(p[..n], q[..n]);
      TimesOne(p[n], 1);
      TimesOne(q[n], 1);
      assert Product(p)[n] == Xor(a[n], p[n]) && Product(q)[n] == Xor(a[n], q[n]);
      Commutes(a[n], p[n]);
      Commutes(a[n], q[n]);
      Injective(p[n], q[n], a[n]);
    }
  }

  lemma {:induction false} Rejoined(x: nat, y: nat, k: nat)
    requires Mask(x, k) == Mask(y, k) && Shr(x, k) == Shr(y, k)
    ensures x == y
  {
    if k != 0 { Rejoined(x / 2, y / 2, k - 1); }
  }

  lemma {:induction false} SymbolsDetermine(x: nat, y: nat, n: nat)
    requires x < Pow2(5 * n) && y < Pow2(5 * n)
    requires forall j: nat :: j < n ==> Sym(x, j) == Sym(y, j)
    ensures x == y
    decreases n
  {
    if n != 0 {
      var m := n - 1;
      ShrBelow(x, 5 * m, 5);
      ShrBelow(y, 5 * m, 5);
      forall j: nat | j < m ensures Sym(Shr(x, 5), j) == Sym(Shr(y, 5), j) {
        assert Sym(x, j + 1) == Sym(y, j + 1);
      }
      SymbolsDetermine(Shr(x, 5), Shr(y, 5), m);
      assert Sym(x, 0) == Sym(y, 0);
      Rejoined(x, y, 5);
    }
  }

  /** The check that the parser makes: the polynomial of the symbols, behind a 1, leaves the
      remainder 1. */
  lemma ValidIff(values: seq<nat>)
    requires Elements(values)
    ensures Run(1, values) == 1 <==> Remainder([0, 0, 0, 0, 0, 1] + values, [0, 0, 0, 0, 0, 1])
  {
    hide Run, Sym, Remainder;
    var r := Run(1, values);
    StateCount();
    OneSymbols(1);
    RunIsRemainder(1, values, 30);
    if Remainder([0, 0, 0, 0, 0, 1] + values, [0, 0, 0, 0, 0, 1]) {
      RemainderUnique(Symbols6(1) + values, Symbols6(r), Symbols6(1));
      RegisterDetermined(r, 1, 30);
    }
  }

  lemma OneSymbols(one: nat)
    requires one == 1
    ensures Symbols6(one) == [0, 0, 0, 0, 0, 1]
  {
    hide Sym;
    SymbolRange(one, 5);
    SymOfSmall(one, 0);
    SymOfSmall(one, 1);
    SymOfSmall(one, 2);
    SymOfSmall(one, 3);
    SymOfSmall(one, 4);
  }

  lemma RunOfNothing(chk: nat)
    ensures Run(chk, []) == chk
  {}

  lemma RegisterDetermined(x: nat, y: nat, k: nat)
    requires k == 30 && x < Pow2(k) && y < Pow2(k) && Symbols6(x) == Symbols6(y)
    ensures x == y
  {
    hide Sym, Pow2;
    forall j: nat | j < 6 ensures Sym(x, j) == Sym(y, j) {
      assert Symbols6(x)[5 - j] == Symbols6(y)[5 - j];
    }
    SymbolsDetermine(x, y, 6);
  }
}
