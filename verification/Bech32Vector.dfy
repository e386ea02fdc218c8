/** BIP-173's shortest test string, A12UEL5L, computed symbol by symbol. */
module Bech32Vector {
  import opened Wrappers
  import opened Bits
  import opened Gf2
  import opened ConvertBits
  import opened Ascii
  import opened Polymod
  import opened Bch
  import Bech32

  /** Exclusive or of five bits, added up. */
  function FiveBits(x: nat, y: nat): nat {
    (if (x / 16) % 2 == (y / 16) % 2 then 0 else 16) + (if (x / 8) % 2 == (y / 8) % 2 then 0 else 8)
    + (if (x / 4) % 2 == (y / 4) % 2 then 0 else 4) + (if (x / 2) % 2 == (y / 2) % 2 then 0 else 2)
    + if x % 2 == y % 2 then 0 else 1
  }

  lemma XorNext(x: nat, y: nat, x': nat, y': nat)
    requires x' == x / 2 && y' == y / 2
    ensures Xor(x, y) == 2 * Xor(x', y') + if x % 2 == y % 2 then 0 else 1
  {
    Halves(x, y);
  }

  lemma Quarters(x: nat)
    ensures x / 2 / 2 == x / 4 && x / 4 / 2 == x / 8 && x / 8 / 2 == x / 16
    ensures x < 32 ==> x / 16 / 2 == 0
  {}

  lemma XorFive(x: nat, y: nat)
    requires x < 32 && y < 32
    ensures Xor(x, y) == FiveBits(x, y)
  {
    hide Xor;
    Quarters(x);
    Quarters(y);
    XorZero(0);
    XorNext(x, y, x / 2, y / 2);
    XorNext(x / 2, y / 2, x / 4, y / 4);
    XorNext(x / 4, y / 4, x / 8, y / 8);
    XorNext(x / 8, y / 8, x / 16, y / 16);
    XorNext(x / 16, y / 16, 0, 0);
  }

  predicate Sums(a: seq<nat>, b: seq<nat>, c: seq<nat>) {
    && |a| == 6 && |b| == 6 && |c| == 6
    && FiveBits(a[0], b[0]) == c[0] && FiveBits(a[1], b[1]) == c[1] && FiveBits(a[2], b[2]) == c[2]
    && FiveBits(a[3], b[3]) == c[3] && FiveBits(a[4], b[4]) == c[4] && FiveBits(a[5], b[5]) == c[5]
  }

  lemma AddSix(a: seq<nat>, b: seq<nat>, c: seq<nat>)
    requires Elements(a) && Elements(b) && Sums(a, b, c)
    ensures Sum(a, b) == c
  {
    hide Xor, FiveBits;
    forall i | 0 <= i < 6 ensures Xor(a[i], b[i]) == c[i] { XorFive(a[i], b[i]); }
  }

  lemma TimesBit(n: nat, x: nat)
    requires n <= 1
    ensures Times(n, x) == if n == 0 then 0 else x
  {
    TimesUnfolds(n, x);
    if n == 1 { XorZero(x); }
  }

  /** The multiples of the generator that the division below subtracts. */
  lemma Multiples(t: nat)
    requires t in {0, 1, 18, 30}
    ensures Scale(t, Word(0)) ==
      if t == 0 then Blank(6) else if t == 1 then Word(0)
      else if t == 18 then Sum(Word(1), Word(4))
      else Sum(Word(1), Sum(Word(2), Sum(Word(3), Word(4))))
  {
    hide Times, Twice, Xor;
    forall j | 0 <= j < 6 ensures Scale(t, Word(0))[j] == Multiple(t, j) {
      MultipleAt(t, j);
    }
  }

  function Multiple(t: nat, j: nat): nat
    requires j < 6
  {
    if t == 0 then 0 else if t == 1 then Word(0)[j]
    else if t == 18 then Xor(Word(1)[j], Word(4)[j])
    else Xor(Word(1)[j], Xor(Word(2)[j], Xor(Word(3)[j], Word(4)[j])))
  }

  lemma MultipleAt(t: nat, j: nat)
    requires t in {0, 1, 18, 30} && j < 6
    ensures Times(t, Word(0)[j]) == Multiple(t, j)
  {
    hide Times, Twice, Xor;
    var a, b, c, d, e := Word(0)[j], Word(1)[j], Word(2)[j], Word(3)[j], Word(4)[j];
    TwiceTable(0, j);
    TwiceTable(1, j);
    TwiceTable(2, j);
    TwiceTable(3, j);
    TimesBit(1, e);
    if t <= 1 {
      TimesBit(t, a);
    } else if t == 18 {
      TimesUnfolds(18, a);
      XorZero(Times(9, b));
      TimesUnfolds(9, b);
      TimesUnfolds(4, c);
      XorZero(Times(2, d));
      TimesUnfolds(2, d);
      XorZero(e);
    } else {
      TimesUnfolds(30, a);
      XorZero(Times(15, b));
      TimesUnfolds(15, b);
      TimesUnfolds(7, c);
      TimesUnfolds(3, d);
    }
  }

  /** One more symbol, on given contents of the register. */
  lemma KnownStep(values: seq<nat>, s: seq<nat>, v: nat, want: seq<nat>, k: nat)
    requires k == 30 && Run(1, values) < Pow2(k) && Symbols6(Run(1, values)) == s && v < 32
    requires want == Sum((s + [v])[1..], Scale(s[0], Word(0)))
    ensures Run(1, values + [v]) < Pow2(k) && Symbols6(Run(1, values + [v])) == want
  {
    hide Run, Symbols6, Times, Step, Pow2, Xor;
    var chk := Run(1, values);
    RunSnoc(1, values, v);
    SymbolRange(v, 5);
    Pow2Monotone(5, k);
    StepBelow(chk, v, k);
    forall i | 0 <= i < 6 ensures Symbols6(Step(chk, v))[i] == want[i] {
      NextSymbols(chk, v, i, k);
      assert Word(0)[i] == GENERATOR[i + 1];
    }
  }

  lemma KnownShift(values: seq<nat>, s: seq<nat>, v: nat, k: nat)
    requires k == 30 && Run(1, values) < Pow2(k) && Symbols6(Run(1, values)) == s && v < 32 && s[0] == 0
    ensures Run(1, values + [v]) < Pow2(k) && Symbols6(Run(1, values + [v])) == s[1..] + [v]
  {
    hide Run, Symbols6, Pow2, Xor, Scale;
    Multiples(0);
    forall i | 0 <= i < 6 ensures Xor((s[1..] + [v])[i], 0) == (s[1..] + [v])[i] { XorZero((s[1..] + [v])[i]); }
    assert (s + [v])[1..] == s[1..] + [v];
    assert Sum(s[1..] + [v], Blank(6)) == s[1..] + [v];
    KnownStep(values, s, v, s[1..] + [v], k);
  }

  lemma KnownStart(k: nat)
    requires k == 30
    ensures Run(1, [3, 0, 1, 10, 28]) < Pow2(k) && Symbols6(Run(1, [3, 0, 1, 10, 28])) == [1, 3, 0, 1, 10, 28]
  {
    hide Run, Symbols6, Pow2;
    RunOfNothing(1);
    StateCount();
    OneSymbols(1);
    KnownShift([], [0, 0, 0, 0, 0, 1], 3, k);
    assert [] + [3] == [3];
    KnownShift([3], [0, 0, 0, 0, 1, 3], 0, k);
    assert [3] + [0] == [3, 0];
    KnownShift([3, 0], [0, 0, 0, 1, 3, 0], 1, k);
    assert [3, 0] + [1] == [3, 0, 1];
    KnownShift([3, 0, 1], [0, 0, 1, 3, 0, 1], 10, k);
    assert [3, 0, 1] + [10] == [3, 0, 1, 10];
    KnownShift([3, 0, 1, 10], [0, 1, 3, 0, 1, 10], 28, k);
    assert [3, 0, 1, 10] + [28] == [3, 0, 1, 10, 28];
  }

  lemma MultipleTables()
    ensures Scale(18, Word(0)) == [6, 4, 9, 27, 6, 30]
    ensures Scale(30, Word(0)) == [23, 26, 15, 17, 23, 25]
  {
    hide Scale, Sum, FiveBits, Sums;
    Multiples(18);
    Multiples(30);
    WordSums();
  }

  lemma WordBits1()
    ensures FiveBits(19, 21) == 6 && FiveBits(5, 1) == 4 && FiveBits(1, 8) == 9
    ensures FiveBits(3, 24) == 27 && FiveBits(13, 19) == 30
  {}

  lemma WordBits2()
    ensures FiveBits(30, 21) == 11 && FiveBits(20, 1) == 21 && FiveBits(4, 8) == 12
    ensures FiveBits(12, 24) == 20 && FiveBits(29, 19) == 14
  {}

  lemma WordBits3()
    ensures FiveBits(15, 11) == 4 && FiveBits(10, 21) == 31 && FiveBits(2, 12) == 14
    ensures FiveBits(6, 20) == 18 && FiveBits(26, 14) == 20
  {}

  lemma WordBits4()
    ensures FiveBits(19, 4) == 23 && FiveBits(5, 31) == 26 && FiveBits(1, 14) == 15
    ensures FiveBits(3, 18) == 17 && FiveBits(13, 20) == 25
  {}

  lemma WordSums()
    ensures Sum(Word(1), Word(4)) == [6, 4, 9, 27, 6, 30]
    ensures Sum(Word(1), Sum(Word(2), Sum(Word(3), Word(4)))) == [23, 26, 15, 17, 23, 25]
  {
    hide Sum, FiveBits;
    WordBits1();
    WordBits2();
    WordBits3();
    WordBits4();
    AddSix([19, 5, 1, 3, 19, 13], [21, 1, 8, 24, 21, 19], [6, 4, 9, 27, 6, 30]);
    AddSix([30, 20, 4, 12, 30, 29], [21, 1, 8, 24, 21, 19], [11, 21, 12, 20, 11, 14]);
    AddSix([15, 10, 2, 6, 15, 26], [11, 21, 12, 20, 11, 14], [4, 31, 14, 18, 4, 20]);
    AddSix([19, 5, 1, 3, 19, 13], [4, 31, 14, 18, 4, 20], [23, 26, 15, 17, 23, 25]);
  }

  lemma KnownBits1()
    ensures FiveBits(3, 29) == 30 && FiveBits(0, 22) == 22 && FiveBits(1, 20) == 21
    ensures FiveBits(10, 21) == 31 && FiveBits(28, 29) == 1 && FiveBits(25, 18) == 11
  {}

  lemma KnownBits2()
    ensures FiveBits(22, 23) == 1 && FiveBits(21, 26) == 15 && FiveBits(31, 15) == 16
    ensures FiveBits(1, 17) == 16 && FiveBits(11, 23) == 28 && FiveBits(31, 25) == 6
  {}

  lemma KnownBits3()
    ensures FiveBits(15, 29) == 18 && FiveBits(16, 22) == 6 && FiveBits(16, 20) == 4
    ensures FiveBits(28, 21) == 9 && FiveBits(6, 29) == 27 && FiveBits(20, 18) == 6
  {}

  lemma KnownBits4()
    ensures FiveBits(6, 6) == 0 && FiveBits(4, 4) == 0 && FiveBits(9, 9) == 0
    ensures FiveBits(27, 27) == 0 && FiveBits(31, 30) == 1
  {}

  lemma KnownSums()
    ensures Sum([3, 0, 1, 10, 28, 25], [29, 22, 20, 21, 29, 18]) == [30, 22, 21, 31, 1, 11]
    ensures Sum([22, 21, 31, 1, 11, 31], [23, 26, 15, 17, 23, 25]) == [1, 15, 16, 16, 28, 6]
    ensures Sum([15, 16, 16, 28, 6, 20], [29, 22, 20, 21, 29, 18]) == [18, 6, 4, 9, 27, 6]
    ensures Sum([6, 4, 9, 27, 6, 31], [6, 4, 9, 27, 6, 30]) == [0, 0, 0, 0, 0, 1]
  {
    hide Sum, FiveBits;
    KnownBits1();
    KnownBits2();
    KnownBits3();
    KnownBits4();
    AddSix([3, 0, 1, 10, 28, 25], [29, 22, 20, 21, 29, 18], [30, 22, 21, 31, 1, 11]);
    AddSix([22, 21, 31, 1, 11, 31], [23, 26, 15, 17, 23, 25], [1, 15, 16, 16, 28, 6]);
    AddSix([15, 16, 16, 28, 6, 20], [29, 22, 20, 21, 29, 18], [18, 6, 4, 9, 27, 6]);
    AddSix([6, 4, 9, 27, 6, 31], [6, 4, 9, 27, 6, 30], [0, 0, 0, 0, 0, 1]);
  }

  /** BIP-173's test string A12UEL5L: the prefix a, no data, the checksum 2uel5l. */
  lemma KnownRegister(k: nat)
    requires k == 30
    ensures Run(1, [3, 0, 1, 10, 28, 25, 31, 20, 31]) == 1
  {
    hide Run, Symbols6, Pow2, Scale, Sum;
    KnownStart(k);
    Multiples(1);
    MultipleTables();
    KnownSums();
    assert ([1, 3, 0, 1, 10, 28] + [25])[1..] == [3, 0, 1, 10, 28, 25];
    KnownStep([3, 0, 1, 10, 28], [1, 3, 0, 1, 10, 28], 25, [30, 22, 21, 31, 1, 11], k);
    assert [3, 0, 1, 10, 28] + [25] == [3, 0, 1, 10, 28, 25];
    assert ([30, 22, 21, 31, 1, 11] + [31])[1..] == [22, 21, 31, 1, 11, 31];
    KnownStep([3, 0, 1, 10, 28, 25], [30, 22, 21, 31, 1, 11], 31, [1, 15, 16, 16, 28, 6], k);
    assert [3, 0, 1, 10, 28, 25] + [31] == [3, 0, 1, 10, 28, 25, 31];
    assert ([1, 15, 16, 16, 28, 6] + [20])[1..] == [15, 16, 16, 28, 6, 20];
    KnownStep([3, 0, 1, 10, 28, 25, 31], [1, 15, 16, 16, 28, 6], 20, [18, 6, 4, 9, 27, 6], k);
    assert [3, 0, 1, 10, 28, 25, 31] + [20] == [3, 0, 1, 10, 28, 25, 31, 20];
    assert ([18, 6, 4, 9, 27, 6] + [31])[1..] == [6, 4, 9, 27, 6, 31];
    KnownStep([3, 0, 1, 10, 28, 25, 31, 20], [18, 6, 4, 9, 27, 6], 31, [0, 0, 0, 0, 0, 1], k);
    assert [3, 0, 1, 10, 28, 25, 31, 20] + [31] == [3, 0, 1, 10, 28, 25, 31, 20, 31];
    OneSymbols(1);
    StateCount();
    RegisterDetermined(Run(1, [3, 0, 1, 10, 28, 25, 31, 20, 31]), 1, k);
  }

  const TEXT: string := "A12UEL5L"
  const SMALL: string := "a12uel5l"
  const BODY: string := "2uel5l"
  const PREFIX: string := "a"

  lemma Cases()
    ensures IsAscii(TEXT) && Upper(TEXT) == TEXT && Lower(TEXT) == SMALL
    ensures IsAscii(SMALL) && SMALL == PREFIX + "1" + BODY && IsBytes(PREFIX)
  {}

  lemma BodySymbols(v: seq<Byte>)
    requires v == [10, 28, 25, 31, 20, 31]
    ensures Bech32.Symbols(BODY) == Some(v) && Bech32.IsSymbolText(BODY)
  {
    hide Bech32.Symbols;
    assert Pow2(5) == 32;
    assert Bech32.Spell(v) == BODY;
    Bech32.SymbolsOfSpell(v);
    Bech32.SpellOfSymbols(BODY);
  }

  lemma PrefixSymbols()
    requires IsBytes(PREFIX)
    ensures Bech32.HrpExpand(PREFIX) == [3, 0, 1]
  {}

  lemma KnownBody(v: seq<Byte>)
    requires v == [10, 28, 25, 31, 20, 31]
    ensures IsBytes(PREFIX) && |BODY| == 6 && Bech32.DecodeBody(PREFIX, BODY) == Ok((PREFIX, []))
  {
    hide Bech32.Symbols, Run, Bech32.HrpExpand, Bech32.IsSymbolText;
    Cases();
    BodySymbols(v);
    PrefixSymbols();
    KnownRegister(30);
    assert Bech32.HrpExpand(PREFIX) + v == [3, 0, 1, 10, 28, 25, 31, 20, 31];
  }

  /** The parser accepts the test string of the standard. */
  lemma KnownAnswer(lib: Library)
    requires Sane(lib)
    ensures IsBytes(lib.lower(TEXT)) && Bech32.Decode(lib, TEXT) == Ok((PREFIX, []))
  {
    hide Bech32.DecodeBody, Lower, Upper, LastIndex, Bech32.IsSymbolText;
    Cases();
    BodySymbols([10, 28, 25, 31, 20, 31]);
    KnownBody([10, 28, 25, 31, 20, 31]);
    Bech32.Resplit(SMALL, PREFIX, BODY);
  }

  const ALPHABET: string := "qpzry9x8gf2tvdw0s3jn54khce6mua7l"

  /** The symbol values 0 to 31, in order, are spelled by the alphabet of BIP-173. */
  lemma KnownSpelling(v: seq<Byte>)
    requires |v| == 32 && forall i :: 0 <= i < 32 ==> v[i] == i
    ensures Fits(v, 5) && Bech32.Spell(v) == ALPHABET && Bech32.Symbols(ALPHABET) == Some(v)
  {
    hide Bech32.Symbols;
    assert Pow2(5) == 32;
    forall i | 0 <= i < 32 ensures Bech32.Spell(v)[i] == ALPHABET[i] { LetterAt(i); }
    Bech32.SymbolsOfSpell(v);
  }

  lemma LetterAt(v: Byte)
    requires v < 32
    ensures Bech32.CharOf(v) == ALPHABET[v]
  {}
}
