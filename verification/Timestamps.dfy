/** Timestamps as the store keeps and compares them: RFC 3339 text with the trailing
    zeros of the fraction trimmed, ordered byte by byte (sqlhelpers.go). */
module Timestamps {
  import opened Powers

  /** Seconds since the epoch and nanoseconds within the second. */
  datatype Time = Time(sec: int, nanos: nat) {
    predicate Valid() { nanos < 1_000_000_000 }

    predicate Before(u: Time) {
      sec < u.sec || (sec == u.sec && nanos < u.nanos)
    }
  }

  type Digits = s: seq<nat> | forall i :: 0 <= i < |s| ==> s[i] < 10

  /** The `k` decimal digits of `n`, most significant first. */
  function DigitsOf(n: nat, k: nat): (d: Digits)
    ensures |d| == k
  {
    if k == 0 then [] else DigitsOf(n / 10, k - 1) + [n % 10]
  }

  function TrimZeros(d: Digits): (t: Digits)
    ensures t <= d
    ensures t != [] ==> t[|t| - 1] != 0
    ensures forall i :: |t| <= i < |d| ==> d[i] == 0
  {
    if d != [] && d[|d| - 1] == 0 then TrimZeros(d[..|d| - 1]) else d
  }

  /** The digits written after the point: none for a whole second. */
  function Fraction(nanos: nat): Digits {
    TrimZeros(DigitsOf(nanos, 9))
  }

  function Text(d: Digits): (s: string)
    ensures |s| == |d|
  {
    seq(|d|, i requires 0 <= i < |d| => '0' + d[i] as char)
  }

  /** What follows the whole-second prefix. */
  function Written(d: Digits): string {
    if d == [] then "Z" else "." + Text(d) + "Z"
  }

  function Suffix(nanos: nat): string {
    Written(Fraction(nanos))
  }

  /** Byte order of texts. */
  predicate TextLess(a: string, b: string) {
    b != [] && (a == [] || a[0] < b[0] || (a[0] == b[0] && TextLess(a[1..], b[1..])))
  }

  /** `ts(a) < ts(b)` in the database.  The whole-second prefix is taken as fixed-width
      and order-preserving. */
  predicate StoredBefore(a: Time, b: Time) {
    a.sec < b.sec || (a.sec == b.sec && TextLess(Suffix(a.nanos), Suffix(b.nanos)))
  }

  // ---- Digits order numbers ----

  lemma {:induction false} DigitsDecide(m: nat, n: nat, k: nat, i: nat)
    requires i < k && DigitsOf(m, k)[..i] == DigitsOf(n, k)[..i] && DigitsOf(m, k)[i] < DigitsOf(n, k)[i]
    ensures m < n || m >= Power10(k) || n >= Power10(k)
  {
    var dm, dn := DigitsOf(m / 10, k - 1), DigitsOf(n / 10, k - 1);
    if i < k - 1 {
      assert DigitsOf(m, k)[..i] == dm[..i] && DigitsOf(n, k)[..i] == dn[..i];
      DigitsDecide(m / 10, n / 10, k - 1, i);
    } else {
      assert dm == DigitsOf(m, k)[..i] && dn == DigitsOf(n, k)[..i];
      if m < Power10(k) && n < Power10(k) { DigitsInjective(m / 10, n / 10, k - 1); }
    }
  }

  lemma {:induction false} DigitsInjective(m: nat, n: nat, k: nat)
    requires m < Power10(k) && n < Power10(k) && DigitsOf(m, k) == DigitsOf(n, k)
    ensures m == n
  {
    if k != 0 {
      var dm, dn := DigitsOf(m, k), DigitsOf(n, k);
      assert dm[..k - 1] == DigitsOf(m / 10, k - 1) && dn[..k - 1] == DigitsOf(n / 10, k - 1);
      assert dm[k - 1] == m % 10 && dn[k - 1] == n % 10;
      DigitsInjective(m / 10, n / 10, k - 1);
    }
  }

  lemma PrefixCons(a: seq<nat>, b: seq<nat>)
    requires a != [] && b != [] && a[0] == b[0]
    ensures a <= b <==> a[1..] <= b[1..]
  {
    assert a == [a[0]] + a[1..] && b == [b[0]] + b[1..];
  }

  /** Where two digit strings that are not prefixes of each other first differ. */
  lemma {:induction false} FirstDifference(a: seq<nat>, b: seq<nat>) returns (i: nat)
    requires !(a <= b) && !(b <= a)
    ensures i < |a| && i < |b| && a[..i] == b[..i] && a[i] != b[i]
  {
    if a[0] != b[0] {
      i := 0;
    } else {
      PrefixCons(a, b);
      PrefixCons(b, a);
      var j := FirstDifference(a[1..], b[1..]);
      i := j + 1;
      assert a[..i] == [a[0]] + a[1..][..j] && b[..i] == [b[0]] + b[1..][..j];
    }
  }

  /** The first difference decides the order of texts. */
  lemma {:induction false} TextDecide(a: string, b: string, i: nat)
    requires i < |a| && i < |b| && a[..i] == b[..i] && a[i] != b[i]
    ensures TextLess(a, b) <==> a[i] < b[i]
  {
    if i != 0 {
      assert a[0] == a[..i][0] && b[0] == b[..i][0];
      assert a[1..][..i - 1] == a[..i][1..] && b[1..][..i - 1] == b[..i][1..];
      TextDecide(a[1..], b[1..], i - 1);
    }
  }

  // ---- When text order is time order ----

  lemma NanosFit(n: nat)
    requires n < 1_000_000_000
    ensures n < Power10(9)
  {}

  /** Distinct fractions are written differently. */
  lemma FractionInjective(m: nat, n: nat)
    requires m < Power10(9) && n < Power10(9) && Fraction(m) == Fraction(n)
    ensures m == n
  {
    assert DigitsOf(m, 9) == DigitsOf(n, 9);
    DigitsInjective(m, n, 9);
  }

  lemma WrittenApart(a: Digits, b: Digits, i: nat)
    requires i < |a| && i < |b| && a[..i] == b[..i] && a[i] != b[i]
    ensures TextLess(Written(a), Written(b)) <==> a[i] < b[i]
  {
    var sa, sb := Written(a), Written(b);
    assert sa[..i + 1] == "." + Text(a[..i]);
    assert sb[..i + 1] == "." + Text(b[..i]);
    TextDecide(sa, sb, i + 1);
  }

  lemma WrittenExtends(a: Digits, b: Digits)
    requires a < b
    ensures TextLess(Written(b), Written(a)) && !TextLess(Written(a), Written(b))
  {
    var sa, sb, i := Written(a), Written(b), |a|;
    if i == 0 {
      TextDecide(sa, sb, 0);
      TextDecide(sb, sa, 0);
    } else {
      assert b[..i] == a;
      assert sb[..i + 1] == "." + Text(b[..i]);
      assert sa[..i + 1] == "." + Text(a);
      TextDecide(sa, sb, i + 1);
      TextDecide(sb, sa, i + 1);
    }
  }

  /** Neither fraction extends the other: the text order is the numeric order. */
  lemma ApartInOrder(m: nat, n: nat, k: nat)
    requires k == 9 && m < Power10(k) && n < Power10(k)
    requires !(Fraction(m) <= Fraction(n)) && !(Fraction(n) <= Fraction(m))
    ensures TextLess(Suffix(m), Suffix(n)) <==> m < n
  {
    hide TextLess, DigitsOf, TrimZeros, Written;
    var a, b := Fraction(m), Fraction(n);
    var i := FirstDifference(a, b);
    WrittenApart(a, b, i);
    assert DigitsOf(m, k)[..i] == a[..i];
    assert DigitsOf(n, k)[..i] == b[..i];
    if a[i] < b[i] { DigitsDecide(m, n, k, i); } else { DigitsDecide(n, m, k, i); }
  }

  /** One fraction extends the other: the longer, which is the later, is stored first. */
  lemma ExtensionReversed(m: nat, n: nat, k: nat)
    requires k == 9 && m < Power10(k) && n < Power10(k) && m != n && Fraction(m) <= Fraction(n)
    ensures m < n
    ensures TextLess(Suffix(n), Suffix(m)) && !TextLess(Suffix(m), Suffix(n))
  {
    var a, b := Fraction(m), Fraction(n);
    if a == b { FractionInjective(m, n); }
    WrittenExtends(a, b);
    var j := FirstPositive(b, |a|);
    ZerosFollow(DigitsOf(m, k), a, DigitsOf(n, k), b, j);
    DigitsDecide(m, n, k, j);
  }

  /** Padded with zeros, a digit string agrees with its extension up to a non-zero digit. */
  lemma ZerosFollow(da: seq<nat>, a: seq<nat>, db: seq<nat>, b: seq<nat>, j: nat)
    requires |da| == |db| && a <= da && b <= db && a < b && |a| <= j < |b|
    requires forall i :: |a| <= i < |da| ==> da[i] == 0
    requires forall i :: |a| <= i < j ==> b[i] == 0
    ensures da[..j] == db[..j] && da[j] == 0 && db[j] == b[j]
  {
    forall i | 0 <= i < j ensures da[i] == db[i] {
      assert db[i] == b[i];
      if i < |a| { assert da[i] == a[i]; }
    }
  }

  lemma {:induction false} FirstPositive(b: Digits, i: nat) returns (j: nat)
    requires i < |b| && b[|b| - 1] != 0
    ensures i <= j < |b| && b[j] > 0 && forall k :: i <= k < j ==> b[k] == 0
    decreases |b| - i
  {
    if b[i] > 0 { j := i; } else { j := FirstPositive(b, i + 1); }
  }

  /** The stored order of two distinct instants is their order in time, except within
      one second when the written fraction of the earlier begins that of the later. */
  lemma StoredOrder(a: Time, b: Time)
    requires a.Valid() && b.Valid() && a.Before(b)
    ensures StoredBefore(a, b) <==> !(a.sec == b.sec && Fraction(a.nanos) <= Fraction(b.nanos))
    ensures StoredBefore(b, a) <==> a.sec == b.sec && Fraction(a.nanos) <= Fraction(b.nanos)
  {
    if a.sec == b.sec {
      NanosFit(a.nanos);
      NanosFit(b.nanos);
      if Fraction(a.nanos) <= Fraction(b.nanos) {
        ExtensionReversed(a.nanos, b.nanos, 9);
      } else if Fraction(b.nanos) <= Fraction(a.nanos) {
        ExtensionReversed(b.nanos, a.nanos, 9);
      } else {
        ApartInOrder(a.nanos, b.nanos, 9);
        ApartInOrder(b.nanos, a.nanos, 9);
      }
    }
  }

  lemma {:induction false} WholeSecondHasNoFraction(k: nat)
    ensures TrimZeros(DigitsOf(0, k)) == []
  {
    if k != 0 {
      assert DigitsOf(0, k)[..k - 1] == DigitsOf(0, k - 1);
      WholeSecondHasNoFraction(k - 1);
    }
  }

  /** In the store a whole second comes after everything else within it. */
  lemma WholeSecondSortsLast(sec: int, nanos: nat)
    requires 0 < nanos < 1_000_000_000
    ensures Time(sec, 0).Before(Time(sec, nanos)) && StoredBefore(Time(sec, nanos), Time(sec, 0))
  {
    WholeSecondHasNoFraction(9);
    StoredOrder(Time(sec, 0), Time(sec, nanos));
  }

  // ---- Anchors ----

  /** The order of times is that of their nanoseconds since the epoch. */
  lemma BeforeIsOrder(t: Time, u: Time)
    requires t.Valid() && u.Valid()
    ensures t.Before(u) <==> 1_000_000_000 * t.sec + t.nanos < 1_000_000_000 * u.sec + u.nanos
  {}

  lemma TrailingZero(n: nat, k: nat)
    ensures TrimZeros(DigitsOf(10 * n, k + 1)) == TrimZeros(DigitsOf(n, k))
  {
    assert (10 * n) % 10 == 0 && (10 * n) / 10 == n;
    assert DigitsOf(10 * n, k + 1) == DigitsOf(n, k) + [0];
    assert DigitsOf(10 * n, k + 1)[..k] == DigitsOf(n, k);
  }

  /** `d` followed by `j` zeros. */
  function Round(d: nat, j: nat): nat {
    if j == 0 then d else 10 * Round(d, j - 1)
  }

  lemma {:induction false} RoundDigits(d: nat, j: nat)
    requires 0 < d < 10
    ensures TrimZeros(DigitsOf(Round(d, j), j + 1)) == [d]
  {
    hide TrimZeros;
    if j == 0 {
      OneDigit(d);
    } else {
      RoundDigits(d, j - 1);
      TrailingZero(Round(d, j - 1), j);
    }
  }

  lemma OneDigit(d: nat)
    requires 0 < d < 10
    ensures TrimZeros(DigitsOf(d, 1)) == [d]
  {
    assert DigitsOf(d, 1) == DigitsOf(d / 10, 0) + [d % 10] == [d];
  }

  /** A whole second is written without a fraction, `d` tenths of one as a point and `d`. */
  lemma KnownSuffixes(d: nat, nanos: nat)
    requires 0 < d < 10 && nanos == d * 100_000_000
    ensures Suffix(0) == "Z" && Suffix(nanos) == ['.', '0' + d as char, 'Z']
  {
    hide TrimZeros, DigitsOf, Round;
    WholeSecondHasNoFraction(9);
    RoundDigits(d, 8);
    EightZeros(d, 8);
    assert "." + Text([d]) + "Z" == ['.', '0' + d as char, 'Z'];
  }

  lemma EightZeros(d: nat, j: nat)
    requires j == 8
    ensures Round(d, j) == d * 100_000_000
  {
    assert Round(d, j - 8) == d;
    assert Round(d, j - 6) == 100 * d;
    assert Round(d, j - 4) == 10_000 * d;
    assert Round(d, j - 2) == 1_000_000 * d;
  }
}
