/** Decimal numerals: Go's big.Int parsing, JavaScript's BigInt printing, and the
    conversion between ADA and lovelace in the rule editor (TierRulesSection.tsx). */
module Decimal {
  import opened Powers
  import opened Wrappers

  predicate IsDigit(c: char) {
    '0' <= c <= '9'
  }

  predicate Digits(s: string) {
    forall i :: 0 <= i < |s| ==> IsDigit(s[i])
  }

  /** `/^\d+$/` */
  predicate IsNatural(s: string) {
    s != "" && Digits(s)
  }

  function Value(s: string): nat
    requires Digits(s)
  {
    if s == "" then 0 else 10 * Value(s[..|s| - 1]) + (s[|s| - 1] - '0') as nat
  }

  function Print(n: nat): (s: string)
    ensures IsNatural(s) && (s[0] == '0' ==> s == "0")
  {
    if n < 10 then ['0' + n as char] else Print(n / 10) + ['0' + (n % 10) as char]
  }

  /** No leading zero. */
  predicate Canonical(s: string) {
    IsNatural(s) && (s[0] == '0' ==> s == "0")
  }

  lemma {:induction false} ValueOfPrint(n: nat)
    ensures Value(Print(n)) == n
  {
    if n >= 10 {
      ValueOfPrint(n / 10);
      assert Print(n)[..|Print(n)| - 1] == Print(n / 10);
    }
  }

  lemma PrintNext(x: nat, c: char)
    requires x > 0 && IsDigit(c)
    ensures Print(10 * x + (c - '0') as nat) == Print(x) + [c]
  {
    var d := (c - '0') as nat;
    assert (10 * x + d) / 10 == x && (10 * x + d) % 10 == d;
  }

  lemma {:induction false} PrintOfValue(s: string)
    requires Canonical(s)
    ensures Print(Value(s)) == s
  {
    var n := |s| - 1;
    if n > 0 {
      var front := s[..n];
      assert front[0] == s[0];
      PrintOfValue(front);
      PositiveValue(front);
      PrintNext(Value(front), s[n]);
      assert s == front + [s[n]];
    }
  }

  lemma {:induction false} PositiveValue(s: string)
    requires IsNatural(s) && s[0] != '0'
    ensures Value(s) > 0
  {
    if |s| > 1 {
      assert s[..|s| - 1][0] == s[0];
      PositiveValue(s[..|s| - 1]);
    }
  }

  /** `new(big.Int).SetString(s, 10)`: an optional sign and at least one digit. */
  function ParseInt(s: string): Option<int> {
    if IsNatural(s) then Some(Value(s))
    else if s != "" && (s[0] == '+' || s[0] == '-') && IsNatural(s[1..]) then
      Some(if s[0] == '-' then -(Value(s[1..]) as int) else Value(s[1..]))
    else None
  }

  function PrintInt(x: int): string {
    if x < 0 then "-" + Print(-x) else Print(x)
  }

  lemma ParseOfPrint(x: int)
    ensures PrintInt(x) != "" && ParseInt(PrintInt(x)) == Some(x)
  {
    if x < 0 {
      ValueOfPrint(-x);
      assert PrintInt(x)[1..] == Print(-x);
      assert !IsDigit(PrintInt(x)[0]);
    } else {
      ValueOfPrint(x);
    }
  }

  // ---- Padding and stripping ----

  function Zeros(n: nat): string {
    seq(n, _ => '0')
  }

  lemma {:induction false} ValueOfPadded(n: nat, s: string)
    requires Digits(s)
    ensures Digits(Zeros(n) + s) && Value(Zeros(n) + s) == Value(s)
  {
    if s == "" {
      assert Zeros(n) + s == Zeros(n);
      ValueOfZeros(n);
    } else {
      assert (Zeros(n) + s)[..n + |s| - 1] == Zeros(n) + s[..|s| - 1];
      ValueOfPadded(n, s[..|s| - 1]);
    }
  }

  lemma {:induction false} ValueOfZeros(n: nat)
    ensures Value(Zeros(n)) == 0
  {
    if n != 0 {
      assert Zeros(n)[..n - 1] == Zeros(n - 1);
      ValueOfZeros(n - 1);
    }
  }

  /** `s.padStart(n, "0")` */
  function PadStart(s: string, n: nat): string {
    if |s| >= n then s else Zeros(n - |s|) + s
  }

  /** `s.replace(/0+$/, "")` */
  function StripZeros(s: string): (t: string)
    ensures |t| <= |s| && s == t + Zeros(|s| - |t|)
  {
    if s != "" && s[|s| - 1] == '0' then
      var t := StripZeros(s[..|s| - 1]);
      assert s == t + Zeros(|s| - |t|);
      t
    else s
  }

  lemma {:induction false} PrintLength(x: nat, n: nat)
    requires n >= 1 && x < Power10(n)
    ensures |Print(x)| <= n
  {
    if x >= 10 { PrintLength(x / 10, n - 1); }
  }

  // ---- White space as String.prototype.trim sees it ----

  predicate IsBlank(c: char) {
    '\t' <= c <= '\r' || c == ' ' || c == '\U{00A0}' || c == '\U{1680}' || '\U{2000}' <= c <= '\U{200A}'
    || c == '\U{2028}' || c == '\U{2029}' || c == '\U{202F}' || c == '\U{205F}' || c == '\U{3000}' || c == '\U{FEFF}'
  }

  function TrimStart(s: string): string {
    if s != "" && IsBlank(s[0]) then TrimStart(s[1..]) else s
  }

  function TrimEnd(s: string): (t: string)
    ensures |t| <= |s| && t == s[..|t|]
    ensures t == "" || !IsBlank(t[|t| - 1])
    ensures |t| < |s| ==> IsBlank(s[|s| - 1])
  {
    if s != "" && IsBlank(s[|s| - 1]) then TrimEnd(s[..|s| - 1]) else s
  }

  function Trim(s: string): string {
    TrimEnd(TrimStart(s))
  }

  lemma {:induction false} TrimStartSplits(s: string) returns (pre: string)
    ensures s == pre + TrimStart(s)
    ensures pre != "" ==> IsBlank(s[0])
    ensures TrimStart(s) == "" || !IsBlank(TrimStart(s)[0])
  {
    if s != "" && IsBlank(s[0]) {
      var p := TrimStartSplits(s[1..]);
      pre := [s[0]] + p;
    } else {
      pre := "";
    }
  }

  /** A text that trimming changes begins or ends with a blank. */
  lemma TrimmedIff(s: string)
    ensures Trim(s) == s <==> s == "" || (!IsBlank(s[0]) && !IsBlank(s[|s| - 1]))
  {
    var pre := TrimStartSplits(s);
    if Trim(s) == s { assert |TrimStart(s)| == |s|; }
  }

  lemma TrimTwice(s: string)
    ensures Trim(Trim(s)) == Trim(s)
  {
    var pre := TrimStartSplits(s);
    TrimmedIff(Trim(s));
  }

  lemma DigitNotBlank(c: char)
    requires IsDigit(c) || c == '+' || c == '-' || c == '.'
    ensures !IsBlank(c)
  {}

  // ---- ADA and lovelace ----

  const LOVELACE: nat := 1_000_000

  function DotAt(s: string): (d: nat)
    ensures d <= |s| && (d < |s| ==> s[d] == '.') && forall i :: 0 <= i < d ==> s[i] != '.'
  {
    if s == "" || s[0] == '.' then 0 else 1 + DotAt(s[1..])
  }

  /** `/^\d+(\.\d{1,6})?$/` */
  predicate IsAda(s: string) {
    var d := DotAt(s);
    IsNatural(s[..d]) && (d == |s| || (2 <= |s| - d <= 7 && Digits(s[d + 1..])))
  }

  function AdaToLovelace(ada: string): string {
    var s := Trim(ada);
    if s == "" then ""
    else if !IsAda(s) then s
    else
      var d := DotAt(s);
      Print(Value(s[..d]) * LOVELACE + Value(FirstSix(if d == |s| then "" else s[d + 1..])))
  }

  /** `(frac + "000000").slice(0, 6)` */
  function FirstSix(frac: string): (t: string)
    requires Digits(frac)
    ensures Digits(t)
  {
    (frac + Zeros(6))[..6]
  }

  function LovelaceToAda(lov: string): string {
    var s := Trim(lov);
    if !IsNatural(s) then s
    else
      var v := Value(s);
      var frac := StripZeros(PadStart(Print(v % LOVELACE), 6));
      if frac != "" then Print(v / LOVELACE) + "." + frac else Print(v / LOVELACE)
  }

  lemma PadIsSix(r: nat, n: nat)
    requires n == 6 && r < Power10(n)
    ensures var p := PadStart(Print(r), n); |p| == n && Digits(p) && Value(p) == r
  {
    PrintLength(r, n);
    ValueOfPrint(r);
    if |Print(r)| < n { ValueOfPadded(n - |Print(r)|, Print(r)); }
  }

  function AdaText(whole: string, frac: string): string {
    whole + if frac != "" then "." + frac else ""
  }

  lemma AdaTextShape(whole: string, frac: string)
    requires IsNatural(whole) && |frac| <= 6 && Digits(frac)
    ensures var s := AdaText(whole, frac);
      && s != "" && DotAt(s) == |whole| && s[..|whole|] == whole
      && (frac == "" ==> |s| == |whole|) && (frac != "" ==> |s| > |whole| && s[|whole| + 1..] == frac)
      && Trim(s) == s && IsAda(s)
  {
    var s := AdaText(whole, frac);
    DotFound(whole, if frac != "" then "." + frac else "");
    assert s[0] == whole[0] && s[|s| - 1] == if frac != "" then frac[|frac| - 1] else whole[|whole| - 1];
    DigitNotBlank(s[0]);
    DigitNotBlank(s[|s| - 1]);
    TrimmedIff(s);
  }

  lemma AdaOfParts(whole: string, frac: string)
    requires IsNatural(whole) && |frac| <= 6 && Digits(frac)
    ensures AdaToLovelace(AdaText(whole, frac)) == Print(Value(whole) * LOVELACE + Value(FirstSix(frac)))
  {
    hide Trim, DotAt, Value, Print, Zeros, FirstSix;
    AdaTextShape(whole, frac);
  }

  lemma {:induction false} DotFound(whole: string, rest: string)
    requires Digits(whole) && (rest == "" || rest[0] == '.')
    ensures DotAt(whole + rest) == |whole|
  {
    if whole != "" {
      assert (whole + rest)[1..] == whole[1..] + rest;
      DotFound(whole[1..], rest);
    } else {
      assert whole + rest == rest;
    }
  }

  /** At every magnitude, a whole number of lovelace survives the trip through ADA,
      written canonically. */
  lemma LovelaceSurvives(lov: string)
    requires IsNatural(Trim(lov))
    ensures AdaToLovelace(LovelaceToAda(lov)) == Print(Value(Trim(lov)))
  {
    var v := Value(Trim(lov));
    var q, r := v / LOVELACE, v % LOVELACE;
    Parts(v);
    PadIsSix(r, 6);
    PartsSurvive(q, r, PadStart(Print(r), 6));
    AdaIsParts(lov);
  }

  lemma AdaIsParts(lov: string)
    requires IsNatural(Trim(lov))
    ensures var v := Value(Trim(lov));
      LovelaceToAda(lov) == AdaText(Print(v / LOVELACE), StripZeros(PadStart(Print(v % LOVELACE), 6)))
  {
    hide Print, Value, Trim, StripZeros, PadStart;
    var whole := Print(Value(Trim(lov)) / LOVELACE);
    assert whole + "" == whole;
  }

  lemma Parts(v: nat)
    ensures v % LOVELACE < Power10(6) && (v / LOVELACE) * LOVELACE + v % LOVELACE == v
  {
    assert Power10(6) == LOVELACE;
  }

  lemma PartsSurvive(q: nat, r: nat, pad: string)
    requires |pad| == 6 && Digits(pad) && Value(pad) == r
    ensures AdaToLovelace(AdaText(Print(q), StripZeros(pad))) == Print(q * LOVELACE + r)
  {
    StripThenPad(pad);
    AdaOfParts(Print(q), StripZeros(pad));
    ValueOfPrint(q);
  }

  lemma StripThenPad(pad: string)
    requires |pad| == 6 && Digits(pad)
    ensures Digits(StripZeros(pad)) && FirstSix(StripZeros(pad)) == pad
  {
    var frac := StripZeros(pad);
    forall i | 0 <= i < |frac| ensures IsDigit(frac[i]) { assert frac[i] == pad[i]; }
    assert (frac + Zeros(6))[..6] == frac + Zeros(6 - |frac|);
  }

  // ---- Which stored thresholds the editor returns unchanged ----

  predicate HasFraction(s: string) {
    IsAda(s) && !IsNatural(s)
  }

  /** What a stored threshold is after being shown in ADA and saved again. */
  function RoundTrip(v: string): string {
    AdaToLovelace(LovelaceToAda(v))
  }

  predicate Fixed(v: string) {
    v == Trim(v) && !HasFraction(v) && (IsNatural(v) ==> Canonical(v))
  }

  /** The threshold comes back exactly when it carries no surrounding blanks, has no
      decimal point that reads as ADA, and no leading zeros. */
  lemma RoundTripIff(v: string)
    ensures RoundTrip(v) == v <==> Fixed(v)
    ensures IsNatural(Trim(v)) ==> RoundTrip(v) == Print(Value(Trim(v)))
    ensures !IsNatural(Trim(v)) && !IsAda(Trim(v)) ==> RoundTrip(v) == Trim(v)
    ensures HasFraction(Trim(v)) ==> IsNatural(RoundTrip(v))
  {
    var s := Trim(v);
    TrimTwice(v);
    if IsNatural(s) {
      LovelaceSurvives(v);
      if v == s && Canonical(v) { PrintOfValue(v); }
      NaturalIsTrimmed(Print(Value(s)));
    } else if IsAda(s) {
      assert IsNatural(RoundTrip(v));
      NaturalIsTrimmed(RoundTrip(v));
    }
  }

  lemma NaturalIsTrimmed(s: string)
    requires IsNatural(s)
    ensures Trim(s) == s
  {
    DigitNotBlank(s[0]);
    DigitNotBlank(s[|s| - 1]);
    TrimmedIff(s);
  }

  // ---- What an amount is worth ----

  lemma {:induction false} ValueThenZeros(s: string, n: nat)
    requires Digits(s)
    ensures Digits(s + Zeros(n)) && Value(s + Zeros(n)) == Value(s) * Power10(n)
  {
    if n == 0 {
      assert s + Zeros(0) == s;
    } else {
      assert (s + Zeros(n))[..|s| + n - 1] == s + Zeros(n - 1);
      ValueThenZeros(s, n - 1);
      assert Value(s + Zeros(n)) == 10 * Value(s + Zeros(n - 1));
    }
  }

  /** One ADA is a million lovelace, and each further digit after the point a tenth of what the one
      before it is. */
  lemma AdaIsMillions(whole: string, frac: string)
    requires IsNatural(whole) && |frac| <= 6 && Digits(frac)
    ensures AdaToLovelace(AdaText(whole, frac)) ==
      Print(1_000_000 * Value(whole) + Value(frac) * Power10(6 - |frac|))
  {
    hide AdaToLovelace, AdaText, Value, Print, Power10, FirstSix;
    AdaOfParts(whole, frac);
    SixPlaces(frac);
  }

  lemma SixPlaces(frac: string)
    requires |frac| <= 6 && Digits(frac)
    ensures Value(FirstSix(frac)) == Value(frac) * Power10(6 - |frac|)
  {
    hide Value, Power10;
    ValueThenZeros(frac, 6 - |frac|);
    assert (frac + Zeros(6))[..6] == frac + Zeros(6 - |frac|);
  }

  /** And lovelace are shown as that: the whole ADA, then what is left without its last zeros. */
  lemma LovelaceInAda(n: nat) returns (frac: string)
    ensures Digits(frac) && |frac| <= 6 && (frac == "" || frac[|frac| - 1] != '0')
    ensures Value(frac) * Power10(6 - |frac|) == n % 1_000_000
    ensures LovelaceToAda(Print(n)) == AdaText(Print(n / 1_000_000), frac)
  {
    hide Print, Value, Trim, LovelaceToAda, AdaText;
    NaturalIsTrimmed(Print(n));
    ValueOfPrint(n);
    AdaIsParts(Print(n));
    frac := LastDigits(n % 1_000_000);
  }

  lemma LastDigits(r: nat) returns (frac: string)
    requires r < 1_000_000
    ensures frac == StripZeros(PadStart(Print(r), 6))
    ensures Digits(frac) && |frac| <= 6 && (frac == "" || frac[|frac| - 1] != '0')
    ensures Value(frac) * Power10(6 - |frac|) == r
  {
    hide Print, Value, PadStart, Power10;
    SixDigits(r);
    var pad := PadStart(Print(r), 6);
    frac := StripZeros(pad);
    StripThenPad(pad);
    NoLastZero(pad);
    ValueThenZeros(frac, 6 - |frac|);
    assert pad == frac + Zeros(6 - |frac|);
  }

  lemma SixDigits(r: nat)
    requires r < 1_000_000
    ensures var p := PadStart(Print(r), 6); |p| == 6 && Digits(p) && Value(p) == r
  {
    Parts(r);
    PadIsSix(r, 6);
  }

  lemma {:induction false} NoLastZero(s: string)
    ensures StripZeros(s) == "" || StripZeros(s)[|StripZeros(s)| - 1] != '0'
  {
    if s != "" && s[|s| - 1] == '0' { NoLastZero(s[..|s| - 1]); }
  }

  /** An amount with no digit or more than six after the point is no amount of ADA: it is left as
      typed, like any text without one. */
  lemma NoAmountKept(whole: string, frac: string)
    requires IsNatural(whole) && Digits(frac) && (frac == "" || |frac| > 6)
    ensures AdaToLovelace(whole + "." + frac) == whole + "." + frac
  {
    var s := whole + "." + frac;
    DotFound(whole, "." + frac);
    assert s == whole + ("." + frac) && |s| == |whole| + 1 + |frac|;
    assert s[0] == whole[0] && s[|s| - 1] == if frac != "" then frac[|frac| - 1] else '.';
    DigitNotBlank(s[0]);
    DigitNotBlank(s[|s| - 1]);
    TrimmedIff(s);
  }

  /** A text with anything but digits before the point, or in place of it, is left as it is but for
      blanks at its ends. */
  lemma NoDigitsKept(s: string, i: nat)
    requires i < |Trim(s)| && !IsDigit(Trim(s)[i]) && Trim(s)[i] != '.'
    ensures AdaToLovelace(s) == Trim(s) && LovelaceToAda(s) == Trim(s)
  {
    var t := Trim(s);
    var d := DotAt(t);
    if i < d {
      assert t[..d][i] == t[i];
    } else if d < |t| {
      assert i > d && t[d + 1..][i - d - 1] == t[i];
    }
  }
}
