/** What the tier rules mean: numbers, connectives and ladders of thresholds (tier.go). */
module RuleMeaning {
  import opened Wrappers
  import opened Decimal
  import opened Tier

  // ---- Comparisons ----

  /** The orderings are those of the numbers that the two texts spell, at every magnitude. */
  lemma OrderingsMean(h: int, w: int)
    ensures Compare(PrintInt(h), ">=", PrintInt(w)) <==> h >= w
    ensures Compare(PrintInt(h), ">", PrintInt(w)) <==> h > w
    ensures Compare(PrintInt(h), "<=", PrintInt(w)) <==> h <= w
    ensures Compare(PrintInt(h), "<", PrintInt(w)) <==> h < w
  {
    ParseOfPrint(h);
    ParseOfPrint(w);
  }

  /** A missing or empty fact stands for 0. */
  lemma BlankIsZero(w: int)
    ensures Compare("", ">=", PrintInt(w)) <==> 0 >= w
    ensures Compare("", ">", PrintInt(w)) <==> 0 > w
    ensures Compare("", "<=", PrintInt(w)) <==> 0 <= w
    ensures Compare("", "<", PrintInt(w)) <==> 0 < w
  {
    OrderingsMean(0, w);
    assert PrintInt(0) == "0";
  }

  /** Nothing is ordered before or after a text that is no number; an empty threshold is none. */
  lemma NoNumberNoOrder(have: string, op: string, want: string)
    requires op in {">=", ">", "<=", "<"}
    requires (have != "" && ParseInt(have) == None) || ParseInt(want) == None
    ensures !Compare(have, op, want)
  {}

  lemma EqualityIsTextual(have: string, op: string, want: string)
    ensures Compare(have, "==", want) <==> have == want
    ensures Compare(have, "!=", want) <==> have != want
    ensures op !in {"==", "!=", ">=", ">", "<=", "<"} ==> !Compare(have, op, want)
  {}

  /** Which texts are numbers: digits, with at most one sign before them. */
  lemma NumberForms(digits: string)
    requires IsNatural(digits)
    ensures ParseInt(digits) == ParseInt("+" + digits) == Some(Value(digits))
    ensures ParseInt("-" + digits) == Some(-(Value(digits) as int))
  {
    hide Value;
    assert ("+" + digits)[1..] == digits && ("-" + digits)[1..] == digits;
    assert !IsDigit(("+" + digits)[0]) && !IsDigit(("-" + digits)[0]);
  }

  lemma NoNumberForms(digits: string, more: string)
    requires IsNatural(digits)
    ensures ParseInt("") == None && ParseInt(digits + "." + more) == None && ParseInt(" " + digits) == None
  {
    hide Value;
    assert !IsDigit((digits + "." + more)[|digits|]) && IsDigit((digits + "." + more)[0]);
    assert !IsDigit((" " + digits)[0]);
  }

  lemma KnownNumbers()
    ensures ParseInt("-12") == Some(-12) && ParseInt("+7") == Some(7) && ParseInt("007") == Some(7)
    ensures ParseInt("1.5") == None
  {
    hide Value, ParseInt;
    Positions("12", "1", "");
    Positions("007", "00", "0");
    Positions("0", "", "");
    Positions("7", "", "");
    NumberForms("12");
    NumberForms("7");
    NumberForms("007");
    assert "-" + "12" == "-12" && "+" + "7" == "+7";
    NoNumberForms("1", "5");
    assert "1" + "." + "5" == "1.5";
  }

  lemma Positions(s: string, t: string, u: string)
    requires Digits(s) && s != "" && t == s[..|s| - 1] && (t != "" ==> u == t[..|t| - 1])
    ensures Digits(t) && Value(s) == 10 * Value(t) + (s[|s| - 1] - '0') as nat
    ensures t != "" ==> Digits(u) && Value(t) == 10 * Value(u) + (t[|t| - 1] - '0') as nat
    ensures Value("") == 0
  {}

  // ---- Conditions ----

  function Leaf(fact: string, op: string, value: string): Condition {
    Condition(Absent, Absent, None, Some(fact), Some(op), Some(value))
  }

  function Not(c: Condition): Condition {
    Condition(Absent, Absent, Some(c), None, None, None)
  }

  function AllOf(cs: seq<Condition>): Condition {
    Condition(Parts(cs), Absent, None, None, None, None)
  }

  function AnyOf(cs: seq<Condition>): Condition {
    Condition(Absent, Parts(cs), None, None, None, None)
  }

  /** Each form means what its name says; without a part, or without any form, a condition
      holds of everybody. */
  lemma FormsMean(cs: seq<Condition>, c: Condition, fact: string, op: string, value: string, facts: Facts)
    ensures Eval(AllOf(cs), facts) <==> forall i :: 0 <= i < |cs| ==> Eval(cs[i], facts)
    ensures Eval(AnyOf(cs), facts) <==> cs == [] || exists i :: 0 <= i < |cs| && Eval(cs[i], facts)
    ensures Eval(Not(c), facts) <==> !Eval(c, facts)
    ensures fact != "" ==>
      (Eval(Leaf(fact, op, value), facts) <==> Compare(if fact in facts then facts[fact] else "", op, value))
    ensures Eval(Condition(Absent, Absent, None, None, None, None), facts)
  {
    assert forall i :: 0 <= i < |cs| ==> cs[i] in cs;
  }

  function Nots(cs: seq<Condition>): (ns: seq<Condition>)
    ensures |ns| == |cs|
  {
    seq(|cs|, i requires 0 <= i < |cs| => Not(cs[i]))
  }

  /** De Morgan's laws; both need a part. */
  lemma DeMorgan(cs: seq<Condition>, facts: Facts)
    requires cs != []
    ensures Eval(Not(AnyOf(cs)), facts) == Eval(AllOf(Nots(cs)), facts)
    ensures Eval(Not(AllOf(cs)), facts) == Eval(AnyOf(Nots(cs)), facts)
  {
    hide Eval;
    FormsMean(cs, AnyOf(cs), "", "", "", facts);
    FormsMean(cs, AllOf(cs), "", "", "", facts);
    FormsMean(Nots(cs), AnyOf(cs), "", "", "", facts);
    forall i | 0 <= i < |cs| ensures Eval(Nots(cs)[i], facts) == !Eval(cs[i], facts) {
      FormsMean([], cs[i], "", "", "", facts);
    }
  }

  // ---- Well-formed conditions ----

  lemma CountFour(a: bool, b: bool, c: bool, d: bool)
    ensures CountTrue([a, b, c, d]) ==
      (if a then 1 else 0) + (if b then 1 else 0) + (if c then 1 else 0) + if d then 1 else 0
  {
    assert [a, b, c, d][..3] == [a, b, c];
    assert [a, b, c][..2] == [a, b];
    assert [a, b][..1] == [a];
    assert [a][..0] == [];
    assert CountTrue([a]) == if a then 1 else 0;
    assert CountTrue([a, b]) == CountTrue([a]) + if b then 1 else 0;
    assert CountTrue([a, b, c]) == CountTrue([a, b]) + if c then 1 else 0;
  }

  /** The conditions that validation accepts, form by form. */
  lemma ValidIff(c: Condition)
    ensures Valid(c) <==>
      && (All(c) != [] ==> Any(c) == [] && c.not == None && Text(c.fact) == "")
      && (Any(c) != [] ==> c.not == None && Text(c.fact) == "")
      && (c.not != None ==> Text(c.fact) == "")
      && (Text(c.fact) == "" ==> Text(c.op) == "" && Text(c.value) == "")
      && (Text(c.fact) != "" ==> Text(c.op) in {"==", "!=", ">=", ">", "<=", "<"})
      && (forall i :: 0 <= i < |All(c)| ==> Valid(All(c)[i]))
      && (forall i :: 0 <= i < |Any(c)| ==> Valid(Any(c)[i]))
      && (c.not.Some? ==> Valid(c.not.value))
  {
    CountFour(All(c) != [], Any(c) != [], c.not.Some?, Text(c.fact) != "");
    assert forall i :: 0 <= i < |All(c)| ==> All(c)[i] in All(c);
    assert forall i :: 0 <= i < |Any(c)| ==> Any(c)[i] in Any(c);
  }

  // ---- A ladder of thresholds ----

  /** Tiers by falling thresholds of one fact. */
  function Ladder(fact: string, tiers: seq<string>, floors: seq<int>): (rules: seq<Rule>)
    requires |tiers| == |floors|
    ensures |rules| == |tiers|
  {
    seq(|tiers|, i requires 0 <= i < |tiers| => Rule(tiers[i], Some(Leaf(fact, ">=", PrintInt(floors[i])))))
  }

  predicate Falling(floors: seq<int>) {
    forall i, j :: 0 <= i < j < |floors| ==> floors[i] > floors[j]
  }

  /** A ladder gives the tier of the highest threshold that the fact reaches, and none below
      the lowest. */
  lemma LadderTier(fact: string, tiers: seq<string>, floors: seq<int>, facts: Facts, h: int, i: nat)
    requires |tiers| == |floors| && Falling(floors) && fact != "" && fact in facts && facts[fact] == PrintInt(h)
    requires i <= |floors| && (i < |floors| ==> floors[i] <= h) && (i > 0 ==> h < floors[i - 1])
    ensures EvalRules(Ladder(fact, tiers, floors), facts) == if i < |floors| then tiers[i] else ""
  {
    hide Eval, Compare, PrintInt;
    var rules := Ladder(fact, tiers, floors);
    forall k | 0 <= k < |floors| ensures Holds(rules[k].when, facts) <==> floors[k] <= h {
      FormsMean([], rules[k].when.value, fact, ">=", PrintInt(floors[k]), facts);
      OrderingsMean(h, floors[k]);
    }
    FirstMatchDecides(rules, facts, i);
  }
}
