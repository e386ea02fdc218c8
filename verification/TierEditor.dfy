/** The rule editor's flat view of tier rules, and the way back (TierRulesSection.tsx). */
module TierEditor {
  import opened Wrappers
  import opened Decimal
  import opened Tier
  import opened Names

  datatype FactType = BoolFact | StateFact | AdaFact | NumberFact | TextFact

  function FactTypeOf(fact: string): FactType {
    if fact == "any_active" || fact == "any_held" then BoolFact
    else if fact == "total_active_stake" || HasSuffix(fact, ".active_stake_lovelace") then AdaFact
    else if HasSuffix(fact, ".state") then StateFact
    else if HasSuffix(fact, ".epochs_active") || HasSuffix(fact, ".count") then NumberFact
    else TextFact
  }

  datatype Leaf = Leaf(fact: string, op: string, value: string)

  datatype Combinator = AllOf | AnyOf

  datatype Flat = Flat(combinator: Combinator, leaves: seq<Leaf>)

  datatype EditRule = EditRule(tier: string, flat: Flat, advanced: Option<Condition>)

  // ---- Into the editor ----

  /** The leaf a condition is, unless another member is present; an empty list counts as
      present here. */
  function ToLeaf(c: Condition): Option<Leaf> {
    if Text(c.fact) != "" && c.all.Absent? && c.any.Absent? && c.not.None? then
      var value := Text(c.value);
      Some(Leaf(c.fact.value, if c.op.None? then "==" else c.op.value,
                if FactTypeOf(c.fact.value) == AdaFact then LovelaceToAda(value) else value))
    else None
  }

  const EMPTY: Condition := Condition(Absent, Absent, None, None, None, None)

  predicate AllLeaves(cs: seq<Condition>) {
    forall i :: 0 <= i < |cs| ==> ToLeaf(cs[i]).Some?
  }

  function Leaves(cs: seq<Condition>): (ls: seq<Leaf>)
    requires AllLeaves(cs)
    ensures |ls| == |cs|
  {
    seq(|cs|, i requires 0 <= i < |cs| => ToLeaf(cs[i]).value)
  }

  function Flatten(when: Option<Condition>): Option<Flat> {
    if when.None? || when.value == EMPTY then Some(Flat(AllOf, []))
    else
      var c := when.value;
      if ToLeaf(c).Some? then Some(Flat(AllOf, [ToLeaf(c).value]))
      else
        var parts := if c.all.Parts? then c.all else c.any;
        if parts.Parts? && c.not.None? && AllLeaves(parts.list) then
          Some(Flat(if c.all.Parts? then AllOf else AnyOf, Leaves(parts.list)))
        else None
  }

  function ToEdit(rules: seq<Rule>): (e: seq<EditRule>)
    ensures |e| == |rules|
  {
    seq(|rules|, i requires 0 <= i < |rules| =>
      match Flatten(rules[i].when)
      case Some(flat) => EditRule(rules[i].tier, flat, None)
      case None => EditRule(rules[i].tier, Flat(AllOf, []), rules[i].when))
  }

  // ---- And back ----

  function FromLeaf(l: Leaf): Condition {
    Condition(Absent, Absent, None, Some(l.fact), Some(l.op),
              Some(if FactTypeOf(l.fact) == AdaFact then AdaToLovelace(l.value) else l.value))
  }

  function FromLeaves(leaves: seq<Leaf>): seq<Condition> {
    seq(|leaves|, i requires 0 <= i < |leaves| => FromLeaf(leaves[i]))
  }

  function Combine(combinator: Combinator, ls: seq<Condition>): Option<Condition> {
    if |ls| == 0 then None
    else if |ls| == 1 then Some(ls[0])
    else if combinator == AllOf then Some(EMPTY.(all := Parts(ls)))
    else Some(EMPTY.(any := Parts(ls)))
  }

  function ToWhen(flat: Flat): Option<Condition> {
    Combine(flat.combinator, FromLeaves(flat.leaves))
  }

  function Serialize(rules: seq<EditRule>): (r: seq<Rule>)
    ensures |r| == |rules|
  {
    seq(|rules|, i requires 0 <= i < |rules| =>
      Rule(rules[i].tier, if rules[i].advanced.Some? then rules[i].advanced else ToWhen(rules[i].flat)))
  }

  // ---- One threshold ----

  /** The thresholds the editor cannot change the meaning of.  Equality is textual, so
      the text must come back; an ordering also tolerates leading zeros, and a text that
      is no number with or without its blanks. */
  predicate KeepsMeaning(op: string, v: string) {
    Fixed(v) || (IsOrdering(op) && (IsNatural(v) || (v != Trim(v) && ParseInt(Trim(v)).None? && !HasFraction(Trim(v)))))
  }

  lemma BlankIsNoNumber(v: string)
    requires v != Trim(v)
    ensures ParseInt(v).None?
  {
    if ParseInt(v).Some? {
      if IsNatural(v) { NaturalIsTrimmed(v); }
      DigitNotBlank(v[0]);
      assert IsDigit(v[|v| - 1]) by { if !IsNatural(v) { assert v[1..][|v| - 2] == v[|v| - 1]; } }
      DigitNotBlank(v[|v| - 1]);
      TrimmedIff(v);
    }
  }

  lemma {:induction false} DotIsNoNumber(v: string)
    requires HasFraction(v)
    ensures ParseInt(v).None?
  {
    var d := DotAt(v);
    assert v[..|v|] == v;
    assert IsDigit(v[..d][0]);
    assert v[1..][d - 1] == v[d] == '.';
  }

  /** Reading the threshold as a number: what the trip through ADA does to it. */
  lemma NumberAfterTrip(v: string)
    ensures IsNatural(v) ==> ParseInt(RoundTrip(v)) == ParseInt(v)
    ensures HasFraction(Trim(v)) ==> ParseInt(v).None? && ParseInt(RoundTrip(v)).Some?
    ensures v != Trim(v) && !HasFraction(Trim(v)) ==> ParseInt(v).None? && ParseInt(RoundTrip(v)) == ParseInt(Trim(v))
  {
    RoundTripIff(v);
    if IsNatural(v) { NaturalIsTrimmed(v); ValueOfPrint(Value(v)); }
    if v != Trim(v) { BlankIsNoNumber(v); }
    if HasFraction(Trim(v)) && v == Trim(v) { DotIsNoNumber(v); }
    if IsNatural(Trim(v)) { ValueOfPrint(Value(Trim(v))); }
  }

  /** A fact value for which the ordering holds of `w`. */
  lemma OrderingIsInhabited(op: string, want: string)
    requires IsOrdering(op) && ParseInt(want).Some?
    ensures exists have :: Compare(have, op, want)
  {
    var w := ParseInt(want).value;
    var h := if op == ">" then w + 1 else if op == "<" then w - 1 else w;
    ParseOfPrint(h);
    assert Compare(PrintInt(h), op, want);
  }

  /** A stake threshold shown in ADA and saved again means the same for every fact value
      exactly when `KeepsMeaning` says so. */
  lemma ThresholdIff(op: string, v: string)
    requires IsOp(op)
    ensures (forall have :: Compare(have, op, RoundTrip(v)) == Compare(have, op, v)) <==> KeepsMeaning(op, v)
  {
    RoundTripIff(v);
    NumberAfterTrip(v);
    if !IsOrdering(op) {
      assert Compare(v, op, v) == (op == "==");
    } else if !KeepsMeaning(op, v) {
      assert ParseInt(v).None? && ParseInt(RoundTrip(v)).Some?;
      OrderingIsInhabited(op, RoundTrip(v));
    }
  }

  // ---- One condition ----

  predicate LeafSafe(c: Condition) {
    FactTypeOf(Text(c.fact)) == AdaFact ==> KeepsMeaning(Text(c.op), Text(c.value))
  }

  lemma LeafKeepsMeaning(c: Condition, facts: Facts)
    requires Valid(c) && ToLeaf(c).Some? && LeafSafe(c)
    ensures Eval(FromLeaf(ToLeaf(c).value), facts) == Eval(c, facts)
  {
    ThresholdIff(Text(c.op), Text(c.value));
  }

  /** An empty list next to another form hides that form from the editor. */
  predicate Hides(c: Condition) {
    || (c.all == Parts([]) && Any(c) != [])
    || ((c.all == Parts([]) || c.any == Parts([])) && Text(c.fact) != "")
  }

  predicate Safe(when: Option<Condition>) {
    when.Some? ==>
      && Valid(when.value) && !Hides(when.value)
      && LeafSafe(when.value)
      && (forall sub :: sub in All(when.value) + Any(when.value) ==> LeafSafe(sub))
  }

  lemma PartsKeepMeaning(cs: seq<Condition>, facts: Facts)
    requires AllLeaves(cs) && forall sub :: sub in cs ==> Valid(sub) && LeafSafe(sub)
    ensures forall i :: 0 <= i < |cs| ==> Eval(FromLeaf(Leaves(cs)[i]), facts) == Eval(cs[i], facts)
  {
    forall i | 0 <= i < |cs| ensures Eval(FromLeaf(Leaves(cs)[i]), facts) == Eval(cs[i], facts) {
      LeafKeepsMeaning(cs[i], facts);
    }
  }

  /** Flattening a condition into the builder and writing it back keeps its meaning. */
  lemma FlattenKeepsMeaning(when: Option<Condition>, facts: Facts)
    requires Safe(when) && Flatten(when).Some?
    ensures Holds(ToWhen(Flatten(when).value), facts) == Holds(when, facts)
  {
    if when.Some? && when.value != EMPTY {
      var c := when.value;
      OneForm(c);
      if ToLeaf(c).Some? {
        LeafKeepsMeaning(c, facts);
      } else {
        PartsBack(c, facts);
      }
    }
  }

  lemma PartsBack(c: Condition, facts: Facts)
    requires Safe(Some(c)) && c != EMPTY && ToLeaf(c).None? && Flatten(Some(c)).Some?
    ensures Holds(ToWhen(Flatten(Some(c)).value), facts) == Eval(c, facts)
  {
    OneForm(c);
    var cs := if c.all.Parts? then All(c) else Any(c);
    PartsKeepMeaning(cs, facts);
    ListMeaning(if c.all.Parts? then AllOf else AnyOf, cs, facts);
  }

  /** A list of leaves, saved again, holds of a subject as the list did. */
  lemma ListMeaning(combinator: Combinator, cs: seq<Condition>, facts: Facts)
    requires AllLeaves(cs)
    requires forall i :: 0 <= i < |cs| ==> Eval(FromLeaf(Leaves(cs)[i]), facts) == Eval(cs[i], facts)
    ensures Holds(ToWhen(Flat(combinator, Leaves(cs))), facts) ==
      if cs == [] || combinator == AllOf then forall sub :: sub in cs ==> Eval(sub, facts)
      else exists sub :: sub in cs && Eval(sub, facts)
  {
    var ls := FromLeaves(Leaves(cs));
    ListBack(cs, ls, facts);
    CombineMeaning(combinator, ls, facts);
  }

  lemma CombineMeaning(combinator: Combinator, ls: seq<Condition>, facts: Facts)
    ensures Holds(Combine(combinator, ls), facts) ==
      if ls == [] || combinator == AllOf then forall sub :: sub in ls ==> Eval(sub, facts)
      else exists sub :: sub in ls && Eval(sub, facts)
  {
    if |ls| == 1 {
      assert ls[0] in ls;
      assert forall sub :: sub in ls ==> sub == ls[0];
    }
  }

  lemma ListBack(cs: seq<Condition>, ls: seq<Condition>, facts: Facts)
    requires |cs| == |ls| && forall i :: 0 <= i < |cs| ==> Eval(ls[i], facts) == Eval(cs[i], facts)
    ensures (forall sub :: sub in ls ==> Eval(sub, facts)) <==> (forall sub :: sub in cs ==> Eval(sub, facts))
    ensures (exists sub :: sub in ls && Eval(sub, facts)) <==> (exists sub :: sub in cs && Eval(sub, facts))
  {
    if sub :| sub in ls && Eval(sub, facts) {
      var i :| 0 <= i < |ls| && ls[i] == sub;
      assert cs[i] in cs;
    }
    if sub :| sub in cs && Eval(sub, facts) {
      var i :| 0 <= i < |cs| && cs[i] == sub;
      assert ls[i] in ls;
    }
    if sub :| sub in ls && !Eval(sub, facts) {
      var i :| 0 <= i < |ls| && ls[i] == sub;
      assert cs[i] in cs;
    }
    if sub :| sub in cs && !Eval(sub, facts) {
      var i :| 0 <= i < |cs| && cs[i] == sub;
      assert ls[i] in ls;
    }
  }

  /** A hidden form is lost: the builder shows a rule without conditions, and saving it
      makes it match everybody. */
  lemma HiddenFormIsLost(c: Condition)
    requires Valid(c) && Hides(c)
    ensures Flatten(Some(c)) == Some(Flat(if c.all.Parts? then AllOf else AnyOf, []))
    ensures ToWhen(Flat(if c.all.Parts? then AllOf else AnyOf, [])) == None
  {
    OneForm(c);
    EmptyListFlattens(c);
  }

  lemma EmptyListFlattens(c: Condition)
    requires c.not.None? && (c.all == Parts([]) || (c.all.Absent? && c.any == Parts([])))
    ensures Flatten(Some(c)) == Some(Flat(if c.all.Parts? then AllOf else AnyOf, []))
  {
    var parts := if c.all.Parts? then c.all else c.any;
    assert Leaves(parts.list) == [];
  }

  // ---- Whole rule lists ----

  /** Opening the saved rules in the editor and saving them again gives every subject the
      same tier. */
  lemma {:induction false} EditorKeepsTiers(rules: seq<Rule>, facts: Facts)
    requires forall r :: r in rules ==> Safe(r.when)
    ensures EvalRules(Serialize(ToEdit(rules)), facts) == EvalRules(rules, facts)
  {
    if rules != [] {
      var saved := Serialize(ToEdit(rules));
      assert saved[1..] == Serialize(ToEdit(rules[1..]));
      EditorKeepsTiers(rules[1..], facts);
      assert rules[0] in rules;
      if Flatten(rules[0].when).Some? {
        FlattenKeepsMeaning(rules[0].when, facts);
      }
    }
  }
}
