/** Exactly which tier conditions change their meaning when the rule editor saves them
    unedited (TierRulesSection.tsx). */
module EditorLosses {
  import opened Wrappers
  import opened Decimal
  import opened Tier
  import opened TierEditor

  /** What is saved for a condition that is opened and not touched. */
  function Saved(when: Option<Condition>): Option<Condition> {
    match Flatten(when) case Some(flat) => ToWhen(flat) case None => when
  }

  ghost predicate Kept(when: Option<Condition>) {
    forall facts :: Holds(Saved(when), facts) == Holds(when, facts)
  }

  /** A rule alone gives every subject the same tier exactly if its condition is kept. */
  lemma OneRuleIff(tier: string, when: Option<Condition>)
    requires tier != ""
    ensures (forall facts :: EvalRules(Serialize(ToEdit([Rule(tier, when)])), facts) == EvalRules([Rule(tier, when)], facts))
      <==> Kept(when)
  {
    hide Holds, Flatten, ToWhen;
    var rules := [Rule(tier, when)];
    SavedRule(tier, when);
    forall facts {:trigger Holds(when, facts)} {:trigger EvalRules(rules, facts)}
      ensures EvalRules(rules, facts) == if Holds(when, facts) then tier else ""
      ensures EvalRules([Rule(tier, Saved(when))], facts) == if Holds(Saved(when), facts) then tier else ""
    {
      LoneRule(tier, when, facts);
      LoneRule(tier, Saved(when), facts);
    }
    if Kept(when) {
      forall facts ensures EvalRules(Serialize(ToEdit(rules)), facts) == EvalRules(rules, facts) {
        assert Holds(Saved(when), facts) == Holds(when, facts);
      }
    } else {
      var facts :| Holds(Saved(when), facts) != Holds(when, facts);
      assert EvalRules(Serialize(ToEdit(rules)), facts) != EvalRules(rules, facts);
    }
  }

  lemma SavedRule(tier: string, when: Option<Condition>)
    ensures Serialize(ToEdit([Rule(tier, when)])) == [Rule(tier, Saved(when))]
  {
    assert when.None? ==> Flatten(when).Some?;
    assert Serialize(ToEdit([Rule(tier, when)]))[0] == Rule(tier, Saved(when));
  }

  lemma LoneRule(tier: string, when: Option<Condition>, facts: Facts)
    ensures EvalRules([Rule(tier, when)], facts) == if Holds(when, facts) then tier else ""
  {
    assert EvalRules([Rule(tier, when)][1..], facts) == "";
  }

  // ---- Tests of one value ----

  datatype Test = Test(op: string, value: string)

  predicate Passes(have: string, t: Test) {
    Compare(have, t.op, t.value)
  }

  ghost predicate SameTest(a: Test, b: Test) {
    forall have :: Passes(have, a) == Passes(have, b)
  }

  /** An ordering against a text that is no number holds of nothing. */
  predicate CanPass(t: Test) {
    IsOrdering(t.op) ==> ParseInt(t.value).Some?
  }

  lemma PassingValue(t: Test) returns (have: string)
    requires IsOp(t.op) && CanPass(t)
    ensures Passes(have, t)
  {
    if IsOrdering(t.op) {
      OrderingIsInhabited(t.op, t.value);
      have :| Compare(have, t.op, t.value);
    } else {
      have := if t.op == "==" then t.value else t.value + "x";
      assert |t.value + "x"| == |t.value| + 1;
    }
  }

  lemma FailingValue(t: Test) returns (have: string)
    requires IsOp(t.op)
    ensures !Passes(have, t)
  {
    if IsOrdering(t.op) {
      have := "x";
    } else {
      have := if t.op == "!=" then t.value else t.value + "x";
      assert |t.value + "x"| == |t.value| + 1;
    }
  }

  // ---- Lists of tests, each of a value of its own ----

  predicate Ops(ts: seq<Test>) {
    forall i :: 0 <= i < |ts| ==> IsOp(ts[i].op)
  }

  predicate AllPass(haves: seq<string>, ts: seq<Test>)
    requires |haves| == |ts|
  {
    forall i :: 0 <= i < |ts| ==> Passes(haves[i], ts[i])
  }

  predicate AnyPasses(haves: seq<string>, ts: seq<Test>)
    requires |haves| == |ts|
  {
    exists i :: 0 <= i < |ts| && Passes(haves[i], ts[i])
  }

  predicate AllCanPass(ts: seq<Test>) {
    forall i :: 0 <= i < |ts| ==> CanPass(ts[i])
  }

  lemma {:induction false} PassingValues(ts: seq<Test>) returns (haves: seq<string>)
    requires Ops(ts) && AllCanPass(ts)
    ensures |haves| == |ts| && AllPass(haves, ts)
  {
    haves := [];
    if ts != [] {
      var n := |ts| - 1;
      var front := PassingValues(ts[..n]);
      var last := PassingValue(ts[n]);
      haves := front + [last];
      assert forall i :: 0 <= i < n ==> haves[i] == front[i] && ts[i] == ts[..n][i];
    }
  }

  lemma {:induction false} FailingValues(ts: seq<Test>) returns (haves: seq<string>)
    requires Ops(ts)
    ensures |haves| == |ts| && forall i :: 0 <= i < |ts| ==> !Passes(haves[i], ts[i])
  {
    haves := [];
    if ts != [] {
      var n := |ts| - 1;
      var front := FailingValues(ts[..n]);
      var last := FailingValue(ts[n]);
      haves := front + [last];
      assert forall i :: 0 <= i < n ==> haves[i] == front[i] && ts[i] == ts[..n][i];
    }
  }

  ghost predicate SameAll(a: seq<Test>, b: seq<Test>)
    requires |a| == |b|
  {
    forall haves :: |haves| == |a| ==> AllPass(haves, a) == AllPass(haves, b)
  }

  ghost predicate SameAny(a: seq<Test>, b: seq<Test>)
    requires |a| == |b|
  {
    forall haves :: |haves| == |a| ==> AnyPasses(haves, a) == AnyPasses(haves, b)
  }

  ghost predicate SameTests(a: seq<Test>, b: seq<Test>)
    requires |a| == |b|
  {
    forall i :: 0 <= i < |a| ==> SameTest(a[i], b[i])
  }

  /** If `h` tells the `i`-th tests apart in favour of `a`, some values tell the
      conjunctions apart. */
  lemma AllApart(a: seq<Test>, b: seq<Test>, i: nat, h: string)
    requires |a| == |b| && Ops(a) && AllCanPass(a) && i < |a|
    requires Passes(h, a[i]) && !Passes(h, b[i])
    ensures !SameAll(a, b)
  {
    var haves := PassingValues(a);
    var split := haves[i := h];
    assert AllPass(split, a) && !AllPass(split, b);
  }

  lemma AnyApart(a: seq<Test>, b: seq<Test>, i: nat, h: string)
    requires |a| == |b| && Ops(a) && i < |a|
    requires !Passes(h, a[i]) && Passes(h, b[i])
    ensures !SameAny(a, b)
  {
    var haves := FailingValues(a);
    var split := haves[i := h];
    assert !AnyPasses(split, a) && Passes(split[i], b[i]);
  }

  lemma SatisfiableApart(a: seq<Test>, b: seq<Test>)
    requires |a| == |b| && Ops(a) && AllCanPass(a) && !AllCanPass(b)
    ensures !SameAll(a, b)
  {
    var haves := PassingValues(a);
    var i :| 0 <= i < |b| && !CanPass(b[i]);
    assert AllPass(haves, a) && !Passes(haves[i], b[i]);
  }

  /** Two conjunctions agree on all values exactly if their tests agree one by one, or both
      hold a test that nothing passes. */
  lemma SameAllIff(a: seq<Test>, b: seq<Test>)
    requires |a| == |b| && Ops(a) && Ops(b)
    ensures SameAll(a, b) <==> SameTests(a, b) || (!AllCanPass(a) && !AllCanPass(b))
  {
    if AllCanPass(a) && !AllCanPass(b) {
      SatisfiableApart(a, b);
      SatisfiableNotSame(a, b);
    } else if !AllCanPass(a) && AllCanPass(b) {
      SatisfiableApart(b, a);
      SatisfiableNotSame(b, a);
    } else if AllCanPass(a) && !SameTests(a, b) {
      var i :| 0 <= i < |a| && !SameTest(a[i], b[i]);
      var h :| Passes(h, a[i]) != Passes(h, b[i]);
      if Passes(h, a[i]) { AllApart(a, b, i, h); } else { AllApart(b, a, i, h); }
    } else if !AllCanPass(a) {
      forall haves | |haves| == |a| ensures !AllPass(haves, a) && !AllPass(haves, b) {
        var i :| 0 <= i < |a| && !CanPass(a[i]);
        assert !Passes(haves[i], a[i]);
        var j :| 0 <= j < |b| && !CanPass(b[j]);
        assert !Passes(haves[j], b[j]);
      }
    }
  }

  lemma SatisfiableNotSame(a: seq<Test>, b: seq<Test>)
    requires |a| == |b| && Ops(a) && AllCanPass(a) && !AllCanPass(b)
    ensures !SameTests(a, b) && !SameTests(b, a)
  {
    var i :| 0 <= i < |b| && !CanPass(b[i]);
    var have := PassingValue(a[i]);
    assert Passes(have, a[i]) && !Passes(have, b[i]);
  }

  /** Two disjunctions agree on all values exactly if their tests agree one by one. */
  lemma SameAnyIff(a: seq<Test>, b: seq<Test>)
    requires |a| == |b| && Ops(a) && Ops(b)
    ensures SameAny(a, b) <==> SameTests(a, b)
  {
    if !SameTests(a, b) {
      var i :| 0 <= i < |a| && !SameTest(a[i], b[i]);
      var h :| Passes(h, a[i]) != Passes(h, b[i]);
      if Passes(h, a[i]) { AnyApart(b, a, i, h); } else { AnyApart(a, b, i, h); }
    }
  }

  // ---- Conditions that are leaves ----

  predicate IsLeaf(c: Condition) {
    Valid(c) && ToLeaf(c).Some?
  }

  function TestOf(c: Condition): Test {
    Test(Text(c.op), Text(c.value))
  }

  function SavedTest(c: Condition): Test {
    Test(Text(c.op), if FactTypeOf(Text(c.fact)) == AdaFact then RoundTrip(Text(c.value)) else Text(c.value))
  }

  lemma LeafTests(c: Condition, facts: Facts)
    requires IsLeaf(c)
    ensures IsOp(TestOf(c).op) && IsOp(SavedTest(c).op)
    ensures Eval(c, facts) == Passes(FactValue(facts, Text(c.fact)), TestOf(c))
    ensures Eval(FromLeaf(ToLeaf(c).value), facts) == Passes(FactValue(facts, Text(c.fact)), SavedTest(c))
  {}

  /** The saved test is the stored one exactly for a safe leaf. */
  lemma SavedTestIff(c: Condition)
    requires IsLeaf(c)
    ensures SameTest(TestOf(c), SavedTest(c)) <==> LeafSafe(c)
  {
    ThresholdIff(Text(c.op), Text(c.value));
    if FactTypeOf(Text(c.fact)) == AdaFact {
      if LeafSafe(c) {
        forall have ensures Passes(have, TestOf(c)) == Passes(have, SavedTest(c)) {
          assert Compare(have, Text(c.op), RoundTrip(Text(c.value))) == Compare(have, Text(c.op), Text(c.value));
        }
      } else {
        var have :| Compare(have, Text(c.op), RoundTrip(Text(c.value))) != Compare(have, Text(c.op), Text(c.value));
        assert Passes(have, TestOf(c)) != Passes(have, SavedTest(c));
      }
    }
  }

  /** A condition that is a single leaf is kept exactly if the leaf is safe. */
  lemma LeafKeptIff(c: Condition)
    requires IsLeaf(c)
    ensures Kept(Some(c)) <==> LeafSafe(c)
  {
    SavedTestIff(c);
    assert ToWhen(Flat(AllOf, [ToLeaf(c).value])) == Some(FromLeaf(ToLeaf(c).value));
    if Kept(Some(c)) {
      forall have ensures Passes(have, TestOf(c)) == Passes(have, SavedTest(c)) {
        var facts: Facts := map[Text(c.fact) := have];
        LeafTests(c, facts);
        assert Holds(Saved(Some(c)), facts) == Holds(Some(c), facts);
      }
    } else {
      var facts :| Holds(Saved(Some(c)), facts) != Holds(Some(c), facts);
      LeafTests(c, facts);
      assert Passes(FactValue(facts, Text(c.fact)), TestOf(c)) != Passes(FactValue(facts, Text(c.fact)), SavedTest(c));
    }
  }

  // ---- Flat lists of leaves over different facts ----

  predicate LeafList(cs: seq<Condition>) {
    && (forall i :: 0 <= i < |cs| ==> IsLeaf(cs[i]))
    && (forall i, j :: 0 <= i < j < |cs| ==> Text(cs[i].fact) != Text(cs[j].fact))
  }

  function Tests(cs: seq<Condition>): (ts: seq<Test>)
    ensures |ts| == |cs|
  {
    seq(|cs|, i requires 0 <= i < |cs| => TestOf(cs[i]))
  }

  function SavedTests(cs: seq<Condition>): (ts: seq<Test>)
    ensures |ts| == |cs|
  {
    seq(|cs|, i requires 0 <= i < |cs| => SavedTest(cs[i]))
  }

  /** The values the leaves look at. */
  function Seen(cs: seq<Condition>, facts: Facts): (haves: seq<string>)
    ensures |haves| == |cs|
  {
    seq(|cs|, i requires 0 <= i < |cs| => FactValue(facts, Text(cs[i].fact)))
  }

  /** Different facts can take any values together. */
  lemma {:induction false} Realize(cs: seq<Condition>, haves: seq<string>) returns (facts: Facts)
    requires LeafList(cs) && |haves| == |cs|
    ensures Seen(cs, facts) == haves
  {
    hide IsLeaf, Text;
    facts := map[];
    if cs != [] {
      var n := |cs| - 1;
      var front := Realize(cs[..n], haves[..n]);
      facts := front[Text(cs[n].fact) := haves[n]];
      forall i | 0 <= i < n ensures FactValue(facts, Text(cs[i].fact)) == haves[i] {
        assert Seen(cs[..n], front)[i] == haves[..n][i] && Text(cs[i].fact) != Text(cs[n].fact);
      }
    }
  }

  lemma ListTests(cs: seq<Condition>, facts: Facts)
    requires LeafList(cs)
    ensures AllLeaves(cs)
    ensures var ls := FromLeaves(Leaves(cs));
      && (forall i :: 0 <= i < |cs| ==> Eval(cs[i], facts) == Passes(Seen(cs, facts)[i], Tests(cs)[i]))
      && (forall i :: 0 <= i < |cs| ==> Eval(ls[i], facts) == Passes(Seen(cs, facts)[i], SavedTests(cs)[i]))
      && Ops(Tests(cs)) && Ops(SavedTests(cs))
  {
    forall i | 0 <= i < |cs|
      ensures Eval(cs[i], facts) == Passes(Seen(cs, facts)[i], Tests(cs)[i])
      ensures Eval(FromLeaf(ToLeaf(cs[i]).value), facts) == Passes(Seen(cs, facts)[i], SavedTests(cs)[i])
      ensures IsOp(Tests(cs)[i].op) && IsOp(SavedTests(cs)[i].op)
    {
      LeafTests(cs[i], facts);
    }
  }

  /** What a list of leaves means, stored and saved. */
  lemma ListEval(combinator: Combinator, cs: seq<Condition>, facts: Facts)
    requires LeafList(cs) && cs != []
    ensures AllLeaves(cs) && Ops(Tests(cs)) && Ops(SavedTests(cs))
    ensures (forall sub :: sub in cs ==> Eval(sub, facts)) == AllPass(Seen(cs, facts), Tests(cs))
    ensures (exists sub :: sub in cs && Eval(sub, facts)) == AnyPasses(Seen(cs, facts), Tests(cs))
    ensures Holds(ToWhen(Flat(combinator, Leaves(cs))), facts) ==
      if combinator == AllOf then AllPass(Seen(cs, facts), SavedTests(cs)) else AnyPasses(Seen(cs, facts), SavedTests(cs))
  {
    hide Eval, Passes, IsLeaf;
    ListTests(cs, facts);
    var ls := FromLeaves(Leaves(cs));
    CombineMeaning(combinator, ls, facts);
    Members(cs, facts, Seen(cs, facts), Tests(cs));
    Members(ls, facts, Seen(cs, facts), SavedTests(cs));
  }

  lemma Members(cs: seq<Condition>, facts: Facts, haves: seq<string>, ts: seq<Test>)
    requires |cs| == |haves| == |ts|
    requires forall i :: 0 <= i < |cs| ==> Eval(cs[i], facts) == Passes(haves[i], ts[i])
    ensures (forall sub :: sub in cs ==> Eval(sub, facts)) == AllPass(haves, ts)
    ensures (exists sub :: sub in cs && Eval(sub, facts)) == AnyPasses(haves, ts)
  {
    hide Eval, Passes;
    if sub :| sub in cs && Eval(sub, facts) {
      var i :| 0 <= i < |cs| && cs[i] == sub;
      assert Passes(haves[i], ts[i]);
    }
    if i :| 0 <= i < |ts| && Passes(haves[i], ts[i]) { assert cs[i] in cs; }
    if sub :| sub in cs && !Eval(sub, facts) {
      var i :| 0 <= i < |cs| && cs[i] == sub;
      assert !Passes(haves[i], ts[i]);
    }
    if i :| 0 <= i < |ts| && !Passes(haves[i], ts[i]) { assert cs[i] in cs; }
  }

  /** A visible list of leaves: an `all`, or an `any` without an `all` beside it. */
  predicate ShowsList(c: Condition) {
    Valid(c) && !Hides(c) && (All(c) != [] || Any(c) != [])
  }

  function ListOf(c: Condition): seq<Condition> {
    if All(c) != [] then All(c) else Any(c)
  }

  lemma ListFlattens(c: Condition)
    requires ShowsList(c) && LeafList(ListOf(c))
    ensures ToLeaf(c).None? && c != EMPTY && AllLeaves(ListOf(c))
    ensures Saved(Some(c)) == ToWhen(Flat(if All(c) != [] then AllOf else AnyOf, Leaves(ListOf(c))))
  {
    OneForm(c);
    ListTests(ListOf(c), map[]);
  }

  predicate AllSafe(cs: seq<Condition>) {
    forall i :: 0 <= i < |cs| ==> LeafSafe(cs[i])
  }

  /** Exactly when a list of leaves over different facts is kept: every leaf is safe; or it
      is an `all` that held of nobody and still holds of nobody. */
  lemma ListKeptIff(c: Condition)
    requires ShowsList(c) && LeafList(ListOf(c))
    ensures Kept(Some(c)) <==>
      AllSafe(ListOf(c))
      || (All(c) != [] && !AllCanPass(Tests(ListOf(c))) && !AllCanPass(SavedTests(ListOf(c))))
  {
    hide LeafSafe, Eval, Passes, CanPass, TestOf, SavedTest, ToWhen, Leaves;
    var cs := ListOf(c);
    var a, b := Tests(cs), SavedTests(cs);
    ListFlattens(c);
    ListTests(cs, map[]);
    SafeTests(cs);
    if All(c) != [] {
      SameAllIff(a, b);
      KeptAll(c);
    } else {
      SameAnyIff(a, b);
      KeptAny(c);
    }
  }

  lemma SafeTests(cs: seq<Condition>)
    requires LeafList(cs)
    ensures SameTests(Tests(cs), SavedTests(cs)) <==> AllSafe(cs)
  {
    hide LeafSafe, SameTest;
    forall i | 0 <= i < |cs| ensures SameTest(Tests(cs)[i], SavedTests(cs)[i]) <==> LeafSafe(cs[i]) {
      SavedTestIff(cs[i]);
    }
  }

  lemma StoredList(c: Condition, facts: Facts)
    requires ShowsList(c)
    ensures Eval(c, facts) == if All(c) != [] then forall sub :: sub in All(c) ==> Eval(sub, facts)
                              else exists sub :: sub in Any(c) && Eval(sub, facts)
  {}

  lemma KeptAll(c: Condition)
    requires ShowsList(c) && LeafList(ListOf(c)) && All(c) != []
    ensures Kept(Some(c)) <==> SameAll(Tests(ListOf(c)), SavedTests(ListOf(c)))
  {
    hide Eval, Passes, Leaves, ToWhen, Saved;
    var cs := ListOf(c);
    var a, b := Tests(cs), SavedTests(cs);
    ListFlattens(c);
    forall facts ensures Holds(Some(c), facts) == AllPass(Seen(cs, facts), a) && Holds(Saved(Some(c)), facts) == AllPass(Seen(cs, facts), b) {
      StoredList(c, facts);
      ListEval(AllOf, cs, facts);
    }
    if Kept(Some(c)) {
      forall haves: seq<string> | |haves| == |a| ensures AllPass(haves, a) == AllPass(haves, b) {
        var facts := Realize(cs, haves);
        assert Holds(Saved(Some(c)), facts) == Holds(Some(c), facts);
      }
    }
  }

  lemma KeptAny(c: Condition)
    requires ShowsList(c) && LeafList(ListOf(c)) && All(c) == []
    ensures Kept(Some(c)) <==> SameAny(Tests(ListOf(c)), SavedTests(ListOf(c)))
  {
    hide Eval, Passes, Leaves, ToWhen, Saved;
    var cs := ListOf(c);
    var a, b := Tests(cs), SavedTests(cs);
    ListFlattens(c);
    forall facts ensures Holds(Some(c), facts) == AnyPasses(Seen(cs, facts), a) && Holds(Saved(Some(c)), facts) == AnyPasses(Seen(cs, facts), b) {
      StoredList(c, facts);
      ListEval(AnyOf, cs, facts);
    }
    if Kept(Some(c)) {
      forall haves: seq<string> | |haves| == |a| ensures AnyPasses(haves, a) == AnyPasses(haves, b) {
        var facts := Realize(cs, haves);
        assert Holds(Saved(Some(c)), facts) == Holds(Some(c), facts);
      }
    }
  }

  // ---- Hidden forms ----

  predicate HasForm(c: Condition) {
    All(c) != [] || Any(c) != [] || c.not.Some? || Text(c.fact) != ""
  }

  /** The editor shows a condition that has a form as an empty list exactly if an empty list
      stands beside that form. */
  lemma EmptyBuilderIff(c: Condition)
    requires Valid(c) && HasForm(c)
    ensures (Flatten(Some(c)).Some? && Flatten(Some(c)).value.leaves == []) <==> Hides(c)
  {
    OneForm(c);
    if Hides(c) { HiddenFormIsLost(c); }
  }

  /** A hidden form is kept exactly if it held of everybody, and for any subject the saved
      rule differs exactly if it did not hold of it. */
  lemma HiddenKeptIff(c: Condition)
    requires Valid(c) && Hides(c)
    ensures forall facts :: Holds(Saved(Some(c)), facts) != Holds(Some(c), facts) <==> !Eval(c, facts)
    ensures Kept(Some(c)) <==> forall facts :: Eval(c, facts)
  {
    HiddenFormIsLost(c);
    assert Saved(Some(c)) == None;
    if Kept(Some(c)) {
      forall facts ensures Eval(c, facts) { assert Holds(Saved(Some(c)), facts) == Holds(Some(c), facts); }
    }
  }

  /** A hidden fact is never kept: some subject did not match and does now. */
  lemma HiddenFactChanges(c: Condition)
    requires Valid(c) && Hides(c) && Text(c.fact) != ""
    ensures !Kept(Some(c)) && exists facts :: !Eval(c, facts)
  {
    OneForm(c);
    var have := FailingValue(TestOf(c));
    var facts: Facts := map[Text(c.fact) := have];
    assert !Eval(c, facts);
    HiddenKeptIff(c);
  }

  /** Nor is a hidden `any` of leaves over different facts. */
  lemma HiddenAnyChanges(c: Condition)
    requires Valid(c) && Hides(c) && Any(c) != [] && LeafList(Any(c))
    ensures !Kept(Some(c)) && exists facts :: !Eval(c, facts)
  {
    hide Passes;
    OneForm(c);
    var cs := Any(c);
    ListTests(cs, map[]);
    var haves := FailingValues(Tests(cs));
    var facts := Realize(cs, haves);
    ListEval(AnyOf, cs, facts);
    assert !Eval(c, facts);
    HiddenKeptIff(c);
  }

  /** A condition too deep for the builder is edited as JSON and comes back as it was. */
  lemma AdvancedKept(when: Option<Condition>)
    requires Flatten(when).None?
    ensures Saved(when) == when && Kept(when)
  {}

  /** Rules whose conditions are all kept give every subject the same tier. */
  lemma {:induction false} TiersKept(rules: seq<Rule>, facts: Facts)
    requires forall r :: r in rules ==> Kept(r.when)
    ensures EvalRules(Serialize(ToEdit(rules)), facts) == EvalRules(rules, facts)
  {
    hide Holds, Flatten, ToWhen;
    if rules != [] {
      var r, saved := rules[0], Serialize(ToEdit(rules));
      SavedRule(r.tier, r.when);
      assert saved[0] == Serialize(ToEdit([r]))[0];
      assert saved[1..] == Serialize(ToEdit(rules[1..]));
      TiersKept(rules[1..], facts);
      assert r in rules;
      assert Holds(Saved(r.when), facts) == Holds(r.when, facts);
    }
  }
}
