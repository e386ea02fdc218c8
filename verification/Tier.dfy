/** The first-party tier rules: an ordered list of boolean conditions over named facts
    (tier.go). */
module Tier {
  import opened Wrappers
  import opened Decimal

  /** A condition as stored JSON: every member may be absent. */
  datatype Condition = Condition(
    all: Parts,
    any: Parts,
    not: Option<Condition>,
    fact: Option<string>,
    op: Option<string>,
    value: Option<string>)

  datatype Parts = Absent | Parts(list: seq<Condition>)

  datatype Rule = Rule(tier: string, when: Option<Condition>)

  type Facts = map<string, string>

  // Decoded into Go values, an absent member is empty.

  function All(c: Condition): (s: seq<Condition>)
    ensures forall sub :: sub in s ==> sub < c
  {
    match c.all case Absent => [] case Parts(s) => s
  }

  function Any(c: Condition): (s: seq<Condition>)
    ensures forall sub :: sub in s ==> sub < c
  {
    match c.any case Absent => [] case Parts(s) => s
  }

  function Text(s: Option<string>): string {
    match s case None => "" case Some(t) => t
  }

  function FactValue(facts: Facts, name: string): string {
    if name in facts then facts[name] else ""
  }

  predicate IsOrdering(op: string) {
    op == ">=" || op == ">" || op == "<=" || op == "<"
  }

  predicate IsOp(op: string) {
    op == "==" || op == "!=" || IsOrdering(op)
  }

  predicate Ordered(op: string, h: int, w: int) {
    if op == ">=" then h >= w else if op == ">" then h > w else if op == "<=" then h <= w else h < w
  }

  /** Equality compares text; the orderings compare numbers, a missing fact as 0, and
      never hold of anything that is not a number. */
  predicate Compare(have: string, op: string, want: string) {
    if op == "==" then have == want
    else if op == "!=" then have != want
    else if IsOrdering(op) then
      var h, w := ParseInt(if have == "" then "0" else have), ParseInt(want);
      h.Some? && w.Some? && Ordered(op, h.value, w.value)
    else false
  }

  predicate Eval(c: Condition, facts: Facts) {
    if All(c) != [] then forall sub :: sub in All(c) ==> Eval(sub, facts)
    else if Any(c) != [] then exists sub :: sub in Any(c) && Eval(sub, facts)
    else if c.not.Some? then !Eval(c.not.value, facts)
    else if Text(c.fact) != "" then Compare(FactValue(facts, c.fact.value), Text(c.op), Text(c.value))
    else true
  }

  /** An absent condition decodes to the empty one, which matches everything. */
  predicate Holds(when: Option<Condition>, facts: Facts) {
    when.None? || Eval(when.value, facts)
  }

  /** The first matching rule's tier, or none. */
  function EvalRules(rules: seq<Rule>, facts: Facts): string {
    if rules == [] then ""
    else if Holds(rules[0].when, facts) then rules[0].tier
    else EvalRules(rules[1..], facts)
  }

  /** The first rule that holds decides; without one there is no tier. */
  lemma {:induction false} FirstMatchDecides(rules: seq<Rule>, facts: Facts, i: nat)
    requires i <= |rules| && forall k :: 0 <= k < i ==> !Holds(rules[k].when, facts)
    requires i < |rules| ==> Holds(rules[i].when, facts)
    ensures EvalRules(rules, facts) == if i < |rules| then rules[i].tier else ""
  {
    if i > 0 {
      assert forall k :: 0 <= k < |rules| - 1 ==> rules[1..][k] == rules[k + 1];
      FirstMatchDecides(rules[1..], facts, i - 1);
    }
  }

  // ---- Validation ----

  function FormsSet(c: Condition): seq<bool> {
    [All(c) != [], Any(c) != [], c.not.Some?, Text(c.fact) != ""]
  }

  function CountTrue(bs: seq<bool>): nat {
    if bs == [] then 0 else CountTrue(bs[..|bs| - 1]) + if bs[|bs| - 1] then 1 else 0
  }

  /** At most one form, an operator only with a fact and then a known one, and the same
      of every part. */
  predicate Valid(c: Condition) {
    && CountTrue(FormsSet(c)) <= 1
    && (Text(c.op) != "" || Text(c.value) != "" ==> Text(c.fact) != "")
    && (forall sub :: sub in All(c) ==> Valid(sub))
    && (forall sub :: sub in Any(c) ==> Valid(sub))
    && (c.not.Some? ==> Valid(c.not.value))
    && (Text(c.fact) != "" ==> IsOp(Text(c.op)))
  }

  method Validate(c: Condition) returns (ok: bool)
    ensures ok <==> Valid(c)
    decreases c
  {
    var forms := 0;
    var flags := FormsSet(c);
    for i := 0 to |flags|
      invariant forms == CountTrue(flags[..i])
    {
      assert flags[..i + 1][..i] == flags[..i];
      if flags[i] {
        forms := forms + 1;
      }
    }
    assert flags[..|flags|] == flags;
    if forms > 1 {
      return false;
    }
    if (Text(c.op) != "" || Text(c.value) != "") && Text(c.fact) == "" {
      return false;
    }
    var subs := All(c);
    for i := 0 to |subs|
      invariant forall k :: 0 <= k < i ==> Valid(subs[k])
    {
      assert subs[i] in All(c);
      ok := Validate(subs[i]);
      if !ok {
        return false;
      }
    }
    subs := Any(c);
    for i := 0 to |subs|
      invariant forall k :: 0 <= k < i ==> Valid(subs[k])
    {
      assert subs[i] in Any(c);
      ok := Validate(subs[i]);
      if !ok {
        return false;
      }
    }
    if c.not.Some? {
      ok := Validate(c.not.value);
      if !ok {
        return false;
      }
    }
    return Text(c.fact) == "" || IsOp(Text(c.op));
  }

  /** The index of the first bad rule, if there is one. */
  method ValidateRules(rules: seq<Rule>) returns (bad: Option<nat>)
    ensures bad.None? <==> forall r :: r in rules ==> r.tier != "" && (r.when.Some? ==> Valid(r.when.value))
    ensures bad.Some? ==>
      && bad.value < |rules|
      && (rules[bad.value].tier == "" || (rules[bad.value].when.Some? && !Valid(rules[bad.value].when.value)))
      && forall k :: 0 <= k < bad.value ==> rules[k].tier != "" && (rules[k].when.Some? ==> Valid(rules[k].when.value))
  {
    for i := 0 to |rules|
      invariant forall k :: 0 <= k < i ==> rules[k].tier != "" && (rules[k].when.Some? ==> Valid(rules[k].when.value))
    {
      assert rules[i] in rules;
      if rules[i].tier == "" {
        return Some(i);
      }
      // An absent condition decodes to the empty one, which is valid.
      if rules[i].when.Some? {
        var ok := Validate(rules[i].when.value);
        if !ok {
          return Some(i);
        }
      }
    }
    return None;
  }

  lemma OneForm(c: Condition)
    requires Valid(c)
    ensures All(c) != [] ==> Any(c) == [] && c.not.None? && Text(c.fact) == ""
    ensures Any(c) != [] ==> c.not.None? && Text(c.fact) == ""
    ensures c.not.Some? ==> Text(c.fact) == ""
  {
    var f := FormsSet(c);
    assert f[..3][..2][..1][..0] == [];
    assert CountTrue(f[..3][..2][..1]) == if f[0] then 1 else 0;
    assert CountTrue(f[..3][..2]) == CountTrue(f[..3][..2][..1]) + if f[1] then 1 else 0;
    assert CountTrue(f[..3]) == CountTrue(f[..3][..2]) + if f[2] then 1 else 0;
    assert CountTrue(f) == CountTrue(f[..3]) + if f[3] then 1 else 0;
  }
}
