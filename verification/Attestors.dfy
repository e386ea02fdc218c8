/** Attestation of one pool, and the aggregate over a set of attestors
    (poolstake.go, set.go, oauth.go). */
module Attestors {
  import opened Wrappers
  import opened Names
  import opened Membership
  import Decimal
  import PoolId
  import SetSum
  import opened Ascii
  import opened ConvertBits

  type Facts = map<string, string>

  const STATE := "state"
  const STAKE := "active_stake_lovelace"
  const EPOCHS := "epochs_active"

  function Key(poolID: string, name: string): string {
    "pool:" + poolID + "." + name
  }

  function StateText(s: State): string {
    match s case NonMember => "none" case Pending => "pending" case Active => "active"
  }

  /** What one pool_stake attestor finds: the derived state, and the active-stake facts
      of the snapshot. */
  datatype Attestation = Attestation(poolID: string, state: State, stake: string, epochs: int) {
    /** The amounts are meaningful only for the pool that the active stake credits. */
    function Facts(): Facts {
      var base := map[Key(poolID, STATE) := StateText(state)];
      if state != Active then base
      else
        var withStake := if stake != "" then base[Key(poolID, STAKE) := stake] else base;
        if epochs > 0 then withStake[Key(poolID, EPOCHS) := Decimal.Print(epochs)] else withStake
    }

    function Amount(): int {
      if state == Active then Number(stake) else 0
    }
  }

  /** PoolStakeAttestor.Attest, for the snapshot its source returns. */
  function Attest(lib: Library, poolID: string, snap: Option<Snapshot>): Attestation {
    match snap
    case None => Attestation(poolID, DeriveState(lib, None, poolID), "", 0)
    case Some(s) => Attestation(poolID, DeriveState(lib, snap, poolID), s.activeStake, s.epochsDelegated)
  }

  function Number(s: string): int {
    match Decimal.ParseInt(s) case None => 0 case Some(n) => n
  }

  // ---- The aggregate over the fact map, whatever order its keys come in ----

  ghost predicate AnyStateActive(f: Facts) {
    exists k :: k in f && HasSuffix(k, "." + STATE) && f[k] == "active"
  }

  function AmountAt(f: Facts, k: string): int {
    if k in f && HasSuffix(k, "." + STAKE) then Number(f[k]) else 0
  }

  function AmountOf(f: Facts): string -> int {
    k => AmountAt(f, k)
  }

  ghost function Total(f: Facts, keys: set<string>): int {
    SetSum.Sum(keys, AmountOf(f))
  }

  lemma TotalSplit(f: Facts, keys: set<string>, k: string)
    requires k in keys
    ensures Total(f, keys) == AmountAt(f, k) + Total(f, keys - {k})
  {
    SetSum.Split(keys, AmountOf(f), k);
  }

  method FindActive(f: Facts) returns (found: bool)
    ensures found <==> AnyStateActive(f)
  {
    var todo := f.Keys;
    while todo != {}
      invariant todo <= f.Keys
      invariant forall k :: k in f.Keys - todo ==> !(HasSuffix(k, "." + STATE) && f[k] == "active")
    {
      var k :| k in todo;
      if HasSuffix(k, "." + STATE) && f[k] == "active" {
        return true;
      }
      todo := todo - {k};
    }
    return false;
  }

  method SumActiveStake(f: Facts) returns (total: int)
    ensures total == Total(f, f.Keys)
  {
    total := 0;
    var todo := f.Keys;
    while todo != {}
      invariant todo <= f.Keys
      invariant total + Total(f, todo) == Total(f, f.Keys)
    {
      var k :| k in todo;
      TotalSplit(f, todo, k);
      todo := todo - {k};
      if !HasSuffix(k, "." + STAKE) || f[k] == "" {
        continue;
      }
      var n := Decimal.ParseInt(f[k]);
      if n.Some? {
        total := total + n.value;
      }
    }
  }

  /** The aggregate names carry no dot, so adding them changes neither aggregate. */
  lemma AggregateNamesPlain(f: Facts, name: string, v: string)
    requires name == ANY_HELD || name == ANY_ACTIVE
    requires name !in f
    ensures AnyStateActive(f[name := v]) <==> AnyStateActive(f)
    ensures Total(f[name := v], f.Keys + {name}) == Total(f, f.Keys)
  {
    var g := f[name := v];
    assert !HasSuffix(name, "." + STATE) && !HasSuffix(name, "." + STAKE) by { NoDotNoSuffix(name, STATE); NoDotNoSuffix(name, STAKE); }
    if AnyStateActive(f) {
      var k :| k in f && HasSuffix(k, "." + STATE) && f[k] == "active";
      assert g[k] == "active";
    }
    TotalSplit(g, f.Keys + {name}, name);
    assert f.Keys + {name} - {name} == f.Keys;
    TotalSame(f, g, f.Keys);
  }

  lemma NoDotNoSuffix(name: string, m: string)
    requires DotFree(name)
    ensures !HasSuffix(name, "." + m)
  {
    var t := "." + m;
    assert |t| <= |name| ==> name[|name| - |t|..][0] == name[|name| - |t|];
  }

  lemma {:induction false} TotalSame(f: Facts, g: Facts, keys: set<string>)
    requires keys <= f.Keys && keys <= g.Keys && forall k :: k in keys ==> f[k] == g[k]
    ensures Total(f, keys) == Total(g, keys)
  {
    if keys != {} {
      var k :| k in keys;
      TotalSplit(f, keys, k);
      TotalSplit(g, keys, k);
      TotalSame(f, g, keys - {k});
    }
  }

  // ---- Evaluating a set ----

  /** The facts of all attestors, a later one replacing an earlier one of the same name. */
  function Merged(atts: seq<Attestation>): Facts {
    if atts == [] then map[] else Merged(atts[..|atts| - 1]) + atts[|atts| - 1].Facts()
  }

  predicate Held(atts: seq<Attestation>) {
    exists i :: 0 <= i < |atts| && atts[i].state != NonMember
  }

  function BoolText(b: bool): string {
    if b then "true" else "false"
  }

  datatype Evaluation = Evaluation(held: bool, facts: Facts)

  const ANY_HELD := "any_held"
  const ANY_ACTIVE := "any_active"
  const TOTAL := "total_active_stake"

  /** Set.Evaluate; `fails` says which attestor's source errors. */
  method Evaluate(atts: seq<Attestation>, fails: set<nat>) returns (r: Option<Evaluation>)
    ensures r.None? <==> exists i :: 0 <= i < |atts| && i in fails
    ensures r.Some? ==> r.value == Aggregate(atts)
  {
    var held, facts: Facts := false, map[];
    for i := 0 to |atts|
      invariant facts == Merged(atts[..i])
      invariant held <==> Held(atts[..i])
      invariant forall k :: 0 <= k < i ==> k !in fails
    {
      if i in fails {
        return None;
      }
      HeldNext(atts, i);
      if atts[i].state != NonMember {
        held := true;
      }
      facts := facts + atts[i].Facts();
    }
    assert atts[..|atts|] == atts;
    var evaluation := Derive(atts, held, facts);
    return Some(evaluation);
  }

  lemma HeldNext(atts: seq<Attestation>, i: nat)
    requires i < |atts|
    ensures Held(atts[..i + 1]) <==> Held(atts[..i]) || atts[i].state != NonMember
    ensures Merged(atts[..i + 1]) == Merged(atts[..i]) + atts[i].Facts()
  {
    assert atts[..i + 1] == atts[..i] + [atts[i]];
    assert forall k :: 0 <= k < i ==> atts[..i + 1][k] == atts[..i][k];
  }

  ghost function Aggregate(atts: seq<Attestation>): Evaluation {
    var f := Merged(atts);
    Evaluation(Held(atts),
      f[ANY_HELD := BoolText(Held(atts))][ANY_ACTIVE := BoolText(AnyStateActive(f))]
       [TOTAL := Decimal.PrintInt(Total(f, f.Keys))])
  }

  /** The three aggregate facts, derived in turn from the growing map. */
  method Derive(atts: seq<Attestation>, held: bool, merged: Facts) returns (r: Evaluation)
    requires merged == Merged(atts) && held == Held(atts)
    ensures r == Aggregate(atts)
  {
    MergedNames(atts);
    var facts := merged[ANY_HELD := BoolText(held)];
    AggregateNamesPlain(merged, ANY_HELD, BoolText(held));
    assert facts.Keys == merged.Keys + {ANY_HELD};
    var active := FindActive(facts);
    AggregateNamesPlain(facts, ANY_ACTIVE, BoolText(active));
    var facts2 := facts[ANY_ACTIVE := BoolText(active)];
    assert facts2.Keys == facts.Keys + {ANY_ACTIVE};
    var total := SumActiveStake(facts2);
    r := Evaluation(held, facts2[TOTAL := Decimal.PrintInt(total)]);
  }

  lemma FactNames(a: Attestation)
    ensures forall k :: k in a.Facts() ==> k in {Key(a.poolID, STATE), Key(a.poolID, STAKE), Key(a.poolID, EPOCHS)}
  {}

  lemma {:induction false} MergedNames(atts: seq<Attestation>)
    ensures forall k :: k in Merged(atts) ==> k != "" && k[0] == 'p'
    ensures ANY_HELD !in Merged(atts) && ANY_ACTIVE !in Merged(atts)
  {
    if atts != [] {
      MergedNames(atts[..|atts| - 1]);
      FactNames(atts[|atts| - 1]);
    }
  }

  // ---- What the aggregate says about the attestations ----

  /** A pool fact's name tells which pool and which fact it is. */
  lemma KeyInjective(p: string, n: string, q: string, m: string)
    requires n in {STATE, STAKE, EPOCHS} && m in {STATE, STAKE, EPOCHS}
    ensures Key(p, n) == Key(q, m) <==> p == q && n == m
    ensures HasSuffix(Key(p, n), "." + m) <==> n == m
  {
    SuffixIff("pool:" + p, n, m);
    if Key(p, n) == Key(q, m) {
      DottedInjective("pool:" + p, n, "pool:" + q, m);
      assert ("pool:" + p)[5..] == p && ("pool:" + q)[5..] == q;
    }
  }

  /** The last attestation for its pool. */
  predicate LastOfPool(atts: seq<Attestation>, i: nat) {
    i < |atts| && forall j :: i < j < |atts| ==> atts[j].poolID != atts[i].poolID
  }

  predicate HasState(f: Facts, k: string, v: string) {
    k in f && HasSuffix(k, "." + STATE) && f[k] == v
  }

  ghost predicate StateFrom(atts: seq<Attestation>, k: string, v: string) {
    exists i: nat :: LastOfPool(atts, i) && k == Key(atts[i].poolID, STATE) && v == StateText(atts[i].state)
  }

  /** For every pool the merged state is that of its last attestation. */
  lemma {:induction false} MergedState(atts: seq<Attestation>, k: string, v: string)
    ensures HasState(Merged(atts), k, v) <==> StateFrom(atts, k, v)
  {
    if atts != [] {
      var n := |atts| - 1;
      MergedState(atts[..n], k, v);
      OwnState(atts[n], k);
      if k == Key(atts[n].poolID, STATE) {
        StateOfLast(atts, k, v);
      } else {
        StateOfEarlier(atts, k, v);
      }
    }
  }

  lemma StateOfLast(atts: seq<Attestation>, k: string, v: string)
    requires atts != [] && k == Key(atts[|atts| - 1].poolID, STATE)
    ensures StateFrom(atts, k, v) <==> v == StateText(atts[|atts| - 1].state)
  {
    var n := |atts| - 1;
    assert LastOfPool(atts, n);
    if StateFrom(atts, k, v) {
      var i: nat :| LastOfPool(atts, i) && k == Key(atts[i].poolID, STATE) && v == StateText(atts[i].state);
      KeyInjective(atts[i].poolID, STATE, atts[n].poolID, STATE);
    }
  }

  lemma StateOfEarlier(atts: seq<Attestation>, k: string, v: string)
    requires atts != [] && k != Key(atts[|atts| - 1].poolID, STATE)
    ensures StateFrom(atts, k, v) <==> StateFrom(atts[..|atts| - 1], k, v)
  {
    var n := |atts| - 1;
    if StateFrom(atts, k, v) {
      var i: nat :| LastOfPool(atts, i) && k == Key(atts[i].poolID, STATE) && v == StateText(atts[i].state);
      LastOfPoolFront(atts, i);
      assert atts[..n][i] == atts[i];
    }
    if StateFrom(atts[..n], k, v) {
      var i: nat :| LastOfPool(atts[..n], i) && k == Key(atts[..n][i].poolID, STATE) && v == StateText(atts[..n][i].state);
      LastOfPoolFront(atts, i);
      assert atts[..n][i] == atts[i];
    }
  }

  lemma LastOfPoolFront(atts: seq<Attestation>, i: nat)
    requires i < |atts| - 1 && atts[i].poolID != atts[|atts| - 1].poolID
    ensures LastOfPool(atts, i) <==> LastOfPool(atts[..|atts| - 1], i)
  {
    var front := atts[..|atts| - 1];
    assert forall j :: 0 <= j < |front| ==> front[j] == atts[j];
    if LastOfPool(front, i) {
      forall j | i < j < |atts| ensures atts[j].poolID != atts[i].poolID {
        if j < |front| { assert front[j].poolID != front[i].poolID; }
      }
    }
  }

  lemma OwnState(a: Attestation, k: string)
    ensures k in a.Facts() && HasSuffix(k, "." + STATE) ==> k == Key(a.poolID, STATE)
    ensures Key(a.poolID, STATE) in a.Facts() && a.Facts()[Key(a.poolID, STATE)] == StateText(a.state)
    ensures HasSuffix(Key(a.poolID, STATE), "." + STATE)
  {
    FactNames(a);
    KeyInjective(a.poolID, STATE, a.poolID, STATE);
    KeyInjective(a.poolID, STAKE, a.poolID, STATE);
    KeyInjective(a.poolID, EPOCHS, a.poolID, STATE);
  }

  /** `any_active` says exactly that some pool's last attestation is active. */
  lemma AnyActiveIff(atts: seq<Attestation>)
    ensures AnyStateActive(Merged(atts)) <==> exists i: nat :: LastOfPool(atts, i) && atts[i].state == Active
  {
    if AnyStateActive(Merged(atts)) {
      var k :| k in Merged(atts) && HasSuffix(k, "." + STATE) && Merged(atts)[k] == "active";
      assert HasState(Merged(atts), k, "active");
      MergedState(atts, k, "active");
    }
    if i: nat :| LastOfPool(atts, i) && atts[i].state == Active {
      MergedState(atts, Key(atts[i].poolID, STATE), "active");
      assert StateFrom(atts, Key(atts[i].poolID, STATE), "active");
      assert HasState(Merged(atts), Key(atts[i].poolID, STATE), "active");
    }
  }

  // ---- Distinct pools ----

  predicate Distinct(atts: seq<Attestation>) {
    forall i, j :: 0 <= i < j < |atts| ==> atts[i].poolID != atts[j].poolID
  }

  /** Sum of the active amounts. */
  function Amounts(atts: seq<Attestation>): int {
    if atts == [] then 0 else Amounts(atts[..|atts| - 1]) + atts[|atts| - 1].Amount()
  }

  lemma OwnTotal(a: Attestation)
    ensures Total(a.Facts(), a.Facts().Keys) == a.Amount()
  {
    OverlapTotal(a.Facts(), a);
    OwnStake(a, a.poolID);
    assert a.Facts().Keys * a.Facts().Keys == a.Facts().Keys;
  }

  lemma {:induction false} TotalUnion(f: Facts, a: set<string>, b: set<string>)
    requires a !! b && a + b <= f.Keys
    ensures Total(f, a + b) == Total(f, a) + Total(f, b)
  {
    if b == {} {
      assert a + b == a;
    } else {
      var k :| k in b;
      TotalSplit(f, a + b, k);
      TotalSplit(f, b, k);
      assert a + b - {k} == a + (b - {k});
      TotalUnion(f, a, b - {k});
    }
  }

  lemma DistinctFacts(atts: seq<Attestation>)
    requires atts != [] && Distinct(atts)
    ensures Merged(atts[..|atts| - 1]).Keys !! atts[|atts| - 1].Facts().Keys
  {
    var front, last := atts[..|atts| - 1], atts[|atts| - 1];
    forall k | k in Merged(front) ensures k !in last.Facts() {
      var i := MergedFrom(front, k);
      assert front[i] == atts[i];
      FactNames(front[i]);
      FactNames(last);
      var n :| n in {STATE, STAKE, EPOCHS} && k == Key(front[i].poolID, n);
      KeyInjective(front[i].poolID, n, last.poolID, STATE);
      KeyInjective(front[i].poolID, n, last.poolID, STAKE);
      KeyInjective(front[i].poolID, n, last.poolID, EPOCHS);
    }
  }

  lemma {:induction false} MergedFrom(atts: seq<Attestation>, k: string) returns (i: nat)
    requires k in Merged(atts)
    ensures i < |atts| && k in atts[i].Facts()
  {
    var n := |atts| - 1;
    if k in atts[n].Facts() { i := n; } else { i := MergedFrom(atts[..n], k); }
  }

  /** `total_active_stake` is the sum of the attested active amounts. */
  lemma {:induction false} TotalIsSum(atts: seq<Attestation>)
    requires Distinct(atts)
    ensures Total(Merged(atts), Merged(atts).Keys) == Amounts(atts)
  {
    if atts != [] {
      var front, last := atts[..|atts| - 1], atts[|atts| - 1];
      var f, g := Merged(front), last.Facts();
      TotalIsSum(front);
      DistinctFacts(atts);
      assert Merged(atts) == f + g && (f + g).Keys == f.Keys + g.Keys;
      TotalUnion(f + g, f.Keys, g.Keys);
      TotalSame(f + g, f, f.Keys);
      TotalSame(f + g, g, g.Keys);
      OwnTotal(last);
    }
  }

  /** The attestation states an amount. */
  predicate States(a: Attestation) {
    a.state == Active && a.stake != ""
  }

  /** The amount that the last attestation to state one for the pool states. */
  function LastStated(atts: seq<Attestation>, poolID: string): int {
    if atts == [] then 0
    else
      var n := |atts| - 1;
      if atts[n].poolID == poolID && States(atts[n]) then atts[n].Amount() else LastStated(atts[..n], poolID)
  }

  /** The amounts that a later statement for the same pool replaces. */
  function Replaced(atts: seq<Attestation>): int {
    if atts == [] then 0
    else
      var n := |atts| - 1;
      Replaced(atts[..n]) + if States(atts[n]) then LastStated(atts[..n], atts[n].poolID) else 0
  }

  lemma {:induction false} MergedStake(atts: seq<Attestation>, poolID: string)
    ensures AmountAt(Merged(atts), Key(poolID, STAKE)) == LastStated(atts, poolID)
  {
    if atts != [] {
      var n := |atts| - 1;
      MergedStake(atts[..n], poolID);
      OwnStake(atts[n], poolID);
    }
  }

  lemma OwnStake(a: Attestation, poolID: string)
    ensures Key(poolID, STAKE) in a.Facts() <==> a.poolID == poolID && States(a)
    ensures States(a) ==> a.Facts()[Key(a.poolID, STAKE)] == a.stake && HasSuffix(Key(a.poolID, STAKE), "." + STAKE)
    ensures HasSuffix(Key(poolID, STAKE), "." + STAKE)
    ensures !States(a) ==> a.Amount() == 0
  {
    KeyInjective(poolID, STAKE, a.poolID, STATE);
    KeyInjective(poolID, STAKE, a.poolID, STAKE);
    KeyInjective(poolID, STAKE, a.poolID, EPOCHS);
    KeyInjective(a.poolID, STAKE, a.poolID, EPOCHS);
  }

  /** Only the stake fact of an attestation carries an amount. */
  lemma OverlapTotal(f: Facts, a: Attestation)
    ensures Total(f, f.Keys * a.Facts().Keys) == if States(a) then AmountAt(f, Key(a.poolID, STAKE)) else 0
  {
    var g := a.Facts();
    var ks, ka, ke := Key(a.poolID, STATE), Key(a.poolID, STAKE), Key(a.poolID, EPOCHS);
    FactNames(a);
    OwnStake(a, a.poolID);
    KeyInjective(a.poolID, STATE, a.poolID, STAKE);
    KeyInjective(a.poolID, EPOCHS, a.poolID, STAKE);
    KeyInjective(a.poolID, STATE, a.poolID, EPOCHS);
    var keys := f.Keys * g.Keys;
    DropZero(f, keys, ks);
    DropZero(f, keys - {ks}, ke);
    var last := keys - {ks} - {ke};
    if ka in last {
      TotalSplit(f, last, ka);
      assert last - {ka} == {} && Total(f, {}) == 0;
    } else {
      assert last == {} && Total(f, {}) == 0;
    }
  }

  lemma DropZero(f: Facts, keys: set<string>, k: string)
    requires AmountAt(f, k) == 0
    ensures Total(f, keys) == Total(f, keys - {k})
  {
    if k in keys { TotalSplit(f, keys, k); } else { assert keys - {k} == keys; }
  }

  /** For any list, `total_active_stake` is the sum of the active amounts less those that a
      later attestation of the same pool replaces. */
  lemma {:induction false} TotalExact(atts: seq<Attestation>)
    ensures Total(Merged(atts), Merged(atts).Keys) == Amounts(atts) - Replaced(atts)
  {
    if atts != [] {
      var n := |atts| - 1;
      var f, g := Merged(atts[..n]), atts[n].Facts();
      TotalExact(atts[..n]);
      MergedTotal(f, g);
      OverlapTotal(f, atts[n]);
      MergedStake(atts[..n], atts[n].poolID);
      OwnTotal(atts[n]);
    }
  }

  lemma MergedTotal(f: Facts, g: Facts)
    ensures Total(f + g, (f + g).Keys) == Total(f, f.Keys) - Total(f, f.Keys * g.Keys) + Total(g, g.Keys)
  {
    var rest := f.Keys - g.Keys;
    assert (f + g).Keys == rest + g.Keys;
    TotalUnion(f + g, rest, g.Keys);
    TotalSame(f + g, f, rest);
    TotalSame(f + g, g, g.Keys);
    TotalUnion(f, rest, f.Keys * g.Keys);
    assert rest + f.Keys * g.Keys == f.Keys;
  }

  function Rank(s: State): nat {
    match s case NonMember => 0 case Pending => 1 case Active => 2
  }

  /** representativeState */
  function Representative(e: Evaluation): State
    requires ANY_ACTIVE in e.facts
  {
    if e.facts[ANY_ACTIVE] == "true" then Active else if e.held then Pending else NonMember
  }

  predicate IsMaximum(r: State, atts: seq<Attestation>) {
    && (forall i :: 0 <= i < |atts| ==> Rank(atts[i].state) <= Rank(r))
    && (r == NonMember || exists i :: 0 <= i < |atts| && atts[i].state == r)
  }

  /** For any list the representative state is the highest of the attested states exactly if
      an active attestation, where there is one, is also the last of some pool. */
  lemma RepresentativeIsMaxIff(atts: seq<Attestation>)
    ensures IsMaximum(Representative(Aggregate(atts)), atts) <==>
      ((exists i :: 0 <= i < |atts| && atts[i].state == Active) ==>
         exists i: nat :: LastOfPool(atts, i) && atts[i].state == Active)
  {
    AnyActiveIff(atts);
  }

  /** With distinct pools it always is. */
  lemma RepresentativeIsMax(atts: seq<Attestation>)
    requires Distinct(atts)
    ensures IsMaximum(Representative(Aggregate(atts)), atts)
  {
    RepresentativeIsMaxIff(atts);
    forall i | 0 <= i < |atts| ensures LastOfPool(atts, i) {}
  }

  // ---- Order does not matter ----

  /** With distinct pools, a fact comes from the one attestation that states it. */
  lemma {:induction false} MergedContains(atts: seq<Attestation>, i: nat, k: string)
    requires Distinct(atts) && i < |atts| && k in atts[i].Facts()
    ensures k in Merged(atts) && Merged(atts)[k] == atts[i].Facts()[k]
  {
    var n := |atts| - 1;
    if i < n {
      assert atts[..n][i] == atts[i];
      MergedContains(atts[..n], i, k);
      DistinctFacts(atts);
    }
  }

  /** The merged facts depend only on which attestations there are. */
  lemma OrderDoesNotMatter(a: seq<Attestation>, b: seq<Attestation>)
    requires Distinct(a) && Distinct(b) && forall x :: x in a <==> x in b
    ensures Merged(a) == Merged(b) && Held(a) == Held(b) && Aggregate(a) == Aggregate(b)
  {
    MergedWithin(a, b);
    MergedWithin(b, a);
    HeldWithin(a, b);
    HeldWithin(b, a);
  }

  lemma MergedWithin(a: seq<Attestation>, b: seq<Attestation>)
    requires Distinct(a) && Distinct(b) && forall x :: x in a ==> x in b
    ensures forall k :: k in Merged(a) ==> k in Merged(b) && Merged(b)[k] == Merged(a)[k]
  {
    forall k | k in Merged(a) ensures k in Merged(b) && Merged(b)[k] == Merged(a)[k] {
      var i := MergedFrom(a, k);
      assert a[i] in b;
      var j :| 0 <= j < |b| && b[j] == a[i];
      MergedContains(a, i, k);
      MergedContains(b, j, k);
    }
  }

  lemma HeldWithin(a: seq<Attestation>, b: seq<Attestation>)
    requires forall x :: x in a ==> x in b
    ensures Held(a) ==> Held(b)
  {
    if i :| 0 <= i < |a| && a[i].state != NonMember {
      assert a[i] in b;
    }
  }

  // ---- From snapshots to the aggregate ----

  function AttestAll(lib: Library, pools: seq<string>, snaps: seq<Option<Snapshot>>): (atts: seq<Attestation>)
    requires |pools| == |snaps|
    ensures |atts| == |pools|
  {
    seq(|pools|, i requires 0 <= i < |pools| => Attest(lib, pools[i], snaps[i]))
  }

  /** The snapshot names `hash`, in whatever spelling, as the pool with active stake. */
  predicate ActiveWith(lib: Library, snap: Option<Snapshot>, hash: seq<Byte>) {
    snap.Some? && PoolId.Names(lib, snap.value.activePool, hash)
  }

  /** For attestors of different pools, each with the snapshot of its own network: the
      aggregate says active exactly if some snapshot's active pool is the one configured
      beside it. */
  lemma AnyActiveMeans(lib: Library, pools: seq<string>, hashes: seq<seq<Byte>>, snaps: seq<Option<Snapshot>>)
    requires Sane(lib) && |pools| == |hashes| == |snaps|
    requires forall i, j :: 0 <= i < j < |pools| ==> pools[i] != pools[j]
    requires forall i :: 0 <= i < |pools| ==> PoolId.Names(lib, pools[i], hashes[i])
    ensures AnyStateActive(Merged(AttestAll(lib, pools, snaps))) <==>
      exists i :: 0 <= i < |pools| && ActiveWith(lib, snaps[i], hashes[i])
  {
    hide Merged;
    var atts := AttestAll(lib, pools, snaps);
    AnyActiveIff(atts);
    forall i | 0 <= i < |pools| ensures atts[i].state == Active <==> ActiveWith(lib, snaps[i], hashes[i]) {
      ActiveState(lib, pools[i], hashes[i], snaps[i]);
    }
    forall i | 0 <= i < |pools| ensures LastOfPool(atts, i) {}
  }

  lemma ActiveState(lib: Library, pool: string, hash: seq<Byte>, snap: Option<Snapshot>)
    requires Sane(lib) && PoolId.Names(lib, pool, hash)
    ensures DeriveState(lib, snap, pool) == Active <==> ActiveWith(lib, snap, hash)
  {
    if snap.Some? { DeriveStateExact(lib, snap.value, pool, hash); }
  }

  /** Why the pools must differ: one pool configured on two networks.  The state of the
      second attestation replaces that of the first, its amount does not. */
  lemma SamePoolTwice(pool: string, stake: string)
    requires stake != ""
    ensures var atts := [Attestation(pool, Active, stake, 0), Attestation(pool, NonMember, "", 0)];
      && Held(atts) && !AnyStateActive(Merged(atts))
      && Key(pool, STAKE) in Merged(atts) && Merged(atts)[Key(pool, STAKE)] == stake
      && Representative(Aggregate(atts)) == Pending
  {
    var atts := [Attestation(pool, Active, stake, 0), Attestation(pool, NonMember, "", 0)];
    AnyActiveIff(atts);
    assert !LastOfPool(atts, 0) by { assert atts[1].poolID == atts[0].poolID; }
    assert atts[..1] == [atts[0]] && atts[..1][..0] == [];
    KeyInjective(pool, STATE, pool, STAKE);
    assert atts[0].state != NonMember;
  }
}
