/** From chain snapshots to facts, aggregate and tier rules (poolstake.go, set.go, oauth.go). */
module PoolFacts {
  import opened Wrappers
  import opened Names
  import opened Membership
  import opened Ascii
  import opened ConvertBits
  import opened Attestors
  import Decimal
  import PoolId
  import RuleMeaning
  import Tier
  import TierEditor

  /** The configured pools are different, and each name in the list names the pool beside it. */
  ghost predicate Configured(lib: Library, pools: seq<string>, hashes: seq<seq<Byte>>, snaps: seq<Option<Snapshot>>) {
    && Sane(lib) && |pools| == |hashes| == |snaps|
    && (forall i, j :: 0 <= i < j < |pools| ==> pools[i] != pools[j])
    && (forall i :: 0 <= i < |pools| ==> PoolId.Names(lib, pools[i], hashes[i]))
  }

  /** The state that a snapshot gives its holder with a pool. */
  function StateWith(lib: Library, snap: Option<Snapshot>, hash: seq<Byte>): string {
    if ActiveWith(lib, snap, hash) then "active"
    else if snap.Some? && snap.value.accountStatus == "registered" && PoolId.Names(lib, snap.value.delegatedPool, hash)
    then "pending"
    else "none"
  }

  /** The names under which facts about a pool are published. */
  lemma FactKeys(p: string)
    ensures Key(p, STATE) == "pool:" + p + ".state"
    ensures Key(p, STAKE) == "pool:" + p + ".active_stake_lovelace"
    ensures Key(p, EPOCHS) == "pool:" + p + ".epochs_active"
  {
    var base := "pool:" + p;
    assert base + "." + STATE == base + ".state";
    assert base + "." + STAKE == base + ".active_stake_lovelace";
    assert base + "." + EPOCHS == base + ".epochs_active";
  }

  lemma Attested(lib: Library, pool: string, hash: seq<Byte>, snap: Option<Snapshot>)
    requires Sane(lib) && PoolId.Names(lib, pool, hash)
    ensures var a := Attest(lib, pool, snap);
      && a.poolID == pool && StateText(a.state) == StateWith(lib, snap, hash)
      && (a.state == Active <==> ActiveWith(lib, snap, hash))
      && (a.state == NonMember <==> StateWith(lib, snap, hash) == "none")
      && (ActiveWith(lib, snap, hash) ==> a.stake == snap.value.activeStake && a.epochs == snap.value.epochsDelegated)
  {
    hide PoolId.Names, PoolId.Canonical;
    if snap.Some? { DeriveStateExact(lib, snap.value, pool, hash); }
  }

  /** The facts one attestor publishes about its pool. */
  lemma OwnFacts(lib: Library, pool: string, hash: seq<Byte>, snap: Option<Snapshot>)
    requires Sane(lib) && PoolId.Names(lib, pool, hash)
    ensures var f, active := Attest(lib, pool, snap).Facts(), ActiveWith(lib, snap, hash);
      && Key(pool, STATE) in f && f[Key(pool, STATE)] == StateWith(lib, snap, hash)
      && (Key(pool, STAKE) in f <==> active && snap.value.activeStake != "")
      && (Key(pool, STAKE) in f ==> f[Key(pool, STAKE)] == snap.value.activeStake)
      && (Key(pool, EPOCHS) in f <==> active && snap.value.epochsDelegated > 0)
      && (Key(pool, EPOCHS) in f ==> f[Key(pool, EPOCHS)] == Decimal.Print(snap.value.epochsDelegated))
  {
    hide PoolId.Names, PoolId.Canonical, DeriveState;
    Attested(lib, pool, hash, snap);
    KeyInjective(pool, STATE, pool, STAKE);
    KeyInjective(pool, STATE, pool, EPOCHS);
    KeyInjective(pool, STAKE, pool, EPOCHS);
  }

  lemma AttestAllDistinct(lib: Library, pools: seq<string>, hashes: seq<seq<Byte>>, snaps: seq<Option<Snapshot>>)
    requires Configured(lib, pools, hashes, snaps)
    ensures Distinct(AttestAll(lib, pools, snaps))
  {
    hide DeriveState, PoolId.Names;
  }

  /** What the merged facts say about each configured pool is what its own snapshot says, and
      they say it in exactly these cases. */
  lemma FactsMean(lib: Library, pools: seq<string>, hashes: seq<seq<Byte>>, snaps: seq<Option<Snapshot>>, i: nat)
    requires Configured(lib, pools, hashes, snaps) && i < |pools|
    ensures var f, active := Merged(AttestAll(lib, pools, snaps)), ActiveWith(lib, snaps[i], hashes[i]);
      && Key(pools[i], STATE) in f && f[Key(pools[i], STATE)] == StateWith(lib, snaps[i], hashes[i])
      && (Key(pools[i], STAKE) in f <==> active && snaps[i].value.activeStake != "")
      && (Key(pools[i], STAKE) in f ==> f[Key(pools[i], STAKE)] == snaps[i].value.activeStake)
      && (Key(pools[i], EPOCHS) in f <==> active && snaps[i].value.epochsDelegated > 0)
      && (Key(pools[i], EPOCHS) in f ==> f[Key(pools[i], EPOCHS)] == Decimal.Print(snaps[i].value.epochsDelegated))
  {
    hide Merged, PoolId.Names, DeriveState, Key;
    var atts := AttestAll(lib, pools, snaps);
    AttestAllDistinct(lib, pools, hashes, snaps);
    OwnFacts(lib, pools[i], hashes[i], snaps[i]);
    FromOwn(atts, i, STATE);
    FromOwn(atts, i, STAKE);
    FromOwn(atts, i, EPOCHS);
  }

  lemma OwnPool(a: Attestation, p: string, name: string)
    requires name in {STATE, STAKE, EPOCHS} && Key(p, name) in a.Facts()
    ensures a.poolID == p
  {
    hide Key, Attestation.Facts;
    FactNames(a);
    KeyInjective(p, name, a.poolID, STATE);
    KeyInjective(p, name, a.poolID, STAKE);
    KeyInjective(p, name, a.poolID, EPOCHS);
  }

  lemma FromOwn(atts: seq<Attestation>, i: nat, name: string)
    requires Distinct(atts) && i < |atts| && name in {STATE, STAKE, EPOCHS}
    ensures var f, g, k := Merged(atts), atts[i].Facts(), Key(atts[i].poolID, name);
      (k in f <==> k in g) && (k in g ==> f[k] == g[k])
  {
    hide Merged, Key, Attestation.Facts;
    var k := Key(atts[i].poolID, name);
    if k in Merged(atts) {
      var j := MergedFrom(atts, k);
      OwnPool(atts[j], atts[i].poolID, name);
      assert i == j;
    }
    if k in atts[i].Facts() { MergedContains(atts, i, k); }
  }

  /** No facts are published about other pools, and none under other names. */
  lemma NoOtherFacts(lib: Library, pools: seq<string>, snaps: seq<Option<Snapshot>>, k: string)
    requires |pools| == |snaps| && k in Merged(AttestAll(lib, pools, snaps))
    ensures exists i :: 0 <= i < |pools| && k in {Key(pools[i], STATE), Key(pools[i], STAKE), Key(pools[i], EPOCHS)}
  {
    var i := MergedFrom(AttestAll(lib, pools, snaps), k);
    FactNames(AttestAll(lib, pools, snaps)[i]);
  }

  // ---- The aggregate ----

  /** The active stake that the snapshots credit to the configured pools. */
  function StakeSum(lib: Library, hashes: seq<seq<Byte>>, snaps: seq<Option<Snapshot>>): int
    requires |hashes| == |snaps|
  {
    if snaps == [] then 0
    else
      var n := |snaps| - 1;
      StakeSum(lib, hashes[..n], snaps[..n])
      + if ActiveWith(lib, snaps[n], hashes[n]) then Number(snaps[n].value.activeStake) else 0
  }

  lemma {:induction false} AmountsMean(lib: Library, pools: seq<string>, hashes: seq<seq<Byte>>, snaps: seq<Option<Snapshot>>)
    requires Configured(lib, pools, hashes, snaps)
    ensures Amounts(AttestAll(lib, pools, snaps)) == StakeSum(lib, hashes, snaps)
  {
    hide PoolId.Names, DeriveState;
    if pools != [] {
      var n := |pools| - 1;
      assert AttestAll(lib, pools, snaps)[..n] == AttestAll(lib, pools[..n], snaps[..n]);
      AmountsMean(lib, pools[..n], hashes[..n], snaps[..n]);
      Attested(lib, pools[n], hashes[n], snaps[n]);
    }
  }

  /** The three aggregate facts, by name: held if some snapshot makes its holder active or
      pending, active if some snapshot makes its holder active, and the sum of the active
      stake with the configured pools. */
  lemma AggregateMeans(lib: Library, pools: seq<string>, hashes: seq<seq<Byte>>, snaps: seq<Option<Snapshot>>)
    requires Configured(lib, pools, hashes, snaps)
    ensures var atts := AttestAll(lib, pools, snaps);
      Total(Merged(atts), Merged(atts).Keys) == StakeSum(lib, hashes, snaps)
    ensures var f := Aggregate(AttestAll(lib, pools, snaps)).facts;
      && "any_held" in f && "any_active" in f && "total_active_stake" in f
      && f["any_held"] == (if exists i :: 0 <= i < |snaps| && StateWith(lib, snaps[i], hashes[i]) != "none" then "true" else "false")
      && f["any_active"] == (if exists i :: 0 <= i < |snaps| && ActiveWith(lib, snaps[i], hashes[i]) then "true" else "false")
      && f["total_active_stake"] == Decimal.PrintInt(StakeSum(lib, hashes, snaps))
  {
    hide PoolId.Names, DeriveState, Merged, StateWith, ActiveWith;
    var atts := AttestAll(lib, pools, snaps);
    AttestAllDistinct(lib, pools, hashes, snaps);
    TotalIsSum(atts);
    AmountsMean(lib, pools, hashes, snaps);
    AnyActiveMeans(lib, pools, hashes, snaps);
    forall i | 0 <= i < |snaps| ensures atts[i].state != NonMember <==> StateWith(lib, snaps[i], hashes[i]) != "none" {
      Attested(lib, pools[i], hashes[i], snaps[i]);
    }
    assert ANY_HELD == "any_held" && ANY_ACTIVE == "any_active" && TOTAL == "total_active_stake";
    assert |ANY_HELD| == 8 && |ANY_ACTIVE| == 10 && |TOTAL| == 18;
  }

  /** The members are those that the snapshots make active or pending, and the best state of
      all is reported. */
  lemma RepresentativeMeans(lib: Library, pools: seq<string>, hashes: seq<seq<Byte>>, snaps: seq<Option<Snapshot>>)
    requires Configured(lib, pools, hashes, snaps)
    ensures StateText(Representative(Aggregate(AttestAll(lib, pools, snaps)))) ==
      if exists i :: 0 <= i < |snaps| && ActiveWith(lib, snaps[i], hashes[i]) then "active"
      else if exists i :: 0 <= i < |snaps| && StateWith(lib, snaps[i], hashes[i]) != "none" then "pending"
      else "none"
  {
    hide PoolId.Names, DeriveState, Merged, StateWith, ActiveWith;
    var atts := AttestAll(lib, pools, snaps);
    AnyActiveMeans(lib, pools, hashes, snaps);
    forall i | 0 <= i < |snaps| ensures atts[i].state != NonMember <==> StateWith(lib, snaps[i], hashes[i]) != "none" {
      Attested(lib, pools[i], hashes[i], snaps[i]);
    }
  }

  // ---- Rules over it ----

  /** From the chain to the tier: a ladder over the total stake gives the tier of the highest
      threshold that the stake with the configured pools reaches. */
  lemma StakeLadder(lib: Library, pools: seq<string>, hashes: seq<seq<Byte>>, snaps: seq<Option<Snapshot>>,
                    tiers: seq<string>, floors: seq<int>, i: nat)
    requires Configured(lib, pools, hashes, snaps) && |tiers| == |floors| && RuleMeaning.Falling(floors)
    requires var stake := StakeSum(lib, hashes, snaps);
      i <= |floors| && (i < |floors| ==> floors[i] <= stake) && (i > 0 ==> stake < floors[i - 1])
    ensures var rules := RuleMeaning.Ladder("total_active_stake", tiers, floors);
      Tier.EvalRules(rules, Aggregate(AttestAll(lib, pools, snaps)).facts) == if i < |floors| then tiers[i] else ""
  {
    hide Aggregate, StakeSum, PoolId.Names;
    AggregateMeans(lib, pools, hashes, snaps);
    RuleMeaning.LadderTier("total_active_stake", tiers, floors,
                           Aggregate(AttestAll(lib, pools, snaps)).facts, StakeSum(lib, hashes, snaps), i);
  }

  lemma TypeBySuffix(k: string)
    requires k != "" && k[0] == 'p'
    ensures TierEditor.FactTypeOf(k) ==
      if HasSuffix(k, ".active_stake_lovelace") then TierEditor.AdaFact
      else if HasSuffix(k, ".state") then TierEditor.StateFact
      else if HasSuffix(k, ".epochs_active") || HasSuffix(k, ".count") then TierEditor.NumberFact
      else TierEditor.TextFact
  {
    hide HasSuffix;
  }

  lemma NamedBy(base: string, n: string, m: string, suffix: string)
    requires DotFree(n) && DotFree(m) && suffix == "." + m
    ensures HasSuffix(base + "." + n, suffix) <==> n == m
  {
    SuffixIff(base, n, m);
  }

  lemma PlainNames()
    ensures DotFree("active_stake_lovelace") && "." + "active_stake_lovelace" == ".active_stake_lovelace"
    ensures DotFree("state") && "." + "state" == ".state"
    ensures DotFree("epochs_active") && "." + "epochs_active" == ".epochs_active"
    ensures DotFree("count") && "." + "count" == ".count"
  {}

  /** The editor tells the type of a pool fact by its name alone. */
  lemma PoolFactType(base: string, n: string)
    requires base != "" && base[0] == 'p' && DotFree(n)
    ensures TierEditor.FactTypeOf(base + "." + n) ==
      if n == "active_stake_lovelace" then TierEditor.AdaFact
      else if n == "state" then TierEditor.StateFact
      else if n == "epochs_active" || n == "count" then TierEditor.NumberFact
      else TierEditor.TextFact
  {
    hide HasSuffix, DotFree, TierEditor.FactTypeOf;
    PlainNames();
    TypeBySuffix(base + "." + n);
    NamedBy(base, n, "active_stake_lovelace", ".active_stake_lovelace");
    NamedBy(base, n, "state", ".state");
    NamedBy(base, n, "epochs_active", ".epochs_active");
    NamedBy(base, n, "count", ".count");
  }

  /** The editor knows the published facts for what they are. */
  lemma EditorKnowsFacts(p: string)
    ensures TierEditor.FactTypeOf("any_active") == TierEditor.FactTypeOf("any_held") == TierEditor.BoolFact
    ensures TierEditor.FactTypeOf("total_active_stake") == TierEditor.AdaFact
    ensures TierEditor.FactTypeOf(Key(p, STAKE)) == TierEditor.AdaFact
    ensures TierEditor.FactTypeOf(Key(p, STATE)) == TierEditor.StateFact
    ensures TierEditor.FactTypeOf(Key(p, EPOCHS)) == TierEditor.NumberFact
  {
    hide TierEditor.FactTypeOf;
    AggregateFactTypes();
    PoolFactType("pool:" + p, STAKE);
    PoolFactType("pool:" + p, STATE);
    PoolFactType("pool:" + p, EPOCHS);
    assert STAKE != STATE && |STAKE| == 21 && |EPOCHS| == 13;
  }

  lemma AggregateFactTypes()
    ensures TierEditor.FactTypeOf("any_active") == TierEditor.FactTypeOf("any_held") == TierEditor.BoolFact
    ensures TierEditor.FactTypeOf("total_active_stake") == TierEditor.AdaFact
  {}
}
