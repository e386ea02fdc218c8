/** Active-stake facts from the stake history of an account (koios.go), and the date
    attested for them (poolstake.go). */
module StakeHistory {
  import opened Wrappers
  import opened Epochs
  import opened Membership
  import opened Ascii
  import opened ConvertBits
  import PoolId

  datatype Row = Row(pool: string, epoch: nat, stake: string)

  /** The first row of highest epoch. */
  function Latest(hist: seq<Row>): (r: Option<Row>)
    ensures r.None? <==> hist == []
    ensures r.Some? ==> r.value in hist && forall h :: h in hist ==> h.epoch <= r.value.epoch
  {
    if hist == [] then None
    else
      var front := Latest(hist[..|hist| - 1]);
      var h := hist[|hist| - 1];
      if front.None? || h.epoch > front.value.epoch then Some(h) else front
  }

  method LatestStakeEntry(hist: seq<Row>) returns (latest: Option<Row>)
    ensures latest == Latest(hist)
  {
    latest := None;
    for i := 0 to |hist|
      invariant latest == Latest(hist[..i])
    {
      assert hist[..i + 1][..i] == hist[..i];
      if latest.None? || hist[i].epoch > latest.value.epoch {
        latest := Some(hist[i]);
      }
    }
    assert hist[..|hist|] == hist;
  }

  /** The pool recorded for each epoch, a later row replacing an earlier one. */
  function ByEpoch(hist: seq<Row>): map<nat, string> {
    if hist == [] then map[]
    else ByEpoch(hist[..|hist| - 1])[hist[|hist| - 1].epoch := hist[|hist| - 1].pool]
  }

  /** Go map access: an absent epoch reads as the empty pool. */
  function PoolAt(m: map<nat, string>, e: nat): string {
    if e in m then m[e] else ""
  }

  /** Epochs in a row with `pool`, from `e` downwards. */
  function RunFrom(m: map<nat, string>, e: nat, pool: string): nat {
    if PoolAt(m, e) != pool then 0
    else if e == 0 then 1
    else 1 + RunFrom(m, e - 1, pool)
  }

  function Trailing(hist: seq<Row>, pool: string): nat {
    RunFrom(ByEpoch(hist), if hist == [] then 0 else Latest(hist).value.epoch, pool)
  }

  method TrailingActiveEpochs(hist: seq<Row>, pool: string) returns (count: nat)
    ensures count == Trailing(hist, pool)
  {
    hide RunFrom;
    var byEpoch: map<nat, string> := map[];
    var top, have := 0, false;
    for i := 0 to |hist|
      invariant byEpoch == ByEpoch(hist[..i])
      invariant have <==> i > 0
      invariant top == if i == 0 then 0 else Latest(hist[..i]).value.epoch
    {
      assert hist[..i + 1][..i] == hist[..i];
      byEpoch := byEpoch[hist[i].epoch := hist[i].pool];
      if !have || hist[i].epoch > top {
        top, have := hist[i].epoch, true;
      }
    }
    assert hist[..|hist|] == hist;
    count := CountDown(byEpoch, top, pool);
  }

  /** The second loop: down from the latest epoch while the pool stays the same. */
  method CountDown(byEpoch: map<nat, string>, top: nat, pool: string) returns (count: nat)
    ensures count == RunFrom(byEpoch, top, pool)
  {
    count := 0;
    var e: nat := top;
    while true
      invariant e <= top
      invariant count + RunFrom(byEpoch, e, pool) == RunFrom(byEpoch, top, pool)
      decreases e
    {
      if PoolAt(byEpoch, e) != pool {
        break;
      }
      count := count + 1;
      if e == 0 {
        break;
      }
      e := e - 1;
    }
  }

  datatype AccountInfo = AccountInfo(status: string, delegatedPool: string, rewards: string)

  /** koiosToSnapshot */
  function ToSnapshot(epoch: nat, info: AccountInfo, hist: seq<Row>): Snapshot {
    var live := if info.status != "registered" then "" else info.delegatedPool;
    match Latest(hist)
    case None => Snapshot(epoch, live, "", "", info.rewards, 0, info.status)
    case Some(h) => Snapshot(epoch, live, h.pool, h.stake, info.rewards, Trailing(hist, h.pool), info.status)
  }

  // ---- What a well-formed history determines ----

  ghost predicate WellFormed(hist: seq<Row>) {
    && (forall i, j :: 0 <= i < j < |hist| ==> hist[i].epoch != hist[j].epoch)
    && (forall h :: h in hist ==> h.pool != "")
  }

  lemma {:induction false} ByEpochIsRows(hist: seq<Row>)
    requires WellFormed(hist)
    ensures forall h :: h in hist ==> h.epoch in ByEpoch(hist) && ByEpoch(hist)[h.epoch] == h.pool
    ensures forall e :: e in ByEpoch(hist) ==> exists h :: h in hist && h.epoch == e
  {
    if hist != [] {
      var front, last := hist[..|hist| - 1], hist[|hist| - 1];
      assert hist == front + [last];
      ByEpochIsRows(front);
      forall h | h in front ensures h.epoch != last.epoch {
        var i :| 0 <= i < |front| && front[i] == h;
        assert hist[i] == h;
      }
      forall e | e in ByEpoch(hist) ensures exists h :: h in hist && h.epoch == e {
        if e == last.epoch {
          assert last in hist;
        } else {
          var h :| h in front && h.epoch == e;
          assert h in hist;
        }
      }
    }
  }

  ghost predicate SameRows(a: seq<Row>, b: seq<Row>) {
    forall h :: h in a <==> h in b
  }

  lemma EpochNames(hist: seq<Row>, g: Row, h: Row)
    requires WellFormed(hist) && g in hist && h in hist && g.epoch == h.epoch
    ensures g == h
  {}

  lemma SameMap(a: seq<Row>, b: seq<Row>)
    requires WellFormed(a) && WellFormed(b) && SameRows(a, b)
    ensures ByEpoch(a) == ByEpoch(b)
  {
    ByEpochIsRows(a);
    ByEpochIsRows(b);
    forall e | e in ByEpoch(a) ensures e in ByEpoch(b) && ByEpoch(a)[e] == ByEpoch(b)[e] {
      var h :| h in a && h.epoch == e;
      assert h in b;
    }
    forall e | e in ByEpoch(b) ensures e in ByEpoch(a) {
      var h :| h in b && h.epoch == e;
      assert h in a;
    }
  }

  /** The facts do not depend on the order in which the rows arrive. */
  lemma OrderIrrelevant(epoch: nat, info: AccountInfo, a: seq<Row>, b: seq<Row>)
    requires WellFormed(a) && WellFormed(b) && SameRows(a, b)
    ensures ToSnapshot(epoch, info, a) == ToSnapshot(epoch, info, b)
  {
    if a != [] || b != [] {
      var l := if a != [] then Latest(a).value else Latest(b).value;
      assert l in a && l in b;
      var la, lb := Latest(a).value, Latest(b).value;
      EpochNames(a, la, lb);
      SameMap(a, b);
    }
  }

  lemma {:induction false} RunIsMaximal(m: map<nat, string>, e: nat, pool: string)
    requires pool != ""
    ensures var n := RunFrom(m, e, pool);
      && n <= e + 1
      && (forall x: nat :: e - n < x <= e ==> PoolAt(m, x) == pool)
      && (n <= e ==> PoolAt(m, e - n) != pool)
  {
    if PoolAt(m, e) == pool && e != 0 {
      RunIsMaximal(m, e - 1, pool);
    }
  }

  ghost predicate ActiveIn(hist: seq<Row>, e: int, pool: string) {
    exists h :: h in hist && h.epoch == e && h.pool == pool
  }

  /** The run length counts exactly the epochs, ending with the latest, in which the
      account was active with its latest pool without a gap. */
  lemma DelegatedIsMaximalRun(epoch: nat, info: AccountInfo, hist: seq<Row>)
    requires WellFormed(hist) && hist != []
    ensures var s, last := ToSnapshot(epoch, info, hist), Latest(hist).value;
      && s.activePool == last.pool && s.activeStake == last.stake
      && 1 <= s.epochsDelegated <= last.epoch + 1
      && (forall x :: last.epoch - s.epochsDelegated < x <= last.epoch ==> ActiveIn(hist, x, last.pool))
      && !ActiveIn(hist, last.epoch - s.epochsDelegated, last.pool)
  {
    hide ByEpoch, RunFrom, PoolAt, Latest;
    var last, m := Latest(hist).value, ByEpoch(hist);
    var n := RunFrom(m, last.epoch, last.pool);
    RunIsMaximal(m, last.epoch, last.pool);
    ActiveIffMapped(hist, last.epoch, last.pool);
    forall x | last.epoch - n < x <= last.epoch ensures ActiveIn(hist, x, last.pool) {
      ActiveIffMapped(hist, x, last.pool);
    }
    if n <= last.epoch { ActiveIffMapped(hist, last.epoch - n, last.pool); }
  }

  lemma ActiveIffMapped(hist: seq<Row>, e: nat, pool: string)
    requires WellFormed(hist) && pool != ""
    ensures ActiveIn(hist, e, pool) <==> PoolAt(ByEpoch(hist), e) == pool
  {
    ByEpochIsRows(hist);
    if e in ByEpoch(hist) {
      var h :| h in hist && h.epoch == e;
    }
  }

  /** The other facts: the live delegation of a registered account only, and without a
      history no active stake. */
  lemma SnapshotFields(epoch: nat, info: AccountInfo, hist: seq<Row>)
    ensures var s := ToSnapshot(epoch, info, hist);
      && s.epoch == epoch && s.rewards == info.rewards && s.accountStatus == info.status
      && s.delegatedPool == (if info.status == "registered" then info.delegatedPool else "")
      && (hist == [] ==> s.activePool == "" && s.activeStake == "" && s.epochsDelegated == 0)
  {}

  /** From the rows to the state: active with the pool of the latest row, in whatever order the
      rows arrive and wherever the account delegates now; pending only with the pool that a
      registered account delegates to. */
  lemma StateFromChain(lib: Library, epoch: nat, info: AccountInfo, hist: seq<Row>, i: nat, poolID: string, hash: seq<Byte>)
    requires Sane(lib) && PoolId.Names(lib, poolID, hash)
    requires i < |hist| && forall k :: 0 <= k < |hist| && k != i ==> hist[k].epoch < hist[i].epoch
    ensures DeriveState(lib, Some(ToSnapshot(epoch, info, hist)), poolID) ==
      if PoolId.Names(lib, hist[i].pool, hash) then Active
      else if info.status == "registered" && PoolId.Names(lib, info.delegatedPool, hash) then Pending
      else NonMember
  {
    hide PoolId.Names, DeriveState, Latest, Trailing;
    assert hist[i] in hist;
    assert Latest(hist).value == hist[i];
    DeriveStateExact(lib, ToSnapshot(epoch, info, hist), poolID, hash);
  }

  /** Without a history nobody is active. */
  lemma StateWithoutHistory(lib: Library, epoch: nat, info: AccountInfo, poolID: string, hash: seq<Byte>)
    requires Sane(lib) && PoolId.Names(lib, poolID, hash)
    ensures DeriveState(lib, Some(ToSnapshot(epoch, info, [])), poolID) ==
      if info.status == "registered" && PoolId.Names(lib, info.delegatedPool, hash) then Pending else NonMember
  {
    DeriveStateExact(lib, ToSnapshot(epoch, info, []), poolID, hash);
    if PoolId.Names(lib, "", hash) { NameNotBlank(lib, "", hash); }
  }

  /** Where epochs repeat: of the rows of highest epoch the first is taken ... */
  lemma {:induction false} LatestIsFirst(hist: seq<Row>, i: nat)
    requires i < |hist| && forall k :: 0 <= k < |hist| ==> hist[k].epoch <= hist[i].epoch
    requires forall k :: 0 <= k < i ==> hist[k].epoch != hist[i].epoch
    ensures Latest(hist) == Some(hist[i])
  {
    var n := |hist| - 1;
    if i < n {
      LatestIsFirst(hist[..n], i);
    } else if n > 0 {
      assert Latest(hist[..n]).value in hist[..n];
    }
  }

  /** ... and for the run the last row of each epoch counts. */
  lemma {:induction false} LastRowCounts(hist: seq<Row>, i: nat)
    requires i < |hist| && forall k :: i < k < |hist| ==> hist[k].epoch != hist[i].epoch
    ensures PoolAt(ByEpoch(hist), hist[i].epoch) == hist[i].pool
  {
    if i < |hist| - 1 { LastRowCounts(hist[..|hist| - 1], i); }
  }

  // ---- member_since ----

  /** memberSince: absent when the network is unknown or there is no active run. */
  function MemberSince(network: string, s: Snapshot): Option<int> {
    if s.epochsDelegated <= 0 then None
    else EpochStart(network, Uint64(s.epoch - s.epochsDelegated + 1))
  }

  /** No date is attested without an active run, or on a network without a clock. */
  lemma NoRunNoDate(network: string, s: Snapshot)
    requires s.epochsDelegated <= 0 || network !in {"mainnet", "preprod", "preview"}
    ensures MemberSince(network, s) == None
  {}

  /** The attested date is the start of the first epoch of the run exactly when the
      snapshot epoch is the epoch of the latest history row. */
  lemma MemberSinceIff(network: string, epoch: nat, info: AccountInfo, hist: seq<Row>)
    requires WellFormed(hist) && hist != []
    requires InRange(network, epoch) && InRange(network, Latest(hist).value.epoch)
    ensures var s, last := ToSnapshot(epoch, info, hist), Latest(hist).value.epoch;
      MemberSince(network, s) == EpochStart(network, Uint64(last - s.epochsDelegated + 1)) <==> epoch == last
  {
    var s, last := ToSnapshot(epoch, info, hist), Latest(hist).value.epoch;
    DelegatedIsMaximalRun(epoch, info, hist);
    SameStartIff(network, epoch, last, s.epochsDelegated);
  }

  lemma SameStartIff(network: string, epoch: nat, last: nat, n: int)
    requires InRange(network, epoch) && InRange(network, last) && 1 <= n <= last + 1
    ensures EpochStart(network, Uint64(epoch - n + 1)) == EpochStart(network, Uint64(last - n + 1)) <==> epoch == last
  {
    RunInRange(network, epoch, last, n);
    EpochStartValue(network, epoch - n + 1);
    EpochStartValue(network, last - n + 1);
    var p := ParamsOf(network).value;
    assert p.length == 432000 || p.length == 86400;
  }

  lemma RunInRange(network: string, epoch: nat, last: nat, n: int)
    requires InRange(network, epoch) && InRange(network, last) && 1 <= n <= last + 1
    ensures InRange(network, epoch - n + 1) && InRange(network, last - n + 1)
  {
    var p := ParamsOf(network).value;
    assert p.length == 432000 || p.length == 86400;
  }
}
