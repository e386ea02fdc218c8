/** The active-membership cache in front of the chain source (cachedsource.go). */
module MembershipCache {
  import opened Wrappers
  import opened Ascii
  import opened Epochs
  import opened Membership
  import PoolId

  datatype CacheRow = CacheRow(
    epoch: int, pool: Option<string>, stake: Option<string>, rewards: Option<string>, epochsActive: int)

  function OrNone(s: string): Option<string> {
    if s == "" then None else Some(s)
  }

  function OrEmpty(p: Option<string>): string {
    match p case None => "" case Some(s) => s
  }

  /** snapshotToCache */
  function ToRow(snap: Snapshot, epoch: int): CacheRow {
    CacheRow(epoch, OrNone(snap.activePool), OrNone(snap.activeStake), OrNone(snap.rewards), snap.epochsDelegated)
  }

  /** cachedToSnapshot: a row means active with its pool, so both delegations are that pool. */
  function FromRow(row: CacheRow, epoch: nat): Snapshot {
    var pool := OrEmpty(row.pool);
    Snapshot(epoch, pool, pool, OrEmpty(row.stake), OrEmpty(row.rewards), row.epochsActive, "registered")
  }

  predicate Hits(row: Option<CacheRow>, epoch: Option<nat>) {
    row.Some? && epoch.Some? && row.value.epoch == epoch.value
  }

  /** What a lookup that reached the origin leaves in the cache. */
  function Stored(row: Option<CacheRow>, epoch: Option<nat>, snap: Snapshot, writeOk: bool): Option<CacheRow> {
    if !writeOk then row
    else if snap.activePool != "" then Some(ToRow(snap, if epoch.Some? then epoch.value else snap.epoch))
    else None
  }

  class CachedSource {
    const network: string
    var rows: map<string, CacheRow>

    constructor (network: string)
      ensures this.network == network && rows == map[]
    {
      this.network := network;
      rows := map[];
    }

    function Row(credential: string): Option<CacheRow>
      reads this
    {
      if credential in rows then Some(rows[credential]) else None
    }

    /** `readable`: the cache read succeeds; `origin`: what the shared fetch returned,
        whether this lookup started it or joined it, absent on error. */
    method Snapshot(credential: string, now: int, readable: bool, origin: Option<Snapshot>, writeOk: bool)
      returns (r: Option<Snapshot>)
      modifies this
      ensures var epoch := CurrentEpoch(network, now);
        if readable && Hits(old(Row(credential)), epoch) then
          rows == old(rows) && r == Some(FromRow(old(rows)[credential], epoch.value))
        else
          && r == origin
          && Row(credential) == (if origin.None? then old(Row(credential))
                                 else Stored(old(Row(credential)), epoch, origin.value, writeOk))
      ensures forall c :: c != credential ==> Row(c) == old(Row(c))
    {
      var epoch := CurrentEpoch(network, now);
      if epoch.Some? && readable && credential in rows && rows[credential].epoch == epoch.value {
        return Some(FromRow(rows[credential], epoch.value));
      }
      if origin.None? {
        return None;
      }
      var snap := origin.value;
      if snap.activePool != "" {
        var stamp := if epoch.Some? then epoch.value else snap.epoch;
        if writeOk {
          rows := rows[credential := ToRow(snap, stamp)];
        }
      } else if writeOk {
        rows := rows - {credential};
      }
      return Some(snap);
    }
  }

  /** The epoch-stable facts. */
  datatype ActiveFacts = ActiveFacts(pool: string, stake: string, run: int)

  function FactsOf(s: Snapshot): ActiveFacts {
    ActiveFacts(s.activePool, s.activeStake, s.epochsDelegated)
  }

  /** On a network without an epoch clock nothing is ever served from the cache. */
  lemma UnknownNetworkNeverHits(network: string, row: Option<CacheRow>, clock: int)
    requires ParamsOf(network).None?
    ensures !Hits(row, CurrentEpoch(network, clock))
  {}

  // ---- What a hit does to membership ----

  /** Take any live answer with the same epoch-stable facts as the one a row was stored from.
      The answer served from the row is Active at a pool exactly when the live one is, and
      differs only where the live one is Pending: the hit says NonMember there. */
  lemma HitState(lib: Library, stored: Snapshot, live: Snapshot, stamp: int, epoch: nat, poolID: string)
    requires stored.activePool != "" && FactsOf(live) == FactsOf(stored)
    ensures var hit := DeriveState(lib, Some(FromRow(ToRow(stored, stamp), epoch)), poolID);
      var actual := DeriveState(lib, Some(live), poolID);
      && FactsOf(FromRow(ToRow(stored, stamp), epoch)) == FactsOf(live)
      && (hit == Active <==> actual == Active)
      && (hit != actual <==> actual == Pending)
      && (actual == Pending ==> hit == NonMember && PoolId.Canonical(lib, live.activePool) != PoolId.Canonical(lib, poolID))
  {}

  // ---- What is kept, and for how long ----

  /** A stored answer comes back with all its facts, as of a registered account that delegates
      where it is active. */
  lemma ServedFromRow(stored: Snapshot, stamp: int, epoch: nat)
    ensures FromRow(ToRow(stored, stamp), epoch) ==
      Snapshot(epoch, stored.activePool, stored.activePool, stored.activeStake, stored.rewards, stored.epochsDelegated, "registered")
  {}

  /** What a written answer is good for: it is served exactly at clocks of the epoch it was
      stored in, or on a network without a clock then, of the epoch it is of; answers without
      active stake are never served. */
  lemma StoredHitsIff(row: Option<CacheRow>, at: Option<nat>, snap: Snapshot, later: Option<nat>)
    ensures Hits(Stored(row, at, snap, true), later) <==>
      snap.activePool != "" && later == Some(if at == None then snap.epoch else at.value)
  {}

  /** A failed write leaves what was there. */
  lemma FailedWriteKeeps(row: Option<CacheRow>, at: Option<nat>, snap: Snapshot)
    ensures Stored(row, at, snap, false) == row
  {}
}
