/** Raw on-chain facts, and the membership state derived from them (state.go). */
module Membership {
  import opened Wrappers
  import opened Ascii
  import opened ConvertBits
  import PoolId

  datatype State = NonMember | Pending | Active

  /** The facts of chain.Snapshot that membership and attestation read. */
  datatype Snapshot = Snapshot(
    epoch: nat,
    delegatedPool: string,
    activePool: string,
    activeStake: string,
    rewards: string,
    epochsDelegated: int,
    accountStatus: string)

  function DeriveState(lib: Library, snap: Option<Snapshot>, poolID: string): State {
    if snap.None? || poolID == "" then NonMember
    else
      var want := PoolId.Canonical(lib, poolID);
      if want == "" then NonMember
      else if PoolId.Canonical(lib, snap.value.activePool) == want then Active
      else if snap.value.accountStatus == "registered" && PoolId.Canonical(lib, snap.value.delegatedPool) == want then Pending
      else NonMember
  }

  lemma NameNotBlank(lib: Library, s: string, hash: seq<Byte>)
    requires Sane(lib) && PoolId.Names(lib, s, hash)
    ensures s != "" && PoolId.Canonical(lib, s) != ""
  {
    PoolId.CanonicalOfName(lib, s, hash);
    PoolId.PoolTextShape(lib, hash);
  }

  /** A pool configured as hex and the same pool configured as bech32 derive the same
      state from every snapshot. */
  lemma SpellingDoesNotMatter(lib: Library, snap: Option<Snapshot>, s: string, t: string, hash: seq<Byte>)
    requires Sane(lib) && PoolId.Names(lib, s, hash) && PoolId.Names(lib, t, hash)
    ensures DeriveState(lib, snap, s) == DeriveState(lib, snap, t)
  {
    NameNotBlank(lib, s, hash);
    NameNotBlank(lib, t, hash);
    PoolId.SamePoolIff(lib, s, hash, t, hash);
  }

  /** Active stake counts for exactly the pool it names, in whatever spelling; a
      snapshot never makes its holder active with another pool. */
  lemma ActiveIffSamePool(lib: Library, snap: Snapshot, activeHash: seq<Byte>, poolID: string, hash: seq<Byte>)
    requires Sane(lib) && PoolId.Names(lib, snap.activePool, activeHash) && PoolId.Names(lib, poolID, hash)
    ensures DeriveState(lib, Some(snap), poolID) == Active <==> activeHash == hash
  {
    NameNotBlank(lib, poolID, hash);
    PoolId.SamePoolIff(lib, snap.activePool, activeHash, poolID, hash);
  }

  /** The state in every case: active with the pool that the active stake names; otherwise,
      active elsewhere or not, pending with the pool a registered account delegates to now. */
  lemma DeriveStateExact(lib: Library, snap: Snapshot, poolID: string, hash: seq<Byte>)
    requires Sane(lib) && PoolId.Names(lib, poolID, hash)
    ensures DeriveState(lib, Some(snap), poolID) ==
      if PoolId.Names(lib, snap.activePool, hash) then Active
      else if snap.accountStatus == "registered" && PoolId.Names(lib, snap.delegatedPool, hash) then Pending
      else NonMember
  {
    hide PoolId.Names, PoolId.Canonical;
    NameNotBlank(lib, poolID, hash);
    PoolId.NamesIff(lib, snap.activePool, poolID, hash);
    PoolId.NamesIff(lib, snap.delegatedPool, poolID, hash);
  }

  /** The same by the pools the three fields name: who has active stake with one pool and has
      moved the delegation to another is pending with the other. */
  lemma DeriveStateByPools(lib: Library, snap: Snapshot, activeHash: seq<Byte>, liveHash: seq<Byte>, poolID: string, hash: seq<Byte>)
    requires Sane(lib) && PoolId.Names(lib, poolID, hash)
    requires PoolId.Names(lib, snap.activePool, activeHash) && PoolId.Names(lib, snap.delegatedPool, liveHash)
    ensures DeriveState(lib, Some(snap), poolID) ==
      if activeHash == hash then Active
      else if snap.accountStatus == "registered" && liveHash == hash then Pending
      else NonMember
  {
    hide PoolId.Names, PoolId.Canonical;
    NameNotBlank(lib, poolID, hash);
    PoolId.SamePoolIff(lib, snap.activePool, activeHash, poolID, hash);
    PoolId.SamePoolIff(lib, snap.delegatedPool, liveHash, poolID, hash);
  }

  /** Nobody is a member of no pool, and nobody of whom the chain says nothing is a member. */
  lemma BlankIsNonMember(lib: Library, snap: Option<Snapshot>, poolID: string)
    requires snap == None || poolID == "" || PoolId.Canonical(lib, poolID) == ""
    ensures DeriveState(lib, snap, poolID) == NonMember
  {}

  /** Without active stake, pending is exactly: registered and delegating to this pool. */
  lemma PendingIffDelegating(lib: Library, snap: Snapshot, liveHash: seq<Byte>, poolID: string, hash: seq<Byte>)
    requires Sane(lib) && snap.activePool == "" && PoolId.Names(lib, snap.delegatedPool, liveHash) && PoolId.Names(lib, poolID, hash)
    ensures DeriveState(lib, Some(snap), poolID) ==
      if snap.accountStatus == "registered" && liveHash == hash then Pending else NonMember
  {
    NameNotBlank(lib, poolID, hash);
    PoolId.SamePoolIff(lib, snap.delegatedPool, liveHash, poolID, hash);
  }
}
