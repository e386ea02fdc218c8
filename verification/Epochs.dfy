/** The local epoch clock of each network (epoch.go). */
module Epochs {
  import opened Wrappers

  datatype Params = Params(genesis: int, length: int)

  function ParamsOf(network: string): Option<Params> {
    if network == "mainnet" then Some(Params(1506203091, 432000))
    else if network == "preprod" then Some(Params(1654041600, 432000))
    else if network == "preview" then Some(Params(1666656000, 86400))
    else None
  }

  const WORD: int := 0x1_0000_0000_0000_0000

  /** What a signed 64-bit word keeps of `x`. */
  function Int64(x: int): int {
    (x + WORD / 2) % WORD - WORD / 2
  }

  /** What an unsigned 64-bit word keeps of `x`. */
  function Uint64(x: int): (y: nat) {
    x % WORD
  }

  function CurrentEpoch(network: string, unix: int): Option<nat> {
    match ParamsOf(network)
    case None => None
    case Some(p) => if unix < p.genesis then None else Some((unix - p.genesis) / p.length)
  }

  function EpochStart(network: string, epoch: nat): Option<int> {
    match ParamsOf(network)
    case None => None
    case Some(p) => Some(Int64(p.genesis + Int64(Int64(epoch) * p.length)))
  }

  /** Epochs whose start is a 64-bit time. */
  predicate InRange(network: string, epoch: int) {
    ParamsOf(network).Some? && var p := ParamsOf(network).value;
    -WORD / 2 <= epoch * p.length && p.genesis + epoch * p.length < WORD / 2
  }

  lemma Int64Exact(x: int)
    requires -WORD / 2 <= x < WORD / 2
    ensures Int64(x) == x && Int64(Uint64(x)) == x
  {}

  lemma EpochStartValue(network: string, epoch: int)
    requires InRange(network, epoch)
    ensures EpochStart(network, Uint64(epoch)) ==
      Some(ParamsOf(network).value.genesis + epoch * ParamsOf(network).value.length)
  {
    var p := ParamsOf(network).value;
    LengthSteps(network, epoch);
    Int64Exact(epoch);
    Int64Exact(epoch * p.length);
    Int64Exact(p.genesis + epoch * p.length);
  }

  lemma LengthSteps(network: string, epoch: int)
    requires InRange(network, epoch)
    ensures -WORD / 2 <= epoch < WORD / 2
  {}

  /** The epoch that starts at the start of epoch `e` is `e`. */
  lemma StartThenEpoch(network: string, e: nat)
    requires InRange(network, e)
    ensures EpochStart(network, e).Some?
    ensures CurrentEpoch(network, EpochStart(network, e).value) == Some(e)
  {
    EpochStartValue(network, e);
    assert Uint64(e) == e;
  }

  /** Every instant since genesis lies within the epoch it is assigned. */
  lemma EpochThenStart(network: string, unix: int)
    requires CurrentEpoch(network, unix).Some? && unix < WORD / 2
    ensures var e := CurrentEpoch(network, unix).value;
      && EpochStart(network, e).Some?
      && EpochStart(network, e).value <= unix < EpochStart(network, e).value + ParamsOf(network).value.length
  {
    var e := CurrentEpoch(network, unix).value;
    assert InRange(network, e);
    EpochStartValue(network, e);
    assert Uint64(e) == e;
  }

  lemma EpochMonotone(network: string, t: int, u: int)
    requires t <= u && CurrentEpoch(network, t).Some?
    ensures CurrentEpoch(network, u).Some? && CurrentEpoch(network, t).value <= CurrentEpoch(network, u).value
  {}

  /** The instants that fix the clocks: the first Shelley epoch of mainnet, and the first days
      of the test networks. */
  lemma KnownEpochs()
    ensures CurrentEpoch("mainnet", 1596059091) == Some(208) && CurrentEpoch("mainnet", 1596059090) == Some(207)
    ensures CurrentEpoch("preview", 1666656000) == Some(0) && CurrentEpoch("preview", 1666656000 + 86399) == Some(0)
    ensures CurrentEpoch("preview", 1666656000 + 86400) == Some(1) && CurrentEpoch("preview", 946684800) == None
    ensures CurrentEpoch("preprod", 1654041600 + 432000) == Some(1)
    ensures EpochStart("mainnet", 208) == Some(1596059091)
  {}

  /** Other networks have no clock, and no network has one before its genesis. */
  lemma ClockExactly(network: string, unix: int)
    ensures CurrentEpoch(network, unix) == None <==>
      network !in {"mainnet", "preprod", "preview"} || (network == "mainnet" && unix < 1506203091)
      || (network == "preprod" && unix < 1654041600) || (network == "preview" && unix < 1666656000)
  {}
}
