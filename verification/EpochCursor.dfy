/** The per-network epoch cursor that triggers reconciliation passes
    (the Run loop of reconciliation.go). */
module EpochCursor {
  import SetSum

  type Cursor = map<string, nat>

  /** Go map access: an absent network reads as epoch 0. */
  function At(c: Cursor, net: string): nat {
    if net in c then c[net] else 0
  }

  /** One poll: the networks in use (absent when the query failed), the epochs of those
      that could be read, and whether a pass triggered now would succeed. */
  datatype Poll = Poll(networksOk: bool, readings: map<string, nat>, passOk: bool)

  predicate Advances(c: Cursor, readings: map<string, nat>) {
    exists net :: net in readings && readings[net] > At(c, net)
  }

  predicate Triggers(c: Cursor, p: Poll) {
    p.networksOk && Advances(c, p.readings)
  }

  function Next(c: Cursor, p: Poll): Cursor {
    if Triggers(c, p) && p.passOk then c + p.readings else c
  }

  class Watcher {
    var last: Cursor

    constructor ()
      ensures last == map[]
    {
      last := map[];
    }

    /** `nets` in the order the query returned them; an unreadable network is skipped. */
    method PollOnce(nets: seq<string>, p: Poll) returns (ran: bool)
      requires forall net :: net in p.readings ==> net in nets
      modifies this
      ensures ran <==> Triggers(old(last), p)
      ensures last == Next(old(last), p)
    {
      if !p.networksOk {
        return false;
      }
      var current: map<string, nat> := map[];
      var advanced := false;
      for i := 0 to |nets|
        invariant forall net :: net in current <==> net in p.readings && net in nets[..i]
        invariant forall net :: net in current ==> current[net] == p.readings[net]
        invariant advanced <==> exists net :: net in current && current[net] > At(last, net)
      {
        var net := nets[i];
        assert nets[..i + 1] == nets[..i] + [net];
        if net in p.readings {
          ghost var before := current;
          current := current[net := p.readings[net]];
          assert forall n :: n in before ==> before[n] == current[n];
          if current[net] > At(last, net) {
            advanced := true;
          }
        }
      }
      assert nets[..|nets|] == nets;
      assert current == p.readings;
      if advanced && p.passOk {
        last := last + current;
      }
      return advanced;
    }
  }

  // ---- Whole runs ----

  function Run(c: Cursor, polls: seq<Poll>): Cursor {
    if polls == [] then c else Next(Run(c, polls[..|polls| - 1]), polls[|polls| - 1])
  }

  /** The pass of poll `k` ran and succeeded. */
  predicate Succeeds(c: Cursor, polls: seq<Poll>, k: nat)
    requires k < |polls|
  {
    Triggers(Run(c, polls[..k]), polls[k]) && polls[k].passOk
  }

  /** Later readings of a network are never lower. */
  predicate Rising(polls: seq<Poll>) {
    forall j, k, net :: 0 <= j <= k < |polls| && net in polls[j].readings && net in polls[k].readings
      ==> polls[j].readings[net] <= polls[k].readings[net]
  }

  /** The cursor holds, for each network, what some successful earlier poll read. */
  lemma {:induction false} CursorComesFrom(polls: seq<Poll>, net: string) returns (k: nat)
    requires At(Run(map[], polls), net) > 0
    ensures k < |polls| && Succeeds(map[], polls, k)
    ensures net in polls[k].readings && polls[k].readings[net] == At(Run(map[], polls), net)
  {
    var n := |polls| - 1;
    assert polls[..n + 1] == polls;
    if Succeeds(map[], polls, n) && net in polls[n].readings {
      k := n;
    } else {
      k := CursorComesFrom(polls[..n], net);
      assert polls[..n][..k] == polls[..k];
    }
  }

  /** While readings never fall, the cursor never falls. */
  lemma CursorRises(polls: seq<Poll>, net: string)
    requires polls != [] && Rising(polls)
    ensures At(Run(map[], polls[..|polls| - 1]), net) <= At(Run(map[], polls), net)
  {
    var front, n := polls[..|polls| - 1], |polls| - 1;
    if At(Run(map[], front), net) > 0 {
      var k := CursorComesFrom(front, net);
      assert polls[k] == front[k];
    }
  }

  /** One poll moves the cursor down somewhere exactly when its pass succeeds and it read
      an epoch below the cursor on another network than the one that triggered it. */
  lemma CursorFallsIff(c: Cursor, p: Poll)
    ensures (exists net :: At(Next(c, p), net) < At(c, net)) <==>
      (Triggers(c, p) && p.passOk && exists net :: net in p.readings && p.readings[net] < At(c, net))
  {
    if Triggers(c, p) && p.passOk && exists net :: net in p.readings && p.readings[net] < At(c, net) {
      var net :| net in p.readings && p.readings[net] < At(c, net);
      assert At(Next(c, p), net) < At(c, net);
    }
    if net :| At(Next(c, p), net) < At(c, net) {
      assert net in p.readings && p.readings[net] < At(c, net);
    }
  }

  /** An advance is acted on by every poll that reads it until a pass has succeeded: a
      poll triggers if no earlier successful poll read that network as high. */
  lemma UnprocessedAdvanceTriggers(polls: seq<Poll>, k: nat, net: string)
    requires k < |polls| && polls[k].networksOk && net in polls[k].readings && polls[k].readings[net] > 0
    requires forall j :: 0 <= j < k && Succeeds(map[], polls, j) && net in polls[j].readings
               ==> polls[j].readings[net] < polls[k].readings[net]
    ensures Triggers(Run(map[], polls[..k]), polls[k])
  {
    var c := Run(map[], polls[..k]);
    if At(c, net) > 0 {
      var j := CursorComesFrom(polls[..k], net);
      assert polls[..k][..j] == polls[..j] && polls[..k][j] == polls[j];
      assert Succeeds(map[], polls, j);
    }
    assert polls[k].readings[net] > At(c, net);
  }

  // ---- How many passes succeed ----

  function Successes(polls: seq<Poll>): nat {
    if polls == [] then 0
    else
      var n := |polls| - 1;
      Successes(polls[..n]) + if Succeeds(map[], polls, n) then 1 else 0
  }

  function ReadingOf(c: Cursor): string -> int {
    n => At(c, n)
  }

  ghost function Sum(c: Cursor, nets: set<string>): int {
    SetSum.Sum(nets, ReadingOf(c))
  }

  lemma {:induction false} SumMonotone(c: Cursor, d: Cursor, nets: set<string>)
    requires forall n :: n in nets ==> At(c, n) <= At(d, n)
    ensures Sum(c, nets) <= Sum(d, nets)
    ensures (exists n :: n in nets && At(c, n) < At(d, n)) ==> Sum(c, nets) < Sum(d, nets)
  {
    if nets != {} {
      var n :| n in nets;
      SetSum.Split(nets, ReadingOf(c), n);
      SetSum.Split(nets, ReadingOf(d), n);
      SumMonotone(c, d, nets - {n});
    }
  }

  /** `high` bounds every reading of the run. */
  ghost predicate Within(polls: seq<Poll>, high: Cursor) {
    forall k, net :: 0 <= k < |polls| && net in polls[k].readings ==> net in high && polls[k].readings[net] <= high[net]
  }

  lemma {:induction false} SuccessesBelowCursor(polls: seq<Poll>, high: Cursor)
    requires Rising(polls) && Within(polls, high)
    ensures Successes(polls) <= Sum(Run(map[], polls), high.Keys)
  {
    if polls != [] {
      var n := |polls| - 1;
      var front := polls[..n];
      SuccessesBelowCursor(front, high);
      var c, d := Run(map[], front), Run(map[], polls);
      forall net | net in high.Keys ensures At(c, net) <= At(d, net) { CursorRises(polls, net); }
      if Succeeds(map[], polls, n) {
        var net :| net in polls[n].readings && polls[n].readings[net] > At(c, net);
        assert net in high.Keys && At(c, net) < At(d, net);
      }
      SumMonotone(c, d, high.Keys);
    }
  }

  /** However long the loop runs, no more passes succeed than there are epochs to see:
      the sum over networks of the highest epoch read. */
  lemma SuccessesBounded(polls: seq<Poll>, high: Cursor)
    requires Rising(polls) && Within(polls, high)
    ensures Successes(polls) <= Sum(high, high.Keys)
  {
    SuccessesBelowCursor(polls, high);
    var c := Run(map[], polls);
    forall net | net in high.Keys ensures At(c, net) <= At(high, net) {
      if At(c, net) > 0 { var k := CursorComesFrom(polls, net); }
    }
    SumMonotone(c, high, high.Keys);
  }

  // ---- What one poll does ----

  /** A pass runs exactly when the networks could be listed and one of them was read at a later
      epoch than the cursor holds; the cursor then takes over what was read, of every network
      read, and nothing if the pass failed. */
  lemma PollExact(c: Cursor, p: Poll)
    ensures Triggers(c, p) <==>
      p.networksOk && exists net :: net in p.readings && p.readings[net] > if net in c then c[net] else 0
    ensures !Triggers(c, p) || !p.passOk ==> Next(c, p) == c
    ensures Triggers(c, p) && p.passOk ==>
      forall net :: At(Next(c, p), net) == if net in p.readings then p.readings[net] else At(c, net)
  {
    if p.networksOk && exists net :: net in p.readings && p.readings[net] > if net in c then c[net] else 0 {
      var net :| net in p.readings && p.readings[net] > if net in c then c[net] else 0;
      assert p.readings[net] > At(c, net);
    }
  }
}
