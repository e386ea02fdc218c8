/** The subscription life cycle under periodic reconciliation (reconciliation.go). */
module Reconciliation {
  import opened Wrappers

  const DAY: int := 24 * 3600 * 1_000_000_000
  const TTL: int := 30 * DAY
  const GRACE: int := 5 * DAY

  datatype Status = Active | Downgraded | Cancelled | Expired

  datatype Session = Session(
    pool: string,
    stake: string,
    status: Status,
    tier: string,
    lastVerified: int,
    expiresAt: int,          // informational only
    graceUntil: Option<int>)

  /** What the pass learns about the credential. */
  datatype Verdict = Unavailable | Member(tier: string) | Lost

  /** One session's turn in one pass: the verdict, the clock, and whether a write succeeds. */
  datatype Observation = Observation(verdict: Verdict, now: int, writeOk: bool)

  datatype Outcome = Failed | Unchanged | EnteredGrace | NowExpired

  function Observe(s: Session, o: Observation): (Session, Outcome) {
    match o.verdict
    case Unavailable => (s, Failed)
    case Member(tier) =>
      if o.writeOk then
        (s.(lastVerified := o.now, tier := tier, expiresAt := o.now + TTL, graceUntil := None), Unchanged)
      else (s, Failed)
    case Lost =>
      if s.graceUntil.None? then
        if o.writeOk then (s.(graceUntil := Some(o.now + GRACE)), EnteredGrace) else (s, Failed)
      else if o.now < s.graceUntil.value then (s, Unchanged)
      else if o.writeOk then (s.(status := Expired), NowExpired)
      else (s, Failed)
  }

  // ---- One pass over all sessions ----

  type Table = map<string, Session>

  predicate Listed(t: Table, pool: string, id: string) {
    id in t && t[id].pool == pool && t[id].status == Active
  }

  /** The rows ListActive returns, in any order. */
  ghost predicate ListsActive(order: seq<string>, t: Table, pool: string) {
    && (forall i, j :: 0 <= i < j < |order| ==> order[i] != order[j])
    && (forall id :: id in order <==> Listed(t, pool, id))
  }

  /** A session that was not looked at had no verdict. */
  function At(obs: map<string, Observation>, id: string): Observation {
    if id in obs then obs[id] else Observation(Unavailable, 0, false)
  }

  /** After a pass each active session of the pool has had its own turn, whatever
      happened to the others, and every other row is as it was. */
  function AfterPass(t: Table, pool: string, obs: map<string, Observation>): Table {
    map id | id in t :: if Listed(t, pool, id) then Observe(t[id], At(obs, id)).0 else t[id]
  }

  /** The sessions warned in a pass: those entering grace, in listing order. */
  function Warned(t: Table, order: seq<string>, obs: map<string, Observation>): seq<string>
  {
    if order == [] then []
    else
      var id := order[|order| - 1];
      Warned(t, order[..|order| - 1], obs) +
      if id in t && Observe(t[id], At(obs, id)).1 == EnteredGrace then [id] else []
  }

  datatype Counts = Counts(checked: nat, expired: nat, grace: nat, kept: nat, failed: nat) {
    predicate Balanced() {
      checked == expired + grace + kept + failed
    }

    function Add(outcome: Outcome): Counts {
      var c := this.(checked := checked + 1);
      match outcome
      case Failed => c.(failed := failed + 1)
      case Unchanged => c.(kept := kept + 1)
      case EnteredGrace => c.(grace := grace + 1)
      case NowExpired => c.(expired := expired + 1)
    }
  }

  const NO_COUNTS := Counts(0, 0, 0, 0, 0)

  /** Every listed session counted under its own outcome. */
  function Counted(t: Table, order: seq<string>, obs: map<string, Observation>): Counts {
    if order == [] then NO_COUNTS
    else
      var front, id := Counted(t, order[..|order| - 1], obs), order[|order| - 1];
      if id in t then front.Add(Observe(t[id], At(obs, id)).1) else front
  }

  ghost predicate PassResult(t: Table, pool: string, ids: seq<string>, obs: map<string, Observation>, u: Table, c: Counts) {
    u == AfterPass(t, pool, obs) && c == Counted(t, ids, obs)
  }

  /** The counts add up to the sessions listed, and grace entries to the warnings sent. */
  lemma {:induction false} CountsAddUp(t: Table, ids: seq<string>, obs: map<string, Observation>)
    requires forall id :: id in ids ==> id in t
    ensures var c := Counted(t, ids, obs);
      c.checked == |ids| && c.Balanced() && c.grace == |Warned(t, ids, obs)|
  {
    hide Observe, At, Counts.Balanced, Counts.Add;
    if ids == [] {
      AddBalances(NO_COUNTS, Failed);
    } else {
      var n := |ids| - 1;
      assert ids[n] in ids;
      CountsAddUp(t, ids[..n], obs);
      AddBalances(Counted(t, ids[..n], obs), Observe(t[ids[n]], At(obs, ids[n])).1);
    }
  }

  lemma AddBalances(c: Counts, outcome: Outcome)
    ensures NO_COUNTS.Balanced() && (c.Balanced() ==> c.Add(outcome).Balanced())
    ensures c.Add(outcome).checked == c.checked + 1
    ensures c.Add(outcome).grace == c.grace + if outcome == EnteredGrace then 1 else 0
  {
    match outcome
    case Failed => assert c.Add(outcome) == c.(checked := c.checked + 1, failed := c.failed + 1);
    case Unchanged => assert c.Add(outcome) == c.(checked := c.checked + 1, kept := c.kept + 1);
    case EnteredGrace => assert c.Add(outcome) == c.(checked := c.checked + 1, grace := c.grace + 1);
    case NowExpired => assert c.Add(outcome) == c.(checked := c.checked + 1, expired := c.expired + 1);
  }

  class Reconciler {
    const poolId: string
    var rows: Table
    var notices: seq<string>

    constructor (poolId: string, rows: Table)
      ensures this.poolId == poolId && this.rows == rows && notices == []
    {
      this.poolId := poolId;
      this.rows := rows;
      notices := [];
    }

    /** `order` is what ListActive returned, absent when the listing failed. */
    method Reconcile(order: Option<seq<string>>, obs: map<string, Observation>) returns (r: Option<Counts>)
      requires order.Some? ==> ListsActive(order.value, rows, poolId)
      modifies this
      ensures order.None? ==> r.None? && rows == old(rows) && notices == old(notices)
      ensures order.Some? ==> r.Some? && PassResult(old(rows), poolId, order.value, obs, rows, r.value)
      ensures order.Some? ==> notices == old(notices) + Warned(old(rows), order.value, obs)
    {
      if order.None? {
        return None;
      }
      var c := Pass(order.value, obs);
      return Some(c);
    }

    method Pass(ids: seq<string>, obs: map<string, Observation>) returns (c: Counts)
      requires ListsActive(ids, rows, poolId)
      modifies this
      ensures PassResult(old(rows), poolId, ids, obs, rows, c)
      ensures notices == old(notices) + Warned(old(rows), ids, obs)
    {
      c := NO_COUNTS;
      for i := 0 to |ids|
        invariant Progress(old(rows), old(notices), poolId, ids, i, obs, rows, notices, c)
      {
        NextInTable(old(rows), old(notices), poolId, ids, i, obs, rows, notices, c);
        ghost var rows0, notices0 := rows, notices;
        var outcome := Turn(ids[i], At(obs, ids[i]));
        NextTurn(old(rows), old(notices), poolId, ids, i, obs, rows0, notices0, c);
        c := c.Add(outcome);
      }
      PassDone(old(rows), old(notices), poolId, ids, obs, rows, notices, c);
    }

    /** The loop body for one session. */
    method Turn(id: string, o: Observation) returns (outcome: Outcome)
      requires id in rows
      modifies this
      ensures rows == old(rows)[id := Observe(old(rows)[id], o).0]
      ensures outcome == Observe(old(rows)[id], o).1
      ensures notices == old(notices) + if outcome == EnteredGrace then [id] else []
    {
      var sess := rows[id];
      assert rows == rows[id := sess];
      if o.verdict.Unavailable? {
        return Failed;
      }
      if o.verdict.Member? {
        sess := sess.(lastVerified := o.now, tier := o.verdict.tier, expiresAt := o.now + TTL, graceUntil := None);
        if !o.writeOk {
          return Failed;
        }
        rows := rows[id := sess];
        return Unchanged;
      }
      if sess.graceUntil.None? {
        sess := sess.(graceUntil := Some(o.now + GRACE));
        if !o.writeOk {
          return Failed;
        }
        rows := rows[id := sess];
        notices := notices + [id];
        return EnteredGrace;
      }
      if o.now < sess.graceUntil.value {
        return Unchanged;
      }
      if !o.writeOk {
        return Failed;
      }
      rows := rows[id := sess.(status := Expired)];
      return NowExpired;
    }
  }

  function SetOf(ids: seq<string>): set<string> {
    set id | id in ids
  }

  /** The table when the sessions in `done` have had their turn. */
  function Partial(t: Table, done: set<string>, obs: map<string, Observation>): Table {
    map id | id in t :: if id in done then Observe(t[id], At(obs, id)).0 else t[id]
  }

  /** The pass after `i` of the listed sessions. */
  ghost predicate Progress(t: Table, before: seq<string>, pool: string, ids: seq<string>, i: nat,
                           obs: map<string, Observation>, rows: Table, notices: seq<string>, c: Counts) {
    && ListsActive(ids, t, pool) && i <= |ids|
    && rows == Partial(t, SetOf(ids[..i]), obs)
    && notices == before + Warned(t, ids[..i], obs)
    && c == Counted(t, ids[..i], obs)
  }

  lemma PassDone(t: Table, before: seq<string>, pool: string, ids: seq<string>,
                 obs: map<string, Observation>, rows: Table, notices: seq<string>, c: Counts)
    requires Progress(t, before, pool, ids, |ids|, obs, rows, notices, c)
    ensures PassResult(t, pool, ids, obs, rows, c)
    ensures notices == before + Warned(t, ids, obs)
  {
    assert ids[..|ids|] == ids;
  }

  lemma NextInTable(t: Table, before: seq<string>, pool: string, ids: seq<string>, i: nat,
                    obs: map<string, Observation>, rows: Table, notices: seq<string>, c: Counts)
    requires i < |ids| && Progress(t, before, pool, ids, i, obs, rows, notices, c)
    ensures ids[i] in t && ids[i] in rows && rows[ids[i]] == t[ids[i]]
  {
    assert ids[i] in ids;
  }

  lemma NextTurn(t: Table, before: seq<string>, pool: string, ids: seq<string>, i: nat,
                 obs: map<string, Observation>, rows: Table, notices: seq<string>, c: Counts)
    requires i < |ids| && Progress(t, before, pool, ids, i, obs, rows, notices, c)
    requires ids[i] in t
    ensures var id := ids[i];
      var (s, outcome) := Observe(t[id], At(obs, id));
      Progress(t, before, pool, ids, i + 1, obs, rows[id := s],
               notices + (if outcome == EnteredGrace then [id] else []), c.Add(outcome))
  {
    assert ids[..i + 1] == ids[..i] + [ids[i]];
    assert SetOf(ids[..i + 1]) == SetOf(ids[..i]) + {ids[i]};
  }

  // ---- Expiry over a whole run ----

  /** A session's fate over its turns in successive passes; once it is no longer active
      it is not listed and nothing touches it. */
  function Run(s: Session, turns: seq<Observation>): Session {
    if turns == [] then s
    else
      var r := Run(s, turns[..|turns| - 1]);
      if r.status == Active then Observe(r, turns[|turns| - 1]).0 else r
  }

  predicate Loss(o: Observation) { o.verdict == Lost && o.writeOk }

  predicate Renewal(o: Observation) { o.verdict.Member? && o.writeOk }

  predicate Monotone(turns: seq<Observation>) {
    forall i, j :: 0 <= i <= j < |turns| ==> turns[i].now <= turns[j].now
  }

  predicate NoRenewal(turns: seq<Observation>, from: nat, to: nat) {
    forall k :: from <= k < to && k < |turns| ==> !Renewal(turns[k])
  }

  /** Turn `i` sees membership lost, as turn `j` did a full grace period before, and no
      renewal was recorded between them. */
  predicate Due(turns: seq<Observation>, j: nat, i: nat) {
    && j < i < |turns|
    && Loss(turns[j]) && Loss(turns[i])
    && NoRenewal(turns, j, i)
    && turns[i].now >= turns[j].now + GRACE
  }

  /** Turn `e` is the first recorded loss since the last renewal. */
  predicate Opens(turns: seq<Observation>, e: nat) {
    && e < |turns| && Loss(turns[e]) && NoRenewal(turns, e, |turns|)
    && (forall j :: 0 <= j < e && Loss(turns[j]) ==> !NoRenewal(turns, j, e))
  }

  ghost predicate InGrace(turns: seq<Observation>, until: int) {
    exists e: nat :: Opens(turns, e) && until == turns[e].now + GRACE
  }

  ghost predicate NotInGrace(turns: seq<Observation>) {
    forall j: nat :: j < |turns| && Loss(turns[j]) ==> !NoRenewal(turns, j, |turns|)
  }

  /** The row is what the history of turns says it should be. */
  ghost predicate Tracks(turns: seq<Observation>, s: Session) {
    if s.status == Expired then exists j: nat, i: nat :: Due(turns, j, i)
    else
      && s.status == Active
      && (forall j: nat, i: nat :: !Due(turns, j, i))
      && match s.graceUntil case None => NotInGrace(turns) case Some(until) => InGrace(turns, until)
  }

  lemma NoRenewalSnoc(turns: seq<Observation>, o: Observation, j: nat, m: nat)
    requires m <= |turns| + 1
    ensures NoRenewal(turns + [o], j, m) <==>
      NoRenewal(turns, j, if m <= |turns| then m else |turns|) && (j < m == |turns| + 1 ==> !Renewal(o))
  {
    var u, n := turns + [o], |turns|;
    assert forall k :: 0 <= k < n ==> u[k] == turns[k];
    assert u[n] == o;
    if NoRenewal(u, j, m) {
      forall k | j <= k < m && k < n ensures !Renewal(turns[k]) { assert !Renewal(u[k]); }
      if j < m == n + 1 { assert !Renewal(u[n]) || j > n; }
    }
  }

  lemma DueSnoc(turns: seq<Observation>, o: Observation, j: nat, i: nat)
    ensures Due(turns + [o], j, i) <==>
      if i < |turns| then Due(turns, j, i)
      else i == |turns| && j < i && Loss(turns[j]) && Loss(o) && NoRenewal(turns, j, |turns|)
           && o.now >= turns[j].now + GRACE
  {
    if i <= |turns| { NoRenewalSnoc(turns, o, j, i); }
  }

  lemma OpensSnoc(turns: seq<Observation>, o: Observation, e: nat)
    ensures Opens(turns + [o], e) <==>
      !Renewal(o) && if e < |turns| then Opens(turns, e) else e == |turns| && Loss(o) && NotInGrace(turns)
  {
    var u, n := turns + [o], |turns|;
    assert forall k :: 0 <= k < n ==> u[k] == turns[k];
    if e <= n {
      NoRenewalSnoc(turns, o, e, n + 1);
      forall j: nat | j < e ensures NoRenewal(u, j, e) <==> NoRenewal(turns, j, e) {
        NoRenewalSnoc(turns, o, j, e);
      }
    }
  }

  lemma NotInGraceSnoc(turns: seq<Observation>, o: Observation)
    ensures NotInGrace(turns + [o]) <==> Renewal(o) || (NotInGrace(turns) && !Loss(o))
  {
    var u, n := turns + [o], |turns|;
    assert forall k :: 0 <= k < n ==> u[k] == turns[k];
    forall j: nat | j <= n ensures NoRenewal(u, j, n + 1) <==> NoRenewal(turns, j, n) && !Renewal(o) {
      NoRenewalSnoc(turns, o, j, n + 1);
    }
    if NotInGrace(u) && !Renewal(o) {
      forall j: nat | j < n && Loss(turns[j]) ensures !NoRenewal(turns, j, n) { assert Loss(u[j]); }
      assert NoRenewal(u, n, n + 1);
      assert u[n] == o;
    }
  }

  /** In grace, a recorded loss anywhere since the last renewal is no older than the first. */
  lemma OpensFirst(turns: seq<Observation>, e: nat, j: nat)
    requires Opens(turns, e) && j < |turns| && Loss(turns[j]) && NoRenewal(turns, j, |turns|)
    ensures e <= j
  {
    if j < e { assert NoRenewal(turns, j, e); }
  }

  lemma TrackStep(turns: seq<Observation>, s: Session, o: Observation)
    requires Monotone(turns + [o]) && Tracks(turns, s)
    ensures Tracks(turns + [o], if s.status == Active then Observe(s, o).0 else s)
  {
    var u, n := turns + [o], |turns|;
    forall j: nat, i: nat ensures Due(u, j, i) <==>
        if i < n then Due(turns, j, i)
        else i == n && j < i && Loss(turns[j]) && Loss(o) && NoRenewal(turns, j, n) && o.now >= turns[j].now + GRACE
    {
      DueSnoc(turns, o, j, i);
    }
    NotInGraceSnoc(turns, o);
    if s.status == Expired {
      var j: nat, i: nat :| Due(turns, j, i);
      assert Due(u, j, i);
    } else if s.graceUntil.None? {
      OpensSnoc(turns, o, n);
    } else {
      var e: nat :| Opens(turns, e) && s.graceUntil.value == turns[e].now + GRACE;
      OpensSnoc(turns, o, e);
      assert u[e] == turns[e];
      if Loss(o) && o.now >= s.graceUntil.value { assert Due(u, e, n); }
      forall j: nat | j < n && Loss(turns[j]) && NoRenewal(turns, j, n) ensures turns[e].now <= turns[j].now {
        OpensFirst(turns, e, j);
        assert u[e].now <= u[j].now;
      }
    }
  }

  lemma {:induction false} RunTracks(s: Session, turns: seq<Observation>)
    requires s.status == Active && s.graceUntil.None? && Monotone(turns)
    ensures Tracks(turns, Run(s, turns))
  {
    if turns != [] {
      var front, last := turns[..|turns| - 1], turns[|turns| - 1];
      assert turns == front + [last];
      RunTracks(s, front);
      TrackStep(front, Run(s, front), last);
    }
  }

  /** Expiry is decided by time: a session is expired after a run exactly when some turn
      recorded membership lost at least five days after a recorded loss with no renewal
      in between -- however many passes there were, and whatever failed. */
  lemma ExpiresByTime(s: Session, turns: seq<Observation>)
    requires s.status == Active && s.graceUntil.None? && Monotone(turns)
    ensures Run(s, turns).status == Expired <==> exists j: nat, i: nat :: Due(turns, j, i)
    ensures Run(s, turns).status != Expired ==> Run(s, turns).status == Active
  {
    RunTracks(s, turns);
  }

  /** The pending deadline is fixed by the first recorded loss since the last renewal. */
  lemma DeadlineFixed(s: Session, turns: seq<Observation>, more: seq<Observation>, until: int)
    requires s.status == Active && s.graceUntil.None? && Monotone(turns + more)
    requires Run(s, turns).graceUntil == Some(until)
    requires forall k :: 0 <= k < |more| ==> !Renewal(more[k])
    ensures Run(s, turns + more).graceUntil == Some(until)
    decreases |more|
  {
    if more == [] {
      assert turns + more == turns;
    } else {
      var m := |more| - 1;
      assert (turns + more)[..|turns| + m] == turns + more[..m];
      DeadlineFixed(s, turns, more[..m], until);
    }
  }

  /** One warning goes out per grace period: between two of them lies a recorded renewal. */
  lemma OneWarningPerGrace(s: Session, turns: seq<Observation>, e1: nat, e2: nat)
    requires s.status == Active && s.graceUntil.None? && Monotone(turns)
    requires e1 < e2 < |turns|
    requires forall e :: e == e1 || e == e2 ==>
      Run(s, turns[..e]).status == Active && Observe(Run(s, turns[..e]), turns[e]).1 == EnteredGrace
    ensures !NoRenewal(turns, e1, e2)
  {
    RunTracks(s, turns[..e2]);
    assert turns[..e2][e1] == turns[e1];
    assert Loss(turns[..e2][e1]);
    assert !NoRenewal(turns[..e2], e1, e2);
    var k :| e1 <= k < e2 && Renewal(turns[..e2][k]);
    assert Renewal(turns[k]);
  }

  // ---- What a run leaves in the row ----

  /** A session is expired after a run exactly when some turn saw membership lost and recorded
      it at least five days after another did, and none between them recorded a renewal. */
  lemma ExpiredIff(s: Session, turns: seq<Observation>)
    requires s.status == Active && s.graceUntil.None? && Monotone(turns)
    ensures Run(s, turns).status == Expired <==>
      exists j, i :: 0 <= j < i < |turns|
        && turns[j].verdict == Lost && turns[j].writeOk && turns[i].verdict == Lost && turns[i].writeOk
        && turns[i].now - turns[j].now >= 5 * 24 * 3600 * 1_000_000_000
        && forall k :: j < k < i ==> turns[k].verdict.Member? ==> !turns[k].writeOk
  {
    hide Tracks, Run;
    ExpiresByTime(s, turns);
    forall j: nat, i: nat | j < i < |turns| && Loss(turns[j]) && Loss(turns[i])
      ensures Due(turns, j, i) <==>
        && turns[i].now - turns[j].now >= 5 * 24 * 3600 * 1_000_000_000
        && forall k :: j < k < i ==> turns[k].verdict.Member? ==> !turns[k].writeOk
    {
      if Due(turns, j, i) {
        forall k | j < k < i ensures turns[k].verdict.Member? ==> !turns[k].writeOk { assert !Renewal(turns[k]); }
      }
    }
  }

  /** Whose subscription it is never changes; and until a renewal is recorded neither do its
      tier, its last verification and its validity. */
  lemma {:induction false} UnrenewedKeeps(s: Session, turns: seq<Observation>)
    ensures var r := Run(s, turns);
      && r.pool == s.pool && r.stake == s.stake
      && ((forall k :: 0 <= k < |turns| ==> turns[k].verdict.Member? ==> !turns[k].writeOk) ==>
            r.tier == s.tier && r.lastVerified == s.lastVerified && r.expiresAt == s.expiresAt)
  {
    if turns != [] {
      var n := |turns| - 1;
      UnrenewedKeeps(s, turns[..n]);
      assert forall k :: 0 <= k < n ==> turns[..n][k] == turns[k];
    }
  }

  lemma {:induction false} RunAppend(s: Session, turns: seq<Observation>, more: seq<Observation>)
    ensures Run(s, turns + more) == Run(Run(s, turns), more)
  {
    if more == [] {
      assert turns + more == turns;
    } else {
      var m := |more| - 1;
      assert (turns + more)[..|turns| + m] == turns + more[..m];
      RunAppend(s, turns, more[..m]);
    }
  }

  /** The last recorded renewal decides: the row carries its tier and its time, and is valid for
      thirty days from then; and right after it no deadline is pending. */
  lemma LastRenewalDecides(s: Session, before: seq<Observation>, tier: string, now: int, after: seq<Observation>)
    requires Run(s, before).status == Active
    requires forall k :: 0 <= k < |after| ==> after[k].verdict.Member? ==> !after[k].writeOk
    ensures Run(s, before + [Observation(Member(tier), now, true)]).graceUntil == None
    ensures var r := Run(s, before + [Observation(Member(tier), now, true)] + after);
      r.tier == tier && r.lastVerified == now && r.expiresAt == now + 30 * 24 * 3600 * 1_000_000_000
  {
    var turns := before + [Observation(Member(tier), now, true)];
    assert turns[..|before|] == before;
    RunAppend(s, turns, after);
    UnrenewedKeeps(Run(s, turns), after);
  }

  // ---- What a pass leaves in the table ----

  /** A pass removes and adds no row and touches only active sessions of its own pool. */
  lemma OthersUntouched(t: Table, pool: string, obs: map<string, Observation>, id: string)
    requires id in t
    ensures AfterPass(t, pool, obs).Keys == t.Keys
    ensures t[id].pool != pool || t[id].status != Active ==> AfterPass(t, pool, obs)[id] == t[id]
  {}

  /** What each outcome says about an active session's row. */
  lemma OutcomeMeans(s: Session, o: Observation)
    requires s.status == Active
    ensures var (r, outcome) := Observe(s, o);
      && (outcome == NowExpired <==> r.status != Active)
      && (outcome == EnteredGrace <==> r.graceUntil.Some? && s.graceUntil.None?)
      && (outcome == Failed ==> r == s && (o.verdict == Unavailable || !o.writeOk))
      && (outcome == Unchanged <==>
            (o.verdict.Member? && o.writeOk) || (o.verdict == Lost && s.graceUntil.Some? && o.now < s.graceUntil.value))
      && (o.verdict == Unavailable ==> outcome == Failed)
  {}

  ghost function Ended(t: Table, ids: seq<string>, obs: map<string, Observation>, outcome: Outcome): set<string> {
    set id | id in ids && id in t && Observe(t[id], At(obs, id)).1 == outcome
  }

  lemma EndedSnoc(t: Table, ids: seq<string>, id: string, obs: map<string, Observation>, outcome: Outcome)
    requires id !in ids && id in t
    ensures |Ended(t, ids + [id], obs, outcome)|
         == |Ended(t, ids, obs, outcome)| + if Observe(t[id], At(obs, id)).1 == outcome then 1 else 0
  {
    hide Observe, At;
    var e := Ended(t, ids, obs, outcome);
    if Observe(t[id], At(obs, id)).1 == outcome {
      assert Ended(t, ids + [id], obs, outcome) == e + {id};
    } else {
      assert Ended(t, ids + [id], obs, outcome) == e;
    }
  }

  /** Each count is the number of listed sessions whose turn ended that way, and warnings go to
      exactly those that entered grace. */
  lemma {:induction false} CountsExact(t: Table, ids: seq<string>, obs: map<string, Observation>)
    requires forall id :: id in ids ==> id in t
    requires forall i, j :: 0 <= i < j < |ids| ==> ids[i] != ids[j]
    ensures var c := Counted(t, ids, obs);
      && c.expired == |Ended(t, ids, obs, NowExpired)| && c.grace == |Ended(t, ids, obs, EnteredGrace)|
      && c.kept == |Ended(t, ids, obs, Unchanged)| && c.failed == |Ended(t, ids, obs, Failed)|
    ensures forall id :: id in Warned(t, ids, obs) <==> id in Ended(t, ids, obs, EnteredGrace)
  {
    hide Observe, At;
    if ids != [] {
      var n := |ids| - 1;
      var front, id := ids[..n], ids[n];
      assert ids == front + [id] && id in ids;
      CountsExact(t, front, obs);
      EndedSnoc(t, front, id, obs, NowExpired);
      EndedSnoc(t, front, id, obs, EnteredGrace);
      EndedSnoc(t, front, id, obs, Unchanged);
      EndedSnoc(t, front, id, obs, Failed);
    }
  }
}
