/** The refresh-grant table and the refresh endpoint as one caller runs them
    (repo_refreshgrant.go, token.go). */
module GrantRepo {
  import opened Wrappers
  import opened RefreshGrants

  /** What RevokeChain leaves: the start and everything below it revoked, nothing else touched. */
  ghost function RevokedBelow(t: Table, start: Id): Table
    requires Ordered(t)
  {
    map id | id in t :: if Descends(t, start, id) then t[id].(status := Revoked) else t[id]
  }

  /** A change of statuses alone. */
  ghost predicate SameShape(t: Table, u: Table) {
    t.Keys == u.Keys && forall id :: id in t ==> u[id] == t[id].(status := u[id].status)
  }

  lemma ShapeKeepsOrder(t: Table, u: Table)
    requires Ordered(t) && SameShape(t, u)
    ensures Ordered(u)
  {
    forall c, p | ChildOf(u, c, p) ensures p in u && u[p].rowid < u[c].rowid {
      assert ChildOf(t, c, p);
    }
  }

  datatype RefreshError = InvalidGrant | InvalidClient | NotEligible | AttestFailed | NoSigner | MintFailed

  datatype Eligibility = Unavailable | NotMember | Member

  /** The request, and what the collaborators answer while it is served. */
  datatype RefreshRequest = RefreshRequest(
    grantId: Id,          // hash of the presented token
    clientSecretOk: bool, // the client exists and its secret matches
    devicePubkey: string,
    now: int,
    eligibility: Eligibility,
    signerOk: bool,
    mintOk: bool,
    newId: Id,
    newExpiry: Option<int>,
    writeOk: bool)        // the status writes whose errors the endpoint ignores succeed

  function RevokedSet(t: Table, ids: set<Id>): Table {
    map id | id in t :: if id in ids then t[id].(status := Revoked) else t[id]
  }

  class Grants {
    var rows: Table
    var nextRow: nat

    ghost predicate Valid()
      reads this
    {
      Ordered(rows) && forall id :: id in rows ==> rows[id].rowid < nextRow
    }

    constructor ()
      ensures Valid() && rows == map[]
    {
      rows := map[];
      nextRow := 0;
    }

    method Update(id: Id, status: Status)
      requires Valid()
      modifies `rows
      ensures Valid() && rows == SetStatus(old(rows), id, status) && SameShape(old(rows), rows)
    {
      if id in rows {
        rows := rows[id := rows[id].(status := status)];
      }
      ShapeKeepsOrder(old(rows), rows);
    }

    /** True only for the caller that found the grant active. */
    method RotateIfActive(id: Id) returns (won: bool)
      requires Valid()
      modifies `rows
      ensures Valid() && SameShape(old(rows), rows)
      ensures won <==> id in old(rows) && old(rows)[id].status == Active
      ensures rows == if won then SetStatus(old(rows), id, Rotated) else old(rows)
    {
      won := id in rows && rows[id].status == Active;
      if won {
        rows := rows[id := rows[id].(status := Rotated)];
      }
      ShapeKeepsOrder(old(rows), rows);
    }

    /** The number of rows the UPDATE matched. */
    method RevokeByStake(stake: string) returns (n: nat)
      requires Valid()
      modifies `rows
      ensures Valid() && rows == RevokeStake(old(rows), stake)
      ensures n == |set id | id in old(rows) && old(rows)[id].stake == stake && old(rows)[id].status != Revoked|
    {
      var matched := set id | id in rows && rows[id].stake == stake && rows[id].status != Revoked;
      n := |matched|;
      rows := map id | id in rows :: if id in matched then rows[id].(status := Revoked) else rows[id];
      assert rows == RevokeStake(old(rows), stake);
      ShapeKeepsOrder(old(rows), rows);
    }

    /** The worklist walk, run without interference. */
    method RevokeChain(start: Id)
      requires Valid()
      modifies `rows
      ensures Valid() && rows == RevokedBelow(old(rows), start) && SameShape(old(rows), rows)
      ensures forall id :: id in old(rows) ==>
        rows[id].status == if Descends(old(rows), start, id) then Revoked else old(rows)[id].status
    {
      ghost var t := rows;
      ghost var done: set<Id> := {};
      var ids := [start];
      assert rows == RevokedSet(t, {});
      while |ids| > 0
        invariant rows == RevokedSet(t, done)
        invariant Frontier(t, start, done, ids)
        decreases t.Keys + {start} - done
      {
        var cur := ids[0];
        SuccessorsAreNew(t, start, done, ids);
        FrontierInTable(t, start, done, ids);
        rows := SetStatus(rows, cur, Revoked);
        var children := set c | c in rows && rows[c].rotatedFrom == Some(cur);
        assert forall c :: c in children <==> ChildOf(t, c, cur);
        ghost var before := ids;
        ids := AppendRows(ids[1..], children);
        FrontierAdvances(t, start, done, before, ids);
        done := done + {cur};
      }
      FrontierIsAll(t, start, done);
      assert rows == RevokedBelow(t, start);
      ShapeKeepsOrder(t, rows);
    }

    /** GET, the status and possession checks, the gate, then rotate-and-mint. */
    method TokenRefresh(req: RefreshRequest) returns (r: Result<Id, RefreshError>)
      requires Valid()
      requires req.newId !in rows  // a fresh random token
      modifies this
      ensures Valid()
      ensures r == RefreshOutcome(old(rows), req)
      ensures rows == RefreshEffect(old(rows), old(nextRow), req)
      ensures nextRow == old(nextRow) + if r.Ok? then 1 else 0
    {
      if req.grantId !in rows {
        return Err(InvalidGrant);
      }
      var grant := rows[req.grantId];
      match grant.status {
        case Active =>
        case Rotated =>
          if req.writeOk {
            RevokeChain(req.grantId);
          }
          return Err(InvalidGrant);
        case _ =>
          return Err(InvalidGrant);
      }
      if grant.expiresAt.Some? && req.now > grant.expiresAt.value {
        if req.writeOk {
          Update(req.grantId, Expired);
        }
        return Err(InvalidGrant);
      }
      if grant.clientType == Confidential && (grant.clientId.None? || !req.clientSecretOk) {
        return Err(InvalidClient);
      }
      if grant.clientType == Public && grant.boundDevice != "" && req.devicePubkey != grant.boundDevice {
        return Err(InvalidGrant);
      }
      if req.eligibility == Unavailable {
        return Err(AttestFailed);
      }
      if req.eligibility == NotMember {
        return Err(NotEligible);
      }
      if !req.signerOk {
        return Err(NoSigner);
      }
      // The transaction: on any error below, the rotation is rolled back.
      var snapshot := rows;
      var won := RotateIfActive(req.grantId);
      if !won || !req.mintOk {
        rows := snapshot;
        return Err(if won then MintFailed else InvalidGrant);
      }
      rows := rows[req.newId := grant.(status := Active, rotatedFrom := Some(req.grantId), rowid := nextRow,
                                       expiresAt := req.newExpiry)];
      nextRow := nextRow + 1;
      RotationKeepsOrder(old(rows), req.grantId, req.newId, old(nextRow), req.newExpiry);
      return Ok(req.newId);
    }
  }

  /** May this request spend this grant? */
  predicate Presentable(g: Grant, req: RefreshRequest) {
    && g.status == Active
    && !(g.expiresAt.Some? && req.now > g.expiresAt.value)
    && (g.clientType == Confidential ==> g.clientId.Some? && req.clientSecretOk)
    && (g.clientType == Public && g.boundDevice != "" ==> req.devicePubkey == g.boundDevice)
  }

  function RefreshOutcome(t: Table, req: RefreshRequest): Result<Id, RefreshError> {
    if req.grantId !in t then Err(InvalidGrant)
    else
      var g := t[req.grantId];
      if Presentable(g, req) then
        match req.eligibility
        case Unavailable => Err(AttestFailed)
        case NotMember => Err(NotEligible)
        case Member => if !req.signerOk then Err(NoSigner) else if !req.mintOk then Err(MintFailed) else Ok(req.newId)
      else if g.status == Active && !(g.expiresAt.Some? && req.now > g.expiresAt.value) && g.clientType == Confidential
      then Err(InvalidClient)
      else Err(InvalidGrant)
  }

  ghost function RefreshEffect(t: Table, row: nat, req: RefreshRequest): Table
    requires Ordered(t)
  {
    if req.grantId !in t then t
    else
      var g := t[req.grantId];
      if g.status == Rotated then
        if req.writeOk then RevokedBelow(t, req.grantId) else t
      else if g.status == Active && g.expiresAt.Some? && req.now > g.expiresAt.value then
        if req.writeOk then SetStatus(t, req.grantId, Expired) else t
      else if RefreshOutcome(t, req).Ok? then Rotate(t, req.grantId, req.newId, row, req.newExpiry)
      else t
  }

  method AppendRows(ids: seq<Id>, rows: set<Id>) returns (out: seq<Id>)
    requires Distinct(ids) && forall id :: id in ids ==> id !in rows
    ensures Distinct(out) && forall id :: id in out <==> id in ids || id in rows
  {
    out := ids;
    var unread := rows;
    while unread != {}
      invariant unread <= rows && Distinct(out)
      invariant forall id :: id in out <==> id in ids || id in rows - unread
    {
      var c :| c in unread;
      unread := unread - {c};
      out := out + [c];
    }
  }

  predicate Distinct(ids: seq<Id>) {
    forall i, j :: 0 <= i < j < |ids| ==> ids[i] != ids[j]
  }

  /** The walk so far: ids done and ids waiting descend from the start, are apart, and
      together contain every successor of a done one. */
  ghost predicate Frontier(t: Table, start: Id, done: set<Id>, ids: seq<Id>)
    requires Ordered(t)
  {
    && Distinct(ids)
    && (forall id :: id in ids ==> id !in done)
    && (forall id :: id in done || id in ids ==> Descends(t, start, id))
    && (start in done || start in ids)
    && (forall c, p {:trigger ChildOf(t, c, p)} :: ChildOf(t, c, p) ==>
          (p in done ==> c in done || c in ids) && (c != start && (c in done || c in ids) ==> p in done))
  }

  lemma {:induction false} DescendantIsLater(t: Table, a: Id, b: Id)
    requires Ordered(t) && Descends(t, a, b) && a != b
    ensures a in t && b in t && t[a].rowid < t[b].rowid
    decreases if b in t then t[b].rowid + 1 else 0
  {
    var p := t[b].rotatedFrom.value;
    assert ChildOf(t, b, p);
    if p != a { DescendantIsLater(t, a, p); }
  }

  lemma SuccessorsAreNew(t: Table, start: Id, done: set<Id>, ids: seq<Id>)
    requires Ordered(t) && ids != [] && Frontier(t, start, done, ids)
    ensures forall c {:trigger ChildOf(t, c, ids[0])} :: ChildOf(t, c, ids[0]) ==> c !in done && c !in ids && c != start
    ensures Distinct(ids[1..]) && ids[0] !in ids[1..]
    ensures forall id :: id in ids <==> id == ids[0] || id in ids[1..]
  {
    var cur := ids[0];
    forall c | ChildOf(t, c, cur) ensures c !in done && c != start && c !in ids {
      assert Descends(t, start, cur);
      if c == start {
        if cur != start { DescendantIsLater(t, start, cur); }
      } else {
        assert cur !in done;
      }
    }
    assert ids == [cur] + ids[1..];
  }

  lemma FrontierInTable(t: Table, start: Id, done: set<Id>, ids: seq<Id>)
    requires Ordered(t) && ids != [] && Frontier(t, start, done, ids)
    ensures ids[0] in t.Keys + {start} - done
    ensures SetStatus(RevokedSet(t, done), ids[0], Revoked) == RevokedSet(t, done + {ids[0]})
  {
    assert Descends(t, start, ids[0]);
  }

  lemma FrontierAdvances(t: Table, start: Id, done: set<Id>, ids: seq<Id>, ids': seq<Id>)
    requires Ordered(t) && ids != [] && Frontier(t, start, done, ids)
    requires Distinct(ids') && forall id :: id in ids' <==> id in ids[1..] || ChildOf(t, id, ids[0])
    ensures Frontier(t, start, done + {ids[0]}, ids')
  {
    SuccessorsAreNew(t, start, done, ids);
    forall id | ChildOf(t, id, ids[0]) ensures Descends(t, start, id) {
      assert Descends(t, start, ids[0]);
    }
  }

  lemma {:induction false} FrontierComplete(t: Table, start: Id, done: set<Id>, id: Id)
    requires Ordered(t) && Frontier(t, start, done, []) && Descends(t, start, id)
    ensures id in done
    decreases if id in t then t[id].rowid + 1 else 0
  {
    if id != start {
      assert ChildOf(t, id, t[id].rotatedFrom.value);
      FrontierComplete(t, start, done, t[id].rotatedFrom.value);
    }
  }

  lemma FrontierIsAll(t: Table, start: Id, done: set<Id>)
    requires Ordered(t) && Frontier(t, start, done, [])
    ensures forall id :: id in t ==> (Descends(t, start, id) <==> id in done)
  {
    forall id | id in t && Descends(t, start, id) ensures id in done {
      FrontierComplete(t, start, done, id);
    }
  }

  lemma RotationKeepsOrder(t: Table, id: Id, newId: Id, row: nat, expiresAt: Option<int>)
    requires Ordered(t) && id in t && newId !in t
    requires forall i :: i in t ==> t[i].rowid < row
    ensures Ordered(Rotate(t, id, newId, row, expiresAt))
  {
    var u := Rotate(t, id, newId, row, expiresAt);
    forall c, p | ChildOf(u, c, p) ensures p in u && u[p].rowid < u[c].rowid {
      if c != newId { assert ChildOf(t, c, p); }
    }
  }

  // ---- One caller's refresh is one step of the interleaved system ----

  lemma RefreshIsStep(s: System, req: RefreshRequest)
    requires Inv(s) && req.newId !in s.grants
    requires RefreshOutcome(s.grants, req).Ok?
    ensures RefreshEffect(s.grants, s.nextRow, req) == Apply(s, Refresh(req.grantId, req.newId, req.newExpiry)).grants
  {}

  /** A refresh never hands out a token unless the credential is a member and the grant
      was spendable; and it spends it: the grant is rotated, its one successor active. */
  lemma RefreshSpends(t: Table, row: nat, req: RefreshRequest)
    requires Chains(t) && (forall i :: i in t ==> t[i].rowid < row) && req.newId !in t
    ensures RefreshOutcome(t, req).Ok? <==>
      req.grantId in t && Presentable(t[req.grantId], req) && req.eligibility == Member && req.signerOk && req.mintOk
    ensures var u := RefreshEffect(t, row, req);
      RefreshOutcome(t, req).Ok? ==>
        && u[req.grantId].status == Rotated && u[req.newId].status == Active
        && (forall c :: ChildOf(u, c, req.grantId) <==> c == req.newId)
        && u[req.newId].stake == t[req.grantId].stake
  {
    if RefreshOutcome(t, req).Ok? {
      var u := RefreshEffect(t, row, req);
      forall c | ChildOf(u, c, req.grantId) ensures c == req.newId {
        if c != req.newId { assert ChildOf(t, c, req.grantId); }
      }
    }
  }

  /** Whoever presents a live grant must show what it is bound to: the device key of a bound
      public grant, the secret of a confidential grant's client.  Otherwise it is refused and
      the table stays as it was. */
  lemma PossessionRequired(t: Table, row: nat, req: RefreshRequest)
    requires Ordered(t) && req.grantId in t && t[req.grantId].status == Active
    requires t[req.grantId].expiresAt.Some? ==> req.now <= t[req.grantId].expiresAt.value
    ensures var g := t[req.grantId];
      g.clientType == Public && g.boundDevice != "" && req.devicePubkey != g.boundDevice ==>
        RefreshOutcome(t, req) == Err(InvalidGrant) && RefreshEffect(t, row, req) == t
    ensures var g := t[req.grantId];
      g.clientType == Confidential && (g.clientId == None || !req.clientSecretOk) ==>
        RefreshOutcome(t, req) == Err(InvalidClient) && RefreshEffect(t, row, req) == t
    ensures var g := t[req.grantId];
      (g.clientType == Public && (g.boundDevice == "" || req.devicePubkey == g.boundDevice))
      || (g.clientType == Confidential && g.clientId != None && req.clientSecretOk) ==>
        RefreshOutcome(t, req) ==
          (if req.eligibility == Unavailable then Err(AttestFailed)
           else if req.eligibility == NotMember then Err(NotEligible)
           else if !req.signerOk then Err(NoSigner)
           else if !req.mintOk then Err(MintFailed)
           else Ok(req.newId))
  {}

  /** An overdue grant is refused whatever else the request shows, and marked as expired. */
  lemma OverdueRefused(t: Table, row: nat, req: RefreshRequest, at: int)
    requires Ordered(t) && req.grantId in t && t[req.grantId].status == Active
    requires t[req.grantId].expiresAt == Some(at) && at < req.now
    ensures RefreshOutcome(t, req) == Err(InvalidGrant)
    ensures RefreshEffect(t, row, req) ==
      if req.writeOk then t[req.grantId := t[req.grantId].(status := Expired)] else t
  {}

  /** A dead or unknown grant is refused; only a rotated one sets off the chain revocation. */
  lemma DeadRefused(t: Table, row: nat, req: RefreshRequest)
    requires Ordered(t) && (req.grantId in t ==> t[req.grantId].status != Active)
    ensures RefreshOutcome(t, req) == Err(InvalidGrant)
    ensures req.grantId !in t || t[req.grantId].status != Rotated || !req.writeOk ==> RefreshEffect(t, row, req) == t
  {}

  /** The successor carries over the credential and everything the grant was bound to. */
  lemma SuccessorStaysBound(t: Table, row: nat, req: RefreshRequest)
    requires Ordered(t) && RefreshOutcome(t, req).Ok?
    ensures var g := t[req.grantId];
      RefreshEffect(t, row, req) ==
        t[req.grantId := Grant(g.stake, g.clientType, g.clientId, g.boundDevice, g.expiresAt, Rotated, g.rotatedFrom, g.rowid)]
         [req.newId := Grant(g.stake, g.clientType, g.clientId, g.boundDevice, req.newExpiry, Active, Some(req.grantId), row)]
  {}

  /** Presenting a spent token again is refused and, if the revocation is written, kills the
      successor it was traded for, so neither can be refreshed any more. */
  lemma ReplayKillsSuccessor(t: Table, row: nat, first: RefreshRequest, again: RefreshRequest, last: RefreshRequest)
    requires Ordered(t) && (forall i :: i in t ==> t[i].rowid < row) && first.newId !in t
    requires RefreshOutcome(t, first).Ok? && again.grantId == first.grantId && last.grantId == first.newId
    ensures var u := RefreshEffect(t, row, first);
      && Ordered(u) && RefreshOutcome(u, again) == Err(InvalidGrant)
      && var v := RefreshEffect(u, row + 1, again);
         && RefreshOutcome(v, again) == Err(InvalidGrant)
         && (again.writeOk ==> RefreshOutcome(v, last) == Err(InvalidGrant))
         && (!again.writeOk ==> v == u)
  {
    RotationKeepsOrder(t, first.grantId, first.newId, row, first.newExpiry);
    var u := RefreshEffect(t, row, first);
    assert ChildOf(u, first.newId, first.grantId);
    assert Descends(u, first.grantId, first.newId);
  }

  ghost predicate FamilyDead(t: Table, id: Id) {
    forall m :: SameFamily(t, m, id) ==> t[m].status != Active
  }

  lemma {:induction false} RootKept(t: Table, u: Table, id: Id)
    requires Ordered(t) && Ordered(u) && SameShape(t, u) && id in t
    ensures Root(u, id) == Root(t, id)
    decreases t[id].rowid
  {
    if t[id].rotatedFrom.Some? {
      assert ChildOf(t, id, t[id].rotatedFrom.value);
      RootKept(t, u, t[id].rotatedFrom.value);
    }
  }

  lemma FamilyKept(t: Table, u: Table, a: Id, b: Id)
    requires Ordered(t) && SameShape(t, u)
    ensures SameFamily(u, a, b) <==> SameFamily(t, a, b)
  {
    ShapeKeepsOrder(t, u);
    if a in t && b in t {
      RootKept(t, u, a);
      RootKept(t, u, b);
    }
  }

  /** The active member of a family descends from every spent one. */
  lemma ActiveIsBelow(t: Table, spent: Id, m: Id)
    requires Chains(t) && SameFamily(t, m, spent) && t[m].status == Active && t[spent].status != Active
    ensures Descends(t, spent, m)
  {
    FamilyIsPath(t, m, spent);
    if !Descends(t, spent, m) {
      var c := FirstStep(t, m, spent);
    }
  }

  /** Presenting a grant that a refresh has spent leaves its family without an active member
      exactly if its status still is rotated and the revocation can be written -- or there was
      no active member to begin with. */
  lemma ReplayStopsIff(t: Table, row: nat, req: RefreshRequest)
    requires Chains(t) && req.grantId in t && t[req.grantId].status != Active
    ensures FamilyDead(RefreshEffect(t, row, req), req.grantId) <==>
      (t[req.grantId].status == Rotated && req.writeOk) || FamilyDead(t, req.grantId)
    ensures RefreshOutcome(t, req) == Err(InvalidGrant)
  {
    var u := RefreshEffect(t, row, req);
    if t[req.grantId].status == Rotated && req.writeOk {
      forall m | SameFamily(u, m, req.grantId) ensures u[m].status != Active {
        FamilyKept(t, u, m, req.grantId);
        if t[m].status == Active { ActiveIsBelow(t, req.grantId, m); }
      }
    } else {
      assert u == t;
    }
  }

  /** After a refresh, a write over the spent grant's status -- its own revocation, or the
      expiry write of a slower request -- makes presenting it again change
      nothing: the successor stays active. */
  lemma OverwrittenReplayKeepsSuccessor(t: Table, row: nat, first: RefreshRequest, over: Status, again: RefreshRequest)
    requires Ordered(t) && (forall i :: i in t ==> t[i].rowid < row) && first.newId !in t
    requires RefreshOutcome(t, first).Ok? && again.grantId == first.grantId && (over == Revoked || over == Expired)
    ensures var u := SetStatus(RefreshEffect(t, row, first), first.grantId, over);
      && Ordered(u) && RefreshEffect(u, row + 1, again) == u
      && ChildOf(u, first.newId, first.grantId) && u[first.newId].status == Active
  {
    RotationKeepsOrder(t, first.grantId, first.newId, row, first.newExpiry);
    var r := RefreshEffect(t, row, first);
    ShapeKeepsOrder(r, SetStatus(r, first.grantId, over));
  }
}
