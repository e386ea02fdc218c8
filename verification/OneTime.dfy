/** One-time credentials: signing nonces, authorization codes and activation codes.
    Redemption reads the row, checks it, and then consumes it with an UPDATE guarded by
    `consumed_at IS NULL` (repo_authnonce.go, repo_authorizationcode.go,
    repo_activationcode.go). */
module OneTime {
  import opened Wrappers
  import opened Timestamps

  // ---- Any number of consumers of one credential, interleaved ----

  datatype Row = Row(expires: Time, consumedAt: Option<Time>)

  datatype Phase =
    | Reading
    | Passed(now: Time)   // the checks on the row it read have passed
    | Won
    | Refused             // a check failed, or the transaction did
    | LostRace            // the guarded UPDATE matched no row

  datatype System = System(row: Option<Row>, consumers: map<nat, Phase>)

  datatype Step =
    | Arrive(i: nat)
    | Read(i: nat, now: Time, acceptable: bool)  // acceptable: purpose, channel type and instance match
    | Swap(i: nat)                               // the guarded UPDATE, committed
    | Abort(i: nat)                              // the transaction rolls back instead
    | Collect(before: Time)                      // the expiry sweep, where there is one

  predicate Readable(row: Option<Row>, now: Time) {
    row.Some? && row.value.consumedAt.None? && !row.value.expires.Before(now)
  }

  function Apply(s: System, step: Step): System {
    match step
    case Arrive(i) => if i in s.consumers then s else s.(consumers := s.consumers[i := Reading])
    case Read(i, now, acceptable) =>
      if i !in s.consumers || s.consumers[i] != Reading then s
      else s.(consumers := s.consumers[i := if Readable(s.row, now) && acceptable then Passed(now) else Refused])
    case Swap(i) =>
      if i !in s.consumers || !s.consumers[i].Passed? then s
      else if s.row.Some? && s.row.value.consumedAt.None? then
        System(Some(s.row.value.(consumedAt := Some(s.consumers[i].now))), s.consumers[i := Won])
      else s.(consumers := s.consumers[i := LostRace])
    case Abort(i) =>
      if i !in s.consumers || !s.consumers[i].Passed? then s
      else s.(consumers := s.consumers[i := Refused])
    case Collect(before) =>
      if s.row.Some? && StoredBefore(s.row.value.expires, before) then s.(row := None) else s
  }

  function Exec(s: System, steps: seq<Step>): System {
    if steps == [] then s else Apply(Exec(s, steps[..|steps| - 1]), steps[|steps| - 1])
  }

  ghost predicate Inv(s: System) {
    && (forall i, j :: i in s.consumers && j in s.consumers && s.consumers[i] == Won && s.consumers[j] == Won ==> i == j)
    && (forall i :: i in s.consumers && s.consumers[i] == Won ==> s.row.None? || s.row.value.consumedAt.Some?)
    && (s.row.Some? && s.row.value.consumedAt.Some? ==> exists i :: i in s.consumers && s.consumers[i] == Won)
    && (forall i :: i in s.consumers && s.consumers[i] == LostRace ==>
          s.row.None? || exists j :: j in s.consumers && s.consumers[j] == Won)
  }

  lemma StepKeeps(s: System, step: Step)
    requires Inv(s)
    ensures Inv(Apply(s, step))
  {
    var s' := Apply(s, step);
    forall j | j in s.consumers && s.consumers[j] == Won ensures j in s'.consumers && s'.consumers[j] == Won {}
    if step.Swap? && step.i in s'.consumers && s'.consumers[step.i] == Won && s != s' {
      assert s'.row.value.consumedAt.Some?;
    }
  }

  /** From a fresh row, whatever the interleaving, the sweep included: at most one
      consumer succeeds, and one that loses the race lost it to that consumer or to the
      sweep. */
  lemma {:induction false} AtMostOneWinner(expires: Time, steps: seq<Step>)
    ensures Inv(Exec(System(Some(Row(expires, None)), map[]), steps))
  {
    if steps != [] {
      AtMostOneWinner(expires, steps[..|steps| - 1]);
      StepKeeps(Exec(System(Some(Row(expires, None)), map[]), steps[..|steps| - 1]), steps[|steps| - 1]);
    }
  }

  /** One redemption run without interference, as the repositories below do it. */
  function Redeem(s: System, i: nat, now: Time, acceptable: bool): (t: System)
    requires i !in s.consumers
    ensures i in t.consumers
  {
    Apply(Apply(Apply(s, Arrive(i)), Read(i, now, acceptable)), Swap(i))
  }

  /** It succeeds exactly when the row it reads is live and acceptable, and after that
      no redemption succeeds again, at any time. */
  lemma RedeemedOnce(s: System, i: nat, j: nat, now: Time, later: Time, acceptable: bool)
    requires i !in s.consumers && j !in s.consumers && i != j
    ensures Redeem(s, i, now, acceptable).consumers[i] == Won <==>
      s.row.Some? && s.row.value.consumedAt == None && !s.row.value.expires.Before(now) && acceptable
    ensures Redeem(s, i, now, acceptable).consumers[i] == Won ==>
      Redeem(Redeem(s, i, now, acceptable), j, later, true).consumers[j] != Won
  {
    var t := Redeem(s, i, now, acceptable);
    assert t.consumers[i] == Won <==> Readable(s.row, now) && acceptable;
  }

  /** The sweep at `now` removes only rows that have expired or expire within the second;
      precisely, an unexpired row goes exactly when it expires later in the same second
      and its written fraction extends that of `now`. */
  lemma SweepEarlyIff(expires: Time, now: Time)
    requires expires.Valid() && now.Valid()
    ensures StoredBefore(expires, now) ==> expires.sec <= now.sec
    ensures !expires.Before(now) ==>
      (StoredBefore(expires, now) <==>
        expires != now && expires.sec == now.sec && Fraction(now.nanos) <= Fraction(expires.nanos))
    ensures expires.Before(now) && expires.sec < now.sec ==> StoredBefore(expires, now)
  {
    if now.Before(expires) {
      StoredOrder(now, expires);
    } else if now == expires {
      NotBeforeItself(Suffix(now.nanos));
    }
  }

  /** The nonces that a sweep on the second takes early: all that have a part of that second
      left, half of it say. */
  lemma SweepTakesLiveNonce(s: System, sec: int, nanos: nat)
    requires 0 < nanos < 1_000_000_000 && s.row == Some(Row(Time(sec, nanos), None))
    ensures !Time(sec, nanos).Before(Time(sec, 0))
    ensures Apply(s, Collect(Time(sec, 0))).row.None?
  {
    WholeSecondSortsLast(sec, nanos);
  }

  lemma {:induction false} NotBeforeItself(s: string)
    ensures !TextLess(s, s)
  {
    if s != "" { NotBeforeItself(s[1..]); }
  }

  // ---- The repositories ----

  datatype RedeemError = NotFound | AlreadyConsumed | IsExpired | WrongPurpose

  datatype Nonce = Nonce(purpose: string, boundKey: Option<string>, expires: Time, consumedAt: Option<Time>)

  class Nonces {
    var rows: map<string, Nonce>

    constructor ()
      ensures rows == map[]
    {
      rows := map[];
    }

    method Consume(nonce: string, purpose: string, now: Time) returns (r: Result<Nonce, RedeemError>)
      modifies this
      ensures r.Ok? <==> nonce in old(rows) && old(rows)[nonce].consumedAt.None?
                         && !old(rows)[nonce].expires.Before(now) && old(rows)[nonce].purpose == purpose
      ensures r.Ok? ==> rows == old(rows)[nonce := old(rows)[nonce].(consumedAt := Some(now))] && r.value == old(rows)[nonce]
      ensures r.Err? ==> rows == old(rows)
      ensures r == Err(NotFound) <==> nonce !in old(rows)
      ensures r == Err(AlreadyConsumed) <==> nonce in old(rows) && old(rows)[nonce].consumedAt.Some?
      ensures r == Err(IsExpired) <==>
        nonce in old(rows) && old(rows)[nonce].consumedAt.None? && old(rows)[nonce].expires.Before(now)
    {
      if nonce !in rows {
        return Err(NotFound);
      }
      var n := rows[nonce];
      if n.consumedAt.Some? {
        return Err(AlreadyConsumed);
      }
      if n.expires.Before(now) {
        return Err(IsExpired);
      }
      if n.purpose != purpose {
        return Err(WrongPurpose);
      }
      rows := rows[nonce := n.(consumedAt := Some(now))];
      return Ok(n);
    }

    /** The sweep keeps every nonce that has a full second left. */
    method DeleteExpired(before: Time) returns (removed: nat)
      modifies this
      ensures removed == |set k | k in old(rows) && StoredBefore(old(rows)[k].expires, before)|
      ensures rows.Keys == set k | k in old(rows) && !StoredBefore(old(rows)[k].expires, before)
      ensures forall k :: k in rows ==> rows[k] == old(rows)[k]
      ensures forall k :: k in old(rows) && old(rows)[k].expires.sec > before.sec ==> k in rows
    {
      var matched := set k | k in rows && StoredBefore(rows[k].expires, before);
      removed := |matched|;
      rows := map k | k in rows && k !in matched :: rows[k];
    }
  }

  datatype AuthCode = AuthCode(
    clientId: string, stake: string, redirect: string, challenge: Option<string>, expires: Time, consumedAt: Option<Time>)

  class AuthCodes {
    var rows: map<string, AuthCode>

    constructor ()
      ensures rows == map[]
    {
      rows := map[];
    }

    method Consume(code: string, now: Time) returns (r: Result<AuthCode, RedeemError>)
      modifies this
      ensures r.Ok? <==> code in old(rows) && old(rows)[code].consumedAt == None && !old(rows)[code].expires.Before(now)
      ensures r.Ok? ==> rows == old(rows)[code := old(rows)[code].(consumedAt := Some(now))] && r.value == old(rows)[code]
      ensures r.Err? ==> rows == old(rows)
      ensures r == Err(NotFound) <==> code !in old(rows)
      ensures r == Err(AlreadyConsumed) <==> code in old(rows) && old(rows)[code].consumedAt.Some?
    {
      if code !in rows {
        return Err(NotFound);
      }
      var c := rows[code];
      if c.consumedAt.Some? {
        return Err(AlreadyConsumed);
      }
      if c.expires.Before(now) {
        return Err(IsExpired);
      }
      rows := rows[code := c.(consumedAt := Some(now))];
      return Ok(c);
    }
  }

  datatype ActivationStatus = ActivationActive | ActivationConsumed

  datatype Activation = Activation(
    stake: string, channelId: string, channelType: string, status: ActivationStatus, expires: Time, consumedAt: Option<Time>)

  /** May a bot of this type and instance redeem the code?  Unbound codes and unbound
      bots are scoped by type alone. */
  predicate BoundFor(a: Activation, channelType: string, channelId: string) {
    a.channelType == channelType && (channelId == "" || a.channelId == "" || a.channelId == channelId)
  }

  class Activations {
    var rows: map<string, Activation>

    constructor ()
      ensures rows == map[]
    {
      rows := map[];
    }

    method Consume(code: string, channelType: string, channelId: string, now: Time)
      returns (r: Result<Activation, RedeemError>)
      modifies this
      ensures r.Ok? <==>
        && code in old(rows) && old(rows)[code].channelType == channelType
        && (channelId == "" || old(rows)[code].channelId in {"", channelId})
        && old(rows)[code].consumedAt == None && !old(rows)[code].expires.Before(now)
      ensures r.Ok? ==>
        && rows == old(rows)[code := old(rows)[code].(status := ActivationConsumed, consumedAt := Some(now))]
        && r.value == old(rows)[code].(status := ActivationConsumed)
      ensures r.Err? ==> rows == old(rows)
      ensures r == Err(NotFound) <==> code !in old(rows)
      ensures r == Err(WrongPurpose) <==>
        && code in old(rows)
        && (old(rows)[code].channelType != channelType || (channelId != "" && old(rows)[code].channelId !in {"", channelId}))
    {
      if code !in rows {
        return Err(NotFound);
      }
      var a := rows[code];
      if a.channelType != channelType {
        return Err(WrongPurpose);
      }
      if channelId != "" && a.channelId != "" && a.channelId != channelId {
        return Err(WrongPurpose);
      }
      if a.consumedAt.Some? {
        return Err(AlreadyConsumed);
      }
      if a.expires.Before(now) {
        return Err(IsExpired);
      }
      rows := rows[code := a.(status := ActivationConsumed, consumedAt := Some(now))];
      return Ok(a.(status := ActivationConsumed));
    }
  }
}
