/** A revocation against requests and passes that were already under way: the code exchange,
    the refresh and the activation split into what they do up to their gate and what they
    write after it, and the reconciliation pass into the listing of a session, the decision
    and the write (token.go, telegram.go, reconciliation.go, handlers_admin_resources.go). */
module RevocationRaces {
  import opened Wrappers
  import opened MemberRevocation
  import G = RefreshGrants
  import R = GrantRepo
  import S = Reconciliation

  /** What a request or a pass still has to write. */
  datatype Flight =
    | Minting(stake: string, mint: Mint)                                    // a code exchange past its gate
    | Rotating(stake: string, grantId: string, newId: string, expiry: Option<int>, mint: Mint)
    | Binding(stake: string, slot: string, session: S.Session)              // an activation past its gate
    | Listed(slot: string, session: S.Session)                              // in a pass, as the listing read it
    | Upserting(slot: string, session: S.Session)                           // in a pass, decided
    | Expiring(slot: string)
    | Over

  datatype System = System(db: Db, flights: map<nat, Flight>)

  datatype Happening =
    | Single(request: Request)                  // a request that is a single step
    | PassGate(f: nat, request: Request)        // exchange, refresh or activation, up to its gate
    | List(f: nat, slot: string)
    | Decide(f: nat, blacklistRead: bool, o: S.Observation)
    | Land(f: nat, writeOk: bool)
    | Issued(stake: string, statement: Statement)

  /** What a pass writes for a session it listed; a denied credential is no member. */
  function Plan(db: Db, slot: string, session: S.Session, blacklistRead: bool, o: S.Observation): Flight {
    var verdict := if !blacklistRead then S.Unavailable
                   else if session.stake in db.blacklist then S.Lost
                   else o.verdict;
    var (after, outcome) := S.Observe(session, S.Observation(verdict, o.now, true));
    if verdict.Unavailable? || (verdict.Lost? && outcome == S.Unchanged) then Over
    else if outcome == S.NowExpired then Expiring(slot)
    else Upserting(slot, after)
  }

  /** A refresh passes its gate if it would succeed up to the transaction. */
  predicate RefreshPasses(db: Db, r: Request)
    requires r.Refresh?
  {
    R.RefreshOutcome(db.grants, Gated(db, r).(mintOk := true)).Ok?
  }

  function Begun(s: System, f: nat, r: Request): System {
    if f in s.flights then s
    else if r.Exchange? then
      var (d, stake) := BeginExchange(s.db, r);
      System(d, s.flights[f := if stake.None? then Over else Minting(stake.value, r.mint)])
    else if r.Activate? then
      var (d, stake) := BeginActivate(s.db, r);
      System(d, s.flights[f := if stake.None? then Over else Binding(stake.value, r.slot, r.session)])
    else if r.Refresh? && r.refresh.grantId in s.db.grants && RefreshPasses(s.db, r) then
      s.(flights := s.flights[f := Rotating(s.db.grants[r.refresh.grantId].stake, r.refresh.grantId, r.refresh.newId,
                                            r.refresh.newExpiry, r.mint)])
    else s
  }

  /** The transaction of a refresh: the compare-and-swap, the token and the new grant. */
  function FinishRefresh(db: Db, p: Flight): Db
    requires p.Rotating?
  {
    if p.grantId in db.grants && db.grants[p.grantId].status == G.Active && p.newId !in db.grants
       && WithToken(db, p.stake, p.mint).Some?
    then
      var d := WithToken(db, p.stake, p.mint).value;
      d.(grants := G.Rotate(db.grants, p.grantId, p.newId, db.nextRow, p.expiry), nextRow := db.nextRow + 1)
    else db
  }

  function Finished(db: Db, p: Flight): Db {
    match p
    case Minting(stake, mint) => FinishExchange(db, stake, mint).0
    case Rotating(_, _, _, _, _) => FinishRefresh(db, p)
    case Binding(stake, slot, session) => FinishActivate(db, slot, stake, session)
    case Upserting(slot, session) => Upsert(db, slot, session)
    case Expiring(slot) =>
      if slot in db.sessions then db.(sessions := db.sessions[slot := db.sessions[slot].(status := S.Expired)]) else db
    case _ => db
  }

  /** One step; a step that cannot happen changes nothing. */
  function Happen(s: System, h: Happening): System {
    match h
    case Single(r) => if Simple(r) then s.(db := ServeSimple(s.db, r).0) else s
    case PassGate(f, r) => Begun(s, f, r)
    case List(f, slot) =>
      if f in s.flights || slot !in s.db.sessions || s.db.sessions[slot].status != S.Active then s
      else s.(flights := s.flights[f := Flight.Listed(slot, s.db.sessions[slot])])
    case Decide(f, read, o) =>
      if f !in s.flights || !s.flights[f].Listed? then s
      else s.(flights := s.flights[f := Plan(s.db, s.flights[f].slot, s.flights[f].session, read, o)])
    case Land(f, ok) =>
      if f !in s.flights || s.flights[f].Listed? then s
      else System(if ok then Finished(s.db, s.flights[f]) else s.db, s.flights[f := Over])
    case Issued(stake, w) => s.(db := AfterStatement(s.db, stake, w))
  }

  function After(s: System, run: seq<Happening>): System {
    if run == [] then s else Happen(After(s, run[..|run| - 1]), run[|run| - 1])
  }

  lemma AfterSnoc(s: System, run: seq<Happening>, h: Happening)
    ensures After(s, run + [h]) == Happen(After(s, run), h)
  {
    assert (run + [h])[..|run|] == run;
  }

  /** How far a revocation of the credential has come. */
  function Progress(run: seq<Happening>, stake: string): (k: nat)
    ensures k <= 4
  {
    if run == [] then 0
    else
      var k, h := Progress(run[..|run| - 1], stake), run[|run| - 1];
      if k < 4 && h == Issued(stake, Nth(k)) then k + 1 else k
  }

  lemma ProgressSnoc(run: seq<Happening>, h: Happening, stake: string)
    ensures Progress(run + [h], stake) ==
      var k := Progress(run, stake); if k < 4 && h == Issued(stake, Nth(k)) then k + 1 else k
  {
    assert (run + [h])[..|run|] == run;
  }

  lemma {:induction false} ProgressStays(run: seq<Happening>, n: nat, stake: string)
    requires n <= |run|
    ensures Progress(run[..n], stake) <= Progress(run, stake)
    decreases |run|
  {
    if n < |run| {
      assert run[..|run| - 1][..n] == run[..n];
      ProgressStays(run[..|run| - 1], n, stake);
    } else {
      assert run[..n] == run;
    }
  }

  // ---- Where a write comes from ----

  /** The credential of a request past its gate. */
  function GatedFor(p: Flight): Option<string> {
    match p
    case Minting(stake, _) => Some(stake)
    case Rotating(stake, _, _, _, _) => Some(stake)
    case Binding(stake, _, _) => Some(stake)
    case _ => None
  }

  ghost predicate GateRead(s: System, run: seq<Happening>, f: nat, stake: string) {
    exists g :: 0 <= g < |run| && run[g].PassGate? && run[g].f == f && stake !in After(s, run[..g]).db.blacklist
  }

  /** The listing in step `l` read the row active for the credential. */
  predicate ReadActive(s: System, run: seq<Happening>, l: nat, f: nat, slot: string, stake: string) {
    && l < |run| && run[l] == List(f, slot)
    && var db := After(s, run[..l]).db;
       slot in db.sessions && db.sessions[slot].status == S.Active && db.sessions[slot].stake == stake
  }

  ghost predicate KnownFlight(s: System, run: seq<Happening>, f: nat, p: Flight) {
    && (GatedFor(p).Some? ==> GateRead(s, run, f, GatedFor(p).value))
    && (p.Listed? || p.Upserting? ==>
          p.session.status == S.Active && exists l: nat :: ReadActive(s, run, l, f, p.slot, p.session.stake))
  }

  lemma KnownStays(s: System, run: seq<Happening>, h: Happening, f: nat, p: Flight)
    requires KnownFlight(s, run, f, p)
    ensures KnownFlight(s, run + [h], f, p)
  {
    hide After;
    assert forall k :: 0 <= k < |run| ==> (run + [h])[..k] == run[..k] && (run + [h])[k] == run[k];
    if GatedFor(p).Some? {
      var g :| 0 <= g < |run| && run[g].PassGate? && run[g].f == f && GatedFor(p).value !in After(s, run[..g]).db.blacklist;
      assert (run + [h])[g] == run[g];
    }
    if p.Listed? || p.Upserting? {
      var l: nat :| ReadActive(s, run, l, f, p.slot, p.session.stake);
      assert ReadActive(s, run + [h], l, f, p.slot, p.session.stake);
    }
  }

  /** The gate refuses a denied credential. */
  lemma GateOpens(s: System, f: nat, r: Request)
    requires f !in s.flights && f in Begun(s, f, r).flights
    ensures var p := Begun(s, f, r).flights[f];
      !p.Listed? && !p.Upserting? && (GatedFor(p).Some? ==> GatedFor(p).value !in s.db.blacklist)
  {}

  lemma PlanKeeps(db: Db, slot: string, session: S.Session, read: bool, o: S.Observation)
    requires session.status == S.Active
    ensures var p := Plan(db, slot, session, read, o);
      GatedFor(p).None? && !p.Listed?
      && (p.Upserting? ==> p.slot == slot && p.session.stake == session.stake && p.session.status == S.Active)
  {}

  lemma FlightFrom(s: System, run: seq<Happening>, h: Happening, f: nat)
    requires forall i :: i in After(s, run).flights ==> KnownFlight(s, run, i, After(s, run).flights[i])
    requires f in Happen(After(s, run), h).flights
    ensures KnownFlight(s, run + [h], f, Happen(After(s, run), h).flights[f])
  {
    hide After, Finished, ServeSimple, AfterStatement, KnownFlight, Plan, BeginExchange, BeginActivate, RefreshPasses;
    var t := After(s, run);
    var p := Happen(t, h).flights[f];
    if f in t.flights && p == t.flights[f] {
      KnownStays(s, run, h, f, p);
    } else {
      NewFlight(s, run, h, f);
    }
  }

  lemma NewFlight(s: System, run: seq<Happening>, h: Happening, f: nat)
    requires forall i :: i in After(s, run).flights ==> KnownFlight(s, run, i, After(s, run).flights[i])
    requires var t := After(s, run); f in Happen(t, h).flights && !(f in t.flights && Happen(t, h).flights[f] == t.flights[f])
    ensures KnownFlight(s, run + [h], f, Happen(After(s, run), h).flights[f])
  {
    hide After, Finished, ServeSimple, AfterStatement, Plan, BeginExchange, BeginActivate, RefreshPasses;
    var t, n := After(s, run), |run|;
    assert (run + [h])[..n] == run && (run + [h])[n] == h;
    match h {
      case PassGate(_, r) => GateOpens(t, f, r);
      case List(_, slot) => assert ReadActive(s, run + [h], n, f, slot, t.db.sessions[slot].stake);
      case Decide(_, read, o) =>
        var p := t.flights[f];
        PlanKeeps(t.db, p.slot, p.session, read, o);
        KnownStays(s, run, h, f, p);
      case _ =>
    }
  }

  ghost predicate AllKnown(s: System, run: seq<Happening>) {
    forall f :: f in After(s, run).flights ==> KnownFlight(s, run, f, After(s, run).flights[f])
  }

  lemma {:induction false} RunKnown(s: System, run: seq<Happening>)
    requires s.flights == map[]
    ensures AllKnown(s, run)
  {
    hide Happen, KnownFlight;
    if run != [] {
      var front, h := run[..|run| - 1], run[|run| - 1];
      assert run == front + [h];
      RunKnown(s, front);
      AfterSnoc(s, front, h);
      forall f | f in After(s, run).flights ensures KnownFlight(s, run, f, After(s, run).flights[f]) {
        FlightFrom(s, front, h, f);
      }
    }
  }

  /** Once the first statement is written the credential stays denied. */
  lemma {:induction false} DeniedFrom(s: System, run: seq<Happening>, stake: string)
    requires Progress(run, stake) >= 1
    ensures stake in After(s, run).db.blacklist
  {
    var front, h := run[..|run| - 1], run[|run| - 1];
    if Progress(front, stake) >= 1 {
      DeniedFrom(s, front, stake);
      StaysDenied(After(s, front), h, stake);
    }
  }

  lemma StaysDenied(s: System, h: Happening, stake: string)
    requires stake in s.db.blacklist
    ensures stake in Happen(s, h).db.blacklist
  {
    hide Plan, RefreshPasses, BeginExchange, BeginActivate, Begun, Finished, ServeSimple, AfterStatement;
    match h {
      case Single(r) => if Simple(r) { SimpleOpensNothing(s.db, r, stake); }
      case PassGate(f, r) => GateWritesNothing(s, f, r);
      case Land(f, _) => if f in s.flights { LandKeepsList(s.db, s.flights[f]); }
      case Issued(other, w) => StatementOpensNothing(s.db, other, w, stake);
      case _ =>
    }
  }

  lemma LandKeepsList(db: Db, p: Flight)
    ensures Finished(db, p).blacklist == db.blacklist
  {}

  lemma GateWritesNothing(s: System, f: nat, r: Request)
    ensures var d := Begun(s, f, r).db;
      d.tokens == s.db.tokens && d.sessions == s.db.sessions && d.blacklist == s.db.blacklist
  {
    hide RefreshPasses;
  }

  lemma SimpleOpensNothing(db: Db, r: Request, stake: string)
    requires Simple(r)
    ensures var d := ServeSimple(db, r).0;
      && d.blacklist == db.blacklist
      && (NoTokens(db.tokens, stake) ==> NoTokens(d.tokens, stake))
      && (NoSessions(db.sessions, stake) ==> NoSessions(d.sessions, stake))
  {}

  lemma StatementOpensNothing(db: Db, other: string, w: Statement, stake: string)
    ensures var d := AfterStatement(db, other, w);
      && db.blacklist <= d.blacklist
      && (NoTokens(db.tokens, stake) ==> NoTokens(d.tokens, stake))
      && (NoSessions(db.sessions, stake) ==> NoSessions(d.sessions, stake))
  {}

  // ---- Writes that land too late ----

  /** The step inserts a token of the credential. */
  predicate MintsToken(s: System, h: Happening, stake: string) {
    h.Land? && h.f in s.flights && GatedFor(s.flights[h.f]) == Some(stake)
    && Happen(s, h).db.tokens != s.db.tokens
  }

  /** The step writes a session's row as active for the credential. */
  predicate WritesActive(s: System, h: Happening, stake: string) {
    h.Land? && h.writeOk && h.f in s.flights
    && var p := s.flights[h.f];
       (p.Binding? && p.stake == stake)
       || (p.Upserting? && p.session.stake == stake && p.session.status == S.Active)
  }

  /** Step `k` writes a token after the tokens were revoked, or a session after the sessions
      were cancelled, the latter from a gate or from a listing read before they were. */
  ghost predicate StrayAt(s: System, run: seq<Happening>, k: nat, stake: string) {
    k < |run| &&
    var t := After(s, run[..k]);
    (Progress(run[..k], stake) >= 2 && MintsToken(t, run[k], stake))
    || (Progress(run[..k], stake) == 4 && WritesActive(t, run[k], stake)
        && (t.flights[run[k].f].Upserting? ==>
              exists l: nat :: l < k && ReadActive(s, run[..k], l, run[k].f, t.flights[run[k].f].slot, stake)
                               && Progress(run[..l], stake) < 4))
  }

  ghost predicate Stray(s: System, run: seq<Happening>, stake: string) {
    exists k: nat :: StrayAt(s, run, k, stake)
  }

  /** At the end of the run a token is active though the tokens were revoked, or a session
      though the sessions were cancelled. */
  predicate Open(s: System, run: seq<Happening>, stake: string) {
    var db := After(s, run).db;
    (Progress(run, stake) >= 2 && !NoTokens(db.tokens, stake))
    || (Progress(run, stake) == 4 && !NoSessions(db.sessions, stake))
  }

  lemma TokenStep(s: System, h: Happening, stake: string)
    requires NoTokens(s.db.tokens, stake) && !NoTokens(Happen(s, h).db.tokens, stake)
    ensures MintsToken(s, h, stake)
  {
    hide Plan, RefreshPasses, BeginExchange, BeginActivate, Begun, Finished, ServeSimple, AfterStatement, NoTokens;
    match h {
      case Single(r) => if Simple(r) { SimpleOpensNothing(s.db, r, stake); }
      case PassGate(f, r) => GateWritesNothing(s, f, r);
      case Land(f, _) => if f in s.flights { LandToken(s.db, s.flights[f], stake); }
      case Issued(other, w) => StatementOpensNothing(s.db, other, w, stake);
      case _ =>
    }
  }

  lemma LandToken(db: Db, p: Flight, stake: string)
    ensures NoTokens(db.tokens, stake) && !NoTokens(Finished(db, p).tokens, stake) ==>
      GatedFor(p) == Some(stake) && Finished(db, p).tokens != db.tokens
  {}

  lemma SessionStep(s: System, h: Happening, stake: string)
    requires NoSessions(s.db.sessions, stake) && !NoSessions(Happen(s, h).db.sessions, stake)
    ensures WritesActive(s, h, stake)
  {
    hide Plan, RefreshPasses, BeginExchange, BeginActivate, Begun, Finished, ServeSimple, AfterStatement, NoSessions;
    match h {
      case Single(r) => if Simple(r) { SimpleOpensNothing(s.db, r, stake); }
      case PassGate(f, r) => GateWritesNothing(s, f, r);
      case Land(f, _) => if f in s.flights { LandSession(s.db, s.flights[f], stake); }
      case Issued(other, w) => StatementOpensNothing(s.db, other, w, stake);
      case _ =>
    }
  }

  lemma LandSession(db: Db, p: Flight, stake: string)
    ensures NoSessions(db.sessions, stake) && !NoSessions(Finished(db, p).sessions, stake) ==>
      (p.Binding? && p.stake == stake) || (p.Upserting? && p.session.stake == stake && p.session.status == S.Active)
  {}

  lemma StrayPrefix(s: System, run: seq<Happening>, n: nat, stake: string)
    requires n <= |run| && Stray(s, run[..n], stake)
    ensures Stray(s, run, stake)
  {
    hide After, MintsToken, WritesActive, ReadActive;
    var k: nat :| StrayAt(s, run[..n], k, stake);
    assert forall l :: 0 <= l <= k ==> run[..n][..l] == run[..l];
    assert run[..n][k] == run[k];
    assert StrayAt(s, run, k, stake);
  }

  /** Without a stray write nothing is open. */
  lemma {:induction false} ClosedOrStray(s: System, run: seq<Happening>, stake: string)
    requires s.flights == map[]
    ensures Stray(s, run, stake) || !Open(s, run, stake)
    decreases |run|
  {
    if run != [] {
      var n := |run| - 1;
      var front, h := run[..n], run[n];
      assert run == front + [h];
      ClosedOrStray(s, front, stake);
      if Stray(s, front, stake) {
        StrayPrefix(s, run, n, stake);
      } else {
        AfterSnoc(s, front, h);
        ProgressSnoc(front, h, stake);
        TokensClosed(s, run, stake);
        SessionsClosed(s, run, stake);
      }
    }
  }

  lemma TokensClosed(s: System, run: seq<Happening>, stake: string)
    requires run != [] && !Open(s, run[..|run| - 1], stake)
    ensures Stray(s, run, stake) || (Progress(run, stake) >= 2 ==> NoTokens(After(s, run).db.tokens, stake))
  {
    hide Happen, MintsToken;
    var n := |run| - 1;
    var t := After(s, run[..n]);
    if Progress(run, stake) >= 2 && !NoTokens(After(s, run).db.tokens, stake) {
      if Progress(run[..n], stake) >= 2 {
        TokenStep(t, run[n], stake);
        assert StrayAt(s, run, n, stake);
      } else {
        RevokedTokens(t, stake);
      }
    }
  }

  lemma RevokedTokens(s: System, stake: string)
    ensures NoTokens(Happen(s, Issued(stake, RevokeTokens)).db.tokens, stake)
    ensures NoSessions(Happen(s, Issued(stake, CancelSessions)).db.sessions, stake)
  {}

  lemma SessionsClosed(s: System, run: seq<Happening>, stake: string)
    requires run != [] && s.flights == map[] && !Open(s, run[..|run| - 1], stake)
    ensures Stray(s, run, stake) || (Progress(run, stake) == 4 ==> NoSessions(After(s, run).db.sessions, stake))
    decreases |run|, 0
  {
    hide Happen, KnownFlight, NoSessions;
    var n := |run| - 1;
    var t := After(s, run[..n]);
    if Progress(run, stake) == 4 && !NoSessions(After(s, run).db.sessions, stake) {
      if Progress(run[..n], stake) == 4 {
        SessionStep(t, run[n], stake);
        RunKnown(s, run[..n]);
        assert KnownFlight(s, run[..n], run[n].f, t.flights[run[n].f]);
        StrayWrite(s, run, stake);
      } else {
        RevokedTokens(t, stake);
      }
    }
  }

  /** A late active write is itself stray, or its listing read a row that another one left. */
  lemma StrayWrite(s: System, run: seq<Happening>, stake: string)
    requires run != [] && s.flights == map[] && Progress(run[..|run| - 1], stake) == 4
    requires var t, h := After(s, run[..|run| - 1]), run[|run| - 1];
      WritesActive(t, h, stake) && KnownFlight(s, run[..|run| - 1], h.f, t.flights[h.f])
    ensures Stray(s, run, stake)
    decreases |run| - 1, 1
  {
    hide Happen, After, Progress, NoTokens;
    var n := |run| - 1;
    var t, h := After(s, run[..n]), run[n];
    var p := t.flights[h.f];
    if p.Upserting? {
      var l: nat :| ReadActive(s, run[..n], l, h.f, p.slot, p.session.stake);
      assert run[..n][..l] == run[..l];
      if Progress(run[..l], stake) == 4 {
        ClosedOrStray(s, run[..l], stake);
        assert !NoSessions(After(s, run[..l]).db.sessions, stake);
        assert Open(s, run[..l], stake);
        StrayPrefix(s, run, l, stake);
      } else {
        assert StrayAt(s, run, n, stake);
      }
    } else {
      assert StrayAt(s, run, n, stake);
    }
  }

  /** A stray write opens what it writes. */
  lemma StrayOpens(s: System, run: seq<Happening>, k: nat, stake: string)
    requires StrayAt(s, run, k, stake)
    ensures Open(s, run[..k + 1], stake)
  {
    hide ReadActive, NoTokens, NoSessions;
    var t := After(s, run[..k]);
    assert run[..k + 1] == run[..k] + [run[k]];
    AfterSnoc(s, run[..k], run[k]);
    ProgressSnoc(run[..k], run[k], stake);
    if MintsToken(t, run[k], stake) { MintedIsActive(t, run[k], stake); }
    if WritesActive(t, run[k], stake) { WrittenIsActive(t, run[k], stake); }
  }

  lemma MintedIsActive(s: System, h: Happening, stake: string)
    requires MintsToken(s, h, stake)
    ensures !NoTokens(Happen(s, h).db.tokens, stake)
  {
    var p := s.flights[h.f];
    if !p.Binding? { assert Happen(s, h).db.tokens[p.mint.jti] == Token(stake, true, p.mint.expires); }
  }

  lemma WrittenIsActive(s: System, h: Happening, stake: string)
    requires WritesActive(s, h, stake)
    ensures !NoSessions(Happen(s, h).db.sessions, stake)
  {
    var p := s.flights[h.f];
    assert Happen(s, h).db.sessions[p.slot].stake == stake && Happen(s, h).db.sessions[p.slot].status == S.Active;
  }

  /** At some point of a run a token of the member is active after the tokens were revoked, or
      a session after the sessions were cancelled, if and only if some write that had been
      under way lands after that statement. */
  lemma RaceIff(s: System, run: seq<Happening>, stake: string)
    requires s.flights == map[]
    ensures (exists n :: 0 <= n <= |run| && Open(s, run[..n], stake)) <==> Stray(s, run, stake)
  {
    hide Open, Stray;
    if n :| 0 <= n <= |run| && Open(s, run[..n], stake) {
      ClosedOrStray(s, run[..n], stake);
      StrayPrefix(s, run, n, stake);
    }
    if Stray(s, run, stake) { StrayWitness(s, run, stake); }
  }

  lemma StrayWitness(s: System, run: seq<Happening>, stake: string)
    requires Stray(s, run, stake)
    ensures exists n :: 0 <= n <= |run| && Open(s, run[..n], stake)
  {
    hide Open;
    var k: nat :| StrayAt(s, run, k, stake);
    assert k < |run| by { hide After, Progress; }
    StrayOpens(s, run, k, stake);
  }

  /** A stray token, and a stray session of an activation, passed its gate before the first
      statement of the revocation. */
  lemma StrayGateWasFirst(s: System, run: seq<Happening>, k: nat, stake: string)
    requires s.flights == map[] && StrayAt(s, run, k, stake)
    ensures var p := After(s, run[..k]).flights[run[k].f];
      p.Upserting? ||
      exists g :: 0 <= g < k && run[g].PassGate? && run[g].f == run[k].f && Progress(run[..g], stake) == 0
  {
    hide ReadActive, Happen;
    var t := After(s, run[..k]);
    var p := t.flights[run[k].f];
    RunKnown(s, run[..k]);
    assert KnownFlight(s, run[..k], run[k].f, p);
    if !p.Upserting? {
      var g :| 0 <= g < |run[..k]| && run[..k][g].PassGate? && run[..k][g].f == run[k].f
               && stake !in After(s, run[..k][..g]).db.blacklist;
      assert run[..k][..g] == run[..g];
      if Progress(run[..g], stake) >= 1 { DeniedFrom(s, run[..g], stake); }
    }
  }

  // ---- The runs that do it ----

  function Cascaded(stake: string): seq<Happening> {
    [Issued(stake, AddToBlacklist), Issued(stake, RevokeTokens),
     Issued(stake, RevokeGrants), Issued(stake, CancelSessions)]
  }

  lemma CascadedRuns(s: System, run: seq<Happening>, stake: string)
    requires Progress(run, stake) == 0
    ensures Progress(run + Cascaded(stake), stake) == 4
    ensures After(s, run + Cascaded(stake)) == After(s, run).(db := Cascade(After(s, run).db, stake, 4))
  {
    hide AfterStatement;
    var a, b, c, d := Issued(stake, AddToBlacklist), Issued(stake, RevokeTokens),
                      Issued(stake, RevokeGrants), Issued(stake, CancelSessions);
    var r1, r2, r3 := run + [a], run + [a] + [b], run + [a] + [b] + [c];
    assert run + Cascaded(stake) == r3 + [d];
    ProgressSnoc(run, a, stake);
    ProgressSnoc(r1, b, stake);
    ProgressSnoc(r2, c, stake);
    ProgressSnoc(r3, d, stake);
    AfterSnoc(s, run, a);
    AfterSnoc(s, r1, b);
    AfterSnoc(s, r2, c);
    AfterSnoc(s, r3, d);
    CascadeSteps(After(s, run).db, stake);
  }

  /** A code exchange past its gate lands after the whole revocation: its token is active. */
  lemma LateExchange(db: Db, r: Request, stake: string)
    requires r.Exchange? && BeginExchange(db, r).1 == Some(stake)
    requires r.mint.tokenOk && r.mint.jti !in db.tokens
    ensures var run := [PassGate(0, r)] + Cascaded(stake) + [Land(0, true)];
      Progress(run, stake) == 4 && !NoTokens(After(System(db, map[]), run).db.tokens, stake)
  {
    hide Cascade, BeginExchange;
    var s, run := System(db, map[]), [PassGate(0, r)];
    AfterSnoc(s, [], PassGate(0, r));
    assert [] + [PassGate(0, r)] == run;
    ProgressSnoc([], PassGate(0, r), stake);
    CascadedRuns(s, run, stake);
    GateWritesNothing(s, 0, r);
    CascadeIsLocal(BeginExchange(db, r).0, stake, 4);
    var t := After(s, run + Cascaded(stake));
    assert t.flights == map[0 := Minting(stake, r.mint)];
    assert r.mint.jti !in t.db.tokens;
    AfterSnoc(s, run + Cascaded(stake), Land(0, true));
    ProgressSnoc(run + Cascaded(stake), Land(0, true), stake);
    assert Happen(t, Land(0, true)).db.tokens[r.mint.jti] == Token(stake, true, r.mint.expires);
  }

  /** A pass listed the session before the revocation and asks its gate after it: the answer is
      that membership is lost, and writing the grace deadline makes the row active again. */
  lemma LateGraceEntry(db: Db, slot: string, o: S.Observation)
    requires slot in db.sessions && db.sessions[slot].status == S.Active && db.sessions[slot].graceUntil.None?
    ensures var stake := db.sessions[slot].stake;
      var run := [List(0, slot)] + Cascaded(stake) + [Decide(0, true, o)] + [Land(0, true)];
      Progress(run, stake) == 4 && !NoSessions(After(System(db, map[]), run).db.sessions, stake)
  {
    hide Cascade;
    var s, run, sess := System(db, map[]), [List(0, slot)], db.sessions[slot];
    var stake := sess.stake;
    AfterSnoc(s, [], List(0, slot));
    assert [] + [List(0, slot)] == run;
    ProgressSnoc([], List(0, slot), stake);
    CascadedRuns(s, run, stake);
    CascadeBars(db, stake, 4);
    var r2 := run + Cascaded(stake);
    var t := After(s, r2);
    assert t.flights == map[0 := Flight.Listed(slot, sess)] && stake in t.db.blacklist;
    AfterSnoc(s, r2, Decide(0, true, o));
    ProgressSnoc(r2, Decide(0, true, o), stake);
    AfterSnoc(s, r2 + [Decide(0, true, o)], Land(0, true));
    ProgressSnoc(r2 + [Decide(0, true, o)], Land(0, true), stake);
    var u := After(s, r2 + [Decide(0, true, o)]);
    assert WritesActive(u, Land(0, true), stake);
    WrittenIsActive(u, Land(0, true), stake);
  }
}
