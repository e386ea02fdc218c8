/** The administrator's revocation of a member, among the requests of everybody else
    (handlers_admin_resources.go, with the endpoints of core/oauth and the bot).  A request
    is one step; the four statements of a revocation are four, with any requests between. */
module MemberRevocation {
  import opened Wrappers
  import opened Timestamps
  import G = RefreshGrants
  import R = GrantRepo
  import O = OneTime
  import S = Reconciliation

  datatype Token = Token(stake: string, active: bool, expires: Time)

  datatype Db = Db(
    blacklist: set<string>,
    tokens: map<string, Token>,
    grants: G.Table,
    nextRow: nat,
    codes: map<string, O.AuthCode>,
    activations: map<string, O.Activation>,
    sessions: S.Table)

  ghost predicate Sound(db: Db) {
    G.Ordered(db.grants) && forall id :: id in db.grants ==> db.grants[id].rowid < db.nextRow
  }

  // ---- The gate every endpoint asks ----

  /** Whether the deny-list could be read, and what the attestors say of the credential. */
  datatype Answers = Answers(blacklistRead: bool, attestors: R.Eligibility)

  function Gate(db: Db, stake: string, a: Answers): R.Eligibility {
    if !a.blacklistRead then R.Unavailable
    else if stake in db.blacklist then R.NotMember
    else a.attestors
  }

  // ---- Requests ----

  datatype Request =
    | Authorize(stake: string, requestOk: bool, answers: Answers, code: string, row: O.AuthCode)
    | Exchange(code: string, clientId: string, redirect: string, now: Time, clientOk: bool, answers: Answers,
               mint: Mint)
    | Refresh(refresh: R.RefreshRequest, answers: Answers, mint: Mint)
    | CreateActivation(stake: string, answers: Answers, code: string, bound: O.Activation)
    | Activate(code: string, channelType: string, channelId: string, now: Time, answers: Answers,
               slot: string,        // the row its instance and user key to, new or not
               session: S.Session, saved: bool)
    | CancelSession(slot: string)   // by its user or an administrator
    | CancelChannel(slots: set<string>)
    | RevokeToken(jti: string)
    | RevokeGrant(id: string)
    | ReconcilePass(pool: string, blacklistRead: bool, obs: map<string, S.Observation>)

  /** The rows a successful issue writes, and which of the two writes succeed. */
  datatype Mint = Mint(signerOk: bool, jti: string, expires: Time, tokenOk: bool, grantId: string, grant: G.Grant, grantOk: bool)

  /** An insert under a key already taken fails. */
  function WithToken(db: Db, stake: string, m: Mint): Option<Db> {
    if m.tokenOk && m.jti !in db.tokens then Some(db.(tokens := db.tokens[m.jti := Token(stake, true, m.expires)]))
    else None
  }

  function WithGrant(db: Db, stake: string, m: Mint): Option<Db> {
    if m.grantOk && m.grantId !in db.grants then
      var g := m.grant.(stake := stake, status := G.Active, rotatedFrom := None, rowid := db.nextRow);
      Some(db.(grants := db.grants[m.grantId := g], nextRow := db.nextRow + 1))
    else None
  }

  /** The first half of redeeming a code: it is consumed before anything else is checked, and
      the last check is the gate.  Absent if the request ends here. */
  function BeginExchange(db: Db, r: Request): (Db, Option<string>)
    requires r.Exchange?
  {
    if r.code !in db.codes || !O.Readable(Some(O.Row(db.codes[r.code].expires, db.codes[r.code].consumedAt)), r.now)
    then (db, None)
    else
      var c := db.codes[r.code];
      var spent := db.(codes := db.codes[r.code := c.(consumedAt := Some(r.now))]);
      if c.clientId != r.clientId || c.redirect != r.redirect || !r.clientOk then (spent, None)
      else if Gate(db, c.stake, r.answers) != R.Member || !r.mint.signerOk then (spent, None)
      else (spent, Some(c.stake))
  }

  /** The second half: the token row and the grant row, two autocommitted inserts. */
  function FinishExchange(db: Db, stake: string, m: Mint): (Db, bool) {
    match WithToken(db, stake, m)
    case None => (db, false)
    case Some(d) =>
      match WithGrant(d, stake, m)
      case None => (d, false)
      case Some(e) => (e, true)
  }

  function ServeExchange(db: Db, r: Request): (Db, bool)
    requires r.Exchange?
  {
    var (spent, stake) := BeginExchange(db, r);
    if stake.None? then (spent, false) else FinishExchange(spent, stake.value, r.mint)
  }

  /** The refresh request as the grant table sees it, the gate's answer filled in. */
  function Gated(db: Db, r: Request): R.RefreshRequest
    requires r.Refresh?
  {
    var stake := if r.refresh.grantId in db.grants then db.grants[r.refresh.grantId].stake else "";
    r.refresh.(eligibility := Gate(db, stake, r.answers),
               mintOk := r.refresh.mintOk && r.refresh.newId !in db.grants && WithToken(db, stake, r.mint).Some?)
  }

  ghost function ServeRefresh(db: Db, r: Request): (Db, bool)
    requires Sound(db) && r.Refresh?
  {
    var req := Gated(db, r);
    var d := db.(grants := R.RefreshEffect(db.grants, db.nextRow, req));
    if R.RefreshOutcome(db.grants, req).Ok? then
      (WithToken(d.(nextRow := d.nextRow + 1), db.grants[req.grantId].stake, r.mint).value, true)
    else (d, false)
  }

  /** The first half of /start: consume the code and ask the gate.  Absent if it ends here. */
  function BeginActivate(db: Db, r: Request): (Db, Option<string>)
    requires r.Activate?
  {
    if r.code !in db.activations || !O.BoundFor(db.activations[r.code], r.channelType, r.channelId)
       || !O.Readable(Some(O.Row(db.activations[r.code].expires, db.activations[r.code].consumedAt)), r.now)
    then (db, None)
    else
      var a := db.activations[r.code];
      var spent := db.(activations := db.activations[r.code := a.(status := O.ActivationConsumed, consumedAt := Some(r.now))]);
      (spent, if Gate(db, a.stake, r.answers) == R.Member then Some(a.stake) else None)
  }

  /** The upsert of a session's row: one already there for this instance and user keeps its
      pool and takes everything else. */
  function Upsert(db: Db, slot: string, session: S.Session): Db {
    var pool := if slot in db.sessions then db.sessions[slot].pool else session.pool;
    db.(sessions := db.sessions[slot := session.(pool := pool)])
  }

  /** The second half of /start. */
  function FinishActivate(db: Db, slot: string, stake: string, session: S.Session): Db {
    Upsert(db, slot, session.(stake := stake, status := S.Active, graceUntil := None))
  }

  function ServeActivate(db: Db, r: Request): (Db, bool)
    requires r.Activate?
  {
    var (spent, stake) := BeginActivate(db, r);
    if stake.None? || !r.saved then (spent, false)
    else (FinishActivate(spent, r.slot, stake.value, r.session), true)
  }

  function Cancelled(t: S.Table, slots: set<string>, onlyActive: bool): S.Table {
    map id | id in t ::
      if id in slots && (onlyActive ==> t[id].status == S.Active) then t[id].(status := S.Cancelled) else t[id]
  }

  /** What a pass is told of each session's credential: a denied one is no member. */
  function GatedVerdicts(db: Db, blacklistRead: bool, obs: map<string, S.Observation>): map<string, S.Observation> {
    map id | id in obs ::
      if !blacklistRead then obs[id].(verdict := S.Unavailable)
      else if id in db.sessions && db.sessions[id].stake in db.blacklist then obs[id].(verdict := S.Lost)
      else obs[id]
  }

  /** The request writes nothing after its gate but a code, or has no gate. */
  predicate Simple(r: Request) {
    !r.Exchange? && !r.Refresh? && !r.Activate? && !r.ReconcilePass?
  }

  function ServeSimple(db: Db, r: Request): (Db, bool)
    requires Simple(r)
  {
    match r
    case Authorize(stake, ok, answers, code, row) =>
      if ok && Gate(db, stake, answers) == R.Member && code !in db.codes then
        (db.(codes := db.codes[code := row.(stake := stake, consumedAt := None)]), true)
      else (db, false)
    case CreateActivation(stake, answers, code, bound) =>
      if Gate(db, stake, answers) == R.Member && code !in db.activations then
        (db.(activations := db.activations[code := bound.(stake := stake, status := O.ActivationActive, consumedAt := None)]), true)
      else (db, false)
    case CancelSession(slot) => (db.(sessions := Cancelled(db.sessions, {slot}, false)), true)
    case CancelChannel(slots) => (db.(sessions := Cancelled(db.sessions, slots, true)), true)
    case RevokeToken(jti) =>
      (if jti in db.tokens then db.(tokens := db.tokens[jti := db.tokens[jti].(active := false)]) else db, true)
    case RevokeGrant(id) => (db.(grants := G.SetStatus(db.grants, id, G.Revoked)), true)
  }

  /** The state after a request, and whether it was granted something. */
  ghost function Serve(db: Db, r: Request): (Db, bool)
    requires Sound(db)
  {
    if r.Exchange? then ServeExchange(db, r)
    else if r.Refresh? then ServeRefresh(db, r)
    else if r.Activate? then ServeActivate(db, r)
    else if r.ReconcilePass? then
      (db.(sessions := S.AfterPass(db.sessions, r.pool, GatedVerdicts(db, r.blacklistRead, r.obs))), true)
    else ServeSimple(db, r)
  }

  /** The credential a request asks something for. */
  function SubjectOf(db: Db, r: Request): Option<string> {
    match r
    case Authorize(stake, _, _, _, _) => Some(stake)
    case CreateActivation(stake, _, _, _) => Some(stake)
    case Exchange(code, _, _, _, _, _, _) => if code in db.codes then Some(db.codes[code].stake) else None
    case Refresh(req, _, _) => if req.grantId in db.grants then Some(db.grants[req.grantId].stake) else None
    case Activate(code, _, _, _, _, _, _, _) => if code in db.activations then Some(db.activations[code].stake) else None
    case _ => None
  }

  predicate IntrospectsActive(db: Db, jti: string, now: Time) {
    jti in db.tokens && db.tokens[jti].active && now.Before(db.tokens[jti].expires)
  }

  // ---- The revocation ----

  datatype Statement = AddToBlacklist | RevokeTokens | RevokeGrants | CancelSessions

  /** The handler's statements in order. */
  function Nth(k: nat): Statement
    requires k < 4
  {
    match k case 0 => AddToBlacklist case 1 => RevokeTokens case 2 => RevokeGrants case _ => CancelSessions
  }

  function AfterStatement(db: Db, stake: string, w: Statement): Db {
    match w
    case AddToBlacklist => db.(blacklist := db.blacklist + {stake})
    case RevokeTokens =>
      db.(tokens := map j | j in db.tokens ::
            if db.tokens[j].stake == stake then db.tokens[j].(active := false) else db.tokens[j])
    case RevokeGrants => db.(grants := G.RevokeStake(db.grants, stake))
    case CancelSessions => db.(sessions := Cancelled(db.sessions, set id | id in db.sessions && db.sessions[id].stake == stake, true))
  }

  /** What the first `k` statements of a revocation have established. */
  ghost predicate Barred(db: Db, stake: string, k: nat) {
    && (k >= 1 ==> stake in db.blacklist)
    && (k >= 2 ==> NoTokens(db.tokens, stake))
    && (k >= 3 ==> NoGrants(db.grants, stake))
    && (k >= 4 ==> NoSessions(db.sessions, stake))
  }

  predicate NoTokens(t: map<string, Token>, stake: string) {
    forall j :: j in t && t[j].stake == stake ==> !t[j].active
  }

  predicate NoGrants(t: G.Table, stake: string) {
    forall id :: id in t && t[id].stake == stake ==> t[id].status != G.Active
  }

  predicate NoSessions(t: S.Table, stake: string) {
    forall id :: id in t && t[id].stake == stake ==> t[id].status != S.Active
  }

  datatype Event = Served(request: Request) | Wrote(stake: string, statement: Statement)

  ghost function Apply(db: Db, e: Event): Db
    requires Sound(db)
  {
    match e
    case Served(r) => Serve(db, r).0
    case Wrote(stake, w) => AfterStatement(db, stake, w)
  }

  lemma RefreshKeepsSound(db: Db, r: Request)
    requires Sound(db) && r.Refresh?
    ensures Sound(ServeRefresh(db, r).0)
  {
    var req := Gated(db, r);
    if R.RefreshOutcome(db.grants, req).Ok? {
      R.RotationKeepsOrder(db.grants, req.grantId, req.newId, db.nextRow, req.newExpiry);
    } else {
      R.ShapeKeepsOrder(db.grants, R.RefreshEffect(db.grants, db.nextRow, req));
    }
  }

  lemma ExchangeKeepsSound(db: Db, r: Request)
    requires Sound(db) && r.Exchange?
    ensures Sound(ServeExchange(db, r).0)
  {
    var t, u := db.grants, ServeExchange(db, r).0.grants;
    forall c, p | G.ChildOf(u, c, p) ensures p in u && u[p].rowid < u[c].rowid {
      assert G.ChildOf(t, c, p);
    }
  }

  lemma OtherKeepsSound(db: Db, r: Request)
    requires Sound(db) && !r.Refresh? && !r.Exchange?
    ensures Sound(Serve(db, r).0)
  {
    var d := Serve(db, r).0;
    assert d.nextRow == db.nextRow && R.SameShape(db.grants, d.grants);
    R.ShapeKeepsOrder(db.grants, d.grants);
  }

  lemma StatementKeepsSound(db: Db, stake: string, w: Statement)
    requires Sound(db)
    ensures Sound(AfterStatement(db, stake, w))
  {
    R.ShapeKeepsOrder(db.grants, AfterStatement(db, stake, w).grants);
  }

  lemma StepKeepsSound(db: Db, e: Event)
    requires Sound(db)
    ensures Sound(Apply(db, e))
  {
    match e {
      case Served(r) =>
        if r.Refresh? {
          RefreshKeepsSound(db, r);
        } else if r.Exchange? {
          ExchangeKeepsSound(db, r);
        } else {
          OtherKeepsSound(db, r);
        }
      case Wrote(stake, w) => StatementKeepsSound(db, stake, w);
    }
  }

  ghost function Exec(db: Db, run: seq<Event>): (d: Db)
    requires Sound(db)
    ensures Sound(d)
  {
    if run == [] then db
    else
      var before := Exec(db, run[..|run| - 1]);
      StepKeepsSound(before, run[|run| - 1]);
      Apply(before, run[|run| - 1])
  }

  /** How far a revocation of the credential has come in a run: how many of its
      statements have been written in order. */
  function Stage(run: seq<Event>, stake: string): (k: nat)
    ensures k <= 4
  {
    if run == [] then 0
    else
      var k, e := Stage(run[..|run| - 1], stake), run[|run| - 1];
      if k < 4 && e == Wrote(stake, Nth(k)) then k + 1 else k
  }

  // ---- Nothing undoes it ----

  /** A denied credential is refused whatever it asks for. */
  lemma DeniedIsRefused(db: Db, r: Request, stake: string)
    requires Sound(db) && stake in db.blacklist && SubjectOf(db, r) == Some(stake)
    ensures !Serve(db, r).1
    ensures Serve(db, r).0.tokens == db.tokens && Serve(db, r).0.sessions == db.sessions
  {}

  lemma RefreshGrantsNone(t: G.Table, row: nat, req: R.RefreshRequest, stake: string)
    requires G.Ordered(t) && NoGrants(t, stake)
    requires req.grantId in t && t[req.grantId].stake == stake ==> req.eligibility != R.Member
    ensures NoGrants(R.RefreshEffect(t, row, req), stake)
  {
    if !R.RefreshOutcome(t, req).Ok? {
      var u := R.RefreshEffect(t, row, req);
      assert forall id :: id in u ==> id in t && u[id].stake == t[id].stake && (u[id].status == G.Active ==> t[id].status == G.Active);
    }
  }

  lemma RefreshKeepsBar(db: Db, r: Request, stake: string, k: nat)
    requires Sound(db) && r.Refresh? && k >= 1 && Barred(db, stake, k)
    ensures Barred(ServeRefresh(db, r).0, stake, k)
  {
    if k >= 3 { RefreshGrantsNone(db.grants, db.nextRow, Gated(db, r), stake); }
  }

  lemma PassKeepsBar(db: Db, r: Request, stake: string, k: nat)
    requires Sound(db) && r.ReconcilePass? && Barred(db, stake, k)
    ensures Barred(Serve(db, r).0, stake, k)
  {
    var t, u := db.sessions, Serve(db, r).0.sessions;
    assert forall id :: id in u ==> id in t && u[id].stake == t[id].stake && (u[id].status == S.Active ==> t[id].status == S.Active);
  }

  lemma IssueKeepsBar(db: Db, r: Request, stake: string, k: nat)
    requires Sound(db) && (r.Exchange? || r.Activate?) && k >= 1 && Barred(db, stake, k)
    ensures Barred(if r.Exchange? then ServeExchange(db, r).0 else ServeActivate(db, r).0, stake, k)
  {}

  lemma OtherKeepsBar(db: Db, r: Request, stake: string, k: nat)
    requires Sound(db) && k >= 1 && Barred(db, stake, k)
    requires !r.Refresh? && !r.ReconcilePass? && !r.Exchange? && !r.Activate?
    ensures Barred(Serve(db, r).0, stake, k)
  {}

  lemma RequestKeepsBar(db: Db, r: Request, stake: string, k: nat)
    requires Sound(db) && k >= 1 && Barred(db, stake, k)
    ensures Barred(Serve(db, r).0, stake, k)
  {
    if r.Refresh? {
      RefreshKeepsBar(db, r, stake, k);
    } else if r.ReconcilePass? {
      PassKeepsBar(db, r, stake, k);
    } else if r.Exchange? || r.Activate? {
      IssueKeepsBar(db, r, stake, k);
    } else {
      OtherKeepsBar(db, r, stake, k);
    }
  }

  /** Statements, of this revocation or another's, keep what is established; the next in
      order adds its own part. */
  lemma StatementAdvances(db: Db, other: string, w: Statement, stake: string, k: nat)
    requires Barred(db, stake, k) && k <= 4
    ensures Barred(AfterStatement(db, other, w), stake, k)
    ensures k < 4 && other == stake && w == Nth(k) ==> Barred(AfterStatement(db, other, w), stake, k + 1)
  {}

  /** In every run, with any requests and other revocations in between, the bar stands as
      high as the revocation has come. */
  lemma {:induction false} BarHolds(db: Db, run: seq<Event>, stake: string)
    requires Sound(db)
    ensures Barred(Exec(db, run), stake, Stage(run, stake))
  {
    if run != [] {
      var n := |run| - 1;
      BarHolds(db, run[..n], stake);
      var before, k := Exec(db, run[..n]), Stage(run[..n], stake);
      match run[n] {
        case Served(r) => if k >= 1 { RequestKeepsBar(before, r, stake, k); }
        case Wrote(other, w) => StatementAdvances(before, other, w, stake, k);
      }
    }
  }

  /** A longer run has come at least as far. */
  lemma {:induction false} StageStays(run: seq<Event>, more: seq<Event>, stake: string)
    ensures Stage(run, stake) <= Stage(run + more, stake)
  {
    if more == [] {
      assert run + more == run;
    } else {
      var n := |more| - 1;
      assert (run + more)[..|run| + n] == run + more[..n];
      StageStays(run, more[..n], stake);
    }
  }

  /** Once a run has completed a revocation, then however it goes on: no token of the
      member introspects active, no session is active, and whatever is asked for the
      member is refused. */
  lemma RevocationIsFinal(db: Db, run: seq<Event>, more: seq<Event>, stake: string,
                          r: Request, jti: string, now: Time, slot: string)
    requires Sound(db) && Stage(run, stake) == 4
    ensures var d := Exec(db, run + more);
      && (jti in d.tokens && d.tokens[jti].stake == stake ==> !IntrospectsActive(d, jti, now))
      && (slot in d.sessions && d.sessions[slot].stake == stake ==> d.sessions[slot].status != S.Active)
      && (SubjectOf(d, r) == Some(stake) ==> !Serve(d, r).1)
  {
    StageStays(run, more, stake);
    BarHolds(db, run + more, stake);
    if SubjectOf(Exec(db, run + more), r) == Some(stake) {
      DeniedIsRefused(Exec(db, run + more), r, stake);
    }
  }

  // ---- The handler ----

  /** The first `k` statements and nothing between. */
  function Cascade(db: Db, stake: string, k: nat): Db
    requires k <= 4
  {
    if k == 0 then db else AfterStatement(Cascade(db, stake, k - 1), stake, Nth(k - 1))
  }

  lemma {:induction false} CascadeBars(db: Db, stake: string, k: nat)
    requires k <= 4
    ensures Barred(Cascade(db, stake, k), stake, k)
  {
    if k > 0 {
      CascadeBars(db, stake, k - 1);
      StatementAdvances(Cascade(db, stake, k - 1), stake, Nth(k - 1), stake, k - 1);
    }
  }

  predicate SameElsewhere(db: Db, d: Db, stake: string) {
    && d.blacklist - {stake} == db.blacklist - {stake} && d.codes == db.codes && d.activations == db.activations
    && d.tokens.Keys == db.tokens.Keys && d.grants.Keys == db.grants.Keys && d.sessions.Keys == db.sessions.Keys
    && (forall j :: j in db.tokens && db.tokens[j] != d.tokens[j] ==> db.tokens[j].stake == d.tokens[j].stake == stake)
    && (forall id :: id in db.grants && db.grants[id] != d.grants[id] ==> db.grants[id].stake == d.grants[id].stake == stake)
    && (forall id :: id in db.sessions && db.sessions[id] != d.sessions[id] ==>
          db.sessions[id].stake == d.sessions[id].stake == stake)
  }

  lemma StatementIsLocal(db: Db, stake: string, w: Statement)
    ensures SameElsewhere(db, AfterStatement(db, stake, w), stake)
  {}

  lemma ElsewhereTransitive(a: Db, b: Db, c: Db, stake: string)
    requires SameElsewhere(a, b, stake) && SameElsewhere(b, c, stake)
    ensures SameElsewhere(a, c, stake)
  {}

  /** A revocation, complete or not, changes only rows of the member's own. */
  lemma {:induction false} CascadeIsLocal(db: Db, stake: string, k: nat)
    requires k <= 4
    ensures SameElsewhere(db, Cascade(db, stake, k), stake)
  {
    if k > 0 {
      var d := Cascade(db, stake, k - 1);
      CascadeIsLocal(db, stake, k - 1);
      StatementIsLocal(d, stake, Nth(k - 1));
      ElsewhereTransitive(db, d, Cascade(db, stake, k), stake);
    }
  }

  datatype Affected = Affected(tokens: nat, grants: nat, sessions: nat)

  function ActiveTokens(db: Db, stake: string): set<string> {
    set j | j in db.tokens && db.tokens[j].stake == stake && db.tokens[j].active
  }

  function UnrevokedGrants(db: Db, stake: string): set<string> {
    set id | id in db.grants && db.grants[id].stake == stake && db.grants[id].status != G.Revoked
  }

  function ActiveSessions(db: Db, stake: string): set<string> {
    set id | id in db.sessions && db.sessions[id].stake == stake && db.sessions[id].status == S.Active
  }

  class Admin {
    var db: Db

    constructor (db: Db)
      ensures this.db == db
    {
      this.db := db;
    }

    /** The `k`-th statement; the number of rows it matched. */
    method Execute(stake: string, ghost k: nat, w: Statement) returns (matched: nat)
      requires k < 4 && w == Nth(k)
      modifies this
      ensures db == AfterStatement(old(db), stake, w)
      ensures matched == match w
        case AddToBlacklist => 1
        case RevokeTokens => |ActiveTokens(old(db), stake)|
        case RevokeGrants => |UnrevokedGrants(old(db), stake)|
        case CancelSessions => |ActiveSessions(old(db), stake)|
    {
      match w {
        case AddToBlacklist =>
          matched := 1;
          db := db.(blacklist := db.blacklist + {stake});
        case RevokeTokens =>
          var rows := ActiveTokens(db, stake);
          matched := |rows|;
          var t := map j | j in db.tokens :: if j in rows then db.tokens[j].(active := false) else db.tokens[j];
          assert t == AfterStatement(db, stake, w).tokens;
          db := db.(tokens := t);
        case RevokeGrants =>
          var rows := UnrevokedGrants(db, stake);
          matched := |rows|;
          var t := map id | id in db.grants :: if id in rows then db.grants[id].(status := G.Revoked) else db.grants[id];
          assert t == AfterStatement(db, stake, w).grants;
          db := db.(grants := t);
        case CancelSessions =>
          var rows := ActiveSessions(db, stake);
          matched := |rows|;
          var t := map id | id in db.sessions :: if id in rows then db.sessions[id].(status := S.Cancelled) else db.sessions[id];
          assert t == AfterStatement(db, stake, w).sessions;
          db := db.(sessions := t);
      }
    }

    /** `failing` is the first statement that fails, if one does: the handler stops there
        and what was written stays. */
    method RevokeMember(stake: string, failing: Option<nat>) returns (n: Option<Affected>)
      modifies this
      ensures n.None? <==> failing.Some? && failing.value < 4
      ensures db == Cascade(old(db), stake, if n.Some? then 4 else failing.value)
      ensures n.Some? ==> Barred(db, stake, 4)
      ensures n.Some? ==> n.value == Affected(
        |ActiveTokens(old(db), stake)|, |UnrevokedGrants(old(db), stake)|, |ActiveSessions(old(db), stake)|)
    {
      CascadeSteps(db, stake);
      CascadeBars(db, stake, 4);
      if failing == Some(0) {
        return None;
      }
      var listed := Execute(stake, 0, AddToBlacklist);
      if failing == Some(1) {
        return None;
      }
      var tokens := Execute(stake, 1, RevokeTokens);
      if failing == Some(2) {
        return None;
      }
      var grants := Execute(stake, 2, RevokeGrants);
      if failing == Some(3) {
        return None;
      }
      var sessions := Execute(stake, 3, CancelSessions);
      return Some(Affected(tokens, grants, sessions));
    }
  }

  lemma CascadeSteps(db: Db, stake: string)
    ensures Cascade(db, stake, 0) == db
    ensures forall k {:trigger Cascade(db, stake, k)} :: 0 < k <= 4 ==>
      Cascade(db, stake, k) == AfterStatement(Cascade(db, stake, k - 1), stake, Nth(k - 1))
  {}

  // ---- What members get, and what stays in force ----

  /** The gate lets through exactly those of whom it knows that they are not denied and are
      members. */
  lemma GateOpen(db: Db, stake: string, a: Answers)
    ensures Gate(db, stake, a) == R.Member <==> a.blacklistRead && stake !in db.blacklist && a.attestors == R.Member
  {}

  /** A code is traded for tokens exactly if it is unspent and in time, presented by the client
      and with the redirect it was issued for, its credential passes the gate and both rows can be
      written.  The token then introspects active until it expires, and the code is spent. */
  lemma ExchangeGranted(db: Db, r: Request)
    requires Sound(db) && r.Exchange?
    ensures Serve(db, r).1 <==>
      && r.code in db.codes && db.codes[r.code].consumedAt == None && !db.codes[r.code].expires.Before(r.now)
      && r.clientId == db.codes[r.code].clientId && r.redirect == db.codes[r.code].redirect && r.clientOk
      && r.answers.blacklistRead && db.codes[r.code].stake !in db.blacklist && r.answers.attestors == R.Member
      && r.mint.signerOk && r.mint.tokenOk && r.mint.grantOk
      && r.mint.jti !in db.tokens && r.mint.grantId !in db.grants
    ensures Serve(db, r).1 ==>
      var d, stake := Serve(db, r).0, db.codes[r.code].stake;
      && d.tokens == db.tokens[r.mint.jti := Token(stake, true, r.mint.expires)]
      && d.codes == db.codes[r.code := db.codes[r.code].(consumedAt := Some(r.now))]
      && d.grants.Keys == db.grants.Keys + {r.mint.grantId}
      && d.grants[r.mint.grantId].stake == stake && d.grants[r.mint.grantId].status == G.Active
      && (forall t :: IntrospectsActive(d, r.mint.jti, t) <==> t.Before(r.mint.expires))
  {}

  /** Presenting a code that is in time spends it, whether or not anything is granted for it. */
  lemma ExchangeSpends(db: Db, r: Request)
    requires Sound(db) && r.Exchange? && r.code in db.codes
    requires db.codes[r.code].consumedAt == None && !db.codes[r.code].expires.Before(r.now)
    ensures Serve(db, r).0.codes == db.codes[r.code := db.codes[r.code].(consumedAt := Some(r.now))]
  {}

  /** The two rows are written one after the other: if the second write fails, nothing is granted
      and the token stays. */
  lemma TokenWithoutGrant(db: Db, r: Request, stake: string)
    requires Sound(db) && r.Exchange? && BeginExchange(db, r).1 == Some(stake)
    requires r.mint.tokenOk && r.mint.jti !in db.tokens && (!r.mint.grantOk || r.mint.grantId in db.grants)
    ensures !Serve(db, r).1 && Serve(db, r).0.grants == db.grants
    ensures Serve(db, r).0.tokens == db.tokens[r.mint.jti := Token(stake, true, r.mint.expires)]
  {}

  /** A refresh hands out a token exactly if the grant is active and in time, the request shows what
      the grant is bound to, its credential passes the gate and both rows can be written. */
  lemma RefreshGranted(db: Db, r: Request)
    requires Sound(db) && r.Refresh?
    ensures Serve(db, r).1 <==>
      && r.refresh.grantId in db.grants
      && var g := db.grants[r.refresh.grantId];
      && g.status == G.Active && (g.expiresAt.Some? ==> r.refresh.now <= g.expiresAt.value)
      && (g.clientType == G.Confidential ==> g.clientId != None && r.refresh.clientSecretOk)
      && (g.clientType == G.Public ==> g.boundDevice in {"", r.refresh.devicePubkey})
      && r.answers.blacklistRead && g.stake !in db.blacklist && r.answers.attestors == R.Member
      && r.refresh.signerOk && r.refresh.mintOk && r.refresh.newId !in db.grants
      && r.mint.tokenOk && r.mint.jti !in db.tokens
    ensures Serve(db, r).1 ==>
      var d := Serve(db, r).0;
      && d.tokens == db.tokens[r.mint.jti := Token(db.grants[r.refresh.grantId].stake, true, r.mint.expires)]
      && (forall t :: IntrospectsActive(d, r.mint.jti, t) <==> t.Before(r.mint.expires))
  {}

  /** An activation code opens a session exactly if it is unspent and in time, for a bot of its type
      and, where both name one, of its instance, and its credential passes the gate. */
  lemma ActivateGranted(db: Db, r: Request)
    requires Sound(db) && r.Activate?
    ensures Serve(db, r).1 <==>
      && r.code in db.activations && db.activations[r.code].consumedAt == None
      && !db.activations[r.code].expires.Before(r.now) && db.activations[r.code].channelType == r.channelType
      && (r.channelId == "" || db.activations[r.code].channelId in {"", r.channelId})
      && r.answers.blacklistRead && db.activations[r.code].stake !in db.blacklist && r.answers.attestors == R.Member
      && r.saved
    ensures Serve(db, r).1 ==>
      var d := Serve(db, r).0;
      && d.sessions.Keys == db.sessions.Keys + {r.slot}
      && d.sessions[r.slot].stake == db.activations[r.code].stake && d.sessions[r.slot].status == S.Active
      && d.sessions[r.slot] == r.session.(
           stake := db.activations[r.code].stake, status := S.Active, graceUntil := None,
           pool := if r.slot in db.sessions then db.sessions[r.slot].pool else r.session.pool)
      && (forall id :: id in db.sessions && id != r.slot ==> d.sessions[id] == db.sessions[id])
  {}

  /** Codes are handed out exactly to those who pass the gate. */
  lemma CodesGranted(db: Db, r: Request, stake: string)
    requires Sound(db) && (r.Authorize? || r.CreateActivation?) && r.stake == stake
    ensures Serve(db, r).1 <==>
      && r.answers.blacklistRead && stake !in db.blacklist && r.answers.attestors == R.Member
      && (r.Authorize? ==> r.requestOk && r.code !in db.codes)
      && (r.CreateActivation? ==> r.code !in db.activations)
    ensures Serve(db, r).1 && r.Authorize? ==>
      var d := Serve(db, r).0; r.code in d.codes && d.codes[r.code].stake == stake && d.codes[r.code].consumedAt == None
    ensures Serve(db, r).1 && r.CreateActivation? ==>
      var d := Serve(db, r).0; r.code in d.activations && d.activations[r.code].stake == stake && d.activations[r.code].consumedAt == None
  {}

  /** The events that end a token: its own revocation, or that of its holder's tokens. */
  predicate Ends(e: Event, jti: string, stake: string) {
    match e
    case Served(r) => r == RevokeToken(jti)
    case Wrote(other, w) => other == stake && w == RevokeTokens
  }

  lemma TokenStep(db: Db, e: Event, jti: string)
    requires Sound(db) && jti in db.tokens
    ensures var t, u := db.tokens, Apply(db, e).tokens;
      && jti in u && u[jti].stake == t[jti].stake && u[jti].expires == t[jti].expires
      && (u[jti].active <==> t[jti].active && !Ends(e, jti, t[jti].stake))
  {
    hide ServeRefresh, ServeExchange, ServeActivate, ServeSimple;
    if e.Served? {
      if e.request.Refresh? {
        RefreshTokens(db, e.request, jti);
      } else if e.request.Exchange? {
        ExchangeTokens(db, e.request, jti);
      } else if e.request.Activate? {
        ActivateTokens(db, e.request);
      } else if Simple(e.request) {
        SimpleTokens(db, e.request, jti);
      }
    }
  }

  lemma RefreshTokens(db: Db, r: Request, jti: string)
    requires Sound(db) && r.Refresh? && jti in db.tokens
    ensures var u := ServeRefresh(db, r).0.tokens; jti in u && u[jti] == db.tokens[jti]
  {}

  lemma ExchangeTokens(db: Db, r: Request, jti: string)
    requires r.Exchange? && jti in db.tokens
    ensures var u := ServeExchange(db, r).0.tokens; jti in u && u[jti] == db.tokens[jti]
  {}

  lemma ActivateTokens(db: Db, r: Request)
    requires r.Activate?
    ensures ServeActivate(db, r).0.tokens == db.tokens
  {}

  lemma SimpleTokens(db: Db, r: Request, jti: string)
    requires Simple(r) && jti in db.tokens
    ensures var u := ServeSimple(db, r).0.tokens;
      jti in u && u[jti] == if r == RevokeToken(jti) then db.tokens[jti].(active := false) else db.tokens[jti]
  {}

  lemma {:induction false} TokenRun(db: Db, run: seq<Event>, jti: string)
    requires Sound(db) && jti in db.tokens
    ensures var t, u := db.tokens, Exec(db, run).tokens;
      && jti in u && u[jti].stake == t[jti].stake && u[jti].expires == t[jti].expires
      && (u[jti].active <==> t[jti].active && forall k :: 0 <= k < |run| ==> !Ends(run[k], jti, t[jti].stake))
  {
    hide Apply, Ends;
    if run != [] {
      var n := |run| - 1;
      TokenRun(db, run[..n], jti);
      TokenStep(Exec(db, run[..n]), run[n], jti);
      assert forall k :: 0 <= k < n ==> run[..n][k] == run[k];
    }
  }

  /** Over every run a token introspects active exactly as long as it has not expired and neither
      it nor all its holder's tokens have been revoked: no other request and nobody else's
      revocation ends it, and nothing brings it back. */
  lemma IntrospectionExact(db: Db, run: seq<Event>, jti: string, now: Time)
    requires Sound(db) && jti in db.tokens
    ensures IntrospectsActive(Exec(db, run), jti, now) <==>
      && db.tokens[jti].active && now.Before(db.tokens[jti].expires)
      && Served(RevokeToken(jti)) !in run && Wrote(db.tokens[jti].stake, RevokeTokens) !in run
  {
    hide Apply, Exec;
    TokenRun(db, run, jti);
    var stake := db.tokens[jti].stake;
    assert (forall k :: 0 <= k < |run| ==> !Ends(run[k], jti, stake)) <==>
      Served(RevokeToken(jti)) !in run && Wrote(stake, RevokeTokens) !in run by {
      NobodyEnds(run, jti, stake);
    }
  }

  lemma NobodyEnds(run: seq<Event>, jti: string, stake: string)
    ensures (forall k :: 0 <= k < |run| ==> !Ends(run[k], jti, stake)) <==>
      Served(RevokeToken(jti)) !in run && Wrote(stake, RevokeTokens) !in run
  {
    forall k | 0 <= k < |run|
      ensures Ends(run[k], jti, stake) <==> run[k] == Served(RevokeToken(jti)) || run[k] == Wrote(stake, RevokeTokens)
    {}
  }

  /** What the requests without a gate do: a session is cancelled whatever its status, those of a
      channel only where active, and no other row changes. */
  lemma CancelExact(db: Db, slot: string, slots: set<string>, id: string)
    requires Sound(db)
    ensures var u := Serve(db, CancelSession(slot)).0.sessions;
      u.Keys == db.sessions.Keys &&
      (id in u ==> u[id] == if id == slot then db.sessions[id].(status := S.Cancelled) else db.sessions[id])
    ensures var u := Serve(db, CancelChannel(slots)).0.sessions;
      u.Keys == db.sessions.Keys &&
      (id in u ==> u[id] == if id in slots && db.sessions[id].status == S.Active then db.sessions[id].(status := S.Cancelled)
                            else db.sessions[id])
  {}

  /** Revoking a token or a grant touches it alone. */
  lemma RevokeExact(db: Db, key: string, id: string)
    requires Sound(db)
    ensures var u := Serve(db, RevokeToken(key)).0.tokens;
      u.Keys == db.tokens.Keys && (id in u ==> u[id] == if id == key then db.tokens[id].(active := false) else db.tokens[id])
    ensures var u := Serve(db, RevokeGrant(key)).0.grants;
      u.Keys == db.grants.Keys && (id in u ==> u[id] == if id == key then db.grants[id].(status := G.Revoked) else db.grants[id])
  {}

  /** What a denial does to a session that is still active when a pass reaches it: if the write
      succeeds it enters grace, and once that has run out it expires; while the deny-list cannot be
      read nothing changes. */
  lemma PassAfterDenial(db: Db, r: Request, id: string)
    requires Sound(db) && r.ReconcilePass? && id in db.sessions && db.sessions[id].pool == r.pool
    requires db.sessions[id].status == S.Active && id in r.obs
    ensures var s, u, o := db.sessions[id], Serve(db, r).0.sessions, r.obs[id];
      && id in u
      && (!r.blacklistRead ==> u[id] == s)
      && (r.blacklistRead && s.stake in db.blacklist && o.writeOk ==>
            u[id] == if s.graceUntil == None then s.(graceUntil := Some(o.now + 5 * 24 * 3600 * 1_000_000_000))
                     else if o.now < s.graceUntil.value then s
                     else s.(status := S.Expired))
      && (r.blacklistRead && s.stake !in db.blacklist && o.writeOk && o.verdict.Member? ==>
            u[id].status == S.Active && u[id].tier == o.verdict.tier && u[id].graceUntil == None)
  {}

  /** What a completed revocation leaves: the credential denied, its tokens inactive, its grants
      revoked and its active sessions cancelled; sessions that had ended keep their status. */
  lemma CascadeExact(db: Db, stake: string, key: string)
    ensures var d := Cascade(db, stake, 4);
      && d.blacklist == db.blacklist + {stake}
      && (key in db.tokens ==>
            && key in d.tokens
            && d.tokens[key] == if db.tokens[key].stake == stake then db.tokens[key].(active := false) else db.tokens[key])
      && (key in db.grants ==>
            && key in d.grants
            && d.grants[key] == if db.grants[key].stake == stake then db.grants[key].(status := G.Revoked) else db.grants[key])
      && (key in db.sessions ==>
            && key in d.sessions
            && d.sessions[key] == if db.sessions[key].stake == stake && db.sessions[key].status == S.Active
                                  then db.sessions[key].(status := S.Cancelled) else db.sessions[key])
  {
    CascadeSteps(db, stake);
    var a, b, c := Cascade(db, stake, 1), Cascade(db, stake, 2), Cascade(db, stake, 3);
    assert a == AfterStatement(db, stake, AddToBlacklist);
    assert b == AfterStatement(a, stake, RevokeTokens);
    assert c == AfterStatement(b, stake, RevokeGrants);
    assert Cascade(db, stake, 4) == AfterStatement(c, stake, CancelSessions);
  }
}
