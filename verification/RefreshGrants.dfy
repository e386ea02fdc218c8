/** Refresh grants, their rotation chains, and the statements that change them
    (repo_refreshgrant.go, token.go). */
module RefreshGrants {
  import opened Wrappers

  type Id = string

  datatype Status = Active | Rotated | Revoked | Expired

  datatype ClientType = Public | Confidential

  datatype Grant = Grant(
    stake: string,
    clientType: ClientType,
    clientId: Option<string>,
    boundDevice: string,
    expiresAt: Option<int>,
    status: Status,
    rotatedFrom: Option<Id>,
    rowid: nat)  // order of insertion

  type Table = map<Id, Grant>

  // ---- Rotation chains ----

  predicate ChildOf(t: Table, c: Id, p: Id) {
    c in t && t[c].rotatedFrom == Some(p)
  }

  /** A successor is inserted after the grant it was rotated from. */
  ghost predicate Ordered(t: Table) {
    forall c, p {:trigger ChildOf(t, c, p)} :: ChildOf(t, c, p) ==> p in t && t[p].rowid < t[c].rowid
  }

  ghost predicate OneSuccessor(t: Table) {
    forall c, d, p {:trigger ChildOf(t, c, p), ChildOf(t, d, p)} :: ChildOf(t, c, p) && ChildOf(t, d, p) ==> c == d
  }

  ghost predicate SupersededNotActive(t: Table) {
    forall c, p {:trigger ChildOf(t, c, p)} :: ChildOf(t, c, p) && p in t ==> t[p].status != Active
  }

  ghost predicate Chains(t: Table) {
    Ordered(t) && OneSuccessor(t) && SupersededNotActive(t)
  }

  /** `b` is `a` or was rotated from it, in any number of rotations. */
  ghost predicate Descends(t: Table, a: Id, b: Id)
    requires Ordered(t)
    decreases if b in t then t[b].rowid + 1 else 0
  {
    a == b ||
    (b in t && t[b].rotatedFrom.Some? &&
     var p := t[b].rotatedFrom.value;
     assert ChildOf(t, b, p);
     Descends(t, a, p))
  }

  /** The first grant of the rotation family of `b`. */
  ghost function Root(t: Table, b: Id): (r: Id)
    requires Ordered(t) && b in t
    ensures r in t && t[r].rotatedFrom.None?
    ensures Descends(t, r, b)
    decreases t[b].rowid
  {
    if t[b].rotatedFrom.None? then b
    else
      var p := t[b].rotatedFrom.value;
      assert ChildOf(t, b, p);
      Root(t, p)
  }

  /** The two grants stem from one code exchange. */
  ghost predicate SameFamily(t: Table, a: Id, b: Id) {
    Ordered(t) && a in t && b in t && Root(t, a) == Root(t, b)
  }

  lemma {:induction false} DescendsTransitive(t: Table, a: Id, b: Id, c: Id)
    requires Ordered(t) && Descends(t, a, b) && Descends(t, b, c)
    ensures Descends(t, a, c)
    decreases if c in t then t[c].rowid + 1 else 0
  {
    if b != c {
      assert ChildOf(t, c, t[c].rotatedFrom.value);
      DescendsTransitive(t, a, b, t[c].rotatedFrom.value);
    }
  }

  /** A proper descendant descends through a successor. */
  lemma {:induction false} FirstStep(t: Table, a: Id, b: Id) returns (c: Id)
    requires Ordered(t) && Descends(t, a, b) && a != b
    ensures ChildOf(t, c, a) && Descends(t, c, b)
    decreases if b in t then t[b].rowid + 1 else 0
  {
    var p := t[b].rotatedFrom.value;
    assert ChildOf(t, b, p);
    if p == a {
      c := b;
    } else {
      c := FirstStep(t, a, p);
    }
  }

  /** Two grants of one family: one descends from the other, so a family is a path. */
  lemma {:induction false} FamilyIsPath(t: Table, a: Id, b: Id)
    requires Chains(t) && SameFamily(t, a, b)
    ensures Descends(t, a, b) || Descends(t, b, a)
    decreases t[a].rowid
  {
    if t[a].rotatedFrom.Some? {
      var p := t[a].rotatedFrom.value;
      assert ChildOf(t, a, p);
      FamilyIsPath(t, p, b);
      if p != b && Descends(t, p, b) {
        var c := FirstStep(t, p, b);
        assert c == a;
      } else if Descends(t, b, p) {
        assert Descends(t, b, a);
      }
    }
  }

  /** At most one grant of a family can still be refreshed. */
  lemma AtMostOneActive(t: Table, a: Id, b: Id)
    requires Chains(t) && SameFamily(t, a, b)
    requires t[a].status == Active && t[b].status == Active
    ensures a == b
  {
    FamilyIsPath(t, a, b);
    if a != b {
      if Descends(t, a, b) {
        var c := FirstStep(t, a, b);
      } else {
        var c := FirstStep(t, b, a);
      }
    }
  }

  // ---- The statements, interleaved ----

  /** A chain revocation in progress: a worklist, the grant whose UPDATE has run but
      whose successors have not been read yet, and the grants already dealt with. */
  datatype Walk = Walk(start: Id, queue: seq<Id>, marked: Option<Id>, done: set<Id>)

  datatype System = System(grants: Table, nextRow: nat, walks: map<nat, Walk>)

  datatype Step =
    | Issue(id: Id, grant: Grant)        // mint on code exchange: a family of its own
    | Refresh(id: Id, newId: Id, expiresAt: Option<int>)  // compare-and-swap to rotated, and mint, in one transaction
    | WriteExpired(id: Id)               // SetStatus(expired), unguarded
    | WriteRevoked(id: Id)               // SetStatus(revoked), unguarded
    | RevokeMember(stake: string)        // admin cascade
    | Present(w: nat, id: Id)            // a refresh reads the grant; if rotated, RevokeChain begins
    | Mark(w: nat)                       // its UPDATE of the next id in the worklist
    | Collect(w: nat, found: seq<Id>)    // its SELECT of that id's successors, in any order

  function SetStatus(t: Table, id: Id, status: Status): Table {
    if id in t then t[id := t[id].(status := status)] else t
  }

  function Rotate(t: Table, id: Id, newId: Id, row: nat, expiresAt: Option<int>): Table
    requires id in t
  {
    t[id := t[id].(status := Rotated)]
     [newId := t[id].(status := Active, rotatedFrom := Some(id), rowid := row, expiresAt := expiresAt)]
  }

  function RevokeStake(t: Table, stake: string): Table {
    map id | id in t :: if t[id].stake == stake then t[id].(status := Revoked) else t[id]
  }

  ghost predicate Lists(found: seq<Id>, t: Table, p: Id) {
    forall c :: c in found <==> ChildOf(t, c, p)
  }

  /** The effect of one statement; a statement that cannot run changes nothing. */
  ghost function Apply(s: System, step: Step): System {
    match step
    case Issue(id, g) =>
      if id in s.grants then s
      else s.(grants := s.grants[id := g.(status := Active, rotatedFrom := None, rowid := s.nextRow)],
              nextRow := s.nextRow + 1)
    case Refresh(id, newId, expiresAt) =>
      if id !in s.grants || s.grants[id].status != Active || newId in s.grants then s
      else s.(grants := Rotate(s.grants, id, newId, s.nextRow, expiresAt), nextRow := s.nextRow + 1)
    case WriteExpired(id) => s.(grants := SetStatus(s.grants, id, Expired))
    case WriteRevoked(id) => s.(grants := SetStatus(s.grants, id, Revoked))
    case RevokeMember(stake) => s.(grants := RevokeStake(s.grants, stake))
    case Present(w, id) =>
      if w in s.walks || id !in s.grants || s.grants[id].status != Rotated then s else s.(walks := s.walks[w := Walk(id, [id], None, {})])
    case Mark(w) =>
      if w !in s.walks || s.walks[w].marked.Some? || s.walks[w].queue == [] then s
      else
        var k := s.walks[w];
        s.(grants := SetStatus(s.grants, k.queue[0], Revoked),
           walks := s.walks[w := k.(queue := k.queue[1..], marked := Some(k.queue[0]))])
    case Collect(w, found) =>
      if w !in s.walks || s.walks[w].marked.None? || !Lists(found, s.grants, s.walks[w].marked.value) then s
      else
        var k := s.walks[w];
        s.(walks := s.walks[w := k.(queue := k.queue + found, marked := None, done := k.done + {k.marked.value})])
  }

  ghost function Exec(s: System, steps: seq<Step>): System {
    if steps == [] then s else Apply(Exec(s, steps[..|steps| - 1]), steps[|steps| - 1])
  }

  /** Every grant the walk has touched is dead, and each of its successors is dealt with
      or still in the worklist. */
  ghost predicate WalkCovers(t: Table, k: Walk) {
    && Seen(k, k.start)
    && (forall id :: id in k.queue ==> id in t)
    && (forall id :: Touched(k, id) ==> id in t && t[id].status != Active)
    && (forall c, p {:trigger ChildOf(t, c, p)} :: ChildOf(t, c, p) && p in k.done ==> Seen(k, c))
  }

  /** The walk's UPDATE of `id` has run. */
  ghost predicate Touched(k: Walk, id: Id) {
    id in k.done || k.marked == Some(id)
  }

  ghost predicate Seen(k: Walk, id: Id) {
    Touched(k, id) || id in k.queue
  }

  ghost predicate Inv(s: System) {
    && Chains(s.grants)
    && (forall id :: id in s.grants ==> s.grants[id].rowid < s.nextRow)
    && (forall w :: w in s.walks ==> WalkCovers(s.grants, s.walks[w]))
  }

  /** No statement brings a grant back to active, or changes where it came from. */
  lemma NeverReactivated(s: System, step: Step, id: Id)
    requires id in s.grants
    ensures var t := Apply(s, step).grants;
      && id in t && t[id].rotatedFrom == s.grants[id].rotatedFrom
      && (s.grants[id].status != Active ==> t[id].status != Active)
  {}

  lemma ChainsKept(s: System, step: Step)
    requires Inv(s)
    ensures Chains(Apply(s, step).grants)
    ensures forall id :: id in Apply(s, step).grants ==> Apply(s, step).grants[id].rowid < Apply(s, step).nextRow
  {
    hide Chains, Kept, Apply;
    var t := Apply(s, step).grants;
    if step.Refresh? {
      RotationKept(s, step.id, step.newId, step.expiresAt);
    } else {
      NothingActivated(s, step);
      ShapeKept(s.grants, t);
    }
  }

  /** Status changes that activate nothing, and new families. */
  ghost predicate Kept(t: Table, u: Table) {
    && (forall id :: id in t ==>
          && id in u && u[id].rotatedFrom == t[id].rotatedFrom && u[id].rowid == t[id].rowid
          && (u[id].status == Active ==> t[id].status == Active))
    && (forall id :: id in u && id !in t ==> u[id].rotatedFrom == None)
  }

  lemma NothingActivated(s: System, step: Step)
    requires !step.Refresh? && forall id :: id in s.grants ==> s.grants[id].rowid < s.nextRow
    ensures var s' := Apply(s, step);
      Kept(s.grants, s'.grants) && forall id :: id in s'.grants ==> s'.grants[id].rowid < s'.nextRow
  {}

  lemma RotationKept(s: System, id: Id, newId: Id, expiresAt: Option<int>)
    requires Inv(s)
    ensures var s' := Apply(s, Refresh(id, newId, expiresAt));
      Chains(s'.grants) && forall i :: i in s'.grants ==> s'.grants[i].rowid < s'.nextRow
  {
    var t := Apply(s, Refresh(id, newId, expiresAt)).grants;
    forall c, p | ChildOf(t, c, p) && c in s.grants ensures ChildOf(s.grants, c, p) {}
    forall c, p | ChildOf(t, c, p) && c !in s.grants ensures c == newId && p == id {}
  }

  lemma ShapeKept(t: Table, u: Table)
    requires Chains(t) && Kept(t, u)
    ensures Chains(u)
  {
    forall c, p | ChildOf(u, c, p) ensures ChildOf(t, c, p) {}
  }

  /** A dead grant never gains a successor. */
  lemma NoNewSuccessor(s: System, step: Step, c: Id, p: Id)
    requires p in s.grants && s.grants[p].status != Active && ChildOf(Apply(s, step).grants, c, p)
    ensures ChildOf(s.grants, c, p)
  {}

  lemma WalkUnmoved(s: System, step: Step, k: Walk)
    requires Inv(s) && WalkCovers(s.grants, k)
    ensures WalkCovers(Apply(s, step).grants, k)
  {
    var t := Apply(s, step).grants;
    forall id | Seen(k, id) ensures id in t && (Touched(k, id) ==> t[id].status != Active) {
      NeverReactivated(s, step, id);
    }
    forall c, p | ChildOf(t, c, p) && p in k.done ensures Seen(k, c) {
      assert Touched(k, p);
      NoNewSuccessor(s, step, c, p);
    }
  }

  lemma WalkMarks(t: Table, k: Walk, status: Status)
    requires WalkCovers(t, k) && k.queue != [] && k.marked.None? && status != Active
    ensures WalkCovers(SetStatus(t, k.queue[0], status), k.(queue := k.queue[1..], marked := Some(k.queue[0])))
  {
    var t', k' := SetStatus(t, k.queue[0], status), k.(queue := k.queue[1..], marked := Some(k.queue[0]));
    assert forall id :: Seen(k, id) <==> Seen(k', id);
    forall c, p | ChildOf(t', c, p) && p in k'.done ensures Seen(k', c) {
      assert ChildOf(t, c, p);
    }
  }

  lemma WalkCollects(t: Table, k: Walk, found: seq<Id>)
    requires WalkCovers(t, k) && k.marked.Some? && Lists(found, t, k.marked.value)
    ensures WalkCovers(t, k.(queue := k.queue + found, marked := None, done := k.done + {k.marked.value}))
  {
    var k' := k.(queue := k.queue + found, marked := None, done := k.done + {k.marked.value});
    assert forall id :: Touched(k, id) <==> Touched(k', id);
    forall c, p | ChildOf(t, c, p) && p in k'.done ensures Seen(k', c) {
      if p in k.done { assert Seen(k, c); } else { assert c in found; }
    }
  }

  lemma WalksKept(s: System, step: Step, w: nat)
    requires Inv(s) && w in Apply(s, step).walks
    ensures WalkCovers(Apply(s, step).grants, Apply(s, step).walks[w])
  {
    if w !in s.walks {
      assert Seen(Walk(step.id, [step.id], None, {}), step.id);
    } else if Apply(s, step).walks[w] == s.walks[w] {
      WalkUnmoved(s, step, s.walks[w]);
    } else if step.Mark? {
      WalkMarks(s.grants, s.walks[w], Revoked);
    } else {
      WalkCollects(s.grants, s.walks[w], step.found);
    }
  }

  lemma StepKeeps(s: System, step: Step)
    requires Inv(s)
    ensures Inv(Apply(s, step))
  {
    ChainsKept(s, step);
    forall w | w in Apply(s, step).walks ensures WalkCovers(Apply(s, step).grants, Apply(s, step).walks[w]) {
      WalksKept(s, step, w);
    }
  }

  /** In every run, whatever is interleaved with what: a grant has at most one
      successor, a grant with a successor is not active, and walks miss nothing. */
  lemma {:induction false} RunKeeps(s: System, steps: seq<Step>)
    requires Inv(s)
    ensures Inv(Exec(s, steps))
  {
    if steps != [] {
      RunKeeps(s, steps[..|steps| - 1]);
      StepKeeps(Exec(s, steps[..|steps| - 1]), steps[|steps| - 1]);
    }
  }

  lemma {:induction false} RunNeverReactivates(s: System, steps: seq<Step>, id: Id)
    requires id in s.grants
    ensures var t := Exec(s, steps).grants;
      && id in t && t[id].rotatedFrom == s.grants[id].rotatedFrom
      && (s.grants[id].status != Active ==> t[id].status != Active)
  {
    if steps != [] {
      RunNeverReactivates(s, steps[..|steps| - 1], id);
      NeverReactivated(Exec(s, steps[..|steps| - 1]), steps[|steps| - 1], id);
    }
  }

  ghost predicate Finished(k: Walk) {
    k.queue == [] && k.marked.None?
  }

  /** A finished walk has reached every descendant of its start. */
  lemma {:induction false} FinishedReachesAll(t: Table, k: Walk, id: Id)
    requires Ordered(t) && WalkCovers(t, k) && Finished(k) && Descends(t, k.start, id)
    ensures id in k.done
    decreases if id in t then t[id].rowid + 1 else 0
  {
    assert Seen(k, k.start);
    if id != k.start {
      var p := t[id].rotatedFrom.value;
      assert ChildOf(t, id, p);
      FinishedReachesAll(t, k, p);
      assert Seen(k, id);
    }
  }

  /** Once the walk from a grant has ended, no member of the grant's whole rotation family
      is active, however the run goes on. */
  lemma WalkStopsFamily(s: System, w: nat, steps: seq<Step>, id: Id)
    requires Inv(s) && w in s.walks && Finished(s.walks[w])
    requires SameFamily(Exec(s, steps).grants, id, s.walks[w].start)
    ensures Exec(s, steps).grants[id].status != Active
  {
    var k, t := s.walks[w], Exec(s, steps).grants;
    RunKeeps(s, steps);
    WalkOutlasts(s, steps, k);
    FamilyIsPath(t, k.start, id);
    if Descends(t, k.start, id) {
      FinishedReachesAll(t, k, id);
      assert Touched(k, id);
    } else if id != k.start {
      var c := FirstStep(t, id, k.start);
    }
  }

  /** What a walk has covered stays covered. */
  lemma {:induction false} WalkOutlasts(s: System, steps: seq<Step>, k: Walk)
    requires Inv(s) && WalkCovers(s.grants, k)
    ensures WalkCovers(Exec(s, steps).grants, k)
  {
    if steps != [] {
      var n := |steps| - 1;
      WalkOutlasts(s, steps[..n], k);
      RunKeeps(s, steps[..n]);
      WalkUnmoved(Exec(s, steps[..n]), steps[n], k);
    }
  }

  // ---- Which replays start a walk ----

  /** The step writes another status over that of the grant. */
  predicate Overwrites(s: System, step: Step, id: Id) {
    match step
    case WriteExpired(x) => x == id
    case WriteRevoked(x) => x == id
    case RevokeMember(stake) => id in s.grants && s.grants[id].stake == stake
    case Mark(w) => w in s.walks && s.walks[w].marked.None? && s.walks[w].queue != [] && s.walks[w].queue[0] == id
    case _ => false
  }

  ghost predicate Untouched(s: System, steps: seq<Step>, id: Id) {
    forall k :: 0 <= k < |steps| ==> !Overwrites(Exec(s, steps[..k]), steps[k], id)
  }

  /** A rotated grant stays rotated exactly as long as nothing writes over its status. */
  lemma {:induction false} RotatedUntilOverwritten(s: System, steps: seq<Step>, id: Id)
    requires id in s.grants && s.grants[id].status == Rotated
    ensures id in Exec(s, steps).grants && Exec(s, steps).grants[id].status != Active
    ensures Exec(s, steps).grants[id].status == Rotated <==> Untouched(s, steps, id)
  {
    hide Apply, Overwrites;
    if steps != [] {
      var n := |steps| - 1;
      assert steps == steps[..n] + [steps[n]];
      RotatedUntilOverwritten(s, steps[..n], id);
      RotatedNext(Exec(s, steps[..n]), steps[n], id);
      UntouchedSnoc(s, steps[..n], steps[n], id);
    }
  }

  lemma UntouchedSnoc(s: System, steps: seq<Step>, step: Step, id: Id)
    ensures Untouched(s, steps + [step], id) <==> Untouched(s, steps, id) && !Overwrites(Exec(s, steps), step, id)
  {
    hide Apply, Overwrites, Exec;
    var run, n := steps + [step], |steps|;
    assert run[..n] == steps && run[n] == step;
    assert forall k :: 0 <= k < n ==> run[..k] == steps[..k] && run[k] == steps[k];
    if Untouched(s, run, id) {
      forall k | 0 <= k < n ensures !Overwrites(Exec(s, steps[..k]), steps[k], id) {
        assert !Overwrites(Exec(s, run[..k]), run[k], id);
      }
      assert !Overwrites(Exec(s, run[..n]), run[n], id);
    }
  }

  lemma RotatedNext(s: System, step: Step, id: Id)
    requires id in s.grants && s.grants[id].status != Active
    ensures var t := Apply(s, step).grants;
      && id in t && t[id].status != Active
      && (t[id].status == Rotated <==> s.grants[id].status == Rotated && !Overwrites(s, step, id))
  {}

  /** In every run, presenting a grant that was spent by a refresh starts the walk exactly if
      nothing has written over its status since; otherwise it changes nothing. */
  lemma ReplayStartsWalkIff(s: System, id: Id, newId: Id, expiresAt: Option<int>, steps: seq<Step>, w: nat)
    requires id in s.grants && s.grants[id].status == Active && newId !in s.grants
    requires w !in Exec(Apply(s, Refresh(id, newId, expiresAt)), steps).walks
    ensures var s1 := Apply(s, Refresh(id, newId, expiresAt));
      var t := Exec(s1, steps);
      && (w in Apply(t, Present(w, id)).walks <==> Untouched(s1, steps, id))
      && (!Untouched(s1, steps, id) ==> Apply(t, Present(w, id)) == t)
  {
    RotatedUntilOverwritten(Apply(s, Refresh(id, newId, expiresAt)), steps, id);
  }

  /** What such a write loses: after a refresh, the old grant revoked by itself, or found
      expired by another request, presenting it again leaves its successor active. */
  lemma OverwrittenReplayDoesNothing(s: System, id: Id, newId: Id, expiresAt: Option<int>, over: Step, w: nat)
    requires id in s.grants && s.grants[id].status == Active && newId !in s.grants
    requires over == WriteRevoked(id) || over == WriteExpired(id)
    ensures var t := Apply(Apply(s, Refresh(id, newId, expiresAt)), over);
      && Apply(t, Present(w, id)) == t
      && ChildOf(t.grants, newId, id) && t.grants[newId].status == Active
  {}

  /** The start of a walk never changes, and a walk is never forgotten. */
  lemma {:induction false} WalkStays(s: System, steps: seq<Step>, w: nat)
    requires w in s.walks
    ensures w in Exec(s, steps).walks && Exec(s, steps).walks[w].start == s.walks[w].start
  {
    if steps != [] { WalkStays(s, steps[..|steps| - 1], w); }
  }

  /** Presenting a grant that is still rotated: from when its walk has ended, in every later
      state no member of its whole family, older or newer, is active. */
  lemma ReplayStopsFamily(s: System, w: nat, id: Id, steps: seq<Step>, more: seq<Step>, member: Id)
    requires Inv(s) && id in s.grants && s.grants[id].status == Rotated && w !in s.walks
    requires var t := Exec(Apply(s, Present(w, id)), steps); w in t.walks ==> Finished(t.walks[w])
    requires SameFamily(Exec(Exec(Apply(s, Present(w, id)), steps), more).grants, member, id)
    ensures Exec(Exec(Apply(s, Present(w, id)), steps), more).grants[member].status != Active
  {
    var s1 := Apply(s, Present(w, id));
    StepKeeps(s, Present(w, id));
    RunKeeps(s1, steps);
    WalkStays(s1, steps, w);
    WalkStopsFamily(Exec(s1, steps), w, more, member);
  }

  /** A later refresh of any member of that family therefore changes nothing. */
  lemma NoRefreshAfterReplay(s: System, w: nat, id: Id, steps: seq<Step>, more: seq<Step>,
                             member: Id, newId: Id, expiresAt: Option<int>)
    requires Inv(s) && id in s.grants && s.grants[id].status == Rotated && w !in s.walks
    requires var t := Exec(Apply(s, Present(w, id)), steps); w in t.walks ==> Finished(t.walks[w])
    requires SameFamily(Exec(Exec(Apply(s, Present(w, id)), steps), more).grants, member, id)
    ensures var t := Exec(Exec(Apply(s, Present(w, id)), steps), more);
      Apply(t, Refresh(member, newId, expiresAt)) == t
  {
    ReplayStopsFamily(s, w, id, steps, more, member);
  }

  // ---- What a family is bound to ----

  ghost predicate Bound(t: Table) {
    forall c, p {:trigger ChildOf(t, c, p)} :: ChildOf(t, c, p) && p in t ==>
      && t[c].stake == t[p].stake && t[c].clientType == t[p].clientType
      && t[c].clientId == t[p].clientId && t[c].boundDevice == t[p].boundDevice
  }

  /** No statement changes what a grant is bound to, and a new successor takes it over. */
  lemma BindingKept(s: System, step: Step, id: Id)
    ensures var t := Apply(s, step).grants;
      id in s.grants ==>
        && id in t && t[id].rotatedFrom == s.grants[id].rotatedFrom
        && t[id].stake == s.grants[id].stake && t[id].clientType == s.grants[id].clientType
        && t[id].clientId == s.grants[id].clientId && t[id].boundDevice == s.grants[id].boundDevice
    ensures var t := Apply(s, step).grants;
      id !in s.grants && id in t && t[id].rotatedFrom.Some? ==>
        var p := t[id].rotatedFrom.value;
        && p in s.grants && p in t && t[id].stake == t[p].stake && t[id].clientType == t[p].clientType
        && t[id].clientId == t[p].clientId && t[id].boundDevice == t[p].boundDevice
  {}

  lemma StepKeepsBound(s: System, step: Step)
    requires Inv(s) && Bound(s.grants)
    ensures Bound(Apply(s, step).grants)
  {
    hide Apply;
    var t := Apply(s, step).grants;
    forall c, p | ChildOf(t, c, p) && p in t
      ensures t[c].stake == t[p].stake && t[c].clientType == t[p].clientType
        && t[c].clientId == t[p].clientId && t[c].boundDevice == t[p].boundDevice
    {
      BindingKept(s, step, c);
      BindingKept(s, step, p);
      if c in s.grants { assert ChildOf(s.grants, c, p); }
    }
  }

  lemma {:induction false} RunKeepsBound(s: System, steps: seq<Step>)
    requires Inv(s) && Bound(s.grants)
    ensures Bound(Exec(s, steps).grants)
  {
    if steps != [] {
      RunKeeps(s, steps[..|steps| - 1]);
      RunKeepsBound(s, steps[..|steps| - 1]);
      StepKeepsBound(Exec(s, steps[..|steps| - 1]), steps[|steps| - 1]);
    }
  }

  lemma {:induction false} BoundLikeRoot(t: Table, a: Id)
    requires Ordered(t) && Bound(t) && a in t
    ensures var r := Root(t, a);
      && t[a].stake == t[r].stake && t[a].clientType == t[r].clientType
      && t[a].clientId == t[r].clientId && t[a].boundDevice == t[r].boundDevice
    decreases t[a].rowid
  {
    if t[a].rotatedFrom.Some? {
      assert ChildOf(t, a, t[a].rotatedFrom.value);
      BoundLikeRoot(t, t[a].rotatedFrom.value);
    }
  }

  /** Over every run the grants of one family belong to one credential, one client and one
      device: no rotation drops or changes what the first of them was bound to. */
  lemma FamilySharesBinding(steps: seq<Step>, a: Id, b: Id)
    ensures var t := Exec(System(map[], 0, map[]), steps).grants;
      SameFamily(t, a, b) ==>
        && t[a].stake == t[b].stake && t[a].clientType == t[b].clientType
        && t[a].clientId == t[b].clientId && t[a].boundDevice == t[b].boundDevice
  {
    RunKeeps(System(map[], 0, map[]), steps);
    RunKeepsBound(System(map[], 0, map[]), steps);
    var t := Exec(System(map[], 0, map[]), steps).grants;
    if SameFamily(t, a, b) {
      BoundLikeRoot(t, a);
      BoundLikeRoot(t, b);
    }
  }

  /** Over every run from the empty table each family is a path with at most one active
      grant, and that grant has no successor; and no member of the family of a grant from
      which a walk has ended is active. */
  lemma EveryRun(steps: seq<Step>, a: Id, b: Id, w: nat)
    ensures var t := Exec(System(map[], 0, map[]), steps).grants;
      && Chains(t)
      && (SameFamily(t, a, b) ==>
            (Descends(t, a, b) || Descends(t, b, a)) && (t[a].status == Active && t[b].status == Active ==> a == b))
    ensures var s := Exec(System(map[], 0, map[]), steps);
      w in s.walks && Finished(s.walks[w]) && SameFamily(s.grants, a, s.walks[w].start) ==> s.grants[a].status != Active
  {
    RunKeeps(System(map[], 0, map[]), steps);
    var s := Exec(System(map[], 0, map[]), steps);
    var t := s.grants;
    if w in s.walks && Finished(s.walks[w]) && SameFamily(t, a, s.walks[w].start) {
      WalkStopsFamily(s, w, [], a);
    }
    if SameFamily(t, a, b) {
      FamilyIsPath(t, a, b);
      if t[a].status == Active && t[b].status == Active { AtMostOneActive(t, a, b); }
    }
  }
}
