/** Runs of lookups of one credential on one network through the cache: clock, cache reads
    and writes, and the one shared fetch that concurrent misses join (cachedsource.go). */
module CacheRuns {
  import opened Ascii
  import opened Wrappers
  import opened Epochs
  import opened Membership
  import opened MembershipCache

  /** A lookup, with the epoch it read at its start as its label.  `during` is the epoch in
      which the origin gave the answer. */
  datatype Phase =
    | Begun(epoch: Option<nat>)
    | Missed(epoch: Option<nat>)
    | Waiting(epoch: Option<nat>)  // for the shared fetch
    | Fetched(epoch: Option<nat>, snap: Snapshot, during: int)
    | Answered(epoch: Option<nat>, snap: Snapshot, during: int)
    | FailedLookup

  /** The shared fetch: the origin may have answered before the call returns, and until it
      returns further lookups join it. */
  datatype Flight = Idle | Asked | Came(answer: Option<Snapshot>, during: int)

  datatype System = System(clock: int, row: Option<CacheRow>, rowDuring: int, flight: Flight, lookups: map<nat, Phase>)

  datatype Step =
    | Tick(to: int)
    | Begin(i: nat)
    | ReadCache(i: nat, readable: bool)
    | Enter(i: nat)                      // start the fetch, or join the one under way
    | Reply(answer: Option<Snapshot>)    // the origin answers or fails
    | Land                               // the fetch returns to everyone waiting
    | Store(i: nat, writeOk: bool)

  /** The current epoch, or -1 when there is none. */
  function Now(network: string, clock: int): int {
    match CurrentEpoch(network, clock) case None => -1 case Some(e) => e
  }

  function Landed(p: Phase, f: Flight): Phase {
    if !p.Waiting? || !f.Came? then p
    else match f.answer case None => FailedLookup case Some(snap) => Fetched(p.epoch, snap, f.during)
  }

  function Apply(network: string, s: System, step: Step): System {
    match step
    case Tick(to) => if to < s.clock then s else s.(clock := to)
    case Begin(i) =>
      if i in s.lookups then s else s.(lookups := s.lookups[i := Begun(CurrentEpoch(network, s.clock))])
    case ReadCache(i, readable) =>
      if i !in s.lookups || !s.lookups[i].Begun? then s
      else
        var e := s.lookups[i].epoch;
        s.(lookups := s.lookups[i :=
             if readable && Hits(s.row, e) then Answered(e, FromRow(s.row.value, e.value), s.rowDuring) else Missed(e)])
    case Enter(i) =>
      if i !in s.lookups || !s.lookups[i].Missed? then s
      else s.(flight := if s.flight.Idle? then Asked else s.flight,
              lookups := s.lookups[i := Waiting(s.lookups[i].epoch)])
    case Reply(answer) => if !s.flight.Asked? then s else s.(flight := Came(answer, Now(network, s.clock)))
    case Land =>
      if !s.flight.Came? then s
      else s.(flight := Idle, lookups := map i | i in s.lookups :: Landed(s.lookups[i], s.flight))
    case Store(i, writeOk) =>
      if i !in s.lookups || !s.lookups[i].Fetched? then s
      else
        var f := s.lookups[i];
        s.(row := Stored(s.row, f.epoch, f.snap, writeOk),
           rowDuring := if writeOk then f.during else s.rowDuring,
           lookups := s.lookups[i := Answered(f.epoch, f.snap, f.during)])
  }

  /** The origin answers with the active facts of the current epoch, which do not change
      within it; everything else it says may. */
  predicate Honest(network: string, facts: nat -> ActiveFacts, s: System, step: Step) {
    step.Reply? && step.answer.Some? && Now(network, s.clock) >= 0 ==>
      FactsOf(step.answer.value) == facts(Now(network, s.clock))
  }

  function Exec(network: string, s: System, steps: seq<Step>): System {
    if steps == [] then s
    else Apply(network, Exec(network, s, steps[..|steps| - 1]), steps[|steps| - 1])
  }

  predicate HonestRun(network: string, facts: nat -> ActiveFacts, s: System, steps: seq<Step>) {
    forall k :: 0 <= k < |steps| ==> Honest(network, facts, Exec(network, s, steps[..k]), steps[k])
  }

  lemma Snoc(network: string, facts: nat -> ActiveFacts, s: System, steps: seq<Step>, step: Step)
    ensures Exec(network, s, steps + [step]) == Apply(network, Exec(network, s, steps), step)
    ensures HonestRun(network, facts, s, steps + [step]) <==>
      HonestRun(network, facts, s, steps) && Honest(network, facts, Exec(network, s, steps), step)
  {
    var run, n := steps + [step], |steps|;
    assert run[..n] == steps;
    assert forall k :: 0 <= k < n ==> run[..k] == steps[..k] && run[k] == steps[k];
  }

  const EMPTY: map<nat, Phase> := map[]

  function Start(clock: int): System {
    System(clock, None, 0, Idle, EMPTY)
  }

  // ---- Where answers come from ----

  /** A label, an answer and the epoch in which it was given. */
  datatype Got = Got(epoch: Option<nat>, snap: Snapshot, during: int)

  /** What a lookup has got or is bound to get. */
  function GotOf(p: Phase, f: Flight): Option<Got> {
    match p
    case Waiting(e) => if f.Came? && f.answer.Some? then Some(Got(e, f.answer.value, f.during)) else None
    case Fetched(e, snap, during) => Some(Got(e, snap, during))
    case Answered(e, snap, during) => Some(Got(e, snap, during))
    case _ => None
  }

  predicate Origin(facts: nat -> ActiveFacts, f: ActiveFacts, during: int, now: int) {
    0 <= during <= now && f == facts(during)
  }

  predicate LookupInv(facts: nat -> ActiveFacts, p: Phase, f: Flight, now: int) {
    && (p.FailedLookup? || (p.epoch.Some? && p.epoch.value <= now))
    && (p.Waiting? ==> !f.Idle?)
    && (GotOf(p, f).Some? ==> Origin(facts, FactsOf(GotOf(p, f).value.snap), GotOf(p, f).value.during, now))
  }

  /** Whatever is in the row, under way or handed out was said by the origin in some epoch
      that has begun. */
  ghost predicate Inv(network: string, facts: nat -> ActiveFacts, s: System) {
    var now := Now(network, s.clock);
    && now >= 0
    && (s.row.Some? ==> s.row.value.epoch <= now && Origin(facts, FactsOf(FromRow(s.row.value, 0)), s.rowDuring, now))
    && (s.flight.Came? ==> 0 <= s.flight.during <= now)
    && (s.flight.Came? && s.flight.answer.Some? ==> FactsOf(s.flight.answer.value) == facts(s.flight.during))
    && (forall i :: i in s.lookups ==> LookupInv(facts, s.lookups[i], s.flight, now))
  }

  lemma NowRises(network: string, t: int, u: int)
    requires t <= u && Now(network, t) >= 0
    ensures Now(network, t) <= Now(network, u)
  {
    EpochMonotone(network, t, u);
  }

  lemma StepKeeps(network: string, facts: nat -> ActiveFacts, s: System, step: Step)
    requires Inv(network, facts, s) && Honest(network, facts, s, step)
    ensures Inv(network, facts, Apply(network, s, step))
  {
    hide CurrentEpoch;
    var s' := Apply(network, s, step);
    NowRises(network, s.clock, s'.clock);
    forall i | i in s'.lookups ensures LookupInv(facts, s'.lookups[i], s'.flight, Now(network, s'.clock)) {
      if i in s.lookups { assert LookupInv(facts, s.lookups[i], s.flight, Now(network, s.clock)); }
    }
  }

  lemma {:induction false} RunKeeps(network: string, facts: nat -> ActiveFacts, s: System, steps: seq<Step>)
    requires Inv(network, facts, s) && HonestRun(network, facts, s, steps)
    ensures Inv(network, facts, Exec(network, s, steps))
  {
    if steps != [] {
      var n := |steps| - 1;
      assert steps == steps[..n] + [steps[n]];
      Snoc(network, facts, s, steps[..n], steps[n]);
      RunKeeps(network, facts, s, steps[..n]);
      StepKeeps(network, facts, Exec(network, s, steps[..n]), steps[n]);
    }
  }

  /** A row that is served always says active: an answer without an active pool removes
      the row. */
  lemma {:induction false} RowsAreActive(network: string, s: System, steps: seq<Step>)
    requires s.row.Some? ==> FromRow(s.row.value, 0).activePool != ""
    ensures var t := Exec(network, s, steps); t.row.Some? ==> FromRow(t.row.value, 0).activePool != ""
  {
    if steps != [] { RowsAreActive(network, s, steps[..|steps| - 1]); }
  }

  // ---- Joining too late ----

  /** A lookup joins a fetch whose answer was given in an epoch before its own label. */
  predicate Late(s: System, step: Step) {
    && step.Enter? && step.i in s.lookups && s.lookups[step.i].Missed? && s.lookups[step.i].epoch.Some?
    && s.flight.Came? && s.flight.answer.Some? && s.flight.during < s.lookups[step.i].epoch.value
  }

  ghost predicate JoinedLate(network: string, s: System, steps: seq<Step>, i: nat) {
    exists k :: 0 <= k < |steps| && steps[k] == Enter(i) && Late(Exec(network, s, steps[..k]), steps[k])
  }

  lemma JoinedLateSnoc(network: string, s: System, steps: seq<Step>, step: Step, i: nat)
    ensures JoinedLate(network, s, steps + [step], i) <==>
      JoinedLate(network, s, steps, i) || (step == Enter(i) && Late(Exec(network, s, steps), step))
  {
    var run, n := steps + [step], |steps|;
    assert run[..n] == steps && run[n] == step;
    assert forall k :: 0 <= k < n ==> run[..k] == steps[..k] && run[k] == steps[k];
  }

  predicate Untimely(epoch: Option<nat>, during: int) {
    epoch.Some? && during < epoch.value
  }

  predicate Doomed(p: Phase, f: Flight) {
    GotOf(p, f).Some? && Untimely(GotOf(p, f).value.epoch, GotOf(p, f).value.during)
  }

  /** A lookup that is doomed stays so, and one that joins late becomes so. */
  lemma DoomedNext(network: string, s: System, step: Step, i: nat)
    requires (i in s.lookups && Doomed(s.lookups[i], s.flight)) || (step == Enter(i) && Late(s, step))
    ensures var t := Apply(network, s, step); i in t.lookups && Doomed(t.lookups[i], t.flight)
  {
    hide CurrentEpoch, Stored, Hits, FromRow;
  }

  /** Once it has joined late, a lookup gets an answer older than its label. */
  lemma {:induction false} LateIsDoomed(network: string, s: System, steps: seq<Step>, i: nat)
    requires JoinedLate(network, s, steps, i)
    ensures var t := Exec(network, s, steps); i in t.lookups && Doomed(t.lookups[i], t.flight)
  {
    hide Apply, Doomed, Late, JoinedLate;
    var n := |steps| - 1;
    if steps == [] {
      NobodyJoined(network, s, i);
    } else {
      assert steps == steps[..n] + [steps[n]];
      JoinedLateSnoc(network, s, steps[..n], steps[n], i);
      if JoinedLate(network, s, steps[..n], i) { LateIsDoomed(network, s, steps[..n], i); }
      DoomedNext(network, Exec(network, s, steps[..n]), steps[n], i);
    }
  }

  lemma NobodyJoined(network: string, s: System, i: nat)
    ensures !JoinedLate(network, s, [], i)
  {
  }

  /** A lookup that joined late and has been answered, with this label and origin. */
  ghost predicate Culprit(network: string, s: System, steps: seq<Step>, j: nat, epoch: Option<nat>, during: int) {
    var t := Exec(network, s, steps);
    j in t.lookups && t.lookups[j].Answered? && t.lookups[j].epoch == epoch && t.lookups[j].during == during
    && JoinedLate(network, s, steps, j)
  }

  lemma CulpritStays(network: string, s: System, steps: seq<Step>, step: Step, j: nat, epoch: Option<nat>, during: int)
    requires Culprit(network, s, steps, j, epoch, during)
    ensures Culprit(network, s, steps + [step], j, epoch, during)
  {
    JoinedLateSnoc(network, s, steps, step, j);
    assert (steps + [step])[..|steps|] == steps;
  }

  /** Every answer older than its label, handed out or kept in the row, goes back to a
      lookup that joined late. */
  ghost predicate Blamed(network: string, s: System, steps: seq<Step>) {
    var t := Exec(network, s, steps);
    && (forall i :: i in t.lookups && Doomed(t.lookups[i], t.flight) ==>
          if t.lookups[i].Answered? then exists j :: Culprit(network, s, steps, j, t.lookups[i].epoch, t.lookups[i].during)
          else JoinedLate(network, s, steps, i))
    && (t.row.Some? && t.rowDuring < t.row.value.epoch ==>
          t.row.value.epoch >= 0 && exists j :: Culprit(network, s, steps, j, Some(t.row.value.epoch), t.rowDuring))
  }

  lemma BlamedRow(network: string, facts: nat -> ActiveFacts, s: System, steps: seq<Step>, step: Step)
    requires Inv(network, facts, Exec(network, s, steps)) && Blamed(network, s, steps)
    ensures var t := Exec(network, s, steps + [step]);
      t.row.Some? && t.rowDuring < t.row.value.epoch ==>
        t.row.value.epoch >= 0 && exists j :: Culprit(network, s, steps + [step], j, Some(t.row.value.epoch), t.rowDuring)
  {
    hide Inv, JoinedLate, LookupInv;
    var t, run := Exec(network, s, steps), steps + [step];
    var t' := Exec(network, s, run);
    assert run[..|steps|] == steps;
    if t'.row.Some? && t'.rowDuring < t'.row.value.epoch {
      if t'.row == t.row && t'.rowDuring == t.rowDuring {
        var j :| Culprit(network, s, steps, j, Some(t.row.value.epoch), t.rowDuring);
        CulpritStays(network, s, steps, step, j, Some(t.row.value.epoch), t.rowDuring);
      } else {
        StoreBlamed(network, facts, s, steps, step);
      }
    }
  }

  /** A store that leaves a row older than its label is that of a late joiner. */
  lemma StoreBlamed(network: string, facts: nat -> ActiveFacts, s: System, steps: seq<Step>, step: Step)
    requires Inv(network, facts, Exec(network, s, steps)) && Blamed(network, s, steps)
    requires var t, t' := Exec(network, s, steps), Apply(network, Exec(network, s, steps), step);
      t'.row.Some? && t'.rowDuring < t'.row.value.epoch && !(t'.row == t.row && t'.rowDuring == t.rowDuring)
    ensures var t' := Apply(network, Exec(network, s, steps), step);
      t'.row.value.epoch >= 0 && Culprit(network, s, steps + [step], step.i, Some(t'.row.value.epoch), t'.rowDuring)
  {
    hide JoinedLate;
    var t := Exec(network, s, steps);
    assert step.Store? && step.writeOk && step.i in t.lookups && t.lookups[step.i].Fetched?;
    assert LookupInv(facts, t.lookups[step.i], t.flight, Now(network, t.clock));
    assert Doomed(t.lookups[step.i], t.flight);
    JoinedLateSnoc(network, s, steps, step, step.i);
    assert (steps + [step])[..|steps|] == steps;
  }

  lemma BlamedAnswer(network: string, facts: nat -> ActiveFacts, s: System, steps: seq<Step>, step: Step, i: nat)
    requires Inv(network, facts, Exec(network, s, steps)) && Blamed(network, s, steps)
    requires var t' := Apply(network, Exec(network, s, steps), step);
      i in t'.lookups && t'.lookups[i].Answered? && Doomed(t'.lookups[i], t'.flight)
    ensures var p := Apply(network, Exec(network, s, steps), step).lookups[i];
      exists j :: Culprit(network, s, steps + [step], j, p.epoch, p.during)
  {
    hide JoinedLate;
    var t, run := Exec(network, s, steps), steps + [step];
    var p := Apply(network, t, step).lookups[i];
    assert run[..|steps|] == steps;
    assert i in t.lookups && LookupInv(facts, t.lookups[i], t.flight, Now(network, t.clock));
    if t.lookups[i].Fetched? {
      JoinedLateSnoc(network, s, steps, step, i);
      assert Culprit(network, s, run, i, p.epoch, p.during);
    } else if t.lookups[i].Answered? {
      var j :| Culprit(network, s, steps, j, p.epoch, p.during);
      CulpritStays(network, s, steps, step, j, p.epoch, p.during);
    } else {
      assert t.row.Some? && p.epoch == Some(t.row.value.epoch) && p.during == t.rowDuring;
      var j :| Culprit(network, s, steps, j, Some(t.row.value.epoch), t.rowDuring);
      CulpritStays(network, s, steps, step, j, p.epoch, p.during);
    }
  }

  lemma BlamedPending(network: string, facts: nat -> ActiveFacts, s: System, steps: seq<Step>, step: Step, i: nat)
    requires Inv(network, facts, Exec(network, s, steps)) && Blamed(network, s, steps)
    requires var t' := Apply(network, Exec(network, s, steps), step);
      i in t'.lookups && !t'.lookups[i].Answered? && Doomed(t'.lookups[i], t'.flight)
    ensures JoinedLate(network, s, steps + [step], i)
  {
    hide JoinedLate, Culprit;
    var t := Exec(network, s, steps);
    assert i in t.lookups && LookupInv(facts, t.lookups[i], t.flight, Now(network, t.clock));
    JoinedLateSnoc(network, s, steps, step, i);
    if !(step == Enter(i) && Late(t, step)) {
      assert Doomed(t.lookups[i], t.flight);
    }
  }

  lemma BlamedLookup(network: string, facts: nat -> ActiveFacts, s: System, steps: seq<Step>, step: Step, i: nat)
    requires Inv(network, facts, Exec(network, s, steps)) && Blamed(network, s, steps)
    requires var t' := Apply(network, Exec(network, s, steps), step); i in t'.lookups && Doomed(t'.lookups[i], t'.flight)
    ensures var p := Apply(network, Exec(network, s, steps), step).lookups[i];
      if p.Answered? then exists j :: Culprit(network, s, steps + [step], j, p.epoch, p.during)
      else JoinedLate(network, s, steps + [step], i)
  {
    hide Inv, Culprit, JoinedLate, Doomed, Blamed, Apply, Exec;
    if Apply(network, Exec(network, s, steps), step).lookups[i].Answered? {
      BlamedAnswer(network, facts, s, steps, step, i);
    } else {
      BlamedPending(network, facts, s, steps, step, i);
    }
  }

  lemma {:induction false} RunBlamed(network: string, facts: nat -> ActiveFacts, s: System, steps: seq<Step>)
    requires Inv(network, facts, s) && HonestRun(network, facts, s, steps)
    requires s.row.None? && s.lookups == EMPTY
    ensures Inv(network, facts, Exec(network, s, steps)) && Blamed(network, s, steps)
  {
    hide Inv, Culprit, JoinedLate, Doomed;
    RunKeeps(network, facts, s, steps);
    if steps != [] {
      var front, last := steps[..|steps| - 1], steps[|steps| - 1];
      assert steps == front + [last];
      Snoc(network, facts, s, front, last);
      RunBlamed(network, facts, s, front);
      BlamedRow(network, facts, s, front, last);
      var t := Exec(network, s, steps);
      forall i | i in t.lookups && Doomed(t.lookups[i], t.flight)
        ensures if t.lookups[i].Answered? then exists j :: Culprit(network, s, steps, j, t.lookups[i].epoch, t.lookups[i].during)
                else JoinedLate(network, s, steps, i)
      {
        BlamedLookup(network, facts, s, front, last, i);
      }
    }
  }

  // ---- When answers are fresh ----

  /** The facts are the origin's of an epoch from the label on that has begun. */
  ghost predicate Fresh(facts: nat -> ActiveFacts, p: Phase, now: int) {
    p.Answered? && p.epoch.Some? && exists k: nat :: p.epoch.value <= k <= now && FactsOf(p.snap) == facts(k)
  }

  ghost predicate AllFresh(network: string, facts: nat -> ActiveFacts, t: System) {
    forall i :: i in t.lookups && t.lookups[i].Answered? ==> Fresh(facts, t.lookups[i], Now(network, t.clock))
  }

  /** No lookup that has been answered joined late. */
  ghost predicate NoneLate(network: string, s: System, steps: seq<Step>) {
    var t := Exec(network, s, steps);
    forall i :: i in t.lookups && t.lookups[i].Answered? ==> !JoinedLate(network, s, steps, i)
  }

  lemma StartInv(network: string, facts: nat -> ActiveFacts, clock: int)
    requires CurrentEpoch(network, clock).Some?
    ensures Inv(network, facts, Start(clock))
  {}

  /** A lookup's answer is as old as the epoch in which the origin gave it, at most now. */
  lemma AnswerOrigin(network: string, facts: nat -> ActiveFacts, clock: int, steps: seq<Step>, i: nat)
    requires CurrentEpoch(network, clock).Some? && HonestRun(network, facts, Start(clock), steps)
    requires var t := Exec(network, Start(clock), steps); i in t.lookups && t.lookups[i].Answered?
    ensures var t := Exec(network, Start(clock), steps);
      t.lookups[i].epoch.Some? && Origin(facts, FactsOf(t.lookups[i].snap), t.lookups[i].during, Now(network, t.clock))
  {
    StartInv(network, facts, clock);
    RunKeeps(network, facts, Start(clock), steps);
    var t := Exec(network, Start(clock), steps);
    assert LookupInv(facts, t.lookups[i], t.flight, Now(network, t.clock));
  }

  /** Every answer is given at or after its label exactly when no answered lookup had
      joined a fetch answered in an epoch before its label. */
  lemma TimelyIffNoneLate(network: string, facts: nat -> ActiveFacts, clock: int, steps: seq<Step>)
    requires CurrentEpoch(network, clock).Some? && HonestRun(network, facts, Start(clock), steps)
    ensures var t := Exec(network, Start(clock), steps);
      (forall i :: i in t.lookups && t.lookups[i].Answered? ==> !Untimely(t.lookups[i].epoch, t.lookups[i].during))
      <==> NoneLate(network, Start(clock), steps)
  {
    hide JoinedLate, Exec;
    StartInv(network, facts, clock);
    RunBlamed(network, facts, Start(clock), steps);
    var t := Exec(network, Start(clock), steps);
    forall i | i in t.lookups && t.lookups[i].Answered? && JoinedLate(network, Start(clock), steps, i)
      ensures Untimely(t.lookups[i].epoch, t.lookups[i].during)
    {
      LateIsDoomed(network, Start(clock), steps, i);
    }
    forall i | i in t.lookups && t.lookups[i].Answered? && Untimely(t.lookups[i].epoch, t.lookups[i].during)
      ensures !NoneLate(network, Start(clock), steps)
    {
      assert Doomed(t.lookups[i], t.flight);
      var j :| Culprit(network, Start(clock), steps, j, t.lookups[i].epoch, t.lookups[i].during);
    }
  }

  ghost predicate DistinctFacts(facts: nat -> ActiveFacts) {
    forall k: nat, m: nat :: facts(k) == facts(m) ==> k == m
  }

  /** Whatever the interleaving of lookups, clock, shared fetches, failed reads and failed
      writes: if no answered lookup joined late, every answer carries the origin's active
      facts of an epoch between its label and the present one.  And only then, when the
      facts differ from epoch to epoch. */
  lemma AnswersAreFreshIff(network: string, facts: nat -> ActiveFacts, clock: int, steps: seq<Step>)
    requires CurrentEpoch(network, clock).Some? && HonestRun(network, facts, Start(clock), steps)
    ensures NoneLate(network, Start(clock), steps) ==> AllFresh(network, facts, Exec(network, Start(clock), steps))
    ensures DistinctFacts(facts) ==>
      (AllFresh(network, facts, Exec(network, Start(clock), steps)) <==> NoneLate(network, Start(clock), steps))
  {
    hide NoneLate, Exec, HonestRun;
    TimelyIffNoneLate(network, facts, clock, steps);
    var t := Exec(network, Start(clock), steps);
    var now := Now(network, t.clock);
    forall i | i in t.lookups && t.lookups[i].Answered?
      ensures !Untimely(t.lookups[i].epoch, t.lookups[i].during) ==> Fresh(facts, t.lookups[i], now)
      ensures DistinctFacts(facts) && Fresh(facts, t.lookups[i], now) ==> !Untimely(t.lookups[i].epoch, t.lookups[i].during)
    {
      AnswerOrigin(network, facts, clock, steps, i);
      var k: nat := t.lookups[i].during;
      assert FactsOf(t.lookups[i].snap) == facts(k);
    }
  }

  /** Without a late joiner, a lookup that crosses no epoch boundary answers with the
      origin's facts. */
  lemma AnswersAreExact(network: string, facts: nat -> ActiveFacts, clock: int, steps: seq<Step>, i: nat, e: nat)
    requires CurrentEpoch(network, clock).Some? && HonestRun(network, facts, Start(clock), steps)
    requires NoneLate(network, Start(clock), steps)
    requires var t := Exec(network, Start(clock), steps);
      i in t.lookups && t.lookups[i].Answered? && t.lookups[i].epoch == Some(e) && Now(network, t.clock) == e
    ensures FactsOf(Exec(network, Start(clock), steps).lookups[i].snap) == facts(e)
  {
    hide NoneLate, Exec, HonestRun;
    AnswersAreFreshIff(network, facts, clock, steps);
    FreshAt(facts, Exec(network, Start(clock), steps).lookups[i], e);
  }

  /** So for any pool its state is Active exactly if that of any live answer of the epoch is. */
  lemma AnswerState(lib: Library, network: string, facts: nat -> ActiveFacts, clock: int, steps: seq<Step>, i: nat, e: nat,
                    live: Snapshot, poolID: string)
    requires CurrentEpoch(network, clock).Some? && HonestRun(network, facts, Start(clock), steps)
    requires NoneLate(network, Start(clock), steps)
    requires var t := Exec(network, Start(clock), steps);
      i in t.lookups && t.lookups[i].Answered? && t.lookups[i].epoch == Some(e) && Now(network, t.clock) == e
    requires FactsOf(live) == facts(e)
    ensures DeriveState(lib, Some(Exec(network, Start(clock), steps).lookups[i].snap), poolID) == Active <==>
      DeriveState(lib, Some(live), poolID) == Active
  {
    hide NoneLate, Exec, HonestRun;
    AnswersAreExact(network, facts, clock, steps, i, e);
  }

  /** What a hit answers is the row, which no live answer contradicts except where it is
      Pending with active stake elsewhere: there the hit says NonMember. */
  lemma HitStateInRun(lib: Library, network: string, facts: nat -> ActiveFacts, clock: int, steps: seq<Step>, i: nat, e: nat,
                      live: Snapshot, poolID: string)
    requires CurrentEpoch(network, clock).Some? && HonestRun(network, facts, Start(clock), steps)
    requires NoneLate(network, Start(clock), steps)
    requires var t := Exec(network, Start(clock), steps);
      i in t.lookups && t.lookups[i] == Begun(Some(e)) && Hits(t.row, Some(e)) && Now(network, t.clock) == e
    requires FactsOf(live) == facts(e)
    ensures var t := Exec(network, Start(clock), steps + [ReadCache(i, true)]);
      && i in t.lookups && t.lookups[i].Answered?
      && var hit := DeriveState(lib, Some(t.lookups[i].snap), poolID);
         var actual := DeriveState(lib, Some(live), poolID);
         (hit == Active <==> actual == Active) && (hit != actual <==> actual == Pending)
         && (actual == Pending ==> hit == NonMember)
  {
    hide HonestRun, Exec, DeriveState;
    var s, run := Start(clock), steps + [ReadCache(i, true)];
    var t := Exec(network, s, steps);
    Snoc(network, facts, s, steps, ReadCache(i, true));
    RowsAreActive(network, s, steps);
    HitNotLate(network, facts, clock, steps, i);
    AnswersAreExact(network, facts, clock, run, i, e);
    var snap := FromRow(t.row.value, e);
    HitState(lib, snap, live, e, e, poolID);
    assert FromRow(ToRow(snap, e), e) == snap;
  }

  /** A hit joins nothing. */
  lemma HitNotLate(network: string, facts: nat -> ActiveFacts, clock: int, steps: seq<Step>, i: nat)
    requires var t := Exec(network, Start(clock), steps); i in t.lookups && t.lookups[i].Begun?
    requires NoneLate(network, Start(clock), steps)
    ensures NoneLate(network, Start(clock), steps + [ReadCache(i, true)])
  {
    hide JoinedLate;
    var s, run := Start(clock), steps + [ReadCache(i, true)];
    Snoc(network, facts, s, steps, ReadCache(i, true));
    var t := Exec(network, s, run);
    forall j | j in t.lookups && t.lookups[j].Answered? ensures !JoinedLate(network, s, run, j) {
      JoinedLateSnoc(network, s, steps, ReadCache(i, true), j);
      if j == i && JoinedLate(network, s, steps, i) { LateIsDoomed(network, s, steps, i); }
    }
  }

  lemma FreshAt(facts: nat -> ActiveFacts, p: Phase, e: nat)
    requires Fresh(facts, p, e) && p.epoch == Some(e)
    ensures FactsOf(p.snap) == facts(e)
  {}

  // ---- The runs that serve stale answers ----

  lemma {:induction false} Append(network: string, facts: nat -> ActiveFacts, s: System, a: seq<Step>, b: seq<Step>)
    ensures Exec(network, s, a + b) == Exec(network, Exec(network, s, a), b)
    ensures HonestRun(network, facts, s, a + b) <==>
      HonestRun(network, facts, s, a) && HonestRun(network, facts, Exec(network, s, a), b)
  {
    if b == [] {
      assert a + b == a;
    } else {
      var n := |b| - 1;
      assert a + b == (a + b[..n]) + [b[n]] && b == b[..n] + [b[n]];
      Append(network, facts, s, a, b[..n]);
      Snoc(network, facts, s, a + b[..n], b[n]);
      Snoc(network, facts, Exec(network, s, a), b[..n], b[n]);
    }
  }

  lemma One(network: string, facts: nat -> ActiveFacts, s: System, a: Step)
    ensures Exec(network, s, [a]) == Apply(network, s, a)
    ensures HonestRun(network, facts, s, [a]) <==> Honest(network, facts, s, a)
  {
    assert [a][..0] == [];
  }

  lemma Three(network: string, facts: nat -> ActiveFacts, s: System, a: Step, b: Step, c: Step)
    ensures Exec(network, s, [a, b, c]) == Apply(network, Apply(network, Apply(network, s, a), b), c)
    ensures !a.Reply? && !b.Reply? && !c.Reply? ==> HonestRun(network, facts, s, [a, b, c])
  {
    hide Apply;
    One(network, facts, s, a);
    Snoc(network, facts, s, [a], b);
    Snoc(network, facts, s, [a, b], c);
    assert [a] + [b] == [a, b] && [a, b] + [c] == [a, b, c];
  }

  /** Lookup `i` misses and enters the fetch. */
  function Miss(i: nat): seq<Step> {
    [Begin(i), ReadCache(i, true), Enter(i)]
  }

  lemma MissRuns(network: string, facts: nat -> ActiveFacts, s: System, i: nat)
    requires i !in s.lookups && !Hits(s.row, CurrentEpoch(network, s.clock))
    ensures HonestRun(network, facts, s, Miss(i))
    ensures Exec(network, s, Miss(i)) ==
      s.(flight := if s.flight.Idle? then Asked else s.flight,
         lookups := s.lookups[i := Waiting(CurrentEpoch(network, s.clock))])
  {
    hide CurrentEpoch;
    Three(network, facts, s, Begin(i), ReadCache(i, true), Enter(i));
    var e := CurrentEpoch(network, s.clock);
    assert s.lookups[i := Begun(e)][i := Missed(e)][i := Waiting(e)] == s.lookups[i := Waiting(e)];
  }

  /** The fetch returns, lookup `i` stores its answer, and the clock moves. */
  function Return(i: nat, to: int): seq<Step> {
    [Land, Store(i, true), Tick(to)]
  }

  lemma ReturnRuns(network: string, facts: nat -> ActiveFacts, s: System, i: nat, to: int)
    requires s.flight.Came? && s.flight.answer.Some? && s.flight.answer.value.activePool != "" && s.clock <= to
    requires i in s.lookups && s.lookups[i].Waiting?
    ensures HonestRun(network, facts, s, Return(i, to))
    ensures var t, e, snap := Exec(network, s, Return(i, to)), s.lookups[i].epoch, s.flight.answer.value;
      && t.clock == to && t.lookups.Keys == s.lookups.Keys
      && t.row == Some(ToRow(snap, if e.Some? then e.value else snap.epoch)) && t.rowDuring == s.flight.during
      && t.lookups[i] == Answered(e, snap, s.flight.during)
      && forall j :: j in s.lookups && j != i ==> t.lookups[j] == Landed(s.lookups[j], s.flight)
  {
    Three(network, facts, s, Land, Store(i, true), Tick(to));
  }

  /** Lookup `i` is answered from the cache. */
  function Hit(i: nat): seq<Step> {
    [Begin(i)] + [ReadCache(i, true)]
  }

  lemma HitRuns(network: string, facts: nat -> ActiveFacts, s: System, i: nat)
    requires i !in s.lookups && Hits(s.row, CurrentEpoch(network, s.clock))
    ensures HonestRun(network, facts, s, Hit(i))
    ensures var e := CurrentEpoch(network, s.clock);
      Exec(network, s, Hit(i)) == s.(lookups := s.lookups[i := Answered(e, FromRow(s.row.value, e.value), s.rowDuring)])
  {
    hide CurrentEpoch;
    One(network, facts, s, Begin(i));
    Snoc(network, facts, s, [Begin(i)], ReadCache(i, true));
  }

  /** Lookup 0 starts the fetch and the origin answers; the clock enters a later epoch before
      the fetch returns.  Lookup 1 joins it there and labels the row; lookup 2 hits it. */
  function JoinRun(to: int, snap: Snapshot): seq<Step> {
    Miss(0) + [Reply(Some(snap))] + [Tick(to)] + Miss(1) + Return(1, to) + Hit(2)
  }

  lemma LateArrival(network: string, facts: nat -> ActiveFacts, clock: int, to: int, snap: Snapshot)
    requires CurrentEpoch(network, clock).Some? && clock <= to
    requires FactsOf(snap) == facts(CurrentEpoch(network, clock).value)
    ensures var run := Miss(0) + [Reply(Some(snap))] + [Tick(to)] + Miss(1);
      var e, f := CurrentEpoch(network, clock), CurrentEpoch(network, to);
      && HonestRun(network, facts, Start(clock), run)
      && Exec(network, Start(clock), run) ==
           System(to, None, 0, Came(Some(snap), e.value), map[0 := Waiting(e), 1 := Waiting(f)])
  {
    hide CurrentEpoch, HonestRun;
    var s := Start(clock);
    MissRuns(network, facts, s, 0);
    var s1 := Exec(network, s, Miss(0));
    Snoc(network, facts, s, Miss(0), Reply(Some(snap)));
    var s2 := Exec(network, s, Miss(0) + [Reply(Some(snap))]);
    Snoc(network, facts, s, Miss(0) + [Reply(Some(snap))], Tick(to));
    MissRuns(network, facts, Apply(network, s2, Tick(to)), 1);
    Append(network, facts, s, Miss(0) + [Reply(Some(snap))] + [Tick(to)], Miss(1));
  }

  /** On every network with an epoch clock and for every two epochs, a fetch joined late
      makes the cache answer with the facts of the earlier one a lookup that runs entirely in
      the later one. */
  lemma JoinedFetchServesStale(network: string, facts: nat -> ActiveFacts, clock: int, to: int, snap: Snapshot)
    requires CurrentEpoch(network, clock).Some? && clock <= to
    requires FactsOf(snap) == facts(CurrentEpoch(network, clock).value) && snap.activePool != ""
    ensures HonestRun(network, facts, Start(clock), JoinRun(to, snap))
    ensures var t := Exec(network, Start(clock), JoinRun(to, snap));
      && 2 in t.lookups && t.lookups[2].Answered? && t.lookups[2].epoch == CurrentEpoch(network, t.clock) == CurrentEpoch(network, to)
      && FactsOf(t.lookups[2].snap) == facts(CurrentEpoch(network, clock).value)
  {
    hide CurrentEpoch, HonestRun;
    var run := Miss(0) + [Reply(Some(snap))] + [Tick(to)] + Miss(1);
    LateArrival(network, facts, clock, to, snap);
    EpochMonotone(network, clock, to);
    var s := Exec(network, Start(clock), run);
    ReturnRuns(network, facts, s, 1, to);
    Append(network, facts, Start(clock), run, Return(1, to));
    var s2 := Exec(network, Start(clock), run + Return(1, to));
    HitRuns(network, facts, s2, 2);
    Append(network, facts, Start(clock), run + Return(1, to), Hit(2));
  }

  // ---- Which starting clocks are safe ----

  /** A run with an honest origin and no late joiner in which some answer is not fresh. */
  ghost predicate StaleRun(network: string, facts: nat -> ActiveFacts, clock: int, steps: seq<Step>) {
    var t := Exec(network, Start(clock), steps);
    && HonestRun(network, facts, Start(clock), steps) && NoneLate(network, Start(clock), steps)
    && exists i :: i in t.lookups && t.lookups[i].Answered? && t.lookups[i].epoch.Some?
                   && !Fresh(facts, t.lookups[i], Now(network, t.clock))
  }

  /** Before genesis the row is labelled with whatever epoch the answer carries -- 0 when the
      tip could not be read -- and is then served throughout that epoch. */
  function GenesisRun(genesis: int, early: Snapshot): seq<Step> {
    Miss(0) + [Reply(Some(early))] + Return(0, genesis) + Hit(1)
  }

  lemma ClockBeforeGenesisServesStale(network: string, facts: nat -> ActiveFacts, clock: int, early: Snapshot)
    requires ParamsOf(network).Some? && clock < ParamsOf(network).value.genesis
    requires early.epoch == 0 && early.activePool != "" && FactsOf(early) != facts(0)
    ensures StaleRun(network, facts, clock, GenesisRun(ParamsOf(network).value.genesis, early))
  {
    var genesis, s := ParamsOf(network).value.genesis, Start(clock);
    var run := Miss(0) + [Reply(Some(early))];
    GenesisHead(network, facts, clock, early);
    GenesisTail(network, facts, s, run, genesis, early);
    GenesisNoneLate(network, s, genesis, early);
    GenesisStale(network, facts, s, Exec(network, s, GenesisRun(genesis, early)), early);
  }

  lemma GenesisHead(network: string, facts: nat -> ActiveFacts, clock: int, early: Snapshot)
    requires ParamsOf(network).Some? && clock < ParamsOf(network).value.genesis
    ensures var run := Miss(0) + [Reply(Some(early))];
      && HonestRun(network, facts, Start(clock), run)
      && Exec(network, Start(clock), run) == System(clock, None, 0, Came(Some(early), -1), map[0 := Waiting(None)])
    ensures CurrentEpoch(network, ParamsOf(network).value.genesis) == Some(0)
  {
    MissRuns(network, facts, Start(clock), 0);
    Snoc(network, facts, Start(clock), Miss(0), Reply(Some(early)));
  }

  lemma GenesisStale(network: string, facts: nat -> ActiveFacts, s: System, t: System, early: Snapshot)
    requires t.lookups.Keys == {0, 1} && Now(network, t.clock) == 0
    requires t.lookups[1] == Answered(Some(0), FromRow(ToRow(early, 0), 0), -1)
    requires early.activePool != "" && FactsOf(early) != facts(0)
    ensures !Fresh(facts, t.lookups[1], Now(network, t.clock))
  {
    if Fresh(facts, t.lookups[1], 0) { FreshAt(facts, t.lookups[1], 0); }
  }

  lemma GenesisNoneLate(network: string, s: System, genesis: int, early: Snapshot)
    requires var t := Exec(network, s, GenesisRun(genesis, early));
      && t.lookups.Keys == {0, 1} && t.lookups[0] == Answered(None, early, -1)
    ensures NoneLate(network, s, GenesisRun(genesis, early))
  {
    hide Exec, JoinedLate;
    var run := GenesisRun(genesis, early);
    NoEnter(network, s, run, 1);
    NoLabelNotLate(network, s, run, 0);
  }

  lemma GenesisTail(network: string, facts: nat -> ActiveFacts, s: System, run: seq<Step>, genesis: int, early: Snapshot)
    requires CurrentEpoch(network, genesis) == Some(0) && s.clock <= genesis
    requires early.epoch == 0 && early.activePool != "" && HonestRun(network, facts, s, run)
    requires Exec(network, s, run) == System(s.clock, None, 0, Came(Some(early), -1), map[0 := Waiting(None)])
    ensures HonestRun(network, facts, s, run + Return(0, genesis) + Hit(1))
    ensures var t := Exec(network, s, run + Return(0, genesis) + Hit(1));
      && t.clock == genesis && t.lookups.Keys == {0, 1}
      && t.lookups[0] == Answered(None, early, -1) && t.lookups[1] == Answered(Some(0), FromRow(ToRow(early, 0), 0), -1)
  {
    hide CurrentEpoch, HonestRun;
    ReturnRuns(network, facts, Exec(network, s, run), 0, genesis);
    Append(network, facts, s, run, Return(0, genesis));
    HitRuns(network, facts, Exec(network, s, run + Return(0, genesis)), 1);
    Append(network, facts, s, run + Return(0, genesis), Hit(1));
  }

  lemma NoEnter(network: string, s: System, steps: seq<Step>, i: nat)
    requires Enter(i) !in steps
    ensures !JoinedLate(network, s, steps, i)
  {}

  lemma NoLabelNotLate(network: string, s: System, steps: seq<Step>, i: nat)
    requires var t := Exec(network, s, steps); i in t.lookups && t.lookups[i].Answered? && t.lookups[i].epoch.None?
    ensures !JoinedLate(network, s, steps, i)
  {
    if JoinedLate(network, s, steps, i) { LateIsDoomed(network, s, steps, i); }
  }

  /** A network without an epoch clock labels nothing. */
  lemma {:induction false} NoClockNoLabel(network: string, clock: int, steps: seq<Step>)
    requires ParamsOf(network).None?
    ensures Unlabelled(Exec(network, Start(clock), steps))
  {
    if steps != [] {
      var n := |steps| - 1;
      NoClockNoLabel(network, clock, steps[..n]);
      StaysUnlabelled(network, Exec(network, Start(clock), steps[..n]), steps[n]);
    }
  }

  predicate Unlabelled(s: System) {
    forall i :: i in s.lookups ==> s.lookups[i].FailedLookup? || s.lookups[i].epoch.None?
  }

  lemma StaysUnlabelled(network: string, s: System, step: Step)
    requires ParamsOf(network).None? && Unlabelled(s)
    ensures Unlabelled(Apply(network, s, step))
  {
    var t := Apply(network, s, step);
    forall i | i in t.lookups ensures t.lookups[i].FailedLookup? || t.lookups[i].epoch.None? {
      if i in s.lookups { assert s.lookups[i].FailedLookup? || s.lookups[i].epoch.None?; }
    }
  }

  /** Late joiners aside, some run serves a stale answer exactly when the network has an
      epoch clock and the local clock starts before its genesis. */
  lemma StaleIffBeforeGenesis(network: string, facts: nat -> ActiveFacts, clock: int)
    ensures (exists steps :: StaleRun(network, facts, clock, steps)) <==>
      ParamsOf(network).Some? && clock < ParamsOf(network).value.genesis
  {
    if ParamsOf(network).Some? && clock < ParamsOf(network).value.genesis {
      var early := Snapshot(0, "", facts(0).pool + "x", "", "", 0, "");
      assert |early.activePool| == |facts(0).pool| + 1;
      ClockBeforeGenesisServesStale(network, facts, clock, early);
    } else {
      forall steps ensures !StaleRun(network, facts, clock, steps) {
        NeverStale(network, facts, clock, steps);
      }
    }
  }

  lemma NeverStale(network: string, facts: nat -> ActiveFacts, clock: int, steps: seq<Step>)
    requires ParamsOf(network).Some? ==> clock >= ParamsOf(network).value.genesis
    ensures !StaleRun(network, facts, clock, steps)
  {
    hide Exec, HonestRun, NoneLate;
    if ParamsOf(network).None? {
      NoClockNoLabel(network, clock, steps);
    } else if HonestRun(network, facts, Start(clock), steps) {
      AnswersAreFreshIff(network, facts, clock, steps);
    }
  }
}
