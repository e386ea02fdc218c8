/** The controller that keeps one worker running per active channel instance
    (supervisor.go). */
module Supervisor {
  import opened Wrappers

  datatype Instance = Instance(id: string, status: string, updatedAt: string)

  function FingerprintOf(inst: Instance): string {
    inst.status + "|" + inst.updatedAt
  }

  /** A started worker: the instance, and the tick in which it was started. */
  datatype Worker = Worker(id: string, tick: nat)

  datatype Running = Running(worker: Worker, fingerprint: string)

  type RunningSet = map<string, Running>

  type Wanted = map<string, Instance>

  /** A later row for the same instance replaces an earlier one. */
  function Desired(listing: seq<Instance>): Wanted {
    if listing == [] then map[]
    else Desired(listing[..|listing| - 1])[listing[|listing| - 1].id := listing[|listing| - 1]]
  }

  predicate Keeps(want: Wanted, id: string, r: Running) {
    id in want && FingerprintOf(want[id]) == r.fingerprint
  }

  function Kept(running: RunningSet, want: Wanted): RunningSet {
    map id | id in running && Keeps(want, id, running[id]) :: running[id]
  }

  /** What a tick leaves running, given which instances the factory can build. */
  function AfterTick(running: RunningSet, want: Wanted, builds: set<string>, tick: nat): RunningSet {
    var kept := Kept(running, want);
    map id | id in want && (id in kept || id in builds) ::
      if id in kept then kept[id] else Running(Worker(id, tick), FingerprintOf(want[id]))
  }

  function Workers(running: RunningSet): set<Worker> {
    set id | id in running :: running[id].worker
  }

  /** The running set while the instances in `todo` are still to be looked at. */
  function Pending(all: RunningSet, want: Wanted, todo: set<string>): RunningSet {
    map id | id in all && (id in todo || Keeps(want, id, all[id])) :: all[id]
  }

  function Dropped(all: RunningSet, want: Wanted, todo: set<string>): set<Worker> {
    set id | id in all && id !in todo && !Keeps(want, id, all[id]) :: all[id].worker
  }

  lemma DropNext(all: RunningSet, want: Wanted, todo: set<string>, id: string)
    requires id in todo && todo <= all.Keys
    ensures id in Pending(all, want, todo) && Pending(all, want, todo)[id] == all[id]
    ensures Pending(all, want, todo - {id}) ==
      if Keeps(want, id, all[id]) then Pending(all, want, todo) else Pending(all, want, todo) - {id}
    ensures Dropped(all, want, todo - {id}) ==
      if Keeps(want, id, all[id]) then Dropped(all, want, todo) else Dropped(all, want, todo) + {all[id].worker}
  {}

  class Controller {
    var running: RunningSet
    var tick: nat
    ghost var started: set<Worker>
    ghost var cancelled: set<Worker>

    ghost predicate Valid()
      reads this
    {
      Sound(State(running, tick, started, cancelled))
    }

    ghost function Now(): State
      reads this
    {
      State(running, tick, started, cancelled)
    }

    constructor ()
      ensures Valid() && Now() == State(map[], 0, {}, {})
    {
      running, tick, started, cancelled := map[], 0, {}, {};
    }

    /** One tick; the listing is absent when the query failed. */
    method Reconcile(listing: Option<seq<Instance>>, builds: set<string>)
      requires Valid()
      modifies this
      ensures Valid()
      ensures Now() == Next(old(Now()), Tick(if listing.None? then None else Some(Desired(listing.value)), builds))
    {
      NextIsSound(Now(), Tick(if listing.None? then None else Some(Desired(listing.value)), builds));
      if listing.None? {
        tick := tick + 1;
        return;
      }
      var want: Wanted := map[];
      for i := 0 to |listing.value|
        invariant want == Desired(listing.value[..i])
      {
        assert listing.value[..i + 1][..i] == listing.value[..i];
        want := want[listing.value[i].id := listing.value[i]];
      }
      assert listing.value[..|listing.value|] == listing.value;
      StopStale(want);
      StartMissing(want, builds, old(running));
      tick := tick + 1;
    }

    method StopStale(want: Wanted)
      requires Valid()
      modifies `running, `cancelled
      ensures running == Kept(old(running), want)
      ensures cancelled == old(cancelled) + (Workers(old(running)) - Workers(Kept(old(running), want)))
    {
      ghost var all := running;
      var todo := running.Keys;
      assert running == Pending(all, want, todo);
      while todo != {}
        invariant todo <= all.Keys
        invariant running == Pending(all, want, todo)
        invariant cancelled == old(cancelled) + Dropped(all, want, todo)
      {
        var id :| id in todo;
        DropNext(all, want, todo, id);
        todo := todo - {id};
        if !Keeps(want, id, running[id]) {
          cancelled := cancelled + {running[id].worker};
          running := running - {id};
        }
      }
      StoppedWorkers(all, want, tick, started, old(cancelled));
    }

    method StartMissing(want: Wanted, builds: set<string>, ghost before: RunningSet)
      requires running == Kept(before, want)
      modifies `running, `started
      ensures running == AfterTick(before, want, builds, tick)
      ensures started == old(started) + set id | id in want && id !in Kept(before, want) && id in builds :: Worker(id, tick)
    {
      ghost var kept := running;
      var todo := want.Keys;
      while todo != {}
        invariant todo <= want.Keys
        invariant running == map id | id in want && (id in kept || (id in builds && id !in todo)) ::
                    if id in kept then kept[id] else Running(Worker(id, tick), FingerprintOf(want[id]))
        invariant started == old(started) + set id | id in want && id !in kept && id in builds && id !in todo :: Worker(id, tick)
      {
        var id :| id in todo;
        todo := todo - {id};
        if id in running {
          continue;
        }
        if id !in builds {
          continue;
        }
        running := running[id := Running(Worker(id, tick), FingerprintOf(want[id]))];
        started := started + {Worker(id, tick)};
      }
    }

    /** Leaving the loop cancels every worker still running. */
    method Shutdown()
      requires Valid()
      modifies `cancelled
      ensures started <= cancelled
    {
      var todo := running.Keys;
      while todo != {}
        invariant todo <= running.Keys
        invariant cancelled == old(cancelled) + set id | id in running.Keys - todo :: running[id].worker
      {
        var id :| id in todo;
        todo := todo - {id};
        cancelled := cancelled + {running[id].worker};
      }
      assert cancelled == old(cancelled) + Workers(running);
    }
  }

  // ---- Runs of ticks ----

  datatype State = State(running: RunningSet, tick: nat, started: set<Worker>, cancelled: set<Worker>)

  datatype Tick = Tick(want: Option<Wanted>, builds: set<string>)

  function Next(s: State, t: Tick): State {
    match t.want
    case None => s.(tick := s.tick + 1)
    case Some(want) =>
      var kept := Kept(s.running, want);
      State(AfterTick(s.running, want, t.builds, s.tick), s.tick + 1,
            s.started + Launched(s, want, t.builds),
            s.cancelled + (Workers(s.running) - Workers(kept)))
  }

  /** Every started and uncancelled worker is in the running map, under its own
      instance, and no other. */
  ghost predicate Sound(s: State) {
    && s.started - s.cancelled == Workers(s.running)
    && s.cancelled <= s.started
    && (forall id :: id in s.running ==> s.running[id].worker.id == id)
    && (forall w :: w in s.started ==> w.tick < s.tick)
  }

  lemma StoppedWorkers(all: RunningSet, want: Wanted, tick: nat, started: set<Worker>, cancelled: set<Worker>)
    requires Sound(State(all, tick, started, cancelled))
    ensures Dropped(all, want, {}) == Workers(all) - Workers(Kept(all, want))
    ensures Pending(all, want, {}) == Kept(all, want)
  {
    var kept := Kept(all, want);
    forall id | id in all && !Keeps(want, id, all[id]) ensures all[id].worker !in Workers(kept) {
      forall j | j in kept ensures kept[j].worker != all[id].worker {
        assert kept[j].worker.id == j;
      }
    }
    forall w | w in Workers(all) && w !in Workers(kept)
      ensures w in Dropped(all, want, {})
    {
      var id :| id in all && all[id].worker == w;
      KeptWorker(all, want, id);
    }
  }

  lemma KeptWorker(all: RunningSet, want: Wanted, id: string)
    requires id in all
    ensures Keeps(want, id, all[id]) ==> all[id].worker in Workers(Kept(all, want))
  {
    assert Keeps(want, id, all[id]) ==> id in Kept(all, want) && Kept(all, want)[id] == all[id];
  }

  function Launched(s: State, want: Wanted, builds: set<string>): set<Worker> {
    set id | id in want && id !in Kept(s.running, want) && id in builds :: Worker(id, s.tick)
  }

  lemma WorkersAfter(s: State, want: Wanted, builds: set<string>)
    ensures Workers(AfterTick(s.running, want, builds, s.tick)) == Workers(Kept(s.running, want)) + Launched(s, want, builds)
    ensures Workers(Kept(s.running, want)) <= Workers(s.running)
  {
    var kept, r := Kept(s.running, want), AfterTick(s.running, want, builds, s.tick);
    forall w | w in Workers(kept) ensures w in Workers(r) && w in Workers(s.running) {
      var id :| id in kept && kept[id].worker == w;
      assert r[id] == kept[id] == s.running[id];
    }
    forall w | w in Launched(s, want, builds) ensures w in Workers(r) {
      assert r[w.id].worker == w;
    }
  }

  lemma NextIsSound(s: State, t: Tick)
    requires Sound(s)
    ensures Sound(Next(s, t))
  {
    if t.want.Some? {
      var want, s' := t.want.value, Next(s, t);
      var kept, launched := Kept(s.running, want), Launched(s, want, t.builds);
      WorkersAfter(s, want, t.builds);
      assert s'.started == s.started + launched;
      assert s'.cancelled == s.cancelled + (Workers(s.running) - Workers(kept));
      assert forall w :: w in launched ==> w !in s.started;
      assert Workers(s.running) <= s.started;
    }
  }

  function Run(s: State, ticks: seq<Tick>): State {
    if ticks == [] then s else Next(Run(s, ticks[..|ticks| - 1]), ticks[|ticks| - 1])
  }

  /** Over every run of ticks, failed listings and failed builds included, no worker is
      leaked and no instance has two workers alive. */
  lemma {:induction false} NoLeakNoDouble(ticks: seq<Tick>)
    ensures var s := Run(State(map[], 0, {}, {}), ticks);
      && Sound(s)
      && forall v, w :: v in s.started - s.cancelled && w in s.started - s.cancelled && v.id == w.id ==> v == w
  {
    if ticks != [] {
      NoLeakNoDouble(ticks[..|ticks| - 1]);
      NextIsSound(Run(State(map[], 0, {}, {}), ticks[..|ticks| - 1]), ticks[|ticks| - 1]);
    }
  }

  /** After a successful listing, exactly the wanted instances run that were already
      running unchanged or could be built, each with the current fingerprint. */
  lemma TickConverges(s: State, want: Wanted, builds: set<string>)
    requires Sound(s)
    ensures var r := Next(s, Tick(Some(want), builds)).running;
      && r.Keys <= want.Keys
      && (forall id :: id in r ==> r[id].fingerprint == FingerprintOf(want[id]))
      && (forall id :: id in want && id !in r ==> id !in builds)
      && (forall id :: id in want && id in s.running && s.running[id].fingerprint == FingerprintOf(want[id])
            ==> id in r && r[id] == s.running[id])
      && (forall id :: id in want && id in s.running && s.running[id].fingerprint != FingerprintOf(want[id])
            ==> s.running[id].worker in Next(s, Tick(Some(want), builds)).cancelled)
  {
    var kept := Kept(s.running, want);
    forall id | id in s.running && !Keeps(want, id, s.running[id]) ensures s.running[id].worker !in Workers(kept) {
      forall j | j in kept ensures kept[j].worker != s.running[id].worker { assert kept[j].worker.id == j; }
    }
  }

  /** Once everything wanted runs, ticks with the same listing start and stop nothing. */
  lemma UnchangedListingIsNoOp(s: State, want: Wanted, builds: set<string>)
    requires Sound(s) && s.running.Keys == want.Keys
    requires forall id :: id in want ==> s.running[id].fingerprint == FingerprintOf(want[id])
    ensures Next(s, Tick(Some(want), builds)) == s.(tick := s.tick + 1)
  {
    assert Kept(s.running, want) == s.running;
    assert AfterTick(s.running, want, builds, s.tick) == s.running;
  }

  /** One tick in which every wanted instance builds reaches that point from anywhere. */
  lemma OneGoodTickConverges(s: State, want: Wanted, builds: set<string>, later: set<string>)
    requires Sound(s) && want.Keys <= builds
    ensures var t := Next(s, Tick(Some(want), builds));
      Next(t, Tick(Some(want), later)) == t.(tick := t.tick + 1)
  {
    TickConverges(s, want, builds);
    NextIsSound(s, Tick(Some(want), builds));
    UnchangedListingIsNoOp(Next(s, Tick(Some(want), builds)), want, later);
  }

  // ---- What a changed row does ----

  predicate BarFree(s: string) {
    forall i :: 0 <= i < |s| ==> s[i] != '|'
  }

  /** The fingerprint tells the status and the time of the last update. */
  lemma FingerprintIff(a: Instance, b: Instance)
    requires BarFree(a.status) && BarFree(b.status)
    ensures FingerprintOf(a) == FingerprintOf(b) <==> a.status == b.status && a.updatedAt == b.updatedAt
  {
    var f, g := FingerprintOf(a), FingerprintOf(b);
    var m, n := |a.status|, |b.status|;
    assert f[m] == '|' && g[n] == '|' && f[..m] == a.status && g[..n] == b.status;
    assert f[m + 1..] == a.updatedAt && g[n + 1..] == b.updatedAt;
    assert m < n ==> g[m] == b.status[m];
    assert n < m ==> f[n] == a.status[n];
  }

  /** An instance that runs as `seen` and is listed as `listed`: if its status or its update time
      has changed, its worker is cancelled and, if the factory can, a new one is started;
      otherwise the worker it has goes on. */
  lemma ChangeRestarts(s: State, want: Wanted, builds: set<string>, seen: Instance, listed: Instance)
    requires Sound(s) && seen.id == listed.id && BarFree(seen.status) && BarFree(listed.status)
    requires seen.id in s.running && s.running[seen.id].fingerprint == FingerprintOf(seen)
    requires seen.id in want && want[seen.id] == listed
    ensures var s', id := Next(s, Tick(Some(want), builds)), seen.id;
      var w := s.running[id].worker;
      if seen.status == listed.status && seen.updatedAt == listed.updatedAt then
        id in s'.running && s'.running[id].worker == w && w !in s'.cancelled
      else
        && w in s'.cancelled && (id in s'.running <==> id in builds)
        && (id in builds ==> s'.running[id].worker == Worker(id, s.tick) && Worker(id, s.tick) in s'.started - s'.cancelled)
  {
    hide FingerprintOf;
    FingerprintIff(seen, listed);
    TickConverges(s, want, builds);
    NextIsSound(s, Tick(Some(want), builds));
    var s' := Next(s, Tick(Some(want), builds));
    if seen.id in s'.running { assert s'.running[seen.id].worker in Workers(s'.running); }
  }

  /** An instance that is no longer listed is stopped. */
  lemma UnlistedStops(s: State, want: Wanted, builds: set<string>, id: string)
    requires Sound(s) && id in s.running && id !in want
    ensures var s' := Next(s, Tick(Some(want), builds));
      id !in s'.running && s.running[id].worker in s'.cancelled
  {
    var kept := Kept(s.running, want);
    forall j | j in kept ensures kept[j].worker != s.running[id].worker { assert kept[j].worker.id == j; }
    assert s.running[id].worker in Workers(s.running);
  }

  /** What a listing asks for: its instances, each by its last row. */
  lemma {:induction false} DesiredExact(listing: seq<Instance>, id: string)
    ensures id in Desired(listing) <==> exists i :: 0 <= i < |listing| && listing[i].id == id
    ensures forall i | 0 <= i < |listing| && listing[i].id == id && forall k :: i < k < |listing| ==> listing[k].id != id ::
      id in Desired(listing) && Desired(listing)[id] == listing[i]
  {
    if listing != [] {
      var n := |listing| - 1;
      var front := listing[..n];
      DesiredExact(front, id);
      assert forall k :: 0 <= k < n ==> front[k] == listing[k];
      if listing[n].id != id && id in Desired(listing) {
        var i :| 0 <= i < |front| && front[i].id == id;
        assert listing[i].id == id;
      }
    }
  }
}
