/** The worker that drains scheduled jobs from the table (worker.go, repo_pushjob.go). */
module PushWorker {
  import opened Wrappers
  import opened Timestamps
  import opened Push

  // ---- The job table ----

  predicate DueAt(j: Job, now: Time) {
    j.scheduledAt.Some? ==> !StoredBefore(now, j.scheduledAt.value)
  }

  predicate Listed(j: Job, now: Time) {
    j.status == Scheduled && DueAt(j, now)
  }

  /** When the listing takes a job to be due: never in a second before its own; and before its
      time exactly within its second, if the clock's written fraction begins the job's. */
  lemma DueAtIff(j: Job, now: Time)
    requires j.scheduledAt.Some? && j.scheduledAt.value.Valid() && now.Valid()
    ensures var at := j.scheduledAt.value;
      && (DueAt(j, now) ==> at.sec <= now.sec)
      && (now.Before(at) ==> (DueAt(j, now) <==> at.sec == now.sec && Fraction(now.nanos) <= Fraction(at.nanos)))
      && (at.sec < now.sec ==> DueAt(j, now))
  {
    if now.Before(j.scheduledAt.value) { StoredOrder(now, j.scheduledAt.value); }
  }

  /** The jobs that a listing on the second takes early: all whose time lies within that
      second, in the middle of it say. */
  lemma ListedEarly(j: Job, sec: int, nanos: nat)
    requires 0 < nanos < 1_000_000_000
    requires j.status == Scheduled && j.scheduledAt == Some(Time(sec, nanos))
    ensures Listed(j, Time(sec, 0)) && Time(sec, 0).Before(j.scheduledAt.value)
  {
    WholeSecondSortsLast(sec, nanos);
    StoredOrder(Time(sec, 0), j.scheduledAt.value);
  }

  ghost predicate Distinct(ids: seq<string>) {
    forall i, k :: 0 <= i < k < |ids| ==> ids[i] != ids[k]
  }

  const BATCH := 50

  /** An answer the listing query may give: distinct due jobs, oldest first as the store
      orders times, at most a batch of them, and none left out that is older or that there
      was room for. */
  ghost predicate Listing(jobs: map<string, Job>, now: Time, ids: seq<string>) {
    && |ids| <= BATCH && Distinct(ids)
    && (forall id :: id in ids ==> id in jobs && Listed(jobs[id], now))
    && (forall i, k :: 0 <= i < k < |ids| ==> !StoredBefore(jobs[ids[k]].createdAt, jobs[ids[i]].createdAt))
    && (forall id :: id in jobs && Listed(jobs[id], now) && id !in ids ==>
          |ids| == BATCH && !StoredBefore(jobs[id].createdAt, jobs[ids[BATCH - 1]].createdAt))
  }

  function WithStatus(jobs: map<string, Job>, id: string, status: Status): map<string, Job> {
    if id in jobs then jobs[id := jobs[id].(status := status)] else jobs
  }

  // ---- The worker's steps, among the creations of jobs ----

  /** A send and the job it was made for. */
  datatype JobSend = JobSend(job: string, send: Send)

  /** The job being run, its candidates once they are listed, and how many of them have been
      dealt with. */
  datatype Work = Work(id: string, candidates: Option<seq<Session>>, next: nat)

  /** What the store and the worker hold: the rows, the jobs listed in this round and not yet
      taken, the one being run, and for the record every job ever set running, every clock
      reading used for a listing, and every send. */
  datatype Desk = Desk(
    jobs: map<string, Job>,
    pending: seq<string>,
    current: Option<Work>,
    started: seq<string>,
    heard: seq<Time>,
    sent: seq<JobSend>,
    max: nat)

  datatype Step =
    | Create(id: string, job: Job)
    | List(now: Time, ids: seq<string>)
    | Take(written: bool)
    | Gather(cs: seq<Session>)
    | Dispatch(course: Course, tries: seq<bool>)
    | Finish(status: Status)
    | Drop
    | Stop

  predicate Sending(d: Desk) {
    d.current.Some? && d.current.value.candidates.Some? && d.current.value.id in d.jobs
    && d.current.value.next < |d.current.value.candidates.value|
  }

  /** The candidate whose turn it is. */
  function Addressee(d: Desk): Session
    requires Sending(d)
  {
    d.current.value.candidates.value[d.current.value.next]
  }

  /** When a step can happen.  Jobs are created by other requests at any time, under
      random ids taken to be new; all other steps are the one worker's. */
  ghost predicate Can(d: Desk, s: Step) {
    match s
    case Create(id, _) => id !in d.jobs
    case List(now, ids) => d.pending == [] && d.current.None? && Listing(d.jobs, now, ids)
    case Take(_) => d.pending != [] && d.current.None?
    case Gather(cs) =>
      d.current.Some? && d.current.value.candidates.None? && d.current.value.id in d.jobs
      && Candidates(d.jobs[d.current.value.id], cs)
    case Dispatch(course, tries) =>
      Sending(d) && LogFor(d.jobs[d.current.value.id], Addressee(d), course, d.max, tries)
    case Finish(status) => d.current.Some? && (status == Done || status == Failed)
    case Drop => d.current.Some?
    case Stop => true
  }

  function Tagged(id: string, sends: seq<Send>): (t: seq<JobSend>)
    ensures |t| == |sends|
  {
    seq(|sends|, i requires 0 <= i < |sends| => JobSend(id, sends[i]))
  }

  /** `Take` marks the job running and only then sends; if the mark is not written nothing
      is sent.  `Drop` leaves the job running: its candidates could not be listed, or its
      final status not be written. */
  ghost function Next(d: Desk, s: Step): Desk
    requires Can(d, s)
  {
    match s
    case Create(id, job) => d.(jobs := d.jobs[id := job])
    case List(now, ids) => d.(pending := ids, heard := d.heard + [now])
    case Take(written) =>
      var id, rest := d.pending[0], d.pending[1..];
      if written then
        d.(jobs := WithStatus(d.jobs, id, Running), pending := rest, current := Some(Work(id, None, 0)),
           started := d.started + [id])
      else d.(pending := rest)
    case Gather(cs) => d.(current := Some(d.current.value.(candidates := Some(cs))))
    case Dispatch(_, tries) =>
      var w := d.current.value;
      d.(sent := d.sent + Tagged(w.id, Sends(Addressee(d), tries)), current := Some(w.(next := w.next + 1)))
    case Finish(status) => d.(jobs := WithStatus(d.jobs, d.current.value.id, status), current := None)
    case Drop => d.(current := None)
    case Stop => d.(pending := [], current := None)
  }

  ghost predicate Reachable(d: Desk, run: seq<Step>, e: Desk)
    decreases |run|
  {
    if run == [] then e == d
    else Can(d, run[0]) && Reachable(Next(d, run[0]), run[1..], e)
  }

  lemma {:induction false} ReachAppend(d: Desk, a: seq<Step>, e: Desk, b: seq<Step>, f: Desk)
    requires Reachable(d, a, e) && Reachable(e, b, f)
    ensures Reachable(d, a + b, f)
    decreases |a|
  {
    if a == [] {
      assert a + b == b;
    } else {
      assert (a + b)[1..] == a[1..] + b;
      ReachAppend(Next(d, a[0]), a[1..], e, b, f);
    }
  }

  lemma ReachOne(d: Desk, s: Step)
    requires Can(d, s)
    ensures Reachable(d, [s], Next(d, s))
  {
    assert [s][1..] == [];
  }

  // ---- Each job starts once ----

  predicate WasDue(d: Desk, id: string) {
    id in d.jobs && exists i :: 0 <= i < |d.heard| && DueAt(d.jobs[id], d.heard[i])
  }

  ghost predicate Sound(d: Desk) {
    && Distinct(d.started) && Distinct(d.pending)
    && (forall id :: id in d.started ==> WasDue(d, id) && d.jobs[id].status != Scheduled)
    && (forall id :: id in d.pending ==> WasDue(d, id) && d.jobs[id].status == Scheduled)
    && (d.current.Some? ==> d.current.value.id in d.started)
  }

  lemma StepKeeps(d: Desk, s: Step)
    requires Sound(d) && Can(d, s)
    ensures Sound(Next(d, s)) && d.started <= Next(d, s).started
  {
    hide DueAt, LogFor, Candidates, StoredBefore;
    var e := Next(d, s);
    forall id | WasDue(d, id) ensures WasDue(e, id) { StaysDue(d, s, id); }
    match s {
      case List(now, ids) =>
        forall id | id in ids ensures WasDue(e, id) {
          assert e.heard[|d.heard|] == now && Listed(d.jobs[id], now);
        }
      case Take(written) =>
        assert d.pending[0] in d.pending && d.pending[0] !in d.started;
        assert forall id :: id in e.pending ==> id in d.pending;
        assert forall k :: 0 < k < |d.pending| ==> d.pending[k] != d.pending[0];
      case _ =>
    }
  }

  lemma StaysDue(d: Desk, s: Step, id: string)
    requires WasDue(d, id) && Can(d, s)
    ensures WasDue(Next(d, s), id)
  {
    var e := Next(d, s);
    var i :| 0 <= i < |d.heard| && DueAt(d.jobs[id], d.heard[i]);
    assert e.heard[i] == d.heard[i] && DueAt(e.jobs[id], e.heard[i]);
  }

  /** Over any interleaving of creations with the worker's steps, failed writes and
      shutdowns included, each job is set running, and so sends, at most once, and only
      after a listing that took it to be due. */
  lemma {:induction false} StartedOnce(d: Desk, run: seq<Step>, e: Desk)
    requires Sound(d) && Reachable(d, run, e)
    ensures Sound(e) && d.started <= e.started
    ensures forall id :: multiset(e.started)[id] <= 1 && (id in e.started ==> WasDue(e, id))
    decreases |run|
  {
    if run == [] {
      forall id ensures multiset(e.started)[id] <= 1 { DistinctOnce(e.started, id); }
    } else {
      StepKeeps(d, run[0]);
      StartedOnce(Next(d, run[0]), run[1..], e);
    }
  }

  lemma {:induction false} DistinctOnce(ids: seq<string>, id: string)
    requires Distinct(ids)
    ensures multiset(ids)[id] <= 1
  {
    if ids != [] {
      var n := |ids| - 1;
      assert ids == ids[..n] + [ids[n]];
      DistinctOnce(ids[..n], id);
      assert ids[n] !in ids[..n];
    }
  }

  // ---- Each subscriber is sent a job once ----

  /** The sends made for one job, in order. */
  function ForJob(sent: seq<JobSend>, id: string): seq<Send> {
    if sent == [] then []
    else
      var n := |sent| - 1;
      ForJob(sent[..n], id) + if sent[n].job == id then [sent[n].send] else []
  }

  lemma {:induction false} ForJobTagged(sent: seq<JobSend>, id: string, sends: seq<Send>, other: string)
    ensures ForJob(sent + Tagged(id, sends), other) == ForJob(sent, other) + if other == id then sends else []
  {
    if sends == [] {
      assert sent + Tagged(id, sends) == sent;
    } else {
      var n := |sends| - 1;
      assert (sent + Tagged(id, sends))[..|sent| + n] == sent + Tagged(id, sends[..n]);
      ForJobTagged(sent, id, sends[..n], other);
      assert sends[..n] + [sends[n]] == sends;
    }
  }

  /** The tries made to send a job to a subscriber, over the whole run. */
  function Tries(d: Desk, id: string, channelId: string, user: string): seq<bool> {
    TriesFor(ForJob(d.sent, id), channelId, user)
  }

  ghost predicate OnceEach(d: Desk) {
    forall id, c, u :: AtMostOneSuccess(Tries(d, id, c, u), d.max)
  }

  ghost predicate Unsent(d: Desk) {
    forall id :: id !in d.started ==> ForJob(d.sent, id) == []
  }

  /** The candidates still to come have been sent nothing of this job. */
  ghost predicate Ahead(d: Desk) {
    d.current.Some? ==>
      var w := d.current.value;
      match w.candidates
      case None => ForJob(d.sent, w.id) == []
      case Some(cs) =>
        && (forall i, k :: 0 <= i < k < |cs| ==> !IsFor(cs[i], cs[k].channelId, cs[k].user))
        && (forall i :: w.next <= i < |cs| ==> Tries(d, w.id, cs[i].channelId, cs[i].user) == [])
  }

  /** Sends of a job scoped to an instance stay in it. */
  predicate Inside(d: Desk, x: JobSend) {
    x.job in d.jobs
    && (Given(d.jobs[x.job].channelId) ==> x.send.channelId == d.jobs[x.job].channelId.value)
  }

  ghost predicate AllInside(d: Desk) {
    && (forall x :: x in d.sent ==> Inside(d, x))
    && (d.current.Some? && d.current.value.candidates.Some? ==>
          && d.current.value.id in d.jobs
          && forall i :: 0 <= i < |d.current.value.candidates.value| ==>
               Targets(d.jobs[d.current.value.id], d.current.value.candidates.value[i]))
  }

  ghost predicate Tidy(d: Desk) {
    Sound(d) && OnceEach(d) && Unsent(d) && Ahead(d) && AllInside(d)
  }

  lemma DispatchKeeps(d: Desk, s: Step)
    requires Tidy(d) && s.Dispatch? && Can(d, s)
    ensures OnceEach(Next(d, s)) && Unsent(Next(d, s)) && Ahead(Next(d, s))
  {
    hide Sound, AllInside, TriesFor, ForJob, LogFor, Sends, Tagged;
    var e, w, to := Next(d, s), d.current.value, Addressee(d);
    forall id, c, u
      ensures Tries(e, id, c, u) == if id == w.id && IsFor(to, c, u) then s.tries else Tries(d, id, c, u)
    {
      DispatchTries(d, s, id, c, u);
    }
    LogOnce(d.jobs[w.id], to, s.course, d.max, s.tries);
    forall id | id !in e.started ensures ForJob(e.sent, id) == [] {
      ForJobTagged(d.sent, w.id, Sends(to, s.tries), id);
      assert w.id in d.started by { CurrentStarted(d); }
    }
  }

  lemma CurrentStarted(d: Desk)
    requires Sound(d) && d.current.Some?
    ensures d.current.value.id in d.started
  {}

  lemma LogOnce(j: Job, to: Session, course: Course, max: nat, tries: seq<bool>)
    requires LogFor(j, to, course, max, tries)
    ensures AtMostOneSuccess(tries, max)
  {}

  /** A dispatch adds its tries to those of its own addressee and job, who had none. */
  lemma DispatchTries(d: Desk, s: Step, id: string, c: string, u: string)
    requires s.Dispatch? && Can(d, s) && Ahead(d)
    ensures Tries(Next(d, s), id, c, u) ==
      if id == d.current.value.id && IsFor(Addressee(d), c, u) then s.tries else Tries(d, id, c, u)
  {
    hide LogFor;
    var w, to := d.current.value, Addressee(d);
    ForJobTagged(d.sent, w.id, Sends(to, s.tries), id);
    if id == w.id {
      TriesOfSends(ForJob(d.sent, id), to, s.tries, c, u);
      assert to == w.candidates.value[w.next] && Tries(d, w.id, to.channelId, to.user) == [];
      assert Tries(d, id, c, u) + [] == Tries(d, id, c, u);
    } else {
      assert ForJob(d.sent, id) + [] == ForJob(d.sent, id);
    }
  }

  lemma DispatchInside(d: Desk, s: Step)
    requires AllInside(d) && Can(d, s)
    ensures AllInside(Next(d, s))
  {
    hide LogFor, DueAt, Listing;
    var e := Next(d, s);
    forall x | x in e.sent ensures Inside(e, x) {
      if x in d.sent {
        assert Inside(d, x);
      } else {
        assert x.send.channelId == Addressee(d).channelId;
      }
    }
  }

  lemma OthersKeep(d: Desk, s: Step)
    requires Tidy(d) && !s.Dispatch? && Can(d, s)
    ensures OnceEach(Next(d, s)) && Unsent(Next(d, s)) && Ahead(Next(d, s))
  {
    hide AllInside, TriesFor, ForJob, LogFor, Listing, AtMostOneSuccess, WasDue;
    var e := Next(d, s);
    assert e.sent == d.sent && e.max == d.max;
    forall id, c, u ensures Tries(e, id, c, u) == Tries(d, id, c, u) {}
    if s.Take? && s.written { assert d.pending[0] in d.pending; }
    if s.Gather? { NothingTried(d, s.cs); }
  }

  lemma NothingTried(d: Desk, cs: seq<Session>)
    requires Ahead(d) && d.current.Some? && d.current.value.candidates.None?
    ensures forall c, u :: Tries(d, d.current.value.id, c, u) == []
  {}

  lemma StepTidy(d: Desk, s: Step)
    requires Tidy(d) && Can(d, s)
    ensures Tidy(Next(d, s))
  {
    hide Sound, OnceEach, Unsent, Ahead, AllInside, Can, Next;
    StepKeeps(d, s);
    DispatchInside(d, s);
    if s.Dispatch? { DispatchKeeps(d, s); } else { OthersKeep(d, s); }
  }

  /** Over the whole run of the worker, each subscriber gets at most `max` tries of each job
      and none after a success, so at most one success per job; and a job scoped to an
      instance is sent to nobody else. */
  lemma {:induction false} SentOnce(d: Desk, run: seq<Step>, e: Desk)
    requires Tidy(d) && Reachable(d, run, e)
    ensures Tidy(e)
    ensures forall id, c, u :: AtMostOneSuccess(Tries(e, id, c, u), e.max)
    ensures forall x :: x in e.sent ==> Inside(e, x)
    decreases |run|
  {
    hide Can, Next, Sound, Unsent, Ahead;
    if run != [] {
      StepTidy(d, run[0]);
      SentOnce(Next(d, run[0]), run[1..], e);
    }
  }

  // ---- The worker's round ----

  /** How running one job goes: the database's answers in order, and the deliveries. */
  datatype Fate = Fate(
    markWritten: bool,
    routed: bool,
    candidates: Job -> Option<seq<Session>>,
    courses: nat -> Course,
    stopAfter: nat,
    lastWritten: bool)

  /** The database lists each subscriber once. */
  ghost predicate Answers(f: Fate) {
    forall j :: f.candidates(j).Some? ==> Candidates(j, f.candidates(j).value)
  }

  /** The status a job has after its run. */
  function StatusAfter(f: Fate, j: Job, t: Tally): Status {
    if !f.markWritten then Scheduled
    else if f.routed && f.candidates(j).None? then Running
    else if !f.lastWritten then Running
    else if !f.routed then Failed
    else Final(t)
  }

  function Begun(ids: seq<string>, fates: nat -> Fate): seq<string> {
    if ids == [] then []
    else
      var n := |ids| - 1;
      Begun(ids[..n], fates) + if fates(n).markWritten then [ids[n]] else []
  }

  /** A round after its first `n` jobs. */
  ghost predicate Drained(d: Desk, ids: seq<string>, fates: nat -> Fate, n: nat, e: Desk) {
    && n <= |ids| && e.pending == ids[n..] && e.current.None?
    && e.started == d.started + Begun(ids[..n], fates)
    && (forall i :: 0 <= i < n && fates(i).markWritten ==> ids[i] in e.jobs && e.jobs[ids[i]].status != Scheduled)
    && (forall id :: id in d.jobs && id !in ids[..n] ==> id in e.jobs && e.jobs[id] == d.jobs[id])
  }

  lemma DrainedNext(d: Desk, ids: seq<string>, fates: nat -> Fate, n: nat, e: Desk, f: Desk, status: Status)
    requires Drained(d, ids, fates, n, e) && n < |ids| && Distinct(ids) && ids[n] in e.jobs
    requires fates(n).markWritten ==> status != Scheduled
    requires f.pending == ids[n..][1..] && f.current.None? && f.jobs == WithStatus(e.jobs, ids[n], status)
    requires f.started == e.started + if fates(n).markWritten then [ids[n]] else []
    ensures Drained(d, ids, fates, n + 1, f)
  {
    hide Begun, Distinct;
    BegunNext(ids, fates, n);
    assert ids[n..][1..] == ids[n + 1..];
  }

  lemma BegunNext(ids: seq<string>, fates: nat -> Fate, n: nat)
    requires n < |ids| && Distinct(ids)
    ensures Begun(ids[..n + 1], fates) == Begun(ids[..n], fates) + if fates(n).markWritten then [ids[n]] else []
    ensures forall i :: 0 <= i < n ==> ids[i] != ids[n]
    ensures forall id :: id in ids[..n + 1] <==> id in ids[..n] || id == ids[n]
  {
    assert ids[..n + 1][..n] == ids[..n];
    assert ids[..n + 1] == ids[..n] + [ids[n]];
  }

  // ---- A job's run as steps ----

  function Dispatches(courses: nat -> Course, logs: seq<seq<bool>>): seq<Step> {
    seq(|logs|, i requires 0 <= i < |logs| => Dispatch(courses(i), logs[i]))
  }

  /** The desk when the job's first candidates have been dealt with. */
  function Dispatched(d: Desk, cs: seq<Session>, logs: seq<seq<bool>>): Desk
    requires d.current.Some? && |logs| <= |cs|
  {
    d.(sent := d.sent + Tagged(d.current.value.id, AllSends(cs, logs)),
       current := Some(d.current.value.(next := |logs|)))
  }

  /** The delivery loop is a series of dispatches. */
  lemma {:induction false} DispatchesReach(d: Desk, cs: seq<Session>, courses: nat -> Course, logs: seq<seq<bool>>)
    requires d.current.Some? && d.current.value.id in d.jobs
    requires d.current.value.candidates == Some(cs) && d.current.value.next == 0
    requires Logs(d.jobs[d.current.value.id], cs, courses, d.max, logs)
    ensures Reachable(d, Dispatches(courses, logs), Dispatched(d, cs, logs))
  {
    hide LogFor;
    if logs == [] {
      assert d.sent + Tagged(d.current.value.id, []) == d.sent;
    } else {
      var n := |logs| - 1;
      var e := Dispatched(d, cs, logs[..n]);
      DispatchesReach(d, cs, courses, logs[..n]);
      var step := Dispatch(courses(n), logs[n]);
      assert Can(e, step);
      NextDispatched(d, cs, courses, logs);
      ReachOne(e, step);
      ReachAppend(d, Dispatches(courses, logs[..n]), e, [step], Dispatched(d, cs, logs));
      assert Dispatches(courses, logs) == Dispatches(courses, logs[..n]) + [step];
    }
  }

  lemma NextDispatched(d: Desk, cs: seq<Session>, courses: nat -> Course, logs: seq<seq<bool>>)
    requires logs != [] && |logs| <= |cs|
    requires d.current.Some? && d.current.value.id in d.jobs && d.current.value.candidates == Some(cs)
    requires var e := Dispatched(d, cs, logs[..|logs| - 1]); Can(e, Dispatch(courses(|logs| - 1), logs[|logs| - 1]))
    ensures var e := Dispatched(d, cs, logs[..|logs| - 1]);
      Next(e, Dispatch(courses(|logs| - 1), logs[|logs| - 1])) == Dispatched(d, cs, logs)
  {
    hide LogFor, Sends;
    var n, id := |logs| - 1, d.current.value.id;
    var a, b := AllSends(cs, logs[..n]), Sends(cs[n], logs[n]);
    assert Tagged(id, a + b) == Tagged(id, a) + Tagged(id, b);
    assert (d.sent + Tagged(id, a)) + Tagged(id, b) == d.sent + (Tagged(id, a) + Tagged(id, b));
  }

  class Worker {
    var jobs: map<string, Job>
    const max: nat
    ghost var desk: Desk

    /** Between jobs: the record of the run so far is tidy and agrees with the table. */
    ghost predicate Valid()
      reads this
    {
      max > 0 && Tidy(desk) && desk.jobs == jobs && desk.max == max && desk.current.None?
    }

    constructor (max: nat)
      requires max > 0
      ensures Valid() && jobs == map[] && this.max == max
      ensures desk == Desk(map[], [], None, [], [], [], max)
    {
      jobs, this.max := map[], max;
      desk := Desk(map[], [], None, [], [], [], max);
    }

    method Create(id: string, job: Job) returns (ok: bool)
      requires Valid()
      modifies `jobs, `desk
      ensures Valid()
      ensures ok <==> id !in old(jobs)
      ensures jobs == if ok then old(jobs)[id := job] else old(jobs)
      ensures Reachable(old(desk), if ok then [Step.Create(id, job)] else [], desk)
    {
      ok := id !in jobs;
      if ok {
        jobs := jobs[id := job];
        StepTidy(desk, Step.Create(id, job));
        ReachOne(desk, Step.Create(id, job));
        desk := Next(desk, Step.Create(id, job));
      }
    }

    method SetStatus(id: string, status: Status, written: bool) returns (ok: bool)
      modifies `jobs
      ensures ok == written
      ensures jobs == if ok then WithStatus(old(jobs), id, status) else old(jobs)
    {
      if written && id in jobs {
        jobs := jobs[id := jobs[id].(status := status)];
      }
      return written;
    }

    /** The record takes one more step. */
    ghost method Record(was: Desk, run: seq<Step>, s: Step) returns (run': seq<Step>)
      requires Tidy(desk) && Can(desk, s) && Reachable(was, run, desk)
      modifies `desk
      ensures desk == Next(old(desk), s) && Tidy(desk)
      ensures run' == run + [s] && Reachable(was, run', desk)
    {
      hide Tidy, Can, Next;
      StepTidy(desk, s);
      ReachOne(desk, s);
      ReachAppend(was, run, desk, [s], Next(desk, s));
      desk := Next(desk, s);
      run' := run + [s];
    }

    /** The next listed job, from the mark to the final status; a failed mark sends nothing.
        `run` is what happened, as steps. */
    method RunJob(id: string, f: Fate) returns (t: Tally, logs: seq<seq<bool>>, sends: seq<Send>, ghost run: seq<Step>)
      requires Valid() && desk.pending != [] && desk.pending[0] == id && Answers(f)
      modifies `jobs, `desk
      ensures Valid() && Reachable(old(desk), run, desk)
      ensures desk.pending == old(desk).pending[1..]
      ensures desk.started == old(desk).started + if f.markWritten then [id] else []
      ensures desk.sent == old(desk).sent + Tagged(id, sends)
      ensures id in old(jobs) && jobs == WithStatus(old(jobs), id, StatusAfter(f, old(jobs)[id], t))
      ensures sends != [] ==> f.markWritten && f.routed && f.candidates(old(jobs)[id]).Some?
      ensures f.markWritten && f.routed && f.candidates(old(jobs)[id]).Some? ==>
        JobOutcome(old(jobs)[id], f, max, t, logs, sends)
    {
      hide Tidy, JobOutcome, Candidates;
      t, logs, sends, run := Tally(0, 0), [], [], [];
      HeadIsScheduled(desk);
      assert desk.sent + Tagged(id, []) == desk.sent;
      ghost var was := desk;
      var job := jobs[id];
      run := Record(was, run, Take(f.markWritten));
      var marked := SetStatus(id, Running, f.markWritten);
      if !marked {
        return;
      }
      ghost var begun := desk;
      ghost var more;
      t, logs, sends, more := Proceed(id, job, f);
      ReachAppend(was, run, begun, more, desk);
      run := run + more;
    }

    /** What follows the mark: route, list the candidates, deliver, and write the status. */
    method Proceed(id: string, job: Job, f: Fate)
      returns (t: Tally, logs: seq<seq<bool>>, sends: seq<Send>, ghost run: seq<Step>)
      requires max > 0 && Tidy(desk) && desk.jobs == jobs && desk.max == max && Answers(f) && f.markWritten
      requires desk.current == Some(Work(id, None, 0)) && id in jobs && jobs[id] == job.(status := Running)
      modifies `jobs, `desk
      ensures Valid() && Reachable(old(desk), run, desk)
      ensures desk.pending == old(desk).pending && desk.started == old(desk).started
      ensures desk.sent == old(desk).sent + Tagged(id, sends)
      ensures jobs == WithStatus(old(jobs), id, StatusAfter(f, job, t))
      ensures sends != [] ==> f.routed && f.candidates(job).Some?
      ensures f.routed && f.candidates(job).Some? ==> JobOutcome(job, f, max, t, logs, sends)
    {
      hide Tidy, JobOutcome, Candidates, LogFor, Logs;
      t, logs, sends, run := Tally(0, 0), [], [], [];
      ghost var was := desk;
      assert desk.sent + Tagged(id, []) == desk.sent;
      var written;
      if !f.routed {
        written := SetStatus(id, Failed, f.lastWritten);
        run := Record(was, run, if f.lastWritten then Finish(Failed) else Drop);
        return;
      }
      var listed := f.candidates(job);
      if listed.None? {
        run := Record(was, run, Drop);
        return;
      }
      StatusIsNoTarget(job, Running, listed.value);
      run := Record(was, run, Gather(listed.value));
      t, logs, sends := DeliverAll(job, listed.value, f.courses, max, f.stopAfter);
      run := Deliveries(was, run, job, listed.value, f.courses, logs);
      written := SetStatus(id, Final(t), f.lastWritten);
      run := Record(was, run, if f.lastWritten then Finish(Final(t)) else Drop);
      OutcomeOf(job, f, max, t, logs, sends, listed.value);
    }

    /** The record takes the dispatches of a delivery loop. */
    ghost method Deliveries(was: Desk, run: seq<Step>, job: Job, cs: seq<Session>, courses: nat -> Course,
                            logs: seq<seq<bool>>)
      returns (run': seq<Step>)
      requires Tidy(desk) && Reachable(was, run, desk)
      requires desk.current.Some? && desk.current.value.id in desk.jobs
      requires desk.current.value.candidates == Some(cs) && desk.current.value.next == 0
      requires desk.jobs[desk.current.value.id] == job.(status := Running) && Logs(job, cs, courses, desk.max, logs)
      modifies `desk
      ensures desk == Dispatched(old(desk), cs, logs) && Tidy(desk) && Reachable(was, run', desk)
    {
      hide Tidy;
      LogsIgnoreStatus(job, Running, cs, courses, desk.max, logs);
      var d := Dispatched(desk, cs, logs);
      DispatchesReach(desk, cs, courses, logs);
      SentOnce(desk, Dispatches(courses, logs), d);
      ReachAppend(was, run, desk, Dispatches(courses, logs), d);
      run' := run + Dispatches(courses, logs);
      desk := d;
    }

    /** One round over a listing: unless shutdown cuts it short after `stopAt` jobs, each
        listed job whose mark could be written is begun, in the listing's order. */
    method Drain(ghost now: Time, ids: seq<string>, fates: nat -> Fate, stopAt: nat) returns (ghost run: seq<Step>)
      requires Valid() && desk.pending == [] && Listing(jobs, now, ids) && forall i :: Answers(fates(i))
      modifies `jobs, `desk
      ensures Valid() && desk.pending == [] && Reachable(old(desk), run, desk)
      ensures
        var n := if stopAt < |ids| then stopAt else |ids|;
        Drained(old(desk), ids, fates, n, desk.(pending := ids[n..]))
    {
      hide Tidy, Answers, Listing, WithStatus;
      ghost var was := desk;
      run := Record(was, [], List(now, ids));
      ListingDistinct(jobs, now, ids);
      for i := 0 to |ids|
        invariant i <= stopAt && Valid() && Reachable(was, run, desk)
        invariant Drained(was, ids, fates, i, desk)
      {
        if i == stopAt {
          run := Record(was, run, Stop);
          return;
        }
        assert ids[i..][0] == ids[i];
        ghost var before := desk;
        var t, logs, sends;
        ghost var more;
        t, logs, sends, more := RunJob(ids[i], fates(i));
        ReachAppend(was, run, before, more, desk);
        run := run + more;
        DrainedNext(was, ids, fates, i, before, desk, StatusAfter(fates(i), before.jobs[ids[i]], t));
      }
    }
  }

  lemma HeadIsScheduled(d: Desk)
    requires Tidy(d) && d.pending != []
    ensures d.pending[0] in d.jobs && d.jobs[d.pending[0]].status == Scheduled
  {
    assert d.pending[0] in d.pending;
  }

  lemma ListingDistinct(jobs: map<string, Job>, now: Time, ids: seq<string>)
    requires Listing(jobs, now, ids)
    ensures Distinct(ids)
  {}

  /** What a job's delivery did. */
  ghost predicate JobOutcome(j: Job, f: Fate, max: nat, t: Tally, logs: seq<seq<bool>>, sends: seq<Send>)
    requires f.candidates(j).Some?
  {
    var cs := f.candidates(j).value;
    && Logs(j, cs, f.courses, max, logs)
    && |logs| == (if f.stopAfter < |cs| then f.stopAfter else |cs|)
    && sends == AllSends(cs, logs)
    && t.sent == Successes(logs)
    && t.sent + t.failed == Matching(j, cs[..|logs|])
  }

  lemma OutcomeOf(j: Job, f: Fate, max: nat, t: Tally, logs: seq<seq<bool>>, sends: seq<Send>, cs: seq<Session>)
    requires f.candidates(j) == Some(cs) && Logs(j, cs, f.courses, max, logs)
    requires |logs| == (if f.stopAfter < |cs| then f.stopAfter else |cs|)
    requires sends == AllSends(cs, logs)
    requires t.sent == Successes(logs) && t.sent + t.failed == Matching(j, cs[..|logs|])
    ensures JobOutcome(j, f, max, t, logs, sends)
  {}

  /** Whom a job is for does not depend on its status. */
  lemma StatusIsNoTarget(j: Job, status: Status, cs: seq<Session>)
    requires Candidates(j, cs)
    ensures Candidates(j.(status := status), cs)
  {
    forall i | 0 <= i < |cs| ensures Targets(j.(status := status), cs[i]) {
      assert Targets(j, cs[i]);
    }
  }

  lemma LogsIgnoreStatus(j: Job, status: Status, cs: seq<Session>, courses: nat -> Course, max: nat, logs: seq<seq<bool>>)
    requires Logs(j, cs, courses, max, logs)
    ensures Logs(j.(status := status), cs, courses, max, logs)
  {
    forall i | 0 <= i < |logs| ensures LogFor(j.(status := status), cs[i], courses(i), max, logs[i]) {
      assert LogFor(j, cs[i], courses(i), max, logs[i]);
    }
  }

  // ---- What a listing is ----

  /** At most fifty jobs, oldest first; and if there are fewer, all that are scheduled and, by the
      order of stored times, due. */
  lemma ListingExact(jobs: map<string, Job>, now: Time, ids: seq<string>, id: string)
    requires Listing(jobs, now, ids)
    ensures |ids| <= 50
    ensures |ids| < 50 ==>
      (id in ids <==>
        && id in jobs && jobs[id].status == Scheduled
        && (jobs[id].scheduledAt == None || !StoredBefore(now, jobs[id].scheduledAt.value)))
    ensures forall i, k | 0 <= i < k < |ids| ::
      ids[i] in jobs && ids[k] in jobs && !StoredBefore(jobs[ids[k]].createdAt, jobs[ids[i]].createdAt)
  {}
}
