/** Broadcast jobs: the polling worker and the delivery loop (worker.go, push.go,
    repo_pushjob.go). */
module Push {
  import opened Wrappers
  import opened Timestamps

  datatype Status = Draft | Scheduled | Running | Done | CancelledJob | Failed

  datatype Job = Job(
    pool: string,
    channelId: Option<string>,
    channelType: string,
    topic: Option<string>,
    entitlement: Option<string>,
    tier: Option<string>,
    status: Status,
    scheduledAt: Option<Time>,
    createdAt: Time)

  datatype Session = Session(
    pool: string, channelId: string, channelType: string, user: string, active: bool,
    tier: string, topics: seq<string>, entitlements: seq<string>)

  predicate Given(o: Option<string>) {
    o.Some? && o.value != ""
  }

  predicate Matches(j: Job, s: Session) {
    && (Given(j.tier) ==> s.tier == j.tier.value)
    && (Given(j.entitlement) ==> j.entitlement.value in s.entitlements)
    && (Given(j.topic) ==> j.topic.value in s.topics)
  }

  /** A scoped job targets its instance's active subscribers, any other the active
      subscribers of its pool and channel type. */
  predicate Targets(j: Job, s: Session) {
    s.active && if Given(j.channelId) then s.channelId == j.channelId.value
                else s.pool == j.pool && s.channelType == j.channelType
  }

  // ---- One recipient ----

  /** How a delivery goes: the rate limiter, the channel's reply to each try, and after
      how many tries the wait before the next is cut short by shutdown. */
  datatype Course = Course(limiterOk: bool, replies: nat -> bool, interruptAfter: Option<nat>)

  predicate Succeeded(tries: seq<bool>) {
    tries != [] && tries[|tries| - 1]
  }

  /** The replies to the tries made: up to the first success, the first interrupted wait,
      or the `max`-th try. */
  predicate LogOf(c: Course, max: nat, tries: seq<bool>) {
    if !c.limiterOk then tries == []
    else
      && 0 < |tries| <= max
      && (forall i :: 0 <= i < |tries| ==> tries[i] == c.replies(i))
      && (forall i :: 0 <= i < |tries| - 1 ==> !tries[i] && c.interruptAfter != Some(i + 1))
      && (Succeeded(tries) || |tries| == max || c.interruptAfter == Some(|tries|))
  }

  /** Every try so far failed and none of the waits was cut short. */
  predicate Trying(c: Course, max: nat, tries: seq<bool>) {
    c.limiterOk && |tries| <= max
    && forall i :: 0 <= i < |tries| ==>
        tries[i] == c.replies(i) && !tries[i] && (i + 1 < max ==> c.interruptAfter != Some(i + 1))
  }

  lemma TryOnce(c: Course, max: nat, tries: seq<bool>)
    requires Trying(c, max, tries) && |tries| < max
    ensures var ts := tries + [c.replies(|tries|)];
      if Succeeded(ts) || |ts| == max || c.interruptAfter == Some(|ts|)
      then LogOf(c, max, ts)
      else Trying(c, max, ts)
  {
    var ts := tries + [c.replies(|tries|)];
    forall i | 0 <= i < |tries|
      ensures ts[i] == c.replies(i) && !ts[i] && (i + 1 < max ==> c.interruptAfter != Some(i + 1))
    {
      assert ts[i] == tries[i];
    }
  }

  method Deliver(c: Course, max: nat) returns (attempts: nat, ok: bool, tries: seq<bool>)
    requires max > 0
    ensures LogOf(c, max, tries) && attempts == |tries| && (ok <==> Succeeded(tries))
  {
    tries := [];
    if !c.limiterOk {
      return 0, false, tries;
    }
    for attempt := 0 to max
      invariant |tries| == attempt
      invariant if attempt < max then Trying(c, max, tries) else LogOf(c, max, tries) && !Succeeded(tries)
    {
      TryOnce(c, max, tries);
      tries := tries + [c.replies(attempt)];
      if tries[attempt] {
        return attempt + 1, true, tries;
      }
      if attempt + 1 < max && c.interruptAfter == Some(attempt + 1) {
        return attempt + 1, false, tries;
      }
    }
    return max, false, tries;
  }

  // ---- One job ----

  /** One message handed to a channel, and whether the channel took it. */
  datatype Send = Send(channelId: string, user: string, ok: bool)

  /** The tries made for one subscriber of one instance, in order. */
  function TriesFor(sends: seq<Send>, channelId: string, user: string): seq<bool> {
    if sends == [] then []
    else
      var last := sends[|sends| - 1];
      TriesFor(sends[..|sends| - 1], channelId, user)
      + if last.channelId == channelId && last.user == user then [last.ok] else []
  }

  function Sends(s: Session, tries: seq<bool>): seq<Send> {
    seq(|tries|, i requires 0 <= i < |tries| => Send(s.channelId, s.user, tries[i]))
  }

  predicate IsFor(s: Session, channelId: string, user: string) {
    s.channelId == channelId && s.user == user
  }

  lemma {:induction false} TriesOfSends(before: seq<Send>, s: Session, tries: seq<bool>, channelId: string, user: string)
    ensures TriesFor(before + Sends(s, tries), channelId, user) ==
      TriesFor(before, channelId, user) + if IsFor(s, channelId, user) then tries else []
  {
    if tries == [] {
      assert before + Sends(s, tries) == before;
    } else {
      var n := |tries| - 1;
      assert (before + Sends(s, tries))[..|before| + n] == before + Sends(s, tries[..n]);
      TriesOfSends(before, s, tries[..n], channelId, user);
    }
  }

  /** The sessions the database returns for the job: each subscriber once. */
  ghost predicate Candidates(j: Job, cs: seq<Session>) {
    && (forall i :: 0 <= i < |cs| ==> Targets(j, cs[i]))
    && (forall i, k :: 0 <= i < k < |cs| ==> !IsFor(cs[i], cs[k].channelId, cs[k].user))
  }

  function Matching(j: Job, cs: seq<Session>): nat {
    if cs == [] then 0 else Matching(j, cs[..|cs| - 1]) + if Matches(j, cs[|cs| - 1]) then 1 else 0
  }

  /** The tries of candidate `i`: none if it does not match the job. */
  predicate LogFor(j: Job, s: Session, c: Course, max: nat, tries: seq<bool>) {
    if Matches(j, s) then LogOf(c, max, tries) else tries == []
  }

  predicate Logs(j: Job, cs: seq<Session>, courses: nat -> Course, max: nat, logs: seq<seq<bool>>) {
    && |logs| <= |cs|
    && forall i :: 0 <= i < |logs| ==> LogFor(j, cs[i], courses(i), max, logs[i])
  }

  /** All sends, candidate by candidate. */
  function AllSends(cs: seq<Session>, logs: seq<seq<bool>>): seq<Send>
    requires |logs| <= |cs|
  {
    if logs == [] then []
    else var n := |logs| - 1; AllSends(cs, logs[..n]) + Sends(cs[n], logs[n])
  }

  function Successes(logs: seq<seq<bool>>): nat {
    if logs == [] then 0 else Successes(logs[..|logs| - 1]) + if Succeeded(logs[|logs| - 1]) then 1 else 0
  }

  datatype Tally = Tally(sent: nat, failed: nat)

  /** The loop when the candidates in `logs` have been dealt with. */
  predicate Progress(j: Job, cs: seq<Session>, courses: nat -> Course, max: nat,
                     t: Tally, logs: seq<seq<bool>>, sends: seq<Send>) {
    && Logs(j, cs, courses, max, logs)
    && sends == AllSends(cs, logs)
    && t.sent == Successes(logs) && t.sent + t.failed == Matching(j, cs[..|logs|])
  }

  lemma NextCandidate(j: Job, cs: seq<Session>, courses: nat -> Course, max: nat,
                      t: Tally, logs: seq<seq<bool>>, sends: seq<Send>, tries: seq<bool>, t': Tally)
    requires Progress(j, cs, courses, max, t, logs, sends) && |logs| < |cs|
    requires LogFor(j, cs[|logs|], courses(|logs|), max, tries)
    requires t' == if !Matches(j, cs[|logs|]) then t
                   else if Succeeded(tries) then t.(sent := t.sent + 1) else t.(failed := t.failed + 1)
    ensures Progress(j, cs, courses, max, t', logs + [tries], sends + Sends(cs[|logs|], tries))
  {
    hide Matches, LogOf, Sends;
    var n := |logs|;
    assert cs[..n + 1][..n] == cs[..n];
    assert (logs + [tries])[..n] == logs;
  }

  /** The delivery loop; shutdown stops it after `stopAfter` candidates.  `logs` holds the
      tries of every candidate dealt with. */
  method DeliverAll(j: Job, cs: seq<Session>, courses: nat -> Course, max: nat, stopAfter: nat)
    returns (t: Tally, logs: seq<seq<bool>>, sends: seq<Send>)
    requires max > 0
    ensures Logs(j, cs, courses, max, logs)
    ensures |logs| == (if stopAfter < |cs| then stopAfter else |cs|)
    ensures sends == AllSends(cs, logs)
    ensures t.sent == Successes(logs) && t.sent + t.failed == Matching(j, cs[..|logs|])
  {
    hide LogOf, Sends;
    t, logs, sends := Tally(0, 0), [], [];
    for i := 0 to |cs|
      invariant |logs| == i <= stopAfter && Progress(j, cs, courses, max, t, logs, sends)
    {
      if i == stopAfter {
        return;
      }
      ghost var before := t;
      var tries := [];
      if Matches(j, cs[i]) {
        var attempts, ok;
        attempts, ok, tries := Deliver(courses(i), max);
        t := if ok then t.(sent := t.sent + 1) else t.(failed := t.failed + 1);
      }
      NextCandidate(j, cs, courses, max, before, logs, sends, tries, t);
      logs, sends := logs + [tries], sends + Sends(cs[i], tries);
    }
  }

  // ---- What a job sends ----

  /** The tries of one subscriber are the log of its own candidate, or none. */
  lemma {:induction false} TriesAreOneLog(j: Job, cs: seq<Session>, logs: seq<seq<bool>>, c: string, u: string)
    requires Candidates(j, cs) && |logs| <= |cs|
    ensures forall i :: 0 <= i < |logs| && IsFor(cs[i], c, u) ==> TriesFor(AllSends(cs, logs), c, u) == logs[i]
    ensures (forall i :: 0 <= i < |logs| ==> !IsFor(cs[i], c, u)) ==> TriesFor(AllSends(cs, logs), c, u) == []
  {
    if logs != [] {
      var n := |logs| - 1;
      TriesAreOneLog(j, cs, logs[..n], c, u);
      TriesOfSends(AllSends(cs, logs[..n]), cs[n], logs[n], c, u);
    }
  }

  /** Every send of a run goes to a targeted, matching candidate. */
  lemma {:induction false} SendsReach(j: Job, cs: seq<Session>, courses: nat -> Course, max: nat, logs: seq<seq<bool>>, s: Send)
    returns (i: nat)
    requires Logs(j, cs, courses, max, logs) && s in AllSends(cs, logs)
    ensures i < |logs| && Matches(j, cs[i]) && IsFor(cs[i], s.channelId, s.user)
  {
    var n := |logs| - 1;
    if s in AllSends(cs, logs[..n]) {
      i := SendsReach(j, cs, courses, max, logs[..n], s);
    } else {
      i := n;
    }
  }

  function Final(t: Tally): Status {
    if t.sent == 0 && t.failed > 0 then Failed else Done
  }

  /** A job that got through its candidates ends as failed exactly when somebody was to
      receive it and nobody did. */
  lemma FailedIffNobodyGotIt(j: Job, cs: seq<Session>, courses: nat -> Course, max: nat,
                             t: Tally, logs: seq<seq<bool>>, sends: seq<Send>)
    requires Progress(j, cs, courses, max, t, logs, sends)
    ensures Final(t) == Failed <==>
      (exists i :: 0 <= i < |logs| && Matches(j, cs[i])) && (forall s :: s in sends ==> !s.ok)
    ensures Final(t) != Failed ==> Final(t) == Done
  {
    SomeMatching(j, cs, |logs|);
    NoSuccesses(cs, logs);
    if t.sent == 0 {
      forall i | 0 <= i < |logs| && logs[i] != [] ensures Failing(logs[i]) {
        assert LogFor(j, cs[i], courses(i), max, logs[i]);
      }
    }
  }

  lemma {:induction false} SomeMatching(j: Job, cs: seq<Session>, n: nat)
    requires n <= |cs|
    ensures Matching(j, cs[..n]) > 0 <==> exists i :: 0 <= i < n && Matches(j, cs[i])
  {
    if n > 0 {
      assert cs[..n][..n - 1] == cs[..n - 1];
      SomeMatching(j, cs, n - 1);
    }
  }

  predicate Failing(tries: seq<bool>) {
    forall k :: 0 <= k < |tries| ==> !tries[k]
  }

  lemma {:induction false} NoSuccesses(cs: seq<Session>, logs: seq<seq<bool>>)
    requires |logs| <= |cs|
    ensures Successes(logs) == 0 <==> forall i :: 0 <= i < |logs| ==> !Succeeded(logs[i])
    ensures (forall s :: s in AllSends(cs, logs) ==> !s.ok) <==> forall i :: 0 <= i < |logs| ==> Failing(logs[i])
  {
    if logs != [] {
      var n := |logs| - 1;
      NoSuccesses(cs, logs[..n]);
      SendsFail(cs[n], logs[n]);
    }
  }

  lemma SendsFail(s: Session, tries: seq<bool>)
    ensures (forall x :: x in Sends(s, tries) ==> !x.ok) <==> Failing(tries)
  {
    forall k | 0 <= k < |tries| ensures Sends(s, tries)[k] in Sends(s, tries) && Sends(s, tries)[k].ok == tries[k] {}
  }

  /** At most `max` tries, none after a success. */
  predicate AtMostOneSuccess(tries: seq<bool>, max: nat) {
    |tries| <= max && forall i :: 0 <= i < |tries| - 1 ==> !tries[i]
  }

  /** A job scoped to an instance reaches only its subscribers, and whatever the channel
      replies each gets at most `max` tries and at most one successful send. */
  lemma ScopedJobStaysInside(j: Job, cs: seq<Session>, courses: nat -> Course, max: nat, logs: seq<seq<bool>>)
    requires Given(j.channelId) && Candidates(j, cs) && Logs(j, cs, courses, max, logs)
    ensures forall s :: s in AllSends(cs, logs) ==> s.channelId == j.channelId.value
    ensures forall c, u :: AtMostOneSuccess(TriesFor(AllSends(cs, logs), c, u), max)
  {
    forall s | s in AllSends(cs, logs) ensures s.channelId == j.channelId.value {
      var i := SendsReach(j, cs, courses, max, logs, s);
      assert Targets(j, cs[i]);
    }
    forall c, u ensures AtMostOneSuccess(TriesFor(AllSends(cs, logs), c, u), max) {
      TriesAreOneLog(j, cs, logs, c, u);
      if i :| 0 <= i < |logs| && IsFor(cs[i], c, u) {
        assert LogFor(j, cs[i], courses(i), max, logs[i]);
      }
    }
  }

  // ---- Who receives a job ----

  predicate NotSet(o: Option<string>) {
    o in {None, Some("")}
  }

  lemma TargetsExact(j: Job, s: Session)
    ensures Targets(j, s) <==>
      && s.active
      && (if NotSet(j.channelId) then s.pool == j.pool && s.channelType == j.channelType
          else j.channelId == Some(s.channelId))
  {}

  lemma Among(o: Option<string>, list: seq<string>)
    ensures Given(o) <==> !NotSet(o)
    ensures Given(o) ==> (o.value in list <==> exists k :: 0 <= k < |list| && o == Some(list[k]))
  {
    if Given(o) && o.value in list {
      var k :| 0 <= k < |list| && list[k] == o.value;
      assert o == Some(list[k]);
    }
  }

  lemma MatchesExact(j: Job, s: Session)
    ensures Matches(j, s) <==>
      && (NotSet(j.tier) || j.tier == Some(s.tier))
      && (NotSet(j.entitlement) || exists k :: 0 <= k < |s.entitlements| && j.entitlement == Some(s.entitlements[k]))
      && (NotSet(j.topic) || exists k :: 0 <= k < |s.topics| && j.topic == Some(s.topics[k]))
  {
    Among(j.tier, []);
    Among(j.entitlement, s.entitlements);
    Among(j.topic, s.topics);
  }

  lemma Reached(j: Job, cs: seq<Session>, courses: nat -> Course, max: nat, logs: seq<seq<bool>>, i: nat)
    requires Candidates(j, cs) && Logs(j, cs, courses, max, logs) && i < |logs| && courses(i).limiterOk
    ensures TriesFor(AllSends(cs, logs), cs[i].channelId, cs[i].user) != [] <==> Matches(j, cs[i])
  {
    hide AllSends, TriesFor, Matches, Targets;
    TriesAreOneLog(j, cs, logs, cs[i].channelId, cs[i].user);
    assert IsFor(cs[i], cs[i].channelId, cs[i].user) && LogFor(j, cs[i], courses(i), max, logs[i]);
  }

  /** A job that gets through its listing tries to reach exactly these of all subscribers: the
      active ones of its instance -- or, without one, of its pool and channel type -- that have
      the tier, an entitlement and a topic equal to those the job sets. */
  lemma RecipientsExact(j: Job, subs: set<Session>, cs: seq<Session>, courses: nat -> Course, max: nat,
                        logs: seq<seq<bool>>, s: Session)
    requires Candidates(j, cs) && Logs(j, cs, courses, max, logs) && |logs| == |cs|
    requires forall x :: x in cs <==> x in subs && Targets(j, x)
    requires forall i :: 0 <= i < |cs| ==> courses(i).limiterOk
    requires s in subs && forall x :: x in subs && IsFor(x, s.channelId, s.user) ==> x == s
    ensures TriesFor(AllSends(cs, logs), s.channelId, s.user) != [] <==>
      && s.active
      && (if NotSet(j.channelId) then s.pool == j.pool && s.channelType == j.channelType
          else j.channelId == Some(s.channelId))
      && (NotSet(j.tier) || j.tier == Some(s.tier))
      && (NotSet(j.entitlement) || exists k :: 0 <= k < |s.entitlements| && j.entitlement == Some(s.entitlements[k]))
      && (NotSet(j.topic) || exists k :: 0 <= k < |s.topics| && j.topic == Some(s.topics[k]))
  {
    hide AllSends, TriesFor, Matches, Targets, LogOf, LogFor;
    TargetsExact(j, s);
    MatchesExact(j, s);
    if Targets(j, s) {
      var i :| 0 <= i < |cs| && cs[i] == s;
      Reached(j, cs, courses, max, logs, i);
    } else {
      TriesAreOneLog(j, cs, logs, s.channelId, s.user);
      forall i | 0 <= i < |logs| ensures !IsFor(cs[i], s.channelId, s.user) { assert cs[i] in cs; }
    }
  }

  /** How often: until the first reply that takes the message, at most `max` times, and no less
      when nothing interrupts the waits. */
  lemma TriesExact(c: Course, max: nat, tries: seq<bool>, k: nat)
    requires LogOf(c, max, tries) && c.limiterOk && c.interruptAfter == None && 0 < k <= max
    requires (forall i :: 0 <= i < k - 1 ==> !c.replies(i)) && (c.replies(k - 1) || k == max)
    ensures tries == seq(k - 1, i => false) + [c.replies(k - 1)]
  {
    assert |tries| == k;
  }

  /** A wait cut short ends the delivery, and where the limiter refuses there is none. */
  lemma StoppedShort(c: Course, max: nat, tries: seq<bool>)
    requires LogOf(c, max, tries)
    ensures c.interruptAfter.Some? && c.interruptAfter.value > 0 ==> |tries| <= c.interruptAfter.value
    ensures !c.limiterOk ==> tries == []
  {
    if c.limiterOk && c.interruptAfter.Some? && 0 < c.interruptAfter.value < |tries| {
      WaitedAfter(c, max, tries, c.interruptAfter.value - 1);
    }
  }

  lemma WaitedAfter(c: Course, max: nat, tries: seq<bool>, i: nat)
    requires LogOf(c, max, tries) && i + 1 < |tries|
    ensures c.interruptAfter != Some(i + 1)
  {
    assert !tries[i];
  }
}
