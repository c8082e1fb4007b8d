/**
 The heartbeat lease. No repository operation checks who claimed a job, so exclusivity rests
 on the workers: a worker touches a job only while its own last heartbeat is at most `grace`
 old, and lets go of a job it completes, fails or pauses. The reaper uses `timeout`.
 */
module JobLease {
  import opened Options
  import opened JobQueue

  datatype Lease = Lease(grace: int, timeout: int)

  datatype Hold = Hold(worker: string, id: JobId)

  /** The clock, the table, and each worker's memory of when it last touched a job. */
  datatype Sys = Sys(now: int, jobs: Table, holds: map<Hold, int>)

  datatype Action =
    | Tick(elapsed: nat)
    | Submit(id: JobId, spec: Spec)
    | TakeNext(hold: Hold)
    | Begin(hold: Hold)
    | Beat(hold: Hold)
    | Save(hold: Hold, data: string)
    | Finish(hold: Hold, cost: int)
    | GiveUp(hold: Hold, msg: string)
    | PauseIt(hold: Hold)
    | ResumeIt(id: JobId)
    | ReapStale(requeue: bool)

  predicate Acting(lease: Lease, s: Sys, h: Hold) {
    h in s.holds && s.now - s.holds[h] <= lease.grace
  }

  /** The operation on the table that an action performs. */
  function OpOf(lease: Lease, s: Sys, a: Action): Op
    requires !a.Tick?
  {
    match a
    case Submit(id, spec) => DoEnqueue(id, spec)
    case TakeNext(h) => DoClaim(Some(h.id), h.worker, s.now)
    case Begin(h) => DoStart(h.id, s.now)
    case Beat(h) => DoHeartbeat(h.id, s.now)
    case Save(h, data) => DoCheckpoint(h.id, data, s.now)
    case Finish(h, cost) => DoComplete(h.id, cost, s.now)
    case GiveUp(h, msg) => DoFail(h.id, msg, s.now)
    case PauseIt(h) => DoPause(h.id)
    case ResumeIt(id) => DoResume(id)
    case ReapStale(requeue) => DoReap(lease.timeout, s.now, requeue)
  }

  predicate Renews(a: Action) {
    a.TakeNext? || a.Begin? || a.Beat? || a.Save?
  }

  predicate LetsGo(a: Action) {
    a.Finish? || a.GiveUp? || a.PauseIt?
  }

  /** The one assumption: a worker acts on a job only within its lease. */
  ghost predicate Enabled(lease: Lease, s: Sys, a: Action) {
    && (!a.Tick? ==> Possible(s.jobs, OpOf(lease, s, a)))
    && ((a.Begin? || a.Beat? || a.Save? || LetsGo(a)) ==> Acting(lease, s, a.hold))
  }

  function Step(lease: Lease, s: Sys, a: Action): Sys {
    if a.Tick? then s.(now := s.now + a.elapsed)
    else
      var jobs := Apply(s.jobs, OpOf(lease, s, a));
      if Renews(a) then Sys(s.now, jobs, s.holds[a.hold := s.now])
      else if LetsGo(a) then Sys(s.now, jobs, s.holds - {a.hold})
      else Sys(s.now, jobs, s.holds)
  }

  /** A worker within its lease is the one on record, and the record's heartbeat is its own. */
  predicate HoldIsRecorded(s: Sys, h: Hold) {
    && h in s.holds && h.id in s.jobs
    && s.jobs[h.id].state.Held() && s.jobs[h.id].claimedBy == Some(h.worker)
    && s.jobs[h.id].heartbeatAt == Some(s.holds[h])
  }

  ghost predicate Sound(lease: Lease, s: Sys) {
    && (forall h | h in s.holds :: h.id in s.jobs)
    && (forall h | h in s.holds && Acting(lease, s, h) :: HoldIsRecorded(s, h))
    && (forall id | id in s.jobs && s.jobs[id].state.Held() :: s.jobs[id].heartbeatAt.Some?)
  }

  /** No job has two workers acting on it. */
  ghost predicate Exclusive(lease: Lease, s: Sys) {
    forall h, g | h in s.holds && g in s.holds && h.id == g.id && Acting(lease, s, h) && Acting(lease, s, g) ::
      h.worker == g.worker
  }

  lemma SoundIsExclusive(lease: Lease, s: Sys)
    requires Sound(lease, s)
    ensures Exclusive(lease, s)
  {
    forall h, g | h in s.holds && g in s.holds && h.id == g.id && Acting(lease, s, h) && Acting(lease, s, g)
      ensures h.worker == g.worker
    {
      assert HoldIsRecorded(s, h) && HoldIsRecorded(s, g);
    }
  }

  // ----- one step -----

  lemma TickKeepsSound(lease: Lease, s: Sys, elapsed: nat)
    requires Sound(lease, s)
    ensures Sound(lease, Step(lease, s, Tick(elapsed)))
  {
    var t := Step(lease, s, Tick(elapsed));
    forall h | h in t.holds && Acting(lease, t, h)
      ensures HoldIsRecorded(t, h)
    {
      assert Acting(lease, s, h);
    }
  }

  lemma TakeKeepsSound(lease: Lease, s: Sys, a: Action)
    requires Sound(lease, s) && a.TakeNext? && Enabled(lease, s, a)
    ensures Sound(lease, Step(lease, s, a))
  {
    var t := Step(lease, s, a);
    assert forall id | id in s.jobs && id != a.hold.id :: t.jobs[id] == s.jobs[id];
    forall h | h in t.holds && Acting(lease, t, h)
      ensures HoldIsRecorded(t, h)
    {
      if h != a.hold {
        assert Acting(lease, s, h) && HoldIsRecorded(s, h);
      }
    }
  }

  /** Within its lease a worker is the only one acting on its job. */
  lemma OnlyActor(lease: Lease, s: Sys, h: Hold, g: Hold)
    requires Sound(lease, s) && Acting(lease, s, h) && Acting(lease, s, g) && h != g
    ensures h.id != g.id
  {
    assert HoldIsRecorded(s, h) && HoldIsRecorded(s, g);
  }

  lemma WorkKeepsSound(lease: Lease, s: Sys, a: Action)
    requires Sound(lease, s) && (a.Begin? || a.Beat? || a.Save? || LetsGo(a)) && Enabled(lease, s, a)
    ensures Sound(lease, Step(lease, s, a))
  {
    var t := Step(lease, s, a);
    var mine := a.hold;
    assert HoldIsRecorded(s, mine);
    assert t.jobs == s.jobs[mine.id := OnJob(s.jobs[mine.id], OpOf(lease, s, a))];
    forall h | h in t.holds && Acting(lease, t, h)
      ensures HoldIsRecorded(t, h)
    {
      if h != mine {
        assert Acting(lease, s, h) && HoldIsRecorded(s, h);
        OnlyActor(lease, s, h, mine);
      }
    }
  }

  /** The reaper never touches a job whose worker is within its lease, provided its timeout is no shorter. */
  lemma ReapKeepsSound(lease: Lease, s: Sys, requeue: bool)
    requires Sound(lease, s) && lease.grace <= lease.timeout
    ensures Sound(lease, Step(lease, s, ReapStale(requeue)))
  {
    var t := Step(lease, s, ReapStale(requeue));
    forall h | h in t.holds && Acting(lease, t, h)
      ensures HoldIsRecorded(t, h)
    {
      assert Acting(lease, s, h) && HoldIsRecorded(s, h);
      assert !Stale(s.jobs[h.id], lease.timeout, s.now);
    }
  }

  lemma OthersKeepSound(lease: Lease, s: Sys, a: Action)
    requires Sound(lease, s) && (a.Submit? || a.ResumeIt?) && Enabled(lease, s, a)
    ensures Sound(lease, Step(lease, s, a))
  {
    var t := Step(lease, s, a);
    assert forall id | id in s.jobs && !(a.ResumeIt? && id == a.id) :: t.jobs[id] == s.jobs[id];
    forall h | h in t.holds && Acting(lease, t, h)
      ensures HoldIsRecorded(t, h)
    {
      assert Acting(lease, s, h) && HoldIsRecorded(s, h);
    }
  }

  lemma StepKeepsSound(lease: Lease, s: Sys, a: Action)
    requires Sound(lease, s) && lease.grace <= lease.timeout && Enabled(lease, s, a)
    ensures Sound(lease, Step(lease, s, a))
  {
    match a
    case Tick(elapsed) => TickKeepsSound(lease, s, elapsed);
    case TakeNext(_) => TakeKeepsSound(lease, s, a);
    case Submit(_, _) => OthersKeepSound(lease, s, a);
    case ResumeIt(_) => OthersKeepSound(lease, s, a);
    case ReapStale(requeue) => ReapKeepsSound(lease, s, requeue);
    case _ => WorkKeepsSound(lease, s, a);
  }

  // ----- whole runs -----

  ghost predicate Legal(lease: Lease, s: Sys, actions: seq<Action>)
    decreases |actions|
  {
    actions != [] ==> Enabled(lease, s, actions[0]) && Legal(lease, Step(lease, s, actions[0]), actions[1..])
  }

  function Run(lease: Lease, s: Sys, actions: seq<Action>): Sys
    decreases |actions|
  {
    if actions == [] then s else Run(lease, Step(lease, s, actions[0]), actions[1..])
  }

  lemma {:induction false} RunKeepsSound(lease: Lease, s: Sys, actions: seq<Action>)
    requires Sound(lease, s) && lease.grace <= lease.timeout && Legal(lease, s, actions)
    ensures Sound(lease, Run(lease, s, actions))
    decreases |actions|
  {
    if actions != [] {
      StepKeepsSound(lease, s, actions[0]);
      RunKeepsSound(lease, Step(lease, s, actions[0]), actions[1..]);
    }
  }

  const IDLE := Sys(0, map[], map[])

  lemma {:induction false} RunKeepsHeartbeats(lease: Lease, s: Sys, actions: seq<Action>)
    requires HeldHaveHeartbeats(s.jobs)
    ensures HeldHaveHeartbeats(Run(lease, s, actions).jobs)
    decreases |actions|
  {
    if actions != [] {
      if !actions[0].Tick? {
        ApplyKeepsHeartbeats(s.jobs, OpOf(lease, s, actions[0]));
      }
      RunKeepsHeartbeats(lease, Step(lease, s, actions[0]), actions[1..]);
    }
  }

  /**
   Every held job carries a heartbeat, whatever the two timeouts and whether or not the workers
   keep to their lease, so it is reaped exactly once its silence exceeds the reaper's timeout.
   */
  lemma AbandonedJobsAreReaped(lease: Lease, actions: seq<Action>, id: JobId, silence: nat)
    requires var s := Run(lease, IDLE, actions); id in s.jobs && s.jobs[id].state.Held()
    ensures var s := Run(lease, IDLE, actions);
            && s.jobs[id].heartbeatAt.Some?
            && (var later := Run(lease, s, [Tick(silence), ReapStale(true)]);
                id in later.jobs
                && (later.jobs[id].state.Queued? <==> s.jobs[id].heartbeatAt.value < s.now + silence - lease.timeout))
  {
    RunKeepsHeartbeats(lease, IDLE, actions);
    var s := Run(lease, IDLE, actions);
    var s1 := Step(lease, s, Tick(silence));
    var s2 := Step(lease, s1, ReapStale(true));
    assert [Tick(silence), ReapStale(true)][1..] == [ReapStale(true)];
    assert Run(lease, s, [Tick(silence), ReapStale(true)]) == Run(lease, s1, [ReapStale(true)]) == s2;
  }

  // ----- a reaper faster than the lease -----

  /** From here some run ends with two workers acting on one job. */
  ghost predicate CanCollide(lease: Lease, s: Sys) {
    exists actions :: Legal(lease, s, actions) && !Exclusive(lease, Run(lease, s, actions))
  }

  lemma CanCollideBefore(lease: Lease, s: Sys, a: Action)
    requires Enabled(lease, s, a) && CanCollide(lease, Step(lease, s, a))
    ensures CanCollide(lease, s)
  {
    var rest :| Legal(lease, Step(lease, s, a), rest) && !Exclusive(lease, Run(lease, Step(lease, s, a), rest));
    assert ([a] + rest)[1..] == rest;
    assert Legal(lease, s, [a] + rest) && !Exclusive(lease, Run(lease, s, [a] + rest));
  }

  function OneClaimed(spec: Spec, since: int, now: int): Sys {
    Sys(now, map["x" := JobQueue.Claim(NewJob(spec), "first", since)], map[Hold("first", "x") := since])
  }

  lemma FirstSubmits(lease: Lease, spec: Spec)
    requires CanCollide(lease, Sys(0, map["x" := NewJob(spec)], map[]))
    ensures CanCollide(lease, IDLE)
  {
    assert Step(lease, IDLE, Submit("x", spec)) == Sys(0, map["x" := NewJob(spec)], map[]);
    CanCollideBefore(lease, IDLE, Submit("x", spec));
  }

  lemma FirstClaims(lease: Lease, spec: Spec, elapsed: nat)
    requires CanCollide(lease, OneClaimed(spec, 0, elapsed))
    ensures CanCollide(lease, IDLE)
  {
    var s := Sys(0, map["x" := NewJob(spec)], map[]);
    var take := TakeNext(Hold("first", "x"));
    assert IsNext(s.jobs, "x");
    assert Step(lease, s, take) == OneClaimed(spec, 0, 0);
    assert Step(lease, OneClaimed(spec, 0, 0), Tick(elapsed)) == OneClaimed(spec, 0, elapsed);
    CanCollideBefore(lease, OneClaimed(spec, 0, 0), Tick(elapsed));
    CanCollideBefore(lease, s, take);
    FirstSubmits(lease, spec);
  }

  lemma SecondClaims(lease: Lease, spec: Spec, elapsed: nat)
    requires lease.timeout < elapsed <= lease.grace
    ensures CanCollide(lease, OneClaimed(spec, 0, elapsed))
  {
    var s := OneClaimed(spec, 0, elapsed);
    var s1 := Step(lease, s, ReapStale(true));
    assert IsNext(s1.jobs, "x");
    var first, second := Hold("first", "x"), Hold("second", "x");
    var s2 := Step(lease, s1, TakeNext(second));
    assert first in s2.holds && second in s2.holds && first.worker != second.worker;
    assert Acting(lease, s2, first) && Acting(lease, s2, second);
    assert !Exclusive(lease, Run(lease, s2, []));
    assert Legal(lease, s2, []);
    CanCollideBefore(lease, s1, TakeNext(second));
    CanCollideBefore(lease, s, ReapStale(true));
  }

  /**
   No interleaving of actions makes two workers act on one job if and only if the reaper waits at
   least as long as the workers do.
   */
  lemma ExclusiveExactly(lease: Lease, spec: Spec)
    requires 0 <= lease.grace
    ensures !CanCollide(lease, IDLE) <==> lease.grace <= lease.timeout
  {
    if lease.grace <= lease.timeout {
      forall actions | Legal(lease, IDLE, actions)
        ensures Exclusive(lease, Run(lease, IDLE, actions))
      {
        RunKeepsSound(lease, IDLE, actions);
        SoundIsExclusive(lease, Run(lease, IDLE, actions));
      }
    } else {
      var elapsed := if lease.timeout < 0 then 0 else lease.timeout + 1;
      SecondClaims(lease, spec, elapsed);
      FirstClaims(lease, spec, elapsed);
    }
  }
}
