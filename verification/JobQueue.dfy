/**
 The job queue: its rows, the repository's operations on them, and what whole runs of
 operations keep. Times are integers; a row's id is the key of the table.
 */
module JobQueue {
  import opened Options
  import opened Text

  type JobId = string

  datatype State = Queued | Claimed | Running | PausedBudget | Completed | Failed | Cancelled {
    predicate Active() {
      Queued? || Claimed? || Running? || PausedBudget?
    }

    predicate Held() {
      Claimed? || Running?
    }
  }

  datatype Spec = Spec(
    kb: string,
    workspace: string,
    jobType: string,
    payload: string,
    dedupeKey: Option<string>,
    priority: int,
    createdAt: int)

  /** A row; what enqueueing fixed for good is its spec. */
  datatype Job = Job(
    spec: Spec,
    state: State,
    checkpoint: Option<string>,
    progress: Option<string>,
    cost: int,
    claimedBy: Option<string>,
    heartbeatAt: Option<int>,
    attempt: nat,
    startedAt: Option<int>,
    finishedAt: Option<int>,
    errorMsg: Option<string>)

  type Table = map<JobId, Job>

  function NewJob(spec: Spec): Job {
    Job(spec, Queued, None, None, 0, None, None, 0, None, None, None)
  }

  // ----- the operations, on one row -----

  function Claim(j: Job, worker: string, now: int): Job {
    j.(state := State.Claimed, claimedBy := Some(worker), heartbeatAt := Some(now), attempt := j.attempt + 1)
  }

  function Start(j: Job, now: int): Job {
    j.(state := Running, startedAt := Some(j.startedAt.GetOr(now)), heartbeatAt := Some(now))
  }

  function Heartbeat(j: Job, now: int): Job {
    j.(heartbeatAt := Some(now))
  }

  function Checkpoint(j: Job, data: string, now: int): Job {
    j.(checkpoint := Some(data), heartbeatAt := Some(now))
  }

  function Complete(j: Job, cost: int, at: int): Job {
    j.(state := Completed, finishedAt := Some(at), cost := cost)
  }

  function Fail(j: Job, msg: string, at: int): Job {
    j.(state := Failed, finishedAt := Some(at), errorMsg := Some(msg))
  }

  function Pause(j: Job): Job {
    j.(state := PausedBudget)
  }

  function Requeue(j: Job): Job {
    j.(state := Queued, claimedBy := None, heartbeatAt := None)
  }

  /** A row without a heartbeat is never stale: comparing with NULL is not true. */
  predicate Stale(j: Job, timeout: int, now: int) {
    j.state.Held() && j.heartbeatAt.Some? && j.heartbeatAt.value < now - timeout
  }

  function ReapedMessage(timeout: int): string {
    "reaped: missed heartbeat (timeout=" + Render(timeout) + "s)"
  }

  function Reap(j: Job, timeout: int, now: int, requeue: bool): Job {
    if !Stale(j, timeout, now) then j
    else if requeue then Requeue(j)
    else Fail(j, ReapedMessage(timeout), now)
  }

  // ----- choosing what to claim, and whom to coalesce with -----

  /** Whether the first row is served strictly before the second. */
  predicate ServedBefore(a: Job, b: Job) {
    a.spec.priority > b.spec.priority || (a.spec.priority == b.spec.priority && a.spec.createdAt < b.spec.createdAt)
  }

  predicate Before(jobs: Table, a: JobId, b: JobId) {
    a in jobs && b in jobs && ServedBefore(jobs[a], jobs[b])
  }

  predicate IsQueued(jobs: Table, id: JobId) {
    id in jobs && jobs[id].state.Queued?
  }

  predicate IsNext(jobs: Table, id: JobId) {
    IsQueued(jobs, id) && forall other | other in jobs && IsQueued(jobs, other) :: !Before(jobs, other, id)
  }

  /** An active job of this knowledge base with this key. */
  predicate Holds(jobs: Table, id: JobId, kb: string, key: string) {
    id in jobs && jobs[id].state.Active() && jobs[id].spec.kb == kb && jobs[id].spec.dedupeKey == Some(key)
  }

  function QueuedIds(jobs: Table): set<JobId> {
    set id | id in jobs && jobs[id].state.Queued?
  }

  /** Some queued job is next unless none is queued; ties leave a choice. */
  lemma {:induction false} SomeNext(jobs: Table, among: set<JobId>)
    requires among != {} && forall id | id in among :: IsQueued(jobs, id)
    ensures exists id | id in among :: forall other | other in among :: !Before(jobs, other, id)
    decreases among
  {
    var one :| one in among;
    if among == {one} {
      assert !Before(jobs, one, one);
    } else {
      var rest := among - {one};
      assert among == rest + {one};
      SomeNext(jobs, rest);
      var best :| best in rest && forall other | other in rest :: !Before(jobs, other, best);
      var pick := if Before(jobs, one, best) then one else best;
      assert pick in among && forall other | other in among :: !Before(jobs, other, pick);
    }
  }

  lemma NextExists(jobs: Table)
    requires QueuedIds(jobs) != {}
    ensures exists id :: IsNext(jobs, id)
  {
    SomeNext(jobs, QueuedIds(jobs));
    var id :| id in QueuedIds(jobs) && forall other | other in QueuedIds(jobs) :: !Before(jobs, other, id);
    assert forall other | other in jobs && IsQueued(jobs, other) :: other in QueuedIds(jobs);
    assert IsNext(jobs, id);
  }

  // ----- the operations, on the table -----

  datatype Op =
    | DoEnqueue(id: JobId, spec: Spec)
    | DoClaim(picked: Option<JobId>, worker: string, now: int)
    | DoStart(id: JobId, now: int)
    | DoHeartbeat(id: JobId, now: int)
    | DoCheckpoint(id: JobId, data: string, now: int)
    | DoComplete(id: JobId, cost: int, at: int)
    | DoFail(id: JobId, msg: string, at: int)
    | DoPause(id: JobId)
    | DoResume(id: JobId)
    | DoReap(timeout: int, now: int, requeue: bool)

  /** New ids are fresh, and a claim takes a job that is next, or none when none is queued. */
  ghost predicate Possible(jobs: Table, op: Op) {
    match op
    case DoEnqueue(id, _) => id !in jobs
    case DoClaim(Some(id), _, _) => IsNext(jobs, id)
    case DoClaim(None, _, _) => QueuedIds(jobs) == {}
    case _ => true
  }

  predicate Coalesces(jobs: Table, spec: Spec) {
    spec.dedupeKey.Some? && exists id | id in jobs :: Holds(jobs, id, spec.kb, spec.dedupeKey.value)
  }

  function ReapAll(jobs: Table, timeout: int, now: int, requeue: bool): Table {
    map id | id in jobs :: Reap(jobs[id], timeout, now, requeue)
  }

  /** What an operation that names a job does to it; operations on other jobs do nothing to it. */
  function OnJob(j: Job, op: Op): Job {
    match op
    case DoClaim(_, worker, now) => Claim(j, worker, now)
    case DoStart(_, now) => Start(j, now)
    case DoHeartbeat(_, now) => Heartbeat(j, now)
    case DoCheckpoint(_, data, now) => Checkpoint(j, data, now)
    case DoComplete(_, cost, at) => Complete(j, cost, at)
    case DoFail(_, msg, at) => Fail(j, msg, at)
    case DoPause(_) => Pause(j)
    case DoResume(_) => if j.state.PausedBudget? then Requeue(j) else j
    case DoEnqueue(_, _) => j
    case DoReap(_, _, _) => j
  }

  /** The job an operation names. */
  function Named(op: Op): Option<JobId> {
    match op
    case DoClaim(picked, _, _) => picked
    case DoEnqueue(_, _) => None
    case DoReap(_, _, _) => None
    case _ => Some(op.id)
  }

  /** Naming a missing job is an error and changes nothing, like resuming one that is not paused. */
  function Apply(jobs: Table, op: Op): Table {
    match op
    case DoEnqueue(id, spec) => if Coalesces(jobs, spec) then jobs else jobs[id := NewJob(spec)]
    case DoReap(timeout, now, requeue) => ReapAll(jobs, timeout, now, requeue)
    case _ =>
      if Named(op).Some? && Named(op).value in jobs then
        jobs[Named(op).value := OnJob(jobs[Named(op).value], op)]
      else jobs
  }

  // ----- the repository -----

  datatype QueueError = NoSuchJob(id: JobId) | NotPaused(id: JobId, state: State)

  class JobQueueRepository {
    var jobs: Table

    constructor ()
      ensures jobs == map[]
    {
      jobs := map[];
    }

    /** The active holder of the key when there is one, otherwise the new row. */
    method Enqueue(freshId: JobId, spec: Spec) returns (id: JobId)
      requires freshId !in jobs
      modifies this
      ensures jobs == Apply(old(jobs), DoEnqueue(freshId, spec))
      ensures if Coalesces(old(jobs), spec) then Holds(jobs, id, spec.kb, spec.dedupeKey.value) else id == freshId
      ensures id != freshId ==>
        && jobs == old(jobs) && id in jobs && spec.dedupeKey.Some?
        && jobs[id].spec.kb == spec.kb && jobs[id].spec.dedupeKey == spec.dedupeKey
        && jobs[id].state in {Queued, State.Claimed, Running, PausedBudget}
      ensures id == freshId ==>
        && jobs == old(jobs)[id := Job(spec, Queued, None, None, 0, None, None, 0, None, None, None)]
        && (spec.dedupeKey.Some? ==>
              forall other | other in old(jobs) ::
                && old(jobs)[other].spec.kb == spec.kb && old(jobs)[other].spec.dedupeKey == spec.dedupeKey
                ==> old(jobs)[other].state in {Completed, Failed, Cancelled})
    {
      if spec.dedupeKey.Some? {
        if existing :| existing in jobs && Holds(jobs, existing, spec.kb, spec.dedupeKey.value) {
          return existing;
        }
      }
      jobs := jobs[freshId := NewJob(spec)];
      return freshId;
    }

    method ClaimNext(worker: string, now: int) returns (picked: Option<JobId>)
      modifies this
      ensures Possible(old(jobs), DoClaim(picked, worker, now))
      ensures jobs == Apply(old(jobs), DoClaim(picked, worker, now))
      ensures picked.None? ==> jobs == old(jobs) && forall id | id in jobs :: jobs[id].state != Queued
      ensures picked.Some? ==>
        && picked.value in old(jobs) && old(jobs)[picked.value].state == Queued
        && var was := old(jobs)[picked.value];
        && jobs == old(jobs)[picked.value := was.(state := State.Claimed, claimedBy := Some(worker),
                                                  heartbeatAt := Some(now), attempt := was.attempt + 1)]
        && forall other | other in old(jobs) && old(jobs)[other].state == Queued ::
             && old(jobs)[other].spec.priority <= was.spec.priority
             && (old(jobs)[other].spec.priority == was.spec.priority ==>
                   was.spec.createdAt <= old(jobs)[other].spec.createdAt)
    {
      if QueuedIds(jobs) == {} {
        assert forall id | id in jobs :: id !in QueuedIds(jobs);
        return None;
      }
      NextExists(jobs);
      var id :| id in jobs && IsNext(jobs, id);
      var job := jobs[id];
      jobs := jobs[id := job.(state := State.Claimed, claimedBy := Some(worker), heartbeatAt := Some(now),
                              attempt := job.attempt + 1)];
      return Some(id);
    }

    method StartJob(id: JobId, now: int) returns (result: Result<Job, QueueError>)
      modifies this
      ensures jobs == Apply(old(jobs), DoStart(id, now))
      ensures id !in old(jobs) ==> jobs == old(jobs)
      ensures id in old(jobs) ==>
        var was := old(jobs)[id];
        jobs == old(jobs)[id := was.(state := Running, heartbeatAt := Some(now),
                                     startedAt := if was.startedAt.Some? then was.startedAt else Some(now))]
      ensures result == if id in jobs then Ok(jobs[id]) else Err(NoSuchJob(id))
    {
      if id !in jobs {
        return Err(NoSuchJob(id));
      }
      var job := jobs[id].(state := Running);
      if job.startedAt.None? {
        job := job.(startedAt := Some(now));
      }
      job := job.(heartbeatAt := Some(now));
      jobs := jobs[id := job];
      return Ok(job);
    }

    method Beat(id: JobId, now: int) returns (result: Result<Job, QueueError>)
      modifies this
      ensures jobs == Apply(old(jobs), DoHeartbeat(id, now))
      ensures jobs == if id in old(jobs) then old(jobs)[id := old(jobs)[id].(heartbeatAt := Some(now))] else old(jobs)
      ensures result == if id in jobs then Ok(jobs[id]) else Err(NoSuchJob(id))
    {
      if id !in jobs {
        return Err(NoSuchJob(id));
      }
      jobs := jobs[id := jobs[id].(heartbeatAt := Some(now))];
      return Ok(jobs[id]);
    }

    method SaveCheckpoint(id: JobId, data: string, now: int) returns (result: Result<Job, QueueError>)
      modifies this
      ensures jobs == Apply(old(jobs), DoCheckpoint(id, data, now))
      ensures jobs == if id !in old(jobs) then old(jobs)
                      else old(jobs)[id := old(jobs)[id].(checkpoint := Some(data), heartbeatAt := Some(now))]
      ensures result == if id in jobs then Ok(jobs[id]) else Err(NoSuchJob(id))
    {
      if id !in jobs {
        return Err(NoSuchJob(id));
      }
      jobs := jobs[id := jobs[id].(checkpoint := Some(data), heartbeatAt := Some(now))];
      return Ok(jobs[id]);
    }

    method CompleteJob(id: JobId, cost: int, at: int) returns (result: Result<Job, QueueError>)
      modifies this
      ensures jobs == Apply(old(jobs), DoComplete(id, cost, at))
      ensures jobs == if id !in old(jobs) then old(jobs)
                      else old(jobs)[id := old(jobs)[id].(state := Completed, finishedAt := Some(at), cost := cost)]
      ensures result == if id in jobs then Ok(jobs[id]) else Err(NoSuchJob(id))
    {
      if id !in jobs {
        return Err(NoSuchJob(id));
      }
      jobs := jobs[id := jobs[id].(state := Completed, finishedAt := Some(at), cost := cost)];
      return Ok(jobs[id]);
    }

    method FailJob(id: JobId, msg: string, at: int) returns (result: Result<Job, QueueError>)
      modifies this
      ensures jobs == Apply(old(jobs), DoFail(id, msg, at))
      ensures jobs == if id !in old(jobs) then old(jobs)
                      else old(jobs)[id := old(jobs)[id].(state := Failed, finishedAt := Some(at),
                                                          errorMsg := Some(msg))]
      ensures result == if id in jobs then Ok(jobs[id]) else Err(NoSuchJob(id))
    {
      if id !in jobs {
        return Err(NoSuchJob(id));
      }
      jobs := jobs[id := jobs[id].(state := Failed, finishedAt := Some(at), errorMsg := Some(msg))];
      return Ok(jobs[id]);
    }

    method PauseBudget(id: JobId) returns (result: Result<Job, QueueError>)
      modifies this
      ensures jobs == Apply(old(jobs), DoPause(id))
      ensures jobs == if id in old(jobs) then old(jobs)[id := old(jobs)[id].(state := PausedBudget)] else old(jobs)
      ensures result == if id in jobs then Ok(jobs[id]) else Err(NoSuchJob(id))
    {
      if id !in jobs {
        return Err(NoSuchJob(id));
      }
      jobs := jobs[id := jobs[id].(state := PausedBudget)];
      return Ok(jobs[id]);
    }

    method Resume(id: JobId) returns (result: Result<Job, QueueError>)
      modifies this
      ensures jobs == Apply(old(jobs), DoResume(id))
      ensures jobs == if id in old(jobs) && old(jobs)[id].state == PausedBudget then
                        old(jobs)[id := old(jobs)[id].(state := Queued, claimedBy := None, heartbeatAt := None)]
                      else old(jobs)
      ensures result ==
        if id !in jobs then Err(NoSuchJob(id))
        else if !old(jobs)[id].state.PausedBudget? then Err(NotPaused(id, old(jobs)[id].state))
        else Ok(jobs[id])
    {
      if id !in jobs {
        return Err(NoSuchJob(id));
      }
      if !jobs[id].state.PausedBudget? {
        return Err(NotPaused(id, jobs[id].state));
      }
      jobs := jobs[id := jobs[id].(state := Queued, claimedBy := None, heartbeatAt := None)];
      return Ok(jobs[id]);
    }

    /** Rewrites the stale rows one by one and returns exactly their ids, each once. */
    method ReapStale(timeout: int, now: int, requeue: bool) returns (reaped: seq<JobId>)
      modifies this
      ensures jobs == Apply(old(jobs), DoReap(timeout, now, requeue))
      ensures forall id :: id in reaped <==> id in old(jobs) && Stale(old(jobs)[id], timeout, now)
      ensures forall i, k | 0 <= i < k < |reaped| :: reaped[i] != reaped[k]
      ensures forall id :: id in reaped <==>
        && id in old(jobs) && old(jobs)[id].state in {State.Claimed, Running}
        && old(jobs)[id].heartbeatAt.Some? && old(jobs)[id].heartbeatAt.value < now - timeout
      ensures jobs.Keys == old(jobs).Keys
      ensures forall id | id in jobs ::
                var was := old(jobs)[id];
                jobs[id] ==
                  if id !in reaped then was
                  else if requeue then was.(state := Queued, claimedBy := None, heartbeatAt := None)
                  else was.(state := Failed, finishedAt := Some(now),
                            errorMsg := Some("reaped: missed heartbeat (timeout=" + Render(timeout) + "s)"))
    {
      ghost var before := jobs;
      var pending := set id | id in jobs && Stale(jobs[id], timeout, now);
      ghost var stale := pending;
      reaped := [];
      while pending != {}
        invariant pending <= stale && jobs.Keys == before.Keys
        invariant forall id :: id in reaped <==> id in stale && id !in pending
        invariant forall i, k | 0 <= i < k < |reaped| :: reaped[i] != reaped[k]
        invariant forall id | id in before :: jobs[id] ==
                    if id in pending then before[id] else Reap(before[id], timeout, now, requeue)
        decreases |pending|
      {
        var id :| id in pending;
        var job := jobs[id];
        if requeue {
          job := job.(state := Queued, claimedBy := None, heartbeatAt := None);
        } else {
          job := job.(state := Failed, finishedAt := Some(now), errorMsg := Some(ReapedMessage(timeout)));
        }
        assert job == Reap(before[id], timeout, now, requeue);
        jobs := jobs[id := job];
        reaped := reaped + [id];
        pending := pending - {id};
      }
    }
  }

  // ----- whole runs -----

  function Run(jobs: Table, ops: seq<Op>): Table
    decreases |ops|
  {
    if ops == [] then jobs else Run(Apply(jobs, ops[0]), ops[1..])
  }

  ghost predicate Legal(jobs: Table, ops: seq<Op>)
    decreases |ops|
  {
    ops != [] ==> Possible(jobs, ops[0]) && Legal(Apply(jobs, ops[0]), ops[1..])
  }

  /** The number of claims of a job in a run. */
  function Claims(ops: seq<Op>, id: JobId): nat {
    if ops == [] then 0
    else (if ops[0].DoClaim? && ops[0].picked == Some(id) then 1 else 0) + Claims(ops[1..], id)
  }

  /** The data saved last for a job in a run, or what it had before. */
  function LastSaved(ops: seq<Op>, id: JobId, before: Option<string>): Option<string> {
    if ops == [] then before
    else LastSaved(ops[1..], id, if ops[0].DoCheckpoint? && ops[0].id == id then Some(ops[0].data) else before)
  }

  /** The time of the first start of a job in a run, unless it had been started before. */
  function FirstStarted(ops: seq<Op>, id: JobId, before: Option<int>): Option<int> {
    if ops == [] then before
    else
      FirstStarted(ops[1..], id, if ops[0].DoStart? && ops[0].id == id then Some(before.GetOr(ops[0].now)) else before)
  }

  /** What every operation keeps of every job it finds. */
  lemma StepAccounts(jobs: Table, op: Op, id: JobId)
    requires Possible(jobs, op) && id in jobs
    ensures id in Apply(jobs, op)
    ensures Apply(jobs, op)[id].spec == jobs[id].spec
    ensures Apply(jobs, op)[id].attempt == jobs[id].attempt + Claims([op], id)
    ensures Apply(jobs, op)[id].checkpoint == LastSaved([op], id, jobs[id].checkpoint)
    ensures Apply(jobs, op)[id].startedAt == FirstStarted([op], id, jobs[id].startedAt)
  {
  }

  /**
   No run loses a job or changes what it was enqueued with; its attempt counter is the number
   of times it was claimed, its checkpoint the last one saved and its start time the first,
   through every claim, pause, resume and reap in between.
   */
  lemma {:induction false} RunAccounts(jobs: Table, ops: seq<Op>, id: JobId)
    requires Legal(jobs, ops) && id in jobs
    ensures id in Run(jobs, ops)
    ensures Run(jobs, ops)[id].spec == jobs[id].spec
    ensures Run(jobs, ops)[id].attempt == jobs[id].attempt + Claims(ops, id)
    ensures Run(jobs, ops)[id].checkpoint == LastSaved(ops, id, jobs[id].checkpoint)
    ensures Run(jobs, ops)[id].startedAt == FirstStarted(ops, id, jobs[id].startedAt)
    decreases |ops|
  {
    if ops != [] {
      StepAccounts(jobs, ops[0], id);
      assert [ops[0]][1..] == [];
      RunAccounts(Apply(jobs, ops[0]), ops[1..], id);
    }
  }

  /** Every held job carries a heartbeat, so none is out of the reaper's sight. */
  predicate HeldHaveHeartbeats(jobs: Table) {
    forall id | id in jobs && jobs[id].state.Held() :: jobs[id].heartbeatAt.Some?
  }

  /** No operation takes the heartbeat from a held job or makes one held without it, whoever calls it when. */
  lemma ApplyKeepsHeartbeats(jobs: Table, op: Op)
    requires HeldHaveHeartbeats(jobs)
    ensures HeldHaveHeartbeats(Apply(jobs, op))
  {
  }

  // ----- draining -----

  datatype Taken = Taken(id: JobId, worker: string, now: int)

  function Take(jobs: Table, t: Taken): Table {
    Apply(jobs, DoClaim(Some(t.id), t.worker, t.now))
  }

  function TakeAll(jobs: Table, taken: seq<Taken>): Table
    decreases |taken|
  {
    if taken == [] then jobs else TakeAll(Take(jobs, taken[0]), taken[1..])
  }

  /** Claims that follow each other with nothing in between, each taking a job that is next. */
  ghost predicate Draining(jobs: Table, taken: seq<Taken>)
    decreases |taken|
  {
    taken != [] ==> IsNext(jobs, taken[0].id) && Draining(Take(jobs, taken[0]), taken[1..])
  }

  function Ids(taken: seq<Taken>): (ids: seq<JobId>)
    ensures |ids| == |taken| && forall i | 0 <= i < |taken| :: ids[i] == taken[i].id
  {
    seq(|taken|, i requires 0 <= i < |taken| => taken[i].id)
  }

  lemma TakeRemovesOne(jobs: Table, t: Taken)
    requires IsNext(jobs, t.id)
    ensures QueuedIds(Take(jobs, t)) == QueuedIds(jobs) - {t.id} && t.id in QueuedIds(jobs)
    ensures forall a, b | a in QueuedIds(jobs) && b in QueuedIds(jobs) ::
              Before(Take(jobs, t), a, b) <==> Before(jobs, a, b)
  {
  }

  /** Successive claims take distinct queued jobs, none of them served before an earlier one. */
  lemma {:induction false} TakenInOrder(jobs: Table, taken: seq<Taken>)
    requires Draining(jobs, taken)
    ensures forall i | 0 <= i < |taken| :: Ids(taken)[i] in QueuedIds(jobs)
    ensures forall i, k | 0 <= i < k < |taken| :: Ids(taken)[i] != Ids(taken)[k]
    ensures forall i, k | 0 <= i < k < |taken| :: !Before(jobs, Ids(taken)[k], Ids(taken)[i])
    decreases |taken|
  {
    if taken != [] {
      var rest := taken[1..];
      TakeRemovesOne(jobs, taken[0]);
      TakenInOrder(Take(jobs, taken[0]), rest);
      assert forall i | 0 < i < |taken| :: Ids(taken)[i] == Ids(rest)[i - 1];
      forall i, k | 0 <= i < k < |taken|
        ensures Ids(taken)[i] != Ids(taken)[k] && !Before(jobs, Ids(taken)[k], Ids(taken)[i])
      {
        assert Ids(taken)[k] in QueuedIds(jobs);
        if i > 0 {
          assert Ids(rest)[i - 1] != Ids(rest)[k - 1];
          assert !Before(Take(jobs, taken[0]), Ids(rest)[k - 1], Ids(rest)[i - 1]);
        }
      }
    }
  }

  /** The same order, on the fields. */
  lemma TakenByFields(jobs: Table, taken: seq<Taken>)
    requires Draining(jobs, taken)
    ensures forall i | 0 <= i < |taken| :: taken[i].id in jobs
    ensures forall i, k | 0 <= i < k < |taken| ::
              var first, later := jobs[taken[i].id].spec, jobs[taken[k].id].spec;
              && first.priority >= later.priority
              && (first.priority == later.priority ==> first.createdAt <= later.createdAt)
  {
    TakenInOrder(jobs, taken);
    assert forall i | 0 <= i < |taken| :: Ids(taken)[i] in QueuedIds(jobs);
    forall i, k | 0 <= i < k < |taken|
      ensures !Before(jobs, taken[k].id, taken[i].id)
    {
      assert !Before(jobs, Ids(taken)[k], Ids(taken)[i]);
    }
  }

  lemma {:induction false} TakenAreGone(jobs: Table, taken: seq<Taken>)
    requires Draining(jobs, taken)
    ensures forall id :: id in QueuedIds(TakeAll(jobs, taken)) <==> id in QueuedIds(jobs) && id !in Ids(taken)
    decreases |taken|
  {
    if taken != [] {
      var rest := taken[1..];
      TakeRemovesOne(jobs, taken[0]);
      TakenAreGone(Take(jobs, taken[0]), rest);
      assert Ids(taken) == [taken[0].id] + Ids(rest);
    }
  }

  lemma {:induction false} DistinctOccursOnce(ids: seq<JobId>, id: JobId)
    requires forall i, k | 0 <= i < k < |ids| :: ids[i] != ids[k]
    ensures multiset(ids)[id] == if id in ids then 1 else 0
  {
    if ids != [] {
      assert ids == [ids[0]] + ids[1..];
      DistinctOccursOnce(ids[1..], id);
    }
  }

  /**
   Claiming until the queue says none is left hands out every queued job exactly once, by
   falling priority and then by age.
   */
  lemma DrainIsSortedPermutation(jobs: Table, taken: seq<Taken>, worker: string, now: int)
    requires Draining(jobs, taken)
    requires Possible(TakeAll(jobs, taken), DoClaim(None, worker, now))
    ensures multiset(Ids(taken)) == multiset(QueuedIds(jobs))
    ensures forall i | 0 <= i < |taken| :: taken[i].id in jobs
    ensures forall i, k | 0 <= i < k < |taken| ::
              var first, later := jobs[taken[i].id].spec, jobs[taken[k].id].spec;
              && first.priority >= later.priority
              && (first.priority == later.priority ==> first.createdAt <= later.createdAt)
  {
    TakenInOrder(jobs, taken);
    TakenAreGone(jobs, taken);
    TakenByFields(jobs, taken);
    var ids, queued := Ids(taken), QueuedIds(jobs);
    forall id
      ensures multiset(ids)[id] == multiset(queued)[id]
    {
      DistinctOccursOnce(ids, id);
      assert id in queued ==> id in ids by {
        assert id !in QueuedIds(TakeAll(jobs, taken));
      }
    }
  }

  /** As long as a job is queued, a claim does not come back empty. */
  lemma ClaimFindsWork(jobs: Table, worker: string, now: int)
    ensures (exists id :: Possible(jobs, DoClaim(Some(id), worker, now)))
       <==> !Possible(jobs, DoClaim(None, worker, now))
  {
    if QueuedIds(jobs) != {} {
      NextExists(jobs);
      var id :| IsNext(jobs, id);
      assert Possible(jobs, DoClaim(Some(id), worker, now));
    } else {
      forall id
        ensures !Possible(jobs, DoClaim(Some(id), worker, now))
      {
        assert id !in QueuedIds(jobs);
      }
    }
  }

  // ----- the documented state machine -----

  /** The transitions the module's documentation draws; the code itself only checks a resume. */
  predicate Documented(jobs: Table, op: Op) {
    Named(op).Some? && Named(op).value in jobs ==>
      var state := jobs[Named(op).value].state;
      match op
      case DoStart(_, _) => state.Claimed?
      case DoHeartbeat(_, _) => state.Held()
      case DoCheckpoint(_, _, _) => state.Held()
      case DoComplete(_, _, _) => state.Held()
      case DoFail(_, _, _) => state.Held()
      case DoPause(_) => state.Held()
      case _ => true
  }

  ghost predicate DocumentedRun(jobs: Table, ops: seq<Op>)
    decreases |ops|
  {
    ops != [] ==> Documented(jobs, ops[0]) && DocumentedRun(Apply(jobs, ops[0]), ops[1..])
  }

  /** A finished job is never touched again by a run that follows the documented transitions. */
  lemma {:induction false} FinishedIsFinal(jobs: Table, ops: seq<Op>, id: JobId)
    requires Legal(jobs, ops) && DocumentedRun(jobs, ops)
    requires id in jobs && !jobs[id].state.Active()
    ensures id in Run(jobs, ops) && Run(jobs, ops)[id] == jobs[id]
    decreases |ops|
  {
    if ops != [] {
      assert Apply(jobs, ops[0])[id] == jobs[id];
      FinishedIsFinal(Apply(jobs, ops[0]), ops[1..], id);
    }
  }

  /** A run of documented operations that leads from one table to another. */
  ghost predicate Leads(jobs: Table, ops: seq<Op>, end: Table) {
    Legal(jobs, ops) && DocumentedRun(jobs, ops) && Run(jobs, ops) == end
  }

  lemma LeadsBefore(jobs: Table, op: Op, rest: seq<Op>, end: Table)
    requires Possible(jobs, op) && Documented(jobs, op) && Leads(Apply(jobs, op), rest, end)
    ensures Leads(jobs, [op] + rest, end)
  {
    assert ([op] + rest)[1..] == rest;
  }

  /** A job goes through every documented state: paused for the budget, resumed, finished on its second claim. */
  function LifeOf(id: JobId): seq<Op> {
    [DoClaim(Some(id), "w1", 1)] + ([DoStart(id, 2)] + ([DoHeartbeat(id, 3)] + Interrupted(id)))
  }

  function Interrupted(id: JobId): seq<Op> {
    [DoCheckpoint(id, "half", 4)] + ([DoPause(id)] + ([DoResume(id)] + Finishing(id)))
  }

  function Finishing(id: JobId): seq<Op> {
    [DoClaim(Some(id), "w2", 5)] + ([DoStart(id, 6)] + ([DoComplete(id, 7, 8)] + []))
  }

  lemma FinishingLeads(id: JobId, j: Job)
    requires j.state.Queued? && j.startedAt.Some?
    ensures Leads(map[id := j], Finishing(id),
                  map[id := j.(state := Completed, claimedBy := Some("w2"), heartbeatAt := Some(6),
                               attempt := j.attempt + 1, cost := 7, finishedAt := Some(8))])
  {
    var t0 := map[id := j];
    assert IsNext(t0, id);
    var t1 := map[id := j.(state := State.Claimed, claimedBy := Some("w2"), heartbeatAt := Some(5),
                           attempt := j.attempt + 1)];
    assert Apply(t0, DoClaim(Some(id), "w2", 5)) == t1;
    var t2 := map[id := t1[id].(state := Running, heartbeatAt := Some(6))];
    assert Apply(t1, DoStart(id, 6)) == t2;
    var t3 := map[id := t2[id].(state := Completed, cost := 7, finishedAt := Some(8))];
    assert Apply(t2, DoComplete(id, 7, 8)) == t3;
    assert Leads(t3, [], t3);
    LeadsBefore(t2, DoComplete(id, 7, 8), [], t3);
    LeadsBefore(t1, DoStart(id, 6), [DoComplete(id, 7, 8)] + [], t3);
    LeadsBefore(t0, DoClaim(Some(id), "w2", 5), [DoStart(id, 6)] + ([DoComplete(id, 7, 8)] + []), t3);
  }

  lemma InterruptedLeads(id: JobId, j: Job, end: Table)
    requires j.state.Running?
    requires Leads(map[id := j.(state := Queued, claimedBy := None, heartbeatAt := None, checkpoint := Some("half"))],
                   Finishing(id), end)
    ensures Leads(map[id := j], Interrupted(id), end)
  {
    var t0 := map[id := j];
    var t1 := map[id := j.(checkpoint := Some("half"), heartbeatAt := Some(4))];
    assert Apply(t0, DoCheckpoint(id, "half", 4)) == t1;
    var t2 := map[id := t1[id].(state := PausedBudget)];
    assert Apply(t1, DoPause(id)) == t2;
    var t3 := map[id := t2[id].(state := Queued, claimedBy := None, heartbeatAt := None)];
    assert Apply(t2, DoResume(id)) == t3;
    LeadsBefore(t2, DoResume(id), Finishing(id), end);
    LeadsBefore(t1, DoPause(id), [DoResume(id)] + Finishing(id), end);
    LeadsBefore(t0, DoCheckpoint(id, "half", 4), [DoPause(id)] + ([DoResume(id)] + Finishing(id)), end);
  }

  /** The documented life of a job is a possible run: its first start and its checkpoint survive the pause. */
  lemma DocumentedLife(id: JobId, spec: Spec)
    ensures Leads(map[id := NewJob(spec)], LifeOf(id),
                  map[id := Job(spec, Completed, Some("half"), None, 7, Some("w2"), Some(6), 2,
                                Some(2), Some(8), None)])
  {
    var end := map[id := Job(spec, Completed, Some("half"), None, 7, Some("w2"), Some(6), 2, Some(2), Some(8), None)];
    var j := Job(spec, Queued, None, None, 0, None, None, 0, None, None, None);
    var t0 := map[id := j];
    assert IsNext(t0, id);
    var t1 := map[id := j.(state := State.Claimed, claimedBy := Some("w1"), heartbeatAt := Some(1), attempt := 1)];
    assert Apply(t0, DoClaim(Some(id), "w1", 1)) == t1;
    var t2 := map[id := t1[id].(state := Running, heartbeatAt := Some(2), startedAt := Some(2))];
    assert Apply(t1, DoStart(id, 2)) == t2;
    var t3 := map[id := t2[id].(heartbeatAt := Some(3))];
    assert Apply(t2, DoHeartbeat(id, 3)) == t3;
    FinishingLeads(id, t3[id].(state := Queued, claimedBy := None, heartbeatAt := None, checkpoint := Some("half")));
    InterruptedLeads(id, t3[id], end);
    LeadsBefore(t2, DoHeartbeat(id, 3), Interrupted(id), end);
    LeadsBefore(t1, DoStart(id, 2), [DoHeartbeat(id, 3)] + Interrupted(id), end);
    LeadsBefore(t0, DoClaim(Some(id), "w1", 1), [DoStart(id, 2)] + ([DoHeartbeat(id, 3)] + Interrupted(id)), end);
  }

  /** Exactly which single operations change whether a job is active, whatever the caller checked. */
  lemma RevivesExactly(jobs: Table, op: Op, id: JobId)
    requires Possible(jobs, op) && id in jobs && !jobs[id].state.Active()
    ensures Apply(jobs, op)[id].state.Active() <==> (op.DoStart? || op.DoPause?) && op.id == id
  {
  }
}
