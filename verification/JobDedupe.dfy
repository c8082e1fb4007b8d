/**
 Enqueueing under concurrency: the look-up, the insert guarded by the partial unique index,
 the fallback look-up and the retried insert are separate database steps, interleaved with
 other callers and with the workers' operations.
 */
module JobDedupe {
  import opened Options
  import opened JobQueue

  type CallId = nat

  /** Where a caller is; a caller without a key starts at the insert. */
  datatype Stage = LookingUp | Inserting | FallingBack | Retrying | Returned(id: JobId) | Raised

  datatype Call = Call(spec: Spec, stage: Stage)

  datatype Sys = Sys(jobs: Table, calls: map<CallId, Call>)

  const EMPTY := Sys(map[], map[])

  datatype Action =
    | Begin(c: CallId, spec: Spec)
    | LookUp(c: CallId, found: Option<JobId>)
    | Insert(c: CallId, freshId: JobId)
    | FallBack(c: CallId, found: Option<JobId>)
    | Retry(c: CallId, freshId: JobId)
    | Work(op: Op)

  predicate At(s: Sys, c: CallId, stage: Stage) {
    c in s.calls && s.calls[c].stage == stage
  }

  /** A look-up returns an active holder of the key if there is one. */
  ghost predicate Finds(jobs: Table, spec: Spec, found: Option<JobId>) {
    match found
    case None => !Coalesces(jobs, spec)
    case Some(id) => spec.dedupeKey.Some? && Holds(jobs, id, spec.kb, spec.dedupeKey.value)
  }

  ghost predicate Enabled(s: Sys, a: Action) {
    match a
    case Begin(c, _) => c !in s.calls
    case LookUp(c, found) => At(s, c, LookingUp) && Finds(s.jobs, s.calls[c].spec, found)
    case Insert(c, freshId) => At(s, c, Inserting) && freshId !in s.jobs
    case FallBack(c, found) => At(s, c, FallingBack) && Finds(s.jobs, s.calls[c].spec, found)
    case Retry(c, freshId) => At(s, c, Retrying) && freshId !in s.jobs
    case Work(op) => !op.DoEnqueue? && Possible(s.jobs, op) && LeavesFinishedAlone(s.jobs, op)
  }

  /** Starting or pausing is only asked for jobs that are not finished; the code does not check it. */
  predicate LeavesFinishedAlone(jobs: Table, op: Op) {
    (op.DoStart? || op.DoPause?) && op.id in jobs ==> jobs[op.id].state.Active()
  }

  function Move(s: Sys, c: CallId, stage: Stage): Sys
    requires c in s.calls
  {
    s.(calls := s.calls[c := s.calls[c].(stage := stage)])
  }

  /** The insert the index guards: a second active row for the key is refused. */
  function InsertOr(s: Sys, c: CallId, freshId: JobId, refused: Stage): Sys
    requires c in s.calls
  {
    if Coalesces(s.jobs, s.calls[c].spec) then Move(s, c, refused)
    else Move(s.(jobs := s.jobs[freshId := NewJob(s.calls[c].spec)]), c, Returned(freshId))
  }

  ghost function Step(s: Sys, a: Action): Sys
    requires Enabled(s, a)
  {
    match a
    case Begin(c, spec) =>
      s.(calls := s.calls[c := Call(spec, if spec.dedupeKey.Some? then LookingUp else Inserting)])
    case LookUp(c, found) => Move(s, c, if found.Some? then Returned(found.value) else Inserting)
    case Insert(c, freshId) => InsertOr(s, c, freshId, FallingBack)
    case FallBack(c, found) => Move(s, c, if found.Some? then Returned(found.value) else Retrying)
    case Retry(c, freshId) => InsertOr(s, c, freshId, Raised)
    case Work(op) => s.(jobs := Apply(s.jobs, op))
  }

  // ----- at most one active job for a key -----

  predicate SameKey(a: Job, b: Job) {
    a.spec.kb == b.spec.kb && a.spec.dedupeKey == b.spec.dedupeKey && a.spec.dedupeKey.Some?
  }

  predicate Unique(jobs: Table) {
    forall a, b | a in jobs && b in jobs && a != b ::
      !(jobs[a].state.Active() && jobs[b].state.Active() && SameKey(jobs[a], jobs[b]))
  }

  /** No worker operation adds a job or makes a finished one active, so the index is never needed for an update. */
  lemma WorkKeepsUnique(jobs: Table, op: Op)
    requires Unique(jobs) && !op.DoEnqueue? && Possible(jobs, op) && LeavesFinishedAlone(jobs, op)
    ensures Unique(Apply(jobs, op))
  {
    var after := Apply(jobs, op);
    forall a | a in after
      ensures a in jobs && after[a].spec == jobs[a].spec && (after[a].state.Active() ==> jobs[a].state.Active())
    {
      StepAccounts(jobs, op, a);
      if !jobs[a].state.Active() {
        RevivesExactly(jobs, op, a);
      }
    }
  }

  lemma InsertKeepsUnique(jobs: Table, id: JobId, spec: Spec)
    requires Unique(jobs) && id !in jobs && !Coalesces(jobs, spec)
    ensures Unique(jobs[id := NewJob(spec)])
  {
    if spec.dedupeKey.Some? {
      assert forall other | other in jobs :: !Holds(jobs, other, spec.kb, spec.dedupeKey.value);
    }
  }

  lemma StepKeepsUnique(s: Sys, a: Action)
    requires Unique(s.jobs) && Enabled(s, a)
    ensures Unique(Step(s, a).jobs)
  {
    match a
    case Insert(c, freshId) =>
      if !Coalesces(s.jobs, s.calls[c].spec) { InsertKeepsUnique(s.jobs, freshId, s.calls[c].spec); }
    case Retry(c, freshId) =>
      if !Coalesces(s.jobs, s.calls[c].spec) { InsertKeepsUnique(s.jobs, freshId, s.calls[c].spec); }
    case Work(op) => WorkKeepsUnique(s.jobs, op);
    case Begin(_, _) =>
    case LookUp(_, _) =>
    case FallBack(_, _) =>
  }

  /** Starting or pausing a finished job keeps the key unique exactly when nobody else holds it. */
  lemma RevivingKeepsUniqueExactly(jobs: Table, op: Op)
    requires Unique(jobs) && (op.DoStart? || op.DoPause?)
    requires op.id in jobs && !jobs[op.id].state.Active()
    ensures Unique(Apply(jobs, op))
       <==> forall other | other in jobs && other != op.id ::
              !(jobs[other].state.Active() && SameKey(jobs[other], jobs[op.id]))
  {
    var after := Apply(jobs, op);
    assert after[op.id].state.Active() && after[op.id].spec == jobs[op.id].spec;
    assert forall other | other in jobs && other != op.id :: after[other] == jobs[other];
  }

  // ----- what a caller gets -----

  /** The answer of a call that has just returned: an active job of the asked kb and key, whatever else went on. */
  ghost predicate AnswerIsActive(s: Sys, c: CallId) {
    c in s.calls && s.calls[c].stage.Returned? ==>
      var id, spec := s.calls[c].stage.id, s.calls[c].spec;
      && id in s.jobs && s.jobs[id].state.Active()
      && s.jobs[id].spec.kb == spec.kb && s.jobs[id].spec.dedupeKey == spec.dedupeKey
  }

  /** The step at which a call returns finds or creates an active job of its kb and key. */
  lemma ReturnsActiveJob(s: Sys, a: Action, c: CallId)
    requires Enabled(s, a) && (c in s.calls ==> !s.calls[c].stage.Returned?)
    ensures AnswerIsActive(Step(s, a), c)
  {
  }

  /** A caller sees the constraint violation exactly when its retried insert finds the key held. */
  lemma RaisesExactly(s: Sys, a: Action, c: CallId)
    requires Enabled(s, a) && c in s.calls && s.calls[c].stage != Raised
    ensures At(Step(s, a), c, Raised) <==> a.Retry? && a.c == c && Coalesces(s.jobs, s.calls[c].spec)
  {
  }

  // ----- whole runs -----

  ghost predicate Legal(s: Sys, actions: seq<Action>)
    decreases |actions|
  {
    actions != [] ==> Enabled(s, actions[0]) && Legal(Step(s, actions[0]), actions[1..])
  }

  ghost function Run(s: Sys, actions: seq<Action>): Sys
    requires Legal(s, actions)
    decreases |actions|
  {
    if actions == [] then s else Run(Step(s, actions[0]), actions[1..])
  }

  /** At some point of the run the call's retry finds an active job with its kb and key. */
  ghost predicate RetryFindsHolder(s: Sys, actions: seq<Action>, c: CallId)
    requires Legal(s, actions)
    decreases |actions|
  {
    actions != [] &&
      (  (actions[0].Retry? && actions[0].c == c && Coalesces(s.jobs, s.calls[c].spec))
      || RetryFindsHolder(Step(s, actions[0]), actions[1..], c))
  }

  lemma EndedCallsStayEnded(s: Sys, a: Action, c: CallId)
    requires Enabled(s, a) && At(s, c, Raised)
    ensures At(Step(s, a), c, Raised)
  {
  }

  lemma RaisedStays(s: Sys, actions: seq<Action>, c: CallId)
    requires Legal(s, actions) && At(s, c, Raised)
    ensures At(Run(s, actions), c, Raised)
    decreases |actions|
  {
    if actions != [] {
      EndedCallsStayEnded(s, actions[0], c);
      RaisedStays(Step(s, actions[0]), actions[1..], c);
    }
  }

  /** Over whole runs: a call ends with the violation if and only if its retry found the key held. */
  lemma {:induction false} CallsRaiseExactly(s: Sys, actions: seq<Action>, c: CallId)
    requires Legal(s, actions) && !At(s, c, Raised)
    ensures At(Run(s, actions), c, Raised) <==> RetryFindsHolder(s, actions, c)
    decreases |actions|
  {
    if actions != [] {
      if c in s.calls {
        RaisesExactly(s, actions[0], c);
      }
      var t := Step(s, actions[0]);
      if At(t, c, Raised) {
        RaisedStays(t, actions[1..], c);
      } else {
        CallsRaiseExactly(t, actions[1..], c);
      }
    }
  }

  /** In every interleaving at most one active job has a given kb and key. */
  lemma {:induction false} RunKeepsUnique(s: Sys, actions: seq<Action>)
    requires Unique(s.jobs) && Legal(s, actions)
    ensures Unique(Run(s, actions).jobs)
    decreases |actions|
  {
    if actions != [] {
      StepKeepsUnique(s, actions[0]);
      RunKeepsUnique(Step(s, actions[0]), actions[1..]);
    }
  }

  lemma StepKeepsJobs(s: Sys, a: Action, id: JobId)
    requires Enabled(s, a) && id in s.jobs
    ensures id in Step(s, a).jobs && Step(s, a).jobs[id].spec == s.jobs[id].spec
  {
    if a.Work? {
      StepAccounts(s.jobs, a.op, id);
    }
  }

  /** A returned id names a job of the asked kb and key for the rest of the run, though it need not stay active. */
  ghost predicate AnswerStands(s: Sys, c: CallId) {
    c in s.calls && s.calls[c].stage.Returned? ==>
      var id, spec := s.calls[c].stage.id, s.calls[c].spec;
      id in s.jobs && s.jobs[id].spec.kb == spec.kb && s.jobs[id].spec.dedupeKey == spec.dedupeKey
  }

  lemma StepKeepsAnswers(s: Sys, a: Action, c: CallId)
    requires Enabled(s, a) && AnswerStands(s, c)
    ensures AnswerStands(Step(s, a), c)
  {
    if c in s.calls && s.calls[c].stage.Returned? {
      StepKeepsJobs(s, a, s.calls[c].stage.id);
    } else {
      ReturnsActiveJob(s, a, c);
    }
  }

  lemma {:induction false} AnswersStandForever(s: Sys, actions: seq<Action>, c: CallId)
    requires Legal(s, actions) && AnswerStands(s, c)
    ensures AnswerStands(Run(s, actions), c)
    decreases |actions|
  {
    if actions != [] {
      StepKeepsAnswers(s, actions[0], c);
      AnswersStandForever(Step(s, actions[0]), actions[1..], c);
    }
  }

  /** Without interleaving the steps of a call add up to the repository's enqueue. */
  lemma AloneIsEnqueue(s: Sys, c: CallId, spec: Spec, found: Option<JobId>, freshId: JobId)
    requires c !in s.calls && freshId !in s.jobs && Finds(s.jobs, spec, found)
    ensures var begun := Step(s, Begin(c, spec));
            var looked := if spec.dedupeKey.Some? then Step(begun, LookUp(c, found)) else begun;
            var done := if At(looked, c, Inserting) then Step(looked, Insert(c, freshId)) else looked;
            && done.jobs == Apply(s.jobs, DoEnqueue(freshId, spec))
            && At(done, c, Returned(if found.Some? then found.value else freshId))
  {
    if found.Some? {
      assert Coalesces(s.jobs, spec);
    }
  }

  // ----- a call ends -----

  function StepsLeft(stage: Stage): nat {
    match stage
    case LookingUp => 4
    case Inserting => 3
    case FallingBack => 2
    case Retrying => 1
    case Returned(_) => 0
    case Raised => 0
  }

  predicate OwnStep(a: Action, c: CallId) {
    !a.Begin? && !a.Work? && a.c == c
  }

  function OwnSteps(actions: seq<Action>, c: CallId): nat {
    if actions == [] then 0 else (if OwnStep(actions[0], c) then 1 else 0) + OwnSteps(actions[1..], c)
  }

  /** Each database step of a call brings it closer to its end, and nobody else's step sets it back. */
  lemma StepsLeftFall(s: Sys, a: Action, c: CallId)
    requires Enabled(s, a) && c in s.calls
    ensures c in Step(s, a).calls
    ensures StepsLeft(Step(s, a).calls[c].stage) + (if OwnStep(a, c) then 1 else 0) <= StepsLeft(s.calls[c].stage)
  {
  }

  /**
   However the others interleave, a call takes at most four database steps, and one that took as
   many as it had left has ended.
   */
  lemma {:induction false} CallsEnd(s: Sys, actions: seq<Action>, c: CallId)
    requires Legal(s, actions) && c in s.calls
    ensures c in Run(s, actions).calls
    ensures OwnSteps(actions, c) + StepsLeft(Run(s, actions).calls[c].stage) <= StepsLeft(s.calls[c].stage) <= 4
    decreases |actions|
  {
    if actions != [] {
      StepsLeftFall(s, actions[0], c);
      CallsEnd(Step(s, actions[0]), actions[1..], c);
    }
  }

  // ----- the violation does reach a caller -----

  /** From here some interleaving makes the first caller see the constraint violation. */
  ghost predicate CanRaise(s: Sys) {
    exists actions :: Legal(s, actions) && At(Run(s, actions), 0, Raised)
  }

  lemma CanRaiseBefore(s: Sys, a: Action)
    requires Enabled(s, a) && CanRaise(Step(s, a))
    ensures CanRaise(s)
  {
    var rest :| Legal(Step(s, a), rest) && At(Run(Step(s, a), rest), 0, Raised);
    assert ([a] + rest)[1..] == rest;
    assert Legal(s, [a] + rest) && At(Run(s, [a] + rest), 0, Raised);
  }

  /** Two callers have looked the key up and found nothing. */
  function BothInserting(spec: Spec): Sys {
    Sys(map[], map[0 := Call(spec, Inserting), 1 := Call(spec, Inserting)])
  }

  /** The second caller's job is in, the first caller's insert was refused. */
  function Refused(spec: Spec): Sys {
    Sys(map["x" := NewJob(spec)], map[0 := Call(spec, FallingBack), 1 := Call(spec, Returned("x"))])
  }

  /** That job has finished, and the first caller has found no active one. */
  function KeyFree(spec: Spec): Sys {
    Sys(map["x" := Finished(spec)], map[0 := Call(spec, Retrying), 1 := Call(spec, Returned("x"))])
  }

  function Finished(spec: Spec): Job {
    Complete(JobQueue.Claim(NewJob(spec), "worker", 0), 0, 1)
  }

  lemma BothLookUp(spec: Spec)
    requires spec.dedupeKey.Some? && CanRaise(BothInserting(spec))
    ensures CanRaise(EMPTY)
  {
    var s1 := Step(EMPTY, Begin(0, spec));
    var s2 := Step(s1, Begin(1, spec));
    var s3 := Step(s2, LookUp(0, None));
    var s4 := Step(s3, LookUp(1, None));
    assert s4 == BothInserting(spec);
    CanRaiseBefore(s3, LookUp(1, None));
    CanRaiseBefore(s2, LookUp(0, None));
    CanRaiseBefore(s1, Begin(1, spec));
    CanRaiseBefore(EMPTY, Begin(0, spec));
  }

  lemma OneInserts(spec: Spec)
    requires spec.dedupeKey.Some? && CanRaise(Refused(spec))
    ensures CanRaise(BothInserting(spec))
  {
    var s := BothInserting(spec);
    var s1 := Step(s, Insert(1, "x"));
    assert Holds(s1.jobs, "x", spec.kb, spec.dedupeKey.value);
    var s2 := Step(s1, Insert(0, "y"));
    assert s2 == Refused(spec);
    CanRaiseBefore(s1, Insert(0, "y"));
    CanRaiseBefore(s, Insert(1, "x"));
  }

  /** The key is free again, but the first caller has not looked. */
  function WorkDone(spec: Spec): Sys {
    Refused(spec).(jobs := map["x" := Finished(spec)])
  }

  lemma LoserLooksAgain(spec: Spec)
    requires spec.dedupeKey.Some? && CanRaise(KeyFree(spec))
    ensures CanRaise(WorkDone(spec))
  {
    var s := WorkDone(spec);
    assert Step(s, FallBack(0, None)) == KeyFree(spec);
    CanRaiseBefore(s, FallBack(0, None));
  }

  lemma WinnerFinishes(spec: Spec)
    requires spec.dedupeKey.Some? && CanRaise(WorkDone(spec))
    ensures CanRaise(Refused(spec))
  {
    var s := Refused(spec);
    var claim, complete := DoClaim(Some("x"), "worker", 0), DoComplete("x", 0, 1);
    assert IsNext(s.jobs, "x");
    var s1 := Step(s, Work(claim));
    assert s1.jobs == map["x" := JobQueue.Claim(NewJob(spec), "worker", 0)];
    assert Step(s1, Work(complete)) == WorkDone(spec);
    CanRaiseBefore(s1, Work(complete));
    CanRaiseBefore(s, Work(claim));
  }

  lemma ThirdCallerWins(spec: Spec)
    requires spec.dedupeKey.Some?
    ensures CanRaise(KeyFree(spec))
  {
    var s := KeyFree(spec);
    var s1 := Step(s, Begin(2, spec));
    var s2 := Step(s1, LookUp(2, None));
    var s3 := Step(s2, Insert(2, "z"));
    assert Holds(s3.jobs, "z", spec.kb, spec.dedupeKey.value);
    var s4 := Step(s3, Retry(0, "w"));
    assert Legal(s4, []) && At(Run(s4, []), 0, Raised);
    CanRaiseBefore(s3, Retry(0, "w"));
    CanRaiseBefore(s2, Insert(2, "z"));
    CanRaiseBefore(s1, LookUp(2, None));
    CanRaiseBefore(s, Begin(2, spec));
  }

  /**
   Two callers race, the winner's job finishes, and a third caller takes the key before the
   loser retries: the retry is refused and nothing catches it.
   */
  lemma RaiseIsReachable(spec: Spec)
    requires spec.dedupeKey.Some?
    ensures CanRaise(EMPTY)
  {
    ThirdCallerWins(spec);
    LoserLooksAgain(spec);
    WinnerFinishes(spec);
    OneInserts(spec);
    BothLookUp(spec);
  }
}
