/**
 Deleting a document while its knowledge base is promoted, rolled back and repaired: the sweep goes
 by the names in the alias's record, the readers by the alias.
 */
module Deletion {
  import opened Options
  import AliasSwap
  import Tombstones

  type Point = Tombstones.Point

  /** What the deletion read in the record; the target only records where the alias pointed at that moment. */
  datatype Names = Names(live: Option<string>, previous: Option<string>, target: Option<string>)

  /** The tombstone is committed; the record is read; its collections are swept one after the other. */
  datatype Stage =
    | Logged
    | Looked(names: Names)
    | LiveSwept(names: Names)
    | Done(names: Names, previousSwept: bool)
    | Failed(names: Names)

  datatype Sys = Sys(alias: AliasSwap.Sys, contents: map<string, set<Point>>, stage: Stage)

  /** A sweep of the live collection that fails ends the deletion; one of the previous collection is passed over. */
  datatype Action =
    | Swap(event: AliasSwap.Event)
    | Look
    | SweepLive(ok: bool)
    | SweepPrevious(ok: bool)

  predicate Enabled(env: AliasSwap.Env, s: Sys, a: Action) {
    match a
    case Swap(e) => AliasSwap.Enabled(env, e)
    case Look => s.stage.Logged?
    case SweepLive(_) => s.stage.Looked?
    case SweepPrevious(_) => s.stage.LiveSwept?
  }

  function NamesIn(alias: AliasSwap.Sys): Names {
    if alias.row.None? then Names(None, None, alias.target)
    else Names(alias.row.value.collection, alias.row.value.previous, alias.target)
  }

  /** A collection that does not exist is left out. */
  function Sweep(contents: map<string, set<Point>>, c: Option<string>, document: string): map<string, set<Point>> {
    if c.Some? && c.value in contents then
      contents[c.value := Tombstones.Without(contents[c.value], {document})]
    else contents
  }

  function Step(env: AliasSwap.Env, document: string, s: Sys, a: Action): Sys
    requires Enabled(env, s, a)
  {
    match a
    case Swap(e) => s.(alias := AliasSwap.Apply(env, s.alias, e))
    case Look => s.(stage := Looked(NamesIn(s.alias)))
    case SweepLive(ok) =>
      var names := s.stage.names;
      if ok then Sys(s.alias, Sweep(s.contents, names.live, document), LiveSwept(names))
      else s.(stage := Failed(names))
    case SweepPrevious(ok) =>
      var names := s.stage.names;
      Sys(s.alias, if ok then Sweep(s.contents, names.previous, document) else s.contents, Done(names, ok))
  }

  // ----- runs -----

  ghost predicate Legal(env: AliasSwap.Env, document: string, s: Sys, actions: seq<Action>)
    decreases |actions|
  {
    actions != [] ==>
      && Enabled(env, s, actions[0])
      && Legal(env, document, Step(env, document, s, actions[0]), actions[1..])
  }

  ghost function Run(env: AliasSwap.Env, document: string, s: Sys, actions: seq<Action>): Sys
    requires Legal(env, document, s, actions)
    decreases |actions|
  {
    if actions == [] then s else Run(env, document, Step(env, document, s, actions[0]), actions[1..])
  }

  // ----- what has been swept -----

  predicate Swept(stage: Stage, c: string) {
    match stage
    case Logged => false
    case Looked(_) => false
    case LiveSwept(names) => names.live == Some(c)
    case Done(names, previousSwept) => names.live == Some(c) || (previousSwept && names.previous == Some(c))
    case Failed(_) => false
  }

  /** Exactly the swept collections have lost exactly the document. */
  ghost predicate SweptExactly(was: map<string, set<Point>>, s: Sys, document: string) {
    && s.contents.Keys == was.Keys
    && forall c | c in was ::
         s.contents[c] == if Swept(s.stage, c) then Tombstones.Without(was[c], {document}) else was[c]
  }

  lemma StepSweepsExactly(env: AliasSwap.Env, document: string, was: map<string, set<Point>>, s: Sys, a: Action)
    requires Enabled(env, s, a) && SweptExactly(was, s, document)
    ensures SweptExactly(was, Step(env, document, s, a), document)
  {
    forall points: set<Point>
      ensures Tombstones.Without(Tombstones.Without(points, {document}), {document})
           == Tombstones.Without(points, {document})
    {
    }
  }

  lemma {:induction false} RunSweepsExactly(env: AliasSwap.Env, document: string, was: map<string, set<Point>>,
                                            s: Sys, actions: seq<Action>)
    requires Legal(env, document, s, actions) && SweptExactly(was, s, document)
    ensures SweptExactly(was, Run(env, document, s, actions), document)
    decreases |actions|
  {
    if actions != [] {
      StepSweepsExactly(env, document, was, s, actions[0]);
      RunSweepsExactly(env, document, was, Step(env, document, s, actions[0]), actions[1..]);
    }
  }

  predicate Gone(points: set<Point>, document: string) {
    forall p | p in points :: p.document != document
  }

  /**
   In every interleaving: a completed deletion leaves no point of the document in the collection the
   alias serves if and only if the record, when it was read, named that collection as live, or as
   previous and that sweep did not fail, or the collection never held the document.
   */
  lemma ServedIsCleanExactly(env: AliasSwap.Env, document: string, s: Sys, actions: seq<Action>, c: string)
    requires s.stage.Logged? && Legal(env, document, s, actions) && c in s.contents
    requires var t := Run(env, document, s, actions); t.stage.Done? && t.alias.target == Some(c)
    ensures var t := Run(env, document, s, actions);
            var names := t.stage.names;
            && c in t.contents
            && (Gone(t.contents[c], document) <==>
                  || names.live == Some(c)
                  || (names.previous == Some(c) && t.stage.previousSwept)
                  || Gone(s.contents[c], document))
  {
    RunSweepsExactly(env, document, s.contents, s, actions);
  }

  // ----- when the record names the target -----

  /** The record names the collection the alias serves, as live or as previous. */
  predicate NamesTarget(s: AliasSwap.Sys) {
    s.row.Some? && (s.row.value.collection == s.target || s.row.value.previous == s.target)
  }

  /**
   The one operation that takes the served collection out of the record: it retargets the alias to
   another collection than the record names, and the record is not repaired.
   */
  predicate LeavesRecordBehind(env: AliasSwap.Env, s: AliasSwap.Sys, last: Option<string>, e: AliasSwap.Event) {
    e.PromoteCrashed? &&
    var shadow := env.Name(e.build);
    && Some(shadow) != s.target && Some(shadow) != last
    && (s.row.None? || env.ReadBack(shadow, e.read).None?)
  }

  /**
   After one operation on a record in step, the record names the alias's target unless a promotion was
   interrupted and not repaired. An interrupted rollback is harmless: its target is the previous
   collection, which is swept as well.
   */
  lemma NamesTargetExactly(env: AliasSwap.Env, s: AliasSwap.Sys, last: Option<string>, e: AliasSwap.Event)
    requires AliasSwap.Settled(env, s, last) && AliasSwap.Enabled(env, e)
    requires AliasSwap.Apply(env, s, e).target.Some?
    ensures NamesTarget(AliasSwap.Apply(env, s, e)) <==> !LeavesRecordBehind(env, s, last, e)
  {
  }

  /** A deletion nobody interferes with. */
  const UNDISTURBED := [Look, SweepLive(true), SweepPrevious(true)]

  lemma UndisturbedIsExact(env: AliasSwap.Env, document: string, s: Sys, c: string)
    requires s.stage.Logged? && s.alias.target == Some(c) && c in s.contents
    ensures Legal(env, document, s, UNDISTURBED)
    ensures var t := Run(env, document, s, UNDISTURBED);
            && t.stage.Done? && t.alias == s.alias && c in t.contents
            && (Gone(t.contents[c], document) <==> NamesTarget(s.alias) || Gone(s.contents[c], document))
  {
    var s1 := Step(env, document, s, Look);
    var s2 := Step(env, document, s1, SweepLive(true));
    var s3 := Step(env, document, s2, SweepPrevious(true));
    assert UNDISTURBED[1..] == [SweepLive(true), SweepPrevious(true)];
    assert UNDISTURBED[1..][1..] == [SweepPrevious(true)] && [SweepPrevious(true)][1..] == [];
    assert Legal(env, document, s3, []) && Run(env, document, s3, []) == s3;
    assert Legal(env, document, s2, [SweepPrevious(true)]) && Run(env, document, s2, [SweepPrevious(true)]) == s3;
    assert Legal(env, document, s1, UNDISTURBED[1..]) && Run(env, document, s1, UNDISTURBED[1..]) == s3;
    ServedIsCleanExactly(env, document, s, UNDISTURBED, c);
  }

  /**
   After any run on the alias, however it crashed: a deletion nobody interferes with reaches the served
   collection if and only if the record names it, or the collection never held the document.
   */
  lemma DeletionAfterRunExactly(env: AliasSwap.Env, events: seq<AliasSwap.Event>, document: string,
                                contents: map<string, set<Point>>, c: string)
    requires AliasSwap.AllEnabled(env, events) && c in contents
    requires AliasSwap.Run(env, AliasSwap.FRESH, events).target == Some(c)
    ensures var alias := AliasSwap.Run(env, AliasSwap.FRESH, events);
            var s := Sys(alias, contents, Logged);
            && Legal(env, document, s, UNDISTURBED)
            && c in Run(env, document, s, UNDISTURBED).contents
            && (Gone(Run(env, document, s, UNDISTURBED).contents[c], document)
                <==> NamesTarget(alias) || Gone(contents[c], document))
  {
    UndisturbedIsExact(env, document, Sys(AliasSwap.Run(env, AliasSwap.FRESH, events), contents, Logged), c);
  }

  /** So in the window of an operation, it does exactly when that operation did not leave the record behind. */
  lemma DeletionInWindowExactly(env: AliasSwap.Env, s: AliasSwap.Sys, last: Option<string>, e: AliasSwap.Event,
                                document: string, contents: map<string, set<Point>>, c: string)
    requires AliasSwap.Settled(env, s, last) && AliasSwap.Enabled(env, e)
    requires AliasSwap.Apply(env, s, e).target == Some(c) && c in contents && !Gone(contents[c], document)
    ensures var u := Sys(AliasSwap.Apply(env, s, e), contents, Logged);
            && Legal(env, document, u, UNDISTURBED)
            && c in Run(env, document, u, UNDISTURBED).contents
            && (Gone(Run(env, document, u, UNDISTURBED).contents[c], document)
                <==> !LeavesRecordBehind(env, s, last, e))
  {
    NamesTargetExactly(env, s, last, e);
    UndisturbedIsExact(env, document, Sys(AliasSwap.Apply(env, s, e), contents, Logged), c);
  }

  // ----- runs in which the record stays in step -----

  /** The operations on the alias among the actions. */
  function Swaps(actions: seq<Action>): seq<AliasSwap.Event> {
    if actions == [] then []
    else (if actions[0].Swap? then [actions[0].event] else []) + Swaps(actions[1..])
  }

  lemma {:induction false} SwapsAreEnabled(env: AliasSwap.Env, document: string, s: Sys, actions: seq<Action>)
    requires Legal(env, document, s, actions)
    ensures AliasSwap.AllEnabled(env, Swaps(actions))
    decreases |actions|
  {
    if actions != [] {
      SwapsAreEnabled(env, document, Step(env, document, s, actions[0]), actions[1..]);
    }
  }

  /** The record named the alias's target as live when the deletion read it. */
  predicate LookedInStep(stage: Stage) {
    !stage.Logged? ==> stage.names.live == stage.names.target
  }

  lemma {:induction false} LooksInStep(env: AliasSwap.Env, document: string, s: Sys, actions: seq<Action>,
                                       last: Option<string>)
    requires Legal(env, document, s, actions) && AliasSwap.AllEnabled(env, Swaps(actions))
    requires AliasSwap.Settled(env, s.alias, last) && LookedInStep(s.stage)
    requires s.alias.row.Some? || AliasSwap.FirstPromotionCompletes(Swaps(actions))
    requires AliasSwap.RepairsInformed(env, s.alias, Swaps(actions))
    ensures LookedInStep(Run(env, document, s, actions).stage)
    decreases |actions|
  {
    if actions != [] {
      var a, t := actions[0], Step(env, document, s, actions[0]);
      if a.Swap? {
        assert Swaps(actions)[0] == a.event && Swaps(actions)[1..] == Swaps(actions[1..]);
        AliasSwap.StepKeepsMirror(env, s.alias, a.event, last);
        AliasSwap.RecordAppears(env, s.alias, a.event);
        LooksInStep(env, document, t, actions[1..], AliasSwap.LastTarget(env, s.alias, a.event, last));
      } else {
        assert Swaps(actions) == Swaps(actions[1..]);
        LooksInStep(env, document, t, actions[1..], last);
      }
    }
  }

  /**
   In every run whose record stays in step with the alias, a deletion that completes while the alias
   stands where it stood when the record was read leaves no point of the document in service.
   */
  lemma DeletionReachesServed(env: AliasSwap.Env, document: string, contents: map<string, set<Point>>,
                              actions: seq<Action>, c: string)
    requires Legal(env, document, Sys(AliasSwap.FRESH, contents, Logged), actions)
    requires AliasSwap.AllEnabled(env, Swaps(actions)) && AliasSwap.FirstPromotionCompletes(Swaps(actions))
    requires AliasSwap.RepairsInformed(env, AliasSwap.FRESH, Swaps(actions))
    requires var t := Run(env, document, Sys(AliasSwap.FRESH, contents, Logged), actions);
             t.stage.Done? && t.alias.target == Some(c) && t.stage.names.target == Some(c)
    ensures var t := Run(env, document, Sys(AliasSwap.FRESH, contents, Logged), actions);
            c in t.contents ==> Gone(t.contents[c], document)
  {
    var s := Sys(AliasSwap.FRESH, contents, Logged);
    LooksInStep(env, document, s, actions, None);
    RunSweepsExactly(env, document, contents, s, actions);
    if c in contents {
      ServedIsCleanExactly(env, document, s, actions, c);
    }
  }
}
