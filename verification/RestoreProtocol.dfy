/**
 Restoring snapshots while documents are deleted, collections are promoted and the restoring
 process may crash: which promoted collections can still hold a deleted document.
 */
module RestoreProtocol {
  import opened Options
  import opened Tombstones

  /**
   A collection; the last three only record history: whether its marker was ever set, how much of
   the log there was when its replay list was read, and which documents the replay deleted.
   */
  datatype Collection = Collection(
    points: set<Point>,
    marked: bool,
    guarded: bool,
    readAt: Option<nat>,
    worked: set<string>)

  /** A running restore: marker set, list read, each entry deleted and then acknowledged, rows committed. */
  datatype Restore =
    | Restored
    | Marked
    | Replaying(list: seq<Entry>, next: nat, deleted: bool, failed: bool)
    | Committed

  /** One knowledge base; `trigger` says whether the store refuses updates of the log. */
  datatype Sys = Sys(
    kb: string,
    trigger: bool,
    log: seq<Entry>,
    replays: Replays,
    collections: map<string, Collection>,
    restores: map<string, Restore>,
    live: Option<string>,
    previous: Option<string>)

  datatype Action =
    | Tombstone(entry: Entry)
    | RecordPurge(i: nat, snapshots: seq<string>)
    | Sweep(c: string, document: string)
    | RestoreSnapshot(c: string, points: set<Point>)
    | SetMarker(c: string)
    | ReadList(c: string, list: seq<Entry>)
    | DeleteNext(c: string)
    | MarkNext(c: string)
    | EntryFails(c: string)
    | Commit(c: string, now: int)
    | Clear(c: string)
    | Crash(c: string)
    | Promote(c: string)
    | PromoteUnread(c: string)

  predicate Restoring(s: Sys, c: string) {
    c in s.restores && c in s.collections
  }

  predicate ReplayingNext(s: Sys, c: string) {
    Restoring(s, c) && s.restores[c].Replaying? && s.restores[c].next < |s.restores[c].list|
  }

  predicate InService(s: Sys, c: string) {
    s.live == Some(c) || s.previous == Some(c)
  }

  /**
   A snapshot is never restored over an existing collection. A promotion that can read the
   marker stops at a marked collection; one whose read of the metadata fails goes on.
   */
  ghost predicate Enabled(s: Sys, a: Action) {
    match a
    case Tombstone(_) => true
    case RecordPurge(i, snapshots) =>
      i < |s.log| && s.log[i].kind == "purge" && s.log[i].snapshotsDestroyed.None? && snapshots != []
    case Sweep(c, _) => c in s.collections && InService(s, c)
    case RestoreSnapshot(c, _) => c !in s.collections
    case SetMarker(c) => Restoring(s, c) && s.restores[c].Restored?
    case ReadList(c, list) =>
      Restoring(s, c) && s.restores[c].Marked? && IsUnreplayed(list, s.log, s.replays, s.kb, c)
    case DeleteNext(c) => ReplayingNext(s, c) && !s.restores[c].deleted
    case MarkNext(c) => ReplayingNext(s, c) && s.restores[c].deleted
    case EntryFails(c) => ReplayingNext(s, c)
    case Commit(c, _) =>
      && Restoring(s, c) && s.restores[c].Replaying?
      && s.restores[c].next == |s.restores[c].list| && !s.restores[c].failed
    case Clear(c) => Restoring(s, c) && s.restores[c].Committed?
    case Crash(c) => Restoring(s, c)
    case Promote(c) => c in s.collections && !s.collections[c].marked && s.live != Some(c)
    case PromoteUnread(c) => c in s.collections && s.live != Some(c)
  }

  function Put(s: Sys, c: string, coll: Collection): Sys {
    s.(collections := s.collections[c := coll])
  }

  function Go(s: Sys, c: string, r: Restore): Sys {
    s.(restores := s.restores[c := r])
  }

  ghost function Step(s: Sys, a: Action): Sys
    requires Enabled(s, a)
  {
    match a
    case Tombstone(entry) => s.(log := s.log + [entry])
    case RecordPurge(i, snapshots) => s.(log := Recorded(s.log, i, snapshots, s.trigger))
    case Sweep(c, document) => Put(s, c, s.collections[c].(points := Without(s.collections[c].points, {document})))
    case RestoreSnapshot(c, points) => Go(Put(s, c, Collection(points, false, false, None, {})), c, Restored)
    case SetMarker(c) => Go(Put(s, c, s.collections[c].(marked := true, guarded := true)), c, Marked)
    case ReadList(c, list) =>
      Go(Put(s, c, s.collections[c].(readAt := Some(|s.log|))), c, Replaying(list, 0, false, false))
    case DeleteNext(c) =>
      var r, coll := s.restores[c], s.collections[c];
      var d := {r.list[r.next].document};
      Go(Put(s, c, coll.(points := Without(coll.points, d), worked := coll.worked + d)), c, r.(deleted := true))
    case MarkNext(c) => Go(s, c, s.restores[c].(next := s.restores[c].next + 1, deleted := false))
    case EntryFails(c) =>
      Go(s, c, s.restores[c].(next := s.restores[c].next + 1, deleted := false, failed := true))
    case Commit(c, now) => Go(s, c, Committed).(replays := MarkAll(s.replays, s.restores[c].list, c, now))
    case Clear(c) => Put(s, c, s.collections[c].(marked := false)).(restores := s.restores - {c})
    case Crash(c) => s.(restores := s.restores - {c})
    case Promote(c) => s.(previous := s.live, live := Some(c))
    case PromoteUnread(c) => s.(previous := s.live, live := Some(c))
  }

  // ----- safety -----

  predicate Gone(coll: Collection, document: string) {
    forall p | p in coll.points :: p.document != document
  }

  /** None of the documents that the first n entries tombstone is in the collection. */
  predicate CleanUpTo(s: Sys, coll: Collection, n: nat) {
    forall i | 0 <= i < n && i < |s.log| && s.log[i].kb == s.kb :: Gone(coll, s.log[i].document)
  }

  /** The number of list entries whose documents have been deleted. */
  function Progress(r: Restore): nat
    requires r.Replaying?
  {
    r.next + (if r.deleted then 1 else 0)
  }

  /** What a restore in progress has achieved so far. */
  predicate OnTrack(s: Sys, c: string) {
    Restoring(s, c) &&
    var coll, r := s.collections[c], s.restores[c];
    match r
    case Restored => !coll.guarded && !coll.marked
    case Marked => coll.guarded && coll.marked
    case Replaying(list, next, deleted, failed) =>
      && coll.guarded && coll.marked && Progress(r) <= |list|
      && coll.readAt.Some? && coll.readAt.value <= |s.log|
      && (forall i | 0 <= i < coll.readAt.value && s.log[i].kb == s.kb :: s.log[i].document in Documents(list))
      && (!failed ==> forall k | 0 <= k < Progress(r) :: Gone(coll, list[k].document))
    case Committed =>
      && coll.guarded && coll.marked
      && coll.readAt.Some? && coll.readAt.value <= |s.log| && CleanUpTo(s, coll, coll.readAt.value)
  }

  /** A collection whose marker was set and is now clear has had its whole list applied. */
  predicate CollectionSafe(s: Sys, c: string) {
    c in s.collections &&
    var coll := s.collections[c];
    && (coll.marked ==> coll.guarded)
    && (coll.guarded && !coll.marked ==>
          coll.readAt.Some? && coll.readAt.value <= |s.log| && CleanUpTo(s, coll, coll.readAt.value))
  }

  /** Replay rows name existing collections, and a restore that has not committed has none. */
  predicate RowsAreCommitted(s: Sys) {
    forall row | row in s.replays ::
      row.collection in s.collections && (row.collection in s.restores ==> s.restores[row.collection].Committed?)
  }

  predicate Safe(s: Sys) {
    && RowsAreCommitted(s)
    && (forall c | c in s.restores :: OnTrack(s, c))
    && (forall c | c in s.collections :: CollectionSafe(s, c))
  }

  /** Deleting points and appending tombstones only helps what has been achieved. */
  lemma FewerPointsStaySafe(s: Sys, t: Sys, c: string)
    requires c in s.collections && c in t.collections
    requires Extends(s.log, t.log) && s.kb == t.kb
    requires t.collections[c].points <= s.collections[c].points
    requires t.collections[c] == s.collections[c].(points := t.collections[c].points)
    ensures CollectionSafe(s, c) ==> CollectionSafe(t, c)
    ensures c in s.restores && c in t.restores && s.restores[c] == t.restores[c] && OnTrack(s, c) ==> OnTrack(t, c)
  {
    assert forall d: string :: Gone(s.collections[c], d) ==> Gone(t.collections[c], d);
  }

  /** A new entry, and an update of which snapshots a purge destroyed, change no collection. */
  lemma LogStepKeepsSafe(s: Sys, a: Action)
    requires Safe(s) && (a.Tombstone? || a.RecordPurge?) && Enabled(s, a)
    ensures Safe(Step(s, a))
  {
    var t := Step(s, a);
    forall c | c in s.collections
      ensures CollectionSafe(t, c) && (c in s.restores ==> OnTrack(t, c))
    {
      FewerPointsStaySafe(s, t, c);
    }
  }

  /** An action on one collection leaves the others alone, so only that one has to be looked at. */
  lemma OnlyThisCollection(s: Sys, t: Sys, c: string)
    requires Safe(s) && t.log == s.log && t.kb == s.kb && c in t.collections && RowsAreCommitted(t)
    requires forall d | d != c :: d in t.collections <==> d in s.collections
    requires forall d | d != c && d in t.collections :: t.collections[d] == s.collections[d]
    requires forall d | d != c :: d in t.restores <==> d in s.restores
    requires forall d | d != c && d in t.restores :: t.restores[d] == s.restores[d]
    requires CollectionSafe(t, c) && (c in t.restores ==> OnTrack(t, c))
    ensures Safe(t)
  {
    forall d | d != c && d in s.collections
      ensures CollectionSafe(t, d) && (d in s.restores ==> OnTrack(t, d))
    {
      assert CollectionSafe(s, d);
      assert d in s.restores ==> OnTrack(s, d);
      FewerPointsStaySafe(s, t, d);
    }
  }

  lemma SweepKeepsSafe(s: Sys, a: Action)
    requires Safe(s) && a.Sweep? && Enabled(s, a)
    ensures Safe(Step(s, a))
  {
    var t := Step(s, a);
    assert CollectionSafe(s, a.c);
    FewerPointsStaySafe(s, t, a.c);
    OnlyThisCollection(s, t, a.c);
  }

  lemma StartKeepsSafe(s: Sys, a: Action)
    requires Safe(s) && (a.RestoreSnapshot? || a.SetMarker?) && Enabled(s, a)
    ensures Safe(Step(s, a))
  {
    OnlyThisCollection(s, Step(s, a), a.c);
  }

  lemma ReadKeepsSafe(s: Sys, a: Action)
    requires Safe(s) && a.ReadList? && Enabled(s, a)
    ensures Safe(Step(s, a))
  {
    var t := Step(s, a);
    assert OnTrack(s, a.c);
    forall i | 0 <= i < |s.log| && s.log[i].kb == s.kb
      ensures s.log[i].document in Documents(a.list)
    {
      assert IsPending(s.log[i], s.replays, s.kb, a.c);
      assert s.log[i] in a.list;
    }
    OnlyThisCollection(s, t, a.c);
  }

  lemma EntryKeepsSafe(s: Sys, a: Action)
    requires Safe(s) && (a.DeleteNext? || a.MarkNext? || a.EntryFails?) && Enabled(s, a)
    ensures Safe(Step(s, a))
  {
    var t := Step(s, a);
    assert OnTrack(s, a.c) && CollectionSafe(s, a.c);
    assert forall d: string :: Gone(s.collections[a.c], d) ==> Gone(t.collections[a.c], d);
    OnlyThisCollection(s, t, a.c);
  }

  lemma CommitKeepsSafe(s: Sys, a: Action)
    requires Safe(s) && a.Commit? && Enabled(s, a)
    ensures Safe(Step(s, a))
  {
    var t := Step(s, a);
    assert OnTrack(s, a.c);
    var list := s.restores[a.c].list;
    forall row | row in t.replays
      ensures row.collection in t.collections
      ensures row.collection in t.restores ==> t.restores[row.collection].Committed?
    {
      MarkAllRows(s.replays, list, a.c, a.now, row);
    }
    forall i | 0 <= i < s.collections[a.c].readAt.value && s.log[i].kb == s.kb
      ensures Gone(t.collections[a.c], s.log[i].document)
    {
      var k :| 0 <= k < |list| && list[k].document == s.log[i].document;
    }
    OnlyThisCollection(s, t, a.c);
  }

  lemma EndKeepsSafe(s: Sys, a: Action)
    requires Safe(s) && (a.Clear? || a.Crash? || a.Promote? || a.PromoteUnread?) && Enabled(s, a)
    ensures Safe(Step(s, a))
  {
    assert CollectionSafe(s, a.c);
    assert a.c in s.restores ==> OnTrack(s, a.c);
    OnlyThisCollection(s, Step(s, a), a.c);
  }

  lemma StepKeepsSafe(s: Sys, a: Action)
    requires Safe(s) && Enabled(s, a)
    ensures Safe(Step(s, a))
  {
    match a
    case Tombstone(_) => LogStepKeepsSafe(s, a);
    case RecordPurge(_, _) => LogStepKeepsSafe(s, a);
    case Sweep(_, _) => SweepKeepsSafe(s, a);
    case RestoreSnapshot(_, _) => StartKeepsSafe(s, a);
    case SetMarker(_) => StartKeepsSafe(s, a);
    case ReadList(_, _) => ReadKeepsSafe(s, a);
    case DeleteNext(_) => EntryKeepsSafe(s, a);
    case MarkNext(_) => EntryKeepsSafe(s, a);
    case EntryFails(_) => EntryKeepsSafe(s, a);
    case Commit(_, _) => CommitKeepsSafe(s, a);
    case Clear(_) => EndKeepsSafe(s, a);
    case Crash(_) => EndKeepsSafe(s, a);
    case Promote(_) => EndKeepsSafe(s, a);
    case PromoteUnread(_) => EndKeepsSafe(s, a);
  }

  // ----- whole runs -----

  ghost predicate Legal(s: Sys, actions: seq<Action>)
    decreases |actions|
  {
    actions != [] ==> Enabled(s, actions[0]) && Legal(Step(s, actions[0]), actions[1..])
  }

  ghost function Run(s: Sys, actions: seq<Action>): Sys
    requires Legal(s, actions)
    decreases |actions|
  {
    if actions == [] then s else Run(Step(s, actions[0]), actions[1..])
  }

  /** Before any restore: whatever log and collections there are, no marker was ever set. */
  predicate NoRestoresYet(s: Sys) {
    && s.replays == map[] && s.restores == map[]
    && forall c | c in s.collections :: !s.collections[c].marked && !s.collections[c].guarded
  }

  lemma {:induction false} RunKeepsSafe(s: Sys, actions: seq<Action>)
    requires Safe(s) && Legal(s, actions)
    ensures Safe(Run(s, actions))
    decreases |actions|
  {
    if actions != [] {
      StepKeepsSafe(s, actions[0]);
      RunKeepsSafe(Step(s, actions[0]), actions[1..]);
    }
  }

  /**
   In every interleaving and through every crash, a collection whose marker was set passes a
   marker that can be read only with none of the documents that were tombstoned when its replay
   list was read.
   */
  lemma GuardedPromotionIsClean(s: Sys, actions: seq<Action>, c: string)
    requires NoRestoresYet(s) && Legal(s, actions)
    requires var t := Run(s, actions); Enabled(t, Promote(c)) && t.collections[c].guarded
    ensures var t := Run(s, actions);
            var coll := t.collections[c];
            coll.readAt.Some? && coll.readAt.value <= |t.log| && CleanUpTo(t, coll, coll.readAt.value)
  {
    RunKeepsSafe(s, actions);
    assert CollectionSafe(Run(s, actions), c);
  }

  // ----- the log -----

  /** Every step of the run leaves the log a prefix of the next one. */
  ghost predicate OnlyAppends(s: Sys, actions: seq<Action>)
    requires Legal(s, actions)
    decreases |actions|
  {
    actions != [] ==> s.log <= Step(s, actions[0]).log && OnlyAppends(Step(s, actions[0]), actions[1..])
  }

  lemma StepAppendsExactly(s: Sys, a: Action)
    requires Enabled(s, a)
    ensures s.log <= Step(s, a).log <==> s.trigger || !a.RecordPurge?
    ensures Extends(s.log, Step(s, a).log) && Step(s, a).trigger == s.trigger
  {
    if a.RecordPurge? && !s.trigger {
      assert Step(s, a).log[a.i] != s.log[a.i];
    }
  }

  /**
   The log grows only by appending if and only if the store has the trigger or no purge of the
   run gets to record a destroyed snapshot.
   */
  lemma {:induction false} AppendOnlyExactly(s: Sys, actions: seq<Action>)
    requires Legal(s, actions)
    ensures OnlyAppends(s, actions) <==> s.trigger || forall a | a in actions :: !a.RecordPurge?
    decreases |actions|
  {
    if actions != [] {
      StepAppendsExactly(s, actions[0]);
      AppendOnlyExactly(Step(s, actions[0]), actions[1..]);
      assert forall a :: a in actions <==> a == actions[0] || a in actions[1..];
    }
  }

  lemma ExtendsIsTransitive(a: seq<Entry>, b: seq<Entry>, c: seq<Entry>)
    requires Extends(a, b) && Extends(b, c)
    ensures Extends(a, c)
  {
    forall i | 0 <= i < |a|
      ensures c[i] == a[i].(snapshotsDestroyed := c[i].snapshotsDestroyed)
    {
      assert b[i] == a[i].(snapshotsDestroyed := b[i].snapshotsDestroyed);
    }
  }

  /** On any store no entry is ever removed, and nothing of it changes but which snapshots were destroyed. */
  lemma {:induction false} EntriesStand(s: Sys, actions: seq<Action>)
    requires Legal(s, actions)
    ensures Extends(s.log, Run(s, actions).log)
    decreases |actions|
  {
    if actions != [] {
      StepAppendsExactly(s, actions[0]);
      EntriesStand(Step(s, actions[0]), actions[1..]);
      ExtendsIsTransitive(s.log, Step(s, actions[0]).log, Run(s, actions).log);
    }
  }

  /** On a store without the trigger a purge that destroyed a snapshot rewrites its committed entry. */
  lemma PurgeRewritesItsEntry(s: Sys, e: Entry, snapshot: string)
    requires s.log == [e] && !s.trigger && e.kind == "purge" && e.snapshotsDestroyed == None
    ensures Enabled(s, RecordPurge(0, [snapshot]))
    ensures Step(s, RecordPurge(0, [snapshot])).log == [e.(snapshotsDestroyed := Some([snapshot]))] != s.log
  {
    var t := Step(s, RecordPurge(0, [snapshot]));
    assert t.log[0] != s.log[0];
  }
}
