/**
 Exactly what a restored collection holds at every moment before it serves, and so exactly when
 promoting it serves no tombstoned document, through every gap in the gate.
 */
module RestoreExact {
  import opened Options
  import opened Tombstones
  import opened RestoreProtocol

  /** The documents of this knowledge base that the first n entries tombstone. */
  function Doomed(s: Sys, n: nat): set<string> {
    set i | 0 <= i < n && i < |s.log| && s.log[i].kb == s.kb :: s.log[i].document
  }

  /** How the documents the replay deleted relate to those tombstoned when its list was read. */
  predicate WorkedThrough(s: Sys, c: string) {
    c in s.collections &&
    var coll := s.collections[c];
    && (coll.readAt.Some? ==> coll.readAt.value <= |s.log| && coll.worked <= Doomed(s, coll.readAt.value))
    && (coll.readAt.None? ==> coll.worked == {})
    && (c !in s.restores ==>
          && (!coll.guarded ==> coll.readAt.None?)
          && (coll.guarded && !coll.marked ==> coll.readAt.Some? && coll.worked == Doomed(s, coll.readAt.value)))
    && (c in s.restores ==>
          var r := s.restores[c];
          && (r.Restored? || r.Marked? ==> coll.readAt.None?)
          && (r.Replaying? ==>
                && coll.readAt.Some? && Documents(r.list) == Doomed(s, coll.readAt.value) && Progress(r) <= |r.list|
                && (!r.failed ==> coll.worked == Documents(r.list[..Progress(r)])))
          && (r.Committed? ==> coll.readAt.Some? && coll.worked == Doomed(s, coll.readAt.value)))
  }

  /** The collection is the snapshot without the documents the replay deleted. */
  predicate Exact(s: Sys, c: string, snapshot: set<Point>) {
    WorkedThrough(s, c) && s.collections[c].points == Without(snapshot, s.collections[c].worked)
  }

  lemma DoomedStays(s: Sys, t: Sys, n: nat)
    requires s.kb == t.kb && Extends(s.log, t.log) && n <= |s.log|
    ensures Doomed(s, n) == Doomed(t, n)
  {
    assert forall i | 0 <= i < n :: s.log[i].kb == t.log[i].kb && s.log[i].document == t.log[i].document;
  }

  lemma ListIsDoomed(s: Sys, c: string, list: seq<Entry>)
    requires forall row | row in s.replays :: row.collection != c
    requires IsUnreplayed(list, s.log, s.replays, s.kb, c)
    ensures Documents(list) == Doomed(s, |s.log|)
  {
    UnreplayedDocuments(list, s.log, s.replays, s.kb, c);
    assert forall i | 0 <= i < |s.log| :: IsPending(s.log[i], s.replays, s.kb, c) <==> s.log[i].kb == s.kb;
  }

  lemma LogStepKeepsExact(s: Sys, a: Action, c: string, snapshot: set<Point>)
    requires Exact(s, c, snapshot) && (a.Tombstone? || a.RecordPurge?) && Enabled(s, a)
    ensures Exact(Step(s, a), c, snapshot)
  {
    if s.collections[c].readAt.Some? {
      DoomedStays(s, Step(s, a), s.collections[c].readAt.value);
    }
  }

  lemma ReadKeepsExact(s: Sys, a: Action, snapshot: set<Point>)
    requires Safe(s) && a.ReadList? && Exact(s, a.c, snapshot) && Enabled(s, a)
    ensures Exact(Step(s, a), a.c, snapshot)
  {
    var t := Step(s, a);
    ListIsDoomed(s, a.c, a.list);
    DoomedStays(s, t, |s.log|);
    assert a.list[..0] == [];
  }

  lemma DeleteKeepsExact(s: Sys, a: Action, snapshot: set<Point>)
    requires a.DeleteNext? && Exact(s, a.c, snapshot) && Enabled(s, a)
    ensures Exact(Step(s, a), a.c, snapshot)
  {
    var t, r, coll := Step(s, a), s.restores[a.c], s.collections[a.c];
    var d := r.list[r.next].document;
    DoomedStays(s, t, coll.readAt.value);
    assert Without(Without(snapshot, coll.worked), {d}) == Without(snapshot, coll.worked + {d});
    assert d in Documents(r.list);
    assert r.list[..r.next + 1] == r.list[..r.next] + [r.list[r.next]];
    DocumentsSnoc(r.list[..r.next], r.list[r.next]);
  }

  lemma DocumentsSnoc(entries: seq<Entry>, e: Entry)
    ensures Documents(entries + [e]) == Documents(entries) + {e.document}
  {
    var more := entries + [e];
    assert more[|entries|] == e && forall i | 0 <= i < |entries| :: more[i] == entries[i];
  }

  lemma OtherOwnStepsKeepExact(s: Sys, a: Action, snapshot: set<Point>)
    requires Safe(s) && !a.Tombstone? && !a.RecordPurge? && !a.ReadList? && !a.DeleteNext? && !a.Sweep?
    requires Exact(s, a.c, snapshot) && Enabled(s, a)
    ensures Exact(Step(s, a), a.c, snapshot)
  {
    var t, coll := Step(s, a), s.collections[a.c];
    assert CollectionSafe(s, a.c) && (a.c in s.restores ==> OnTrack(s, a.c));
    if coll.readAt.Some? {
      DoomedStays(s, t, coll.readAt.value);
    }
    if a.Commit? {
      var list := s.restores[a.c].list;
      assert list[..|list|] == list;
    }
  }

  lemma OtherStepKeepsExact(s: Sys, a: Action, c: string, snapshot: set<Point>)
    requires Exact(s, c, snapshot) && Enabled(s, a) && !a.Tombstone? && !a.RecordPurge? && a.c != c
    ensures Exact(Step(s, a), c, snapshot)
  {
    var t := Step(s, a);
    assert t.collections[c] == s.collections[c] && t.log == s.log;
    if s.collections[c].readAt.Some? {
      DoomedStays(s, t, s.collections[c].readAt.value);
    }
  }

  /** As long as the collection is out of service, whatever happens around it. */
  lemma StepKeepsExact(s: Sys, a: Action, c: string, snapshot: set<Point>)
    requires Safe(s) && Exact(s, c, snapshot) && Enabled(s, a) && !InService(s, c)
    ensures Exact(Step(s, a), c, snapshot)
  {
    if a.Tombstone? || a.RecordPurge? {
      LogStepKeepsExact(s, a, c, snapshot);
    } else if a.c != c {
      OtherStepKeepsExact(s, a, c, snapshot);
    } else if a.ReadList? {
      ReadKeepsExact(s, a, snapshot);
    } else if a.DeleteNext? {
      DeleteKeepsExact(s, a, snapshot);
    } else {
      OtherOwnStepsKeepExact(s, a, snapshot);
    }
  }

  // ----- runs that begin with a restore -----

  ghost predicate OutOfServiceThroughout(s: Sys, actions: seq<Action>, c: string)
    requires Legal(s, actions)
    decreases |actions|
  {
    !InService(s, c) && (actions != [] ==> OutOfServiceThroughout(Step(s, actions[0]), actions[1..], c))
  }

  lemma {:induction false} RunKeepsExact(s: Sys, actions: seq<Action>, c: string, snapshot: set<Point>)
    requires Safe(s) && Exact(s, c, snapshot) && Legal(s, actions) && OutOfServiceThroughout(s, actions, c)
    ensures Exact(Run(s, actions), c, snapshot) && Safe(Run(s, actions)) && !InService(Run(s, actions), c)
    decreases |actions|
  {
    if actions != [] {
      StepKeepsSafe(s, actions[0]);
      StepKeepsExact(s, actions[0], c, snapshot);
      RunKeepsExact(Step(s, actions[0]), actions[1..], c, snapshot);
    }
  }

  /** Some run restores the snapshot into the collection and has not put it into service since. */
  ghost predicate RestoredBy(s: Sys, c: string, snapshot: set<Point>, actions: seq<Action>, t: Sys) {
    && Safe(s) && c !in s.collections && !InService(s, c)
    && Legal(Step(s, RestoreSnapshot(c, snapshot)), actions)
    && OutOfServiceThroughout(Step(s, RestoreSnapshot(c, snapshot)), actions, c)
    && t == Run(Step(s, RestoreSnapshot(c, snapshot)), actions)
  }

  /**
   Whatever the run: the collection is the snapshot without the documents the replay deleted, and
   these are all documents tombstoned when the list was read once the marker was cleared, none
   before the list was read, and only such documents in between, crashed or not.
   */
  lemma RestoreIsExact(s: Sys, c: string, snapshot: set<Point>, actions: seq<Action>, t: Sys)
    requires RestoredBy(s, c, snapshot, actions, t)
    ensures Exact(t, c, snapshot)
    ensures var coll := t.collections[c];
            && (coll.guarded && !coll.marked ==>
                  coll.readAt.Some? && coll.points == Without(snapshot, Doomed(t, coll.readAt.value)))
            && (!coll.guarded ==> coll.points == snapshot)
            && (coll.readAt.None? ==> coll.points == snapshot)
  {
    var started := Step(s, RestoreSnapshot(c, snapshot));
    StepKeepsSafe(s, RestoreSnapshot(c, snapshot));
    assert Without(snapshot, {}) == snapshot;
    RunKeepsExact(started, actions, c, snapshot);
    assert CollectionSafe(t, c) && (c in t.restores ==> OnTrack(t, c));
  }

  /** Whether the snapshot's doomed documents, up to an entry of the log, are all among those deleted. */
  predicate Covers(s: Sys, snapshot: set<Point>, n: nat, deleted: set<string>) {
    forall p | p in snapshot && p.document in Doomed(s, n) :: p.document in deleted
  }

  lemma CleanExactly(t: Sys, c: string, snapshot: set<Point>, deleted: set<string>, n: nat)
    requires c in t.collections && n <= |t.log| && t.collections[c].points == Without(snapshot, deleted)
    ensures CleanUpTo(t, t.collections[c], n) <==> Covers(t, snapshot, n, deleted)
  {
    var coll := t.collections[c];
    if CleanUpTo(t, coll, n) {
      forall p | p in snapshot && p.document in Doomed(t, n)
        ensures p.document in deleted
      {
        var i :| 0 <= i < n && t.log[i].kb == t.kb && t.log[i].document == p.document;
        assert Gone(coll, t.log[i].document);
        assert p !in coll.points;
      }
    } else {
      var i :| 0 <= i < n && t.log[i].kb == t.kb && !Gone(coll, t.log[i].document);
      var p :| p in coll.points && p.document == t.log[i].document;
      assert p in snapshot && p.document in Doomed(t, n) && p.document !in deleted;
    }
  }

  // ----- what a promotion would serve -----

  /**
   The whole log, marker read: after any run since the restore, a promotion that reads the marker
   and is let through serves no tombstoned document if and only if every tombstoned document of
   the snapshot was tombstoned when the replay list was read and the marker had been set.
   */
  lemma ReadPromotionIsCleanExactly(s: Sys, c: string, snapshot: set<Point>, actions: seq<Action>, t: Sys)
    requires RestoredBy(s, c, snapshot, actions, t) && Enabled(t, Promote(c))
    ensures var coll := t.collections[c];
            CleanUpTo(t, coll, |t.log|) <==>
              forall p | p in snapshot && p.document in Doomed(t, |t.log|) ::
                coll.guarded && coll.readAt.Some? && p.document in Doomed(t, coll.readAt.value)
  {
    RestoreIsExact(s, c, snapshot, actions, t);
    var coll := t.collections[c];
    CleanExactly(t, c, snapshot, coll.worked, |t.log|);
    assert Without(snapshot, {}) == snapshot;
    if !coll.guarded {
      CleanExactly(t, c, snapshot, {}, |t.log|);
    }
    if coll.guarded {
      CleanExactly(t, c, snapshot, Doomed(t, coll.readAt.value), |t.log|);
    }
  }

  /**
   The whole log, marker unread: a promotion whose read of the marker fails is possible at any
   moment and clean if and only if the replay has deleted every tombstoned document of the snapshot.
   */
  lemma UnreadPromotionIsCleanExactly(s: Sys, c: string, snapshot: set<Point>, actions: seq<Action>, t: Sys)
    requires RestoredBy(s, c, snapshot, actions, t)
    ensures Enabled(t, PromoteUnread(c))
    ensures CleanUpTo(t, t.collections[c], |t.log|)
       <==> Covers(t, snapshot, |t.log|, t.collections[c].worked)
  {
    RestoreIsExact(s, c, snapshot, actions, t);
    StaysOut(s, c, snapshot, actions, t);
    CleanExactly(t, c, snapshot, t.collections[c].worked, |t.log|);
  }

  lemma StaysOut(s: Sys, c: string, snapshot: set<Point>, actions: seq<Action>, t: Sys)
    requires RestoredBy(s, c, snapshot, actions, t)
    ensures !InService(t, c)
  {
    var started := Step(s, RestoreSnapshot(c, snapshot));
    StepKeepsSafe(s, RestoreSnapshot(c, snapshot));
    assert Without(snapshot, {}) == snapshot;
    RunKeepsExact(started, actions, c, snapshot);
  }

  /**
   Against the log as it was when the list was read, the gate holds if and only if the marker can
   be read as clear or the replay had already deleted what it had to.
   */
  lemma GateHoldsExactly(s: Sys, c: string, snapshot: set<Point>, actions: seq<Action>, t: Sys)
    requires RestoredBy(s, c, snapshot, actions, t) && c in t.collections && t.collections[c].readAt.Some?
    ensures var coll := t.collections[c];
            && coll.readAt.value <= |t.log|
            && (CleanUpTo(t, coll, coll.readAt.value) <==>
                  Enabled(t, Promote(c)) || Covers(t, snapshot, coll.readAt.value, coll.worked))
  {
    RestoreIsExact(s, c, snapshot, actions, t);
    StaysOut(s, c, snapshot, actions, t);
    RestoredIsSafe(s, c, snapshot, actions, t);
    assert c in t.restores ==> OnTrack(t, c);
    var coll := t.collections[c];
    CleanExactly(t, c, snapshot, coll.worked, coll.readAt.value);
  }

  /**
   In the gap before the marker nothing stops a promotion, and no later deletion reaches the
   collection: it is harmless exactly while no document of the snapshot is tombstoned.
   */
  lemma UnmarkedGapExactly(s: Sys, c: string, snapshot: set<Point>, actions: seq<Action>, t: Sys)
    requires RestoredBy(s, c, snapshot, actions, t) && c in t.collections && !t.collections[c].guarded
    ensures Enabled(t, Promote(c))
    ensures CleanUpTo(t, t.collections[c], |t.log|)
       <==> forall p | p in snapshot :: p.document !in Doomed(t, |t.log|)
  {
    RestoreIsExact(s, c, snapshot, actions, t);
    StaysOut(s, c, snapshot, actions, t);
    RestoredIsSafe(s, c, snapshot, actions, t);
    assert c in t.restores ==> OnTrack(t, c);
    assert Without(snapshot, {}) == snapshot;
    CleanExactly(t, c, snapshot, {}, |t.log|);
  }

  lemma RestoredIsSafe(s: Sys, c: string, snapshot: set<Point>, actions: seq<Action>, t: Sys)
    requires RestoredBy(s, c, snapshot, actions, t)
    ensures Safe(t) && CollectionSafe(t, c)
  {
    StepKeepsSafe(s, RestoreSnapshot(c, snapshot));
    RunKeepsSafe(Step(s, RestoreSnapshot(c, snapshot)), actions);
    RestoreIsExact(s, c, snapshot, actions, t);
  }

  /** A crashed restore cannot be run again under its own name: the collection is there for good. */
  lemma {:induction false} SameNameIsRefused(s: Sys, actions: seq<Action>, c: string, snapshot: set<Point>)
    requires Legal(s, actions) && c in s.collections
    ensures c in Run(s, actions).collections && !Enabled(Run(s, actions), RestoreSnapshot(c, snapshot))
    decreases |actions|
  {
    if actions != [] {
      SameNameIsRefused(Step(s, actions[0]), actions[1..], c, snapshot);
    }
  }

  // ----- the three ways past the gate, as runs -----

  /** The alias serves a collection that still holds the document of a logged entry. */
  ghost predicate Serves(s: Sys, c: string, e: Entry) {
    s.live == Some(c) && c in s.collections && e in s.log && e.kb == s.kb && !Gone(s.collections[c], e.document)
  }

  ghost predicate EndsServing(s: Sys, actions: seq<Action>, c: string, e: Entry) {
    Legal(s, actions) && Serves(Run(s, actions), c, e)
  }

  lemma Prepend(s: Sys, a: Action, rest: seq<Action>, c: string, e: Entry)
    requires Enabled(s, a) && EndsServing(Step(s, a), rest, c, e)
    ensures EndsServing(s, [a] + rest, c, e)
  {
    assert ([a] + rest)[1..] == rest;
  }

  function Empty(kb: string): Sys {
    Sys(kb, true, [], map[], map[], map[], None, None)
  }

  /** The marker is set, but the promotion's read of it fails. */
  lemma UnreadMarkerServes(kb: string, c: string, e: Entry, p: Point)
    requires e.kb == kb && p.document == e.document
    ensures EndsServing(Empty(kb), [Tombstone(e), RestoreSnapshot(c, {p}), SetMarker(c), PromoteUnread(c)], c, e)
  {
    var s1 := Step(Empty(kb), Tombstone(e));
    var s2 := Step(s1, RestoreSnapshot(c, {p}));
    var s3 := Step(s2, SetMarker(c));
    var s4 := Step(s3, PromoteUnread(c));
    assert s1.log == [e] && p in s4.collections[c].points;
    assert EndsServing(s4, [], c, e);
    Prepend(s3, PromoteUnread(c), [], c, e);
    Prepend(s2, SetMarker(c), [PromoteUnread(c)] + [], c, e);
    Prepend(s1, RestoreSnapshot(c, {p}), [SetMarker(c)] + ([PromoteUnread(c)] + []), c, e);
    var rest := [RestoreSnapshot(c, {p})] + ([SetMarker(c)] + ([PromoteUnread(c)] + []));
    Prepend(Empty(kb), Tombstone(e), rest, c, e);
    assert [Tombstone(e)] + rest == [Tombstone(e), RestoreSnapshot(c, {p}), SetMarker(c), PromoteUnread(c)];
  }

  /** The restore crashes before the marker, and the document is deleted before the promotion. */
  lemma UnmarkedGapServes(kb: string, c: string, e: Entry, p: Point)
    requires e.kb == kb && p.document == e.document
    ensures EndsServing(Empty(kb), [RestoreSnapshot(c, {p}), Crash(c), Tombstone(e), Promote(c)], c, e)
  {
    var s1 := Step(Empty(kb), RestoreSnapshot(c, {p}));
    var s2 := Step(s1, Crash(c));
    var s3 := Step(s2, Tombstone(e));
    var s4 := Step(s3, Promote(c));
    assert s3.log == [e] && p in s4.collections[c].points;
    assert EndsServing(s4, [], c, e);
    Prepend(s3, Promote(c), [], c, e);
    Prepend(s2, Tombstone(e), [Promote(c)] + [], c, e);
    Prepend(s1, Crash(c), [Tombstone(e)] + ([Promote(c)] + []), c, e);
    var rest := [Crash(c)] + ([Tombstone(e)] + ([Promote(c)] + []));
    Prepend(Empty(kb), RestoreSnapshot(c, {p}), rest, c, e);
    assert [RestoreSnapshot(c, {p})] + rest == [RestoreSnapshot(c, {p}), Crash(c), Tombstone(e), Promote(c)];
  }

  /** The document is deleted after the replay list was read, and the restore completes without it. */
  lemma LateTombstoneServes(kb: string, c: string, e: Entry, p: Point)
    requires e.kb == kb && p.document == e.document
    ensures EndsServing(Empty(kb), [RestoreSnapshot(c, {p}), SetMarker(c), ReadList(c, [])] + LateEnd(c, e), c, e)
  {
    var s1 := Step(Empty(kb), RestoreSnapshot(c, {p}));
    var s2 := Step(s1, SetMarker(c));
    var s3 := Step(s2, ReadList(c, []));
    LateEndServes(s3, c, e, p);
    Prepend(s2, ReadList(c, []), LateEnd(c, e), c, e);
    Prepend(s1, SetMarker(c), [ReadList(c, [])] + LateEnd(c, e), c, e);
    Prepend(Empty(kb), RestoreSnapshot(c, {p}), [SetMarker(c)] + ([ReadList(c, [])] + LateEnd(c, e)), c, e);
    assert [RestoreSnapshot(c, {p})] + ([SetMarker(c)] + ([ReadList(c, [])] + LateEnd(c, e)))
        == [RestoreSnapshot(c, {p}), SetMarker(c), ReadList(c, [])] + LateEnd(c, e);
  }

  function LateEnd(c: string, e: Entry): seq<Action> {
    [Tombstone(e)] + ([Commit(c, 0)] + ([Clear(c)] + ([Promote(c)] + [])))
  }

  lemma LateEndServes(s: Sys, c: string, e: Entry, p: Point)
    requires Restoring(s, c) && s.restores[c] == Replaying([], 0, false, false) && s.live != Some(c)
    requires e.kb == s.kb && p.document == e.document && p in s.collections[c].points
    ensures EndsServing(s, LateEnd(c, e), c, e)
  {
    var s1 := Step(s, Tombstone(e));
    var s2 := Step(s1, Commit(c, 0));
    var s3 := Step(s2, Clear(c));
    var s4 := Step(s3, Promote(c));
    assert e in s1.log && p in s4.collections[c].points;
    assert EndsServing(s4, [], c, e);
    Prepend(s3, Promote(c), [], c, e);
    Prepend(s2, Clear(c), [Promote(c)] + [], c, e);
    Prepend(s1, Commit(c, 0), [Clear(c)] + ([Promote(c)] + []), c, e);
    Prepend(s, Tombstone(e), [Commit(c, 0)] + ([Clear(c)] + ([Promote(c)] + [])), c, e);
  }
}
