/**
 The tombstone log and its replay into a restored collection.
 */
module Tombstones {
  import opened Options

  datatype Entry = Entry(
    id: string,
    kb: string,
    document: string,
    kind: string,
    deletedAt: int,
    reason: string,
    deletedBy: string,
    snapshotsDestroyed: Option<seq<string>>)

  datatype Row = Row(entryId: string, collection: string)

  type Replays = map<Row, int>

  datatype Point = Point(document: string, chunk: string)

  const KINDS := {"delete", "purge"}

  datatype TombstoneError = BadKind(kind: string) | UnknownEntry(id: string) | AlreadyReplayed(row: Row)

  // ----- which entries a collection still has to apply -----

  predicate IsPending(e: Entry, replays: Replays, kb: string, collection: string) {
    e.kb == kb && Row(e.id, collection) !in replays
  }

  predicate InTimeOrder(s: seq<Entry>) {
    forall i, k | 0 <= i < k < |s| :: s[i].deletedAt <= s[k].deletedAt
  }

  predicate DistinctIds(log: seq<Entry>) {
    forall i, k | 0 <= i < k < |log| :: log[i].id != log[k].id
  }

  predicate HasEntry(log: seq<Entry>, id: string) {
    exists i | 0 <= i < |log| :: log[i].id == id
  }

  /** Exactly the pending entries, each once, oldest deletion first; equal times may come in any order. */
  ghost predicate IsUnreplayed(entries: seq<Entry>, log: seq<Entry>, replays: Replays, kb: string, collection: string) {
    && (forall e :: e in entries <==> e in log && IsPending(e, replays, kb, collection))
    && InTimeOrder(entries) && DistinctIds(entries)
  }

  function Documents(entries: seq<Entry>): (r: set<string>)
    ensures forall d :: d in r <==> exists i | 0 <= i < |entries| :: entries[i].document == d
  {
    set i | 0 <= i < |entries| :: entries[i].document
  }

  /** The documents a collection still has to lose. */
  function PendingDocuments(log: seq<Entry>, replays: Replays, kb: string, collection: string): set<string> {
    set i | 0 <= i < |log| && IsPending(log[i], replays, kb, collection) :: log[i].document
  }

  /** What deleting by document leaves of a collection. */
  function Without(points: set<Point>, documents: set<string>): set<Point> {
    set p | p in points && p.document !in documents
  }

  lemma UnreplayedDocuments(entries: seq<Entry>, log: seq<Entry>, replays: Replays, kb: string, collection: string)
    requires IsUnreplayed(entries, log, replays, kb, collection)
    ensures Documents(entries) == PendingDocuments(log, replays, kb, collection)
  {
    forall d | d in Documents(entries)
      ensures d in PendingDocuments(log, replays, kb, collection)
    {
      var i :| 0 <= i < |entries| && entries[i].document == d;
      assert entries[i] in log;
    }
    forall d | d in PendingDocuments(log, replays, kb, collection)
      ensures d in Documents(entries)
    {
      var i :| 0 <= i < |log| && IsPending(log[i], replays, kb, collection) && log[i].document == d;
      assert log[i] in entries;
    }
  }

  // ----- inserting into the order -----

  function InsertAt(s: seq<Entry>, k: nat, e: Entry): (r: seq<Entry>)
    requires k <= |s|
    ensures |r| == |s| + 1 && r[k] == e
    ensures forall i | 0 <= i < k :: r[i] == s[i]
    ensures forall i | k < i < |r| :: r[i] == s[i - 1]
    ensures forall x :: x in r <==> x in s || x == e
  {
    s[..k] + [e] + s[k..]
  }

  lemma InsertKeepsOrder(s: seq<Entry>, k: nat, e: Entry)
    requires k <= |s| && InTimeOrder(s) && DistinctIds(s) && !HasEntry(s, e.id)
    requires forall i | 0 <= i < k :: s[i].deletedAt <= e.deletedAt
    requires k < |s| ==> e.deletedAt < s[k].deletedAt
    ensures InTimeOrder(InsertAt(s, k, e)) && DistinctIds(InsertAt(s, k, e))
  {
  }

  // ----- the repository -----

  class TombstoneRepository {
    var log: seq<Entry>
    var replays: Replays

    constructor ()
      ensures Valid() && log == [] && replays == map[]
    {
      log, replays := [], map[];
    }

    ghost predicate Valid()
      reads this
    {
      && DistinctIds(log)
      && forall row | row in replays :: HasEntry(log, row.entryId)
    }

    /** The log only grows at its end, and only by an entry of a known kind. */
    method Append(freshId: string, kb: string, document: string, kind: string, reason: string,
                  deletedBy: string, snapshotsDestroyed: Option<seq<string>>, deletedAt: int)
      returns (result: Result<Entry, TombstoneError>)
      requires Valid() && !HasEntry(log, freshId)
      modifies this`log
      ensures Valid()
      ensures kind != "delete" && kind != "purge" ==> result == Err(BadKind(kind)) && log == old(log)
      ensures kind == "delete" || kind == "purge" ==>
        && result == Ok(Entry(freshId, kb, document, kind, deletedAt, reason, deletedBy, snapshotsDestroyed))
        && log == old(log) + [result.value]
    {
      if kind !in KINDS {
        return Err(BadKind(kind));
      }
      var entry := Entry(freshId, kb, document, kind, deletedAt, reason, deletedBy, snapshotsDestroyed);
      log := log + [entry];
      assert forall i | 0 <= i < |old(log)| :: log[i] == old(log)[i];
      return Ok(entry);
    }

    /** The entries of the knowledge base without a row for the collection, each once, oldest deletion first. */
    method UnreplayedFor(kb: string, collection: string) returns (entries: seq<Entry>)
      requires Valid()
      ensures IsUnreplayed(entries, log, replays, kb, collection)
      ensures forall e :: e in entries <==> e in log && e.kb == kb && Row(e.id, collection) !in replays
      ensures forall i, k | 0 <= i < k < |entries| ::
                entries[i].deletedAt <= entries[k].deletedAt && entries[i].id != entries[k].id
    {
      entries := [];
      for i := 0 to |log|
        invariant forall e :: e in entries <==> e in log[..i] && IsPending(e, replays, kb, collection)
        invariant InTimeOrder(entries) && DistinctIds(entries)
      {
        assert log[..i + 1] == log[..i] + [log[i]];
        if IsPending(log[i], replays, kb, collection) {
          NotListedYet(log, i, entries);
          var k := 0;
          while k < |entries| && entries[k].deletedAt <= log[i].deletedAt
            invariant k <= |entries| && forall j | 0 <= j < k :: entries[j].deletedAt <= log[i].deletedAt
          {
            k := k + 1;
          }
          InsertKeepsOrder(entries, k, log[i]);
          entries := InsertAt(entries, k, log[i]);
        }
      }
      assert log[..|log|] == log;
    }

    method MarkReplayed(entryId: string, collection: string, replayedAt: int)
      returns (result: Result<Row, TombstoneError>)
      requires Valid()
      modifies this`replays
      ensures Valid()
      ensures !HasEntry(log, entryId) ==>
                result == Err(UnknownEntry(entryId)) && replays == old(replays)
      ensures HasEntry(log, entryId) ==>
                var row := Row(entryId, collection);
                if row in old(replays) then result == Err(AlreadyReplayed(row)) && replays == old(replays)
                else result == Ok(row) && replays == old(replays)[row := replayedAt]
    {
      var i := 0;
      while i < |log| && log[i].id != entryId
        invariant 0 <= i <= |log| && forall k | 0 <= k < i :: log[k].id != entryId
      {
        i := i + 1;
      }
      var row := Row(entryId, collection);
      if i == |log| {
        return Err(UnknownEntry(entryId));
      } else if row in replays {
        return Err(AlreadyReplayed(row));
      }
      replays := replays[row := replayedAt];
      return Ok(row);
    }
  }

  lemma NotListedYet(log: seq<Entry>, i: nat, entries: seq<Entry>)
    requires DistinctIds(log) && i < |log| && forall e | e in entries :: e in log[..i]
    ensures !HasEntry(entries, log[i].id)
  {
    forall k | 0 <= k < |entries|
      ensures entries[k].id != log[i].id
    {
      assert entries[k] in log[..i];
      var j :| 0 <= j < i && log[j] == entries[k];
    }
  }

  // ----- recording what a purge destroyed -----

  /** Both logs say the same about every entry of the first, except which snapshots were destroyed. */
  predicate Extends(before: seq<Entry>, after: seq<Entry>) {
    && |before| <= |after|
    && forall i | 0 <= i < |before| :: after[i] == before[i].(snapshotsDestroyed := after[i].snapshotsDestroyed)
  }

  /** A purge looks its own entry up again after it was committed; a store with the trigger refuses the update. */
  function Recorded(log: seq<Entry>, i: nat, snapshots: seq<string>, trigger: bool): (r: seq<Entry>)
    requires i < |log|
    ensures Extends(log, r) && |r| == |log|
  {
    if trigger then log else log[i := log[i].(snapshotsDestroyed := Some(snapshots))]
  }

  method RecordDestroyed(repo: TombstoneRepository, i: nat, snapshots: seq<string>, trigger: bool)
    requires repo.Valid() && i < |repo.log|
    modifies repo`log
    ensures repo.Valid()
    ensures repo.log == if snapshots == [] then old(repo.log) else Recorded(old(repo.log), i, snapshots, trigger)
    ensures snapshots == [] || trigger ==> repo.log == old(repo.log)
    ensures snapshots != [] && !trigger ==>
              && |repo.log| == |old(repo.log)| && repo.log[i].snapshotsDestroyed == Some(snapshots)
              && repo.log == old(repo.log)[i := repo.log[i]]
              && repo.log[i] == old(repo.log)[i].(snapshotsDestroyed := repo.log[i].snapshotsDestroyed)
  {
    if snapshots != [] && !trigger {
      ghost var before := repo.log;
      repo.log := repo.log[i := repo.log[i].(snapshotsDestroyed := Some(snapshots))];
      SameEntries(before, repo.log);
    }
  }

  lemma SameEntries(before: seq<Entry>, after: seq<Entry>)
    requires Extends(before, after)
    ensures DistinctIds(before) && |before| == |after| ==> DistinctIds(after)
    ensures forall id | HasEntry(before, id) :: HasEntry(after, id)
  {
    forall id | HasEntry(before, id)
      ensures HasEntry(after, id)
    {
      var i :| 0 <= i < |before| && before[i].id == id;
      assert after[i].id == id;
    }
  }

  /** The update leaves what is pending, entry by entry, and the documents still to be lost. */
  lemma RecordingKeepsPending(log: seq<Entry>, i: nat, snapshots: seq<string>, trigger: bool,
                              replays: Replays, kb: string, collection: string)
    requires i < |log|
    ensures var after := Recorded(log, i, snapshots, trigger);
            && (forall k | 0 <= k < |log| ::
                  IsPending(after[k], replays, kb, collection) <==> IsPending(log[k], replays, kb, collection))
            && PendingDocuments(after, replays, kb, collection) == PendingDocuments(log, replays, kb, collection)
  {
    var after := Recorded(log, i, snapshots, trigger);
    forall d
      ensures d in PendingDocuments(after, replays, kb, collection)
         <==> d in PendingDocuments(log, replays, kb, collection)
    {
      assert forall k | 0 <= k < |log| :: after[k].document == log[k].document;
    }
  }

  // ----- the replay loop -----

  /** The replay rows after marking these entries for a collection. */
  function MarkAll(replays: Replays, entries: seq<Entry>, collection: string, now: int): Replays {
    if entries == [] then replays
    else MarkAll(replays, entries[..|entries| - 1], collection, now)[Row(entries[|entries| - 1].id, collection) := now]
  }

  lemma {:induction false} MarkAllRows(replays: Replays, entries: seq<Entry>, collection: string, now: int, row: Row)
    ensures row in MarkAll(replays, entries, collection, now) <==>
              row in replays || (row.collection == collection && HasEntry(entries, row.entryId))
    ensures row in MarkAll(replays, entries, collection, now) ==>
              MarkAll(replays, entries, collection, now)[row] ==
                if row.collection == collection && HasEntry(entries, row.entryId) then now else replays[row]
  {
    if entries != [] {
      var front, last := entries[..|entries| - 1], entries[|entries| - 1];
      MarkAllRows(replays, front, collection, now, row);
      HasOneMore(front, last, row.entryId);
      assert entries == front + [last];
    }
  }

  lemma HasOneMore(entries: seq<Entry>, e: Entry, id: string)
    ensures HasEntry(entries + [e], id) <==> HasEntry(entries, id) || e.id == id
  {
    var more := entries + [e];
    assert more[|entries|] == e && forall i | 0 <= i < |entries| :: more[i] == entries[i];
  }

  lemma MarkOneMore(replays: Replays, entries: seq<Entry>, e: Entry, collection: string, now: int)
    ensures MarkAll(replays, entries + [e], collection, now)
         == MarkAll(replays, entries, collection, now)[Row(e.id, collection) := now]
  {
    assert (entries + [e])[..|entries|] == entries;
  }

  lemma DeleteOneMore(points: set<Point>, entries: seq<Entry>, e: Entry)
    ensures Without(Without(points, Documents(entries)), {e.document}) == Without(points, Documents(entries + [e]))
  {
    var more := entries + [e];
    assert forall d :: d in Documents(more) <==> d in Documents(entries) || d == e.document by {
      assert more[|entries|] == e;
      assert forall i | 0 <= i < |entries| :: more[i] == entries[i];
    }
  }

  lemma PointStep(points: set<Point>, entries: seq<Entry>, i: nat)
    requires i < |entries|
    ensures Without(Without(points, Documents(entries[..i])), {entries[i].document})
         == Without(points, Documents(entries[..i + 1]))
  {
    assert entries[..i + 1] == entries[..i] + [entries[i]];
    DeleteOneMore(points, entries[..i], entries[i]);
  }

  lemma RowStep(replays: Replays, entries: seq<Entry>, collection: string, now: int, i: nat)
    requires i < |entries|
    ensures MarkAll(replays, entries[..i + 1], collection, now)
         == MarkAll(replays, entries[..i], collection, now)[Row(entries[i].id, collection) := now]
  {
    assert entries[..i + 1] == entries[..i] + [entries[i]];
    MarkOneMore(replays, entries[..i], entries[i], collection, now);
  }

  /** An entry that comes later in the list has not been marked yet. */
  lemma NotYetMarked(entries: seq<Entry>, log: seq<Entry>, replays: Replays, kb: string, collection: string,
                     now: int, i: nat)
    requires IsUnreplayed(entries, log, replays, kb, collection) && i < |entries|
    ensures Row(entries[i].id, collection) !in MarkAll(replays, entries[..i], collection, now)
    ensures HasEntry(log, entries[i].id)
  {
    assert entries[i] in entries;
    assert !HasEntry(entries[..i], entries[i].id);
    MarkAllRows(replays, entries[..i], collection, now, Row(entries[i].id, collection));
  }

  lemma AllMarked(entries: seq<Entry>, log: seq<Entry>, replays: Replays, kb: string, collection: string, now: int)
    requires IsUnreplayed(entries, log, replays, kb, collection)
    ensures forall e | e in log :: !IsPending(e, MarkAll(replays, entries, collection, now), kb, collection)
  {
    forall e | e in log
      ensures !IsPending(e, MarkAll(replays, entries, collection, now), kb, collection)
    {
      MarkAllRows(replays, entries, collection, now, Row(e.id, collection));
      if IsPending(e, replays, kb, collection) {
        assert e in entries;
      }
    }
  }

  lemma PendingByEntry(log: seq<Entry>, replays: Replays, kb: string, collection: string)
    ensures forall d :: d in PendingDocuments(log, replays, kb, collection) <==>
              exists e | e in log && e.kb == kb && Row(e.id, collection) !in replays :: e.document == d
  {
    forall e | e in log && e.kb == kb && Row(e.id, collection) !in replays
      ensures e.document in PendingDocuments(log, replays, kb, collection)
    {
      var i :| 0 <= i < |log| && log[i] == e;
      assert IsPending(log[i], replays, kb, collection);
    }
  }

  /**
   Applies every pending tombstone to a collection's points: afterwards no point of a
   tombstoned document is left, every other point is, nothing is pending, and the new rows are
   exactly those of the entries that were.
   */
  method ReplayInto(repo: TombstoneRepository, kb: string, collection: string, points: set<Point>, now: int)
    returns (remaining: set<Point>, ghost replayed: seq<Entry>)
    requires repo.Valid()
    modifies repo`replays
    ensures repo.Valid()
    ensures remaining == Without(points, PendingDocuments(repo.log, old(repo.replays), kb, collection))
    ensures forall e | e in repo.log :: !IsPending(e, repo.replays, kb, collection)
    ensures IsUnreplayed(replayed, repo.log, old(repo.replays), kb, collection)
    ensures repo.replays == MarkAll(old(repo.replays), replayed, collection, now)
    ensures forall p :: p in remaining <==>
              p in points && forall e | e in repo.log && e.kb == kb && Row(e.id, collection) !in old(repo.replays) ::
                p.document != e.document
  {
    ghost var before := repo.replays;
    var unreplayed := repo.UnreplayedFor(kb, collection);
    replayed := unreplayed;
    remaining := points;
    for i := 0 to |unreplayed|
      invariant repo.Valid()
      invariant remaining == Without(points, Documents(unreplayed[..i]))
      invariant repo.replays == MarkAll(before, unreplayed[..i], collection, now)
    {
      PointStep(points, unreplayed, i);
      RowStep(before, unreplayed, collection, now, i);
      NotYetMarked(unreplayed, repo.log, before, kb, collection, now, i);
      remaining := Without(remaining, {unreplayed[i].document});
      var _ := repo.MarkReplayed(unreplayed[i].id, collection, now);
    }
    assert unreplayed[..|unreplayed|] == unreplayed;
    UnreplayedDocuments(unreplayed, repo.log, before, kb, collection);
    AllMarked(unreplayed, repo.log, before, kb, collection, now);
    PendingByEntry(repo.log, before, kb, collection);
  }
}
