/**
 Two runs of the restore protocol, step by step: one that completes, and one in which an entry
 cannot be applied.
 */
module RestoreRuns {
  import opened Options
  import opened Tombstones
  import opened RestoreProtocol

  /** A run that leads from one state to another. */
  ghost predicate Leads(s: Sys, actions: seq<Action>, end: Sys) {
    Legal(s, actions) && Run(s, actions) == end
  }

  lemma LeadsBefore(s: Sys, a: Action, rest: seq<Action>, end: Sys)
    requires Enabled(s, a) && Leads(Step(s, a), rest, end)
    ensures Leads(s, [a] + rest, end)
  {
    assert ([a] + rest)[1..] == rest;
  }

  /** A knowledge base whose only tombstone is older than the restore. */
  function Before(kb: string, e: Entry): Sys {
    Sys(kb, true, [e], map[], map[], map[], None, None)
  }

  /** During the restore of two documents of which one is tombstoned. */
  function During(kb: string, e: Entry, c: string, coll: Collection, r: Restore): Sys {
    Before(kb, e).(collections := map[c := coll], restores := map[c := r])
  }

  /** The replay list has been read. */
  function Listed(kb: string, e: Entry, c: string, p: Point, q: Point): Sys {
    During(kb, e, c, Collection({p, q}, true, true, Some(1), {}), Replaying([e], 0, false, false))
  }

  /** The one entry of the list has been worked through. */
  function Replayed(kb: string, e: Entry, c: string, q: Point): Sys {
    During(kb, e, c, Collection({q}, true, true, Some(1), {e.document}), Replaying([e], 1, false, false))
  }

  /** The restored collection serves, with its replay row and without its marker. */
  function Served(kb: string, e: Entry, c: string, q: Point): Sys {
    Sys(kb, true, [e], map[Row(e.id, c) := 5],
        map[c := Collection({q}, false, true, Some(1), {e.document})], map[], Some(c), None)
  }

  function Start(c: string, p: Point, q: Point, e: Entry): seq<Action> {
    [RestoreSnapshot(c, {p, q})] + ([SetMarker(c)] + ([ReadList(c, [e])] + []))
  }

  function Replay(c: string): seq<Action> {
    [DeleteNext(c)] + ([MarkNext(c)] + [])
  }

  function Finish(c: string): seq<Action> {
    [Commit(c, 5)] + ([Clear(c)] + ([Promote(c)] + []))
  }

  lemma StartLeads(kb: string, e: Entry, c: string, p: Point, q: Point)
    requires e.kb == kb
    ensures Leads(Before(kb, e), Start(c, p, q, e), Listed(kb, e, c, p, q))
  {
    var s0 := Before(kb, e);
    var s1 := During(kb, e, c, Collection({p, q}, false, false, None, {}), Restored);
    assert Step(s0, RestoreSnapshot(c, {p, q})) == s1;
    var s2 := During(kb, e, c, Collection({p, q}, true, true, None, {}), Marked);
    assert Step(s1, SetMarker(c)) == s2;
    var s3 := Listed(kb, e, c, p, q);
    assert IsUnreplayed([e], s2.log, s2.replays, kb, c);
    assert Step(s2, ReadList(c, [e])) == s3;
    assert Leads(s3, [], s3);
    LeadsBefore(s2, ReadList(c, [e]), [], s3);
    LeadsBefore(s1, SetMarker(c), [ReadList(c, [e])] + [], s3);
    LeadsBefore(s0, RestoreSnapshot(c, {p, q}), [SetMarker(c)] + ([ReadList(c, [e])] + []), s3);
  }

  lemma ReplayLeads(kb: string, e: Entry, c: string, p: Point, q: Point)
    requires p.document == e.document && q.document != e.document
    ensures Leads(Listed(kb, e, c, p, q), Replay(c), Replayed(kb, e, c, q))
  {
    var s0, s2 := Listed(kb, e, c, p, q), Replayed(kb, e, c, q);
    var s1 := During(kb, e, c, s2.collections[c], Replaying([e], 0, true, false));
    assert Without({p, q}, {e.document}) == {q} && {} + {e.document} == {e.document};
    assert Step(s0, DeleteNext(c)).collections[c] == s1.collections[c];
    assert Step(s0, DeleteNext(c)) == s1;
    assert Step(s1, MarkNext(c)) == s2;
    assert Leads(s2, [], s2);
    LeadsBefore(s1, MarkNext(c), [], s2);
    LeadsBefore(s0, DeleteNext(c), [MarkNext(c)] + [], s2);
  }

  lemma FinishLeads(kb: string, e: Entry, c: string, q: Point)
    ensures Leads(Replayed(kb, e, c, q), Finish(c), Served(kb, e, c, q))
  {
    var s0, s3 := Replayed(kb, e, c, q), Served(kb, e, c, q);
    MarkAllRows(map[], [e], c, 5, Row(e.id, c));
    assert [e][..0] == [];
    assert MarkAll(map[], [e], c, 5) == map[Row(e.id, c) := 5];
    var s1 := During(kb, e, c, s0.collections[c], Committed).(replays := map[Row(e.id, c) := 5]);
    assert Step(s0, Commit(c, 5)) == s1;
    var s2 := s3.(live := None);
    assert Step(s1, Clear(c)) == s2;
    assert Step(s2, Promote(c)) == s3;
    assert Leads(s3, [], s3);
    LeadsBefore(s2, Promote(c), [], s3);
    LeadsBefore(s1, Clear(c), [Promote(c)] + [], s3);
    LeadsBefore(s0, Commit(c, 5), [Clear(c)] + ([Promote(c)] + []), s3);
  }

  /**
   A restore that completes: the tombstoned document is gone, the other one is served, the entry is
   recorded as replayed, and a later deletion reaches the collection.
   */
  lemma RestoreCompletes(kb: string, e: Entry, c: string, p: Point, q: Point)
    requires e.kb == kb && p.document == e.document && q.document != e.document
    ensures Leads(Before(kb, e), Start(c, p, q, e), Listed(kb, e, c, p, q))
    ensures Leads(Listed(kb, e, c, p, q), Replay(c), Replayed(kb, e, c, q))
    ensures Leads(Replayed(kb, e, c, q), Finish(c), Served(kb, e, c, q))
    ensures Enabled(Served(kb, e, c, q), Sweep(c, q.document))
    ensures Step(Served(kb, e, c, q), Sweep(c, q.document)).collections[c].points == {}
  {
    StartLeads(kb, e, c, p, q);
    ReplayLeads(kb, e, c, p, q);
    FinishLeads(kb, e, c, q);
  }

  /**
   An entry that cannot be applied: the replay goes on to its end but can neither be committed nor
   clear the marker, so the collection cannot pass a marker that is read, before or after the crash.
   */
  lemma FailedEntryKeepsTheMarker(kb: string, e: Entry, c: string, p: Point, q: Point)
    requires e.kb == kb
    ensures Leads(Before(kb, e), Start(c, p, q, e), Listed(kb, e, c, p, q))
    ensures Enabled(Listed(kb, e, c, p, q), EntryFails(c))
    ensures var failed := Step(Listed(kb, e, c, p, q), EntryFails(c));
            && !Enabled(failed, DeleteNext(c)) && !Enabled(failed, Commit(c, 5)) && !Enabled(failed, Clear(c))
            && !Enabled(failed, Promote(c)) && Enabled(failed, Crash(c))
            && !Enabled(Step(failed, Crash(c)), Promote(c))
  {
    StartLeads(kb, e, c, p, q);
  }

  /** Either promotion leaves the collection it replaces within reach of a deletion, next to the new one. */
  lemma BothStayInReach(s: Sys, a: Action, outgoing: string, document: string)
    requires (a.Promote? || a.PromoteUnread?) && Enabled(s, a) && s.live == Some(outgoing) && outgoing in s.collections
    ensures var t := Step(s, a);
            && t.live == Some(a.c) && t.previous == Some(outgoing) && t.collections == s.collections
            && Enabled(t, Sweep(a.c, document)) && Enabled(t, Sweep(outgoing, document))
  {
  }
}
