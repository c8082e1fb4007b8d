/**
 Evaluation baselines and questions: a chain of baselines per knowledge base whose superseded
 rows are marked when the reference changed, and the removal of questions about deleted segments.
 */
module EvalStore {
  import opened Options

  // ----- baselines -----

  /** What a caller asks to record. */
  datatype Write = Write(
    id: string,
    kb: string,
    referenceId: string,
    fingerprint: string,
    evalSetId: string,
    recall: real,
    precision: real,
    scoredAt: int)

  datatype Baseline = Baseline(write: Write, isCurrent: bool, measuredAgainst: Option<string>)

  /** The first write at or after position k for the same knowledge base as write i. */
  function NextFrom(writes: seq<Write>, i: nat, k: nat): (r: Option<nat>)
    requires i < |writes| && k <= |writes|
    ensures r.Some? ==> k <= r.value < |writes| && writes[r.value].kb == writes[i].kb
    ensures r.Some? ==> forall j | k <= j < r.value :: writes[j].kb != writes[i].kb
    ensures r.None? ==> forall j | k <= j < |writes| :: writes[j].kb != writes[i].kb
    decreases |writes| - k
  {
    if k == |writes| then None
    else if writes[k].kb == writes[i].kb then Some(k)
    else NextFrom(writes, i, k + 1)
  }

  /** The write that superseded write i. */
  function Successor(writes: seq<Write>, i: nat): Option<nat>
    requires i < |writes|
  {
    NextFrom(writes, i, i + 1)
  }

  /**
   A superseded row carries its own reference exactly when its successor was measured against
   another fingerprint.
   */
  function RowOf(writes: seq<Write>, i: nat): Baseline
    requires i < |writes|
  {
    match Successor(writes, i)
    case None => Baseline(writes[i], true, None)
    case Some(j) =>
      Baseline(writes[i], false,
               if writes[j].fingerprint != writes[i].fingerprint then Some(writes[i].referenceId) else None)
  }

  /** The whole table, from the history of writes alone. */
  function Chain(writes: seq<Write>): (rows: seq<Baseline>)
    ensures |rows| == |writes| && forall i | 0 <= i < |writes| :: rows[i] == RowOf(writes, i)
  {
    seq(|writes|, i requires 0 <= i < |writes| => RowOf(writes, i))
  }

  lemma {:induction false} NextAfterAppend(writes: seq<Write>, w: Write, i: nat, k: nat)
    requires i < |writes| && k <= |writes|
    ensures NextFrom(writes + [w], i, k) ==
              match NextFrom(writes, i, k)
              case Some(j) => Some(j)
              case None => if w.kb == writes[i].kb then Some(|writes|) else None
    decreases |writes| - k
  {
    if k < |writes| && writes[k].kb != writes[i].kb {
      NextAfterAppend(writes, w, i, k + 1);
    }
  }

  class EvalBaselineRepository {
    var rows: seq<Baseline>
    /** Every write so far, in order. */
    ghost var history: seq<Write>

    constructor ()
      ensures Valid() && history == []
    {
      rows, history := [], [];
    }

    ghost predicate Valid()
      reads this
    {
      rows == Chain(history)
    }

    /** The position of the current row of a knowledge base. */
    method GetCurrent(kb: string) returns (current: Option<nat>)
      ensures current.Some? ==> IsCurrentOf(rows, kb, current.value)
      ensures current.None? ==> forall i :: !IsCurrentOf(rows, kb, i)
    {
      for i := 0 to |rows|
        invariant forall k | 0 <= k < i :: !IsCurrentOf(rows, kb, k)
      {
        if rows[i].write.kb == kb && rows[i].isCurrent {
          return Some(i);
        }
      }
      return None;
    }

    /**
     Demotes the current row, marks it when the fingerprint changed, and inserts the new one: the
     chain grows by the write.
     */
    method UpsertCurrent(w: Write) returns (row: Baseline)
      requires Valid()
      modifies this
      ensures Valid() && history == old(history) + [w]
      ensures row == Baseline(w, true, None)
      ensures |rows| == |old(rows)| + 1 && rows[|old(rows)|] == row
      ensures forall i | 0 <= i < |old(rows)| ::
                var was := old(rows)[i];
                rows[i] ==
                  if was.write.kb != w.kb || !was.isCurrent then was
                  else if was.write.fingerprint == w.fingerprint then was.(isCurrent := false)
                  else was.(isCurrent := false, measuredAgainst := Some(was.write.referenceId))
    {
      var existing := GetCurrent(w.kb);
      ChainGrows(history, w, existing);
      OnlyCurrent(history, w.kb, existing);
      if existing.Some? {
        var e := existing.value;
        RowAfterAppend(history, w, e);
        rows := rows[e := rows[e].(isCurrent := false)];
        if rows[e].write.fingerprint != w.fingerprint {
          rows := rows[e := rows[e].(measuredAgainst := Some(rows[e].write.referenceId))];
        }
      }
      row := Baseline(w, true, None);
      rows := rows + [row];
      history := history + [w];
    }
  }

  /** Appending a write changes a row exactly when it supersedes it. */
  lemma RowAfterAppend(writes: seq<Write>, w: Write, i: nat)
    requires i < |writes|
    ensures RowOf(writes + [w], i) ==
              if RowOf(writes, i).isCurrent && w.kb == writes[i].kb then
                Baseline(writes[i], false,
                         if w.fingerprint != writes[i].fingerprint then Some(writes[i].referenceId) else None)
              else RowOf(writes, i)
  {
    NextAfterAppend(writes, w, i, i + 1);
  }

  predicate IsCurrentOf(rows: seq<Baseline>, kb: string, i: nat) {
    i < |rows| && rows[i].write.kb == kb && rows[i].isCurrent
  }

  lemma ChainGrows(writes: seq<Write>, w: Write, existing: Option<nat>)
    requires existing.Some? ==> IsCurrentOf(Chain(writes), w.kb, existing.value)
    requires existing.None? ==> forall i :: !IsCurrentOf(Chain(writes), w.kb, i)
    ensures |Chain(writes + [w])| == |writes| + 1
    ensures Chain(writes + [w])[|writes|] == Baseline(w, true, None)
    ensures forall i | 0 <= i < |writes| && Some(i) != existing :: Chain(writes + [w])[i] == Chain(writes)[i]
    ensures existing.Some? ==> Chain(writes + [w])[existing.value] == RowOf(writes + [w], existing.value)
  {
    forall i | 0 <= i < |writes| && Some(i) != existing
      ensures Chain(writes + [w])[i] == Chain(writes)[i]
    {
      RowAfterAppend(writes, w, i);
      assert !IsCurrentOf(Chain(writes), w.kb, i) by {
        if existing.Some? && writes[i].kb == w.kb {
          OneCurrent(writes, i, existing.value);
        }
      }
    }
  }

  /** A knowledge base has at most one current row. */
  lemma OneCurrent(writes: seq<Write>, i: nat, k: nat)
    requires i < |writes| && k < |writes| && i != k
    requires writes[i].kb == writes[k].kb
    ensures !(Chain(writes)[i].isCurrent && Chain(writes)[k].isCurrent)
  {
    var lo, hi := if i < k then i else k, if i < k then k else i;
    assert writes[hi].kb == writes[lo].kb;
  }

  lemma OnlyCurrent(writes: seq<Write>, kb: string, existing: Option<nat>)
    requires existing.Some? ==> IsCurrentOf(Chain(writes), kb, existing.value)
    requires existing.None? ==> forall i :: !IsCurrentOf(Chain(writes), kb, i)
    ensures forall i | 0 <= i < |writes| && Some(i) != existing ::
              Chain(writes)[i].write.kb != kb || !Chain(writes)[i].isCurrent
  {
    forall i | 0 <= i < |writes| && Some(i) != existing
      ensures Chain(writes)[i].write.kb != kb || !Chain(writes)[i].isCurrent
    {
      if existing.Some? && writes[i].kb == kb {
        OneCurrent(writes, i, existing.value);
      }
      assert !IsCurrentOf(Chain(writes), kb, i);
    }
  }

  /** The current row of a knowledge base is its last write, and it has one as soon as it was written. */
  lemma CurrentIsLast(writes: seq<Write>, kb: string, i: nat)
    requires i < |writes| && writes[i].kb == kb
    ensures Chain(writes)[i].isCurrent <==> forall j | i < j < |writes| :: writes[j].kb != kb
    ensures exists k :: 0 <= k < |writes| && writes[k].kb == kb && Chain(writes)[k].isCurrent
    decreases |writes| - i
  {
    match Successor(writes, i) {
      case None => assert Chain(writes)[i].isCurrent;
      case Some(j) => CurrentIsLast(writes, kb, j);
    }
  }

  /**
   A row is marked if and only if it was superseded under another fingerprint, and then with its
   own reference.
   */
  lemma MarkedExactly(writes: seq<Write>, i: nat)
    requires i < |writes|
    ensures Chain(writes)[i].measuredAgainst.Some? <==>
              exists j ::
                i < j < |writes| && writes[j].kb == writes[i].kb && writes[j].fingerprint != writes[i].fingerprint
                       && forall k | i < k < j :: writes[k].kb != writes[i].kb
    ensures Chain(writes)[i].measuredAgainst.Some? ==> Chain(writes)[i].measuredAgainst == Some(writes[i].referenceId)
  {
    if Successor(writes, i).Some? {
      var j := Successor(writes, i).value;
      assert forall m | i < m < |writes| && writes[m].kb == writes[i].kb :: j <= m;
    }
  }

  // ----- questions -----

  datatype Question = Question(kb: string, text: string, sources: Option<seq<string>>)

  type Questions = map<string, Question>

  predicate DerivedFrom(q: Question, segments: set<string>) {
    exists s | s in q.sources.GetOr([]) :: s in segments
  }

  function RemovedIds(questions: Questions, kb: string, segments: set<string>): set<string> {
    set id | id in questions && questions[id].kb == kb && DerivedFrom(questions[id], segments)
  }

  class EvalSetRepository {
    var questions: Questions

    constructor ()
      ensures questions == map[]
    {
      questions := map[];
    }

    /** Collects the ids of the questions derived from the segments and deletes them in one go. */
    method RemoveQuestionsForSegments(kb: string, segments: set<string>) returns (removed: nat)
      modifies this
      ensures questions == old(questions) - RemovedIds(old(questions), kb, segments)
      ensures removed == |RemovedIds(old(questions), kb, segments)|
      ensures forall id :: id in questions <==>
                && id in old(questions)
                && !(old(questions)[id].kb == kb && old(questions)[id].sources.Some?
                     && exists s | s in segments :: s in old(questions)[id].sources.value)
      ensures forall id | id in questions :: questions[id] == old(questions)[id]
    {
      if segments == {} {
        assert RemovedIds(questions, kb, segments) == {};
        return 0;
      }
      var rows := set id | id in questions && questions[id].kb == kb;
      var toDelete: set<string> := {};
      ghost var all := rows;
      while rows != {}
        invariant rows <= all
        invariant toDelete == set id | id in all - rows && DerivedFrom(questions[id], segments)
        decreases rows
      {
        var id :| id in rows;
        if DerivedFrom(questions[id], segments) {
          toDelete := toDelete + {id};
        }
        rows := rows - {id};
      }
      assert toDelete == RemovedIds(questions, kb, segments);
      if toDelete == {} {
        return 0;
      }
      questions := questions - toDelete;
      return |toDelete|;
    }
  }

  lemma {:induction false} DerivedFromUnion(q: Question, s: set<string>, t: set<string>)
    ensures DerivedFrom(q, s + t) <==> DerivedFrom(q, s) || DerivedFrom(q, t)
  {
    if DerivedFrom(q, s + t) {
      var x :| x in q.sources.GetOr([]) && x in s + t;
      assert x in s || x in t;
    }
  }

  lemma RemovedOfUnion(questions: Questions, kb: string, s: set<string>, t: set<string>)
    ensures var first := questions - RemovedIds(questions, kb, s);
            && RemovedIds(questions, kb, s + t) == RemovedIds(questions, kb, s) + RemovedIds(first, kb, t)
            && RemovedIds(questions, kb, s) !! RemovedIds(first, kb, t)
  {
    var first := questions - RemovedIds(questions, kb, s);
    forall id | id in questions
      ensures id in RemovedIds(questions, kb, s + t)
         <==> id in RemovedIds(questions, kb, s) || id in RemovedIds(first, kb, t)
    {
      DerivedFromUnion(questions[id], s, t);
    }
  }

  /** Removing for one set of segments and then for another is removing for both, and the counts add up. */
  lemma RemovalsCompose(questions: Questions, kb: string, s: set<string>, t: set<string>)
    ensures var first := questions - RemovedIds(questions, kb, s);
            && first - RemovedIds(first, kb, t) == questions - RemovedIds(questions, kb, s + t)
            && |RemovedIds(questions, kb, s)| + |RemovedIds(first, kb, t)| == |RemovedIds(questions, kb, s + t)|
  {
    var first := questions - RemovedIds(questions, kb, s);
    RemovedOfUnion(questions, kb, s, t);
    var a, b := RemovedIds(questions, kb, s), RemovedIds(first, kb, t);
    assert |a + b| == |a| + |b|;
    assert questions - (a + b) == questions - a - b;
  }

  /** Questions of other knowledge bases stay, whatever segments they came from. */
  lemma OtherKbsAreUntouched(questions: Questions, kb: string, segments: set<string>, id: string)
    requires id in questions && questions[id].kb != kb
    ensures var after := questions - RemovedIds(questions, kb, segments);
            id in after && after[id] == questions[id]
  {
  }
}
