/**
 The driver of the two-phase swap, working on the vector database's aliases and on the
 repository of alias records, proved to take the steps of AliasSwap.
 */
module Lifecycle {
  import opened Options
  import opened CollectionNames
  import opened AliasRecords
  import opened AliasSwap

  /** What the pass looks for: an alias whose record is missing or names another collection. */
  predicate OutOfStep(s: Sys) {
    s.target.Some? && (s.row.None? || s.row.value.collection != s.target)
  }

  /** What the adapter promises of a metadata read: it raises for a collection that does not exist, and only then. */
  ghost predicate ReadAsPromised(env: Env, collection: string, read: Reading) {
    read.Raises? <==> collection !in env.pinned
  }

  /**
   An out-of-step alias is brought in step exactly when its record exists and the read of the
   metadata does not fail; where the read goes as the adapter promises, exactly when the record
   and the collection exist. The identity is then the collection's exactly when it was stored
   (or is itself blank). Repairing twice is repairing once.
   */
  lemma ReconcileRepairsExactly(env: Env, s: Sys, now: int, read: Reading)
    requires OutOfStep(s)
    ensures var t, target := Reconcile(env, s, now, read), s.target.value;
            && (!OutOfStep(t) <==> s.row.Some? && env.ReadBack(target, read).Some?)
            && (ReadAsPromised(env, target, read) ==> (!OutOfStep(t) <==> s.row.Some? && target in env.pinned))
            && (!OutOfStep(t) && target in env.pinned ==>
                  (t.row.value.live == env.PinOf(s.target) <==> read.Stored? || env.pinned[target] == BLANK))
            && Reconcile(env, t, now, read) == t
  {
  }

  datatype Pass = Pass(found: nat, repaired: nat, failed: nat)

  class Driver {
    var aliases: map<string, string>
    /** The collections that exist, each with the identity it was built with. */
    const identities: map<string, Identity>
    const repo: AliasRepository

    constructor (identities: map<string, Identity>, repo: AliasRepository)
      requires repo.Valid() && repo.records == map[]
      ensures this.identities == identities && this.repo == repo && Valid()
      ensures forall als :: StateOf(als) == FRESH
    {
      aliases := map[];
      this.identities, this.repo := identities, repo;
    }

    ghost predicate Valid()
      reads this, repo
    {
      repo.Valid()
    }

    ghost function StateOf(als: string): Sys
      reads this, repo, repo.records.Values
    {
      Sys(if als in aliases then Some(aliases[als]) else None,
          if als in repo.records then Some(repo.records[als].View()) else None)
    }

    /** The two phases of a promotion; a crash may stop it between them. */
    method Promote(kb: string, workspaceId: string, build: int, at: int, crash: bool)
      requires Valid() && CollectionName(kb, build) in identities
      modifies this, repo, repo.records.Values
      ensures Valid()
      ensures forall a | a != AliasName(kb) :: StateOf(a) == old(StateOf(a))
      ensures var env := Env(kb, identities);
              StateOf(AliasName(kb)) ==
                if crash then PromotePhase1(env, old(StateOf(AliasName(kb))), build)
                else Apply(env, old(StateOf(AliasName(kb))), Promoted(build, at))
      ensures StateOf(AliasName(kb)).target == Some(CollectionName(kb, build))
      ensures !crash ==>
        && AliasName(kb) in repo.records
        && repo.records[AliasName(kb)].collectionName == Some(CollectionName(kb, build))
      ensures crash ==> StateOf(AliasName(kb)).row == old(StateOf(AliasName(kb))).row
    {
      var als, shadow := AliasName(kb), CollectionName(kb, build);
      if als !in aliases {
        aliases := aliases[als := shadow];
      } else if aliases[als] != shadow {
        aliases := aliases[als := shadow];
      }
      if crash {
        return;
      }
      if als in repo.records && repo.records[als].collectionName == Some(shadow) {
        return;
      }
      if als !in repo.records {
        var _ := repo.Create(als, kb, workspaceId);
      }
      var _ := repo.Promote(als, shadow, build, identities[shadow], at);
    }

    /** The two phases of a rollback; a crash may stop it between them. */
    method Rollback(kb: string, available: set<string>, at: int, crash: bool)
      returns (result: Result<string, AliasSwap.RollbackError>)
      requires Valid()
      modifies this, repo.records.Values
      ensures Valid()
      ensures forall a | a != AliasName(kb) :: StateOf(a) == old(StateOf(a))
      ensures result == RollbackGuard(old(StateOf(AliasName(kb))), available)
      ensures var env := Env(kb, identities);
              StateOf(AliasName(kb)) ==
                if result.Ok? && crash then RollbackPhase1(old(StateOf(AliasName(kb))), result.value)
                else Apply(env, old(StateOf(AliasName(kb))), RolledBack(available, at))
      ensures var row := old(StateOf(AliasName(kb))).row;
              if row.None? || row.value.previous in {None, Some("")} then result == Err(NoNMinusOne)
              else
                var provider := row.value.live.provider;
                if provider.Some? && provider.value != "" && provider.value !in available then
                  result == Err(ProviderUnavailable(provider.value))
                else result == Ok(row.value.previous.value)
      ensures result.Ok? ==> StateOf(AliasName(kb)).target == Some(result.value)
      ensures result.Err? ==> StateOf(AliasName(kb)) == old(StateOf(AliasName(kb)))
    {
      var als := AliasName(kb);
      if als !in repo.records {
        return Err(NoNMinusOne);
      }
      var record := repo.records[als];
      if record.previousCollection.None? || record.previousCollection.value == "" {
        return Err(NoNMinusOne);
      }
      var provider := record.embeddingProvider;
      if provider.Some? && provider.value != "" && provider.value !in available {
        return Err(ProviderUnavailable(provider.value));
      }
      var n1 := record.previousCollection.value;
      aliases := aliases[als := n1];
      if !crash {
        var _ := repo.RollbackToPrevious(als, at);
      }
      return Ok(n1);
    }

    /** What the startup pass leaves of an alias whose target's metadata read ends as given. */
    function Checked(s: Sys, now: int, read: string -> Reading): Sys {
      if s.target.Some? then Reconcile(Env("", identities), s, now, read(s.target.value)) else s
    }

    /** One round of the startup pass's loop: a consistent alias is not counted. */
    method ReconcileOne(als: string, now: int, read: string -> Reading) returns (found: bool, repaired: bool)
      requires Valid()
      modifies repo.records.Values
      ensures Valid() && repo.records == old(repo.records)
      ensures forall a | a != als :: StateOf(a) == old(StateOf(a))
      ensures StateOf(als) == Checked(old(StateOf(als)), now, read)
      ensures found == OutOfStep(old(StateOf(als)))
      ensures repaired == (found && !OutOfStep(StateOf(als)))
      ensures repaired ==>
        && als in aliases && als in repo.records
        && repo.records[als].collectionName == Some(aliases[als])
        && (read(aliases[als]).Empty? ==>
              && repo.records[als].embeddingProvider == Some("") && repo.records[als].embeddingModel == Some("")
              && repo.records[als].embeddingDimensions == Some(0) && repo.records[als].configVersion == Some(""))
    {
      if als !in aliases {
        return false, false;
      }
      var target := aliases[als];
      if als !in repo.records {
        return true, false;
      }
      if repo.records[als].collectionName == Some(target) {
        return false, false;
      }
      var outcome := read(target);
      if outcome.Raises? || (outcome.Stored? && target !in identities) {
        return true, false;
      }
      var identity := if outcome.Empty? then BLANK else identities[target];
      var _ := repo.ReconcileFromQdrant(als, target, identity, ParseBuildId(target), now);
      return true, true;
    }

    /** Out of step, and brought in step by a check. */
    predicate Repairable(s: Sys, now: int, read: string -> Reading) {
      OutOfStep(s) && !OutOfStep(Checked(s, now, read))
    }

    /** A second check of an alias changes nothing, and no check puts an alias out of step. */
    lemma CheckedTwice(s: Sys, now: int, read: string -> Reading)
      ensures var t := Checked(s, now, read);
              Checked(t, now, read) == t && (OutOfStep(t) ==> t == s)
    {
    }

    /** The aliases repaired among those listed. */
    ghost function RepairedAmong(listed: seq<string>, was: map<string, Sys>, now: int, read: string -> Reading)
      : set<string>
      requires forall a | a in listed :: a in was
    {
      set a | a in listed && Repairable(was[a], now, read)
    }

    /** The places of the list whose alias stays out of step. */
    ghost function FailedAmong(listed: seq<string>, was: map<string, Sys>, now: int, read: string -> Reading)
      : set<int>
      requires forall a | a in listed :: a in was
    {
      set i | 0 <= i < |listed| && OutOfStep(Checked(was[listed[i]], now, read))
    }

    lemma OneMoreListed(listed: seq<string>, a: string, was: map<string, Sys>, now: int, read: string -> Reading)
      requires a in was && forall b | b in listed :: b in was
      ensures RepairedAmong(listed + [a], was, now, read)
           == RepairedAmong(listed, was, now, read) + (if Repairable(was[a], now, read) then {a} else {})
      ensures FailedAmong(listed + [a], was, now, read)
           == FailedAmong(listed, was, now, read)
              + (if OutOfStep(Checked(was[a], now, read)) then {|listed|} else {})
    {
      var more, stays := listed + [a], OutOfStep(Checked(was[a], now, read));
      forall i
        ensures i in FailedAmong(more, was, now, read)
           <==> i in FailedAmong(listed, was, now, read) || (i == |listed| && stays)
      {
        assert 0 <= i < |listed| ==> more[i] == listed[i];
      }
    }

    /** Each repaired alias is counted once, and each place of the list whose alias cannot be repaired as a failure. */
    ghost predicate Counts(pass: Pass, listed: seq<string>, was: map<string, Sys>, now: int, read: string -> Reading)
      requires forall a | a in listed :: a in was
    {
      && pass.found == pass.repaired + pass.failed
      && pass.repaired == |RepairedAmong(listed, was, now, read)|
      && pass.failed == |FailedAmong(listed, was, now, read)|
    }

    lemma CountsOneMore(pass: Pass, listed: seq<string>, a: string, was: map<string, Sys>, now: int,
                        read: string -> Reading, after: Pass)
      requires a in was && (forall b | b in listed :: b in was) && Counts(pass, listed, was, now, read)
      requires after ==
        if Repairable(was[a], now, read) && a !in listed then Pass(pass.found + 1, pass.repaired + 1, pass.failed)
        else if OutOfStep(Checked(was[a], now, read)) then Pass(pass.found + 1, pass.repaired, pass.failed + 1)
        else pass
      ensures Counts(after, listed + [a], was, now, read)
    {
      OneMoreListed(listed, a, was, now, read);
      var repaired := RepairedAmong(listed, was, now, read);
      assert Repairable(was[a], now, read) ==> (a in repaired <==> a in listed);
      assert a in repaired ==> repaired + {a} == repaired;
    }

    /** Nothing found means that every listed alias was in step, nothing failed that every one is. */
    lemma NothingCounted(pass: Pass, listed: seq<string>, was: map<string, Sys>, now: int, read: string -> Reading)
      requires (forall a | a in listed :: a in was) && Counts(pass, listed, was, now, read)
      ensures (forall a | a in listed :: !OutOfStep(was[a])) <==> pass.found == 0
      ensures (forall a | a in listed :: !OutOfStep(Checked(was[a], now, read))) <==> pass.failed == 0
    {
      forall a | a in listed
        ensures OutOfStep(was[a]) ==> pass.found > 0
        ensures OutOfStep(Checked(was[a], now, read)) ==> pass.failed > 0
      {
        var i :| 0 <= i < |listed| && listed[i] == a;
        assert OutOfStep(Checked(was[a], now, read)) ==> i in FailedAmong(listed, was, now, read);
        assert Repairable(was[a], now, read) ==> a in RepairedAmong(listed, was, now, read);
      }
      if forall a | a in listed :: !OutOfStep(Checked(was[a], now, read)) {
        assert FailedAmong(listed, was, now, read) == {};
      }
      if forall a | a in listed :: !OutOfStep(was[a]) {
        forall a | a in listed
          ensures !OutOfStep(Checked(was[a], now, read))
        {
          CheckedTwice(was[a], now, read);
        }
        assert RepairedAmong(listed, was, now, read) == {};
      }
    }

    /**
     One startup pass: every listed alias is checked, no other record is touched, and the counts are
     exact.
     */
    method StartupReconcile(toCheck: seq<string>, now: int, read: string -> Reading) returns (pass: Pass)
      requires Valid()
      modifies repo.records.Values
      ensures Valid() && repo.records == old(repo.records)
      ensures forall a :: StateOf(a) == if a in toCheck then Checked(old(StateOf(a)), now, read) else old(StateOf(a))
      ensures Counts(pass, toCheck, map a | a in toCheck :: old(StateOf(a)), now, read)
    {
      pass := Pass(0, 0, 0);
      ghost var was := map a | a in toCheck :: StateOf(a);
      for i := 0 to |toCheck|
        invariant Valid() && repo.records == old(repo.records)
        invariant forall a :: StateOf(a) ==
                    if a in toCheck[..i] then Checked(old(StateOf(a)), now, read) else old(StateOf(a))
        invariant Counts(pass, toCheck[..i], was, now, read)
      {
        var als := toCheck[i];
        assert toCheck[..i + 1] == toCheck[..i] + [als];
        CheckedTwice(was[als], now, read);
        var found, repaired := ReconcileOne(als, now, read);
        ghost var before := pass;
        if found && repaired {
          pass := Pass(pass.found + 1, pass.repaired + 1, pass.failed);
        } else if found {
          pass := Pass(pass.found + 1, pass.repaired, pass.failed + 1);
        }
        CountsOneMore(before, toCheck[..i], als, was, now, read, pass);
      }
      assert toCheck[..|toCheck|] == toCheck;
    }
  }
}
