/**
 The cost ledger and the budget guard. Money is counted in units of 10^-8 USD, the ledger's
 column scale. The guard reads the two totals one after the other and reserves nothing, so
 operations admitted side by side do not see each other.
 */
module Budget {
  import opened Options

  datatype Cost = Cost(kb: string, workspace: string, operation: string, usd: int, tokens: int, at: int)

  datatype LedgerError = NegativeCost(usd: int) | NegativeTokens(tokens: int)

  // ----- totals -----

  predicate Matches(c: Cost, kb: Option<string>, workspace: Option<string>, since: Option<int>) {
    && (kb.Some? ==> c.kb == kb.value)
    && (workspace.Some? ==> c.workspace == workspace.value)
    && (since.Some? ==> c.at > since.value)
  }

  function Total(entries: seq<Cost>, kb: Option<string>, workspace: Option<string>, since: Option<int>): int {
    if entries == [] then 0
    else
      var last := entries[|entries| - 1];
      Total(entries[..|entries| - 1], kb, workspace, since)
        + (if Matches(last, kb, workspace, since) then last.usd else 0)
  }

  /** One entry counts when it passes every filter that is given; only entries after `since` do. */
  lemma TotalOfOneMore(entries: seq<Cost>, c: Cost, kb: Option<string>, workspace: Option<string>, since: Option<int>)
    ensures Total([], kb, workspace, since) == 0
    ensures Total(entries + [c], kb, workspace, since) == Total(entries, kb, workspace, since)
              + (if (kb == None || kb == Some(c.kb)) && (workspace == None || workspace == Some(c.workspace))
                    && (since == None || since.value < c.at) then c.usd else 0)
  {
    assert (entries + [c])[..|entries|] == entries;
  }

  class CostLedgerRepository {
    var entries: seq<Cost>

    constructor ()
      ensures entries == []
    {
      entries := [];
    }

    method Record(kb: string, workspace: string, operation: string, usd: int, tokens: int, at: int)
      returns (result: Result<Cost, LedgerError>)
      modifies this
      ensures usd < 0 ==> result == Err(NegativeCost(usd))
      ensures usd >= 0 && tokens < 0 ==> result == Err(NegativeTokens(tokens))
      ensures usd >= 0 && tokens >= 0 ==> result == Ok(Cost(kb, workspace, operation, usd, tokens, at))
      ensures entries == old(entries) + (if result.Ok? then [result.value] else [])
    {
      if usd < 0 {
        return Err(NegativeCost(usd));
      }
      if tokens < 0 {
        return Err(NegativeTokens(tokens));
      }
      var entry := Cost(kb, workspace, operation, usd, tokens, at);
      entries := entries + [entry];
      return Ok(entry);
    }

    method AccruedUsd(kb: Option<string>, workspace: Option<string>, since: Option<int>) returns (total: int)
      ensures total == Total(entries, kb, workspace, since)
    {
      total := 0;
      for i := 0 to |entries|
        invariant total == Total(entries[..i], kb, workspace, since)
      {
        assert entries[..i + 1][..i] == entries[..i];
        if Matches(entries[i], kb, workspace, since) {
          total := total + entries[i].usd;
        }
      }
      assert entries[..|entries|] == entries;
    }
  }

  // ----- the guard -----

  datatype Decision = Allow | PauseKbCap | PauseWorkspaceCap

  predicate Fits(cap: Option<int>, accrued: int, projected: int) {
    cap.Some? ==> accrued + projected <= cap.value
  }

  function Decide(kbCap: Option<int>, workspaceCap: Option<int>, kbAccrued: int, workspaceAccrued: int, projected: int)
    : Decision
  {
    if !Fits(kbCap, kbAccrued, projected) then PauseKbCap
    else if !Fits(workspaceCap, workspaceAccrued, projected) then PauseWorkspaceCap
    else Allow
  }

  class BudgetGuard {
    const kbCap: Option<int>
    const workspaceCap: Option<int>
    const repo: CostLedgerRepository

    constructor (kbCap: Option<int>, workspaceCap: Option<int>, repo: CostLedgerRepository)
      ensures this.kbCap == kbCap && this.workspaceCap == workspaceCap && this.repo == repo
    {
      this.kbCap, this.workspaceCap, this.repo := kbCap, workspaceCap, repo;
    }

    method Check(kb: string, workspace: string, projected: int) returns (decision: Decision)
      ensures decision == Decide(kbCap, workspaceCap, Total(repo.entries, Some(kb), None, None),
                                 Total(repo.entries, None, Some(workspace), None), projected)
      ensures decision == PauseKbCap <==>
                kbCap.Some? && Total(repo.entries, Some(kb), None, None) + projected > kbCap.value
      ensures decision == PauseWorkspaceCap <==>
                && decision != PauseKbCap && workspaceCap.Some?
                && Total(repo.entries, None, Some(workspace), None) + projected > workspaceCap.value
    {
      if kbCap.Some? {
        var kbAccrued := repo.AccruedUsd(Some(kb), None, None);
        if kbAccrued + projected > kbCap.value {
          return PauseKbCap;
        }
      }
      if workspaceCap.Some? {
        var workspaceAccrued := repo.AccruedUsd(None, Some(workspace), None);
        if workspaceAccrued + projected > workspaceCap.value {
          return PauseWorkspaceCap;
        }
      }
      return Allow;
    }
  }

  // ----- concurrent operations -----

  /** An operation on its way: each of the two reads of the guard is a step of its own. */
  datatype Stage = Checking | PastKb | Admitted | Ended

  datatype Operation = Operation(kb: string, workspace: string, projected: int, stage: Stage)

  datatype Sys = Sys(ledger: seq<Cost>, ops: seq<Operation>)

  /** What a cap is about. */
  datatype Scope = OfKb(id: string) | OfWorkspace(id: string)

  type Caps = Scope -> Option<int>

  datatype Action =
    | Begin(kb: string, workspace: string, projected: int)
    | CheckKb(i: nat)
    | CheckWorkspace(i: nat)
    | Spend(i: nat, usd: int, tokens: int, at: int)
    | Abandon(i: nat)

  function Accrued(ledger: seq<Cost>, scope: Scope): int {
    match scope
    case OfKb(id) => Total(ledger, Some(id), None, None)
    case OfWorkspace(id) => Total(ledger, None, Some(id), None)
  }

  predicate Enabled(s: Sys, a: Action) {
    match a
    case Begin(_, _, projected) => 0 <= projected
    case CheckKb(i) => i < |s.ops| && s.ops[i].stage.Checking?
    case CheckWorkspace(i) => i < |s.ops| && s.ops[i].stage.PastKb?
    case Spend(i, usd, _, _) => i < |s.ops| && s.ops[i].stage.Admitted? && 0 <= usd <= s.ops[i].projected
    case Abandon(i) => i < |s.ops| && (s.ops[i].stage.PastKb? || s.ops[i].stage.Admitted?)
  }

  function Step(caps: Caps, s: Sys, a: Action): Sys
    requires Enabled(s, a)
  {
    match a
    case Begin(kb, workspace, projected) => s.(ops := s.ops + [Operation(kb, workspace, projected, Checking)])
    case CheckKb(i) =>
      var o := s.ops[i];
      var fits := Fits(caps(OfKb(o.kb)), Accrued(s.ledger, OfKb(o.kb)), o.projected);
      s.(ops := s.ops[i := o.(stage := if fits then PastKb else Ended)])
    case CheckWorkspace(i) =>
      var o := s.ops[i];
      var fits := Fits(caps(OfWorkspace(o.workspace)), Accrued(s.ledger, OfWorkspace(o.workspace)), o.projected);
      s.(ops := s.ops[i := o.(stage := if fits then Admitted else Ended)])
    case Spend(i, usd, tokens, at) =>
      var o := s.ops[i];
      Sys(s.ledger + [Cost(o.kb, o.workspace, "", usd, tokens, at)], s.ops[i := o.(stage := Ended)])
    case Abandon(i) => s.(ops := s.ops[i := s.ops[i].(stage := Ended)])
  }

  /** Without interleaving the two steps admit an operation exactly when the guard allows it. */
  lemma AtomicCheckIsTheGuard(caps: Caps, s: Sys, i: nat)
    requires i < |s.ops| && s.ops[i].stage.Checking?
    ensures var o := s.ops[i];
            var checked := Step(caps, s, CheckKb(i));
            var done := if checked.ops[i].stage.PastKb? then Step(caps, checked, CheckWorkspace(i)) else checked;
            done.ops[i].stage.Admitted? <==>
              Decide(caps(OfKb(o.kb)), caps(OfWorkspace(o.workspace)), Accrued(s.ledger, OfKb(o.kb)),
                     Accrued(s.ledger, OfWorkspace(o.workspace)), o.projected) == Allow
  {
  }

  /**
   An operation counts against a cap from the check that let it pass until it has recorded its
   cost or given up.
   */
  predicate CountsFor(o: Operation, scope: Scope) {
    match scope
    case OfKb(id) => o.kb == id && (o.stage.PastKb? || o.stage.Admitted?)
    case OfWorkspace(id) => o.workspace == id && o.stage.Admitted?
  }

  function Pending(o: Operation, scope: Scope): int {
    if CountsFor(o, scope) then o.projected else 0
  }

  function Outstanding(ops: seq<Operation>, scope: Scope): int {
    if ops == [] then 0 else Outstanding(ops[..|ops| - 1], scope) + Pending(ops[|ops| - 1], scope)
  }

  function Count(ops: seq<Operation>, scope: Scope): nat {
    if ops == [] then 0
    else Count(ops[..|ops| - 1], scope) + (if CountsFor(ops[|ops| - 1], scope) then 1 else 0)
  }

  lemma {:induction false} ReplaceOne(ops: seq<Operation>, i: nat, o: Operation, scope: Scope)
    requires i < |ops|
    ensures Outstanding(ops[i := o], scope) == Outstanding(ops, scope) - Pending(ops[i], scope) + Pending(o, scope)
    ensures Count(ops[i := o], scope) == Count(ops, scope)
              - (if CountsFor(ops[i], scope) then 1 else 0) + (if CountsFor(o, scope) then 1 else 0)
  {
    var front := ops[..|ops| - 1];
    if i == |ops| - 1 {
      assert ops[i := o][..|ops| - 1] == front;
    } else {
      ReplaceOne(front, i, o, scope);
      assert ops[i := o][..|ops| - 1] == front[i := o];
    }
  }

  predicate ProjectionsWithin(ops: seq<Operation>, p: int) {
    forall i | 0 <= i < |ops| :: 0 <= ops[i].projected <= p
  }

  lemma {:induction false} OutstandingWithin(ops: seq<Operation>, scope: Scope, p: int)
    requires ProjectionsWithin(ops, p)
    ensures 0 <= Outstanding(ops, scope) <= Count(ops, scope) * p
  {
    if ops != [] {
      var front := ops[..|ops| - 1];
      OutstandingWithin(front, scope, p);
      var c := Count(front, scope);
      assert (c + 1) * p == c * p + p;
    }
  }

  /** What has been spent and what may still come, against the cap plus what k operations can overlook. */
  predicate WithinCap(s: Sys, scope: Scope, cap: int, k: nat, p: int) {
    Accrued(s.ledger, scope) + Outstanding(s.ops, scope) <= cap + (k - 1) * p
  }

  lemma PassingKeepsCap(s: Sys, scope: Scope, cap: int, k: nat, p: int, i: nat, o: Operation)
    requires i < |s.ops| && ProjectionsWithin(s.ops, p)
    requires !CountsFor(s.ops[i], scope) && CountsFor(o, scope) && o.projected == s.ops[i].projected
    requires Accrued(s.ledger, scope) + o.projected <= cap && Count(s.ops[i := o], scope) <= k
    ensures WithinCap(s.(ops := s.ops[i := o]), scope, cap, k, p)
  {
    ReplaceOne(s.ops, i, o, scope);
    OutstandingWithin(s.ops, scope, p);
    Fewer(Count(s.ops, scope), k - 1, p, Outstanding(s.ops, scope));
  }

  lemma Fewer(c: int, d: int, p: int, total: int)
    requires c <= d && 0 <= p && total <= c * p
    ensures total <= d * p
  {
    assert (d - c) * p >= 0;
    assert (d - c) * p == d * p - c * p;
  }

  lemma AccruedSnoc(ledger: seq<Cost>, c: Cost, scope: Scope)
    ensures Accrued(ledger + [c], scope) == Accrued(ledger, scope)
              + (if (match scope case OfKb(id) => c.kb == id case OfWorkspace(id) => c.workspace == id) then c.usd
                 else 0)
  {
    assert (ledger + [c])[..|ledger|] == ledger;
  }

  lemma StepKeepsCap(caps: Caps, s: Sys, a: Action, scope: Scope, k: nat, p: int)
    requires Enabled(s, a) && caps(scope).Some? && WithinCap(s, scope, caps(scope).value, k, p)
    requires ProjectionsWithin(s.ops, p) && (a.Begin? ==> a.projected <= p)
    requires Count(Step(caps, s, a).ops, scope) <= k
    ensures WithinCap(Step(caps, s, a), scope, caps(scope).value, k, p)
    ensures ProjectionsWithin(Step(caps, s, a).ops, p)
  {
    var t := Step(caps, s, a);
    match a
    case Begin(_, _, _) =>
      assert t.ops[..|s.ops|] == s.ops;
    case CheckKb(i) =>
      ReplaceOne(s.ops, i, t.ops[i], scope);
      if CountsFor(t.ops[i], scope) {
        PassingKeepsCap(s, scope, caps(scope).value, k, p, i, t.ops[i]);
      }
    case CheckWorkspace(i) =>
      ReplaceOne(s.ops, i, t.ops[i], scope);
      if CountsFor(t.ops[i], scope) && !CountsFor(s.ops[i], scope) {
        PassingKeepsCap(s, scope, caps(scope).value, k, p, i, t.ops[i]);
      }
    case Spend(i, usd, tokens, at) =>
      ReplaceOne(s.ops, i, t.ops[i], scope);
      AccruedSnoc(s.ledger, Cost(s.ops[i].kb, s.ops[i].workspace, "", usd, tokens, at), scope);
    case Abandon(i) =>
      ReplaceOne(s.ops, i, t.ops[i], scope);
  }

  // ----- whole runs -----

  ghost predicate Legal(caps: Caps, s: Sys, actions: seq<Action>)
    decreases |actions|
  {
    actions != [] ==> Enabled(s, actions[0]) && Legal(caps, Step(caps, s, actions[0]), actions[1..])
  }

  ghost function Run(caps: Caps, s: Sys, actions: seq<Action>): Sys
    requires Legal(caps, s, actions)
    decreases |actions|
  {
    if actions == [] then s else Run(caps, Step(caps, s, actions[0]), actions[1..])
  }

  /** At no time do more than k operations count for the scope. */
  ghost predicate AtMost(caps: Caps, s: Sys, actions: seq<Action>, scope: Scope, k: nat)
    requires Legal(caps, s, actions)
    decreases |actions|
  {
    Count(s.ops, scope) <= k && (actions != [] ==> AtMost(caps, Step(caps, s, actions[0]), actions[1..], scope, k))
  }

  ghost predicate SmallProjections(actions: seq<Action>, p: int) {
    forall a | a in actions && a.Begin? :: a.projected <= p
  }

  lemma {:induction false} RunKeepsCap(caps: Caps, s: Sys, actions: seq<Action>, scope: Scope, k: nat, p: int)
    requires Legal(caps, s, actions) && AtMost(caps, s, actions, scope, k) && SmallProjections(actions, p)
    requires caps(scope).Some? && ProjectionsWithin(s.ops, p) && WithinCap(s, scope, caps(scope).value, k, p)
    ensures WithinCap(Run(caps, s, actions), scope, caps(scope).value, k, p)
    ensures ProjectionsWithin(Run(caps, s, actions).ops, p)
    decreases |actions|
  {
    if actions != [] {
      StepKeepsCap(caps, s, actions[0], scope, k, p);
      RunKeepsCap(caps, Step(caps, s, actions[0]), actions[1..], scope, k, p);
    }
  }

  /** A run with at most k operations of projection at most p counting for the scope at a time. */
  ghost predicate Within(caps: Caps, s: Sys, actions: seq<Action>, scope: Scope, k: nat, p: int) {
    Legal(caps, s, actions) && AtMost(caps, s, actions, scope, k) && SmallProjections(actions, p)
  }

  /**
   In every interleaving in which at most k operations of projection at most p count for a
   capped scope, what was spent there never exceeds the cap by more than k-1 projections;
   with operations one at a time the cap holds.
   */
  lemma SpendingStaysWithin(caps: Caps, ledger: seq<Cost>, actions: seq<Action>, scope: Scope, k: nat, p: int)
    requires k >= 1 && p >= 0 && caps(scope).Some? && Accrued(ledger, scope) <= caps(scope).value
    requires Within(caps, Sys(ledger, []), actions, scope, k, p)
    ensures Accrued(Run(caps, Sys(ledger, []), actions).ledger, scope) <= caps(scope).value + (k - 1) * p
    ensures k == 1 ==> Accrued(Run(caps, Sys(ledger, []), actions).ledger, scope) <= caps(scope).value
  {
    assert (k - 1) * p >= 0;
    RunKeepsCap(caps, Sys(ledger, []), actions, scope, k, p);
    OutstandingWithin(Run(caps, Sys(ledger, []), actions).ops, scope, p);
  }

  // ----- the bound is reached -----

  /** On top of a ledger, m operations of projection p have recorded that much and n more have been admitted. */
  function Racing(ledger: seq<Cost>, kb: string, workspace: string, p: int, admitted: nat, recorded: nat): Sys {
    Sys(ledger + Recorded(kb, workspace, p, recorded), RacingOps(kb, workspace, p, admitted, recorded))
  }

  function RacingOps(kb: string, workspace: string, p: int, admitted: nat, recorded: nat): (ops: seq<Operation>)
    ensures |ops| == recorded + admitted
    ensures forall i | 0 <= i < recorded :: ops[i] == Operation(kb, workspace, p, Ended)
    ensures forall i | recorded <= i < recorded + admitted :: ops[i] == Operation(kb, workspace, p, Admitted)
  {
    Ops(kb, workspace, p, recorded, Ended) + Ops(kb, workspace, p, admitted, Admitted)
  }

  function Ops(kb: string, workspace: string, p: int, n: nat, stage: Stage): (ops: seq<Operation>)
    ensures |ops| == n && forall i | 0 <= i < n :: ops[i] == Operation(kb, workspace, p, stage)
  {
    seq(n, i => Operation(kb, workspace, p, stage))
  }

  function Recorded(kb: string, workspace: string, p: int, n: nat): (ledger: seq<Cost>)
    ensures |ledger| == n
  {
    if n == 0 then [] else Recorded(kb, workspace, p, n - 1) + [Cost(kb, workspace, "", p, 0, 0)]
  }

  /** The scopes an operation of this knowledge base and workspace is billed to. */
  predicate Bills(kb: string, workspace: string, scope: Scope) {
    scope == OfKb(kb) || scope == OfWorkspace(workspace)
  }

  lemma {:induction false} RecordedTotal(ledger: seq<Cost>, kb: string, workspace: string, p: int, n: nat, scope: Scope)
    requires Bills(kb, workspace, scope)
    ensures Accrued(ledger + Recorded(kb, workspace, p, n), scope) == Accrued(ledger, scope) + n * p
  {
    if n == 0 {
      assert ledger + [] == ledger;
    } else {
      var c := Cost(kb, workspace, "", p, 0, 0);
      var before := ledger + Recorded(kb, workspace, p, n - 1);
      RecordedTotal(ledger, kb, workspace, p, n - 1, scope);
      AccruedSnoc(before, c, scope);
      assert ledger + Recorded(kb, workspace, p, n) == before + [c];
      OneMore(n, p);
    }
  }

  lemma OneMore(n: int, p: int)
    ensures (n - 1) * p + p == n * p
  {
  }

  /** From here some run within the limits ends with this much spent in the scope. */
  ghost predicate CanSpend(caps: Caps, s: Sys, scope: Scope, k: nat, p: int, usd: int) {
    exists actions :: Within(caps, s, actions, scope, k, p) && Accrued(Run(caps, s, actions).ledger, scope) == usd
  }

  lemma CanSpendBefore(caps: Caps, s: Sys, a: Action, scope: Scope, k: nat, p: int, usd: int)
    requires Enabled(s, a) && CanSpend(caps, Step(caps, s, a), scope, k, p, usd)
    requires Count(s.ops, scope) <= k && (a.Begin? ==> a.projected <= p)
    ensures CanSpend(caps, s, scope, k, p, usd)
  {
    var t := Step(caps, s, a);
    var rest :| Within(caps, t, rest, scope, k, p) && Accrued(Run(caps, t, rest).ledger, scope) == usd;
    assert ([a] + rest)[1..] == rest;
    assert Within(caps, s, [a] + rest, scope, k, p) && Accrued(Run(caps, s, [a] + rest).ledger, scope) == usd;
  }

  lemma CountSnoc(ops: seq<Operation>, o: Operation, scope: Scope)
    ensures Count(ops + [o], scope) == Count(ops, scope) + (if CountsFor(o, scope) then 1 else 0)
  {
    assert (ops + [o])[..|ops|] == ops;
  }

  /** Operations that have ended do not count. */
  lemma {:induction false} RacingCount(kb: string, workspace: string, p: int, admitted: nat, recorded: nat,
                                       scope: Scope)
    ensures Count(RacingOps(kb, workspace, p, admitted, recorded), scope) <= admitted
    decreases admitted + recorded
  {
    var ops := RacingOps(kb, workspace, p, admitted, recorded);
    if admitted > 0 {
      var before := RacingOps(kb, workspace, p, admitted - 1, recorded);
      RacingCount(kb, workspace, p, admitted - 1, recorded, scope);
      assert ops == before + [Operation(kb, workspace, p, Admitted)];
      CountSnoc(before, Operation(kb, workspace, p, Admitted), scope);
    } else if recorded > 0 {
      var before := RacingOps(kb, workspace, p, 0, recorded - 1);
      RacingCount(kb, workspace, p, 0, recorded - 1, scope);
      assert ops == before + [Operation(kb, workspace, p, Ended)];
      CountSnoc(before, Operation(kb, workspace, p, Ended), scope);
    }
  }

  lemma RecordStep(caps: Caps, ledger: seq<Cost>, kb: string, workspace: string, p: int, admitted: nat, recorded: nat)
    requires p >= 0 && admitted > 0
    ensures var s := Racing(ledger, kb, workspace, p, admitted, recorded);
            && Enabled(s, Spend(recorded, p, 0, 0))
            && Step(caps, s, Spend(recorded, p, 0, 0)) == Racing(ledger, kb, workspace, p, admitted - 1, recorded + 1)
  {
    var s := Racing(ledger, kb, workspace, p, admitted, recorded);
    var t := Step(caps, s, Spend(recorded, p, 0, 0));
    assert t.ops == Racing(ledger, kb, workspace, p, admitted - 1, recorded + 1).ops;
    assert t.ledger == ledger + Recorded(kb, workspace, p, recorded + 1);
  }

  lemma AlreadySpent(caps: Caps, s: Sys, scope: Scope, k: nat, p: int)
    requires Count(s.ops, scope) <= k
    ensures CanSpend(caps, s, scope, k, p, Accrued(s.ledger, scope))
  {
    assert Within(caps, s, [], scope, k, p) && Run(caps, s, []) == s;
  }

  lemma OneRecords(caps: Caps, ledger: seq<Cost>, kb: string, workspace: string, p: int,
                   admitted: nat, recorded: nat, scope: Scope, k: nat, usd: int)
    requires p >= 0 && 0 < admitted <= k
    requires CanSpend(caps, Racing(ledger, kb, workspace, p, admitted - 1, recorded + 1), scope, k, p, usd)
    ensures CanSpend(caps, Racing(ledger, kb, workspace, p, admitted, recorded), scope, k, p, usd)
  {
    RacingCount(kb, workspace, p, admitted, recorded, scope);
    RecordStep(caps, ledger, kb, workspace, p, admitted, recorded);
    var s := Racing(ledger, kb, workspace, p, admitted, recorded);
    CanSpendBefore(caps, s, Spend(recorded, p, 0, 0), scope, k, p, usd);
  }

  lemma {:induction false} AllRecord(caps: Caps, ledger: seq<Cost>, kb: string, workspace: string, p: int,
                                     recorded: nat, scope: Scope, k: nat, usd: int)
    requires p >= 0 && recorded <= k
    requires usd == Accrued(ledger + Recorded(kb, workspace, p, k), scope)
    ensures CanSpend(caps, Racing(ledger, kb, workspace, p, k - recorded, recorded), scope, k, p, usd)
    decreases k - recorded
  {
    if recorded == k {
      RacingCount(kb, workspace, p, 0, k, scope);
      AlreadySpent(caps, Racing(ledger, kb, workspace, p, 0, k), scope, k, p);
    } else {
      AllRecord(caps, ledger, kb, workspace, p, recorded + 1, scope, k, usd);
      OneRecords(caps, ledger, kb, workspace, p, k - recorded, recorded, scope, k, usd);
    }
  }

  /** There is room for one operation of projection p in both scopes. */
  predicate RoomFor(caps: Caps, ledger: seq<Cost>, kb: string, workspace: string, p: int) {
    && Fits(caps(OfKb(kb)), Accrued(ledger, OfKb(kb)), p)
    && Fits(caps(OfWorkspace(workspace)), Accrued(ledger, OfWorkspace(workspace)), p)
  }

  /** Where there is room for one more, one more is admitted beside those that have been. */
  lemma OneMoreIsAdmitted(caps: Caps, ledger: seq<Cost>, kb: string, workspace: string, p: int,
                          admitted: nat, scope: Scope, k: nat, usd: int)
    requires 0 <= p && RoomFor(caps, ledger, kb, workspace, p) && admitted < k
    requires CanSpend(caps, Racing(ledger, kb, workspace, p, admitted + 1, 0), scope, k, p, usd)
    ensures CanSpend(caps, Racing(ledger, kb, workspace, p, admitted, 0), scope, k, p, usd)
  {
    var s := Racing(ledger, kb, workspace, p, admitted, 0);
    assert s.ledger == ledger;
    var s1 := Step(caps, s, Begin(kb, workspace, p));
    var s2 := Step(caps, s1, CheckKb(admitted));
    assert s1.ops == s.ops + [Operation(kb, workspace, p, Checking)];
    assert s2.ops == s.ops + [Operation(kb, workspace, p, PastKb)];
    assert Step(caps, s2, CheckWorkspace(admitted)) == Racing(ledger, kb, workspace, p, admitted + 1, 0);
    RacingCount(kb, workspace, p, admitted, 0, scope);
    CountSnoc(s.ops, Operation(kb, workspace, p, Checking), scope);
    CountSnoc(s.ops, Operation(kb, workspace, p, PastKb), scope);
    CanSpendBefore(caps, s2, CheckWorkspace(admitted), scope, k, p, usd);
    CanSpendBefore(caps, s1, CheckKb(admitted), scope, k, p, usd);
    CanSpendBefore(caps, s, Begin(kb, workspace, p), scope, k, p, usd);
  }

  lemma {:induction false} AllAreAdmitted(caps: Caps, ledger: seq<Cost>, kb: string, workspace: string, p: int,
                                          admitted: nat, scope: Scope, k: nat, usd: int)
    requires 0 <= p && RoomFor(caps, ledger, kb, workspace, p) && admitted <= k
    requires CanSpend(caps, Racing(ledger, kb, workspace, p, k, 0), scope, k, p, usd)
    ensures CanSpend(caps, Racing(ledger, kb, workspace, p, admitted, 0), scope, k, p, usd)
    decreases k - admitted
  {
    if admitted < k {
      AllAreAdmitted(caps, ledger, kb, workspace, p, admitted + 1, scope, k, usd);
      OneMoreIsAdmitted(caps, ledger, kb, workspace, p, admitted, scope, k, usd);
    }
  }

  /** One projection is left under the scope's cap, and there is room for it in the other scope. */
  predicate OneLeft(caps: Caps, ledger: seq<Cost>, kb: string, workspace: string, p: int, scope: Scope) {
    && p >= 0 && Bills(kb, workspace, scope) && RoomFor(caps, ledger, kb, workspace, p)
    && caps(scope).Some? && Accrued(ledger, scope) + p == caps(scope).value
  }

  /**
   The bound is reached for every capped scope, knowledge base or workspace, by k operations of
   projection p side by side and no more: with one projection left, they end at the cap plus
   k - 1 projections.
   */
  lemma BoundIsReached(caps: Caps, ledger: seq<Cost>, kb: string, workspace: string, p: int, k: nat, scope: Scope)
    requires k >= 1 && OneLeft(caps, ledger, kb, workspace, p, scope)
    ensures CanSpend(caps, Sys(ledger, []), scope, k, p, caps(scope).value + (k - 1) * p)
  {
    var usd := Accrued(ledger + Recorded(kb, workspace, p, k), scope);
    AllRecord(caps, ledger, kb, workspace, p, 0, scope, k, usd);
    AllAreAdmitted(caps, ledger, kb, workspace, p, 0, scope, k, usd);
    RecordedTotal(ledger, kb, workspace, p, k, scope);
    assert ledger + [] == ledger;
    assert Racing(ledger, kb, workspace, p, 0, 0) == Sys(ledger, []);
    OneMore(k, p);
  }

  /** No run within the limits ends above the cap. */
  ghost predicate CapHolds(caps: Caps, s: Sys, scope: Scope, k: nat, p: int)
    requires caps(scope).Some?
  {
    forall actions | Within(caps, s, actions, scope, k, p) ::
      Accrued(Run(caps, s, actions).ledger, scope) <= caps(scope).value
  }

  lemma NothingOverlooked(k: nat, p: int)
    requires k >= 1 && p >= 0
    ensures (k - 1) * p > 0 <==> k > 1 && p > 0
  {
  }

  /** With one projection left the cap holds over all runs exactly for operations one at a time or that cost nothing. */
  lemma CapHoldsExactly(caps: Caps, ledger: seq<Cost>, kb: string, workspace: string, p: int, k: nat, scope: Scope)
    requires k >= 1 && OneLeft(caps, ledger, kb, workspace, p, scope)
    ensures CapHolds(caps, Sys(ledger, []), scope, k, p) <==> k == 1 || p == 0
  {
    var s, cap, over := Sys(ledger, []), caps(scope).value, (k - 1) * p;
    NothingOverlooked(k, p);
    if over > 0 {
      BoundIsReached(caps, ledger, kb, workspace, p, k, scope);
      var actions :| Within(caps, s, actions, scope, k, p)
                  && Accrued(Run(caps, s, actions).ledger, scope) == cap + over;
      assert !CapHolds(caps, s, scope, k, p);
    } else {
      forall actions | Within(caps, s, actions, scope, k, p)
        ensures Accrued(Run(caps, s, actions).ledger, scope) <= cap
      {
        SpendingStaysWithin(caps, ledger, actions, scope, k, p);
      }
    }
  }

  // ----- workspaces are the sum of their knowledge bases -----

  /** Each knowledge base is billed to one workspace. */
  predicate OneWorkspaceEach(ledger: seq<Cost>, owner: map<string, string>) {
    forall i | 0 <= i < |ledger| :: ledger[i].kb in owner && owner[ledger[i].kb] == ledger[i].workspace
  }

  function SumOver(ledger: seq<Cost>, kbs: seq<string>): int {
    if kbs == [] then 0 else Accrued(ledger, OfKb(kbs[0])) + SumOver(ledger, kbs[1..])
  }

  predicate Distinct(kbs: seq<string>) {
    forall i, k | 0 <= i < k < |kbs| :: kbs[i] != kbs[k]
  }

  lemma {:induction false} SumOverSnoc(ledger: seq<Cost>, c: Cost, kbs: seq<string>)
    requires Distinct(kbs)
    ensures SumOver(ledger + [c], kbs) == SumOver(ledger, kbs) + (if c.kb in kbs then c.usd else 0)
  {
    if kbs != [] {
      AccruedSnoc(ledger, c, OfKb(kbs[0]));
      SumOverSnoc(ledger, c, kbs[1..]);
    }
  }

  lemma {:induction false} SumOverNothing(kbs: seq<string>)
    ensures SumOver([], kbs) == 0
  {
    if kbs != [] {
      SumOverNothing(kbs[1..]);
    }
  }

  /** A workspace's accrued total is the sum of the totals of its knowledge bases. */
  lemma {:induction false} WorkspaceIsSumOfKbs(ledger: seq<Cost>, owner: map<string, string>, workspace: string,
                                               kbs: seq<string>)
    requires OneWorkspaceEach(ledger, owner) && Distinct(kbs)
    requires forall kb | kb in owner :: kb in kbs <==> owner[kb] == workspace
    ensures Accrued(ledger, OfWorkspace(workspace)) == SumOver(ledger, kbs)
    decreases |ledger|
  {
    if ledger == [] {
      SumOverNothing(kbs);
    } else {
      var front, last := ledger[..|ledger| - 1], ledger[|ledger| - 1];
      assert ledger == front + [last];
      WorkspaceIsSumOfKbs(front, owner, workspace, kbs);
      AccruedSnoc(front, last, OfWorkspace(workspace));
      SumOverSnoc(front, last, kbs);
    }
  }
}
