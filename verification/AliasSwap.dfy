/**
 The two-phase alias swap: the vector database's alias is retargeted first, the control-plane
 record is brought up to date second, and a reconciler repairs a crash between the two.
 */
module AliasSwap {
  import opened Options
  import opened CollectionNames
  import opened AliasRecords

  /** One knowledge base: where its alias points and its record, once there is one. */
  datatype Sys = Sys(target: Option<string>, row: Option<Row>)

  const FRESH := Sys(None, None)

  /** What does not change: the knowledge base and the identity pinned on each collection. */
  datatype Env = Env(kb: string, pinned: map<string, Identity>) {
    function Name(build: int): string {
      CollectionName(kb, build)
    }

    /** The identity block a record about this collection has to carry. */
    function PinOf(collection: Option<string>): Block {
      if collection.Some? && collection.value in pinned then Pin(pinned[collection.value]) else EMPTY_BLOCK
    }

    /** What a read of a collection's metadata makes the reconciler write, when it writes at all. */
    function ReadBack(collection: string, read: Reading): Option<Identity> {
      match read
      case Raises => None
      case Empty => Some(BLANK)
      case Stored => if collection in pinned then Some(pinned[collection]) else None
    }
  }

  /**
   How a read of collection metadata ends: it raises; it finds nothing, or hides an error behind
   an empty answer; or it finds the identity.
   */
  datatype Reading = Raises | Empty | Stored

  /** What the reconciler fills in for absent keys. */
  const BLANK := Identity("", "", 0, "")

  // ----- the phases -----

  function PromotePhase1(env: Env, s: Sys, build: int): Sys {
    s.(target := Some(env.Name(build)))
  }

  /** The record is created in the transaction that promotes it; an up-to-date record is left alone. */
  function PromotePhase2(env: Env, s: Sys, build: int, at: int): Sys
    requires env.Name(build) in env.pinned
  {
    var name := env.Name(build);
    if s.row.Some? && s.row.value.collection == Some(name) then s
    else s.(row := Some(Advance(s.row.GetOr(EMPTY_ROW), name, build, env.pinned[name], at)))
  }

  datatype RollbackError = NoNMinusOne | ProviderUnavailable(provider: string)

  predicate ProviderUsable(provider: Option<string>, available: set<string>) {
    provider.None? || provider.value == "" || provider.value in available
  }

  /** The guard as coded: it looks at the provider of the live collection. */
  function RollbackGuard(s: Sys, available: set<string>): Result<string, RollbackError> {
    if s.row.None? || !CanRollBack(s.row.value) then Err(NoNMinusOne)
    else if !ProviderUsable(s.row.value.live.provider, available) then
      Err(ProviderUnavailable(s.row.value.live.provider.value))
    else Ok(s.row.value.previous.value)
  }

  function RollbackPhase1(s: Sys, collection: string): Sys {
    s.(target := Some(collection))
  }

  function RollbackPhase2(s: Sys, at: int): Sys
    requires s.row.Some?
  {
    s.(row := Some(SwapBack(s.row.value, at)))
  }

  /** Startup repair: only an existing record that disagrees with the alias is rewritten. */
  function Reconcile(env: Env, s: Sys, at: int, read: Reading): Sys {
    if s.target.None? || s.row.None? || s.row.value.collection == s.target then s
    else
      var t := s.target.value;
      match env.ReadBack(t, read)
      case None => s
      case Some(id) => s.(row := Some(Advance(s.row.value, t, ParseBuildId(t), id, at)))
  }

  // ----- events: a crash between the phases is followed by an attempt at repair, and more may come later -----

  datatype Event =
    | Promoted(build: int, at: int)
    | PromoteCrashed(build: int, at: int, read: Reading)
    | RolledBack(available: set<string>, at: int)
    | RollbackCrashed(available: set<string>, at: int, read: Reading)
    | Repaired(at: int, read: Reading)

  /** Promotion is only reached with a collection that exists. */
  predicate Enabled(env: Env, e: Event) {
    (e.Promoted? || e.PromoteCrashed?) ==> env.Name(e.build) in env.pinned
  }

  function Apply(env: Env, s: Sys, e: Event): Sys
    requires Enabled(env, e)
  {
    match e
    case Promoted(build, at) => PromotePhase2(env, PromotePhase1(env, s, build), build, at)
    case PromoteCrashed(build, at, read) => Reconcile(env, PromotePhase1(env, s, build), at, read)
    case RolledBack(available, at) =>
      (match RollbackGuard(s, available)
       case Err(_) => s
       case Ok(n1) => RollbackPhase2(RollbackPhase1(s, n1), at))
    case RollbackCrashed(available, at, read) =>
      (match RollbackGuard(s, available)
       case Err(_) => s
       case Ok(n1) => Reconcile(env, RollbackPhase1(s, n1), at, read))
    case Repaired(at, read) => Reconcile(env, s, at, read)
  }

  /** The target before the last retarget, given what it was before this event. */
  function LastTarget(env: Env, s: Sys, e: Event, last: Option<string>): Option<string>
    requires Enabled(env, e)
  {
    if Apply(env, s, e).target == s.target then last else s.target
  }

  /** The record says exactly where the alias points, where it pointed before, and with which models. */
  ghost predicate Mirrors(env: Env, s: Sys, last: Option<string>) {
    match s.row
    case None => s.target == None && last == None
    case Some(r) =>
      && s.target.Some?
      && r.collection == s.target && r.live == env.PinOf(s.target)
      && r.previous == last && r.previousLive == env.PinOf(last)
  }

  /** Every collection the alias has pointed at belongs to this knowledge base and still exists. */
  ghost predicate Known(env: Env, collection: Option<string>) {
    collection.Some? ==> collection.value in env.pinned && collection.value == env.Name(ParseBuildId(collection.value))
  }

  ghost predicate Settled(env: Env, s: Sys, last: Option<string>) {
    && Mirrors(env, s, last)
    && Known(env, s.target) && Known(env, last)
    && (s.target.Some? ==> last != s.target)
  }

  // ----- one operation -----

  predicate FirstPromotionCrashes(s: Sys, e: Event) {
    s.row.None? && e.PromoteCrashed?
  }

  /** A repair that is needed reads the identity pinned on the collection the alias names. */
  predicate RepairInformed(env: Env, s: Sys, e: Event)
    requires Enabled(env, e)
  {
    (e.PromoteCrashed? || e.RollbackCrashed?) && Apply(env, s, e).target != s.target ==>
      var t := Apply(env, s, e).target;
      t.Some? && t.value in env.pinned && env.ReadBack(t.value, e.read) == Some(env.pinned[t.value])
  }

  lemma PromotionKeepsMirror(env: Env, s: Sys, build: int, at: int, last: Option<string>)
    requires Settled(env, s, last) && env.Name(build) in env.pinned
    ensures Settled(env, Apply(env, s, Promoted(build, at)), LastTarget(env, s, Promoted(build, at), last))
  {
    BuildIdRoundTrip(env.kb, build);
  }

  lemma CrashedPromotionKeepsMirror(env: Env, s: Sys, e: Event, last: Option<string>)
    requires Settled(env, s, last) && e.PromoteCrashed? && Enabled(env, e) && s.row.Some?
    ensures Mirrors(env, Apply(env, s, e), LastTarget(env, s, e, last)) <==> RepairInformed(env, s, e)
    ensures RepairInformed(env, s, e) ==> Settled(env, Apply(env, s, e), LastTarget(env, s, e, last))
  {
    BuildIdRoundTrip(env.kb, e.build);
  }

  lemma RollbackKeepsMirror(env: Env, s: Sys, e: Event, last: Option<string>)
    requires Settled(env, s, last) && (e.RolledBack? || e.RollbackCrashed?)
    ensures Mirrors(env, Apply(env, s, e), LastTarget(env, s, e, last)) <==> RepairInformed(env, s, e)
    ensures RepairInformed(env, s, e) ==> Settled(env, Apply(env, s, e), LastTarget(env, s, e, last))
  {
  }

  /**
   One operation keeps the record in step, except for an interrupted first promotion and for a
   repair that cannot read the identity pinned on the collection.
   */
  lemma StepKeepsMirror(env: Env, s: Sys, e: Event, last: Option<string>)
    requires Settled(env, s, last) && Enabled(env, e)
    ensures Mirrors(env, Apply(env, s, e), LastTarget(env, s, e, last))
       <==> !FirstPromotionCrashes(s, e) && RepairInformed(env, s, e)
    ensures !FirstPromotionCrashes(s, e) && RepairInformed(env, s, e) ==>
              Settled(env, Apply(env, s, e), LastTarget(env, s, e, last))
  {
    if e.Promoted? {
      PromotionKeepsMirror(env, s, e.build, e.at, last);
    } else if e.PromoteCrashed? {
      if s.row.Some? {
        CrashedPromotionKeepsMirror(env, s, e, last);
      }
    } else if !e.Repaired? {
      RollbackKeepsMirror(env, s, e, last);
    }
  }

  /** What the record's absence says about an event: only a promotion that reaches its second phase ends it. */
  lemma RecordAppears(env: Env, s: Sys, e: Event)
    requires Enabled(env, e)
    ensures Apply(env, s, e).row.Some? <==> s.row.Some? || e.Promoted?
  {
  }

  // ----- whole runs -----

  ghost predicate AllEnabled(env: Env, events: seq<Event>) {
    forall e | e in events :: Enabled(env, e)
  }

  function Run(env: Env, s: Sys, events: seq<Event>): Sys
    requires AllEnabled(env, events)
    decreases |events|
  {
    if events == [] then s else Run(env, Apply(env, s, events[0]), events[1..])
  }

  /** The target before the last retarget of a run. */
  function RunLast(env: Env, s: Sys, events: seq<Event>, last: Option<string>): Option<string>
    requires AllEnabled(env, events)
    decreases |events|
  {
    if events == [] then last
    else RunLast(env, Apply(env, s, events[0]), events[1..], LastTarget(env, s, events[0], last))
  }

  /** The record mirrors the alias at the start and after every event. */
  ghost predicate MirrorsThroughout(env: Env, s: Sys, events: seq<Event>, last: Option<string>)
    requires AllEnabled(env, events)
    decreases |events|
  {
    && Mirrors(env, s, last)
    && (events != [] ==>
          MirrorsThroughout(env, Apply(env, s, events[0]), events[1..], LastTarget(env, s, events[0], last)))
  }

  /** Before any record exists only promotions do anything, so the first one is the first promotion listed. */
  predicate FirstPromotionCompletes(events: seq<Event>) {
    events == [] || events[0].Promoted? || (!events[0].PromoteCrashed? && FirstPromotionCompletes(events[1..]))
  }

  ghost predicate RepairsInformed(env: Env, s: Sys, events: seq<Event>)
    requires AllEnabled(env, events)
    decreases |events|
  {
    events != [] ==> RepairInformed(env, s, events[0]) && RepairsInformed(env, Apply(env, s, events[0]), events[1..])
  }

  lemma {:induction false} SettledRunsMirror(env: Env, s: Sys, events: seq<Event>, last: Option<string>)
    requires AllEnabled(env, events) && Settled(env, s, last)
    ensures MirrorsThroughout(env, s, events, last)
       <==> (s.row.Some? || FirstPromotionCompletes(events)) && RepairsInformed(env, s, events)
    decreases |events|
  {
    if events != [] {
      StepKeepsMirror(env, s, events[0], last);
      RecordAppears(env, s, events[0]);
      if !FirstPromotionCrashes(s, events[0]) && RepairInformed(env, s, events[0]) {
        SettledRunsMirror(env, Apply(env, s, events[0]), events[1..], LastTarget(env, s, events[0], last));
      }
    }
  }

  /**
   From an empty system the record mirrors the alias after every operation of a run if and only if
   the first promotion of the run is not interrupted between its two phases and every repair after
   a crash reads the identity pinned on the collection.
   */
  lemma RunMirrors(env: Env, events: seq<Event>)
    requires AllEnabled(env, events)
    ensures MirrorsThroughout(env, FRESH, events, None)
       <==> FirstPromotionCompletes(events) && RepairsInformed(env, FRESH, events)
  {
    SettledRunsMirror(env, FRESH, events, None);
  }

  /** An alias without a record is never repaired: only a promotion that reaches its second phase ends this. */
  lemma OrphanIsNotRepaired(env: Env, s: Sys, at: int, read: Reading, e: Event)
    requires s.target.Some? && s.row.None? && Enabled(env, e)
    ensures Reconcile(env, s, at, read) == s
    ensures Apply(env, s, e).row.Some? <==> e.Promoted?
  {
  }

  // ----- repair against completion -----

  /** The same record up to the time it was written. */
  predicate SameButTime(a: Row, b: Row) {
    a == b.(promotedAt := a.promotedAt)
  }

  /** Repair leaves the record of the uninterrupted promotion, up to the time, exactly when it is informed. */
  lemma RepairCompletesPromotion(env: Env, s: Sys, last: Option<string>, build: int, at: int, crashed: Event)
    requires Settled(env, s, last) && s.row.Some? && env.Name(build) in env.pinned
    requires crashed.PromoteCrashed? && crashed.build == build
    ensures var done, repaired := Apply(env, s, Promoted(build, at)), Apply(env, s, crashed);
            && repaired.row.Some? && done.row.Some? && repaired.target == done.target
            && (SameButTime(done.row.value, repaired.row.value) <==> RepairInformed(env, s, crashed))
  {
    BuildIdRoundTrip(env.kb, build);
  }

  /** For a rollback the repair also renumbers the record: the build id then comes from the collection's name. */
  lemma RepairCompletesRollback(env: Env, s: Sys, last: Option<string>, available: set<string>, at: int, crashed: Event)
    requires Settled(env, s, last) && RollbackGuard(s, available).Ok?
    requires crashed.RollbackCrashed? && crashed.available == available
    ensures var done, repaired := Apply(env, s, RolledBack(available, at)), Apply(env, s, crashed);
            && repaired.row.Some? && done.row.Some? && repaired.target == done.target
            && (SameButTime(done.row.value, repaired.row.value.(buildId := s.row.value.buildId))
                <==> RepairInformed(env, s, crashed))
            && (RepairInformed(env, s, crashed) ==>
                  repaired.row.value.buildId == Some(ParseBuildId(s.row.value.previous.value)))
  {
    var n1 := s.row.value.previous.value;
    assert RollbackGuard(s, available) == Ok(n1);
    assert s.row.value.collection != Some(n1) && n1 in env.pinned;
    assert Apply(env, s, RolledBack(available, at)).row == Some(SwapBack(s.row.value, at));
  }

  /** Rolling back twice restores everything but the time; the second one only needs the other build's provider. */
  lemma RollbackTwiceIsIdentity(env: Env, s: Sys, last: Option<string>, available: set<string>, at1: int, at2: int)
    requires Settled(env, s, last) && RollbackGuard(s, available).Ok?
    ensures var once := Apply(env, s, RolledBack(available, at1));
            && (RollbackGuard(once, available).Ok? <==> ProviderUsable(s.row.value.previousLive.provider, available))
            && (RollbackGuard(once, available).Ok? ==>
                  Apply(env, once, RolledBack(available, at2))
                  == s.(row := Some(s.row.value.(promotedAt := Some(at2)))))
  {
    assert s.target.value != "";
  }

  // ----- the provider guard -----

  /** The guard as documented: the previous collection's provider must be available. */
  function DocumentedGuard(s: Sys, available: set<string>): Result<string, RollbackError> {
    if s.row.None? || !CanRollBack(s.row.value) then Err(NoNMinusOne)
    else if !ProviderUsable(s.row.value.previousLive.provider, available) then
      Err(ProviderUnavailable(s.row.value.previousLive.provider.value))
    else Ok(s.row.value.previous.value)
  }

  /** The name that the guard has to find, when there is one. */
  function ProviderName(p: Option<string>): string {
    p.GetOr("")
  }

  /**
   The coded guard decides as documented for every set of providers exactly when both builds name
   one provider.
   */
  lemma GuardsAgreeExactly(s: Sys)
    requires s.row.Some? && CanRollBack(s.row.value)
    ensures (forall available: set<string> :: RollbackGuard(s, available) == DocumentedGuard(s, available))
       <==> ProviderName(s.row.value.live.provider) == ProviderName(s.row.value.previousLive.provider)
  {
    var live, previous := ProviderName(s.row.value.live.provider), ProviderName(s.row.value.previousLive.provider);
    if live != previous {
      assert RollbackGuard(s, {live}).Ok?;
      assert RollbackGuard(s, {previous}) != DocumentedGuard(s, {previous})
          || RollbackGuard(s, {live}) != DocumentedGuard(s, {live});
    }
  }

  /**
   Two promotions with different providers: the rollback then serves an index no configured
   provider can query.
   */
  lemma RollbackIntoUnavailableProvider(env: Env, first: Identity, second: Identity)
    requires env.pinned == map[env.Name(1) := first, env.Name(2) := second]
    requires first.provider != second.provider && first.provider != "" && second.provider != ""
    ensures var twice := Apply(env, Apply(env, FRESH, Promoted(1, 0)), Promoted(2, 1));
            var s := Apply(env, twice, RolledBack({second.provider}, 2));
            && s.target == Some(env.Name(1)) && s.row.Some?
            && !ProviderUsable(s.row.value.live.provider, {second.provider})
  {
    NameInjective(env.kb, 1, env.kb, 2);
    assert env.Name(1) != "";
  }

  // ----- the build id, over every run -----

  /** Whether a collection was promoted under this knowledge base and exists. */
  ghost predicate Named(env: Env, collection: Option<string>) {
    collection.Some? && Known(env, collection)
  }

  /** What every run keeps, crashed first promotions and failed repairs included. */
  ghost predicate WellNamed(env: Env, s: Sys) {
    && Known(env, s.target)
    && (s.row.Some? ==>
          var r := s.row.value;
          s.target.Some? && Named(env, r.collection) && Known(env, r.previous) && r.previous != r.collection)
  }

  function Recorded(s: Sys): Option<string> {
    if s.row.Some? then s.row.value.collection else None
  }

  /** Whether the build id is off by a rollback: a promotion or a repair that moves the record sets it right. */
  function SkewedAfter(env: Env, s: Sys, e: Event, skewed: bool): bool
    requires Enabled(env, e)
  {
    if Recorded(Apply(env, s, e)) == Recorded(s) then skewed
    else e.RolledBack? && !skewed
  }

  /** The build id is that of the recorded collection, or, when skewed, that of the previous one. */
  ghost predicate BuildIdIs(s: Sys, skewed: bool) {
    if s.row.None? then !skewed
    else
      var r := s.row.value;
      if skewed then r.previous.Some? && r.buildId == Some(ParseBuildId(r.previous.value))
      else r.collection.Some? && r.buildId == Some(ParseBuildId(r.collection.value))
  }

  function Skewed(env: Env, s: Sys, events: seq<Event>, skewed: bool): bool
    requires AllEnabled(env, events)
    decreases |events|
  {
    if events == [] then skewed
    else Skewed(env, Apply(env, s, events[0]), events[1..], SkewedAfter(env, s, events[0], skewed))
  }

  lemma PromotionKeepsBuildId(env: Env, s: Sys, e: Event, skewed: bool)
    requires WellNamed(env, s) && Enabled(env, e) && BuildIdIs(s, skewed) && (e.Promoted? || e.PromoteCrashed?)
    ensures WellNamed(env, Apply(env, s, e)) && BuildIdIs(Apply(env, s, e), SkewedAfter(env, s, e, skewed))
  {
    BuildIdRoundTrip(env.kb, e.build);
  }

  lemma RollbackKeepsBuildId(env: Env, s: Sys, e: Event, skewed: bool)
    requires WellNamed(env, s) && BuildIdIs(s, skewed) && e.RolledBack?
    ensures WellNamed(env, Apply(env, s, e)) && BuildIdIs(Apply(env, s, e), SkewedAfter(env, s, e, skewed))
  {
    if RollbackGuard(s, e.available).Ok? {
      var t := Apply(env, s, e);
      assert t == Sys(s.row.value.previous, Some(SwapBack(s.row.value, e.at)));
      assert Recorded(t) != Recorded(s);
    }
  }

  lemma CrashedRollbackKeepsBuildId(env: Env, s: Sys, e: Event, skewed: bool)
    requires WellNamed(env, s) && BuildIdIs(s, skewed) && e.RollbackCrashed?
    ensures WellNamed(env, Apply(env, s, e)) && BuildIdIs(Apply(env, s, e), SkewedAfter(env, s, e, skewed))
  {
    if RollbackGuard(s, e.available).Ok? {
      RepairKeepsBuildId(env, RollbackPhase1(s, s.row.value.previous.value), e.at, e.read, skewed);
    }
  }

  lemma RepairKeepsBuildId(env: Env, s: Sys, at: int, read: Reading, skewed: bool)
    requires WellNamed(env, s) && BuildIdIs(s, skewed)
    ensures var t := Reconcile(env, s, at, read);
            WellNamed(env, t) && BuildIdIs(t, Recorded(t) == Recorded(s) && skewed)
  {
  }

  lemma StepKeepsBuildId(env: Env, s: Sys, e: Event, skewed: bool)
    requires WellNamed(env, s) && Enabled(env, e) && BuildIdIs(s, skewed)
    ensures WellNamed(env, Apply(env, s, e)) && BuildIdIs(Apply(env, s, e), SkewedAfter(env, s, e, skewed))
  {
    if e.Promoted? || e.PromoteCrashed? {
      PromotionKeepsBuildId(env, s, e, skewed);
    } else if e.RolledBack? {
      RollbackKeepsBuildId(env, s, e, skewed);
    } else if e.RollbackCrashed? {
      CrashedRollbackKeepsBuildId(env, s, e, skewed);
    } else {
      RepairKeepsBuildId(env, s, e.at, e.read, skewed);
    }
  }

  lemma {:induction false} RunKeepsBuildId(env: Env, s: Sys, events: seq<Event>, skewed: bool)
    requires AllEnabled(env, events) && WellNamed(env, s) && BuildIdIs(s, skewed)
    ensures WellNamed(env, Run(env, s, events))
    ensures BuildIdIs(Run(env, s, events), Skewed(env, s, events, skewed))
    decreases |events|
  {
    if events != [] {
      StepKeepsBuildId(env, s, events[0], skewed);
      RunKeepsBuildId(env, Apply(env, s, events[0]), events[1..], SkewedAfter(env, s, events[0], skewed));
    }
  }

  /**
   After any run that leaves a record, its build id is the recorded collection's exactly when the
   number of uninterrupted rollbacks since the record last moved otherwise is even.
   */
  lemma BuildIdExactlyWhenUnskewed(env: Env, events: seq<Event>)
    requires AllEnabled(env, events) && Run(env, FRESH, events).row.Some?
    ensures var r := Run(env, FRESH, events).row.value;
            && r.collection.Some?
            && (r.buildId == Some(ParseBuildId(r.collection.value)) <==> !Skewed(env, FRESH, events, false))
  {
    RunKeepsBuildId(env, FRESH, events, false);
  }

  // ----- repair later -----

  /** What a repair at this point does to the record, and when the record then mirrors the alias. */
  ghost predicate RepairsExactly(env: Env, s: Sys, last: Option<string>, read: Reading, t: Sys)
    requires s.row.Some? && s.target.Some?
  {
    var r, found := s.row.value, env.ReadBack(s.target.value, read);
    if r.collection == s.target || found.None? then t == s
    else
      && t.row.Some? && t.target == s.target && t.row.value.collection == t.target
      && t.row.value.live == Pin(found.value)
      && t.row.value.previous == r.collection && t.row.value.previousLive == r.live
      && (Mirrors(env, t, last) <==>
            Pin(found.value) == env.PinOf(s.target) && r.collection == last && r.live == env.PinOf(last))
  }

  lemma RepairIsExact(env: Env, s: Sys, last: Option<string>, at: int, read: Reading)
    requires WellNamed(env, s) && s.row.Some?
    ensures RepairsExactly(env, s, last, read, Reconcile(env, s, at, read))
  {
  }

  /**
   After any run that leaves a record, however many crashes went unrepaired and whatever earlier
   repairs wrote: a repair that is needed and not refused moves the record to the alias's target
   with the identity it read. The previous half becomes what the record said before, so the whole
   record is right exactly when the identity is the pinned one and the record named the target
   before the last retarget, with its identity.
   */
  lemma LaterRepairExactly(env: Env, events: seq<Event>, at: int, read: Reading)
    requires AllEnabled(env, events) && Run(env, FRESH, events).row.Some?
    ensures var s := Run(env, FRESH, events);
            && s.target.Some?
            && RepairsExactly(env, s, RunLast(env, FRESH, events, None), read, Reconcile(env, s, at, read))
  {
    var s, last := Run(env, FRESH, events), RunLast(env, FRESH, events, None);
    assert WellNamed(env, s) by {
      RunKeepsBuildId(env, FRESH, events, false);
    }
    RepairIsExact(env, s, last, at, read);
  }

  // ----- repair skipped -----

  /**
   A crash of one promotion followed, without repair, by another promotion: the record is
   right exactly when the second promotion retries the first, or goes back to the live
   collection while the abandoned one was already the previous.
   */
  lemma SkippedRepairExactly(env: Env, s: Sys, last: Option<string>, abandoned: int, next: int, at: int)
    requires Mirrors(env, s, last) && s.row.Some? && last != s.target
    requires env.Name(abandoned) in env.pinned && env.Name(next) in env.pinned
    requires s.target != Some(env.Name(abandoned))
    ensures var crashed := PromotePhase1(env, s, abandoned);
            (Mirrors(env, Apply(env, crashed, Promoted(next, at)),
                     LastTarget(env, crashed, Promoted(next, at), s.target))
             <==> (env.Name(next) == env.Name(abandoned)
                   || (s.target == Some(env.Name(next)) && last == Some(env.Name(abandoned)))))
  {
  }
}
