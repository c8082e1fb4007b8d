/**
 Two query caches of different capacity, driven by the same operations: the smaller one never
 hits where the larger one misses, unless a lookup meets an entry that has expired in the larger one alone.
 */
module CacheInclusion {
  import opened CacheKeys
  import opened QueryCache

  /** The same data, inserted no later. */
  predicate SameButOlder(a: Entry, b: Entry) {
    a.embedding == b.embedding && a.modelId == b.modelId && b.createdAt <= a.createdAt
  }

  /** Every key of the small store is in the large one, with the same data, no younger, in the same relative order. */
  ghost predicate Included(small: Store, large: Store) {
    && (forall key | Has(small, key) :: Has(large, key) && SameButOlder(EntryOf(small, key), EntryOf(large, key)))
    && (forall a, b | Has(small, a) && Has(small, b) && IndexOf(small, a) < IndexOf(small, b) ::
          IndexOf(large, a) < IndexOf(large, b))
  }

  /** A lookup that finds its key unexpired in the small store and expired in the large one. */
  predicate SplitRead(cs: Config, cl: Config, small: Store, large: Store, op: Op) {
    && op.Get? && cs.enabled && Has(small, op.key) && Has(large, op.key)
    && !Expired(cs, EntryOf(small, op.key), op.now) && Expired(cl, EntryOf(large, op.key), op.now)
  }

  ghost predicate NoSplitRead(cs: Config, cl: Config, ops: seq<Op>) {
    forall i | 0 <= i < |ops| :: !SplitRead(cs, cl, Run(cs, ops[..i]), Run(cl, ops[..i]), ops[i])
  }

  predicate Timed(op: Op) {
    op.Get? || op.Put?
  }

  /** The clock of the operations never goes back. */
  predicate InTimeOrder(ops: seq<Op>) {
    forall i, j | 0 <= i < j < |ops| && Timed(ops[i]) && Timed(ops[j]) :: ops[i].now <= ops[j].now
  }

  predicate SmallerCache(small: Config, large: Config) {
    small == large.(maxEntries := small.maxEntries) && 1 <= small.maxEntries <= large.maxEntries
  }

  /** The relation the two stores keep: inclusion, and at most as many free slots in the small one. */
  ghost predicate Related(cs: Config, cl: Config, small: Store, large: Store) {
    && Distinct(small) && Distinct(large)
    && |small| <= cs.maxEntries && |large| <= cl.maxEntries
    && Included(small, large)
    && cs.maxEntries - |small| <= cl.maxEntries - |large|
  }

  lemma IdleGetKeeps(c: Config, s: Store, op: Op, key: string)
    requires op.Get? && (!c.enabled || !Has(s, op.key)) && Has(s, key)
    ensures Has(Step(c, s, op).0, key)
  {
  }

  lemma ExpiredGetKeeps(c: Config, s: Store, op: Op, key: string)
    requires Distinct(s) && op.Get? && c.enabled && Has(s, op.key) && Expired(c, EntryOf(s, op.key), op.now)
    ensures Has(Step(c, s, op).0, key) <==> Has(s, key) && key != op.key
  {
    WithoutFacts(s, op.key);
    if key != op.key {
      IndexWithout(s, op.key, key);
    }
  }

  lemma HitKeeps(c: Config, s: Store, op: Op, key: string)
    requires Distinct(s) && op.Get? && c.enabled && Has(s, op.key) && !Expired(c, EntryOf(s, op.key), op.now)
    requires Has(s, key)
    ensures Has(Step(c, s, op).0, key)
  {
    var e := EntryOf(s, op.key);
    var after := MoveToEnd(s, op.key, e.(hitCount := e.hitCount + 1));
    assert Step(c, s, op).0 == after;
    MoveToEndFacts(s, op.key, e.(hitCount := e.hitCount + 1), key);
  }

  /** A lookup on both stores, where both are known to agree about the looked-up key and another one. */
  lemma GetKeeps(cs: Config, cl: Config, small: Store, large: Store, op: Op, key: string)
    requires Distinct(small) && Distinct(large) && cs.enabled == cl.enabled
    requires op.Get? && !SplitRead(cs, cl, small, large, op)
    requires Has(Step(cs, small, op).0, key) && Has(small, key) && Has(large, key)
    ensures Has(Step(cl, large, op).0, key)
  {
    if !cl.enabled || !Has(large, op.key) {
      IdleGetKeeps(cl, large, op, key);
    } else if Expired(cl, EntryOf(large, op.key), op.now) {
      if Has(small, op.key) {
        ExpiredGetKeeps(cs, small, op, key);
      }
      ExpiredGetKeeps(cl, large, op, key);
    } else {
      HitKeeps(cl, large, op, key);
    }
  }

  lemma GetKeepsMember(cs: Config, cl: Config, small: Store, large: Store, op: Op, key: string)
    requires SmallerCache(cs, cl) && Related(cs, cl, small, large)
    requires op.Get? && !SplitRead(cs, cl, small, large, op)
    requires Has(Step(cs, small, op).0, key)
    ensures Has(Step(cl, large, op).0, key)
  {
    GetOnKey(cs, small, op, key);
    GetKeeps(cs, cl, small, large, op, key);
  }

  /** An update loses no key. */
  lemma UpdateKeepsKey(c: Config, s: Store, op: Op, key: string)
    requires Distinct(s) && op.Put? && c.enabled && Has(s, op.key) && (key == op.key || Has(s, key))
    ensures Has(Step(c, s, op).0, key)
  {
    var e := EntryOf(s, op.key).(embedding := op.embedding);
    MoveToEndFacts(s, op.key, e, key);
  }

  lemma PutKeepsMember(cs: Config, cl: Config, small: Store, large: Store, op: Op, key: string)
    requires SmallerCache(cs, cl) && Related(cs, cl, small, large) && op.Put?
    requires Has(Step(cs, small, op).0, key)
    ensures Has(Step(cl, large, op).0, key)
  {
    StepOnKey(cs, small, op, key);
    if cs.enabled && Has(large, op.key) {
      UpdateKeepsKey(cl, large, op, key);
    } else if cs.enabled {
      InsertKeepsMember(cs, cl, small, large, Slot(op.key, Entry(op.embedding, op.modelId, op.now, 0)), key);
    }
  }

  lemma StepKeepsMembers(cs: Config, cl: Config, small: Store, large: Store, op: Op, key: string)
    requires SmallerCache(cs, cl) && Related(cs, cl, small, large)
    requires !SplitRead(cs, cl, small, large, op)
    requires Has(Step(cs, small, op).0, key)
    ensures Has(Step(cl, large, op).0, key)
  {
    match op
    case Get(_, _) =>
      GetKeepsMember(cs, cl, small, large, op, key);
    case Put(_, _, _, _) => PutKeepsMember(cs, cl, small, large, op, key);
    case Flush =>
    case FlushForModel(m) =>
      FilterFacts(small, m, key);
      FilterFacts(large, m, key);
  }

  lemma InsertKeepsMember(cs: Config, cl: Config, small: Store, large: Store, x: Slot, key: string)
    requires SmallerCache(cs, cl) && Related(cs, cl, small, large) && !Has(large, x.key)
    requires Has(Evict(small, cs.maxEntries) + [x], key)
    ensures Has(Evict(large, cl.maxEntries) + [x], key)
  {
    assert !Has(small, x.key);
    InsertFacts(small, cs.maxEntries, x, key);
    InsertFacts(large, cl.maxEntries, x, key);
    if key != x.key && Evicted(large, cl.maxEntries) == 1 {
      assert Evicted(small, cs.maxEntries) == 1;
      IndexOfSlot(small, 0);
      assert IndexOf(small, small[0].key) < IndexOf(small, key);
    }
  }

  lemma StepKeepsData(cs: Config, cl: Config, small: Store, large: Store, op: Op, key: string)
    requires SmallerCache(cs, cl) && Related(cs, cl, small, large)
    requires Has(Step(cs, small, op).0, key) && Has(Step(cl, large, op).0, key)
    requires op.Put? && op.key == key && !Has(small, key) && Has(large, key) ==>
               EntryOf(large, key).modelId == op.modelId && EntryOf(large, key).createdAt <= op.now
    ensures SameButOlder(EntryOf(Step(cs, small, op).0, key), EntryOf(Step(cl, large, op).0, key))
  {
    StepOnKey(cs, small, op, key);
    StepOnKey(cl, large, op, key);
  }

  lemma StepKeepsOrder(cs: Config, cl: Config, small: Store, large: Store, op: Op, a: string, b: string)
    requires SmallerCache(cs, cl) && Related(cs, cl, small, large)
    requires !SplitRead(cs, cl, small, large, op)
    requires Has(Step(cs, small, op).0, a) && Has(Step(cs, small, op).0, b)
    requires Has(Step(cl, large, op).0, a) && Has(Step(cl, large, op).0, b)
    requires IndexOf(Step(cs, small, op).0, a) < IndexOf(Step(cs, small, op).0, b)
    ensures IndexOf(Step(cl, large, op).0, a) < IndexOf(Step(cl, large, op).0, b)
  {
    StepOnKey(cs, small, op, a);
    StepOnKey(cs, small, op, b);
    StepOrder(cs, small, op, b, a);
    StepOrder(cs, small, op, a, b);
    StepOrder(cl, large, op, b, a);
  }

  /** The keys whose entries belong to one model. */
  function ModelKeys(s: Store, m: string): set<string> {
    if s == [] then {}
    else ModelKeys(s[1..], m) + (if s[0].entry.modelId == m then {s[0].key} else {})
  }

  lemma {:induction false} ModelKeysAre(s: Store, m: string, key: string)
    requires Distinct(s)
    ensures key in ModelKeys(s, m) <==> Has(s, key) && EntryOf(s, key).modelId == m
  {
    if s != [] {
      FilterCons(s, m, key);
      ModelKeysAre(s[1..], m, key);
    }
  }

  lemma {:induction false} FilterSize(s: Store, m: string)
    requires Distinct(s)
    ensures |WithoutModel(s, m)| == |s| - |ModelKeys(s, m)|
  {
    if s != [] {
      FilterSize(s[1..], m);
      FilterCons(s, m, s[0].key);
      ModelKeysAre(s[1..], m, s[0].key);
    }
  }

  lemma FlushSizes(small: Store, large: Store, m: string)
    requires Distinct(small) && Distinct(large) && Included(small, large)
    ensures |small| - |WithoutModel(small, m)| <= |large| - |WithoutModel(large, m)|
  {
    FilterSize(small, m);
    FilterSize(large, m);
    forall key | key in ModelKeys(small, m)
      ensures key in ModelKeys(large, m)
    {
      ModelKeysAre(small, m, key);
      ModelKeysAre(large, m, key);
    }
    SubsetSize(ModelKeys(small, m), ModelKeys(large, m));
  }

  lemma SubsetSize<T>(a: set<T>, b: set<T>)
    requires a <= b
    ensures |a| <= |b|
  {
    assert b == a + (b - a);
  }

  lemma StepKeepsSizes(cs: Config, cl: Config, small: Store, large: Store, op: Op)
    requires SmallerCache(cs, cl) && Related(cs, cl, small, large)
    requires !SplitRead(cs, cl, small, large, op)
    ensures |Step(cs, small, op).0| <= cs.maxEntries && |Step(cl, large, op).0| <= cl.maxEntries
    ensures cs.maxEntries - |Step(cs, small, op).0| <= cl.maxEntries - |Step(cl, large, op).0|
  {
    match op
    case Get(k, _) =>
      WithoutFacts(small, k);
      WithoutFacts(large, k);
      if Has(small, k) {
        MoveToEndFacts(small, k, EntryOf(small, k).(hitCount := EntryOf(small, k).hitCount + 1), k);
      }
      if Has(large, k) {
        MoveToEndFacts(large, k, EntryOf(large, k).(hitCount := EntryOf(large, k).hitCount + 1), k);
      }
    case Put(k, modelId, embedding, now) =>
      if Has(small, k) {
        MoveToEndFacts(small, k, EntryOf(small, k).(embedding := embedding), k);
      }
      if Has(large, k) {
        MoveToEndFacts(large, k, EntryOf(large, k).(embedding := embedding), k);
      }
    case Flush =>
    case FlushForModel(m) => FlushSizes(small, large, m);
  }

  /** A key always stands for one model, as the cache keys guarantee. */
  predicate OneModelPerKey(ops: seq<Op>) {
    forall i, j | 0 <= i < |ops| && 0 <= j < |ops| && ops[i].Put? && ops[j].Put? && ops[i].key == ops[j].key ::
      ops[i].modelId == ops[j].modelId
  }

  /** Operations that come from NUL-free queries have one model per key when the hash does not collide. */
  lemma QueriesGiveOneModelPerKey(hash: string -> string, ops: seq<Op>)
    requires NoCollisions(hash) && FromQueries(hash, ops)
    ensures OneModelPerKey(ops)
  {
    forall i, j | 0 <= i < |ops| && 0 <= j < |ops| && ops[i].Put? && ops[j].Put? && ops[i].key == ops[j].key
      ensures ops[i].modelId == ops[j].modelId
    {
      var p: CacheQuery :| NulFree(p) && ops[i].key == MakeCacheKey(hash, p) && ops[i].modelId == p.modelId;
      var q: CacheQuery :| NulFree(q) && ops[j].key == MakeCacheKey(hash, q) && ops[j].modelId == q.modelId;
      RawKeyDistinguishes(p, q);
    }
  }

  lemma {:induction false} InsertionOf(c: Config, ops: seq<Op>, key: string) returns (i: nat)
    requires c.maxEntries >= 1 && Has(Run(c, ops), key)
    ensures i < |ops| && ops[i].Put? && ops[i].key == key && ops[i].modelId == EntryOf(Run(c, ops), key).modelId
    ensures ops[i].now == EntryOf(Run(c, ops), key).createdAt
  {
    var before := ops[..|ops| - 1];
    RunBounded(c, before);
    StepOnKey(c, Run(c, before), ops[|ops| - 1], key);
    if Has(Run(c, before), key) {
      i := InsertionOf(c, before, key);
    } else {
      i := |ops| - 1;
    }
  }

  lemma NoSplitReadBefore(cs: Config, cl: Config, ops: seq<Op>, n: nat)
    requires NoSplitRead(cs, cl, ops) && n <= |ops|
    ensures NoSplitRead(cs, cl, ops[..n])
  {
    assert forall i | 0 <= i < n :: ops[..n][i] == ops[i] && ops[..n][..i] == ops[..i];
  }

  /** In every run without split reads, the two stores stay related. */
  lemma {:induction false} RunsStayRelated(cs: Config, cl: Config, ops: seq<Op>)
    requires SmallerCache(cs, cl) && OneModelPerKey(ops) && InTimeOrder(ops)
    requires NoSplitRead(cs, cl, ops)
    ensures Related(cs, cl, Run(cs, ops), Run(cl, ops))
  {
    if ops != [] {
      var n := |ops| - 1;
      var before, op := ops[..n], ops[n];
      NoSplitReadBefore(cs, cl, ops, n);
      RunsStayRelated(cs, cl, before);
      var small, large := Run(cs, before), Run(cl, before);
      RunBounded(cs, ops);
      RunBounded(cl, ops);
      StepKeepsSizes(cs, cl, small, large, op);
      var small', large' := Run(cs, ops), Run(cl, ops);
      forall key | Has(small', key)
        ensures Has(large', key) && SameButOlder(EntryOf(small', key), EntryOf(large', key))
      {
        StepKeepsMembers(cs, cl, small, large, op, key);
        if op.Put? && op.key == key && Has(large, key) {
          var i := InsertionOf(cl, before, key);
          assert ops[i].modelId == ops[n].modelId && Timed(ops[i]) && Timed(ops[n]);
        }
        StepKeepsData(cs, cl, small, large, op, key);
      }
      forall a, b | Has(small', a) && Has(small', b) && IndexOf(small', a) < IndexOf(small', b)
        ensures IndexOf(large', a) < IndexOf(large', b)
      {
        StepKeepsOrder(cs, cl, small, large, op, a, b);
      }
    }
  }

  /** A lookup that hits in the small store hits in the large one, with the same embedding. */
  predicate HitsAgree(cs: Config, cl: Config, small: Store, large: Store, op: Op) {
    op.Get? && Step(cs, small, op).1.Hit? ==> Step(cl, large, op).1 == Step(cs, small, op).1
  }

  lemma RelatedHitsAgree(cs: Config, cl: Config, small: Store, large: Store, op: Op)
    requires SmallerCache(cs, cl) && Related(cs, cl, small, large) && !SplitRead(cs, cl, small, large, op)
    ensures HitsAgree(cs, cl, small, large, op)
  {
    if op.Get? && Step(cs, small, op).1.Hit? {
      assert Has(small, op.key) && Has(large, op.key);
    }
  }

  /**
   Over every run: each hit of the small cache is the same hit in the large one if and only if no
   lookup finds its key unexpired in the small cache and expired in the large one.
   */
  lemma SmallHitsAreLargeHitsExactly(cs: Config, cl: Config, ops: seq<Op>)
    requires SmallerCache(cs, cl) && OneModelPerKey(ops) && InTimeOrder(ops)
    ensures (forall i | 0 <= i < |ops| :: HitsAgree(cs, cl, Run(cs, ops[..i]), Run(cl, ops[..i]), ops[i]))
       <==> NoSplitRead(cs, cl, ops)
  {
    if NoSplitRead(cs, cl, ops) {
      forall i | 0 <= i < |ops|
        ensures HitsAgree(cs, cl, Run(cs, ops[..i]), Run(cl, ops[..i]), ops[i])
      {
        NoSplitReadBefore(cs, cl, ops, i);
        RunsStayRelated(cs, cl, ops[..i]);
        RelatedHitsAgree(cs, cl, Run(cs, ops[..i]), Run(cl, ops[..i]), ops[i]);
      }
    } else {
      var i :| 0 <= i < |ops| && SplitRead(cs, cl, Run(cs, ops[..i]), Run(cl, ops[..i]), ops[i]);
      assert !HitsAgree(cs, cl, Run(cs, ops[..i]), Run(cl, ops[..i]), ops[i]);
    }
  }

  lemma RunSnoc(c: Config, ops: seq<Op>, op: Op)
    ensures Run(c, ops + [op]) == Step(c, Run(c, ops), op).0
  {
    assert (ops + [op])[..|ops|] == ops;
  }

  /** Expiry does break inclusion: an update keeps the old insertion time, a re-insertion does not. */
  lemma ExpiryBreaksInclusion(cs: Config, cl: Config, ops: seq<Op>)
    requires cs == Config(1, 1, true) && cl == Config(1, 2, true)
    requires ops == [Put("a", "m", [], 0)] + [Put("b", "m", [], 1)] + [Put("a", "m", [], 2)]
    ensures SmallerCache(cs, cl) && OneModelPerKey(ops) && InTimeOrder(ops)
    ensures Step(cs, Run(cs, ops), Get("a", 3)).1.Hit?
    ensures Step(cl, Run(cl, ops), Get("a", 3)).1 == Miss
  {
    FirstTwoPuts(cs);
    FirstTwoPuts(cl);
    RunSnoc(cs, [Put("a", "m", [], 0)] + [Put("b", "m", [], 1)], Put("a", "m", [], 2));
    RunSnoc(cl, [Put("a", "m", [], 0)] + [Put("b", "m", [], 1)], Put("a", "m", [], 2));
    SmallReinserts(cs);
    LargeUpdates(cl);
    ExampleIsFair(ops);
  }

  lemma ExampleIsFair(ops: seq<Op>)
    requires ops == [Put("a", "m", [], 0)] + [Put("b", "m", [], 1)] + [Put("a", "m", [], 2)]
    ensures OneModelPerKey(ops) && InTimeOrder(ops)
  {
    assert |ops| == 3 && ops[0].now == 0 && ops[1].now == 1 && ops[2].now == 2;
  }

  lemma SmallReinserts(cs: Config)
    requires cs == Config(1, 1, true)
    ensures var s := Step(cs, [] + [Slot("b", Entry([], "m", 1, 0))], Put("a", "m", [], 2)).0;
      Step(cs, s, Get("a", 3)).1.Hit?
  {
    var s := [] + [Slot("b", Entry([], "m", 1, 0))];
    assert s == [Slot("b", Entry([], "m", 1, 0))];
    InsertFacts(s, 1, Slot("a", Entry([], "m", 2, 0)), "a");
  }

  lemma LargeUpdates(cl: Config)
    requires cl == Config(1, 2, true)
    ensures var two := [Slot("a", Entry([], "m", 0, 0))] + [Slot("b", Entry([], "m", 1, 0))];
            var s := Step(cl, two, Put("a", "m", [], 2)).0;
      Step(cl, s, Get("a", 3)).1 == Miss
  {
    var s := [Slot("a", Entry([], "m", 0, 0))] + [Slot("b", Entry([], "m", 1, 0))];
    assert s[0].key == "a" && s[1].key == "b" && "a"[0] != "b"[0];
    MoveToEndFacts(s, "a", Entry([], "m", 0, 0), "a");
  }

  lemma FirstTwoPuts(c: Config)
    requires c.enabled && 1 <= c.maxEntries <= 2
    ensures Run(c, [Put("a", "m", [], 0)] + [Put("b", "m", [], 1)])
         == (if c.maxEntries == 1 then [] else [Slot("a", Entry([], "m", 0, 0))]) + [Slot("b", Entry([], "m", 1, 0))]
  {
    RunSnoc(c, [], Put("a", "m", [], 0));
    assert [] + [Put("a", "m", [], 0)] == [Put("a", "m", [], 0)];
    assert Run(c, [Put("a", "m", [], 0)]) == [Slot("a", Entry([], "m", 0, 0))];
    RunSnoc(c, [Put("a", "m", [], 0)], Put("b", "m", [], 1));
    assert !Has([Slot("a", Entry([], "m", 0, 0))], "b");
  }
}
