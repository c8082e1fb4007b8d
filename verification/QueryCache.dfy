/**
 The in-memory query-embedding cache: an ordered dictionary, least recently used entry first,
 with a time to live per entry. The class is proved against Step; the lemmas are about runs of Step.
 */
module QueryCache {
  import opened Options
  import opened CacheKeys

  type Embedding = seq<real>

  datatype Entry = Entry(embedding: Embedding, modelId: string, createdAt: int, hitCount: nat)

  datatype Slot = Slot(key: string, entry: Entry)

  type Store = seq<Slot>

  datatype Config = Config(ttl: int, maxEntries: int, enabled: bool)

  datatype Op =
    | Get(key: string, now: int)
    | Put(key: string, modelId: string, embedding: Embedding, now: int)
    | Flush
    | FlushForModel(modelId: string)

  datatype Outcome =
    | Hit(embedding: Embedding)
    | Miss
    | Stored
    | Ignored
    | Flushed(removed: nat)
    | RaisedKeyError

  // ----- the ordered dictionary -----

  predicate Distinct(s: Store) {
    forall i, j | 0 <= i < j < |s| :: s[i].key != s[j].key
  }

  function IndexFrom(s: Store, key: string, from: nat): (i: nat)
    requires from <= |s|
    ensures from <= i <= |s| && (i < |s| ==> s[i].key == key) && forall j | from <= j < i :: s[j].key != key
    decreases |s| - from
  {
    if from == |s| || s[from].key == key then from else IndexFrom(s, key, from + 1)
  }

  /** The position of a key, or the length of the store when it is absent. */
  function IndexOf(s: Store, key: string): (i: nat)
    ensures i <= |s| && (i < |s| ==> s[i].key == key) && forall j | 0 <= j < i :: s[j].key != key
  {
    IndexFrom(s, key, 0)
  }

  predicate Has(s: Store, key: string) {
    IndexOf(s, key) < |s|
  }

  function EntryOf(s: Store, key: string): Entry
    requires Has(s, key)
  {
    s[IndexOf(s, key)].entry
  }

  function Without(s: Store, key: string): Store {
    var i := IndexOf(s, key);
    if i < |s| then s[..i] + s[i + 1..] else s
  }

  function MoveToEnd(s: Store, key: string, entry: Entry): Store {
    Without(s, key) + [Slot(key, entry)]
  }

  function WithoutModel(s: Store, modelId: string): (r: Store)
    ensures |r| <= |s|
  {
    if s == [] then []
    else (if s[0].entry.modelId == modelId then [] else [s[0]]) + WithoutModel(s[1..], modelId)
  }

  /** Pop from the least recently used end while the store is at capacity. */
  function Evict(s: Store, maxEntries: int): Store
    requires maxEntries >= 1
  {
    if |s| >= maxEntries then s[|s| - (maxEntries - 1)..] else s
  }

  // ----- one operation -----

  predicate Expired(c: Config, e: Entry, now: int) {
    now - e.createdAt > c.ttl
  }

  function Step(c: Config, s: Store, op: Op): (Store, Outcome) {
    match op
    case Get(key, now) =>
      if !c.enabled || !Has(s, key) then (s, Miss)
      else if Expired(c, EntryOf(s, key), now) then (Without(s, key), Miss)
      else
        var e := EntryOf(s, key);
        (MoveToEnd(s, key, e.(hitCount := e.hitCount + 1)), Hit(e.embedding))
    case Put(key, modelId, embedding, now) =>
      if !c.enabled then (s, Ignored)
      else if Has(s, key) then (MoveToEnd(s, key, EntryOf(s, key).(embedding := embedding)), Stored)
      else if c.maxEntries < 1 then ([], RaisedKeyError)
      else (Evict(s, c.maxEntries) + [Slot(key, Entry(embedding, modelId, now, 0))], Stored)
    case Flush => ([], Flushed(|s|))
    case FlushForModel(m) => (WithoutModel(s, m), Flushed(|s| - |WithoutModel(s, m)|))
  }

  // ----- the class -----

  class QueryEmbeddingCache {
    const config: Config
    const hash: string -> string
    var store: Store

    constructor (config: Config, hash: string -> string)
      ensures this.config == config && this.hash == hash && store == []
    {
      this.config := config;
      this.hash := hash;
      store := [];
    }

    method Get(query: CacheQuery, now: int) returns (result: Option<Embedding>)
      modifies this
      ensures (store, if result.Some? then Hit(result.value) else Miss)
           == Step(config, old(store), Op.Get(MakeCacheKey(hash, query), now))
      ensures var was, i := old(store), IndexOf(old(store), hash(RawKey(query)));
              if !config.enabled || i == |was| then store == was && result == None
              else if now - was[i].entry.createdAt > config.ttl then store == was[..i] + was[i + 1..] && result == None
              else
                var e := was[i].entry;
                && result == Some(e.embedding)
                && store == was[..i] + was[i + 1..] + [Slot(was[i].key, e.(hitCount := e.hitCount + 1))]
    {
      if !config.enabled {
        return None;
      }
      var key := MakeCacheKey(hash, query);
      var i := IndexOf(store, key);
      if i == |store| {
        return None;
      }
      var entry := store[i].entry;
      if now - entry.createdAt > config.ttl {
        store := store[..i] + store[i + 1..];
        return None;
      }
      store := store[..i] + store[i + 1..] + [Slot(key, entry.(hitCount := entry.hitCount + 1))];
      return Some(entry.embedding);
    }

    /** Popping from an empty store is the error that a capacity below one leads to. */
    method Put(query: CacheQuery, embedding: Embedding, now: int) returns (outcome: Outcome)
      modifies this
      ensures (store, outcome)
           == Step(config, old(store), Op.Put(MakeCacheKey(hash, query), query.modelId, embedding, now))
      ensures var key := hash(RawKey(query));
              var was, i := old(store), IndexOf(old(store), key);
              if !config.enabled then store == was && outcome == Ignored
              else if i < |was| then
                && outcome == Stored
                && store == was[..i] + was[i + 1..] + [Slot(key, was[i].entry.(embedding := embedding))]
              else if config.maxEntries < 1 then store == [] && outcome == RaisedKeyError
              else
                var dropped := if |was| < config.maxEntries then 0 else |was| + 1 - config.maxEntries;
                && outcome == Stored
                && store == was[dropped..] + [Slot(key, Entry(embedding, query.modelId, now, 0))]
    {
      if !config.enabled {
        return Ignored;
      }
      var key := MakeCacheKey(hash, query);
      var i := IndexOf(store, key);
      if i < |store| {
        var entry := store[i].entry;
        store := store[..i] + store[i + 1..] + [Slot(key, entry.(embedding := embedding))];
        return Stored;
      }
      ghost var before := store;
      var popped := 0;
      while |store| >= config.maxEntries
        invariant 0 <= popped <= |before| && store == before[popped..]
        invariant popped > 0 ==> |store| >= config.maxEntries - 1
        decreases |store|
      {
        if |store| == 0 {
          return RaisedKeyError;
        }
        store := store[1..];
        popped := popped + 1;
      }
      store := store + [Slot(key, Entry(embedding, query.modelId, now, 0))];
      return Stored;
    }

    method Flush()
      modifies this
      ensures store == Step(config, old(store), Op.Flush).0 == []
    {
      store := [];
    }

    method FlushForModel(modelId: string) returns (removed: nat)
      modifies this
      ensures (store, Flushed(removed)) == Step(config, old(store), Op.FlushForModel(modelId))
      ensures removed == |old(store)| - |store|
      ensures forall slot :: slot in store <==> slot in old(store) && slot.entry.modelId != modelId
    {
      var kept: Store := [];
      var i := 0;
      removed := 0;
      assert store[0..] == store;
      while i < |store|
        invariant 0 <= i <= |store| && store == old(store)
        invariant WithoutModel(store, modelId) == kept + WithoutModel(store[i..], modelId)
        invariant removed + |kept| == i
      {
        assert store[i..][1..] == store[i + 1..];
        if store[i].entry.modelId == modelId {
          removed := removed + 1;
        } else {
          kept := kept + [store[i]];
        }
        i := i + 1;
      }
      assert store[i..] == [] && kept + [] == kept;
      KeptSlots(store, modelId);
      store := kept;
    }
  }

  lemma {:induction false} KeptSlots(s: Store, modelId: string)
    ensures forall slot :: slot in WithoutModel(s, modelId) <==> slot in s && slot.entry.modelId != modelId
  {
    if s != [] {
      KeptSlots(s[1..], modelId);
      assert s == [s[0]] + s[1..];
    }
  }

  // ----- positions after an update -----

  lemma IndexOfIs(s: Store, key: string, i: nat)
    requires i < |s| && s[i].key == key && forall j | 0 <= j < i :: s[j].key != key
    ensures IndexOf(s, key) == i
  {
  }

  lemma AbsentMeansLength(s: Store, key: string)
    requires forall j | 0 <= j < |s| :: s[j].key != key
    ensures IndexOf(s, key) == |s|
  {
  }

  lemma IndexWithout(s: Store, key: string, other: string)
    requires Distinct(s) && key != other
    ensures Has(Without(s, key), other) == Has(s, other)
    ensures Has(s, other) ==>
      && EntryOf(Without(s, key), other) == EntryOf(s, other)
      && IndexOf(Without(s, key), other)
         == IndexOf(s, other) - (if IndexOf(s, key) < IndexOf(s, other) then 1 else 0)
  {
    var i, j, r := IndexOf(s, key), IndexOf(s, other), Without(s, key);
    if i < |s| {
      assert forall n | 0 <= n < |r| :: r[n] == s[if n < i then n else n + 1];
      if j < |s| {
        var j' := if i < j then j - 1 else j;
        assert r[j'] == s[j];
        IndexOfIs(r, other, j');
      } else {
        AbsentMeansLength(r, other);
      }
    }
  }

  lemma WithoutFacts(s: Store, key: string)
    requires Distinct(s)
    ensures Distinct(Without(s, key)) && !Has(Without(s, key), key)
    ensures |Without(s, key)| == |s| - (if Has(s, key) then 1 else 0)
  {
    var i, r := IndexOf(s, key), Without(s, key);
    if i < |s| {
      assert forall n | 0 <= n < |r| :: r[n] == s[if n < i then n else n + 1];
      AbsentMeansLength(r, key);
    }
  }

  lemma IndexAppend(s: Store, x: Slot, key: string)
    requires !Has(s, x.key) && Distinct(s)
    ensures Distinct(s + [x])
    ensures Has(s, key) ==> IndexOf(s + [x], key) == IndexOf(s, key)
    ensures x.key == key ==> IndexOf(s + [x], key) == |s|
    ensures Has(s + [x], key) <==> Has(s, key) || x.key == key
  {
    if Has(s, key) {
      IndexOfIs(s + [x], key, IndexOf(s, key));
    } else if x.key == key {
      IndexOfIs(s + [x], key, |s|);
    } else {
      AbsentMeansLength(s + [x], key);
    }
  }

  lemma IndexDrop(s: Store, n: nat, key: string)
    requires n <= |s| && Distinct(s)
    ensures Distinct(s[n..])
    ensures Has(s[n..], key) <==> Has(s, key) && n <= IndexOf(s, key)
    ensures Has(s[n..], key) ==> IndexOf(s[n..], key) == IndexOf(s, key) - n
  {
    var i := IndexOf(s, key);
    if i < |s| && n <= i {
      IndexOfIs(s[n..], key, i - n);
    } else {
      AbsentMeansLength(s[n..], key);
    }
  }

  /** Moving a key to the end changes nothing else but positions behind it. */
  lemma MoveToEndFacts(s: Store, k: string, e: Entry, key: string)
    requires Distinct(s) && Has(s, k)
    ensures Distinct(MoveToEnd(s, k, e)) && |MoveToEnd(s, k, e)| == |s|
    ensures Has(MoveToEnd(s, k, e), key) == Has(s, key)
    ensures Has(s, key) ==>
      && EntryOf(MoveToEnd(s, k, e), key) == (if key == k then e else EntryOf(s, key))
      && IndexOf(MoveToEnd(s, k, e), key)
         == (if key == k then |s| - 1
             else IndexOf(s, key) - (if IndexOf(s, k) < IndexOf(s, key) then 1 else 0))
  {
    WithoutFacts(s, k);
    IndexAppend(Without(s, k), Slot(k, e), key);
    if key != k {
      IndexWithout(s, k, key);
    }
  }

  function Evicted(s: Store, maxEntries: int): (n: nat)
    requires maxEntries >= 1
    ensures n <= |s| && Evict(s, maxEntries) == s[n..]
  {
    if |s| >= maxEntries then |s| - (maxEntries - 1) else 0
  }

  /** Inserting a new key drops a prefix and appends. */
  lemma InsertFacts(s: Store, maxEntries: int, x: Slot, key: string)
    requires Distinct(s) && !Has(s, x.key) && maxEntries >= 1
    ensures Distinct(Evict(s, maxEntries) + [x]) && |Evict(s, maxEntries) + [x]| <= maxEntries
    ensures Has(Evict(s, maxEntries) + [x], key)
       <==> key == x.key || (Has(s, key) && Evicted(s, maxEntries) <= IndexOf(s, key))
    ensures Has(Evict(s, maxEntries) + [x], key) ==>
      && EntryOf(Evict(s, maxEntries) + [x], key) == (if key == x.key then x.entry else EntryOf(s, key))
      && IndexOf(Evict(s, maxEntries) + [x], key)
         == (if key == x.key then |Evict(s, maxEntries)| else IndexOf(s, key) - Evicted(s, maxEntries))
  {
    var n := Evicted(s, maxEntries);
    IndexDrop(s, n, key);
    IndexDrop(s, n, x.key);
    IndexAppend(s[n..], x, key);
  }

  lemma {:induction false} FilterMembers(s: Store, m: string)
    requires Distinct(s)
    ensures forall n | 0 <= n < |WithoutModel(s, m)| ::
              WithoutModel(s, m)[n] in s && WithoutModel(s, m)[n].entry.modelId != m
    ensures Distinct(WithoutModel(s, m))
  {
    if s != [] {
      var t := WithoutModel(s[1..], m);
      FilterMembers(s[1..], m);
      forall n | 0 <= n < |t|
        ensures t[n] in s && t[n].key != s[0].key
      {
        var i :| 0 <= i < |s[1..]| && s[1..][i] == t[n];
        assert s[i + 1] == t[n];
      }
    }
  }

  lemma FilterCons(s: Store, m: string, key: string)
    requires s != [] && Distinct(s)
    ensures IndexOf(s, key) == if s[0].key == key then 0 else 1 + IndexOf(s[1..], key)
    ensures s[0].key == key ==> !Has(s[1..], key)
    ensures s[0].entry.modelId == m ==> WithoutModel(s, m) == WithoutModel(s[1..], m)
    ensures s[0].entry.modelId != m ==>
      && WithoutModel(s, m)[1..] == WithoutModel(s[1..], m)
      && IndexOf(WithoutModel(s, m), key) == if s[0].key == key then 0 else 1 + IndexOf(WithoutModel(s[1..], m), key)
  {
    if s[0].key == key {
      AbsentMeansLength(s[1..], key);
    }
    assert s[0].entry.modelId != m ==> WithoutModel(s, m)[1..] == WithoutModel(s[1..], m);
  }

  lemma FilterDistinct(s: Store, m: string)
    requires Distinct(s)
    ensures Distinct(WithoutModel(s, m))
  {
    FilterMembers(s, m);
  }

  /** The entry a key has when it is not in the first slot. */
  lemma EntryBelowHead(s: Store, key: string)
    requires s != [] && s[0].key != key
    ensures Has(s, key) <==> Has(s[1..], key)
    ensures Has(s, key) ==> EntryOf(s, key) == EntryOf(s[1..], key)
  {
  }

  lemma {:induction false} FilterKeeps(s: Store, m: string, key: string)
    requires Distinct(s)
    ensures Has(WithoutModel(s, m), key) <==> Has(s, key) && EntryOf(s, key).modelId != m
    ensures Has(WithoutModel(s, m), key) ==> EntryOf(WithoutModel(s, m), key) == EntryOf(s, key)
    decreases |s|
  {
    if s != [] {
      FilterCons(s, m, key);
      FilterKeeps(s[1..], m, key);
      if s[0].key != key {
        EntryBelowHead(s, key);
        if s[0].entry.modelId != m {
          EntryBelowHead(WithoutModel(s, m), key);
        }
      }
    }
  }

  lemma FilterFacts(s: Store, m: string, key: string)
    requires Distinct(s)
    ensures Distinct(WithoutModel(s, m))
    ensures Has(WithoutModel(s, m), key) <==> Has(s, key) && EntryOf(s, key).modelId != m
    ensures Has(WithoutModel(s, m), key) ==> EntryOf(WithoutModel(s, m), key) == EntryOf(s, key)
  {
    FilterDistinct(s, m);
    FilterKeeps(s, m, key);
  }

  /** Positions of a key that stays, before and after filtering, seen from the first slot. */
  lemma FilterIndex(s: Store, m: string, key: string)
    requires Distinct(s) && Has(WithoutModel(s, m), key)
    ensures s != []
    ensures s[0].key == key ==> IndexOf(s, key) == 0 && IndexOf(WithoutModel(s, m), key) == 0
    ensures s[0].key != key ==>
      && Has(WithoutModel(s[1..], m), key) && IndexOf(s, key) == 1 + IndexOf(s[1..], key)
      && IndexOf(WithoutModel(s, m), key)
         == (if s[0].entry.modelId == m then 0 else 1) + IndexOf(WithoutModel(s[1..], m), key)
  {
    FilterFacts(s, m, key);
    FilterCons(s, m, key);
  }

  /** Filtering by model keeps the relative order of what stays. */
  lemma {:induction false} FilterKeepsOrder(s: Store, m: string, key: string, other: string)
    requires Distinct(s) && Has(WithoutModel(s, m), key) && Has(WithoutModel(s, m), other)
    ensures IndexOf(s, key) < IndexOf(s, other)
       <==> IndexOf(WithoutModel(s, m), key) < IndexOf(WithoutModel(s, m), other)
    decreases |s|
  {
    FilterIndex(s, m, key);
    FilterIndex(s, m, other);
    if s[0].key == key || s[0].key == other {
      FilterHead(s, m);
    } else {
      FilterKeepsOrder(s[1..], m, key, other);
    }
  }

  /** A first slot that stays is first again. */
  lemma FilterHead(s: Store, m: string)
    requires Distinct(s) && s != [] && Has(WithoutModel(s, m), s[0].key)
    ensures s[0].entry.modelId != m
    ensures forall k | Has(WithoutModel(s, m), k) && k != s[0].key ::
              IndexOf(s, k) > 0 && IndexOf(WithoutModel(s, m), k) > 0
  {
    FilterFacts(s, m, s[0].key);
    assert IndexOf(s, s[0].key) == 0;
    assert WithoutModel(s, m)[0] == s[0];
  }

  // ----- runs -----

  function Run(c: Config, ops: seq<Op>): Store {
    if ops == [] then [] else Step(c, Run(c, ops[..|ops| - 1]), ops[|ops| - 1]).0
  }

  lemma StepKeepsDistinct(c: Config, s: Store, op: Op)
    requires Distinct(s) && c.maxEntries >= 1 && |s| <= c.maxEntries
    ensures Distinct(Step(c, s, op).0) && |Step(c, s, op).0| <= c.maxEntries
  {
    match op
    case Get(k, _) =>
      WithoutFacts(s, k);
      if Has(s, k) {
        MoveToEndFacts(s, k, EntryOf(s, k).(hitCount := EntryOf(s, k).hitCount + 1), k);
      }
    case Put(k, modelId, embedding, now) =>
      if Has(s, k) {
        MoveToEndFacts(s, k, EntryOf(s, k).(embedding := embedding), k);
      } else {
        InsertFacts(s, c.maxEntries, Slot(k, Entry(embedding, modelId, now, 0)), k);
      }
    case Flush =>
    case FlushForModel(m) => FilterMembers(s, m);
  }

  /** A capacity of at least one is never exceeded, and no key is stored twice. */
  lemma {:induction false} RunBounded(c: Config, ops: seq<Op>)
    requires c.maxEntries >= 1
    ensures Distinct(Run(c, ops)) && |Run(c, ops)| <= c.maxEntries
  {
    if ops != [] {
      RunBounded(c, ops[..|ops| - 1]);
      StepKeepsDistinct(c, Run(c, ops[..|ops| - 1]), ops[|ops| - 1]);
    }
  }

  /** The entry of a key after an operation: stored now, or as it was but for the hit count. */
  predicate EntryAfter(c: Config, s: Store, op: Op, key: string, e: Entry) {
    if Stores(c, op, key) then
      && e.embedding == op.embedding
      && e.createdAt == (if Has(s, key) then EntryOf(s, key).createdAt else op.now)
      && e.modelId == (if Has(s, key) then EntryOf(s, key).modelId else op.modelId)
    else
      && Has(s, key)
      && e.embedding == EntryOf(s, key).embedding
      && e.createdAt == EntryOf(s, key).createdAt
      && e.modelId == EntryOf(s, key).modelId
  }

  lemma WithoutKeepsEntry(s: Store, k: string, key: string)
    requires Distinct(s) && Has(Without(s, k), key)
    ensures Has(s, key) && EntryOf(Without(s, k), key) == EntryOf(s, key)
  {
    WithoutFacts(s, k);
    if k != key {
      IndexWithout(s, k, key);
    }
  }

  lemma MoveKeepsEntry(s: Store, k: string, e: Entry, key: string)
    requires Distinct(s) && Has(s, k) && Has(MoveToEnd(s, k, e), key)
    ensures Has(s, key) && EntryOf(MoveToEnd(s, k, e), key) == if key == k then e else EntryOf(s, key)
  {
    MoveToEndFacts(s, k, e, key);
  }

  lemma GetOnKey(c: Config, s: Store, op: Op, key: string)
    requires Distinct(s) && op.Get? && Has(Step(c, s, op).0, key)
    ensures EntryAfter(c, s, op, key, EntryOf(Step(c, s, op).0, key))
  {
    var k, t := op.key, Step(c, s, op).0;
    if !c.enabled || !Has(s, k) {
      assert t == s;
    } else if Expired(c, EntryOf(s, k), op.now) {
      assert t == Without(s, k);
      WithoutKeepsEntry(s, k, key);
    } else {
      var e := EntryOf(s, k).(hitCount := EntryOf(s, k).hitCount + 1);
      assert t == MoveToEnd(s, k, e);
      MoveKeepsEntry(s, k, e, key);
    }
  }

  lemma PutOnKey(c: Config, s: Store, op: Op, key: string)
    requires Distinct(s) && c.maxEntries >= 1 && op.Put? && Has(Step(c, s, op).0, key)
    ensures EntryAfter(c, s, op, key, EntryOf(Step(c, s, op).0, key))
  {
    var k := op.key;
    if c.enabled && Has(s, k) {
      MoveToEndFacts(s, k, EntryOf(s, k).(embedding := op.embedding), key);
    } else if c.enabled {
      InsertFacts(s, c.maxEntries, Slot(k, Entry(op.embedding, op.modelId, op.now, 0)), key);
    }
  }

  /** What one operation does to the entry of one key that is present afterwards. */
  lemma StepOnKey(c: Config, s: Store, op: Op, key: string)
    requires Distinct(s) && c.maxEntries >= 1
    requires Has(Step(c, s, op).0, key)
    ensures EntryAfter(c, s, op, key, EntryOf(Step(c, s, op).0, key))
  {
    match op
    case Get(_, _) => GetOnKey(c, s, op, key);
    case Put(_, _, _, _) => PutOnKey(c, s, op, key);
    case Flush =>
    case FlushForModel(m) => FilterFacts(s, m, key);
  }

  // ----- soundness of hits -----

  predicate Stores(c: Config, op: Op, key: string) {
    op.Put? && c.enabled && op.key == key
  }

  /** The embedding of the last put for a key. */
  function LatestPut(c: Config, ops: seq<Op>, key: string): Option<Embedding> {
    if ops == [] then None
    else
      var op := ops[|ops| - 1];
      if Stores(c, op, key) then Some(op.embedding) else LatestPut(c, ops[..|ops| - 1], key)
  }

  /** The time of the last put for a key that found the key absent. */
  function InsertionTime(c: Config, ops: seq<Op>, key: string): Option<int> {
    if ops == [] then None
    else
      var op, before := ops[|ops| - 1], ops[..|ops| - 1];
      if Stores(c, op, key) && !Has(Run(c, before), key) then Some(op.now)
      else InsertionTime(c, before, key)
  }

  lemma {:induction false} EntriesAreSound(c: Config, ops: seq<Op>, key: string)
    requires c.maxEntries >= 1 && Has(Run(c, ops), key)
    ensures LatestPut(c, ops, key) == Some(EntryOf(Run(c, ops), key).embedding)
    ensures InsertionTime(c, ops, key) == Some(EntryOf(Run(c, ops), key).createdAt)
  {
    var before := ops[..|ops| - 1];
    RunBounded(c, before);
    StepOnKey(c, Run(c, before), ops[|ops| - 1], key);
    if Has(Run(c, before), key) {
      EntriesAreSound(c, before, key);
    }
  }

  /** A hit returns the latest stored embedding, and the entry was inserted at most ttl ago. */
  lemma HitIsFreshAndLatest(c: Config, ops: seq<Op>, key: string, now: int)
    requires c.maxEntries >= 1
    ensures Step(c, Run(c, ops), Get(key, now)).1.Hit?
       <==> c.enabled && Has(Run(c, ops), key)
            && now - InsertionTime(c, ops, key).GetOr(now) <= c.ttl
    ensures Step(c, Run(c, ops), Get(key, now)).1.Hit?
        ==> LatestPut(c, ops, key) == Some(Step(c, Run(c, ops), Get(key, now)).1.embedding)
  {
    if Has(Run(c, ops), key) {
      EntriesAreSound(c, ops, key);
    }
  }

  // ----- least recently used -----

  predicate Uses(c: Config, s: Store, op: Op, key: string) {
    Stores(c, op, key) || (op.Get? && op.key == key && Step(c, s, op).1.Hit?)
  }

  /** One plus the position of the last operation that used a key; 0 when none did. */
  function LastUse(c: Config, ops: seq<Op>, key: string): (n: nat)
    ensures n <= |ops|
  {
    if ops == [] then 0
    else if Uses(c, Run(c, ops[..|ops| - 1]), ops[|ops| - 1], key) then |ops|
    else LastUse(c, ops[..|ops| - 1], key)
  }

  predicate InUseOrder(c: Config, ops: seq<Op>, s: Store) {
    forall i, j | 0 <= i < j < |s| :: LastUse(c, ops, s[i].key) < LastUse(c, ops, s[j].key)
  }

  lemma WithoutOrder(s: Store, k: string, key: string, other: string)
    requires Distinct(s) && key != other && Has(Without(s, k), key) && Has(Without(s, k), other)
    ensures key != k && other != k && Has(s, key) && Has(s, other)
    ensures IndexOf(Without(s, k), other) < IndexOf(Without(s, k), key) <==> IndexOf(s, other) < IndexOf(s, key)
  {
    WithoutFacts(s, k);
    IndexWithout(s, k, key);
    IndexWithout(s, k, other);
  }

  lemma MoveOrder(s: Store, k: string, e: Entry, key: string, other: string)
    requires Distinct(s) && Has(s, k) && key != other
    requires Has(MoveToEnd(s, k, e), key) && Has(MoveToEnd(s, k, e), other)
    ensures Has(s, key) && Has(s, other)
    ensures key == k ==> IndexOf(MoveToEnd(s, k, e), other) < IndexOf(MoveToEnd(s, k, e), key)
    ensures key != k && other != k ==>
      (IndexOf(MoveToEnd(s, k, e), other) < IndexOf(MoveToEnd(s, k, e), key) <==> IndexOf(s, other) < IndexOf(s, key))
  {
    MoveToEndFacts(s, k, e, key);
    MoveToEndFacts(s, k, e, other);
    assert IndexOf(s, key) != IndexOf(s, other);
  }

  lemma InsertOrder(s: Store, maxEntries: int, x: Slot, key: string, other: string)
    requires Distinct(s) && !Has(s, x.key) && maxEntries >= 1 && key != other
    requires Has(Evict(s, maxEntries) + [x], key) && Has(Evict(s, maxEntries) + [x], other)
    ensures var r := Evict(s, maxEntries) + [x];
      && (key == x.key ==> IndexOf(r, other) < IndexOf(r, key))
      && (key != x.key && other != x.key ==>
            && Has(s, key) && Has(s, other)
            && (IndexOf(r, other) < IndexOf(r, key) <==> IndexOf(s, other) < IndexOf(s, key)))
  {
    InsertFacts(s, maxEntries, x, key);
    InsertFacts(s, maxEntries, x, other);
  }

  /** What an operation does to the order of two keys: the used one ends up last, unused ones keep their order. */
  predicate OrdersByUse(c: Config, s: Store, op: Op, s': Store, key: string, other: string) {
    && (Uses(c, s, op, key) ==> IndexOf(s', other) < IndexOf(s', key))
    && (!Uses(c, s, op, key) && !Uses(c, s, op, other) ==>
          && Has(s, key) && Has(s, other)
          && (IndexOf(s', other) < IndexOf(s', key) <==> IndexOf(s, other) < IndexOf(s, key)))
  }

  lemma GetOrder(c: Config, s: Store, op: Op, key: string, other: string)
    requires Distinct(s) && op.Get? && key != other
    requires Has(Step(c, s, op).0, key) && Has(Step(c, s, op).0, other)
    ensures OrdersByUse(c, s, op, Step(c, s, op).0, key, other)
  {
    var k := op.key;
    if c.enabled && Has(s, k) {
      if Expired(c, EntryOf(s, k), op.now) {
        assert Step(c, s, op) == (Without(s, k), Miss);
        WithoutOrder(s, k, key, other);
      } else {
        var e := EntryOf(s, k).(hitCount := EntryOf(s, k).hitCount + 1);
        assert Step(c, s, op) == (MoveToEnd(s, k, e), Hit(EntryOf(s, k).embedding));
        MoveOrder(s, k, e, key, other);
      }
    } else {
      assert Step(c, s, op) == (s, Miss);
    }
  }

  lemma PutOrder(c: Config, s: Store, op: Op, key: string, other: string)
    requires Distinct(s) && c.maxEntries >= 1 && op.Put? && key != other
    requires Has(Step(c, s, op).0, key) && Has(Step(c, s, op).0, other)
    ensures OrdersByUse(c, s, op, Step(c, s, op).0, key, other)
  {
    var k := op.key;
    if c.enabled && Has(s, k) {
      MoveOrder(s, k, EntryOf(s, k).(embedding := op.embedding), key, other);
    } else if c.enabled {
      InsertOrder(s, c.maxEntries, Slot(k, Entry(op.embedding, op.modelId, op.now, 0)), key, other);
    }
  }

  lemma StepOrder(c: Config, s: Store, op: Op, key: string, other: string)
    requires Distinct(s) && c.maxEntries >= 1 && key != other
    requires Has(Step(c, s, op).0, key) && Has(Step(c, s, op).0, other)
    ensures OrdersByUse(c, s, op, Step(c, s, op).0, key, other)
  {
    match op
    case Get(_, _) => GetOrder(c, s, op, key, other);
    case Put(_, _, _, _) => PutOrder(c, s, op, key, other);
    case Flush =>
    case FlushForModel(m) =>
      FilterFacts(s, m, key);
      FilterFacts(s, m, other);
      FilterKeepsOrder(s, m, other, key);
  }

  lemma IndexOfSlot(s: Store, i: nat)
    requires Distinct(s) && i < |s|
    ensures IndexOf(s, s[i].key) == i
  {
    IndexOfIs(s, s[i].key, i);
  }

  /** In every run the store is sorted by last use, so the front entry is the least recently used. */
  lemma {:induction false} StoreIsInUseOrder(c: Config, ops: seq<Op>)
    requires c.maxEntries >= 1
    ensures InUseOrder(c, ops, Run(c, ops))
  {
    if ops != [] {
      var before, op := ops[..|ops| - 1], ops[|ops| - 1];
      var s, s' := Run(c, before), Run(c, ops);
      RunBounded(c, before);
      RunBounded(c, ops);
      StoreIsInUseOrder(c, before);
      forall i, j | 0 <= i < j < |s'|
        ensures LastUse(c, ops, s'[i].key) < LastUse(c, ops, s'[j].key)
      {
        var a, b := s'[i].key, s'[j].key;
        IndexOfSlot(s', i);
        IndexOfSlot(s', j);
        StepOrder(c, s, op, a, b);
        StepOrder(c, s, op, b, a);
        if !Uses(c, s, op, b) {
          assert s[IndexOf(s, a)].key == a && s[IndexOf(s, b)].key == b;
        }
      }
    }
  }

  /** A put of a new key into a full store drops exactly the entry with the oldest last use. */
  lemma EvictionDropsLeastRecentlyUsed(c: Config, ops: seq<Op>, op: Op, key: string)
    requires c.maxEntries >= 1 && op.Put? && c.enabled
    requires !Has(Run(c, ops), op.key) && |Run(c, ops)| == c.maxEntries
    requires Has(Run(c, ops), key)
    ensures !Has(Run(c, ops + [op]), key)
       <==> forall other | other != key && Has(Run(c, ops), other) :: LastUse(c, ops, key) < LastUse(c, ops, other)
  {
    var s, k := Run(c, ops), op.key;
    RunBounded(c, ops);
    StoreIsInUseOrder(c, ops);
    assert (ops + [op])[..|ops + [op]| - 1] == ops;
    InsertFacts(s, c.maxEntries, Slot(k, Entry(op.embedding, op.modelId, op.now, 0)), key);
    if IndexOf(s, key) == 0 {
      forall other | other != key && Has(s, other)
        ensures LastUse(c, ops, key) < LastUse(c, ops, other)
      {
        assert s[IndexOf(s, other)].key == other && s[0].key == key;
      }
    } else {
      IndexOfSlot(s, 0);
      assert LastUse(c, ops, s[0].key) < LastUse(c, ops, s[IndexOf(s, key)].key);
    }
  }

  // ----- flushing one model -----

  /** No two cache keys of NUL-free queries collide in the hash. */
  ghost predicate NoCollisions(hash: string -> string) {
    forall a: CacheQuery, b: CacheQuery
      | NulFree(a) && NulFree(b) && MakeCacheKey(hash, a) == MakeCacheKey(hash, b) :: RawKey(a) == RawKey(b)
  }

  /** The puts of a run come from NUL-free queries, each stored under its key with its model. */
  ghost predicate FromQueries(hash: string -> string, ops: seq<Op>) {
    forall i | 0 <= i < |ops| && ops[i].Put? ::
      exists q: CacheQuery :: NulFree(q) && ops[i].key == MakeCacheKey(hash, q) && ops[i].modelId == q.modelId
  }

  lemma {:induction false} EntryCarriesItsModel(c: Config, hash: string -> string, ops: seq<Op>, q: CacheQuery)
    requires c.maxEntries >= 1 && NoCollisions(hash) && FromQueries(hash, ops) && NulFree(q)
    requires Has(Run(c, ops), MakeCacheKey(hash, q))
    ensures EntryOf(Run(c, ops), MakeCacheKey(hash, q)).modelId == q.modelId
  {
    var before, op, key := ops[..|ops| - 1], ops[|ops| - 1], MakeCacheKey(hash, q);
    RunBounded(c, before);
    StepOnKey(c, Run(c, before), op, key);
    if Has(Run(c, before), key) {
      assert forall i | 0 <= i < |before| :: before[i] == ops[i];
      EntryCarriesItsModel(c, hash, before, q);
    } else {
      var p: CacheQuery :| NulFree(p) && op.key == MakeCacheKey(hash, p) && op.modelId == p.modelId;
      RawKeyDistinguishes(p, q);
    }
  }

  /** After a model flush every lookup of that model misses, and no other model's entry changes. */
  lemma FlushForModelIsExact(c: Config, hash: string -> string, ops: seq<Op>, m: string, q: CacheQuery, now: int)
    requires c.maxEntries >= 1 && NoCollisions(hash) && FromQueries(hash, ops) && NulFree(q)
    ensures var s, s', key := Run(c, ops), Run(c, ops + [FlushForModel(m)]), MakeCacheKey(hash, q);
      && (q.modelId == m ==> Step(c, s', Get(key, now)).1 == Miss)
      && (q.modelId != m ==> Step(c, s', Get(key, now)).1 == Step(c, s, Get(key, now)).1)
      && (q.modelId != m && Has(s, key) ==> Has(s', key) && EntryOf(s', key) == EntryOf(s, key))
  {
    var s, key := Run(c, ops), MakeCacheKey(hash, q);
    RunBounded(c, ops);
    assert (ops + [FlushForModel(m)])[..|ops|] == ops;
    FilterFacts(s, m, key);
    if Has(s, key) {
      EntryCarriesItsModel(c, hash, ops, q);
    }
  }
}
