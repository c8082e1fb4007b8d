/**
 The checker that skips known paths. It compares dotted strings, so where keys contain dots or
 are empty what it skips is not what stands at the path.
 */
module SkippedPaths {
  import opened Options
  import opened Redaction

  /** The parts of a path between dots. */
  function Split(path: string): (parts: seq<string>)
    ensures parts != []
  {
    if path == "" then [""]
    else if path[0] == '.' then [""] + Split(path[1..])
    else var rest := Split(path[1..]); [[path[0]] + rest[0]] + rest[1..]
  }

  /** Skipping only looks at dictionaries: below a list the plain checker runs. */
  function CheckSkipping(secret: Secret, skip: set<seq<string>>, path: string, entries: seq<Entry>): Option<string>
    decreases entries
  {
    if entries == [] then None
    else
      var key, cur := entries[0].key, Under(path, entries[0].key);
      var here :=
        if Split(cur) in skip then None
        else
          match entries[0].value
          case Dict(sub) => CheckSkipping(secret, skip, cur, sub)
          case List(items) => CheckList(secret, cur, key, 0, items)
          case Str(text) => if Offends(secret, key, text) then Some(cur) else None
          case Other(_) => None
          case Null => None;
      if here.Some? then here else CheckSkipping(secret, skip, path, entries[1..])
  }

  /** The configuration without the entries at skipped paths. */
  function Prune(skip: set<seq<string>>, path: string, entries: seq<Entry>): seq<Entry>
    decreases entries
  {
    if entries == [] then []
    else
      var key, cur := entries[0].key, Under(path, entries[0].key);
      var rest := Prune(skip, path, entries[1..]);
      if Split(cur) in skip then rest
      else
        [if entries[0].value.Dict? then Entry(key, Dict(Prune(skip, cur, entries[0].value.entries)))
         else entries[0]] + rest
  }

  /**
   Skipping paths gives the same verdict, and names the same first offender, as checking the
   pruned configuration.
   */
  lemma {:induction false} SkippingIsPruning(secret: Secret, skip: set<seq<string>>, path: string, entries: seq<Entry>)
    ensures CheckSkipping(secret, skip, path, entries) == CheckDict(secret, path, Prune(skip, path, entries))
    decreases entries
  {
    if entries != [] {
      var cur := Under(path, entries[0].key);
      SkippingIsPruning(secret, skip, path, entries[1..]);
      if Split(cur) !in skip {
        if entries[0].value.Dict? {
          SkippingIsPruning(secret, skip, cur, entries[0].value.entries);
        }
        assert Prune(skip, path, entries)[1..] == Prune(skip, path, entries[1..]);
      }
    }
  }

  // ----- dotted strings and key paths -----

  /** The dotted string of a path of keys, as the walk from the root builds it. */
  function Dotted(ks: seq<string>): string {
    if ks == [] then "" else Under(Dotted(ks[..|ks| - 1]), ks[|ks| - 1])
  }

  /** No key contains a dot, and only a path of one key starts with the empty one. */
  predicate Plain(ks: seq<string>) {
    (forall k | k in ks :: '.' !in k) && (|ks| <= 1 || ks[0] != "")
  }

  lemma DottedBelow(ks: seq<string>, key: string)
    ensures Dotted(ks + [key]) == Under(Dotted(ks), key)
  {
    assert (ks + [key])[..|ks|] == ks;
  }

  lemma {:induction false} SplitOfJoin(x: string, y: string)
    ensures Split(x + "." + y) == Split(x) + Split(y)
  {
    var s := x + "." + y;
    if x == "" {
      assert s[1..] == y;
    } else {
      assert s[1..] == x[1..] + "." + y;
      SplitOfJoin(x[1..], y);
    }
  }

  lemma {:induction false} SplitOfKey(k: string)
    requires '.' !in k
    ensures Split(k) == [k]
  {
    if k != "" {
      assert k[0] in k;
      SplitOfKey(k[1..]);
      assert [k[0]] + k[1..] == k;
    }
  }

  lemma {:induction false} PartsHaveNoDots(s: string)
    ensures forall k | k in Split(s) :: '.' !in k
  {
    if s != "" {
      PartsHaveNoDots(s[1..]);
    }
  }

  lemma {:induction false} SplitOfPlain(ks: seq<string>)
    requires ks != [] && Plain(ks)
    ensures Split(Dotted(ks)) == ks
    ensures ks[0] != "" ==> Dotted(ks) != ""
  {
    var n := |ks| - 1;
    var init, last := ks[..n], ks[n];
    assert last in ks && ks == init + [last];
    SplitOfKey(last);
    if n > 0 {
      assert forall k | k in init :: k in ks;
      SplitOfPlain(init);
      SplitOfJoin(Dotted(init), last);
    }
  }

  /** Below an empty first key a level is lost. */
  lemma {:induction false} SplitUnderEmpty(ks: seq<string>)
    requires |ks| >= 2 && ks[0] == "" && forall k | k in ks :: '.' !in k
    ensures |Split(Dotted(ks))| < |ks|
  {
    var n := |ks| - 1;
    var init, last := ks[..n], ks[n];
    assert last in ks;
    SplitOfKey(last);
    if n == 1 {
      assert init[..0] == [] && init[0] == "";
      assert Dotted(init) == "";
    } else {
      assert forall k | k in init :: k in ks;
      SplitUnderEmpty(init);
      SplitOfJoin(Dotted(init), last);
    }
  }

  /** The dotted string of a path splits into the path exactly when the path is plain. */
  lemma SplitIsKeyPathExactly(ks: seq<string>)
    requires ks != []
    ensures Split(Dotted(ks)) == ks <==> Plain(ks)
  {
    if Plain(ks) {
      SplitOfPlain(ks);
    } else if forall k | k in ks :: '.' !in k {
      SplitUnderEmpty(ks);
    } else {
      PartsHaveNoDots(Dotted(ks));
    }
  }

  // ----- skipping against removal at key paths -----

  /** The configuration without what stands at the given key paths. */
  function PruneAt(skip: set<seq<string>>, ks: seq<string>, entries: seq<Entry>): seq<Entry>
    decreases entries
  {
    if entries == [] then []
    else
      var key, at := entries[0].key, ks + [entries[0].key];
      var rest := PruneAt(skip, ks, entries[1..]);
      if at in skip then rest
      else
        [if entries[0].value.Dict? then Entry(key, Dict(PruneAt(skip, at, entries[0].value.entries)))
         else entries[0]] + rest
  }

  /** As in every dictionary, a key occurs once. */
  predicate DistinctKeys(entries: seq<Entry>)
    decreases entries
  {
    entries == [] ||
    ((forall e | e in entries[1..] :: e.key != entries[0].key)
     && (entries[0].value.Dict? ==> DistinctKeys(entries[0].value.entries))
     && DistinctKeys(entries[1..]))
  }

  /** Every entry that is reached is skipped exactly when its key path is listed. */
  predicate SkippedByPath(skip: set<seq<string>>, ks: seq<string>, entries: seq<Entry>)
    decreases entries
  {
    entries == [] ||
    (var at := ks + [entries[0].key];
     && (Split(Dotted(at)) in skip <==> at in skip)
     && (at !in skip && entries[0].value.Dict? ==> SkippedByPath(skip, at, entries[0].value.entries))
     && SkippedByPath(skip, ks, entries[1..]))
  }

  lemma {:induction false} PrunedKeys(skip: set<seq<string>>, path: string, ks: seq<string>, entries: seq<Entry>,
                                      key: string)
    requires forall e | e in entries :: e.key != key
    ensures forall e | e in Prune(skip, path, entries) :: e.key != key
    ensures forall e | e in PruneAt(skip, ks, entries) :: e.key != key
  {
    if entries != [] {
      assert entries[0] in entries && forall e | e in entries[1..] :: e in entries;
      PrunedKeys(skip, path, ks, entries[1..], key);
    }
  }

  /** What the checker skips is what stands at the listed paths exactly when no entry it reaches is mistaken. */
  lemma {:induction false} SkippingIsByPathExactly(skip: set<seq<string>>, ks: seq<string>, entries: seq<Entry>)
    requires DistinctKeys(entries)
    ensures Prune(skip, Dotted(ks), entries) == PruneAt(skip, ks, entries) <==> SkippedByPath(skip, ks, entries)
    decreases entries
  {
    if entries != [] {
      var key, at := entries[0].key, ks + [entries[0].key];
      DottedBelow(ks, key);
      SkippingIsByPathExactly(skip, ks, entries[1..]);
      PrunedKeys(skip, Dotted(ks), ks, entries[1..], key);
      var byDots, byPath := Prune(skip, Dotted(ks), entries), PruneAt(skip, ks, entries);
      if Split(Dotted(at)) in skip <==> at in skip {
        if at !in skip {
          if entries[0].value.Dict? {
            SkippingIsByPathExactly(skip, at, entries[0].value.entries);
          }
          assert byDots[1..] == Prune(skip, Dotted(ks), entries[1..]);
          assert byPath[1..] == PruneAt(skip, ks, entries[1..]);
        }
      } else if at in skip {
        assert byDots[0].key == key && (byPath != [] ==> byPath[0] in byPath);
      } else {
        assert byPath[0].key == key && (byDots != [] ==> byDots[0] in byDots);
      }
    }
  }

  /** Every key path of the configuration is plain. */
  predicate PlainPaths(ks: seq<string>, entries: seq<Entry>)
    decreases entries
  {
    entries == [] ||
    (var at := ks + [entries[0].key];
     && Plain(at)
     && (entries[0].value.Dict? ==> PlainPaths(at, entries[0].value.entries))
     && PlainPaths(ks, entries[1..]))
  }

  lemma {:induction false} PlainIsSkippedByPath(skip: set<seq<string>>, ks: seq<string>, entries: seq<Entry>)
    requires PlainPaths(ks, entries)
    ensures SkippedByPath(skip, ks, entries)
    decreases entries
  {
    if entries != [] {
      var at := ks + [entries[0].key];
      SplitIsKeyPathExactly(at);
      if entries[0].value.Dict? {
        PlainIsSkippedByPath(skip, at, entries[0].value.entries);
      }
      PlainIsSkippedByPath(skip, ks, entries[1..]);
    }
  }

  /** Listing the first path that is not plain: the checker looks at what stands there all the same. */
  lemma {:induction false} ListedButNotSkipped(ks: seq<string>, entries: seq<Entry>) returns (p: seq<string>)
    requires !PlainPaths(ks, entries)
    ensures |p| > |ks| && !SkippedByPath({p}, ks, entries)
    decreases entries
  {
    var at := ks + [entries[0].key];
    SplitIsKeyPathExactly(at);
    if !Plain(at) {
      p := at;
    } else if entries[0].value.Dict? && !PlainPaths(at, entries[0].value.entries) {
      p := ListedButNotSkipped(at, entries[0].value.entries);
    } else {
      p := ListedButNotSkipped(ks, entries[1..]);
    }
  }

  ghost predicate SkipsByPath(skip: set<seq<string>>, entries: seq<Entry>) {
    Prune(skip, "", entries) == PruneAt(skip, [], entries)
  }

  /**
   Whatever paths are listed, the checker leaves out what stands at them and nothing else, if and
   only if no key of the configuration contains a dot and nothing is nested under an empty key at the top.
   */
  lemma SkippingMeansPathsExactly(entries: seq<Entry>)
    requires DistinctKeys(entries)
    ensures (forall skip :: SkipsByPath(skip, entries)) <==> PlainPaths([], entries)
  {
    if PlainPaths([], entries) {
      forall skip
        ensures SkipsByPath(skip, entries)
      {
        PlainIsSkippedByPath(skip, [], entries);
        SkippingIsByPathExactly(skip, [], entries);
      }
    } else {
      var p := ListedButNotSkipped([], entries);
      SkippingIsByPathExactly({p}, [], entries);
      assert !SkipsByPath({p}, entries);
    }
  }

  /** Two mistakes: a key with a dot is skipped for a nested one, and one below an empty key for a top one. */
  lemma DottedKeyIsSkipped(secret: Secret, text: string)
    ensures CheckSkipping(secret, {["a", "b"]}, "", [Entry("a.b", Str(text))]) == None
    ensures CheckSkipping(secret, {["a"]}, "", [Entry("", Dict([Entry("a", Str(text))]))]) == None
  {
    SplitOfJoin("a", "b");
    SplitOfKey("a");
    SplitOfKey("b");
    SplitOfKey("");
    assert "a.b" == "a" + "." + "b" && Split("a.b") == ["a", "b"];
    assert [Entry("a.b", Str(text))][1..] == [];
    var inner := [Entry("a", Str(text))];
    assert inner[1..] == [];
    assert CheckSkipping(secret, {["a"]}, "", inner) == None;
    assert [Entry("", Dict(inner))][1..] == [];
  }
}
