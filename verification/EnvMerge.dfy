/**
 Merging environment variables into a configuration: a variable's name, split at double
 underscores and lowercased, is the path it sets, and missing dictionaries are created.
 */
module EnvMerge {
  import opened Options
  import opened Paths
  import opened Text

  datatype Tree = Leaf(value: string) | Branch(children: Dict)

  type Dict = map<string, Tree>

  type Path = s: seq<string> | s != [] witness [""]

  // ----- paths from variable names -----

  /** The parts between double underscores, taken from the left. */
  function SplitName(name: string): (parts: Path) {
    if |name| < 2 then [name]
    else if name[..2] == "__" then [""] + SplitName(name[2..])
    else var rest := SplitName(name[1..]); [[name[0]] + rest[0]] + rest[1..]
  }

  function PathOf(name: string): (path: Path)
    ensures |path| == |SplitName(name)|
    ensures forall i | 0 <= i < |path| :: path[i] == Lower(SplitName(name)[i])
  {
    var parts := SplitName(name);
    seq(|parts|, i requires 0 <= i < |parts| => Lower(parts[i]))
  }

  predicate SeparatorAt(s: string, i: int) {
    0 <= i < |s| - 1 && s[i] == '_' && s[i + 1] == '_'
  }

  predicate HasSeparator(s: string) {
    exists i | 0 <= i < |s| :: SeparatorAt(s, i)
  }

  lemma NoSeparatorInTail(s: string)
    requires s != "" && !HasSeparator(s)
    ensures !HasSeparator(s[1..])
  {
    forall i | 0 <= i < |s[1..]|
      ensures !SeparatorAt(s[1..], i)
    {
      assert !SeparatorAt(s, i + 1);
    }
  }

  lemma SeparatorFirst(s: string)
    requires |s| >= 2
    ensures s[..2] == "__" <==> SeparatorAt(s, 0)
  {
    assert s[..2] == [s[0], s[1]];
  }

  /** A name without a separator is one part. */
  lemma {:induction false} SplitWithoutSeparator(a: string)
    requires !HasSeparator(a)
    ensures SplitName(a) == [a]
    decreases |a|
  {
    if |a| >= 2 {
      SeparatorFirst(a);
      NoSeparatorInTail(a);
      SplitWithoutSeparator(a[1..]);
      assert [a[0]] + a[1..] == a;
    }
  }

  /** The left-most separator ends the first part: the last of three underscores belongs to the next one. */
  lemma {:induction false} SplitAtSeparator(a: string, b: string)
    requires !HasSeparator(a + "_")
    ensures SplitName(a + "__" + b) == [a] + SplitName(b)
    decreases |a|
  {
    var s := a + "__" + b;
    if a == "" {
      assert s[..2] == "__" && s[2..] == b;
    } else {
      SeparatorFirst(s);
      assert !SeparatorAt(a + "_", 0);
      NoSeparatorInTail(a + "_");
      assert (a + "_")[1..] == a[1..] + "_";
      assert s[1..] == a[1..] + "__" + b;
      SplitAtSeparator(a[1..], b);
      assert [a[0]] + a[1..] == a;
    }
  }

  const PATH_SEP := "__"

  function JoinParts(parts: Path): string
    decreases |parts|
  {
    if |parts| == 1 then parts[0] else parts[0] + (PATH_SEP + JoinParts(parts[1..]))
  }

  lemma GrownHead(c: char, rest: Path)
    ensures JoinParts([[c] + rest[0]] + rest[1..]) == [c] + JoinParts(rest)
  {
    var grown: Path := [[c] + rest[0]] + rest[1..];
    assert grown[1..] == rest[1..];
    if |rest| > 1 {
      Regroup([c], rest[0], PATH_SEP + JoinParts(rest[1..]));
    }
  }

  lemma Regroup(x: string, y: string, z: string)
    ensures (x + y) + z == x + (y + z)
  {
  }

  lemma GrownPart(c: char, part: string)
    requires !HasSeparator(part) && (part != "" ==> c != '_' || part[0] != '_')
    ensures !HasSeparator([c] + part)
  {
    forall i | 0 <= i < |part| + 1
      ensures !SeparatorAt([c] + part, i)
    {
      assert i > 0 ==> !SeparatorAt(part, i - 1);
    }
  }

  /** Nothing of a name is lost, and no part could be split again. */
  lemma {:induction false} PartsJoinToName(name: string)
    ensures JoinParts(SplitName(name)) == name
    ensures forall part | part in SplitName(name) :: !HasSeparator(part)
    decreases |name|
  {
    if |name| >= 2 {
      SeparatorFirst(name);
      if name[..2] == "__" {
        var rest := SplitName(name[2..]);
        PartsJoinToName(name[2..]);
        assert ([""] + rest)[1..] == rest;
        assert name == PATH_SEP + name[2..];
      } else {
        var rest := SplitName(name[1..]);
        PartsJoinToName(name[1..]);
        GrownHead(name[0], rest);
        assert name == [name[0]] + name[1..];
        FirstOfJoined(rest);
        assert rest[0] in rest;
        GrownPart(name[0], rest[0]);
      }
    }
  }

  lemma FirstOfJoined(parts: Path)
    ensures parts[0] <= JoinParts(parts)
  {
  }

  /** The path of a joined name. */
  lemma PathOfJoined(a: string, b: string)
    requires !HasSeparator(a + "_")
    ensures PathOf(a + "__" + b) == [Lower(a)] + PathOf(b)
  {
    SplitAtSeparator(a, b);
  }

  lemma PathOfPlain(a: string)
    requires !HasSeparator(a)
    ensures PathOf(a) == [Lower(a)]
  {
    SplitWithoutSeparator(a);
  }

  // ----- setting and reading a path -----

  function ChildOf(d: Dict, key: string): Dict {
    if key in d && d[key].Branch? then d[key].children else map[]
  }

  /** Whatever is in the way of the path and is no dictionary is replaced by one. */
  function SetNested(d: Dict, path: Path, value: string): Dict
    decreases |path|
  {
    if |path| == 1 then d[path[0] := Leaf(value)]
    else d[path[0] := Branch(SetNested(ChildOf(d, path[0]), path[1..], value))]
  }

  function Read(d: Dict, path: Path): Option<Tree>
    decreases |path|
  {
    if path[0] !in d then None
    else if |path| == 1 then Some(d[path[0]])
    else if d[path[0]].Branch? then Read(d[path[0]].children, path[1..])
    else None
  }

  lemma {:induction false} ReadBack(d: Dict, p: Path, v: string)
    ensures Read(SetNested(d, p, v), p) == Some(Leaf(v))
    decreases |p|
  {
    if |p| > 1 {
      ReadBack(ChildOf(d, p[0]), p[1..], v);
    }
  }

  lemma NothingToRead(p: Path)
    ensures Read(map[], p) == None
  {
  }

  lemma {:induction false} ReadElsewhere(d: Dict, p: Path, v: string, q: Path)
    requires Apart(p, q)
    ensures Read(SetNested(d, p, v), q) == Read(d, q)
    decreases |p|
  {
    if p[0] == q[0] {
      ApartBelow(p, q);
      ReadElsewhere(ChildOf(d, p[0]), p[1..], v, q[1..]);
      NothingToRead(q[1..]);
    }
  }

  lemma {:induction false} ApartCommutes(d: Dict, p: Path, v: string, q: Path, w: string)
    requires Apart(p, q)
    ensures SetNested(SetNested(d, p, v), q, w) == SetNested(SetNested(d, q, w), p, v)
    decreases |p|
  {
    if p[0] == q[0] {
      ApartBelow(p, q);
      ApartCommutes(ChildOf(d, p[0]), p[1..], v, q[1..], w);
    }
  }

  lemma {:induction false} ReadAbove(d: Dict, p: Path, v: string, q: Path)
    requires p < q
    ensures Read(SetNested(d, q, v), p).Some? && Read(SetNested(d, q, v), p).value.Branch?
    decreases |p|
  {
    if |p| > 1 {
      assert p[1..] < q[1..];
      ReadAbove(ChildOf(d, p[0]), p[1..], v, q[1..]);
    }
  }

  /**
   On any configuration two settings commute exactly when their paths are apart, or they are the
   same setting.
   */
  lemma SettingsCommuteExactly(d: Dict, p: Path, v: string, q: Path, w: string)
    ensures SetNested(SetNested(d, p, v), q, w) == SetNested(SetNested(d, q, w), p, v)
       <==> Apart(p, q) || (p == q && v == w)
  {
    if Apart(p, q) {
      ApartCommutes(d, p, v, q, w);
    } else {
      ReadBack(SetNested(d, q, w), p, v);
      ReadBack(SetNested(d, p, v), q, w);
      if p < q {
        ReadAbove(SetNested(d, p, v), p, w, q);
      } else if q < p {
        ReadAbove(SetNested(d, q, w), q, v, p);
      } else {
        assert p == q;
      }
    }
  }

  // ----- merging all variables -----

  datatype Override = Override(name: string, value: string)

  function Merge(d: Dict, overrides: seq<Override>): Dict
    decreases |overrides|
  {
    if overrides == [] then d
    else Merge(SetNested(d, PathOf(overrides[0].name), overrides[0].value), overrides[1..])
  }

  predicate FarFrom(overrides: seq<Override>, q: Path) {
    forall i | 0 <= i < |overrides| :: Apart(PathOf(overrides[i].name), q)
  }

  /** What stands apart from every override is kept. */
  lemma {:induction false} MergeKeepsTheRest(d: Dict, overrides: seq<Override>, q: Path)
    requires FarFrom(overrides, q)
    ensures Read(Merge(d, overrides), q) == Read(d, q)
    decreases |overrides|
  {
    if overrides != [] {
      ReadElsewhere(d, PathOf(overrides[0].name), overrides[0].value, q);
      MergeKeepsTheRest(SetNested(d, PathOf(overrides[0].name), overrides[0].value), overrides[1..], q);
    }
  }

  // ----- overrides that conflict -----

  /** Two overrides that do not conflict: neither path contains the other, or they are the same setting. */
  predicate Commute(x: Override, y: Override) {
    Apart(PathOf(x.name), PathOf(y.name)) || (PathOf(x.name) == PathOf(y.name) && x.value == y.value)
  }

  predicate AllCommute(overrides: seq<Override>) {
    forall i, k | 0 <= i < k < |overrides| :: Commute(overrides[i], overrides[k])
  }

  lemma {:induction false} MergeKeepsSetting(d: Dict, overrides: seq<Override>, x: Override)
    requires Read(d, PathOf(x.name)) == Some(Leaf(x.value))
    requires forall i | 0 <= i < |overrides| :: Commute(x, overrides[i])
    ensures Read(Merge(d, overrides), PathOf(x.name)) == Some(Leaf(x.value))
    decreases |overrides|
  {
    if overrides != [] {
      var y := overrides[0];
      if PathOf(x.name) == PathOf(y.name) {
        ReadBack(d, PathOf(y.name), y.value);
      } else {
        ReadElsewhere(d, PathOf(y.name), y.value, PathOf(x.name));
      }
      MergeKeepsSetting(SetNested(d, PathOf(y.name), y.value), overrides[1..], x);
    }
  }

  lemma {:induction false} CommutingReadBack(d: Dict, overrides: seq<Override>, i: nat)
    requires AllCommute(overrides) && i < |overrides|
    ensures Read(Merge(d, overrides), PathOf(overrides[i].name)) == Some(Leaf(overrides[i].value))
    decreases |overrides|
  {
    var x := overrides[0];
    var first := SetNested(d, PathOf(x.name), x.value);
    if i == 0 {
      ReadBack(d, PathOf(x.name), x.value);
      MergeKeepsSetting(first, overrides[1..], x);
    } else {
      CommutingReadBack(first, overrides[1..], i - 1);
    }
  }

  lemma {:induction false} NothingBelowLeaf(d: Dict, p: Path, q: Path)
    requires p < q && Read(d, p).Some? && Read(d, p).value.Leaf?
    ensures Read(d, q) == None
    decreases |p|
  {
    if |p| > 1 {
      assert p[1..] < q[1..];
      NothingBelowLeaf(d[p[0]].children, p[1..], q[1..]);
    }
  }

  predicate ReadsBack(d: Dict, x: Override) {
    Read(d, PathOf(x.name)) == Some(Leaf(x.value))
  }

  lemma BothReadBack(d: Dict, x: Override, y: Override)
    requires ReadsBack(d, x) && ReadsBack(d, y)
    ensures Commute(x, y)
  {
    var p, q := PathOf(x.name), PathOf(y.name);
    if p < q {
      NothingBelowLeaf(d, p, q);
    } else if q < p {
      NothingBelowLeaf(d, q, p);
    } else if !Apart(p, q) {
      assert p == q;
    }
  }

  /** Every override reads back after the merge if and only if no two of them conflict. */
  lemma MergeSetsEachExactly(d: Dict, overrides: seq<Override>)
    ensures (forall i | 0 <= i < |overrides| :: ReadsBack(Merge(d, overrides), overrides[i])) <==> AllCommute(overrides)
  {
    if AllCommute(overrides) {
      forall i | 0 <= i < |overrides|
        ensures ReadsBack(Merge(d, overrides), overrides[i])
      {
        CommutingReadBack(d, overrides, i);
      }
    } else {
      var i, k :| 0 <= i < k < |overrides| && !Commute(overrides[i], overrides[k]);
      if ReadsBack(Merge(d, overrides), overrides[i]) && ReadsBack(Merge(d, overrides), overrides[k]) {
        BothReadBack(Merge(d, overrides), overrides[i], overrides[k]);
      }
    }
  }

  // ----- the order of the variables -----

  /** One override can be moved to the front past overrides that commute with it. */
  lemma {:induction false} MoveToFront(d: Dict, before: seq<Override>, x: Override, after: seq<Override>)
    requires forall i | 0 <= i < |before| :: Commute(before[i], x)
    ensures Merge(d, before + [x] + after) == Merge(SetNested(d, PathOf(x.name), x.value), before + after)
    decreases |before|
  {
    if before == [] {
      assert before + [x] + after == [x] + after && before + after == after;
      assert ([x] + after)[1..] == after;
    } else {
      var b, rest := before[0], before[1..];
      var all := before + [x] + after;
      assert all[0] == b && all[1..] == rest + [x] + after;
      assert (before + after)[0] == b && (before + after)[1..] == rest + after;
      MoveToFront(SetNested(d, PathOf(b.name), b.value), rest, x, after);
      SettingsCommuteExactly(d, PathOf(b.name), b.value, PathOf(x.name), x.value);
    }
  }

  /** Taking one occurrence of the first override out of a reordering leaves a reordering of the rest. */
  lemma FindInReordering(a: seq<Override>, b: seq<Override>) returns (i: nat)
    requires multiset(a) == multiset(b) && a != []
    ensures i < |b| && b[i] == a[0] && b == b[..i] + [a[0]] + b[i + 1..]
    ensures multiset(a[1..]) == multiset(b[..i] + b[i + 1..])
  {
    assert a[0] in multiset(b);
    i :| 0 <= i < |b| && b[i] == a[0];
    assert b == b[..i] + [a[0]] + b[i + 1..];
    assert a == [a[0]] + a[1..];
    assert multiset(a) == multiset{a[0]} + multiset(a[1..]);
    assert multiset(b) == multiset(b[..i]) + multiset{a[0]} + multiset(b[i + 1..]);
    assert multiset(b[..i] + b[i + 1..]) == multiset(b) - multiset{a[0]};
    assert multiset(a[1..]) == multiset(a) - multiset{a[0]};
  }

  lemma {:induction false} MergeIgnoresOrder(d: Dict, a: seq<Override>, b: seq<Override>)
    requires multiset(a) == multiset(b) && AllCommute(a)
    ensures Merge(d, a) == Merge(d, b)
    decreases |a|
  {
    if a == [] {
      assert |multiset(b)| == 0;
      assert b == [];
    } else {
      var i := FindInReordering(a, b);
      var others := b[..i] + b[i + 1..];
      forall j | 0 <= j < |b[..i]|
        ensures Commute(b[..i][j], a[0])
      {
        assert others[j] in multiset(others) && others[j] in multiset(a[1..]);
        var k :| 0 <= k < |a[1..]| && a[1..][k] == others[j];
        assert Commute(a[0], a[k + 1]);
      }
      MoveToFront(d, b[..i], a[0], b[i + 1..]);
      MergeIgnoresOrder(SetNested(d, PathOf(a[0].name), a[0].value), a[1..], others);
    }
  }

  lemma {:induction false} MergeOfConcat(d: Dict, a: seq<Override>, b: seq<Override>)
    ensures Merge(d, a + b) == Merge(Merge(d, a), b)
    decreases |a|
  {
    if a == [] {
      assert a + b == b;
    } else {
      assert (a + b)[0] == a[0] && (a + b)[1..] == a[1..] + b;
      MergeOfConcat(SetNested(d, PathOf(a[0].name), a[0].value), a[1..], b);
    }
  }

  lemma MergeOfTwoMore(d: Dict, rest: seq<Override>, x: Override, y: Override)
    ensures Merge(d, rest + [x, y])
         == SetNested(SetNested(Merge(d, rest), PathOf(x.name), x.value), PathOf(y.name), y.value)
  {
    var e := Merge(d, rest);
    MergeOfConcat(d, rest, [x, y]);
    assert [x, y][1..] == [y] && [y][1..] == [];
    assert Merge(e, [x, y]) == Merge(SetNested(e, PathOf(x.name), x.value), [y]);
  }

  /** Two overrides moved to the end, in either order. */
  lemma PairToEnd(a: seq<Override>, i: nat, k: nat) returns (rest: seq<Override>)
    requires i < k < |a|
    ensures multiset(rest + [a[i], a[k]]) == multiset(a) == multiset(rest + [a[k], a[i]])
  {
    var x, y, z := a[..i], a[i + 1..k], a[k + 1..];
    rest := x + y + z;
    assert a == x + [a[i]] + y + [a[k]] + z;
  }

  /** Every reordering of the variables gives the same configuration. */
  ghost predicate OrderIsIrrelevant(d: Dict, a: seq<Override>) {
    forall b | multiset(b) == multiset(a) :: Merge(d, b) == Merge(d, a)
  }

  lemma ConflictMatters(d: Dict, a: seq<Override>, i: nat, k: nat)
    requires i < k < |a| && !Commute(a[i], a[k])
    ensures !OrderIsIrrelevant(d, a)
  {
    var x, y := a[i], a[k];
    var rest := PairToEnd(a, i, k);
    MergeOfTwoMore(d, rest, x, y);
    MergeOfTwoMore(d, rest, y, x);
    SettingsCommuteExactly(Merge(d, rest), PathOf(x.name), x.value, PathOf(y.name), y.value);
    assert Merge(d, rest + [x, y]) != Merge(d, rest + [y, x]);
  }

  /**
   On any configuration the order of the variables does not matter if and only if of every two,
   neither path contains the other or they set one path to one value.
   */
  lemma OrderIsIrrelevantExactly(d: Dict, a: seq<Override>)
    ensures OrderIsIrrelevant(d, a) <==> AllCommute(a)
  {
    if AllCommute(a) {
      forall b | multiset(b) == multiset(a)
        ensures Merge(d, b) == Merge(d, a)
      {
        MergeIgnoresOrder(d, a, b);
      }
    } else {
      var i, k :| 0 <= i < k < |a| && !Commute(a[i], a[k]);
      ConflictMatters(d, a, i, k);
    }
  }

  // ----- case -----

  lemma SeparatorSurvivesLower(name: string)
    requires |name| >= 2
    ensures Lower(name)[..2] == "__" <==> name[..2] == "__"
    ensures Lower(name)[2..] == Lower(name[2..]) && Lower(name)[1..] == Lower(name[1..])
  {
    var low := Lower(name);
    assert LowerChar('_') == '_';
    assert low[0] == '_' <==> name[0] == '_';
    assert low[1] == '_' <==> name[1] == '_';
    assert low[..2] == [low[0], low[1]] && name[..2] == [name[0], name[1]];
  }

  lemma LowerWordsOfHead(head: string, rest: seq<string>)
    ensures LowerWords([head] + rest) == [Lower(head)] + LowerWords(rest)
  {
  }

  lemma LowerWordsOfGrownHead(c: char, parts: seq<string>)
    requires parts != []
    ensures LowerWords([[c] + parts[0]] + parts[1..])
         == [[LowerChar(c)] + LowerWords(parts)[0]] + LowerWords(parts)[1..]
  {
    assert Lower([c] + parts[0]) == [LowerChar(c)] + Lower(parts[0]);
  }

  /** Lowering a name and splitting it is splitting it and lowering the parts. */
  lemma {:induction false} SplitLower(name: string)
    ensures SplitName(Lower(name)) == LowerWords(SplitName(name))
    decreases |name|
  {
    if |name| >= 2 {
      SeparatorSurvivesLower(name);
      if name[..2] == "__" {
        SplitLower(name[2..]);
        LowerWordsOfHead("", SplitName(name[2..]));
        assert Lower("") == "";
      } else {
        SplitLower(name[1..]);
        LowerWordsOfGrownHead(name[0], SplitName(name[1..]));
      }
    }
  }

  lemma LowerKeepsPath(name: string)
    ensures PathOf(Lower(name)) == PathOf(name)
  {
    SplitLower(name);
    forall i | 0 <= i < |PathOf(name)|
      ensures PathOf(Lower(name))[i] == PathOf(name)[i]
    {
      LowerIdempotent(SplitName(name)[i]);
    }
  }

  /** Two variables that differ only in case set one path: the one that comes last wins. */
  lemma CaseCollides(d: Dict, name: string, v: string, w: string)
    ensures Read(Merge(d, [Override(name, v), Override(Lower(name), w)]), PathOf(name)) == Some(Leaf(w))
    ensures Read(Merge(d, [Override(Lower(name), w), Override(name, v)]), PathOf(name)) == Some(Leaf(v))
  {
    LowerKeepsPath(name);
    var x, y, p := Override(name, v), Override(Lower(name), w), PathOf(name);
    assert [x, y][1..] == [y] && [y][1..] == [] && [y, x][1..] == [x] && [x][1..] == [];
    assert Merge(d, [x, y]) == Merge(SetNested(d, p, v), [y]) == SetNested(SetNested(d, p, v), p, w);
    assert Merge(d, [y, x]) == Merge(SetNested(d, p, w), [x]) == SetNested(SetNested(d, p, w), p, v);
    ReadBack(SetNested(d, p, v), p, w);
    ReadBack(SetNested(d, p, w), p, v);
  }
}
