/**
 Which string the secret checker names: the first in document order that looks like a secret, by
 the path of keys and list positions that leads to it.
 */
module FirstOffender {
  import opened Options
  import opened Redaction

  /** The path of a position below a node that stands at the given path. */
  function PathOfNode(path: string, node: Node, pos: seq<nat>): string
    decreases |pos|, 1
  {
    if pos == [] then path
    else
      match node
      case Dict(entries) => PathOfEntry(path, entries, pos)
      case List(items) =>
        if pos[0] < |items| then PathOfNode(ElementPath(path, pos[0]), items[pos[0]], pos[1..]) else path
      case Str(_) => path
      case Other(_) => path
      case Null => path
  }

  function PathOfEntry(path: string, entries: seq<Entry>, pos: seq<nat>): string
    decreases |pos|, 0
  {
    if pos == [] || pos[0] >= |entries| then path
    else PathOfNode(Under(path, entries[pos[0]].key), entries[pos[0]].value, pos[1..])
  }

  /** Document order of positions. */
  predicate Precedes(p: seq<nat>, q: seq<nat>)
    decreases |p|
  {
    p != [] && q != [] && (p[0] < q[0] || (p[0] == q[0] && Precedes(p[1..], q[1..])))
  }

  /** What stands at a position is a string that looks like a secret. */
  predicate OffendsAt(secret: Secret, found: Option<Found>) {
    found.Some? && found.value.node.Str? && Offends(secret, found.value.key, found.value.node.text)
  }

  ghost predicate FirstInDict(secret: Secret, entries: seq<Entry>, pos: seq<nat>) {
    && OffendsAt(secret, AtDict(entries, pos))
    && forall q | Precedes(q, pos) :: !OffendsAt(secret, AtDict(entries, q))
  }

  /** The same for the items of a list from the given one on. */
  ghost predicate FirstInNode(secret: Secret, key: string, node: Node, pos: seq<nat>) {
    && OffendsAt(secret, AtNode(key, node, pos))
    && forall q | Precedes(q, pos) :: !OffendsAt(secret, AtNode(key, node, q))
  }

  lemma PassingNode(secret: Secret, key: string, node: Node)
    requires NodePasses(secret, key, node)
    ensures forall q :: !OffendsAt(secret, AtNode(key, node, q))
  {
    forall q
      ensures !OffendsAt(secret, AtNode(key, node, q))
    {
      assert LeafPasses(secret, AtNode(key, node, q));
    }
  }

  /** The first offender of the first entry is the dictionary's. */
  lemma FirstInHead(secret: Secret, entries: seq<Entry>, pos: seq<nat>)
    requires entries != [] && FirstInNode(secret, entries[0].key, entries[0].value, pos)
    ensures FirstInDict(secret, entries, [0] + pos)
  {
    assert ([0] + pos)[1..] == pos;
    forall q | Precedes(q, [0] + pos)
      ensures !OffendsAt(secret, AtDict(entries, q))
    {
      assert q[0] == 0 && Precedes(q[1..], pos);
    }
  }

  /** When the first entry passes, the first offender of the others is the dictionary's. */
  lemma FirstInTail(secret: Secret, entries: seq<Entry>, pos: seq<nat>)
    requires entries != [] && NodePasses(secret, entries[0].key, entries[0].value)
    requires pos != [] && FirstInDict(secret, entries[1..], pos)
    ensures FirstInDict(secret, entries, [pos[0] + 1] + pos[1..])
  {
    var shifted := [pos[0] + 1] + pos[1..];
    assert shifted[1..] == pos[1..];
    PassingNode(secret, entries[0].key, entries[0].value);
    forall q | Precedes(q, shifted)
      ensures !OffendsAt(secret, AtDict(entries, q))
    {
      if q[0] > 0 {
        var back := [q[0] - 1] + q[1..];
        assert back[1..] == q[1..];
        assert Precedes(back, pos);
      }
    }
  }

  lemma FirstInHeadItem(secret: Secret, key: string, items: seq<Node>, pos: seq<nat>)
    requires items != [] && FirstInNode(secret, key, items[0], pos)
    ensures FirstInNode(secret, key, List(items), [0] + pos)
  {
    assert ([0] + pos)[1..] == pos;
    forall q | Precedes(q, [0] + pos)
      ensures !OffendsAt(secret, AtNode(key, List(items), q))
    {
      assert q[0] == 0 && Precedes(q[1..], pos);
    }
  }

  lemma FirstInTailItems(secret: Secret, key: string, items: seq<Node>, pos: seq<nat>)
    requires items != [] && NodePasses(secret, key, items[0])
    requires pos != [] && FirstInNode(secret, key, List(items[1..]), pos)
    ensures FirstInNode(secret, key, List(items), [pos[0] + 1] + pos[1..])
  {
    var shifted := [pos[0] + 1] + pos[1..];
    assert shifted[1..] == pos[1..];
    PassingNode(secret, key, items[0]);
    forall q | Precedes(q, shifted)
      ensures !OffendsAt(secret, AtNode(key, List(items), q))
    {
      if q[0] > 0 {
        var back := [q[0] - 1] + q[1..];
        assert back[1..] == q[1..];
        assert Precedes(back, pos);
      }
    }
  }

  lemma FirstOfDictNode(secret: Secret, key: string, entries: seq<Entry>, pos: seq<nat>)
    requires FirstInDict(secret, entries, pos)
    ensures FirstInNode(secret, key, Dict(entries), pos)
  {
    forall q | Precedes(q, pos)
      ensures !OffendsAt(secret, AtNode(key, Dict(entries), q))
    {
      assert AtNode(key, Dict(entries), q) == AtDict(entries, q);
    }
  }

  /** What the checker reports for one entry's value, standing at a path under a key. */
  function CheckNode(secret: Secret, path: string, key: string, node: Node): Option<string> {
    match node
    case Dict(sub) => CheckDict(secret, path, sub)
    case List(items) => CheckList(secret, path, key, 0, items)
    case Str(text) => if Offends(secret, key, text) then Some(path) else None
    case Other(_) => None
    case Null => None
  }

  lemma CheckedNodePasses(secret: Secret, path: string, key: string, node: Node)
    ensures CheckNode(secret, path, key, node) == None <==> NodePasses(secret, key, node)
  {
    match node
    case Dict(sub) =>
      CheckerAcceptsExactly(secret, path, sub);
      DictNodePasses(secret, key, sub);
    case List(items) => ListAcceptsExactly(secret, path, key, 0, items);
    case Str(_) => LeafNodePasses(secret, key, node);
    case Other(_) => LeafNodePasses(secret, key, node);
    case Null => LeafNodePasses(secret, key, node);
  }

  lemma {:induction false} NodeNamesFirst(secret: Secret, path: string, key: string, node: Node) returns (pos: seq<nat>)
    requires CheckNode(secret, path, key, node).Some?
    ensures FirstInNode(secret, key, node, pos)
    ensures CheckNode(secret, path, key, node) == Some(PathOfNode(path, node, pos))
    decreases node, 1
  {
    match node
    case Dict(sub) =>
      pos := CheckerNamesFirst(secret, path, sub);
      FirstOfDictNode(secret, key, sub, pos);
    case List(items) => pos := ListNamesFirst(secret, path, key, 0, items);
    case Str(_) => pos := [];
  }

  /**
   When the checker refuses a configuration, the path it reports is that of a string that looks like
   a secret, and no string before it in document order does.
   */
  lemma {:induction false} CheckerNamesFirst(secret: Secret, path: string, entries: seq<Entry>) returns (pos: seq<nat>)
    requires CheckDict(secret, path, entries).Some?
    ensures FirstInDict(secret, entries, pos)
    ensures CheckDict(secret, path, entries) == Some(PathOfEntry(path, entries, pos))
    decreases entries, 0
  {
    var key, cur := entries[0].key, Under(path, entries[0].key);
    if CheckNode(secret, cur, key, entries[0].value).Some? {
      var below := NodeNamesFirst(secret, cur, key, entries[0].value);
      pos := [0] + below;
      assert pos[1..] == below;
      FirstInHead(secret, entries, below);
    } else {
      var rest := CheckerNamesFirst(secret, path, entries[1..]);
      CheckedNodePasses(secret, cur, key, entries[0].value);
      pos := [rest[0] + 1] + rest[1..];
      assert pos[1..] == rest[1..];
      FirstInTail(secret, entries, rest);
    }
  }

  /** For the items from the i-th on, at their places in the whole list. */
  lemma {:induction false} ListNamesFirst(secret: Secret, path: string, key: string, i: nat, items: seq<Node>)
    returns (pos: seq<nat>)
    requires CheckList(secret, path, key, i, items).Some?
    ensures FirstInNode(secret, key, List(items), pos) && pos != [] && pos[0] < |items|
    ensures CheckList(secret, path, key, i, items)
         == Some(PathOfNode(ElementPath(path, i + pos[0]), items[pos[0]], pos[1..]))
    decreases items, 0
  {
    var cur := ElementPath(path, i);
    if CheckNode(secret, cur, key, items[0]).Some? {
      var below := NodeNamesFirst(secret, cur, key, items[0]);
      pos := [0] + below;
      assert pos[1..] == below;
      FirstInHeadItem(secret, key, items, below);
    } else {
      var rest := ListNamesFirst(secret, path, key, i + 1, items[1..]);
      CheckedNodePasses(secret, cur, key, items[0]);
      pos := [rest[0] + 1] + rest[1..];
      assert pos[1..] == rest[1..];
      FirstInTailItems(secret, key, items, rest);
    }
  }

  /** How a path is spelled: keys joined by dots, list positions in brackets. */
  lemma PathsAreSpelled(secret: Secret, text: string)
    requires text != "" && secret("b", text)
    ensures CheckDict(secret, "", [Entry("a", Dict([Entry("b", List([Null, Str(text)]))]))]) == Some("a.b[1]")
  {
    var items := [Null, Str(text)];
    assert items[1..] == [Str(text)];
    assert ElementPath("a.b", 1) == "a.b[1]";
    assert CheckList(secret, "a.b", "b", 1, items[1..]) == Some("a.b[1]");
    assert CheckList(secret, "a.b", "b", 0, items) == Some("a.b[1]");
    assert Under("", "a") == "a" && Under("a", "b") == "a.b";
    var inner := [Entry("b", List(items))];
    assert CheckDict(secret, "a", inner) == Some("a.b[1]");
  }
}
