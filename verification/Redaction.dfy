/**
 The configuration's secret checker and redactor. Whether a value under a key looks like a
 secret is a parameter; configurations are trees of ordered dictionaries, lists and leaves.
 */
module Redaction {
  import opened Options
  import opened Text

  datatype Node = Dict(entries: seq<Entry>) | List(items: seq<Node>) | Str(text: string) | Other(value: int) | Null

  datatype Entry = Entry(key: string, value: Node)

  type Secret = (string, string) -> bool

  const REDACTED := "<redacted>"

  // ----- the checker, as a function: the path of the first offending leaf -----

  function Under(path: string, key: string): string {
    if path != "" then path + "." + key else key
  }

  function ElementPath(path: string, i: nat): string {
    path + "[" + Digits(i) + "]"
  }

  predicate Offends(secret: Secret, key: string, text: string) {
    text != "" && secret(key, text)
  }

  function CheckDict(secret: Secret, path: string, entries: seq<Entry>): Option<string>
    decreases entries
  {
    if entries == [] then None
    else
      var key, cur := entries[0].key, Under(path, entries[0].key);
      var here :=
        match entries[0].value
        case Dict(sub) => CheckDict(secret, cur, sub)
        case List(items) => CheckList(secret, cur, key, 0, items)
        case Str(text) => if Offends(secret, key, text) then Some(cur) else None
        case Other(_) => None
        case Null => None;
      if here.Some? then here else CheckDict(secret, path, entries[1..])
  }

  /** Strings in a list are judged by the key the list stands under; i numbers the first item. */
  function CheckList(secret: Secret, path: string, key: string, i: nat, items: seq<Node>): Option<string>
    decreases items
  {
    if items == [] then None
    else
      var cur := ElementPath(path, i);
      var here :=
        match items[0]
        case Dict(sub) => CheckDict(secret, cur, sub)
        case List(inner) => CheckList(secret, cur, key, 0, inner)
        case Str(text) => if Offends(secret, key, text) then Some(cur) else None
        case Other(_) => None
        case Null => None;
      if here.Some? then here else CheckList(secret, path, key, i + 1, items[1..])
  }

  // ----- the redactor, as a function -----

  function RedactText(secret: Secret, key: string, text: string): string {
    if text != REDACTED && secret(key, text) then REDACTED else text
  }

  function RedactDict(secret: Secret, entries: seq<Entry>): (r: seq<Entry>)
    ensures |r| == |entries|
    decreases entries
  {
    if entries == [] then []
    else
      var key := entries[0].key;
      var here :=
        match entries[0].value
        case Dict(sub) => Dict(RedactDict(secret, sub))
        case List(items) => List(RedactList(secret, key, items))
        case Str(text) => Str(RedactText(secret, key, text))
        case Other(n) => Other(n)
        case Null => Null;
      [Entry(key, here)] + RedactDict(secret, entries[1..])
  }

  function RedactList(secret: Secret, key: string, items: seq<Node>): (r: seq<Node>)
    ensures |r| == |items|
    decreases items
  {
    if items == [] then []
    else
      var here :=
        match items[0]
        case Dict(sub) => Dict(RedactDict(secret, sub))
        case List(inner) => List(RedactList(secret, key, inner))
        case Str(text) => Str(RedactText(secret, key, text))
        case Other(n) => Other(n)
        case Null => Null;
      [here] + RedactList(secret, key, items[1..])
  }

  // ----- redaction satisfies the checker -----

  /** The placeholder never looks like a secret. */
  ghost predicate PlaceholderPasses(secret: Secret) {
    forall key :: !secret(key, REDACTED)
  }

  lemma {:induction false} RedactedDictPasses(secret: Secret, path: string, entries: seq<Entry>)
    requires PlaceholderPasses(secret)
    ensures CheckDict(secret, path, RedactDict(secret, entries)) == None
    decreases entries
  {
    if entries != [] {
      var cur := Under(path, entries[0].key);
      match entries[0].value {
        case Dict(sub) => RedactedDictPasses(secret, cur, sub);
        case List(items) => RedactedListPasses(secret, cur, entries[0].key, 0, items);
        case Str(text) =>
        case Other(_) =>
        case Null =>
      }
      RedactedDictPasses(secret, path, entries[1..]);
      assert RedactDict(secret, entries)[1..] == RedactDict(secret, entries[1..]);
    }
  }

  lemma {:induction false} RedactedListPasses(secret: Secret, path: string, key: string, i: nat, items: seq<Node>)
    requires PlaceholderPasses(secret)
    ensures CheckList(secret, path, key, i, RedactList(secret, key, items)) == None
    decreases items
  {
    if items != [] {
      var cur := ElementPath(path, i);
      match items[0] {
        case Dict(sub) => RedactedDictPasses(secret, cur, sub);
        case List(inner) => RedactedListPasses(secret, cur, key, 0, inner);
        case Str(text) =>
        case Other(_) =>
        case Null =>
      }
      RedactedListPasses(secret, path, key, i + 1, items[1..]);
      assert RedactList(secret, key, items)[1..] == RedactList(secret, key, items[1..]);
    }
  }

  predicate AcceptedOnceRedacted(secret: Secret, entries: seq<Entry>) {
    CheckDict(secret, "", RedactDict(secret, entries)) == None
  }

  /** Every redacted configuration is accepted if and only if the placeholder looks like a secret under no key. */
  lemma RedactionSatisfiesCheckerExactly(secret: Secret)
    ensures (forall entries :: AcceptedOnceRedacted(secret, entries)) <==> PlaceholderPasses(secret)
  {
    if PlaceholderPasses(secret) {
      forall entries
        ensures AcceptedOnceRedacted(secret, entries)
      {
        RedactedDictPasses(secret, "", entries);
      }
    } else {
      var key :| secret(key, REDACTED);
      var entries := [Entry(key, Str(REDACTED))];
      assert entries[1..] == [];
      assert RedactDict(secret, entries) == entries;
      assert CheckDict(secret, "", RedactDict(secret, entries)) == Some(key);
      assert !AcceptedOnceRedacted(secret, entries);
    }
  }

  // ----- what checker and redactor do to each leaf -----

  datatype Found = Found(key: string, node: Node)

  /** The node at a position, with the key it is judged by; positions count entries and items. */
  function AtNode(key: string, node: Node, pos: seq<nat>): Option<Found>
    decreases |pos|, 1
  {
    if pos == [] then Some(Found(key, node))
    else
      match node
      case Dict(entries) => AtDict(entries, pos)
      case List(items) => if pos[0] < |items| then AtNode(key, items[pos[0]], pos[1..]) else None
      case Str(_) => None
      case Other(_) => None
      case Null => None
  }

  function AtDict(entries: seq<Entry>, pos: seq<nat>): Option<Found>
    decreases |pos|, 0
  {
    if pos == [] || pos[0] >= |entries| then None
    else AtNode(entries[pos[0]].key, entries[pos[0]].value, pos[1..])
  }

  function RedactNode(secret: Secret, key: string, node: Node): Node {
    match node
    case Dict(sub) => Dict(RedactDict(secret, sub))
    case List(items) => List(RedactList(secret, key, items))
    case Str(text) => Str(RedactText(secret, key, text))
    case Other(n) => Other(n)
    case Null => Null
  }

  lemma {:induction false} RedactDictAt(secret: Secret, entries: seq<Entry>, i: nat)
    requires i < |entries|
    ensures RedactDict(secret, entries)[i]
         == Entry(entries[i].key, RedactNode(secret, entries[i].key, entries[i].value))
  {
    if i > 0 {
      RedactDictAt(secret, entries[1..], i - 1);
    }
  }

  lemma {:induction false} RedactListAt(secret: Secret, key: string, items: seq<Node>, i: nat)
    requires i < |items|
    ensures RedactList(secret, key, items)[i] == RedactNode(secret, key, items[i])
  {
    if i > 0 {
      RedactListAt(secret, key, items[1..], i - 1);
    }
  }

  /** Redaction keeps every position, and at each position the node is the redaction of the node that was there. */
  lemma {:induction false} RedactAtNode(secret: Secret, key: string, node: Node, pos: seq<nat>)
    ensures AtNode(key, RedactNode(secret, key, node), pos) ==
              match AtNode(key, node, pos)
              case None => None
              case Some(f) => Some(Found(f.key, RedactNode(secret, f.key, f.node)))
    decreases |pos|
  {
    if pos != [] {
      match node {
        case Dict(entries) =>
          if pos[0] < |entries| {
            RedactDictAt(secret, entries, pos[0]);
            RedactAtNode(secret, entries[pos[0]].key, entries[pos[0]].value, pos[1..]);
          }
        case List(items) =>
          if pos[0] < |items| {
            RedactListAt(secret, key, items, pos[0]);
            RedactAtNode(secret, key, items[pos[0]], pos[1..]);
          }
        case Str(_) =>
        case Other(_) =>
        case Null =>
      }
    }
  }

  /** A redacted configuration differs from the original exactly at the strings that look like secrets. */
  lemma RedactionIsLeafwise(secret: Secret, entries: seq<Entry>, pos: seq<nat>)
    ensures AtDict(entries, pos).None? <==> AtDict(RedactDict(secret, entries), pos).None?
    ensures AtDict(entries, pos).Some? ==>
              var was, now := AtDict(entries, pos).value, AtDict(RedactDict(secret, entries), pos).value;
              && now.key == was.key
              && (now.node.Dict? <==> was.node.Dict?) && (now.node.List? <==> was.node.List?)
              && (was.node.Str? ==>
                    now.node == if secret(was.key, was.node.text) then Str("<redacted>") else was.node)
              && (was.node.Other? || was.node.Null? ==> now.node == was.node)
  {
    if pos != [] {
      RedactAtNode(secret, "", Dict(entries), pos);
    }
  }

  // ----- what the checker accepts -----

  ghost predicate LeafPasses(secret: Secret, f: Option<Found>) {
    f.Some? && f.value.node.Str? ==> !Offends(secret, f.value.key, f.value.node.text)
  }

  ghost predicate NodePasses(secret: Secret, key: string, node: Node) {
    forall pos :: LeafPasses(secret, AtNode(key, node, pos))
  }

  ghost predicate DictPasses(secret: Secret, entries: seq<Entry>) {
    forall pos :: LeafPasses(secret, AtDict(entries, pos))
  }

  lemma DictPassesByEntry(secret: Secret, entries: seq<Entry>)
    requires entries != []
    ensures DictPasses(secret, entries)
       <==> NodePasses(secret, entries[0].key, entries[0].value) && DictPasses(secret, entries[1..])
  {
    if DictPasses(secret, entries) {
      forall pos
        ensures LeafPasses(secret, AtNode(entries[0].key, entries[0].value, pos))
      {
        assert ([0] + pos)[1..] == pos;
        assert LeafPasses(secret, AtDict(entries, [0] + pos));
      }
      forall pos
        ensures LeafPasses(secret, AtDict(entries[1..], pos))
      {
        if pos != [] {
          assert ([pos[0] + 1] + pos[1..])[1..] == pos[1..];
          assert LeafPasses(secret, AtDict(entries, [pos[0] + 1] + pos[1..]));
        }
      }
    }
    if NodePasses(secret, entries[0].key, entries[0].value) && DictPasses(secret, entries[1..]) {
      forall pos
        ensures LeafPasses(secret, AtDict(entries, pos))
      {
        if pos != [] && pos[0] > 0 {
          var shifted := [pos[0] - 1] + pos[1..];
          assert shifted[1..] == pos[1..];
          assert LeafPasses(secret, AtDict(entries[1..], shifted));
        } else if pos != [] {
          assert LeafPasses(secret, AtNode(entries[0].key, entries[0].value, pos[1..]));
        }
      }
    }
  }

  lemma ListPassesByItem(secret: Secret, key: string, items: seq<Node>)
    requires items != []
    ensures NodePasses(secret, key, List(items))
       <==> NodePasses(secret, key, items[0]) && NodePasses(secret, key, List(items[1..]))
  {
    if NodePasses(secret, key, List(items)) {
      forall pos
        ensures LeafPasses(secret, AtNode(key, items[0], pos))
      {
        assert ([0] + pos)[1..] == pos;
        assert LeafPasses(secret, AtNode(key, List(items), [0] + pos));
      }
      forall pos
        ensures LeafPasses(secret, AtNode(key, List(items[1..]), pos))
      {
        if pos != [] {
          assert ([pos[0] + 1] + pos[1..])[1..] == pos[1..];
          assert LeafPasses(secret, AtNode(key, List(items), [pos[0] + 1] + pos[1..]));
        }
      }
    }
    if NodePasses(secret, key, items[0]) && NodePasses(secret, key, List(items[1..])) {
      forall pos
        ensures LeafPasses(secret, AtNode(key, List(items), pos))
      {
        if pos != [] && pos[0] > 0 {
          var shifted := [pos[0] - 1] + pos[1..];
          assert shifted[1..] == pos[1..];
          assert LeafPasses(secret, AtNode(key, List(items[1..]), shifted));
        } else if pos != [] {
          assert LeafPasses(secret, AtNode(key, items[0], pos[1..]));
        }
      }
    }
  }

  lemma LeafNodePasses(secret: Secret, key: string, node: Node)
    requires !node.Dict? && !node.List?
    ensures NodePasses(secret, key, node) <==> LeafPasses(secret, Some(Found(key, node)))
  {
    if LeafPasses(secret, Some(Found(key, node))) {
      forall pos
        ensures LeafPasses(secret, AtNode(key, node, pos))
      {
      }
    } else {
      assert !LeafPasses(secret, AtNode(key, node, []));
    }
  }

  lemma DictNodePasses(secret: Secret, key: string, entries: seq<Entry>)
    ensures NodePasses(secret, key, Dict(entries)) <==> DictPasses(secret, entries)
  {
    if NodePasses(secret, key, Dict(entries)) {
      forall pos
        ensures LeafPasses(secret, AtDict(entries, pos))
      {
        assert LeafPasses(secret, AtNode(key, Dict(entries), pos));
      }
    }
    if DictPasses(secret, entries) {
      forall pos
        ensures LeafPasses(secret, AtNode(key, Dict(entries), pos))
      {
        assert LeafPasses(secret, AtDict(entries, pos));
      }
    }
  }

  /**
   The checker accepts a configuration if and only if no string anywhere in it looks like a secret
   under its key.
   */
  lemma {:induction false} CheckerAcceptsExactly(secret: Secret, path: string, entries: seq<Entry>)
    ensures CheckDict(secret, path, entries) == None <==> DictPasses(secret, entries)
    decreases entries
  {
    if entries == [] {
      assert forall pos :: AtDict(entries, pos) == None;
    } else {
      var key, cur := entries[0].key, Under(path, entries[0].key);
      match entries[0].value {
        case Dict(sub) =>
          CheckerAcceptsExactly(secret, cur, sub);
          DictNodePasses(secret, key, sub);
        case List(items) => ListAcceptsExactly(secret, cur, key, 0, items);
        case Str(_) => LeafNodePasses(secret, key, entries[0].value);
        case Other(_) => LeafNodePasses(secret, key, entries[0].value);
        case Null => LeafNodePasses(secret, key, entries[0].value);
      }
      CheckerAcceptsExactly(secret, path, entries[1..]);
      DictPassesByEntry(secret, entries);
    }
  }

  lemma {:induction false} ListAcceptsExactly(secret: Secret, path: string, key: string, i: nat, items: seq<Node>)
    ensures CheckList(secret, path, key, i, items) == None <==> NodePasses(secret, key, List(items))
    decreases items
  {
    if items == [] {
      assert forall pos | pos != [] :: AtNode(key, List(items), pos) == None;
    } else {
      var cur := ElementPath(path, i);
      match items[0] {
        case Dict(sub) =>
          CheckerAcceptsExactly(secret, cur, sub);
          DictNodePasses(secret, key, sub);
        case List(inner) => ListAcceptsExactly(secret, cur, key, 0, inner);
        case Str(_) => LeafNodePasses(secret, key, items[0]);
        case Other(_) => LeafNodePasses(secret, key, items[0]);
        case Null => LeafNodePasses(secret, key, items[0]);
      }
      ListAcceptsExactly(secret, path, key, i + 1, items[1..]);
      ListPassesByItem(secret, key, items);
    }
  }

  // ----- redacting twice, and redacting what is accepted -----

  lemma {:induction false} RedactDictTwice(secret: Secret, entries: seq<Entry>)
    ensures RedactDict(secret, RedactDict(secret, entries)) == RedactDict(secret, entries)
    decreases entries
  {
    if entries != [] {
      match entries[0].value {
        case Dict(sub) => RedactDictTwice(secret, sub);
        case List(items) => RedactListTwice(secret, entries[0].key, items);
        case Str(_) =>
        case Other(_) =>
        case Null =>
      }
      RedactDictTwice(secret, entries[1..]);
      assert RedactDict(secret, entries)[1..] == RedactDict(secret, entries[1..]);
    }
  }

  lemma {:induction false} RedactListTwice(secret: Secret, key: string, items: seq<Node>)
    ensures RedactList(secret, key, RedactList(secret, key, items)) == RedactList(secret, key, items)
    decreases items
  {
    if items != [] {
      match items[0] {
        case Dict(sub) => RedactDictTwice(secret, sub);
        case List(inner) => RedactListTwice(secret, key, inner);
        case Str(_) =>
        case Other(_) =>
        case Null =>
      }
      RedactListTwice(secret, key, items[1..]);
      assert RedactList(secret, key, items)[1..] == RedactList(secret, key, items[1..]);
    }
  }

  ghost predicate EmptyPasses(secret: Secret) {
    forall key :: !secret(key, "")
  }

  lemma {:induction false} AcceptedDictIsKept(secret: Secret, path: string, entries: seq<Entry>)
    requires EmptyPasses(secret) && CheckDict(secret, path, entries) == None
    ensures RedactDict(secret, entries) == entries
    decreases entries
  {
    if entries != [] {
      var cur := Under(path, entries[0].key);
      match entries[0].value {
        case Dict(sub) => AcceptedDictIsKept(secret, cur, sub);
        case List(items) => AcceptedListIsKept(secret, cur, entries[0].key, 0, items);
        case Str(_) =>
        case Other(_) =>
        case Null =>
      }
      AcceptedDictIsKept(secret, path, entries[1..]);
    }
  }

  lemma {:induction false} AcceptedListIsKept(secret: Secret, path: string, key: string, i: nat, items: seq<Node>)
    requires EmptyPasses(secret) && CheckList(secret, path, key, i, items) == None
    ensures RedactList(secret, key, items) == items
    decreases items
  {
    if items != [] {
      var cur := ElementPath(path, i);
      match items[0] {
        case Dict(sub) => AcceptedDictIsKept(secret, cur, sub);
        case List(inner) => AcceptedListIsKept(secret, cur, key, 0, inner);
        case Str(_) =>
        case Other(_) =>
        case Null =>
      }
      AcceptedListIsKept(secret, path, key, i + 1, items[1..]);
    }
  }

  predicate KeptIfAccepted(secret: Secret, entries: seq<Entry>) {
    CheckDict(secret, "", entries) == None ==> RedactDict(secret, entries) == entries
  }

  /**
   The redactor leaves every accepted configuration as it is if and only if the empty string looks
   like a secret under no key.
   */
  lemma AcceptedIsKeptExactly(secret: Secret)
    ensures (forall entries :: KeptIfAccepted(secret, entries)) <==> EmptyPasses(secret)
  {
    if EmptyPasses(secret) {
      forall entries
        ensures KeptIfAccepted(secret, entries)
      {
        if CheckDict(secret, "", entries) == None {
          AcceptedDictIsKept(secret, "", entries);
        }
      }
    } else {
      var key :| secret(key, "");
      var entries := [Entry(key, Str(""))];
      assert entries[1..] == [];
      assert CheckDict(secret, "", entries) == None;
      assert RedactDict(secret, entries)[0].value == Str(REDACTED) != entries[0].value;
      assert !KeptIfAccepted(secret, entries);
    }
  }
}
