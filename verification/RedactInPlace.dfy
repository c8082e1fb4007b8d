/**
 The redactor on linked dictionaries and lists: strings are overwritten where they stand, and
 no container moves. The secret-free export hides the known paths first and then sweeps.
 */
module RedactInPlace {
  import opened Options
  import opened ConfigExport
  import opened Redaction

  datatype Value =
    | SubDict(dict: DictNode)
    | SubList(list: ListNode)
    | Text(text: string)
    | Number(number: int)
    | Nothing

  datatype Slot = Slot(key: string, value: Value)

  /** The containers below a value. */
  ghost function Foot(v: Value): set<object>
    reads if v.SubDict? then {v.dict} else if v.SubList? then {v.list} else {}
  {
    match v
    case SubDict(d) => d.Repr
    case SubList(l) => l.Repr
    case _ => {}
  }

  ghost predicate ValidValue(v: Value)
    reads if v.SubDict? then {v.dict} + v.dict.Repr else if v.SubList? then {v.list} + v.list.Repr else {}
    decreases Foot(v), 1
  {
    && (v.SubDict? ==> v.dict.Valid())
    && (v.SubList? ==> v.list.Valid())
  }

  /** A value as a tree. */
  ghost function ViewValue(v: Value): Node
    requires ValidValue(v)
    reads if v.SubDict? then {v.dict} + v.dict.Repr else if v.SubList? then {v.list} + v.list.Repr else {}
    decreases Foot(v), 1
  {
    match v
    case SubDict(d) => Dict(d.View())
    case SubList(l) => List(l.View())
    case Text(text) => Str(text)
    case Number(n) => Other(n)
    case Nothing => Null
  }

  class DictNode {
    var slots: seq<Slot>
    ghost var Repr: set<object>

    /** A tree: what stands below different slots is disjoint, and nothing leads back. */
    ghost predicate Valid()
      reads this, Repr
      decreases Repr, 0
    {
      && this in Repr
      && (forall i | 0 <= i < |slots| && slots[i].value.SubDict? :: slots[i].value.dict in Repr)
      && (forall i | 0 <= i < |slots| && slots[i].value.SubList? :: slots[i].value.list in Repr)
      && (forall i | 0 <= i < |slots| ::
            Foot(slots[i].value) <= Repr && this !in Foot(slots[i].value) && ValidValue(slots[i].value))
      && (forall i, k | 0 <= i < k < |slots| :: Foot(slots[i].value) !! Foot(slots[k].value))
    }

    ghost function View(): (r: seq<Entry>)
      requires Valid()
      reads this, Repr
      ensures |r| == |slots|
      ensures forall i | 0 <= i < |slots| :: r[i] == Entry(slots[i].key, ViewValue(slots[i].value))
      decreases Repr, 0
    {
      seq(|slots|, i requires 0 <= i < |slots| && Valid() reads this, Repr =>
            Entry(slots[i].key, ViewValue(slots[i].value)))
    }

    /** When only what stands in one slot changed, what stands in the others is as it was. */
    twostate lemma OthersUntouched(i: nat)
      requires old(Valid()) && |slots| == |old(slots)| && i < |slots| && Repr == old(Repr)
      requires forall k | 0 <= k < |slots| && k != i :: slots[k] == old(slots[k])
      requires forall o | o in old(Repr) && o != this && o !in old(Foot(slots[i].value)) :: unchanged(o)
      ensures forall k | 0 <= k < |slots| && k != i :: Foot(slots[k].value) == old(Foot(slots[k].value))
      ensures forall k | 0 <= k < |slots| && k != i :: ValidValue(slots[k].value)
      ensures forall k | 0 <= k < |slots| && k != i :: ViewValue(slots[k].value) == old(ViewValue(slots[k].value))
    {
      forall k | 0 <= k < |slots| && k != i
        ensures Foot(slots[k].value) == old(Foot(slots[k].value)) && ValidValue(slots[k].value)
        ensures ViewValue(slots[k].value) == old(ViewValue(slots[k].value))
      {
        var v := slots[k].value;
        assert old(Foot(v)) !! old(Foot(slots[i].value));
        assert v.SubDict? ==> old(v.dict.Valid()) && v.dict in old(Foot(v));
        assert v.SubList? ==> old(v.list.Valid()) && v.list in old(Foot(v));
        assert forall o | o in old(Foot(v)) :: unchanged(o);
      }
    }

    /** If moreover nothing was added below that slot, this is still a tree. */
    twostate lemma OnlySlotChanged(i: nat)
      requires old(Valid()) && |slots| == |old(slots)| && i < |slots| && Repr == old(Repr)
      requires forall k | 0 <= k < |slots| && k != i :: slots[k] == old(slots[k])
      requires Foot(slots[i].value) <= old(Foot(slots[i].value)) && ValidValue(slots[i].value)
      requires forall o | o in old(Repr) && o != this && o !in old(Foot(slots[i].value)) :: unchanged(o)
      ensures Valid()
      ensures forall k | 0 <= k < |slots| && k != i :: ViewValue(slots[k].value) == old(ViewValue(slots[k].value))
    {
      OthersUntouched(i);
    }

    method HideSlot(i: nat)
      requires Valid() && i < |slots|
      modifies this`slots
      ensures Valid()
      ensures View() == if old(View()[i].value).Null? then old(View())
                        else old(View())[i := Entry(old(slots[i].key), Str(REDACTED))]
    {
      if !slots[i].value.Nothing? {
        slots := slots[i := Slot(slots[i].key, Text(REDACTED))];
        OnlySlotChanged(i);
      }
    }

    method HideBelow(i: nat, rest: seq<string>)
      requires Valid() && i < |slots| && slots[i].value.SubDict? && rest != []
      requires View()[i].value.Dict?
      modifies Repr
      ensures Valid() && Repr == old(Repr)
      ensures View() == old(View())[i := Entry(old(slots[i].key), Dict(RedactPath(old(View()[i].value.entries), rest)))]
      decreases |rest|, 1
    {
      slots[i].value.dict.HidePath(rest);
      OnlySlotChanged(i);
    }

    /** Walks along the keys and replaces what stands at their end, unless it is absent or null. */
    method HidePath(path: seq<string>)
      requires Valid() && path != []
      modifies Repr
      ensures Valid() && Repr == old(Repr)
      ensures View() == RedactPath(old(View()), path)
      decreases |path|, 0
    {
      var i := Find(path[0]);
      if i.None? {
        return;
      }
      if |path| == 1 {
        HideSlot(i.value);
      } else if slots[i.value].value.SubDict? {
        HideBelow(i.value, path[1..]);
      }
    }

    method Find(key: string) returns (found: Option<nat>)
      requires Valid()
      ensures found == IndexOf(View(), key)
      ensures found.Some? ==> found.value < |slots| && slots[found.value].key == key
    {
      for i := 0 to |slots|
        invariant forall k | 0 <= k < i :: slots[k].key != key
      {
        if slots[i].key == key {
          IndexIsFirst(View(), key, i);
          return Some(i);
        }
      }
      return None;
    }

    method RedactSlot(secret: Secret, i: nat)
      requires Valid() && i < |slots|
      modifies Repr
      ensures Valid() && Repr == old(Repr)
      ensures View()
           == old(View())[i := Entry(old(slots[i].key), RedactNode(secret, old(slots[i].key), old(View()[i].value)))]
      decreases Repr, 1
    {
      var key := slots[i].key;
      match slots[i].value {
        case SubDict(d) => d.RedactSecretValues(secret);
        case SubList(l) => l.RedactSecretValues(secret, key);
        case Text(text) =>
          if text != REDACTED && secret(key, text) {
            slots := slots[i := Slot(key, Text(REDACTED))];
          }
        case Number(_) =>
        case Nothing =>
      }
      OnlySlotChanged(i);
    }

    method RedactSecretValues(secret: Secret)
      requires Valid()
      modifies Repr
      ensures Valid() && Repr == old(Repr)
      ensures View() == RedactDict(secret, old(View()))
      decreases Repr, 2
    {
      ghost var before := View();
      for i := 0 to |slots|
        invariant Valid() && Repr == old(Repr) && |slots| == |before|
        invariant forall k | 0 <= k < i :: View()[k] == RedactDict(secret, before)[k]
        invariant forall k | i <= k < |before| :: View()[k] == before[k]
      {
        RedactDictAt(secret, before, i);
        RedactSlot(secret, i);
      }
    }
  }

  class ListNode {
    var items: seq<Value>
    ghost var Repr: set<object>

    ghost predicate Valid()
      reads this, Repr
      decreases Repr, 0
    {
      && this in Repr
      && (forall i | 0 <= i < |items| && items[i].SubDict? :: items[i].dict in Repr)
      && (forall i | 0 <= i < |items| && items[i].SubList? :: items[i].list in Repr)
      && (forall i | 0 <= i < |items| :: Foot(items[i]) <= Repr && this !in Foot(items[i]) && ValidValue(items[i]))
      && (forall i, k | 0 <= i < k < |items| :: Foot(items[i]) !! Foot(items[k]))
    }

    ghost function View(): (r: seq<Node>)
      requires Valid()
      reads this, Repr
      ensures |r| == |items| && forall i | 0 <= i < |items| :: r[i] == ViewValue(items[i])
      decreases Repr, 0
    {
      seq(|items|, i requires 0 <= i < |items| && Valid() reads this, Repr => ViewValue(items[i]))
    }

    twostate lemma OtherItemsUntouched(i: nat)
      requires old(Valid()) && |items| == |old(items)| && i < |items| && Repr == old(Repr)
      requires forall k | 0 <= k < |items| && k != i :: items[k] == old(items[k])
      requires forall o | o in old(Repr) && o != this && o !in old(Foot(items[i])) :: unchanged(o)
      ensures forall k | 0 <= k < |items| && k != i :: Foot(items[k]) == old(Foot(items[k]))
      ensures forall k | 0 <= k < |items| && k != i :: ValidValue(items[k])
      ensures forall k | 0 <= k < |items| && k != i :: ViewValue(items[k]) == old(ViewValue(items[k]))
    {
      forall k | 0 <= k < |items| && k != i
        ensures Foot(items[k]) == old(Foot(items[k])) && ValidValue(items[k])
        ensures ViewValue(items[k]) == old(ViewValue(items[k]))
      {
        var v := items[k];
        assert old(Foot(v)) !! old(Foot(items[i]));
        assert v.SubDict? ==> old(v.dict.Valid()) && v.dict in old(Foot(v));
        assert v.SubList? ==> old(v.list.Valid()) && v.list in old(Foot(v));
        assert forall o | o in old(Foot(v)) :: unchanged(o);
      }
    }

    twostate lemma OnlyItemChanged(i: nat)
      requires old(Valid()) && |items| == |old(items)| && i < |items| && Repr == old(Repr)
      requires forall k | 0 <= k < |items| && k != i :: items[k] == old(items[k])
      requires Foot(items[i]) <= old(Foot(items[i])) && ValidValue(items[i])
      requires forall o | o in old(Repr) && o != this && o !in old(Foot(items[i])) :: unchanged(o)
      ensures Valid()
      ensures forall k | 0 <= k < |items| && k != i :: ViewValue(items[k]) == old(ViewValue(items[k]))
    {
      OtherItemsUntouched(i);
    }

    method RedactItem(secret: Secret, key: string, i: nat)
      requires Valid() && i < |items|
      modifies Repr
      ensures Valid() && Repr == old(Repr)
      ensures View() == old(View())[i := RedactNode(secret, key, old(View()[i]))]
      decreases Repr, 1
    {
      match items[i] {
        case SubDict(d) => d.RedactSecretValues(secret);
        case SubList(l) => l.RedactSecretValues(secret, key);
        case Text(text) =>
          if text != REDACTED && secret(key, text) {
            items := items[i := Text(REDACTED)];
          }
        case Number(_) =>
        case Nothing =>
      }
      OnlyItemChanged(i);
    }

    /** Strings in a list are judged by the key the list stands under. */
    method RedactSecretValues(secret: Secret, key: string)
      requires Valid()
      modifies Repr
      ensures Valid() && Repr == old(Repr)
      ensures View() == RedactList(secret, key, old(View()))
      decreases Repr, 2
    {
      ghost var before := View();
      for i := 0 to |items|
        invariant Valid() && Repr == old(Repr) && |items| == |before|
        invariant forall k | 0 <= k < i :: View()[k] == RedactList(secret, key, before)[k]
        invariant forall k | i <= k < |before| :: View()[k] == before[k]
      {
        RedactListAt(secret, key, before, i);
        RedactItem(secret, key, i);
      }
    }
  }

  method RedactKnownPaths(root: DictNode, paths: seq<seq<string>>)
    requires root.Valid() && [] !in paths
    modifies root.Repr
    ensures root.Valid() && root.Repr == old(root.Repr)
    ensures root.View() == RedactPaths(old(root.View()), paths)
  {
    for i := 0 to |paths|
      invariant root.Valid() && root.Repr == old(root.Repr)
      invariant RedactPaths(old(root.View()), paths) == RedactPaths(root.View(), paths[i..])
    {
      assert paths[i..][0] == paths[i] && paths[i..][1..] == paths[i + 1..];
      root.HidePath(paths[i]);
    }
  }

  /** The export redacts its own copy of the configuration; what it returns passes the checker. */
  method Export(secret: Secret, raw: DictNode, paths: seq<seq<string>>)
    requires raw.Valid() && [] !in paths
    modifies raw.Repr
    ensures raw.Valid() && raw.View() == Exported(secret, old(raw.View()), paths)
    ensures PlaceholderPasses(secret) ==> CheckDict(secret, "", raw.View()) == None
  {
    RedactKnownPaths(raw, paths);
    if PlaceholderPasses(secret) {
      RedactedDictPasses(secret, "", raw.View());
    }
    raw.RedactSecretValues(secret);
  }
}
