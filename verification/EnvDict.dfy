/**
 The nested dictionaries the merge updates in place: each node owns its sub-dictionaries.
 */
module EnvDict {
  import opened EnvMerge

  datatype Value = Text(text: string) | Sub(node: DictNode)

  class DictNode {
    var entries: map<string, Value>
    ghost var Repr: set<DictNode>

    constructor ()
      ensures Valid() && fresh(Repr) && View() == map[] && Repr == {this}
    {
      entries := map[];
      Repr := {this};
    }

    /** A tree: sub-dictionaries are disjoint from each other and from this node. */
    ghost predicate Valid()
      reads this, Repr
      decreases Repr
    {
      && this in Repr
      && (forall k | k in entries && entries[k].Sub? ::
            && entries[k].node in Repr && entries[k].node.Repr <= Repr && this !in entries[k].node.Repr
            && entries[k].node.Valid())
      && (forall k, l | k in entries && l in entries && k != l && entries[k].Sub? && entries[l].Sub? ::
            entries[k].node.Repr !! entries[l].node.Repr)
    }

    ghost function View(): Dict
      requires Valid()
      reads this, Repr
      decreases Repr
    {
      map k | k in entries :: if entries[k].Text? then Leaf(entries[k].text) else Branch(entries[k].node.View())
    }

    method SetText(key: string, value: string)
      requires Valid()
      modifies this`entries
      ensures Valid() && View() == old(View())[key := Leaf(value)]
    {
      entries := entries[key := Text(value)];
    }

    /** Puts a dictionary that shares nothing with this one under a key. */
    method Attach(key: string, child: DictNode)
      requires Valid() && child.Valid() && child.Repr !! Repr
      modifies this
      ensures Valid() && Repr == old(Repr) + child.Repr && entries == old(entries)[key := Sub(child)]
      ensures child.Valid() && child.View() == old(child.View()) && child.Repr == old(child.Repr)
      ensures View() == old(View())[key := Branch(child.View())]
    {
      entries := entries[key := Sub(child)];
      Repr := Repr + child.Repr;
    }

    /** Puts an empty dictionary under a key. */
    method Make(key: string) returns (child: DictNode)
      requires Valid()
      modifies this
      ensures Valid() && fresh(child) && Repr == old(Repr) + {child}
      ensures key in entries && entries[key] == Sub(child) && child.View() == map[]
      ensures View() == old(View())[key := Branch(map[])]
    {
      child := new DictNode();
      Attach(key, child);
    }

    /** The sub-dictionary under a key; whatever else was there makes room for an empty one. */
    method Child(key: string) returns (child: DictNode)
      requires Valid()
      modifies this
      ensures Valid() && fresh(Repr - old(Repr))
      ensures key in entries && entries[key] == Sub(child)
      ensures child.View() == ChildOf(old(View()), key)
      ensures View() == old(View())[key := Branch(child.View())]
    {
      if key in entries && entries[key].Sub? {
        child := entries[key].node;
      } else {
        child := Make(key);
      }
    }

    /** When only the sub-dictionary under one key changed, the view changes under that key alone. */
    twostate lemma OnlyChildChanged(key: string)
      requires old(Valid()) && key in old(entries) && old(entries[key]).Sub?
      requires entries == old(entries) && Repr == old(Repr) + entries[key].node.Repr
      requires forall o | o in old(Repr) && o != this && o !in old(entries[key].node.Repr) :: unchanged(o)
      requires entries[key].node.Valid() && fresh(entries[key].node.Repr - old(entries[key].node.Repr))
      ensures Valid() && View() == old(View())[key := Branch(entries[key].node.View())]
    {
      forall k | k in entries && k != key && entries[k].Sub?
        ensures entries[k].node.Repr == old(entries[k].node.Repr) && entries[k].node.Valid()
        ensures entries[k].node.View() == old(entries[k].node.View())
      {
        assert entries[k].node in old(entries[k].node.Repr);
        assert forall o | o in old(entries[k].node.Repr) :: unchanged(o);
      }
    }

    /** Goes on below one key. */
    method SetBelow(key: string, child: DictNode, rest: Path, value: string)
      requires Valid() && key in entries && entries[key] == Sub(child)
      modifies Repr
      ensures Valid() && fresh(Repr - old(Repr))
      ensures View() == old(View())[key := Branch(SetNested(old(child.View()), rest, value))]
      decreases |rest|, 3
    {
      child.Set(rest, value);
      Repr := Repr + child.Repr;
      OnlyChildChanged(key);
    }

    method SetDeep(path: Path, value: string)
      requires Valid() && |path| > 1
      modifies Repr
      ensures Valid() && fresh(Repr - old(Repr))
      ensures View() == old(View())[path[0] := Branch(SetNested(ChildOf(old(View()), path[0]), path[1..], value))]
      decreases |path|, 1
    {
      ghost var before := View();
      var child := Child(path[0]);
      ghost var below := child.View();
      SetBelow(path[0], child, path[1..], value);
      assert View() == before[path[0] := Branch(SetNested(below, path[1..], value))];
    }

    /** Sets the value at a path, creating or replacing whatever is in the way by dictionaries. */
    method Set(path: Path, value: string)
      requires Valid()
      modifies Repr
      ensures Valid() && fresh(Repr - old(Repr))
      ensures View() == SetNested(old(View()), path, value)
      decreases |path|, 2
    {
      if |path| == 1 {
        SetText(path[0], value);
      } else {
        SetDeep(path, value);
      }
    }
  }

  /** Merges the variables into the dictionary in place, one after the other. */
  method ApplyEnvToDict(target: DictNode, overrides: seq<Override>)
    requires target.Valid()
    modifies target.Repr
    ensures target.Valid() && fresh(target.Repr - old(target.Repr))
    ensures target.View() == Merge(old(target.View()), overrides)
  {
    for i := 0 to |overrides|
      invariant target.Valid() && fresh(target.Repr - old(target.Repr))
      invariant Merge(old(target.View()), overrides) == Merge(target.View(), overrides[i..])
    {
      assert overrides[i..][1..] == overrides[i + 1..] && overrides[i..][0] == overrides[i];
      var parts := PathOf(overrides[i].name);
      target.Set(parts, overrides[i].value);
    }
  }
}
