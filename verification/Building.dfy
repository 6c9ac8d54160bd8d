/** Making trees: the functions that create nodes, and those that add them to an object under a name. */
module Building {
  import opened Bytes
  import opened JsonValue
  import opened Memory
  import opened Trees
  import opened Children
  import N = Nodes
  import S = Siblings

  /** cJSON_strdup of a string that is given by its bytes. */
  method NewText(hooks: Hooks, text: Text) returns (block: array?<byte>)
    modifies hooks
    ensures hooks.calls == old(hooks.calls) + 1 && (block == null <==> hooks.refuses(old(hooks.calls)))
    ensures block == null ==> hooks.live == old(hooks.live)
    ensures block != null ==> fresh(block) && Spells(block, Some(text)) && hooks.live == old(hooks.live) + {block}
  {
    block := hooks.Allocate(|text| + 1);
    if block != null {
      forall i | 0 <= i <= |text| {
        block[i] := if i < |text| then text[i] else NUL;
      }
    }
  }

  /** A new node that stands for `t`, in no list and with no name. */
  twostate predicate Created(hooks: Hooks, new item: N.Node, new one: Forest, t: Json)
    reads hooks, item, NodesOf(one), Blocks(one)
  {
    && fresh(item) && Single(item, one) && TreeValue(one) == t && one.kids.Empty?
    && one.info.name == null && !one.info.nameIsConst && !one.info.isReference
    && fresh(Owned(one)) && hooks.live == old(hooks.live) + Owned(one)
  }

  lemma {:induction false} Alone(item: N.Node, info: Info)
    requires Records(item, info) && !info.isReference && Apart(item, info) && item.next == null && item.child == null
    ensures Single(item, Grove(item, info, Empty, Empty))
    ensures Owned(Grove(item, info, Empty, Empty)) == {item as object} + OwnBlocks(info)
  {
    OwnedByRoot(item, info, Empty);
    Rooted(item, info, Empty);
  }

  const CLEARED: Info := Info(N.Invalid, false, false, null, None, null, None, 0.0, 0)

  /** cJSON_CreateObject. */
  method CreateObject(hooks: Hooks) returns (item: N.Node?, ghost one: Forest)
    modifies hooks
    ensures hooks.calls == old(hooks.calls) + 1 && (item != null <==> !hooks.refuses(old(hooks.calls)))
    ensures item == null ==> hooks.live == old(hooks.live)
    ensures item != null ==> Created(hooks, item, one, Object(Nil)) && item.child == null
  {
    item := hooks.NewItem();
    one := Empty;
    if item != null {
      item.kind := N.Object;
      Alone(item, CLEARED.(kind := N.Object));
      one := Grove(item, CLEARED.(kind := N.Object), Empty, Empty);
    }
  }

  /** cJSON_CreateNumber. */
  method CreateNumber(hooks: Hooks, num: real) returns (item: N.Node?, ghost one: Forest)
    modifies hooks
    ensures hooks.calls == old(hooks.calls) + 1 && (item != null <==> !hooks.refuses(old(hooks.calls)))
    ensures item == null ==> hooks.live == old(hooks.live)
    ensures item != null ==> Created(hooks, item, one, Number(num, Saturate(num)))
  {
    item := hooks.NewItem();
    one := Empty;
    if item != null {
      item.kind, item.valuedouble := N.Number, num;
      if num >= INT_MAX as real {
        item.valueint := INT_MAX;
      } else if num <= INT_MIN as real {
        item.valueint := INT_MIN;
      } else {
        item.valueint := if num >= 0.0 then num.Floor else -((-num).Floor);
      }
      ghost var info := CLEARED.(kind := N.Number, value := num, intValue := Saturate(num));
      Alone(item, info);
      one := Grove(item, info, Empty, Empty);
    }
  }

  /** cJSON_CreateString; None is a NULL pointer, of which no string is made. */
  method CreateString(hooks: Hooks, text: Option<Text>) returns (item: N.Node?, ghost one: Forest)
    modifies hooks
    ensures hooks.calls > old(hooks.calls) && (item != null <==> text.Some? && hooks.Granted(old(hooks.calls)))
    ensures item == null ==> hooks.live == old(hooks.live)
    ensures item != null ==> Created(hooks, item, one, String(text))
  {
    one := Empty;
    item := hooks.NewItem();
    if item == null {
      return;
    }
    item.kind := N.String;
    var block := null;
    if text.Some? {
      block := NewText(hooks, text.value);
    }
    if block == null {
      Alone(item, CLEARED.(kind := N.String));
      DeleteLeaf(hooks, item, CLEARED.(kind := N.String));
      item := null;
      return;
    }
    item.valuestring := block;
    ghost var info := CLEARED.(kind := N.String, text := block, body := text);
    Alone(item, info);
    one := Grove(item, info, Empty, Empty);
  }

  /** The tree with another name. */
  ghost function Renamed(one: Forest, block: array<byte>, key: Text): Forest
    requires one.Grove?
  {
    one.(info := one.info.(name := block, nameText := Some(key), nameIsConst := false))
  }

  /** add_item_to_object: the item gets the name and becomes the last member. */
  method AddItemToObject(hooks: Hooks, parent: N.Node, key: Text, item: N.Node?, ghost f: Forest, ghost one: Forest)
    returns (ok: bool, ghost named: Forest)
    requires Parents(parent, f)
    requires item != null ==> Single(item, one) && Owned(one) !! Owned(f) && (parent as object) !in Owned(one)
    requires item != null ==> one.info.name == null && one.kids.Empty?
    requires Owned(f) <= hooks.live && (parent as object) in hooks.live && (item != null ==> Owned(one) <= hooks.live)
    modifies hooks, parent`child, S.Spine(f)`next, S.Spine(f)`prev
    modifies (set n <- [item] | n != null)
    ensures hooks.calls >= old(hooks.calls) && (ok <==> item != null && hooks.Granted(old(hooks.calls)))
    ensures !ok ==> Parents(parent, f) && hooks.live == old(hooks.live) && (item != null ==> Single(item, one))
    ensures ok ==> Added(parent, f, item, one, key, named)
    ensures ok ==> fresh(Owned(named) - Owned(one)) && hooks.live == old(hooks.live) + Owned(named)
  {
    named := Empty;
    if item == null {
      return false, named;
    }
    AreAllocated(f);
    AreAllocated(one);
    var block := NewText(hooks, key);
    if block == null {
      return false, named;
    }
    named := AddNamed(parent, block, key, item, f, one);
    ok := true;
  }

  /** `named` is `one` under the name, and the last member of the object. */
  ghost predicate Added(parent: N.Node, f: Forest, item: N.Node, one: Forest, key: Text, named: Forest)
    reads parent, NodesOf(Joined(f, named)), Blocks(Joined(f, named))
  {
    && Parents(parent, Joined(f, named)) && Owned(Joined(f, named)) == Owned(f) + Owned(named)
    && one.Grove? && ItemsOf(Joined(f, named)) == Append(ItemsOf(f), Cons(Some(key), TreeValue(one), Nil))
    && named.Grove? && named.node == item && named.kids.Empty? && named.rest.Empty? && Owned(one) <= Owned(named)
    && named.info.nameText == Some(key) && named.info.kind == one.info.kind
  }

  method AddNamed(parent: N.Node, block: array<byte>, key: Text, item: N.Node, ghost f: Forest, ghost one: Forest)
    returns (ghost named: Forest)
    requires Parents(parent, f) && Single(item, one) && Owned(one) !! Owned(f) && (parent as object) !in Owned(one)
    requires one.info.name == null && one.kids.Empty? && Spells(block, Some(key))
    requires (block as object) !in Owned(f) + Owned(one)
    modifies parent`child, S.Spine(f)`next, S.Spine(f)`prev, item
    ensures Added(parent, f, item, one, key, named) && Owned(named) == Owned(one) + {block}
  {
    named := Renamed(one, block, key);
    NameBeside(parent, item, block, key, f, one);
    AppendTree(parent, item, f, named);
    JoinedParts(f, named);
  }

  /** Naming an item leaves the members there are alone. */
  method NameBeside(parent: N.Node, item: N.Node, block: array<byte>, key: Text, ghost f: Forest, ghost one: Forest)
    requires Parents(parent, f) && Owned(one) !! Owned(f) && (parent as object) !in Owned(one)
    requires Single(item, one) && one.info.name == null && one.kids.Empty? && Spells(block, Some(key))
    requires (block as object) !in Owned(one)
    modifies item`name, item`nameIsConst
    ensures Parents(parent, f)
    ensures Single(item, Renamed(one, block, key)) && Owned(Renamed(one, block, key)) == Owned(one) + {block}
  {
    assert (item as object) in Owned(one) by { SingleWhole(item, one); }
    assert Solid(f) by { assert Open(f); }
    Elsewhere(f, item, item);
    LastIsInside(f);
    AreAllocated(f);
    label Before: Name(item, block, key, one);
    StaysBuilt@Before(f);
  }

  /** The name is set. */
  method Name(item: N.Node, block: array<byte>, key: Text, ghost one: Forest)
    requires Single(item, one) && one.info.name == null && one.kids.Empty? && Spells(block, Some(key))
    requires (block as object) !in Owned(one)
    modifies item`name, item`nameIsConst
    ensures Single(item, Renamed(one, block, key)) && Owned(Renamed(one, block, key)) == Owned(one) + {block}
  {
    assert Open(one);
    item.name := block;
    item.nameIsConst := false;
    ghost var info := Renamed(one, block, key).info;
    OwnedByRoot(item, one.info, Empty);
    Alone(item, info);
  }

  /** cJSON_AddObjectToObject: a new empty object as the last member, or nothing. */
  method AddObjectToObject(hooks: Hooks, parent: N.Node, name: Text, ghost f: Forest)
    returns (item: N.Node?, ghost named: Forest)
    requires Parents(parent, f) && Owned(f) <= hooks.live && (parent as object) in hooks.live
    modifies hooks, parent`child, S.Spine(f)`next, S.Spine(f)`prev
    ensures hooks.calls > old(hooks.calls) && (item != null <==> hooks.Granted(old(hooks.calls)))
    ensures item == null ==> Parents(parent, f) && hooks.live == old(hooks.live)
    ensures item != null ==> named.Grove? && named.node == item && named.kids.Empty? && named.rest.Empty? && fresh(Owned(named))
    ensures item != null ==> named.info.nameText == Some(name) && named.info.kind == N.Object
    ensures item != null ==> Parents(parent, Joined(f, named)) && Owned(Joined(f, named)) == Owned(f) + Owned(named)
    ensures item != null ==> ItemsOf(Joined(f, named)) == Append(ItemsOf(f), Cons(Some(name), Object(Nil), Nil))
    ensures item != null ==> hooks.live == old(hooks.live) + Owned(named)
  {
    ghost var one;
    named := Empty;
    item, one := CreateBeside(hooks, parent, f);
    if item != null {
      var ok;
      ok, named := AddOrDelete(hooks, parent, name, item, f, one);
      if !ok {
        item := null;
      }
    }
  }

  /** The part behind the creation: the new object is added, or released. */
  method AddOrDelete(hooks: Hooks, parent: N.Node, name: Text, item: N.Node, ghost f: Forest, ghost one: Forest)
    returns (ok: bool, ghost named: Forest)
    requires Parents(parent, f) && Single(item, one) && Owned(one) !! Owned(f) && (parent as object) !in Owned(one)
    requires one.info.name == null && one.kids.Empty? && TreeValue(one) == Object(Nil)
    requires Owned(f) <= hooks.live && (parent as object) in hooks.live && Owned(one) <= hooks.live
    modifies hooks, parent`child, S.Spine(f)`next, S.Spine(f)`prev, item
    ensures hooks.calls >= old(hooks.calls) && (ok <==> hooks.Granted(old(hooks.calls)))
    ensures !ok ==> Parents(parent, f) && hooks.live == old(hooks.live) - Owned(one)
    ensures ok ==> named.Grove? && named.node == item && named.kids.Empty? && named.rest.Empty?
    ensures ok ==> named.info.nameText == Some(name) && named.info.kind == N.Object
    ensures ok ==> Owned(one) <= Owned(named) && fresh(Owned(named) - Owned(one)) && hooks.live == old(hooks.live) + Owned(named)
    ensures ok ==> Parents(parent, Joined(f, named)) && Owned(Joined(f, named)) == Owned(f) + Owned(named)
    ensures ok ==> ItemsOf(Joined(f, named)) == Append(ItemsOf(f), Cons(Some(name), Object(Nil), Nil))
  {
    ok, named := AddItemToObject(hooks, parent, name, item, f, one);
    if ok {
      AddedParts(parent, f, item, one, name, named);
    } else {
      DeleteBeside(hooks, parent, item, f, one);
    }
  }

  lemma {:induction false} AddedParts(parent: N.Node, f: Forest, item: N.Node, one: Forest, key: Text, named: Forest)
    requires Added(parent, f, item, one, key, named)
    ensures Parents(parent, Joined(f, named)) && Owned(Joined(f, named)) == Owned(f) + Owned(named)
    ensures ItemsOf(Joined(f, named)) == Append(ItemsOf(f), Cons(Some(key), TreeValue(one), Nil))
    ensures named.Grove? && named.node == item && named.kids.Empty? && named.rest.Empty?
    ensures named.info.nameText == Some(key) && named.info.kind == one.info.kind
  {
  }

  /** A new object leaves the members of another one alone. */
  method CreateBeside(hooks: Hooks, parent: N.Node, ghost f: Forest) returns (item: N.Node?, ghost one: Forest)
    requires Parents(parent, f) && Owned(f) <= hooks.live && (parent as object) in hooks.live
    modifies hooks
    ensures hooks.calls == old(hooks.calls) + 1 && (item != null <==> !hooks.refuses(old(hooks.calls)))
    ensures item == null ==> hooks.live == old(hooks.live)
    ensures item != null ==> Created(hooks, item, one, Object(Nil))
    ensures Parents(parent, f)
  {
    AreAllocated(f);
    LastIsInside(f);
    label Before: item, one := CreateObject(hooks);
    StaysBuilt@Before(f);
  }

  method DeleteBeside(hooks: Hooks, parent: N.Node, item: N.Node, ghost f: Forest, ghost one: Forest)
    requires Parents(parent, f) && Single(item, one) && Owned(one) <= hooks.live
    modifies hooks
    ensures hooks.live == old(hooks.live) - Owned(one) && hooks.calls == old(hooks.calls)
    ensures Parents(parent, f)
  {
    AreAllocated(f);
    LastIsInside(f);
    label Before: DeleteSingle(hooks, item, one);
    StaysBuilt@Before(f);
  }

  /** cJSON_Delete on a tree that is in no list. */
  method DeleteSingle(hooks: Hooks, item: N.Node, ghost one: Forest)
    requires Single(item, one) && Owned(one) <= hooks.live
    modifies hooks
    ensures hooks.live == old(hooks.live) - Owned(one) && hooks.calls == old(hooks.calls)
  {
    assert Open(one);
    assert Shown(one.kids);
    DeleteTree(hooks, item, one);
  }
}
