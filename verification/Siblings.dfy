/** The list operations on children, whose head's `prev` is the last node, against sequences of nodes. */
module Siblings {
  import opened Memory
  import opened Nodes
  import T = Trees

  /** The first of `ns`, or NULL. */
  ghost function First(ns: seq<Node>): Node? { if ns == [] then null else ns[0] }

  /** The links run through `ns`: `next` ends in NULL, `prev` inverts it and leads from the head to the last. */
  ghost predicate Linked(ns: seq<Node>)
    reads ns
  {
    && (forall i, j :: 0 <= i < j < |ns| ==> ns[i] != ns[j])
    && (forall i {:trigger ns[i].next} :: 0 <= i < |ns| ==> ns[i].next == if i + 1 < |ns| then ns[i + 1] else null)
    && (forall i {:trigger ns[i].prev} :: 0 <= i < |ns| ==> ns[i].prev == ns[if i > 0 then i - 1 else |ns| - 1])
  }

  ghost predicate ChildrenAre(parent: Node, ns: seq<Node>)
    reads parent, ns
  {
    parent !in ns && parent.child == First(ns) && Linked(ns)
  }

  // ---------- the same operations on a sequence ----------

  ghost function Inserted(ns: seq<Node>, which: nat, item: Node): seq<Node> {
    if which < |ns| then ns[..which] + [item] + ns[which..] else ns + [item]
  }

  ghost function Removed(ns: seq<Node>, k: nat): seq<Node>
    requires k < |ns|
  {
    ns[..k] + ns[k + 1..]
  }

  // ---------- the operations on links ----------

  /** get_array_item. */
  method GetArrayItem(parent: Node?, index: nat, ghost ns: seq<Node>) returns (item: Node?)
    requires parent != null ==> ChildrenAre(parent, ns)
    ensures item == if parent != null && index < |ns| then ns[index] else null
  {
    if parent == null {
      return null;
    }
    item := parent.child;
    var left := index;
    while item != null && left > 0
      invariant 0 <= left <= index
      invariant item == if index - left < |ns| then ns[index - left] else null
      decreases left
    {
      left := left - 1;
      item := item.next;
    }
  }

  /**
   * add_item_to_array: the last node is found through the head. Behind a last node the next link of
   * the item is left as it is, so the list stays one exactly when that link is NULL.
   */
  method AddItemToArray(parent: Node?, item: Node?, ghost ns: seq<Node>) returns (ok: bool)
    requires parent != null ==> ChildrenAre(parent, ns)
    requires item !in ns
    modifies (set n <- [parent] | n != null)`child, (set n <- [item] | n != null)`next, (set n <- [item] | n != null)`prev, ns`next, ns`prev
    ensures ok <==> item != null && parent != null && item != parent
    ensures ok ==> (ChildrenAre(parent, ns + [item]) <==> ns == [] || old(item.next) == null)
    ensures !ok && parent != null ==> ChildrenAre(parent, ns)
  {
    if item == null || parent == null || parent == item {
      return false;
    }
    var child := parent.child;
    if child == null {
      parent.child := item;
      item.prev := item;
      item.next := null;
    } else if child.prev != null {
      SuffixObject(child.prev, item);
      parent.child.prev := item;
    }
    ghost var after := ns + [item];
    assert forall i :: 0 <= i < |after| ==> after[i] == if i < |ns| then ns[i] else item;
    assert after[|ns|].next == null <==> ns == [] || old(item.next) == null;
    return true;
  }

  method SuffixObject(prev: Node, item: Node)
    modifies prev`next, item`prev
    ensures prev.next == item && item.prev == prev
  {
    prev.next := item;
    item.prev := prev;
  }

  lemma InsertedMembers(ns: seq<Node>, which: nat, item: Node)
    ensures forall n <- Inserted(ns, which, item) :: n in ns || n == item
  {
  }

  lemma InsertedIsLinked(ns: seq<Node>, which: nat, item: Node)
    requires which < |ns| && item !in ns && forall i, j :: 0 <= i < j < |ns| ==> ns[i] != ns[j]
    requires forall i {:trigger ns[i].next} :: 0 <= i < |ns| && i != which - 1 ==>
               ns[i].next == if i + 1 < |ns| then ns[i + 1] else null
    requires forall i {:trigger ns[i].prev} :: 0 <= i < |ns| && i != which ==>
               ns[i].prev == ns[if i > 0 then i - 1 else |ns| - 1]
    requires item.next == ns[which] && item.prev == ns[if which > 0 then which - 1 else |ns| - 1]
    requires ns[which].prev == item && (which > 0 ==> ns[which - 1].next == item)
    ensures Linked(Inserted(ns, which, item)) && First(Inserted(ns, which, item)) == if which == 0 then item else ns[0]
  {
    var made := Inserted(ns, which, item);
    assert forall i :: 0 <= i < |made| ==> made[i] == if i < which then ns[i] else if i == which then item else ns[i - 1];
  }

  /** cJSON_InsertItemInArray. */
  method InsertItemInArray(parent: Node?, which: int, item: Node, ghost ns: seq<Node>) returns (ok: bool)
    requires parent != null ==> ChildrenAre(parent, ns)
    requires item !in ns && item != parent
    modifies (set n <- [parent] | n != null)`child, item`next, item`prev, ns`next, ns`prev
    ensures ok <==> parent != null && which >= 0
    ensures ok && which < |ns| ==> ChildrenAre(parent, Inserted(ns, which, item))
    ensures ok && which >= |ns| ==> (ChildrenAre(parent, Inserted(ns, which, item)) <==> ns == [] || old(item.next) == null)
    ensures !ok && parent != null ==> ChildrenAre(parent, ns)
  {
    if which < 0 {
      return false;
    }
    var after := GetArrayItem(parent, which, ns);
    if after == null {
      ok := AddItemToArray(parent, item, ns);
      return;
    }
    item.next := after;
    item.prev := after.prev;
    after.prev := item;
    if after == parent.child {
      parent.child := item;
    } else {
      item.prev.next := item;
    }
    assert forall i {:trigger ns[i].next} :: 0 <= i < |ns| && i != which - 1 ==> ns[i].next == old(ns[i].next);
    assert forall i {:trigger ns[i].prev} :: 0 <= i < |ns| && i != which ==> ns[i].prev == old(ns[i].prev);
    InsertedIsLinked(ns, which, item);
    InsertedMembers(ns, which, item);
    return true;
  }

  lemma RemovedIsLinked(ns: seq<Node>, k: nat)
    requires k < |ns| && forall i, j :: 0 <= i < j < |ns| ==> ns[i] != ns[j]
    requires forall i {:trigger ns[i].next} :: 0 <= i < |ns| && i != k - 1 && i != k ==>
               ns[i].next == if i + 1 < |ns| then ns[i + 1] else null
    requires forall i {:trigger ns[i].prev} :: 0 < i < |ns| && i != k + 1 && i != k ==> ns[i].prev == ns[i - 1]
    requires k > 0 ==> ns[k - 1].next == if k + 1 < |ns| then ns[k + 1] else null
    requires 0 < k < |ns| - 1 ==> ns[k + 1].prev == ns[k - 1]
    requires |ns| > 1 ==> var last := ns[if k == |ns| - 1 then |ns| - 2 else |ns| - 1];
               ns[if k == 0 then 1 else 0].prev == last
    ensures Linked(Removed(ns, k))
  {
    var left := Removed(ns, k);
    assert forall i :: 0 <= i < |left| ==> left[i] == if i < k then ns[i] else ns[i + 1];
  }

  /** cJSON_DetachItemViaPointer. */
  method DetachItemViaPointer(parent: Node?, item: Node?, ghost ns: seq<Node>, ghost k: nat) returns (detached: Node?)
    requires parent != null && item != null ==> ChildrenAre(parent, ns) && k < |ns| && ns[k] == item
    modifies (set n <- [parent] | n != null)`child, ns`next, ns`prev
    ensures detached == if parent == null then null else item
    ensures parent != null && item != null ==> ChildrenAre(parent, Removed(ns, k)) && item.next == null && item.prev == null
    ensures parent == null || item == null ==> unchanged(ns) && (parent != null ==> unchanged(parent))
  {
    if parent == null || item == null {
      return null;
    }
    if item != parent.child {
      item.prev.next := item.next;
    }
    if item.next != null {
      item.next.prev := item.prev;
    }
    if item == parent.child {
      parent.child := item.next;
    } else if item.next == null {
      parent.child.prev := item.prev;
    }
    item.prev := null;
    item.next := null;
    assert forall i {:trigger ns[i].next} :: 0 <= i < |ns| && i != k - 1 && i != k ==> ns[i].next == old(ns[i].next);
    assert forall i {:trigger ns[i].prev} :: 0 < i < |ns| && i != k + 1 && i != k ==> ns[i].prev == old(ns[i].prev);
    RemovedIsLinked(ns, k);
    return item;
  }

  /** cJSON_DetachItemFromArray. */
  method DetachItemFromArray(parent: Node?, which: int, ghost ns: seq<Node>) returns (detached: Node?)
    requires parent != null ==> ChildrenAre(parent, ns)
    modifies (set n <- [parent] | n != null)`child, ns`next, ns`prev
    ensures detached == if parent != null && 0 <= which < |ns| then ns[which] else null
    ensures detached != null ==> ChildrenAre(parent, Removed(ns, which)) && detached.next == null && detached.prev == null
    ensures detached == null && parent != null ==> ChildrenAre(parent, ns)
  {
    if which < 0 {
      return null;
    }
    var item := GetArrayItem(parent, which, ns);
    detached := DetachItemViaPointer(parent, item, ns, which);
  }

  lemma ReplacedIsLinked(ns: seq<Node>, k: nat, item: Node)
    requires k < |ns| && item !in ns && forall i, j :: 0 <= i < j < |ns| ==> ns[i] != ns[j]
    requires forall i {:trigger ns[i].next} :: 0 <= i < |ns| && i != k - 1 && i != k ==>
               ns[i].next == if i + 1 < |ns| then ns[i + 1] else null
    requires forall i {:trigger ns[i].prev} :: 0 < i < |ns| && i != k + 1 && i != k ==> ns[i].prev == ns[i - 1]
    requires k > 0 ==> ns[k - 1].next == item && ns[0].prev == if k == |ns| - 1 then item else ns[|ns| - 1]
    requires k + 1 < |ns| ==> ns[k + 1].prev == item
    requires item.next == if k + 1 < |ns| then ns[k + 1] else null
    requires item.prev == if k > 0 then ns[k - 1] else if |ns| > 1 then ns[|ns| - 1] else item
    ensures Linked(ns[k := item])
  {
  }

  /** The links part of cJSON_ReplaceItemViaPointer. */
  method RelinkReplacement(parent: Node, item: Node, replacement: Node, ghost ns: seq<Node>, ghost k: nat)
    requires ChildrenAre(parent, ns) && k < |ns| && ns[k] == item
    requires replacement !in ns && replacement != parent
    modifies parent`child, replacement`next, replacement`prev, ns`next, ns`prev
    ensures ChildrenAre(parent, ns[k := replacement]) && item.next == null && item.prev == null
  {
    replacement.next := item.next;
    replacement.prev := item.prev;
    if replacement.next != null {
      replacement.next.prev := replacement;
    }
    if parent.child == item {
      if parent.child.prev == parent.child {
        replacement.prev := replacement;
      }
      parent.child := replacement;
    } else {
      if replacement.prev != null {
        replacement.prev.next := replacement;
      }
      if replacement.next == null {
        parent.child.prev := replacement;
      }
    }
    item.next := null;
    item.prev := null;
    assert forall i {:trigger ns[i].next} :: 0 <= i < |ns| && i != k - 1 && i != k ==> ns[i].next == old(ns[i].next);
    assert forall i {:trigger ns[i].prev} :: 0 < i < |ns| && i != k + 1 && i != k ==> ns[i].prev == old(ns[i].prev);
    ReplacedIsLinked(ns, k, replacement);
  }

  /** cJSON_ReplaceItemViaPointer: the item's place is taken and all that the item owns is released. */
  method ReplaceItemViaPointer(
    hooks: Hooks, parent: Node?, item: Node?, replacement: Node?, ghost ns: seq<Node>, ghost k: nat, ghost f: T.Forest)
    returns (ok: bool)
    requires parent != null && item != null ==> ChildrenAre(parent, ns) && k < |ns| && ns[k] == item
    requires replacement != item ==> replacement !in ns && replacement != parent
    requires item != null ==> f.Grove? && f.node == item && f.rest.Empty? && T.Separate(f) && T.Owned(f) <= hooks.live
    requires item != null ==> T.Records(item, f.info) && T.Shown(f.kids) && item.child == T.Head(f.kids)
    requires item != null ==> forall n <- T.NodesOf(f.kids) :: n !in ns && n != parent && n != replacement
    modifies hooks, (set n <- [parent] | n != null)`child, ns`next, ns`prev
    modifies (set n <- [replacement] | n != null)`next, (set n <- [replacement] | n != null)`prev
    ensures ok <==> parent != null && replacement != null && item != null
    ensures ok ==> ChildrenAre(parent, ns[k := replacement])
    ensures hooks.live == if ok && replacement != item then old(hooks.live) - T.Owned(f) else old(hooks.live)
  {
    if parent == null || replacement == null || item == null {
      return false;
    }
    if replacement == item {
      return true;
    }
    T.AreAllocated(f.kids);
    assert forall b <- T.Blocks(f.kids), n <- ns + [parent, replacement] :: (b as object) != n;
    RelinkReplacement(parent, item, replacement, ns, k);
    T.StaysHeld(f.kids);
    T.DeleteTree(hooks, item, f);
    return true;
  }

  /** Inserting a node and detaching it again gives back the list. */
  lemma InsertedThenRemoved(ns: seq<Node>, which: nat, item: Node)
    ensures var k := if which < |ns| then which else |ns|;
      Inserted(ns, which, item)[k] == item && Removed(Inserted(ns, which, item), k) == ns
  {
  }

  // ---------- lists that the parser and cJSON_Duplicate build ----------

  /** The nodes of a list, without their children. */
  ghost function Spine(f: T.Forest): (ns: seq<Node>) {
    if f.Empty? then [] else [f.node] + Spine(f.rest)
  }

  lemma {:induction false} SpineIsOwned(f: T.Forest)
    ensures forall n <- Spine(f) :: (n as object) in T.Owned(f)
    ensures f.Grove? ==> Spine(f) != [] && Spine(f)[0] == f.node && Spine(f)[|Spine(f)| - 1] == T.Last(f)
  {
    if f.Grove? { SpineIsOwned(f.rest); }
  }

  lemma {:induction false} SpineIsThreaded(f: T.Forest)
    requires T.Holds(f, null) && T.Backs(f) && T.Separate(f)
    ensures var ns := Spine(f);
      && (forall i, j :: 0 <= i < j < |ns| ==> ns[i] != ns[j])
      && (forall i {:trigger ns[i].next} :: 0 <= i < |ns| ==> ns[i].next == if i + 1 < |ns| then ns[i + 1] else null)
      && (forall i {:trigger ns[i].prev} :: 0 < i < |ns| ==> ns[i].prev == ns[i - 1])
  {
    if f.Grove? {
      var rest := Spine(f.rest);
      SpineIsThreaded(f.rest);
      SpineIsOwned(f.rest);
      assert forall i :: 0 < i < |Spine(f)| ==> Spine(f)[i] == rest[i - 1];
      assert forall i :: 0 <= i < |rest| ==> rest[i] in rest;
    }
  }

  /** A finished list of children is linked as the list operations need it. */
  lemma {:induction false} FinishedListIsLinked(f: T.Forest)
    requires T.Built(f, null) && T.Ringed(f)
    ensures Linked(Spine(f)) && First(Spine(f)) == T.Head(f)
  {
    assert T.Open(f);
    SpineIsThreaded(f);
    SpineIsOwned(f);
  }
}
