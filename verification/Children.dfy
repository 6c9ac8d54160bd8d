/** The list operations on trees: what a parent owns stays built, so that every block can be released exactly once. */
module Children {
  import opened Memory
  import opened Nodes
  import opened Trees
  import S = Siblings

  // ---------- what the links between siblings do not matter to ----------

  /** All that `Built` says of a list, but for the links between its nodes. */
  ghost predicate Branches(f: Forest)
    reads NodesOf(f), Blocks(f)
  {
    f.Grove? ==>
      && Records(f.node, f.info) && f.node.child == Head(f.kids)
      && Holds(f.kids, null) && Ringed(f.kids) && Backs(f.kids) && Branches(f.rest)
  }

  ghost function KidNodes(f: Forest): set<Node> {
    if f.Empty? then {} else NodesOf(f.kids) + KidNodes(f.rest)
  }

  lemma {:induction false} BuiltIsBranched(f: Forest, end: Node?)
    requires Holds(f, end) && Backs(f)
    ensures Branches(f)
  {
    if f.Grove? { BuiltIsBranched(f.rest, end); }
  }

  lemma {:induction false} JoinedBranches(f: Forest, g: Forest)
    ensures Branches(Joined(f, g)) <==> Branches(f) && Branches(g)
  {
    if f.Grove? {
      JoinedReach(f.rest, g);
      JoinedBranches(f.rest, g);
    }
  }

  lemma {:induction false} JoinedSpine(f: Forest, g: Forest)
    ensures S.Spine(Joined(f, g)) == S.Spine(f) + S.Spine(g)
  {
    if f.Grove? { JoinedSpine(f.rest, g); }
  }

  lemma {:induction false} SeparateParts(f: Forest, g: Forest)
    requires Separate(Joined(f, g)) && Solid(Joined(f, g))
    ensures Separate(f) && Solid(f) && Separate(g) && Solid(g) && Owned(f) !! Owned(g)
  {
    if f.Grove? {
      JoinedParts(f.rest, g);
      SeparateParts(f.rest, g);
    }
  }

  lemma {:induction false} SpineOrKid(f: Forest)
    ensures forall n <- NodesOf(f) :: n in S.Spine(f) || n in KidNodes(f)
    ensures KidNodes(f) <= NodesOf(f) && forall n <- S.Spine(f) :: n in NodesOf(f)
  {
    if f.Grove? { SpineOrKid(f.rest); }
  }

  lemma {:induction false} KidsAreOwned(f: Forest)
    requires Solid(f)
    ensures forall n <- KidNodes(f) :: (n as object) in Owned(f)
  {
    if f.Grove? {
      SolidNodes(f.kids);
      KidsAreOwned(f.rest);
    }
  }

  /** A node of the list is not among the descendants of the list. */
  lemma {:induction false} SpineIsApart(f: Forest)
    requires Separate(f) && Solid(f)
    ensures forall n <- S.Spine(f) :: n !in KidNodes(f)
  {
    if f.Grove? {
      SpineIsApart(f.rest);
      S.SpineIsOwned(f.rest);
      SolidNodes(f.kids);
      KidsAreOwned(f.rest);
    }
  }

  /** The links make a list of nodes with their branches a finished one. */
  lemma {:induction false} Threads(f: Forest, ns: seq<Node>, k: nat)
    requires Branches(f) && k <= |ns| && S.Spine(f) == ns[k..]
    requires forall i {:trigger ns[i].next} :: 0 <= i < |ns| ==> ns[i].next == if i + 1 < |ns| then ns[i + 1] else null
    requires forall i {:trigger ns[i].prev} :: 0 < i < |ns| ==> ns[i].prev == ns[i - 1]
    ensures Holds(f, null) && Backs(f)
  {
    if f.Grove? {
      assert ns[k..][0] == ns[k] && ns[k..][1..] == ns[k + 1..];
      if f.rest.Grove? { assert ns[k + 1..][0] == ns[k + 1]; }
      Threads(f.rest, ns, k + 1);
    }
  }

  lemma {:induction false} LinkedIsBuilt(f: Forest)
    requires Branches(f) && Separate(f) && Solid(f) && S.Linked(S.Spine(f))
    ensures Built(f, null) && Ringed(f)
  {
    var ns := S.Spine(f);
    assert ns[0..] == ns;
    Threads(f, ns, 0);
    S.SpineIsOwned(f);
  }

  /** Only links between siblings have changed. */
  twostate predicate Rethreaded(f: Forest)
    reads NodesOf(f), Blocks(f)
  {
    f.Grove? ==> OnlyLinks(f) && Rethreaded(f.rest)
  }

  twostate predicate SameRecord(n: Node)
    reads n
  {
    && n.kind == old(n.kind) && n.isReference == old(n.isReference) && n.nameIsConst == old(n.nameIsConst)
    && n.name == old(n.name) && n.valuestring == old(n.valuestring) && n.child == old(n.child)
    && n.valuedouble == old(n.valuedouble) && n.valueint == old(n.valueint)
  }

  twostate lemma {:induction false} OnlyLinksChanged(f: Forest)
    requires (forall n <- NodesOf(f) :: old(allocated(n))) && forall b <- Blocks(f) :: old(allocated(b))
    requires (forall n <- S.Spine(f) :: old(allocated(n)) && SameRecord(n))
    requires (forall n <- KidNodes(f) :: old(allocated(n))) && unchanged(KidNodes(f)) && unchanged(Blocks(f))
    ensures Rethreaded(f)
  {
    if f.Grove? {
      assert S.Spine(f)[0] == f.node && SameRecord(f.node);
      assert forall n <- S.Spine(f.rest) :: n in S.Spine(f);
      assert forall n <- NodesOf(f.rest) :: n in NodesOf(f);
      assert forall n <- KidNodes(f.rest) :: n in KidNodes(f);
      assert forall b <- Blocks(f.rest) :: b in Blocks(f);
      assert f.info.name != null ==> f.info.name in Blocks(f);
      assert f.info.text != null ==> f.info.text in Blocks(f);
      OnlyLinksChanged(f.rest);
    }
  }

  twostate lemma {:induction false} BranchesStay(f: Forest)
    requires Rethreaded(f) && old(Branches(f))
    ensures Branches(f)
  {
    if f.Grove? {
      BranchesStay(f.rest);
      LastIsInside(f.kids);
      assert old(Ringed(f.kids)) ==> Ringed(f.kids);
    }
  }

  lemma {:induction false} LastIsInside(f: Forest)
    ensures f.Grove? ==> Last(f) in NodesOf(f)
  {
    if f.Grove? && f.rest.Grove? { LastIsInside(f.rest); }
  }

  // ---------- the operations ----------

  /** The children of `parent` are the finished list `f`, of which it is no part. */
  ghost predicate Parents(parent: Node, f: Forest)
    reads parent, NodesOf(f), Blocks(f)
  {
    Built(f, null) && Ringed(f) && parent.child == Head(f) && (parent as object) !in Owned(f)
  }

  /** A tree that is in no list. */
  ghost predicate Single(item: Node, one: Forest)
    reads NodesOf(one), Blocks(one)
  {
    one.Grove? && one.node == item && one.rest.Empty? && Built(one, null)
  }

  /** A list that only lacks the links between its nodes. */
  ghost predicate Whole(f: Forest)
    reads NodesOf(f), Blocks(f)
  {
    forall g {:trigger Open(g)} :: Open(g) && g == f ==> Branches(g) && Separate(g) && Solid(g)
  }

  lemma {:induction false} ParentsWhole(parent: Node, f: Forest)
    requires Parents(parent, f)
    ensures S.ChildrenAre(parent, S.Spine(f)) && Whole(f)
  {
    assert Open(f);
    S.FinishedListIsLinked(f);
    S.SpineIsOwned(f);
    BuiltIsBranched(f, null);
  }

  /** Where the links of `parent` run through the list, it is a parent again. */
  lemma {:induction false} WholeParents(parent: Node, f: Forest)
    requires Whole(f) && S.ChildrenAre(parent, S.Spine(f)) && (parent as object) !in Owned(f)
    ensures Parents(parent, f)
  {
    assert Open(f);
    LinkedIsBuilt(f);
    S.SpineIsOwned(f);
  }

  lemma {:induction false} SingleWhole(item: Node, one: Forest)
    requires Single(item, one)
    ensures S.Spine(one) == [item] && Whole(one) && (item as object) in Owned(one)
  {
    assert Open(one);
    BuiltIsBranched(one, null);
    S.SpineIsOwned(one);
    assert S.Spine(one)[0] == item;
  }

  lemma WholeSingle(item: Node, one: Forest)
    requires Whole(one) && one.Grove? && one.node == item && one.rest.Empty? && item.next == null
    ensures Single(item, one)
  {
    assert Open(one);
    assert Branches(one) && Branches(one.rest) && one.rest == Empty;
    assert Holds(one, null) && Backs(one);
  }

  /** Who is where in a list: its nodes, their descendants, and who it does not own. */
  lemma {:induction false} WholeApart(f: Forest, parent: Node)
    requires Whole(f) && (parent as object) !in Owned(f)
    ensures forall n <- S.Spine(f) :: n !in KidNodes(f)
    ensures parent !in NodesOf(f) && KidNodes(f) <= NodesOf(f)
  {
    assert Open(f);
    SpineIsApart(f);
    SolidNodes(f);
    SpineOrKid(f);
  }

  lemma {:induction false} JoinedSets(f: Forest, g: Forest)
    ensures S.Spine(Joined(f, g)) == S.Spine(f) + S.Spine(g) && Owned(Joined(f, g)) == Owned(f) + Owned(g)
  {
    JoinedSpine(f, g);
    JoinedParts(f, g);
  }

  lemma {:induction false} JoinedWhole(f: Forest, g: Forest)
    requires Whole(f) && Whole(g) && Owned(f) !! Owned(g)
    ensures Whole(Joined(f, g))
  {
    assert Open(f) && Open(g);
    JoinedBranches(f, g);
    JoinedSeparate(f, g);
    JoinedReach(f, g);
  }

  lemma {:induction false} WholeJoined(f: Forest, g: Forest)
    requires Whole(Joined(f, g))
    ensures Whole(f) && Whole(g) && Owned(f) !! Owned(g)
  {
    assert Open(Joined(f, g));
    JoinedBranches(f, g);
    SeparateParts(f, g);
  }

  lemma {:induction false} ThreeSets(a: Forest, one: Forest, b: Forest)
    ensures Owned(Joined(a, Joined(one, b))) == Owned(a) + Owned(one) + Owned(b)
    ensures S.Spine(Joined(a, Joined(one, b))) == S.Spine(a) + S.Spine(one) + S.Spine(b)
  {
    JoinedSets(one, b);
    JoinedSets(a, Joined(one, b));
    Regrouped(S.Spine(a), S.Spine(one), S.Spine(b));
  }

  lemma Regrouped(a: seq<Node>, b: seq<Node>, c: seq<Node>)
    ensures a + (b + c) == a + b + c
  {
  }

  /** A list with a tree put in it owns the tree as well, and nothing twice. */
  lemma {:induction false} Placed(a: Forest, b: Forest, one: Forest)
    requires Whole(Joined(a, b)) && Whole(one) && Owned(one) !! Owned(Joined(a, b))
    ensures Whole(Joined(a, Joined(one, b)))
    ensures Owned(Joined(a, Joined(one, b))) == Owned(Joined(a, b)) + Owned(one)
    ensures S.Spine(Joined(a, Joined(one, b))) == S.Spine(a) + S.Spine(one) + S.Spine(b)
  {
    ThreeSets(a, one, b);
    JoinedSets(a, b);
    PlacedWhole(a, b, one);
  }

  lemma {:induction false} PlacedWhole(a: Forest, b: Forest, one: Forest)
    requires Whole(Joined(a, b)) && Whole(one) && Owned(one) !! Owned(a) + Owned(b)
    ensures Whole(Joined(a, Joined(one, b)))
  {
    WholeJoined(a, b);
    JoinedSets(one, b);
    JoinedWhole(one, b);
    JoinedWhole(a, Joined(one, b));
  }

  /** A list without one of its trees. */
  lemma {:induction false} Parted(a: Forest, one: Forest, b: Forest)
    requires Whole(Joined(a, Joined(one, b)))
    ensures Whole(one) && Whole(Joined(a, b)) && Owned(one) !! Owned(Joined(a, b))
    ensures Owned(Joined(a, Joined(one, b))) == Owned(Joined(a, b)) + Owned(one)
    ensures S.Spine(Joined(a, Joined(one, b))) == S.Spine(a) + S.Spine(one) + S.Spine(b)
    ensures S.Spine(Joined(a, b)) == S.Spine(a) + S.Spine(b)
  {
    ThreeSets(a, one, b);
    JoinedSets(a, b);
    PartedWhole(a, one, b);
  }

  lemma {:induction false} PartedWhole(a: Forest, one: Forest, b: Forest)
    requires Whole(Joined(a, Joined(one, b)))
    ensures Whole(one) && Whole(Joined(a, b)) && Owned(one) !! Owned(a) + Owned(b)
  {
    WholeJoined(a, Joined(one, b));
    WholeJoined(one, b);
    JoinedSets(one, b);
    JoinedWhole(a, b);
  }

  /** `ChildrenAre`, for a parent that is mentioned in `Known`. */
  ghost predicate Chained(parent: Node, ns: seq<Node>)
    reads parent, ns
  {
    forall p {:trigger Known(p)} :: Known(p) && p == parent ==> S.ChildrenAre(p, ns)
  }

  ghost predicate Known(parent: Node) { true }

  /** The list has this spine, and the parent and the nodes named have no part in what is below it. */
  ghost predicate Below(g: Forest, parent: Node, touched: set<Node>, made: seq<Node>) {
    && S.Spine(g) == made && parent !in NodesOf(g) && (parent as object) !in Owned(g)
    && KidNodes(g) !! touched
  }

  /** The links between siblings are all that inserting changes of the list that results. */
  method Insert(parent: Node, which: nat, item: Node, ghost ns: seq<Node>, ghost g: Forest, ghost made: seq<Node>)
    requires Chained(parent, ns) && which <= |ns| && item !in ns && item != parent && item.next == null
    requires Whole(g) && made == S.Inserted(ns, which, item) && Below(g, parent, (set n <- ns) + {item, parent}, made)
    modifies parent`child, item`next, item`prev, ns`next, ns`prev
    ensures Chained(parent, made) && Whole(g)
  {
    AreAllocated(g);
    ghost var kids := KidNodes(g);
    SpineOrKid(g);
    label Before: InsertNode(parent, which, item, ns, made);
    assert unchanged@Before(kids);
    OnlyLinksChanged@Before(g);
    WholeStays@Before(g);
  }

  method InsertNode(parent: Node, which: nat, item: Node, ghost ns: seq<Node>, ghost made: seq<Node>)
    requires Chained(parent, ns) && which <= |ns| && item !in ns && item != parent && item.next == null
    requires made == S.Inserted(ns, which, item)
    modifies parent`child, item`next, item`prev, ns`next, ns`prev
    ensures Chained(parent, made)
  {
    assert Known(parent);
    var ok := S.InsertItemInArray(parent, which, item, ns);
  }

  twostate lemma {:induction false} WholeStays(f: Forest)
    requires Rethreaded(f) && old(Whole(f))
    ensures Whole(f)
  {
    assert Open(f);
    BranchesStay(f);
  }

  lemma {:induction false} ParentsChained(parent: Node, f: Forest)
    requires Parents(parent, f)
    ensures Chained(parent, S.Spine(f)) && Whole(f)
  {
    ParentsWhole(parent, f);
  }

  lemma {:induction false} ChainedParents(parent: Node, f: Forest, made: seq<Node>)
    requires Chained(parent, made) && made == S.Spine(f) && Whole(f) && (parent as object) !in Owned(f)
    ensures Parents(parent, f)
  {
    assert Known(parent);
    WholeParents(parent, f);
  }

  /** Nodes of two lists that own nothing in common, and a parent that neither owns. */
  lemma {:induction false} SpinesApart(f: Forest, g: Forest, parent: Node)
    requires Whole(f) && Whole(g) && Owned(f) !! Owned(g) && (parent as object) !in Owned(f) + Owned(g)
    ensures forall n <- S.Spine(f) :: n !in S.Spine(g) && n !in KidNodes(g) && n != parent
    ensures forall n <- S.Spine(f) :: n !in KidNodes(f)
    ensures parent !in NodesOf(f) && parent !in KidNodes(f)
  {
    S.SpineIsOwned(f);
    S.SpineIsOwned(g);
    WholeApart(f, parent);
    assert Open(g);
    KidsAreOwned(g);
  }

  lemma {:induction false} OneBelow(g: Forest, parent: Node, touched: set<Node>)
    requires Whole(g) && (parent as object) !in Owned(g) && forall n <- touched :: n in S.Spine(g) || n == parent
    ensures Below(g, parent, touched, S.Spine(g))
  {
    WholeApart(g, parent);
  }

  lemma SpineInserted(a: seq<Node>, item: Node, b: seq<Node>)
    ensures a + [item] + b == S.Inserted(a + b, |a|, item)
    ensures (forall n <- a + b :: n in a + [item] + b) && item in a + [item] + b
  {
    assert (a + [item] + b)[|a|] == item;
  }

  lemma {:induction false} PlacedBelow(a: Forest, b: Forest, one: Forest, item: Node, parent: Node)
    requires Whole(Joined(a, b)) && Whole(one) && Owned(one) !! Owned(Joined(a, b)) && S.Spine(one) == [item]
    requires (parent as object) !in Owned(Joined(a, b)) + Owned(one)
    ensures var f, g := Joined(a, b), Joined(a, Joined(one, b)); var made := S.Spine(a) + [item] + S.Spine(b);
      && Whole(g) && Owned(g) == Owned(f) + Owned(one) && made == S.Inserted(S.Spine(f), |S.Spine(a)|, item)
      && Below(g, parent, (set n <- S.Spine(f)) + {item, parent}, made)
      && item !in S.Spine(f) && item != parent
  {
    var f, g := Joined(a, b), Joined(a, Joined(one, b));
    Placed(a, b, one);
    JoinedSets(a, b);
    SpineInserted(S.Spine(a), item, S.Spine(b));
    OneBelow(g, parent, (set n <- S.Spine(f)) + {item, parent});
    SpinesApart(one, f, parent);
    assert item == S.Spine(one)[0];
  }

  /** cJSON_InsertItemInArray, or behind the last node add_item_to_array: the parent owns the new child as well. */
  method InsertTree(parent: Node, which: nat, item: Node, ghost a: Forest, ghost b: Forest, ghost one: Forest)
    requires Parents(parent, Joined(a, b)) && Single(item, one) && which == |S.Spine(a)|
    requires Owned(one) !! Owned(Joined(a, b)) && (parent as object) !in Owned(one)
    modifies parent`child, item`next, item`prev, S.Spine(Joined(a, b))`next, S.Spine(Joined(a, b))`prev
    ensures Parents(parent, Joined(a, Joined(one, b)))
    ensures Owned(Joined(a, Joined(one, b))) == Owned(Joined(a, b)) + Owned(one)
  {
    ghost var f, g := Joined(a, b), Joined(a, Joined(one, b));
    ParentsChained(parent, f);
    SingleWhole(item, one);
    PlacedBelow(a, b, one, item, parent);
    JoinedSets(a, b);
    assert item.next == null by { assert Open(one); }
    Insert(parent, which, item, S.Spine(f), g, S.Spine(a) + [item] + S.Spine(b));
    ChainedParents(parent, g, S.Spine(g));
  }

  // ---------- appending ----------

  method AppendLinks(parent: Node, item: Node, ghost ns: seq<Node>, ghost g: Forest)
    requires Chained(parent, ns) && item !in ns && item != parent && item.next == null
    requires Whole(g) && Below(g, parent, (set n <- ns) + {item, parent}, ns + [item])
    modifies parent`child, item`next, item`prev, ns`next, ns`prev
    ensures Chained(parent, ns + [item]) && Whole(g)
  {
    AreAllocated(g);
    ghost var kids := KidNodes(g);
    SpineOrKid(g);
    label Before: AppendNode(parent, item, ns);
    assert unchanged@Before(kids);
    OnlyLinksChanged@Before(g);
    WholeStays@Before(g);
  }

  method AppendNode(parent: Node, item: Node, ghost ns: seq<Node>)
    requires Chained(parent, ns) && item !in ns && item != parent && item.next == null
    modifies parent`child, item`next, item`prev, ns`next, ns`prev
    ensures Chained(parent, ns + [item])
  {
    assert Known(parent);
    var ok := S.AddItemToArray(parent, item, ns);
  }

  /** add_item_to_array: the parent owns the new last child as well. */
  method AppendTree(parent: Node, item: Node, ghost f: Forest, ghost one: Forest)
    requires Parents(parent, f) && Single(item, one)
    requires Owned(one) !! Owned(f) && (parent as object) !in Owned(one)
    modifies parent`child, item`next, item`prev, S.Spine(f)`next, S.Spine(f)`prev
    ensures Parents(parent, Joined(f, one))
    ensures Owned(Joined(f, one)) == Owned(f) + Owned(one)
  {
    ghost var g := Joined(f, one);
    ParentsChained(parent, f);
    SingleWhole(item, one);
    JoinedSets(f, one);
    JoinedWhole(f, one);
    NewNode(one, f, item, parent);
    AppendedBelow(f, g, item, parent);
    assert item.next == null by { assert Open(one); }
    AppendLinks(parent, item, S.Spine(f), g);
    ChainedParents(parent, g, S.Spine(g));
  }

  lemma {:induction false} AppendedBelow(f: Forest, g: Forest, item: Node, parent: Node)
    requires Whole(g) && S.Spine(g) == S.Spine(f) + [item] && (parent as object) !in Owned(g)
    ensures Below(g, parent, (set n <- S.Spine(f)) + {item, parent}, S.Spine(f) + [item])
  {
    var ns := S.Spine(g);
    assert ns[|ns| - 1] == item;
    assert forall n <- S.Spine(f) :: n in ns;
    OneBelow(g, parent, (set n <- S.Spine(f)) + {item, parent});
  }

  // ---------- detaching ----------

  method Detach(parent: Node, item: Node, ghost ns: seq<Node>, ghost k: nat, ghost g: Forest, ghost x: Forest, ghost made: seq<Node>)
    requires Chained(parent, ns) && k < |ns| && ns[k] == item && made == S.Removed(ns, k)
    requires Whole(g) && Below(g, parent, (set n <- ns) + {parent}, made)
    requires Whole(x) && Below(x, parent, (set n <- ns) + {parent}, [item])
    modifies parent`child, ns`next, ns`prev
    ensures Chained(parent, made) && Whole(g) && Whole(x) && item.next == null && item.prev == null
  {
    AreAllocated(g);
    ghost var kids := KidNodes(g);
    SpineOrKid(g);
    label Before: DetachRoot(parent, item, ns, k, x, made);
    assert unchanged@Before(kids);
    OnlyLinksChanged@Before(g);
    WholeStays@Before(g);
  }

  /** What is below the detached node stays with it. */
  method DetachRoot(parent: Node, item: Node, ghost ns: seq<Node>, ghost k: nat, ghost x: Forest, ghost made: seq<Node>)
    requires Chained(parent, ns) && k < |ns| && ns[k] == item && made == S.Removed(ns, k)
    requires Whole(x) && Below(x, parent, (set n <- ns) + {parent}, [item])
    modifies parent`child, ns`next, ns`prev
    ensures Chained(parent, made) && Whole(x) && item.next == null && item.prev == null
  {
    AreAllocated(x);
    ghost var kids := KidNodes(x);
    SpineOrKid(x);
    label Before: DetachNode(parent, item, ns, k, made);
    assert unchanged@Before(kids);
    OnlyLinksChanged@Before(x);
    WholeStays@Before(x);
  }

  method DetachNode(parent: Node, item: Node, ghost ns: seq<Node>, ghost k: nat, ghost made: seq<Node>)
    requires Chained(parent, ns) && k < |ns| && ns[k] == item && made == S.Removed(ns, k)
    modifies parent`child, ns`next, ns`prev
    ensures Chained(parent, made) && item.next == null && item.prev == null
  {
    assert Known(parent);
    var detached := S.DetachItemViaPointer(parent, item, ns, k);
  }

  /** Two lists that own nothing in common: what is below the first one is in neither. */
  lemma {:induction false} TwoBelow(f: Forest, g: Forest, parent: Node, touched: set<Node>)
    requires Whole(f) && Whole(g) && Owned(f) !! Owned(g) && (parent as object) !in Owned(f) + Owned(g)
    requires forall n <- touched :: n in S.Spine(f) || n in S.Spine(g) || n == parent
    ensures Below(f, parent, touched, S.Spine(f))
  {
    SpinesApart(f, g, parent);
    SpinesApart(g, f, parent);
  }

  /** The spines and descendants of a list with a tree in it, of the list without it, and of the tree. */
  lemma {:induction false} PartedBelow(a: Forest, x: Forest, b: Forest, item: Node, parent: Node)
    requires Whole(Joined(a, Joined(x, b))) && S.Spine(x) == [item] && (parent as object) !in Owned(Joined(a, Joined(x, b)))
    ensures var f, g, k := Joined(a, Joined(x, b)), Joined(a, b), |S.Spine(a)|;
      var ns := S.Spine(f); var made := S.Spine(a) + S.Spine(b);
      && Whole(g) && Whole(x) && Owned(x) !! Owned(g) && Owned(f) == Owned(g) + Owned(x)
      && ns == S.Spine(a) + [item] + S.Spine(b) && ns[k] == item && made == S.Removed(ns, k)
      && Below(g, parent, (set n <- ns) + {parent}, made)
      && Below(x, parent, (set n <- ns) + {parent}, [item])
  {
    var f, g := Joined(a, Joined(x, b)), Joined(a, b);
    var touched := (set n <- S.Spine(f)) + {parent};
    Parted(a, x, b);
    SpineWithout(S.Spine(a), item, S.Spine(b));
    TwoBelow(g, x, parent, touched);
    TwoBelow(x, g, parent, touched);
  }

  lemma SpineWithout(a: seq<Node>, item: Node, b: seq<Node>)
    ensures S.Removed(a + [item] + b, |a|) == a + b && (a + [item] + b)[|a|] == item
    ensures forall n <- a + [item] + b :: n in a + b || n in [item]
  {
  }

  /** A list with one of its trees replaced by another one. */
  lemma {:induction false} ReplacedBelow(a: Forest, x: Forest, b: Forest, one: Forest, item: Node, replacement: Node, parent: Node)
    requires Whole(Joined(a, Joined(x, b))) && S.Spine(x) == [item]
    requires Whole(one) && S.Spine(one) == [replacement] && Owned(one) !! Owned(Joined(a, Joined(x, b)))
    requires (parent as object) !in Owned(Joined(a, Joined(x, b))) + Owned(one)
    ensures var f, g := Joined(a, Joined(x, b)), Joined(a, Joined(one, b));
      var ns := S.Spine(f); var touched := (set n <- ns) + {replacement, parent};
      && |S.Spine(a)| < |ns| && ns[|S.Spine(a)|] == item && S.Spine(g) == ns[|S.Spine(a)| := replacement]
      && replacement !in ns && replacement != parent
      && Whole(g) && Whole(x) && Owned(g) == Owned(f) - Owned(x) + Owned(one)
      && Below(g, parent, touched, S.Spine(g)) && Below(x, parent, touched, [item])
  {
    Parted(a, x, b);
    Placed(a, b, one);
    SpineReplaced(S.Spine(a), item, replacement, S.Spine(b), parent);
    var f, g := Joined(a, Joined(x, b)), Joined(a, Joined(one, b));
    NewNode(one, f, replacement, parent);
    EachBelow(g, x, parent, (set n <- S.Spine(f)) + {replacement, parent});
  }

  lemma {:induction false} NewNode(one: Forest, f: Forest, item: Node, parent: Node)
    requires Whole(one) && Whole(f) && Owned(one) !! Owned(f) && S.Spine(one) == [item]
    requires (parent as object) !in Owned(f) + Owned(one)
    ensures item !in S.Spine(f) && item != parent
  {
    SpinesApart(one, f, parent);
    assert item == S.Spine(one)[0];
  }

  lemma {:induction false} EachBelow(g: Forest, x: Forest, parent: Node, touched: set<Node>)
    requires Whole(g) && Whole(x) && Owned(x) !! Owned(g) && (parent as object) !in Owned(g) + Owned(x)
    requires forall n <- touched :: n in S.Spine(g) || n in S.Spine(x) || n == parent
    ensures Below(g, parent, touched, S.Spine(g)) && Below(x, parent, touched, S.Spine(x))
  {
    TwoBelow(g, x, parent, touched);
    TwoBelow(x, g, parent, touched);
  }

  lemma SpineReplaced(a: seq<Node>, item: Node, replacement: Node, b: seq<Node>, parent: Node)
    ensures var ns, made := a + [item] + b, a + [replacement] + b;
      && |a| < |ns| && ns[|a|] == item && made == ns[|a| := replacement]
      && forall n <- (set n <- ns) + {replacement, parent} :: n in made || n in [item] || n == parent
  {
    var ns, made := a + [item] + b, a + [replacement] + b;
    assert made[|a|] == replacement;
    assert forall i :: 0 <= i < |ns| && i != |a| ==> ns[i] == made[i];
  }

  /** cJSON_DetachItemViaPointer: the child and all below it are no longer the parent's. */
  method DetachTree(parent: Node, item: Node, ghost a: Forest, ghost x: Forest, ghost b: Forest)
    requires Parents(parent, Joined(a, Joined(x, b))) && x.Grove? && x.node == item && x.rest.Empty?
    modifies parent`child, S.Spine(Joined(a, Joined(x, b)))`next, S.Spine(Joined(a, Joined(x, b)))`prev
    ensures Parents(parent, Joined(a, b)) && Single(item, x) && item.prev == null
    ensures Owned(x) !! Owned(Joined(a, b)) && Owned(Joined(a, Joined(x, b))) == Owned(Joined(a, b)) + Owned(x)
  {
    ghost var f, g := Joined(a, Joined(x, b)), Joined(a, b);
    assert S.Spine(x) == [item];
    ParentsChained(parent, f);
    PartedBelow(a, x, b, item, parent);
    Detach(parent, item, S.Spine(f), |S.Spine(a)|, g, x, S.Spine(a) + S.Spine(b));
    ChainedParents(parent, g, S.Spine(g));
    WholeSingle(item, x);
  }

  // ---------- replacing ----------

  method Replace(hooks: Hooks, parent: Node, item: Node, replacement: Node,
                 ghost ns: seq<Node>, ghost k: nat, ghost g: Forest, ghost x: Forest, ghost touched: set<Node>)
    requires Chained(parent, ns) && k < |ns| && ns[k] == item && S.Spine(g) == ns[k := replacement]
    requires replacement !in ns && replacement != parent && (forall n <- ns :: n in touched) && replacement in touched && parent in touched
    requires Whole(g) && Below(g, parent, touched, S.Spine(g))
    requires Whole(x) && Below(x, parent, touched, [item])
    requires x.Grove? && x.node == item && x.rest.Empty? && Owned(x) <= hooks.live
    modifies hooks, parent`child, ns`next, ns`prev, replacement`next, replacement`prev
    ensures Chained(parent, S.Spine(g)) && Whole(g) && hooks.live == old(hooks.live) - Owned(x)
  {
    AreAllocated(g);
    ghost var kids, made := KidNodes(g), S.Spine(g);
    SpineOrKid(g);
    label Before: ReplaceNode(hooks, parent, item, replacement, ns, k, x, made, touched);
    assert unchanged@Before(kids);
    OnlyLinksChanged@Before(g);
    WholeStays@Before(g);
  }

  method ReplaceNode(hooks: Hooks, parent: Node, item: Node, replacement: Node,
                     ghost ns: seq<Node>, ghost k: nat, ghost x: Forest, ghost made: seq<Node>, ghost touched: set<Node>)
    requires Chained(parent, ns) && k < |ns| && ns[k] == item && made == ns[k := replacement]
    requires replacement !in ns && replacement != parent && (forall n <- ns :: n in touched) && replacement in touched && parent in touched
    requires Whole(x) && Below(x, parent, touched, [item])
    requires x.Grove? && x.node == item && x.rest.Empty? && Owned(x) <= hooks.live
    modifies hooks, parent`child, ns`next, ns`prev, replacement`next, replacement`prev
    ensures Chained(parent, made) && hooks.live == old(hooks.live) - Owned(x)
  {
    assert Known(parent) && Open(x);
    assert KidNodes(x) == NodesOf(x.kids);
    var ok := S.ReplaceItemViaPointer(hooks, parent, item, replacement, ns, k, x);
  }

  /** cJSON_ReplaceItemViaPointer: what the child owned is released, and the parent owns the replacement instead. */
  method ReplaceTree(hooks: Hooks, parent: Node, item: Node, replacement: Node,
                     ghost a: Forest, ghost x: Forest, ghost b: Forest, ghost one: Forest)
    requires Parents(parent, Joined(a, Joined(x, b))) && x.Grove? && x.node == item && x.rest.Empty?
    requires Single(replacement, one) && Owned(one) !! Owned(Joined(a, Joined(x, b))) && (parent as object) !in Owned(one)
    requires Owned(x) <= hooks.live
    modifies hooks, parent`child, S.Spine(Joined(a, Joined(x, b)))`next, S.Spine(Joined(a, Joined(x, b)))`prev
    modifies replacement`next, replacement`prev
    ensures Parents(parent, Joined(a, Joined(one, b))) && hooks.live == old(hooks.live) - Owned(x)
    ensures Owned(Joined(a, Joined(one, b))) == Owned(Joined(a, Joined(x, b))) - Owned(x) + Owned(one)
  {
    ghost var f, g := Joined(a, Joined(x, b)), Joined(a, Joined(one, b));
    assert S.Spine(x) == [item];
    ParentsChained(parent, f);
    SingleWhole(replacement, one);
    ReplacedBelow(a, x, b, one, item, replacement, parent);
    Replace(hooks, parent, item, replacement, S.Spine(f), |S.Spine(a)|, g, x, (set n <- S.Spine(f)) + {replacement, parent});
    ChainedParents(parent, g, S.Spine(g));
  }
}
