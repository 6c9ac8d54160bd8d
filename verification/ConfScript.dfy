/** The daemon's configuration as it is kept in a linked list, written to a script and read from one. */
module ConfScript {
  import opened Bytes
  import opened JsonValue
  import opened Numbers
  import opened JsonText
  import opened Memory
  import opened Trees
  import opened Children
  import opened Building
  import opened SysConf
  import G = Grammar
  import C = Compare
  import N = Nodes
  import S = Siblings
  import PrintApi

  // ---------- the tree that is written ----------

  /** Members that can be printed. */
  ghost predicate Safe(items: Items) { AllPlainNumbers(items) && AllPrintable(items) }

  lemma {:induction false} SafeAppend(xs: Items, name: Text, v: Json)
    requires Safe(xs) && PlainNumbers(v) && Printable(v)
    ensures Safe(Append(xs, Cons(Some(name), v, Nil)))
    decreases xs
  {
    if xs.Cons? { SafeAppend(xs.tail, name, v); }
  }

  /** The members of an object under construction: all of its nodes and texts are new and live. */
  twostate predicate Filled(hooks: Hooks, parent: N.Node, f: Forest, new g: Forest)
    reads hooks, parent, NodesOf(g), Blocks(g)
  {
    && Parents(parent, g) && Owned(f) <= Owned(g) && fresh(Owned(g) - Owned(f)) && Owned(g) <= hooks.live
    && old(hooks.live) <= hooks.live
    && (forall i {:trigger S.Spine(g)[i]} :: 0 <= i < |S.Spine(g)| ==> S.Spine(g)[i] in S.Spine(f) || fresh(S.Spine(g)[i]))
    && (hooks.Granted(old(hooks.calls)) ==> hooks.live == old(hooks.live) + (Owned(g) - Owned(f)))
    && (Safe(ItemsOf(f)) ==> Safe(ItemsOf(g)))
  }

  /** cJSON_AddItemToObject; an item that cannot be added is left behind. */
  method AddItem(hooks: Hooks, parent: N.Node, key: Text, item: N.Node?, ghost f: Forest, ghost one: Forest)
    returns (ghost g: Forest)
    requires Parents(parent, f) && Owned(f) <= hooks.live && (parent as object) in hooks.live
    requires item != null ==> Single(item, one) && Owned(one) !! Owned(f) && (parent as object) !in Owned(one)
    requires item != null ==> one.info.name == null && one.kids.Empty? && Owned(one) <= hooks.live
    requires item != null ==> PlainNumbers(TreeValue(one)) && Printable(TreeValue(one))
    modifies hooks, parent`child, S.Spine(f)`next, S.Spine(f)`prev
    modifies (set n <- [item] | n != null)
    ensures hooks.calls >= old(hooks.calls) && Parents(parent, g) && (Safe(ItemsOf(f)) ==> Safe(ItemsOf(g)))
    ensures Owned(f) <= Owned(g) && Owned(g) <= hooks.live && old(hooks.live) <= hooks.live
    ensures item == null || !hooks.Granted(old(hooks.calls)) ==> g == f && hooks.live == old(hooks.live)
    ensures item != null && hooks.Granted(old(hooks.calls)) ==>
              && ItemsOf(g) == Append(ItemsOf(f), Cons(Some(key), TreeValue(one), Nil))
              && Owned(one) <= Owned(g) && fresh(Owned(g) - Owned(f) - Owned(one))
              && hooks.live == old(hooks.live) + (Owned(g) - Owned(f))
              && S.Spine(g) == S.Spine(f) + [item]
  {
    var ok;
    ghost var named;
    ok, named := AddItemToObject(hooks, parent, key, item, f, one);
    g := f;
    if ok {
      AddedParts(parent, f, item, one, key, named);
      JoinedSpine(f, named);
      g := Joined(f, named);
      if Safe(ItemsOf(f)) { SafeAppend(ItemsOf(f), key, TreeValue(one)); }
    }
  }

  method CreateStringBeside(hooks: Hooks, value: Option<Text>, parent: N.Node, ghost f: Forest)
    returns (item: N.Node?, ghost one: Forest)
    requires Parents(parent, f)
    modifies hooks
    ensures hooks.calls > old(hooks.calls) && (item != null <==> value.Some? && hooks.Granted(old(hooks.calls)))
    ensures item == null ==> hooks.live == old(hooks.live)
    ensures item != null ==> Created(hooks, item, one, String(value))
    ensures Parents(parent, f)
  {
    AreAllocated(f);
    LastIsInside(f);
    label Before: item, one := CreateString(hooks, value);
    StaysBuilt@Before(f);
  }

  method CreateNumberBeside(hooks: Hooks, num: real, parent: N.Node, ghost f: Forest)
    returns (item: N.Node?, ghost one: Forest)
    requires Parents(parent, f)
    modifies hooks
    ensures hooks.calls == old(hooks.calls) + 1 && (item != null <==> !hooks.refuses(old(hooks.calls)))
    ensures item == null ==> hooks.live == old(hooks.live)
    ensures item != null ==> Created(hooks, item, one, Number(num, Saturate(num)))
    ensures Parents(parent, f)
  {
    AreAllocated(f);
    LastIsInside(f);
    label Before: item, one := CreateNumber(hooks, num);
    StaysBuilt@Before(f);
  }

  /** cJSON_AddItemToObject of cJSON_CreateString. `rest` is what is still to be added. */
  method AddString(hooks: Hooks, parent: N.Node, key: Text, value: Option<Text>, ghost f: Forest, ghost rest: Items)
    returns (ghost g: Forest)
    requires Parents(parent, f) && Owned(f) <= hooks.live && (parent as object) in hooks.live
    modifies hooks, parent`child, S.Spine(f)`next, S.Spine(f)`prev
    ensures hooks.calls > old(hooks.calls) && Filled(hooks, parent, f, g)
    ensures hooks.Granted(old(hooks.calls)) ==> Append(ItemsOf(g), rest) == Append(ItemsOf(f), Field(key, value, rest))
  {
    ghost var one;
    var item;
    item, one := CreateStringBeside(hooks, value, parent, f);
    g := AddItem(hooks, parent, key, item, f, one);
    AppendAssociative(ItemsOf(f), Cons(Some(key), String(value), Nil), rest);
  }

  /** cJSON_AddItemToObject of cJSON_CreateNumber, as the last member. */
  method AddNumber(hooks: Hooks, parent: N.Node, key: Text, num: real, ghost f: Forest) returns (ghost g: Forest)
    requires PlainInteger(num)
    requires Parents(parent, f) && Owned(f) <= hooks.live && (parent as object) in hooks.live
    modifies hooks, parent`child, S.Spine(f)`next, S.Spine(f)`prev
    ensures hooks.calls > old(hooks.calls) && Filled(hooks, parent, f, g)
    ensures hooks.Granted(old(hooks.calls)) ==>
              ItemsOf(g) == Append(ItemsOf(f), Cons(Some(key), Number(num, Saturate(num)), Nil))
  {
    ghost var one;
    var item;
    item, one := CreateNumberBeside(hooks, num, parent, f);
    g := AddItem(hooks, parent, key, item, f, one);
  }

  /** Two strings. */
  method AddStrings(hooks: Hooks, parent: N.Node, key: Text, value: Option<Text>, key': Text, value': Option<Text>,
                    ghost f: Forest, ghost rest: Items)
    returns (ghost g: Forest)
    requires Parents(parent, f) && Owned(f) <= hooks.live && (parent as object) in hooks.live
    modifies hooks, parent`child, S.Spine(f)`next, S.Spine(f)`prev
    ensures hooks.calls > old(hooks.calls) && Filled(hooks, parent, f, g)
    ensures hooks.Granted(old(hooks.calls)) ==>
              Append(ItemsOf(g), rest) == Append(ItemsOf(f), Field(key, value, Field(key', value', rest)))
  {
    ghost var mid := AddString(hooks, parent, key, value, f, Field(key', value', rest));
    g := AddString(hooks, parent, key', value', mid, rest);
  }

  /** The first four members of "fix.config". */
  method AddConfs(hooks: Hooks, parent: N.Node, fixed: Fixed, ghost rest: Items) returns (ghost g: Forest)
    requires Parents(parent, Empty) && (parent as object) in hooks.live
    modifies hooks, parent`child
    ensures hooks.calls > old(hooks.calls) && Filled(hooks, parent, Empty, g)
    ensures hooks.Granted(old(hooks.calls)) ==>
              Append(ItemsOf(g), rest) == Field(DRV_CONF, fixed.drvConf, Field(HWMON_CONF, fixed.hwmonConf,
                                            Field(DEVM_CONF, fixed.devmConf, Field(UPCFG_CONF, fixed.upcfgConf, rest))))
  {
    ghost var more := Field(DEVM_CONF, fixed.devmConf, Field(UPCFG_CONF, fixed.upcfgConf, rest));
    ghost var f := AddStrings(hooks, parent, DRV_CONF, fixed.drvConf, HWMON_CONF, fixed.hwmonConf, Empty, more);
    g := AddStrings(hooks, parent, DEVM_CONF, fixed.devmConf, UPCFG_CONF, fixed.upcfgConf, f, rest);
  }

  /** The last two. */
  method AddCustomer(hooks: Hooks, parent: N.Node, fixed: Fixed, ghost f: Forest, ghost code: Items) returns (ghost g: Forest)
    requires INT_MIN <= fixed.customerId <= INT_MAX
    requires Parents(parent, f) && Owned(f) <= hooks.live && (parent as object) in hooks.live
    requires code == Cons(Some(CUSTOMER_CODE), Number(fixed.customerId as real, Saturate(fixed.customerId as real)), Nil)
    modifies hooks, parent`child, S.Spine(f)`next, S.Spine(f)`prev
    ensures hooks.calls > old(hooks.calls) && Filled(hooks, parent, f, g)
    ensures hooks.Granted(old(hooks.calls)) ==>
              ItemsOf(g) == Append(ItemsOf(f), Field(CUSTOMER_NAME, fixed.customerName, code))
  {
    ghost var mid := AddString(hooks, parent, CUSTOMER_NAME, fixed.customerName, f, code);
    g := AddNumber(hooks, parent, CUSTOMER_CODE, fixed.customerId as real, mid);
  }

  /** The last four. */
  method AddPaths(hooks: Hooks, parent: N.Node, fixed: Fixed, ghost f: Forest, ghost code: Items) returns (ghost g: Forest)
    requires INT_MIN <= fixed.customerId <= INT_MAX
    requires Parents(parent, f) && Owned(f) <= hooks.live && (parent as object) in hooks.live
    requires code == Cons(Some(CUSTOMER_CODE), Number(fixed.customerId as real, Saturate(fixed.customerId as real)), Nil)
    modifies hooks, parent`child, S.Spine(f)`next, S.Spine(f)`prev
    ensures hooks.calls > old(hooks.calls) && Filled(hooks, parent, f, g)
    ensures hooks.Granted(old(hooks.calls)) ==>
              ItemsOf(g) == Append(ItemsOf(f), Field(UDS_FILE, fixed.udsFile,
                              Field(XLOG_PATH, fixed.xlogPath, Field(CUSTOMER_NAME, fixed.customerName, code))))
  {
    ghost var last := Field(CUSTOMER_NAME, fixed.customerName, code);
    ghost var mid := AddStrings(hooks, parent, UDS_FILE, fixed.udsFile, XLOG_PATH, fixed.xlogPath, f, last);
    g := AddCustomer(hooks, parent, fixed, mid, code);
  }

  /** The members of "fix.config". */
  method AddFixed(hooks: Hooks, parent: N.Node, fixed: Fixed) returns (ghost g: Forest)
    requires INT_MIN <= fixed.customerId <= INT_MAX
    requires Parents(parent, Empty) && (parent as object) in hooks.live
    modifies hooks, parent`child
    ensures hooks.calls > old(hooks.calls) && Filled(hooks, parent, Empty, g)
    ensures hooks.Granted(old(hooks.calls)) ==> ItemsOf(g) == FixedItems(fixed)
  {
    ghost var code := Cons(Some(CUSTOMER_CODE), Number(fixed.customerId as real, Saturate(fixed.customerId as real)), Nil);
    ghost var last := Field(CUSTOMER_NAME, fixed.customerName, code);
    ghost var more := Field(UDS_FILE, fixed.udsFile, Field(XLOG_PATH, fixed.xlogPath, last));
    ghost var f := AddConfs(hooks, parent, fixed, more);
    g := AddPaths(hooks, parent, fixed, f, code);
  }

  /** The last child of `root` is about to get children of its own. */
  ghost predicate LastOpen(root: N.Node, done: Forest, last: N.Node, info: Info, ns: seq<N.Node>)
    reads root, last, info.name, info.text, NodesOf(done), Blocks(done), ns
  {
    && S.ChildrenAre(root, ns) && ns == S.Spine(done) + [last] && Whole(done) && Records(last, info) && !info.isReference && Apart(last, info)
    && {last as object} + OwnBlocks(info) !! Owned(done) && (root as object) !in {last as object} + OwnBlocks(info) + Owned(done)
  }

  lemma {:induction false} OpenLast(root: N.Node, done: Forest, named: Forest)
    requires Parents(root, Joined(done, named)) && named.Grove? && named.kids.Empty? && named.rest.Empty?
    ensures LastOpen(root, done, named.node, named.info, S.Spine(done) + [named.node]) && Parents(named.node, Empty)
    ensures Owned(named) == {named.node as object} + OwnBlocks(named.info) && Owned(Joined(done, named)) == Owned(done) + Owned(named)
  {
    ParentsWhole(root, Joined(done, named));
    JoinedSets(done, named);
    WholeJoined(done, named);
    assert Open(named);
    OwnedByRoot(named.node, named.info, Empty);
    assert S.Spine(named) == [named.node];
  }

  lemma {:induction false} CloseLast(root: N.Node, done: Forest, last: N.Node, info: Info, g: Forest, ns: seq<N.Node>)
    requires LastOpen(root, done, last, info, ns) && Parents(last, g)
    requires Owned(g) !! {last as object, root} + OwnBlocks(info) + Owned(done)
    ensures var one := Grove(last, info, g, Empty);
      && Parents(root, Joined(done, one)) && Owned(one) == {last as object} + OwnBlocks(info) + Owned(g)
      && Owned(Joined(done, one)) == Owned(done) + Owned(one)
  {
    var one := Grove(last, info, g, Empty);
    OwnedByRoot(last, info, g);
    assert Whole(one) by {
      assert Open(g);
      assert Branches(one) && Separate(one) && Solid(one);
    }
    JoinedSets(done, one);
    JoinedWhole(done, one);
    assert S.Spine(one) == [last];
    WholeParents(root, Joined(done, one));
  }

  /** A new object without members. */
  lemma {:induction false} OpenRoot(root: N.Node, f: Forest)
    requires Single(root, f) && f.kids.Empty? && !f.info.isReference
    ensures Parents(root, Empty) && Rooting(root, f.info) && Owned(f) == {root as object} + OwnBlocks(f.info)
  {
    assert Open(f);
    OwnedByRoot(root, f.info, Empty);
  }

  ghost predicate Rooting(root: N.Node, info: Info)
    reads root, info.name, info.text
  {
    Records(root, info) && !info.isReference && Apart(root, info) && root.next == null
  }

  lemma {:induction false} CloseRoot(root: N.Node, info: Info, all: Forest)
    requires Rooting(root, info) && Parents(root, all) && {root as object} + OwnBlocks(info) !! Owned(all)
    ensures Single(root, Grove(root, info, all, Empty))
    ensures Owned(Grove(root, info, all, Empty)) == {root as object} + OwnBlocks(info) + Owned(all)
  {
    OwnedByRoot(root, info, all);
    Rooted(root, info, all);
  }

  twostate lemma WholeUntouched(f: Forest)
    requires Untouched(f) && old(Whole(f))
    ensures Whole(f)
  {
    assert Open(f);
  }

  /** Filling the last child leaves the others alone. */
  method FillFixed(hooks: Hooks, root: N.Node, last: N.Node, fixed: Fixed, ghost done: Forest, ghost info: Info, ghost ns: seq<N.Node>)
    returns (ghost g: Forest)
    requires INT_MIN <= fixed.customerId <= INT_MAX
    requires LastOpen(root, done, last, info, ns) && Parents(last, Empty) && (last as object) in hooks.live
    modifies hooks, last`child
    ensures LastOpen(root, done, last, info, ns)
    ensures hooks.calls > old(hooks.calls) && Filled(hooks, last, Empty, g)
    ensures hooks.Granted(old(hooks.calls)) ==> ItemsOf(g) == FixedItems(fixed)
  {
    AreAllocated(done);
    assert last !in NodesOf(done) by { assert Open(done); SolidNodes(done); }
    label Before: g := AddFixed(hooks, last, fixed);
    assert forall i {:trigger ns[i].next} :: 0 <= i < |ns| ==> ns[i].next == old(ns[i].next);
    assert forall i {:trigger ns[i].prev} :: 0 <= i < |ns| ==> ns[i].prev == old(ns[i].prev);
    assert S.ChildrenAre(root, ns) && Records(last, info);
    WholeUntouched@Before(done);
  }

  /** One more member of the root: all of it is new and live. */
  twostate predicate Extended(hooks: Hooks, root: N.Node, done: Forest, new all: Forest)
    reads hooks, root, NodesOf(all), Blocks(all)
  {
    && Parents(root, all) && Owned(done) <= Owned(all) && fresh(Owned(all) - Owned(done)) && Owned(all) <= hooks.live
    && old(hooks.live) <= hooks.live
    && (hooks.Granted(old(hooks.calls)) ==> hooks.live == old(hooks.live) + (Owned(all) - Owned(done)))
  }

  /** The last child with its children, as the last member of the root. */
  lemma {:induction false} CloseSection(root: N.Node, done: Forest, last: N.Node, info: Info, g: Forest, ns: seq<N.Node>, name: Text)
    returns (all: Forest)
    requires LastOpen(root, done, last, info, ns) && Parents(last, g)
    requires Owned(g) !! {last as object, root} + OwnBlocks(info) + Owned(done)
    requires info.nameText == Some(name) && info.kind == N.Object
    ensures Parents(root, all) && Owned(all) == Owned(done) + ({last as object} + OwnBlocks(info)) + Owned(g)
    ensures ItemsOf(all) == Append(ItemsOf(done), Cons(Some(name), Object(ItemsOf(g)), Nil))
    ensures Safe(ItemsOf(done)) && Safe(ItemsOf(g)) ==> Safe(ItemsOf(all))
  {
    CloseLast(root, done, last, info, g, ns);
    JoinedParts(done, Grove(last, info, g, Empty));
    all := Joined(done, Grove(last, info, g, Empty));
    if Safe(ItemsOf(done)) && Safe(ItemsOf(g)) { SafeAppend(ItemsOf(done), name, Object(ItemsOf(g))); }
  }

  /** "fix.config" gets its members. */
  method FixSection(hooks: Hooks, root: N.Node, last: N.Node, fixed: Fixed, ghost done: Forest, ghost named: Forest)
    returns (ghost all: Forest)
    requires INT_MIN <= fixed.customerId <= INT_MAX
    requires Parents(root, Joined(done, named)) && named.Grove? && named.node == last && named.kids.Empty? && named.rest.Empty?
    requires Owned(done) + Owned(named) <= hooks.live && (root as object) in hooks.live
    requires named.info.nameText == Some(FIX_CONFIG) && named.info.kind == N.Object
    modifies hooks, last`child
    ensures hooks.calls > old(hooks.calls) && Parents(root, all) && old(hooks.live) <= hooks.live && Owned(all) <= hooks.live
    ensures Owned(done) + Owned(named) <= Owned(all) && fresh(Owned(all) - (Owned(done) + Owned(named)))
    ensures Safe(ItemsOf(done)) ==> Safe(ItemsOf(all))
    ensures hooks.Granted(old(hooks.calls)) ==>
              && hooks.live == old(hooks.live) + (Owned(all) - (Owned(done) + Owned(named)))
              && ItemsOf(all) == Append(ItemsOf(done), Cons(Some(FIX_CONFIG), Object(FixedItems(fixed)), Nil))
  {
    OpenLast(root, done, named);
    all := FixOpened(hooks, root, last, fixed, done, named.info, S.Spine(done) + [last], Owned(done) + Owned(named));
  }

  /** The same behind the opening; `was` is what the root owned then. */
  method FixOpened(hooks: Hooks, root: N.Node, last: N.Node, fixed: Fixed, ghost done: Forest, ghost info: Info, ghost ns: seq<N.Node>,
                   ghost was: set<object>)
    returns (ghost all: Forest)
    requires INT_MIN <= fixed.customerId <= INT_MAX
    requires LastOpen(root, done, last, info, ns) && Parents(last, Empty) && info.nameText == Some(FIX_CONFIG) && info.kind == N.Object
    requires was == Owned(done) + ({last as object} + OwnBlocks(info)) && was <= hooks.live && (root as object) in hooks.live
    modifies hooks, last`child
    ensures hooks.calls > old(hooks.calls) && Parents(root, all) && old(hooks.live) <= hooks.live && Owned(all) <= hooks.live
    ensures was <= Owned(all) && fresh(Owned(all) - was)
    ensures Safe(ItemsOf(done)) ==> Safe(ItemsOf(all))
    ensures hooks.Granted(old(hooks.calls)) ==>
              && hooks.live == old(hooks.live) + (Owned(all) - was)
              && ItemsOf(all) == Append(ItemsOf(done), Cons(Some(FIX_CONFIG), Object(FixedItems(fixed)), Nil))
  {
    ghost var g := FillFixed(hooks, root, last, fixed, done, info, ns);
    all := CloseSection(root, done, last, info, g, ns, FIX_CONFIG);
  }

  /** "fix.config" with its members. */
  method AddFixSection(hooks: Hooks, root: N.Node, fixed: Fixed, ghost done: Forest) returns (ok: bool, ghost all: Forest)
    requires INT_MIN <= fixed.customerId <= INT_MAX
    requires Parents(root, done) && Owned(done) <= hooks.live && (root as object) in hooks.live
    modifies hooks, root`child, S.Spine(done)`next, S.Spine(done)`prev
    ensures hooks.calls > old(hooks.calls) && Extended(hooks, root, done, all) && (!ok ==> !hooks.Granted(old(hooks.calls)))
    ensures Safe(ItemsOf(done)) ==> Safe(ItemsOf(all))
    ensures hooks.Granted(old(hooks.calls)) ==>
              ItemsOf(all) == Append(ItemsOf(done), Cons(Some(FIX_CONFIG), Object(FixedItems(fixed)), Nil))
  {
    var last;
    ghost var named;
    last, named := AddObjectToObject(hooks, root, FIX_CONFIG, done);
    if last == null {
      return false, done;
    }
    all := FixSection(hooks, root, last, fixed, done, named);
    ok := true;
  }

  /** cJSON_Print. */
  method PrintTree(root: N.Node, hooks: Hooks, ghost f: Forest, ghost t: Json, ghost w: Text) returns (out: array?<byte>)
    requires Single(root, f) && t == TreeValue(f) && PlainNumbers(t) && Printable(t) && w == Rendered(t, true, 0)
    modifies hooks
    ensures Single(root, f) && hooks.calls > old(hooks.calls)
    ensures out != null <==> |w| + 2 <= INT_MAX && hooks.Granted(old(hooks.calls))
    ensures out != null ==> fresh(out) && out[..] == w + [NUL] && hooks.live == old(hooks.live) + {out}
    ensures out == null ==> hooks.live == old(hooks.live)
  {
    AreAllocated(f);
    assert IsTree(root, f) by { assert Open(f); assert Shown(f.kids); }
    label Before: out := PrintApi.Print(root, true, hooks, f, t);
    StaysBuilt@Before(f);
  }

  /** The end of daemon_store_script: the tree is printed, if it was made, and released. */
  method PrintAndDelete(ok: bool, root: N.Node, hooks: Hooks, ghost f: Forest, ghost t: Json, ghost w: Text)
    returns (out: array?<byte>)
    requires Single(root, f) && t == TreeValue(f) && PlainNumbers(t) && Printable(t) && w == Rendered(t, true, 0)
    requires Owned(f) <= hooks.live
    modifies hooks
    ensures hooks.calls >= old(hooks.calls)
    ensures out != null <==> ok && |w| + 2 <= INT_MAX && hooks.Granted(old(hooks.calls))
    ensures out != null ==> fresh(out) && out[..] == w + [NUL] && hooks.live == old(hooks.live) - Owned(f) + {out}
    ensures out == null ==> hooks.live == old(hooks.live) - Owned(f)
  {
    out := null;
    if ok {
      out := PrintTree(root, hooks, f, t, w);
    }
    DeleteSingle(hooks, root, f);
  }

  // ---------- the list as it is walked and changed in place ----------

  /** DYN_CFG_S. */
  class DynCfg {
    var next: DynCfg?
    const key: Text
    var value: Text

    constructor (key: Text, value: Text, next: DynCfg?)
      ensures this.key == key && this.value == value && this.next == next
    {
      this.key, this.value, this.next := key, value, next;
    }
  }

  /** The global sys_conf. */
  class SysConfParam {
    var fixed: Fixed
    var dynCfg: DynCfg?
    ghost var nodes: seq<DynCfg>

    constructor ()
      ensures Valid() && Value() == Conf(ZEROED, []) && fresh(nodes)
    {
      fixed, dynCfg, nodes := ZEROED, null, [];
    }

    ghost predicate Valid()
      reads this, nodes
    {
      && dynCfg == (if nodes == [] then null else nodes[0])
      && (forall i, j :: 0 <= i < j < |nodes| ==> nodes[i] != nodes[j])
      && (forall i {:trigger nodes[i].next} :: 0 <= i < |nodes| ==>
            nodes[i].next == if i + 1 < |nodes| then nodes[i + 1] else null)
    }

    ghost function EntriesFrom(i: nat): (entries: seq<Entry>)
      requires i <= |nodes|
      reads this, nodes
      decreases |nodes| - i
    {
      if i == |nodes| then [] else [(nodes[i].key, nodes[i].value)] + EntriesFrom(i + 1)
    }

    ghost function Value(): Conf
      reads this, nodes
    {
      Conf(fixed, EntriesFrom(0))
    }

    /** sys_conf_get. */
    method Get(key: Option<Text>) returns (value: Option<Text>)
      requires Valid()
      ensures value == if key.None? then None else Lookup(Value().entries, key.value)
    {
      if key.None? {
        return None;
      }
      var p := dynCfg;
      ghost var i := 0;
      while p != null
        invariant i <= |nodes| && p == if i < |nodes| then nodes[i] else null
        invariant Lookup(EntriesFrom(i), key.value) == Lookup(EntriesFrom(0), key.value)
        decreases |nodes| - i
      {
        if key.value == p.key {
          return Some(p.value);
        }
        p, i := p.next, i + 1;
      }
      value := None;
    }

    /** sys_conf_set; `refused` says that malloc gives no node. */
    method Set(key: Option<Text>, value: Option<Text>, refused: bool) returns (ok: bool)
      requires Valid()
      modifies this, nodes
      ensures Valid() && fresh(set n <- nodes | n !in old(nodes))
      ensures ok <==> key.Some? && value.Some? && (refused ==> Lookup(old(Value()).entries, key.value).Some?)
      ensures Value() == old(Value()).(entries :=
                if ok then Updated(old(Value()).entries, key.value, value.value) else old(Value()).entries)
    {
      if key.None? || value.None? {
        return false;
      }
      var p := dynCfg;
      ghost var i := 0;
      while p != null
        invariant i <= |nodes| && p == if i < |nodes| then nodes[i] else null
        invariant forall k {:trigger nodes[k].key} :: 0 <= k < i ==> nodes[k].key != key.value
        decreases |nodes| - i
      {
        if key.value == p.key {
          p.value := value.value;
          OverwrittenInPlace(0, i, key.value, value.value);
          return true;
        }
        p, i := p.next, i + 1;
      }
      NotFound(0, key.value);
      if refused {
        return false;
      }
      Push(key.value, value.value);
      ok := true;
    }

    /** The members of "dyn.config", in the order of the list. */
    method AddEntries(hooks: Hooks, parent: N.Node, ghost all: Items) returns (ghost g: Forest)
      requires Valid() && all == EntryItems(EntriesFrom(0)) && Parents(parent, Empty) && (parent as object) in hooks.live
      modifies hooks, parent`child
      ensures hooks.calls >= old(hooks.calls) && Filled(hooks, parent, Empty, g)
      ensures hooks.Granted(old(hooks.calls)) ==> ItemsOf(g) == all
    {
      var p := dynCfg;
      ghost var i := 0;
      ghost var left := all;
      g := Empty;
      while p != null
        invariant i <= |nodes| && p == if i < |nodes| then nodes[i] else null
        invariant hooks.calls >= old(hooks.calls) && Parents(parent, g) && Safe(ItemsOf(g))
        invariant fresh(Owned(g)) && Owned(g) <= hooks.live && old(hooks.live) <= hooks.live
        invariant forall k {:trigger S.Spine(g)[k]} :: 0 <= k < |S.Spine(g)| ==> fresh(S.Spine(g)[k])
        invariant hooks.Granted(old(hooks.calls)) ==> hooks.live == old(hooks.live) + Owned(g) && Append(ItemsOf(g), left) == all
        invariant left == EntryItems(EntriesFrom(i))
        decreases |nodes| - i
      {
        g, left := AddEntry(hooks, parent, p, i, g, left);
        p, i := p.next, i + 1;
      }
      AppendNil(ItemsOf(g));
    }

    /** One turn of the loop. */
    method AddEntry(hooks: Hooks, parent: N.Node, p: DynCfg, ghost i: nat, ghost f: Forest, ghost left: Items)
      returns (ghost g: Forest, ghost rest: Items)
      requires i < |nodes| && p == nodes[i] && left == EntryItems(EntriesFrom(i))
      requires Parents(parent, f) && Owned(f) <= hooks.live && (parent as object) in hooks.live
      modifies hooks, parent`child, S.Spine(f)`next, S.Spine(f)`prev
      ensures hooks.calls > old(hooks.calls) && Filled(hooks, parent, f, g)
      ensures rest == EntryItems(EntriesFrom(i + 1))
      ensures hooks.Granted(old(hooks.calls)) ==> Append(ItemsOf(g), rest) == Append(ItemsOf(f), left)
    {
      rest := EntriesParts(i);
      g := AddString(hooks, parent, p.key, Some(p.value), f, rest);
    }

    /** The items of the list from a node on. */
    lemma EntriesParts(i: nat) returns (rest: Items)
      requires i < |nodes|
      ensures rest == EntryItems(EntriesFrom(i + 1))
      ensures EntryItems(EntriesFrom(i)) == Field(nodes[i].key, Some(nodes[i].value), rest)
    {
      rest := EntryItems(EntriesFrom(i + 1));
      assert EntriesFrom(i)[1..] == EntriesFrom(i + 1);
    }

    method FillEntries(hooks: Hooks, root: N.Node, last: N.Node, ghost done: Forest, ghost info: Info, ghost ns: seq<N.Node>,
                       ghost items: Items)
      returns (ghost g: Forest)
      requires Valid() && items == EntryItems(EntriesFrom(0))
      requires LastOpen(root, done, last, info, ns) && Parents(last, Empty) && (last as object) in hooks.live
      modifies hooks, last`child
      ensures LastOpen(root, done, last, info, ns)
      ensures hooks.calls >= old(hooks.calls) && Filled(hooks, last, Empty, g)
      ensures hooks.Granted(old(hooks.calls)) ==> ItemsOf(g) == items
    {
      AreAllocated(done);
      assert last !in NodesOf(done) by { assert Open(done); SolidNodes(done); }
      label Before: g := AddEntries(hooks, last, items);
      assert forall i {:trigger ns[i].next} :: 0 <= i < |ns| ==> ns[i].next == old(ns[i].next);
      assert forall i {:trigger ns[i].prev} :: 0 <= i < |ns| ==> ns[i].prev == old(ns[i].prev);
      assert S.ChildrenAre(root, ns) && Records(last, info);
      WholeUntouched@Before(done);
    }

    /** "dyn.config" gets its members. */
    method DynSection(hooks: Hooks, root: N.Node, last: N.Node, ghost done: Forest, ghost named: Forest, ghost items: Items)
      returns (ghost all: Forest)
      requires Valid() && items == EntryItems(EntriesFrom(0)) && Parents(root, Joined(done, named))
      requires named.Grove? && named.node == last && named.kids.Empty? && named.rest.Empty?
      requires Owned(done) + Owned(named) <= hooks.live && (root as object) in hooks.live
      requires named.info.nameText == Some(DYN_CONFIG) && named.info.kind == N.Object
      modifies hooks, last`child
      ensures hooks.calls >= old(hooks.calls) && Parents(root, all) && old(hooks.live) <= hooks.live && Owned(all) <= hooks.live
      ensures Owned(done) + Owned(named) <= Owned(all) && fresh(Owned(all) - (Owned(done) + Owned(named)))
      ensures Safe(ItemsOf(done)) ==> Safe(ItemsOf(all))
      ensures hooks.Granted(old(hooks.calls)) ==>
                && hooks.live == old(hooks.live) + (Owned(all) - (Owned(done) + Owned(named)))
                && ItemsOf(all) == Append(ItemsOf(done), Cons(Some(DYN_CONFIG), Object(items), Nil))
    {
      OpenLast(root, done, named);
      all := DynOpened(hooks, root, last, done, named.info, S.Spine(done) + [last], Owned(done) + Owned(named), items);
    }

    /** The same behind the opening; `was` is what the root owned then. */
    method DynOpened(hooks: Hooks, root: N.Node, last: N.Node, ghost done: Forest, ghost info: Info, ghost ns: seq<N.Node>,
                     ghost was: set<object>, ghost items: Items)
      returns (ghost all: Forest)
      requires Valid() && items == EntryItems(EntriesFrom(0))
      requires LastOpen(root, done, last, info, ns) && Parents(last, Empty) && info.nameText == Some(DYN_CONFIG) && info.kind == N.Object
      requires was == Owned(done) + ({last as object} + OwnBlocks(info)) && was <= hooks.live && (root as object) in hooks.live
      modifies hooks, last`child
      ensures hooks.calls >= old(hooks.calls) && Parents(root, all) && old(hooks.live) <= hooks.live && Owned(all) <= hooks.live
      ensures was <= Owned(all) && fresh(Owned(all) - was)
      ensures Safe(ItemsOf(done)) ==> Safe(ItemsOf(all))
      ensures hooks.Granted(old(hooks.calls)) ==>
                && hooks.live == old(hooks.live) + (Owned(all) - was)
                && ItemsOf(all) == Append(ItemsOf(done), Cons(Some(DYN_CONFIG), Object(items), Nil))
    {
      ghost var g := FillEntries(hooks, root, last, done, info, ns, items);
      all := CloseSection(root, done, last, info, g, ns, DYN_CONFIG);
    }

    /** "dyn.config" with its members. */
    method AddDynSection(hooks: Hooks, root: N.Node, ghost done: Forest, ghost items: Items) returns (ok: bool, ghost all: Forest)
      requires Valid() && items == EntryItems(EntriesFrom(0))
      requires Parents(root, done) && Owned(done) <= hooks.live && (root as object) in hooks.live
      modifies hooks, root`child, S.Spine(done)`next, S.Spine(done)`prev
      ensures hooks.calls > old(hooks.calls) && Extended(hooks, root, done, all) && (!ok ==> !hooks.Granted(old(hooks.calls)))
      ensures Safe(ItemsOf(done)) ==> Safe(ItemsOf(all))
      ensures hooks.Granted(old(hooks.calls)) ==>
                ItemsOf(all) == Append(ItemsOf(done), Cons(Some(DYN_CONFIG), Object(items), Nil))
    {
      var last;
      ghost var named;
      label Before: last, named := AddObjectToObject(hooks, root, DYN_CONFIG, done);
      if last == null {
        return false, done;
      }
      SameEntries@Before(0);
      all := DynSection(hooks, root, last, done, named, items);
      ok := true;
    }

    /** The members of the root, as far as memory goes; `ok` says whether the tree is printed at all. */
    method AddSections(hooks: Hooks, root: N.Node, ghost items: Items) returns (ok: bool, ghost all: Forest)
      requires Valid() && items == EntryItems(EntriesFrom(0)) && INT_MIN <= fixed.customerId <= INT_MAX
      requires Parents(root, Empty) && (root as object) in hooks.live
      modifies hooks, root`child
      ensures hooks.calls > old(hooks.calls) && Extended(hooks, root, Empty, all) && (!ok ==> !hooks.Granted(old(hooks.calls)))
      ensures Safe(ItemsOf(all))
      ensures hooks.Granted(old(hooks.calls)) ==>
                ItemsOf(all) == Cons(Some(FIX_CONFIG), Object(FixedItems(fixed)), Cons(Some(DYN_CONFIG), Object(items), Nil))
    {
      ghost var first;
      label Before: ok, first := AddFixSection(hooks, root, fixed, Empty);
      all := first;
      if ok {
        SameEntries@Before(0);
        S.SpineIsOwned(first);
        assert forall i {:trigger S.Spine(first)[i]} :: 0 <= i < |S.Spine(first)| ==> S.Spine(first)[i] in S.Spine(first);
        ok, all := AddDynSection(hooks, root, first, items);
      }
    }

    /** The tree that is printed. */
    method BuildDocument(hooks: Hooks) returns (ok: bool, root: N.Node?, ghost f: Forest)
      requires Valid() && INT_MIN <= fixed.customerId <= INT_MAX
      modifies hooks
      ensures hooks.calls > old(hooks.calls) && (!ok || root == null ==> !hooks.Granted(old(hooks.calls)))
      ensures root != null ==> Single(root, f) && fresh(Owned(f)) && Owned(f) <= hooks.live && old(hooks.live) <= hooks.live
      ensures root != null ==> PlainNumbers(TreeValue(f)) && Printable(TreeValue(f))
      ensures root != null && hooks.Granted(old(hooks.calls)) ==>
                TreeValue(f) == Document(fixed, EntriesFrom(0)) && hooks.live == old(hooks.live) + Owned(f)
    {
      ok := false;
      root, f := CreateObject(hooks);
      if root == null {
        return;
      }
      ok, f := FillRoot(hooks, root, f, Document(fixed, EntriesFrom(0)));
    }

    /** The part behind the creation of the root. */
    method FillRoot(hooks: Hooks, root: N.Node, ghost one: Forest, ghost doc: Json) returns (ok: bool, ghost f: Forest)
      requires Valid() && doc == Document(fixed, EntriesFrom(0)) && INT_MIN <= fixed.customerId <= INT_MAX
      requires Single(root, one) && TreeValue(one) == Object(Nil) && one.kids.Empty? && !one.info.isReference && Owned(one) <= hooks.live
      modifies hooks, root`child
      ensures hooks.calls > old(hooks.calls) && (!ok ==> !hooks.Granted(old(hooks.calls)))
      ensures Single(root, f) && Owned(one) <= Owned(f) && fresh(Owned(f) - Owned(one))
      ensures Owned(f) <= hooks.live && old(hooks.live) <= hooks.live
      ensures PlainNumbers(TreeValue(f)) && Printable(TreeValue(f))
      ensures hooks.Granted(old(hooks.calls)) ==>
                TreeValue(f) == doc && hooks.live == old(hooks.live) + (Owned(f) - Owned(one))
    {
      OpenRoot(root, one);
      ghost var all;
      ok, all := AddSections(hooks, root, EntryItems(EntriesFrom(0)));
      CloseRoot(root, one.info, all);
      f := Grove(root, one.info, all, Empty);
    }

    /** daemon_store_script up to write_file, which is given the text before the NUL. */
    method StoreScript(hooks: Hooks) returns (out: array?<byte>)
      requires Valid() && INT_MIN <= fixed.customerId <= INT_MAX
      modifies hooks
      ensures hooks.calls > old(hooks.calls)
      ensures hooks.Granted(old(hooks.calls)) ==>
                && (out != null <==> |Saved(Value())| + 2 <= INT_MAX)
                && (out != null ==> out[..] == Saved(Value()) + [NUL])
                && hooks.live == if out != null then old(hooks.live) + {out} else old(hooks.live)
    {
      var ok, root;
      ghost var f;
      ok, root, f := BuildDocument(hooks);
      if root == null {
        return null;
      }
      ghost var t := TreeValue(f);
      out := PrintAndDelete(ok, root, hooks, f, t, Rendered(t, true, 0));
    }

    /** daemon_load_script; None stands for a file that cannot be read, and malloc gives `room` nodes. */
    method LoadScript(file: Option<Text>, room: nat) returns (ok: bool)
      requires Valid()
      modifies this
      ensures Valid()
      ensures ok <==> file.Some? && |file.value| >= 2
      ensures Value() == if ok then Loaded(file.value, old(Value()), room) else old(Value())
    {
      if file.None? || |file.value| < 2 {
        return false;
      }
      ok := true;
      var parsed := G.ParseText(file.value + [NUL], false);
      if parsed.Error? {
        return;
      }
      fixed, dynCfg, nodes := ZEROED, null, [];
      var children := ChildrenOf(parsed.value);
      var list := C.Find(children, FIX_CONFIG, false);
      if list.None? {
        return;
      }
      LoadFields(ChildrenOf(list.value));
      list := C.Find(children, DYN_CONFIG, false);
      if list.None? {
        return;
      }
      LoadList(ChildrenOf(list.value), room);
    }

    /** The loop over "fix.config". */
    method LoadFields(items: Items)
      modifies this`fixed
      ensures fixed == LoadFixed(items, old(fixed))
    {
      var left := items;
      while left.Cons?
        invariant LoadFixed(left, fixed) == LoadFixed(items, old(fixed))
        decreases left
      {
        if left.name.Some? {
          fixed := SetField(fixed, left.name.value, left.head);
        }
        left := left.tail;
      }
    }

    /** The loop over "dyn.config". */
    method LoadList(items: Items, room: nat)
      requires Valid()
      modifies this`dynCfg, this`nodes
      ensures Valid() && EntriesFrom(0) == LoadEntries(items, old(EntriesFrom(0)), room)
    {
      var left, more := items, room;
      while left.Cons?
        invariant Valid() && LoadEntries(left, EntriesFrom(0), more) == LoadEntries(items, old(EntriesFrom(0)), room)
        decreases left
      {
        if left.name.Some? {
          if more == 0 {
            return;
          }
          var (key, value) := EntryOf(left.name.value, left.head);
          Push(key, value);
          more := more - 1;
        }
        left := left.tail;
      }
    }

    /** A new node in front of the list. */
    method Push(key: Text, value: Text)
      requires Valid()
      modifies this`dynCfg, this`nodes
      ensures Valid() && fresh(set n <- nodes | n !in old(nodes))
      ensures EntriesFrom(0) == [(key, value)] + old(EntriesFrom(0))
    {
      var p := new DynCfg(key, value, dynCfg);
      dynCfg, nodes := p, [p] + nodes;
      Prepended(0);
    }

    lemma {:induction false} NotFound(from: nat, key: Text)
      requires from <= |nodes|
      requires forall k {:trigger nodes[k].key} :: from <= k < |nodes| ==> nodes[k].key != key
      ensures Lookup(EntriesFrom(from), key) == None
      decreases |nodes| - from
    {
      if from < |nodes| { NotFound(from + 1, key); }
    }

    /** Only the value of the first node with the key has changed. */
    twostate lemma {:induction false} OverwrittenInPlace(from: nat, new i: nat, new key: Text, new value: Text)
      requires nodes == old(nodes) && from <= i < |nodes| && nodes[i].key == key && nodes[i].value == value
      requires forall k {:trigger nodes[k].key} :: from <= k < i ==> nodes[k].key != key
      requires forall k {:trigger nodes[k].value} :: from <= k < |nodes| && k != i ==> nodes[k].value == old(nodes[k].value)
      ensures Lookup(old(EntriesFrom(from)), key).Some?
      ensures EntriesFrom(from) == Overwritten(old(EntriesFrom(from)), key, value)
      decreases i - from
    {
      if from < i {
        OverwrittenInPlace(from + 1, i, key, value);
      } else {
        SameEntries(i + 1);
      }
    }

    twostate lemma {:induction false} SameEntries(from: nat)
      requires nodes == old(nodes) && from <= |nodes|
      requires forall k {:trigger nodes[k].value} :: from <= k < |nodes| ==> nodes[k].value == old(nodes[k].value)
      ensures EntriesFrom(from) == old(EntriesFrom(from))
      decreases |nodes| - from
    {
      if from < |nodes| { SameEntries(from + 1); }
    }

    /** One node was put in front. */
    twostate lemma {:induction false} Prepended(from: nat)
      requires |nodes| == |old(nodes)| + 1 && nodes[1..] == old(nodes) && from <= |old(nodes)|
      requires forall n <- old(nodes) :: n.value == old(n.value)
      ensures EntriesFrom(from + 1) == old(EntriesFrom(from))
      decreases |old(nodes)| - from
    {
      if from < |old(nodes)| {
        assert nodes[from + 1] == nodes[1..][from];
        Prepended(from + 1);
      }
    }
  }
}
