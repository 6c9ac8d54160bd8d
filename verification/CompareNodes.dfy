/** get_object_item and cJSON_Compare as they walk the nodes of two trees, which may share some. */
module CompareNodes {
  import opened Bytes
  import opened JsonValue
  import opened Trees
  import C = Compare
  import N = Nodes

  // ---------- strings ----------

  function LowerByte(c: byte): byte { if c == NUL then NUL else Lower(c) }

  /** strcmp and case_insensitive_strcmp, of which only the sign 0 is used. */
  method SameString(a: array<byte>, b: array<byte>, caseSensitive: bool, ghost s: Text, ghost t: Text)
    returns (same: bool)
    requires Spells(a, Some(s)) && Spells(b, Some(t))
    ensures same <==> C.SameName(s, t, caseSensitive)
  {
    var i := 0;
    while if caseSensitive then a[i] == b[i] else LowerByte(a[i]) == LowerByte(b[i])
      invariant i <= |s| && i <= |t|
      invariant forall k :: 0 <= k < i ==> if caseSensitive then s[k] == t[k] else Lower(s[k]) == Lower(t[k])
      decreases |s| - i
    {
      assert i < |s| ==> a[..|s|][i] == s[i];
      assert i < |t| ==> b[..|t|][i] == t[i];
      if a[i] == NUL {
        assert LowerText(s) == LowerText(t) || caseSensitive;
        return true;
      }
      i := i + 1;
    }
    assert i < |s| ==> a[..|s|][i] == s[i];
    assert i < |t| ==> b[..|t|][i] == t[i];
    same := false;
  }

  /** get_object_item: the first child with that name. */
  method GetObjectItem(parent: N.Node?, name: array?<byte>, caseSensitive: bool, ghost f: Forest, ghost text: Option<Text>)
    returns (item: N.Node?, ghost at: Forest)
    requires parent != null ==> Shown(f) && parent.child == Head(f)
    requires Spells(name, text)
    ensures parent == null || name == null ==> item == null
    ensures parent != null && name != null ==>
              var r := C.Find(ItemsOf(f), text.value, caseSensitive);
              && (item != null <==> r.Some?)
              && (item != null ==>
                    && at.Grove? && at.node == item && Shown(at) && TreeValue(at) == r.value
                    && Count(at) <= Count(f) && NodesOf(at) <= NodesOf(f))
  {
    at := f;
    if parent == null || name == null {
      return null, at;
    }
    var current := parent.child;
    while current != null
      invariant Shown(at) && current == Head(at) && Count(at) <= Count(f) && NodesOf(at) <= NodesOf(f)
      invariant C.Find(ItemsOf(at), text.value, caseSensitive) == C.Find(ItemsOf(f), text.value, caseSensitive)
      decreases at
    {
      ShownRest(at);
      if current.name == null {
        if caseSensitive {
          return null, at;
        }
      } else {
        AreAllocated(at);
        label Here: var same := SameString(name, current.name, caseSensitive, text.value, at.info.nameText.value);
        StaysHeld@Here(at);
        if same {
          return current, at;
        }
        ShownRest(at);
      }
      current, at := current.next, at.rest;
    }
    item := null;
  }

  // ---------- one heap, one value ----------

  lemma SpellsOne(block: array?<byte>, s: Option<Text>, t: Option<Text>)
    requires Spells(block, s) && Spells(block, t)
    ensures s == t
  {
  }

  /** Two descriptions of the list that starts at one node give the same values. */
  lemma {:induction false} OneValue(f: Forest, g: Forest)
    requires Holds(f, null) && Holds(g, null) && Head(f) == Head(g)
    ensures ItemsOf(f) == ItemsOf(g)
  {
    if f.Grove? && g.Grove? {
      SpellsOne(f.info.name, f.info.nameText, g.info.nameText);
      SpellsOne(f.info.text, f.info.body, g.info.body);
      OneValue(f.kids, g.kids);
      OneValue(f.rest, g.rest);
    }
  }

  lemma OneNodeOneValue(f: Forest, g: Forest)
    requires f.Grove? && g.Grove? && f.node == g.node
    requires Records(f.node, f.info) && Records(g.node, g.info) && Shown(f.kids) && Shown(g.kids)
    requires f.node.child == Head(f.kids) == Head(g.kids)
    ensures TreeValue(f) == TreeValue(g)
  {
    assert Open(f.kids) && Open(g.kids);
    SpellsOne(f.info.text, f.info.body, g.info.body);
    OneValue(f.kids, g.kids);
  }

  // ---------- cJSON_Compare ----------

  /** The nodes of a tree, without the siblings of its root. */
  ghost function Reach(f: Forest): set<N.Node>
    requires f.Grove?
  {
    {f.node} + NodesOf(f.kids)
  }

  /**
   * The answer is that of the values, if the trees are apart from each other. Where they share a node
   * the shortcut may say true of it, which is the answer for the values if their names are distinct.
   */
  ghost predicate Decides(r: bool, x: Json, y: Json, cs: bool, apart: bool) {
    (C.Equal(x, y, cs) ==> r) && (r && (apart || (C.Sound(x, cs) && C.Sound(y, cs))) ==> C.Equal(x, y, cs))
  }

  /** Comparing in the other order gives the same answer, with repeated names and missing texts too. */
  lemma {:induction false} AnswerIsSymmetric(r: bool, q: bool, x: Json, y: Json, cs: bool, apart: bool)
    requires Decides(r, x, y, cs, apart) && Decides(q, y, x, cs, apart)
    requires apart || (C.Sound(x, cs) && C.Sound(y, cs))
    ensures r == q
  {
    C.Symmetric(x, y, cs);
  }

  /** cJSON_Compare. */
  method Compare(a: N.Node?, b: N.Node?, cs: bool, ghost f: Forest, ghost g: Forest) returns (r: bool)
    requires (a != null ==> IsTree(a, f)) && (b != null ==> IsTree(b, g))
    ensures a == null || b == null ==> !r
    ensures a != null && b != null ==> Decides(r, TreeValue(f), TreeValue(g), cs, Reach(f) !! Reach(g))
    decreases Count(f) - Count(Rest(f)) + Count(g) - Count(Rest(g)), 1
  {
    if a == null || b == null || a.kind != b.kind || a.kind == N.Kind.Invalid {
      return false;
    }
    if a == b {
      OneNodeOneValue(f, g);
      if C.Sound(TreeValue(f), cs) {
        C.Reflexive(TreeValue(f), cs);
      }
      return true;
    }
    match a.kind {
      case False => r := true;
      case True => r := true;
      case Null => r := true;
      case Number => r := C.CloseNumbers(a.valuedouble, b.valuedouble);
      case String => r := CompareTexts(a, b, f, g);
      case Raw => r := CompareTexts(a, b, f, g);
      case Array => r := CompareElements(a.child, b.child, cs, f.kids, g.kids);
      case Object => r := CompareMembers(a, b, cs, f, g);
    }
  }

  ghost function Rest(f: Forest): (r: Forest)
    ensures Count(f) >= Count(r)
  {
    if f.Empty? then Empty else f.rest
  }

  method CompareTexts(a: N.Node, b: N.Node, ghost f: Forest, ghost g: Forest) returns (r: bool)
    requires f.Grove? && g.Grove? && Records(a, f.info) && Records(b, g.info)
    ensures r <==> C.SameText(f.info.body, g.info.body)
  {
    if a.valuestring == null || b.valuestring == null {
      return false;
    }
    r := SameString(a.valuestring, b.valuestring, true, f.info.body.value, g.info.body.value);
  }

  /** The lists share no node, or no names are repeated in them. */
  ghost predicate Exact(f: Forest, g: Forest, xs: Items, ys: Items, cs: bool) {
    NodesOf(f) !! NodesOf(g) || (C.AllSound(xs, cs) && C.AllSound(ys, cs))
  }

  /** Two arrays. */
  method CompareElements(first: N.Node?, second: N.Node?, cs: bool, ghost f: Forest, ghost g: Forest) returns (r: bool)
    requires Shown(f) && Shown(g) && first == Head(f) && second == Head(g)
    ensures Decides(r, Array(ItemsOf(f)), Array(ItemsOf(g)), cs, NodesOf(f) !! NodesOf(g))
    decreases Count(f) + Count(g), 4
  {
    r := WalkElements(first, second, cs, f, g);
  }

  /** The loop over two arrays. */
  method WalkElements(first: N.Node?, second: N.Node?, cs: bool, ghost f: Forest, ghost g: Forest) returns (r: bool)
    requires Shown(f) && Shown(g) && first == Head(f) && second == Head(g)
    ensures C.EqualElements(ItemsOf(f), ItemsOf(g), cs) ==> r
    ensures r && Exact(f, g, ItemsOf(f), ItemsOf(g), cs) ==> C.EqualElements(ItemsOf(f), ItemsOf(g), cs)
    decreases Count(f) + Count(g), 3
  {
    var a, b := first, second;
    ghost var x, y, xs, ys := f, g, ItemsOf(f), ItemsOf(g);
    ghost var exact, equal := Exact(f, g, xs, ys, cs), C.EqualElements(xs, ys, cs);
    while a != null && b != null
      invariant Shown(x) && Shown(y) && a == Head(x) && b == Head(y) && Count(x) <= Count(f) && Count(y) <= Count(g)
      invariant xs == ItemsOf(x) && ys == ItemsOf(y) && (exact ==> Exact(x, y, xs, ys, cs))
      invariant (exact && C.EqualElements(xs, ys, cs) ==> equal) && (equal ==> C.EqualElements(xs, ys, cs))
      decreases x
    {
      var same := CompareHeads(a, b, cs, x, y, xs, ys);
      if !same {
        return false;
      }
      a, b, x, y, xs, ys := a.next, b.next, x.rest, y.rest, xs.tail, ys.tail;
    }
    r := a == b;
  }

  /** One turn of the loop: the first elements; both lists can be followed further. */
  method CompareHeads(a: N.Node, b: N.Node, cs: bool, ghost x: Forest, ghost y: Forest, ghost xs: Items, ghost ys: Items)
    returns (r: bool)
    requires Shown(x) && Shown(y) && x.Grove? && y.Grove? && a == x.node && b == y.node && xs == ItemsOf(x) && ys == ItemsOf(y)
    ensures xs.Cons? && ys.Cons? && xs.tail == ItemsOf(x.rest) && ys.tail == ItemsOf(y.rest)
    ensures C.EqualElements(xs, ys, cs) ==> r && C.EqualElements(xs.tail, ys.tail, cs)
    ensures r && Exact(x, y, xs, ys, cs) && C.EqualElements(xs.tail, ys.tail, cs) ==> C.EqualElements(xs, ys, cs)
    ensures Exact(x, y, xs, ys, cs) ==> Exact(x.rest, y.rest, xs.tail, ys.tail, cs)
    ensures Shown(x.rest) && Shown(y.rest) && a.next == Head(x.rest) && b.next == Head(y.rest)
    ensures Count(x.rest) <= Count(x) && Count(y.rest) <= Count(y)
    decreases Count(x) + Count(y), 2
  {
    ShownRest(x);
    ShownRest(y);
    AreAllocated(x);
    AreAllocated(y);
    label Here: r := Compare(a, b, cs, x, y);
    StaysHeld@Here(x.rest);
    StaysHeld@Here(y.rest);
  }

  lemma {:induction false} FoundIsSound(items: Items, name: Text, cs: bool)
    requires C.AllSound(items, cs) && C.Find(items, name, cs).Some?
    ensures C.Sound(C.Find(items, name, cs).value, cs)
  {
    if !(items.name.Some? && C.SameName(name, items.name.value, cs)) { FoundIsSound(items.tail, name, cs); }
  }

  /** One of the two loops over objects: each child is looked up by its name in the other object. */
  method MembersIn(first: N.Node?, other: N.Node, cs: bool, ghost f: Forest, ghost g: Forest) returns (r: bool)
    requires Shown(f) && Shown(g) && first == Head(f) && other.child == Head(g)
    ensures C.AllIn(ItemsOf(f), ItemsOf(g), cs) ==> r
    ensures NodesOf(f) !! NodesOf(g) || (C.AllSound(ItemsOf(f), cs) && C.AllSound(ItemsOf(g), cs)) ==>
              r ==> C.AllIn(ItemsOf(f), ItemsOf(g), cs)
    decreases Count(f) + Count(g), 3
  {
    var element := first;
    ghost var x := f;
    AreAllocated(g);
    while element != null
      invariant Shown(x) && Shown(g) && element == Head(x) && Count(x) <= Count(f)
      invariant C.AllIn(ItemsOf(f), ItemsOf(g), cs) ==> C.AllIn(ItemsOf(x), ItemsOf(g), cs)
      invariant NodesOf(x) <= NodesOf(f) && (C.AllSound(ItemsOf(f), cs) ==> C.AllSound(ItemsOf(x), cs))
      invariant NodesOf(f) !! NodesOf(g) || (C.AllSound(ItemsOf(f), cs) && C.AllSound(ItemsOf(g), cs)) ==>
                  C.AllIn(ItemsOf(x), ItemsOf(g), cs) ==> C.AllIn(ItemsOf(f), ItemsOf(g), cs)
      decreases x
    {
      ShownRest(x);
      AreAllocated(x);
      label Here: var same := MemberIn(element, other, cs, x, g);
      StaysHeld@Here(x.rest);
      StaysHeld@Here(g);
      if !same {
        return false;
      }
      element, x := element.next, x.rest;
    }
    r := true;
  }

  method MemberIn(element: N.Node, other: N.Node, cs: bool, ghost x: Forest, ghost g: Forest) returns (r: bool)
    requires x.Grove? && x.node == element && Shown(x) && Shown(g) && other.child == Head(g)
    ensures var name, found := x.info.nameText, C.Find(ItemsOf(g), if x.info.nameText.Some? then x.info.nameText.value else [], cs);
      && (name.None? || found.None? ==> !r)
      && (name.Some? && found.Some? ==>
            && (C.Equal(TreeValue(x), found.value, cs) ==> r)
            && (r && (Reach(x) !! NodesOf(g) || (C.Sound(TreeValue(x), cs) && C.AllSound(ItemsOf(g), cs))) ==>
                  C.Equal(TreeValue(x), found.value, cs)))
    decreases Count(x) + Count(g), 2
  {
    ShownRest(x);
    AreAllocated(x);
    var item;
    ghost var at;
    label Here: item, at := GetObjectItem(other, element.name, cs, g, x.info.nameText);
    if item == null {
      return false;
    }
    StaysHeld@Here(x);
    ShownRest(x);
    ShownRest(at);
    r := Compare(element, item, cs, x, at);
    if C.AllSound(ItemsOf(g), cs) {
      FoundIsSound(ItemsOf(g), x.info.nameText.value, cs);
    }
  }

  /** Both loops over objects: the second one keeps a part of `b` from passing for all of it. */
  method CompareMembers(a: N.Node, b: N.Node, cs: bool, ghost f: Forest, ghost g: Forest) returns (r: bool)
    requires IsTree(a, f) && IsTree(b, g)
    ensures Decides(r, Object(ItemsOf(f.kids)), Object(ItemsOf(g.kids)), cs, NodesOf(f.kids) !! NodesOf(g.kids))
    decreases Count(f.kids) + Count(g.kids), 4
  {
    AreAllocated(f.kids);
    AreAllocated(g.kids);
    label First: r := MembersIn(a.child, b, cs, f.kids, g.kids);
    if r {
      StaysHeld@First(f.kids);
      StaysHeld@First(g.kids);
      r := MembersIn(b.child, a, cs, g.kids, f.kids);
    }
  }

  /** A recursive copy denotes the same value, and compares equal exactly if the original is consistent. */
  lemma {:induction false} CopyIsEqual(f: Forest, g: Forest, cs: bool)
    requires f.Grove? && g.Grove? && Copied(f, g)
    ensures TreeValue(g) == TreeValue(f)
    ensures C.Equal(TreeValue(f), TreeValue(g), cs) <==> C.Consistent(TreeValue(f), cs)
  {
    CopiedShowsTheSame(f.kids, g.kids);
    C.EqualToItself(TreeValue(f), cs);
  }
}
