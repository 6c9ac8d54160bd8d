/** Which heap a tree of nodes occupies and what it denotes; releasing and copying trees. */
module Trees {
  import opened Bytes
  import opened JsonValue
  import opened Memory
  import N = Nodes

  /** What a node records besides its links; a text with the block that holds it. */
  datatype Info = Info(
    kind: N.Kind, isReference: bool, nameIsConst: bool, name: array?<byte>, nameText: Option<Text>,
    text: array?<byte>, body: Option<Text>, value: real, intValue: int)

  /** A list of siblings: the first node, what it records, its children and its later siblings. */
  datatype Forest = Empty | Grove(node: N.Node, info: Info, kids: Forest, rest: Forest)

  ghost function Head(f: Forest): N.Node? { if f.Empty? then null else f.node }

  ghost function Last(f: Forest): N.Node
    requires f.Grove?
  {
    if f.rest.Empty? then f.node else Last(f.rest)
  }

  /** The block holds the text and its NUL; NULL holds none. */
  ghost predicate Spells(block: array?<byte>, text: Option<Text>)
    reads block
  {
    if block == null then text == None
    else text.Some? && |text.value| < block.Length && block[..|text.value|] == text.value && block[|text.value|] == NUL
  }

  ghost predicate Records(node: N.Node, info: Info)
    reads node, info.name, info.text
  {
    && node.kind == info.kind && node.isReference == info.isReference && node.nameIsConst == info.nameIsConst
    && node.name == info.name && Spells(info.name, info.nameText)
    && node.valuestring == info.text && Spells(info.text, info.body)
    && node.valuedouble == info.value && node.valueint == info.intValue
  }

  ghost function NodesOf(f: Forest): set<N.Node> {
    match f case Empty => {} case Grove(node, _, kids, rest) => {node} + NodesOf(kids) + NodesOf(rest)
  }

  ghost function BlocksOf(info: Info): set<array<byte>> {
    (if info.name != null then {info.name} else {}) + (if info.text != null then {info.text} else {})
  }

  ghost function Blocks(f: Forest): set<array<byte>> {
    match f case Empty => {} case Grove(_, info, kids, rest) => BlocksOf(info) + Blocks(kids) + Blocks(rest)
  }

  /** The next and child links and the records of a list whose last node is followed by `end`. */
  ghost predicate Holds(f: Forest, end: N.Node?)
    reads NodesOf(f), Blocks(f)
  {
    match f
    case Empty => true
    case Grove(node, info, kids, rest) =>
      && Records(node, info) && node.child == Head(kids) && Holds(kids, null)
      && node.next == (if rest.Empty? then end else rest.node) && Holds(rest, end)
  }

  lemma {:induction false} AreAllocated(f: Forest)
    ensures forall n <- NodesOf(f) :: allocated(n)
    ensures forall b <- Blocks(f) :: allocated(b)
  {
    if f.Grove? {
      AreAllocated(f.kids);
      AreAllocated(f.rest);
    }
  }

  twostate lemma {:induction false} WereAllocated(f: Forest)
    ensures forall n <- NodesOf(f) :: old(allocated(n))
    ensures forall b <- Blocks(f) :: old(allocated(b))
  {
    if f.Grove? {
      WereAllocated(f.kids);
      WereAllocated(f.rest);
    }
  }

  /** The prev link of the head is the last node. */
  ghost predicate Ringed(f: Forest)
    reads NodesOf(f)
  {
    f.Grove? ==> f.node.prev == Last(f)
  }

  /** The prev links invert the next links, and every list of children is ringed. */
  ghost predicate Backs(f: Forest)
    reads NodesOf(f)
  {
    f.Grove? ==>
      && Ringed(f.kids) && Backs(f.kids) && Backs(f.rest)
      && (f.rest.Grove? ==> f.rest.node in NodesOf(f.rest) && f.rest.node.prev == f.node)
  }

  // ---------- ownership ----------

  ghost function Own(block: array?<byte>, borrowed: bool): set<object> {
    if block == null || borrowed then {} else {block as object}
  }

  /** The blocks released with a node: not the name of a constant key, nor what a reference points to. */
  ghost function OwnBlocks(info: Info): set<object> {
    Own(info.name, info.nameIsConst) + Own(info.text, info.isReference)
  }

  /** What the first node of a list owns, with its children unless it only refers to them. */
  ghost function OwnedHere(f: Forest): set<object>
    requires f.Grove?
    decreases f, 0
  {
    {f.node as object} + OwnBlocks(f.info) + (if f.info.isReference then {} else Owned(f.kids))
  }

  ghost function Owned(f: Forest): set<object>
    decreases f, 1
  {
    if f.Empty? then {} else OwnedHere(f) + Owned(f.rest)
  }

  ghost predicate Apart(node: N.Node, info: Info) {
    && (info.name == null || info.nameIsConst || info.isReference || info.name != info.text)
    && (node as object) !in OwnBlocks(info)
  }

  /** Nothing is owned twice. */
  ghost predicate Separate(f: Forest) {
    f.Grove? ==>
      && Apart(f.node, f.info)
      && (!f.info.isReference ==> Separate(f.kids) && Owned(f.kids) !! {f.node as object} + OwnBlocks(f.info))
      && OwnedHere(f) !! Owned(f.rest) && Separate(f.rest)
  }

  // ---------- what a tree denotes ----------

  ghost function ValueOf(info: Info, kids: Items): Json {
    match info.kind
    case Invalid => Json.Invalid
    case False => Json.False
    case True => Json.True
    case Null => Json.Null
    case Number => Json.Number(info.value, info.intValue)
    case String => Json.String(info.body)
    case Array => Json.Array(kids)
    case Object => Json.Object(kids)
    case Raw => Json.Raw(info.body)
  }

  ghost function ItemsOf(f: Forest): Items {
    match f
    case Empty => Nil
    case Grove(_, info, kids, rest) => Cons(info.nameText, ValueOf(info, ItemsOf(kids)), ItemsOf(rest))
  }

  ghost function TreeValue(f: Forest): Json
    requires f.Grove?
  {
    ValueOf(f.info, ItemsOf(f.kids))
  }

  /** The number of nodes, which bounds the recursion. */
  ghost function Count(f: Forest): nat {
    match f case Empty => 0 case Grove(_, _, kids, rest) => 1 + Count(kids) + Count(rest)
  }

  // ---------- lists joined end to end ----------

  ghost function Joined(f: Forest, g: Forest): Forest {
    match f case Empty => g case Grove(node, info, kids, rest) => Grove(node, info, kids, Joined(rest, g))
  }

  lemma {:induction false} JoinedReach(f: Forest, g: Forest)
    ensures NodesOf(Joined(f, g)) == NodesOf(f) + NodesOf(g) && Blocks(Joined(f, g)) == Blocks(f) + Blocks(g)
    ensures Solid(f) && Solid(g) ==> Solid(Joined(f, g))
  {
    if f.Grove? { JoinedReach(f.rest, g); }
  }

  lemma {:induction false} JoinedParts(f: Forest, g: Forest)
    ensures Owned(Joined(f, g)) == Owned(f) + Owned(g)
    ensures ItemsOf(Joined(f, g)) == Append(ItemsOf(f), ItemsOf(g))
    ensures g.Grove? ==> Last(Joined(f, g)) == Last(g)
    ensures Head(Joined(f, g)) == if f.Grove? then f.node else Head(g)
  {
    if f.Grove? { JoinedParts(f.rest, g); }
  }

  lemma {:induction false} JoinedSeparate(f: Forest, g: Forest)
    requires Separate(f) && Separate(g) && Owned(f) !! Owned(g)
    ensures Separate(Joined(f, g))
  {
    if f.Grove? {
      JoinedParts(f.rest, g);
      JoinedSeparate(f.rest, g);
    }
  }

  lemma {:induction false} JoinedHolds(f: Forest, g: Forest, end: N.Node?)
    requires Holds(f, if g.Empty? then end else g.node) && Holds(g, end)
    ensures Holds(Joined(f, g), end)
  {
    if f.Grove? { JoinedHolds(f.rest, g, end); }
  }

  lemma {:induction false} JoinedBacks(f: Forest, g: Forest)
    requires Backs(f) && Backs(g)
    requires f.Grove? && g.Grove? ==> g.node.prev == Last(f)
    ensures Backs(Joined(f, g))
  {
    if f.Grove? { JoinedBacks(f.rest, g); }
  }

  /** No node only refers to a tree that another one owns. */
  ghost predicate Solid(f: Forest) {
    f.Grove? ==> !f.info.isReference && Solid(f.kids) && Solid(f.rest)
  }

  lemma {:induction false} SolidNodes(f: Forest)
    requires Solid(f)
    ensures forall n <- NodesOf(f) :: (n as object) in Owned(f)
  {
    if f.Grove? {
      SolidNodes(f.kids);
      SolidNodes(f.rest);
    }
  }

  /** Nodes that a list does not own are not among the objects its predicates read. */
  lemma {:induction false} Elsewhere(f: Forest, n: N.Node, m: N.Node)
    requires Solid(f) && (n as object) !in Owned(f) && (m as object) !in Owned(f)
    ensures n !in NodesOf(f) && m !in NodesOf(f) && forall b <- Blocks(f) :: (b as object) != n && (b as object) != m
  {
    SolidNodes(f);
  }

  lemma {:induction false} LastNode(f: Forest)
    requires f.Grove?
    ensures Last(f) in NodesOf(f) && (Last(f) as object) in Owned(f)
  {
    if f.rest.Grove? { LastNode(f.rest); }
  }


  // ---------- cJSON_Delete ----------

  /** Every owned block of the list is released exactly once, and nothing else is. */
  method Delete(hooks: Hooks, item: N.Node?, ghost f: Forest)
    requires Holds(f, null) && item == Head(f)
    requires Separate(f) && Owned(f) <= hooks.live
    modifies hooks
    ensures hooks.live == old(hooks.live) - Owned(f) && hooks.calls == old(hooks.calls)
    decreases f, 1
  {
    var item := item;
    ghost var left := f;
    while item != null
      invariant Holds(left, null) && item == Head(left) && Separate(left)
      invariant Owned(left) <= hooks.live && hooks.live - Owned(left) == old(hooks.live - Owned(f))
      invariant hooks.calls == old(hooks.calls)
      invariant left == f || left < f
      decreases left
    {
      var next := item.next;
      AreAllocated(left.rest);
      DeleteOne(hooks, item, left);
      item := next;
      left := left.rest;
    }
  }

  /** A node without children. */
  method DeleteLeaf(hooks: Hooks, item: N.Node, ghost info: Info)
    requires Records(item, info) && item.child == null && item.next == null
    requires Apart(item, info) && {item as object} + OwnBlocks(info) <= hooks.live
    modifies hooks
    ensures hooks.live == old(hooks.live) - ({item as object} + OwnBlocks(info)) && hooks.calls == old(hooks.calls)
  {
    Delete(hooks, item, Grove(item, info, Empty, Empty));
  }

  /** One turn of the loop: a node with its children and texts. */
  method DeleteOne(hooks: Hooks, item: N.Node, ghost f: Forest)
    requires Holds(f, null) && f.Grove? && item == f.node
    requires Separate(f) && OwnedHere(f) <= hooks.live
    modifies hooks
    ensures hooks.live == old(hooks.live) - OwnedHere(f) && hooks.calls == old(hooks.calls)
    decreases f, 0
  {
    if !item.isReference && item.child != null {
      Delete(hooks, item.child, f.kids);
    }
    if !item.isReference && item.valuestring != null {
      hooks.Deallocate(item.valuestring);
    }
    if !item.nameIsConst && item.name != null {
      hooks.Deallocate(item.name);
    }
    hooks.Deallocate(item);
  }

  // ---------- cJSON_Duplicate ----------

  /** The first node of a list by itself. */
  ghost function One(f: Forest): Forest
    requires f.Grove?
  {
    Grove(f.node, f.info, f.kids, Empty)
  }

  /** The same record in other blocks; only a constant name is shared, and a copy is no reference. */
  ghost predicate SameInfo(info: Info, copy: Info) {
    && copy == info.(isReference := false, name := copy.name, text := copy.text)
    && (info.nameIsConst ==> copy.name == info.name)
  }

  ghost predicate Copied(f: Forest, g: Forest) {
    match f
    case Empty => g.Empty?
    case Grove(_, info, kids, rest) =>
      g.Grove? && SameInfo(info, g.info) && Copied(kids, g.kids) && Copied(rest, g.rest)
  }

  lemma {:induction false} CopiedJoined(f: Forest, g: Forest, x: Forest, y: Forest)
    requires Copied(f, g) && Copied(x, y)
    ensures Copied(Joined(f, x), Joined(g, y))
  {
    if f.Grove? { CopiedJoined(f.rest, g.rest, x, y); }
  }

  /** A copy denotes the same values under the same names. */
  lemma {:induction false} CopiedShowsTheSame(f: Forest, g: Forest)
    requires Copied(f, g)
    ensures ItemsOf(g) == ItemsOf(f) && Solid(g)
  {
    if f.Grove? {
      CopiedShowsTheSame(f.kids, g.kids);
      CopiedShowsTheSame(f.rest, g.rest);
    }
  }

  /** cJSON_strdup, or the block itself when it is to be shared; NULL stays NULL. */
  method CopyText(hooks: Hooks, block: array?<byte>, share: bool, ghost text: Option<Text>)
    returns (ok: bool, copy: array?<byte>)
    requires Spells(block, text)
    modifies hooks
    ensures hooks.calls >= old(hooks.calls) && (ok <==> hooks.Granted(old(hooks.calls)))
    ensures if ok then Spells(copy, text) && fresh(Own(copy, share)) && (share ==> copy == block) else copy == null
    ensures hooks.live == old(hooks.live) + Own(copy, share)
  {
    if block == null || share {
      return true, block;
    }
    var length := 0;
    while block[length] != NUL
      invariant length <= |text.value| && block[..|text.value|] == text.value && block[|text.value|] == NUL
      decreases |text.value| - length
    {
      length := length + 1;
    }
    copy := hooks.Allocate(length + 1);
    ok := copy != null;
    if ok {
      forall i | 0 <= i <= length {
        copy[i] := block[i];
      }
    }
  }

  /** A node with nothing attached that owns its record, as cJSON_Duplicate builds it. */
  twostate predicate Budded(hooks: Hooks, new copy: N.Node, new made: Info)
    reads hooks, copy, made.name, made.text
  {
    && fresh(copy) && Records(copy, made) && !made.isReference && Apart(copy, made)
    && copy.next == null && copy.prev == null && copy.child == null
    && fresh(OwnBlocks(made)) && hooks.live == old(hooks.live) + ({copy as object} + OwnBlocks(made))
  }

  /** What a copy records before its texts are copied. */
  ghost function Numbers(info: Info): Info {
    info.(isReference := false, name := null, nameText := None, text := null, body := None)
  }

  /** The first part of cJSON_Duplicate: a new node with the type and the numbers. */
  method DuplicateNumbers(hooks: Hooks, item: N.Node, ghost info: Info) returns (copy: N.Node?)
    requires Records(item, info)
    modifies hooks
    ensures hooks.calls == old(hooks.calls) + 1 && (copy == null <==> hooks.refuses(old(hooks.calls)))
    ensures copy == null ==> hooks.live == old(hooks.live)
    ensures copy != null ==> Budded(hooks, copy, Numbers(info))
  {
    copy := hooks.NewItem();
    if copy != null {
      copy.kind, copy.nameIsConst := item.kind, item.nameIsConst;
      copy.valueint, copy.valuedouble := item.valueint, item.valuedouble;
    }
  }

  /** The second part: the text is copied. */
  method DuplicateText(hooks: Hooks, item: N.Node, ghost info: Info) returns (copy: N.Node?, ghost made: Info)
    requires Records(item, info)
    modifies hooks
    ensures hooks.calls >= old(hooks.calls) && (copy != null <==> hooks.Granted(old(hooks.calls)))
    ensures copy == null ==> hooks.live == old(hooks.live)
    ensures copy != null ==> Budded(hooks, copy, made)
    ensures made == Numbers(info).(text := made.text, body := info.body)
  {
    made := Numbers(info).(body := info.body);
    copy := DuplicateNumbers(hooks, item, info);
    if copy == null {
      return;
    }
    var ok, text := CopyText(hooks, item.valuestring, false, info.body);
    if !ok {
      DeleteLeaf(hooks, copy, Numbers(info));
      copy := null;
      return;
    }
    copy.valuestring := text;
    made := made.(text := text);
  }

  /** The third part: the name is copied or shared. */
  method DuplicateNode(hooks: Hooks, item: N.Node, ghost info: Info) returns (copy: N.Node?, ghost made: Info)
    requires Records(item, info)
    modifies hooks
    ensures hooks.calls >= old(hooks.calls) && (copy != null <==> hooks.Granted(old(hooks.calls)))
    ensures copy == null ==> hooks.live == old(hooks.live)
    ensures copy != null ==> Budded(hooks, copy, made) && SameInfo(info, made)
  {
    copy, made := DuplicateText(hooks, item, info);
    if copy == null {
      return;
    }
    var ok, name := CopyText(hooks, item.name, item.nameIsConst, info.nameText);
    if !ok {
      DeleteLeaf(hooks, copy, made);
      copy := null;
      return;
    }
    copy.name := name;
    made := made.(name := name, nameText := info.nameText);
  }

  /** What `Built` says of a list is used only where this is mentioned. */
  ghost predicate Open(f: Forest) { true }

  /** A list whose blocks all belong to it alone and whose links run both ways. */
  ghost predicate Built(f: Forest, end: N.Node?)
    reads NodesOf(f), Blocks(f)
  {
    forall g {:trigger Open(g)} :: Open(g) && g == f ==> Holds(g, end) && Backs(g) && Separate(g) && Solid(g)
  }

  /** A finished list that a walk may follow. */
  ghost predicate Shown(f: Forest)
    reads NodesOf(f), Blocks(f)
  {
    forall g {:trigger Open(g)} :: Open(g) && g == f ==> Holds(g, null)
  }

  lemma {:induction false} JoinedBuilt(f: Forest, g: Forest, end: N.Node?)
    requires Built(f, if g.Empty? then end else g.node) && Built(g, end) && Owned(f) !! Owned(g)
    requires f.Grove? && g.Grove? ==> g.node.prev == Last(f)
    ensures Built(Joined(f, g), end)
  {
    assert Open(f) && Open(g);
    JoinedReach(f, g);
    JoinedHolds(f, g, end);
    JoinedBacks(f, g);
    JoinedSeparate(f, g);
  }

  /** A list under construction: the nodes before the last one, and that one with its children. */
  ghost predicate Strung(done: Forest, tail: Forest)
    requires tail.Grove?
    reads NodesOf(done), Blocks(done), NodesOf(tail), Blocks(tail)
  {
    && tail.rest.Empty? && Built(done, tail.node) && Built(tail, null) && Owned(done) !! Owned(tail)
    && (done.Grove? ==> tail.node.prev == Last(done))
  }

  /** `left` is the end of the list `f` and the copies of the rest of it are in place. */
  ghost predicate CopiedUpTo(f: Forest, left: Forest, seen: Forest, copies: Forest) {
    f == Joined(seen, left) && Copied(seen, copies)
  }

  lemma {:induction false} CopiedOneMore(f: Forest, left: Forest, seen: Forest, copies: Forest, one: Forest)
    requires left.Grove? && CopiedUpTo(f, left, seen, copies) && Copied(One(left), one)
    ensures CopiedUpTo(f, left.rest, Joined(seen, One(left)), Joined(copies, one))
  {
    CopiedJoined(seen, copies, One(left), one);
    JoinedAgain(seen, One(left), left.rest);
  }

  lemma {:induction false} JoinedAgain(f: Forest, g: Forest, h: Forest)
    ensures Joined(Joined(f, g), h) == Joined(f, Joined(g, h))
  {
    if f.Grove? { JoinedAgain(f.rest, g, h); }
  }

  /** A tree that is in no list. */
  method DeleteTree(hooks: Hooks, item: N.Node, ghost f: Forest)
    requires f.Grove? && f.node == item && f.rest.Empty? && Separate(f) && Owned(f) <= hooks.live
    requires Records(item, f.info) && Shown(f.kids) && item.child == Head(f.kids) && item.next == null
    modifies hooks
    ensures hooks.live == old(hooks.live) - Owned(f) && hooks.calls == old(hooks.calls)
  {
    assert Open(f.kids);
    Delete(hooks, item, f);
  }

  /** A whole list. */
  method DeleteList(hooks: Hooks, head: N.Node?, ghost f: Forest)
    requires Built(f, null) && head == Head(f) && Owned(f) <= hooks.live
    modifies hooks
    ensures hooks.live == old(hooks.live) - Owned(f) && hooks.calls == old(hooks.calls)
  {
    assert Open(f);
    Delete(hooks, head, f);
  }

  twostate predicate Untouched(f: Forest)
    reads NodesOf(f), Blocks(f)
  {
    WereAllocated(f);
    unchanged(NodesOf(f), Blocks(f))
  }

  twostate lemma StaysHeld(f: Forest)
    requires Untouched(f)
    ensures old(Shown(f)) ==> Shown(f)
  {
  }

  /** A node with its record and its children. */
  ghost predicate IsTree(node: N.Node, f: Forest)
    reads node, NodesOf(f), Blocks(f)
  {
    f.Grove? && f.node == node && Records(node, f.info) && node.child == Head(f.kids) && Shown(f.kids)
  }

  lemma {:induction false} ShownRest(f: Forest)
    requires f.Grove? && Shown(f)
    ensures Shown(f.rest) && f.node.next == Head(f.rest)
    ensures Records(f.node, f.info) && Shown(f.kids) && f.node.child == Head(f.kids)
    ensures NodesOf(f.rest) <= NodesOf(f) && Blocks(f.rest) <= Blocks(f)
  {
    assert Open(f);
  }

  /** A node that a walk through the list does not meet. */
  ghost predicate Clear(n: N.Node?, f: Forest) {
    n == null || (n !in NodesOf(f) && forall b <- Blocks(f) :: (b as object) != n)
  }

  twostate lemma StaysBuilt(f: Forest)
    requires Untouched(f)
    ensures forall end: N.Node? {:trigger Built(f, end)} :: old(allocated(end) && Built(f, end)) ==> Built(f, end)
  {
  }

  /** Only the links of a single node have changed. */
  twostate predicate OnlyLinks(f: Forest)
    requires f.Grove?
    reads f.node, f.info.name, f.info.text, NodesOf(f.kids), Blocks(f.kids)
  {
    && Untouched(f.kids) && f.node.child == old(f.node.child)
    && (old(Records(f.node, f.info)) ==> Records(f.node, f.info))
  }

  twostate lemma Retied(f: Forest, new end: N.Node?)
    requires f.Grove? && f.rest.Empty? && OnlyLinks(f) && f.node.next == end
    ensures (exists was: N.Node? :: old(allocated(was) && Built(f, was))) ==> Built(f, end)
  {
    assert Open(f);
    if was: N.Node? :| old(allocated(was) && Built(f, was)) {
      assert Holds(f, end) && Backs(f) && Separate(f) && Solid(f);
    }
  }

  lemma {:induction false} StrungFurther(done: Forest, tail: Forest, one: Forest)
    requires tail.Grove? && one.Grove? && tail.rest.Empty? && one.rest.Empty?
    requires Built(done, tail.node) && Built(tail, one.node) && Built(one, null)
    requires Owned(done) !! Owned(tail) && Owned(one) !! Owned(done) + Owned(tail)
    requires (done.Grove? ==> tail.node.prev == Last(done)) && one.node.prev == tail.node
    ensures Strung(Joined(done, tail), one)
  {
    JoinedBuilt(done, tail, one.node);
    JoinedParts(done, tail);
  }

  method Tie(last: N.Node, item: N.Node, ghost done: Forest, ghost tail: Forest, ghost one: Forest)
    requires tail.Grove? && tail.node == last && one.Grove? && one.node == item
    requires Solid(done) && Solid(tail.kids) && Solid(one.kids)
    requires {last as object, item} !! Owned(done) + Owned(tail.kids) + Owned(one.kids)
    modifies last`next, item`prev
    ensures last.next == item && item.prev == last
    ensures Untouched(done) && OnlyLinks(tail) && OnlyLinks(one)
  {
    Elsewhere(done, item, last);
    Elsewhere(tail.kids, item, last);
    Elsewhere(one.kids, item, last);
    last.next := item;
    item.prev := last;
  }

  /** A node is linked behind the last one. */
  method Link(last: N.Node, item: N.Node, ghost done: Forest, ghost tail: Forest, ghost one: Forest)
    requires tail.Grove? && tail.node == last && Strung(done, tail)
    requires one.Grove? && one.node == item && one.rest.Empty? && Built(one, null)
    requires Owned(one) !! Owned(done) + Owned(tail)
    modifies last`next, item`prev
    ensures Strung(Joined(done, tail), one)
  {
    assert Open(done) && Open(tail) && Open(one);
    Tie(last, item, done, tail, one);
    StaysBuilt(done);
    Retied(one, null);
    Retied(tail, item);
    StrungFurther(done, tail, one);
  }

  /** The head of a finished list gets its prev link. */
  method Close(head: N.Node, last: N.Node, ghost f: Forest)
    requires f.Grove? && Built(f, null) && head == f.node && last == Last(f)
    modifies head`prev
    ensures Built(f, null) && Ringed(f)
  {
    assert Open(f);
    Elsewhere(f.kids, head, head);
    Elsewhere(f.rest, head, head);
    if f.rest.Grove? { LastNode(f.rest); }
    head.prev := last;
  }

  /** A node whose children are being made: none yet, or those of `done` and then `tail`. */
  datatype Growth = Growth(parent: N.Node, done: Forest, tail: Forest)

  ghost function Grown(s: Growth): Forest { Joined(s.done, s.tail) }

  ghost predicate Growing(s: Growth)
    reads s.parent, NodesOf(s.done), Blocks(s.done), NodesOf(s.tail), Blocks(s.tail)
  {
    && (s.parent as object) !in Owned(s.done) + Owned(s.tail)
    && if s.tail.Empty? then s.done.Empty? && s.parent.child == null
       else Strung(s.done, s.tail) && s.parent.child == Head(Grown(s))
  }

  twostate lemma StaysGrowing(s: Growth)
    requires Untouched(s.done) && Untouched(s.tail) && unchanged(s.parent)
    ensures old(Growing(s)) ==> Growing(s)
  {
    StaysBuilt(s.done);
    StaysBuilt(s.tail);
  }

  lemma GrowingBuilt(s: Growth)
    requires Growing(s)
    ensures Built(Grown(s), null) && s.parent.child == Head(Grown(s))
    ensures Owned(Grown(s)) == Owned(s.done) + Owned(s.tail)
    ensures (s.parent as object) !in Owned(Grown(s))
    ensures s.tail.Grove? ==> Last(Grown(s)) == s.tail.node
  {
    JoinedParts(s.done, s.tail);
    if s.tail.Grove? {
      JoinedBuilt(s.done, s.tail, null);
    }
  }

  /** The new child is hung on its parent, or linked behind the last child. */
  method Hang(parent: N.Node, last: N.Node?, child: N.Node, ghost s: Growth, ghost one: Forest)
    requires Growing(s) && s.parent == parent && last == Head(s.tail)
    requires one.Grove? && one.node == child && one.rest.Empty? && Built(one, null)
    requires Owned(one) !! Owned(s.done) + Owned(s.tail) && (parent as object) !in Owned(one)
    modifies parent`child, (if last == null then {} else {last})`next, child`prev
    ensures Growing(Growth(parent, Grown(s), one))
    ensures parent.child == if last == null then child else old(parent.child)
  {
    GrowingBuilt(s);
    if last != null {
      Link(last, child, s.done, s.tail, one);
      JoinedParts(Grown(s), one);
    } else {
      assert Open(one);
      Elsewhere(one, parent, parent);
      parent.child := child;
    }
  }

  /** A new tree of its own that repeats `f`. */
  twostate predicate IsCopy(hooks: Hooks, new copy: N.Node, f: Forest, new g: Forest)
    reads hooks, copy, NodesOf(g), Blocks(g)
  {
    && g.Grove? && g.node == copy && g.rest.Empty? && Copied(f, g) && Built(g, null) && copy.prev == null
    && fresh(copy) && Owned(g) !! old(hooks.live) && hooks.live == old(hooks.live) + Owned(g)
  }

  /** A node on top of its finished list of children. */
  lemma {:induction false} Rooted(node: N.Node, info: Info, kids: Forest)
    requires Records(node, info) && !info.isReference && Apart(node, info)
    requires node.next == null && node.child == Head(kids) && Built(kids, null) && Ringed(kids)
    requires {node as object} + OwnBlocks(info) !! Owned(kids)
    ensures Built(Grove(node, info, kids, Empty), null)
  {
    assert Open(kids);
    var f := Grove(node, info, kids, Empty);
    assert Holds(f, null) && Backs(f) && Separate(f) && Solid(f);
  }

  lemma {:induction false} OwnedByRoot(node: N.Node, info: Info, kids: Forest)
    requires !info.isReference
    ensures Owned(Grove(node, info, kids, Empty)) == {node as object} + OwnBlocks(info) + Owned(kids)
  {
  }

  /** cJSON_Duplicate: a disjoint tree with the same contents, or NULL and nothing left allocated. */
  method Duplicate(hooks: Hooks, item: N.Node?, recurse: bool, ghost f: Forest, ghost end: N.Node?)
    returns (copy: N.Node?, ghost g: Forest)
    requires item != null ==> f.Grove? && f.node == item && Holds(f, end)
    modifies hooks
    ensures hooks.calls >= old(hooks.calls)
    ensures copy != null <==> item != null && hooks.Granted(old(hooks.calls))
    ensures copy == null ==> hooks.live == old(hooks.live)
    ensures copy != null ==> IsCopy(hooks, copy, if recurse then One(f) else Grove(item, f.info, Empty, Empty), g)
    decreases f, 3
  {
    if item == null {
      return null, Empty;
    }
    if recurse {
      copy, g := DuplicateWhole(hooks, item, f, end);
    } else {
      ghost var made;
      copy, made := DuplicateNode(hooks, item, f.info);
      if copy == null {
        return null, Empty;
      }
      OwnedByRoot(copy, made, Empty);
      Rooted(copy, made, Empty);
      g := Grove(copy, made, Empty, Empty);
    }
  }

  /** A node is copied, then its children. */
  method DuplicateWhole(hooks: Hooks, item: N.Node, ghost f: Forest, ghost end: N.Node?)
    returns (copy: N.Node?, ghost g: Forest)
    requires f.Grove? && f.node == item && Holds(f, end)
    modifies hooks
    ensures hooks.calls >= old(hooks.calls)
    ensures copy != null <==> hooks.Granted(old(hooks.calls))
    ensures copy == null ==> hooks.live == old(hooks.live)
    ensures copy != null ==> IsCopy(hooks, copy, One(f), g)
    decreases f, 2
  {
    AreAllocated(f.kids);
    ghost var made;
    copy, made := DuplicateNode(hooks, item, f.info);
    if copy == null {
      return null, Empty;
    }
    StaysHeld(f.kids);
    ghost var kids;
    var ok;
    ok, kids := DuplicateBelow(hooks, copy, item.child, made, f.kids);
    OwnedByRoot(copy, made, kids);
    g := Grove(copy, made, kids, Empty);
    if !ok {
      copy := null;
    }
  }

  /** The children of a new copy; when one cannot be made, the copy is released. */
  method DuplicateBelow(hooks: Hooks, item: N.Node, first: N.Node?, ghost made: Info, ghost f: Forest)
    returns (ok: bool, ghost kids: Forest)
    requires Shown(f) && first == Head(f) && Clear(item, f)
    requires Records(item, made) && Apart(item, made) && !made.isReference && {item as object} + OwnBlocks(made) <= hooks.live
    requires item.next == null && item.child == null
    modifies hooks, item`child
    ensures hooks.calls >= old(hooks.calls) && (ok <==> hooks.Granted(old(hooks.calls)))
    ensures !ok ==> hooks.live == old(hooks.live) - ({item as object} + OwnBlocks(made))
    ensures ok ==> Copied(f, kids) && Built(Grove(item, made, kids, Empty), null)
    ensures ok ==> Owned(kids) !! old(hooks.live) && hooks.live == old(hooks.live) + Owned(kids)
    decreases f, 7
  {
    ok, kids := DuplicateChildren(hooks, item, first, f);
    ghost var g := Grove(item, made, kids, Empty);
    if ok {
      Rooted(item, made, kids);
    } else {
      OwnedByRoot(item, made, kids);
      assert Open(kids);
      Delete(hooks, item, g);
    }
  }

  lemma {:induction false} JoinedEmpty(f: Forest)
    ensures Joined(f, Empty) == f
  {
    if f.Grove? { JoinedEmpty(f.rest); }
  }

  /** One turn of the loop over the children. */
  method DuplicateChild(hooks: Hooks, parent: N.Node, last: N.Node?, child: N.Node, ghost s: Growth, ghost f: Forest)
    returns (copy: N.Node?, ghost one: Forest, ghost s': Growth)
    requires f.Grove? && f.node == child && Shown(f) && Clear(parent, f) && Clear(last, f)
    requires Growing(s) && s.parent == parent && last == Head(s.tail)
    requires {parent as object} + Owned(Grown(s)) <= hooks.live
    modifies hooks, parent`child, (if last == null then {} else {last})`next
    ensures hooks.calls >= old(hooks.calls) && (copy != null <==> hooks.Granted(old(hooks.calls)))
    ensures Shown(f.rest) && child.next == Head(f.rest) && Clear(parent, f.rest) && Clear(copy, f.rest)
    ensures Growing(s') && s'.parent == parent
    ensures copy == null ==> s' == s && one.Empty?
    ensures copy != null ==> fresh(copy) && copy == Head(s'.tail) && Copied(One(f), one)
    ensures copy != null ==> parent.child == if last == null then copy else old(parent.child)
    ensures Grown(s') == Joined(Grown(s), one) && Owned(Grown(s')) == Owned(Grown(s)) + Owned(one)
    ensures Owned(one) !! old(hooks.live) && hooks.live == old(hooks.live) + Owned(one)
    decreases f, 5
  {
    JoinedParts(s.done, s.tail);
    copy, one := DuplicateApart(hooks, child, s, f);
    ShownRest(f);
    if copy != null {
      HangAside(parent, last, copy, s, one, f.rest);
      s' := Growth(parent, Grown(s), one);
    } else {
      one, s' := Empty, s;
      JoinedEmpty(Grown(s));
    }
    JoinedParts(Grown(s), one);
  }

  /** The new child is attached without disturbing what is still to be copied. */
  method HangAside(
    parent: N.Node, last: N.Node?, child: N.Node, ghost s: Growth, ghost one: Forest, ghost left: Forest)
    requires Growing(s) && s.parent == parent && last == Head(s.tail)
    requires one.Grove? && one.node == child && one.rest.Empty? && Built(one, null)
    requires Owned(one) !! Owned(s.done) + Owned(s.tail) && (parent as object) !in Owned(one)
    requires Shown(left) && Clear(parent, left) && Clear(last, left) && Clear(child, left)
    modifies parent`child, (if last == null then {} else {last})`next, child`prev
    ensures Growing(Growth(parent, Grown(s), one)) && Shown(left)
    ensures parent.child == if last == null then child else old(parent.child)
  {
    AreAllocated(left);
    Hang(parent, last, child, s, one);
    StaysHeld(left);
  }

  /** Copying a child leaves the list and the copies made so far alone. */
  method DuplicateApart(hooks: Hooks, child: N.Node, ghost s: Growth, ghost f: Forest)
    returns (copy: N.Node?, ghost one: Forest)
    requires f.Grove? && f.node == child && Shown(f) && Growing(s)
    modifies hooks
    ensures hooks.calls >= old(hooks.calls) && (copy != null <==> hooks.Granted(old(hooks.calls)))
    ensures copy == null ==> hooks.live == old(hooks.live)
    ensures copy != null ==> IsCopy(hooks, copy, One(f), one) && Clear(copy, f.rest)
    ensures Growing(s) && Shown(f)
    decreases f, 4
  {
    AreAllocated(f);
    AreAllocated(s.done);
    AreAllocated(s.tail);
    assert Open(f);
    copy, one := Duplicate(hooks, child, true, f, null);
    StaysGrowing(s);
    StaysHeld(f);
  }

  /** The end of cJSON_Duplicate. */
  method Finish(parent: N.Node, last: N.Node?, ghost s: Growth)
    requires Growing(s) && s.parent == parent && last == Head(s.tail)
    modifies (if parent.child == null then {} else {parent.child})`prev
    ensures Built(Grown(s), null) && Ringed(Grown(s)) && parent.child == old(parent.child) == Head(Grown(s))
    ensures (parent as object) !in Owned(Grown(s))
  {
    GrowingBuilt(s);
    if parent.child != null {
      Close(parent.child, last, Grown(s));
    }
  }

  /** The loop of cJSON_Duplicate. */
  method DuplicateChildren(hooks: Hooks, parent: N.Node, first: N.Node?, ghost f: Forest)
    returns (ok: bool, ghost g: Forest)
    requires Shown(f) && first == Head(f) && Clear(parent, f)
    requires parent.child == null && (parent as object) in hooks.live
    modifies hooks, parent`child
    ensures hooks.calls >= old(hooks.calls) && (ok <==> hooks.Granted(old(hooks.calls)))
    ensures Built(g, null) && parent.child == Head(g) && (parent as object) !in Owned(g)
    ensures Owned(g) !! old(hooks.live) && hooks.live == old(hooks.live) + Owned(g)
    ensures ok ==> Copied(f, g) && Ringed(g)
    decreases f, 6
  {
    var child, next: N.Node? := first, null;
    ghost var left, seen: Forest, s := f, Empty, Growth(parent, Empty, Empty);
    while child != null
      invariant Shown(left) && child == Head(left) && Clear(parent, left) && Clear(next, left)
      invariant hooks.calls >= old(hooks.calls) && hooks.Granted(old(hooks.calls))
      invariant CopiedUpTo(f, left, seen, Grown(s))
      invariant Growing(s) && s.parent == parent && next == Head(s.tail) && (next != null ==> fresh(next))
      invariant parent.child != null ==> fresh(parent.child)
      invariant Owned(Grown(s)) !! old(hooks.live) && hooks.live == old(hooks.live) + Owned(Grown(s))
      decreases left
    {
      var newchild;
      ghost var one, s';
      newchild, one, s' := DuplicateChild(hooks, parent, next, child, s, left);
      if newchild == null {
        GrowingBuilt(s);
        return false, Grown(s);
      }
      CopiedOneMore(f, left, seen, Grown(s), one);
      s, seen, left := s', Joined(seen, One(left)), left.rest;
      next, child := newchild, child.next;
    }
    ok, g := true, Grown(s);
    JoinedEmpty(seen);
    Finish(parent, next, s);
  }
}