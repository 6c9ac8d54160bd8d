/** The growable print buffer and the functions that print a tree of nodes into it. */
module Printer {
  import opened Bytes
  import opened JsonValue
  import opened StringLiteral
  import opened Numbers
  import opened Grammar
  import opened JsonText
  import opened Memory
  import opened Trees
  import N = Nodes

  // ---------- a tree, its parts and its value ----------

  /** `f` is the list `tree`, the end of it, or part of the children of one of its nodes. */
  ghost predicate Within(f: Forest, tree: Forest) {
    f == tree || (tree.Grove? && (Within(f, tree.kids) || Within(f, tree.rest)))
  }

  lemma {:induction false} WithinParts(f: Forest, tree: Forest)
    requires Within(f, tree) && f.Grove?
    ensures Within(f.kids, tree) && Within(f.rest, tree)
  {
    if f != tree {
      if Within(f, tree.kids) { WithinParts(f, tree.kids); } else { WithinParts(f, tree.rest); }
    }
  }

  lemma {:induction false} WithinShown(f: Forest, tree: Forest)
    requires Within(f, tree) && Shown(tree)
    ensures Shown(f) && Blocks(f) <= Blocks(tree)
  {
    if f != tree {
      assert Open(tree);
      if Within(f, tree.kids) { WithinShown(f, tree.kids); } else { WithinShown(f, tree.rest); }
    }
  }

  /** A node with that record and those children stands for the value. */
  ghost predicate Stands(info: Info, kids: Forest, t: Json) {
    forall g {:trigger Open(g)} :: Open(g) && g == kids ==> t == ValueOf(info, ItemsOf(g))
  }

  ghost predicate Lists(f: Forest, items: Items) {
    forall g {:trigger Open(g)} :: Open(g) && g == f ==> items == ItemsOf(g)
  }

  lemma ListsParts(f: Forest, items: Items)
    requires Lists(f, items)
    ensures f.Grove? <==> items.Cons?
    ensures f.Grove? ==> items.name == f.info.nameText && Stands(f.info, f.kids, items.head) && Lists(f.rest, items.tail)
  {
    assert Open(f);
  }

  /** What a value says of the node that stands for it. */
  predicate KindIs(info: Info, t: Json) {
    match info.kind
    case Invalid => t == Json.Invalid
    case False => t == Json.False
    case True => t == Json.True
    case Null => t == Json.Null
    case Number => t.Number? && t.value == info.value
    case String => t == Json.String(info.body)
    case Array => t.Array?
    case Object => t.Object?
    case Raw => t == Json.Raw(info.body)
  }

  lemma StandsParts(info: Info, kids: Forest, t: Json)
    requires Stands(info, kids, t)
    ensures KindIs(info, t)
    ensures t.Array? ==> Lists(kids, t.items)
    ensures t.Object? ==> Lists(kids, t.items)
  {
    assert Open(kids);
  }

  /** `w` is the text of a value that is mentioned in `Known`. */
  ghost predicate Shows(w: Text, t: Json, format: bool, d: nat) {
    forall x {:trigger Known(x)} :: Known(x) && x == t ==> w == Rendered(x, format, d)
  }

  ghost predicate Known(t: Json) { true }

  /** `e` is the text of elements that are mentioned in `Sought`. */
  ghost predicate ShowsElements(e: Text, items: Items, format: bool, d: nat) {
    forall x {:trigger Sought(x)} :: Sought(x) && x == items ==> e == RenderedElements(x, format, d)
  }

  /** The same for members. */
  ghost predicate ShowsMembers(e: Text, items: Items, format: bool, d: nat) {
    forall x {:trigger Sought(x)} :: Sought(x) && x == items ==> e == RenderedMembers(x, format, d)
  }

  ghost predicate Sought(items: Items) { true }

  lemma NoElements(e: Text, items: Items, format: bool, d: nat)
    requires items.Nil? && ShowsElements(e, items, format, d)
    ensures e == []
  {
    assert Sought(items);
  }

  lemma NoMembers(e: Text, items: Items, format: bool, d: nat)
    requires items.Nil? && ShowsMembers(e, items, format, d)
    ensures e == []
  {
    assert Sought(items);
  }

  // ---------- the buffer ----------

  /** The bytes of `w` from `pos` on, and no others. */
  method StoreBytes(buffer: array<byte>, pos: nat, w: seq<byte>)
    requires pos + |w| <= buffer.Length
    modifies buffer
    ensures forall k :: 0 <= k < pos ==> buffer[k] == old(buffer[k])
    ensures forall k :: pos <= k < pos + |w| ==> buffer[k] == w[k - pos]
    ensures forall k :: pos + |w| <= k < buffer.Length ==> buffer[k] == old(buffer[k])
  {
    var i := 0;
    while i < |w|
      invariant i <= |w|
      invariant forall k :: 0 <= k < pos ==> buffer[k] == old(buffer[k])
      invariant forall k :: pos <= k < pos + i ==> buffer[k] == w[k - pos]
      invariant forall k :: pos + i <= k < buffer.Length ==> buffer[k] == old(buffer[k])
    {
      buffer[pos + i] := w[i];
      i := i + 1;
    }
  }

  lemma StoredParts(before: seq<byte>, after: seq<byte>, pos: nat, w: seq<byte>, end: nat)
    requires pos + |w| <= end <= |before| == |after|
    requires forall k :: 0 <= k < pos ==> after[k] == before[k]
    requires forall k :: pos <= k < pos + |w| ==> after[k] == w[k - pos]
    requires forall k :: end <= k < |before| ==> after[k] == before[k]
    ensures after[..pos + |w|] == before[..pos] + w && after[end..] == before[end..]
  {
  }

  class PrintBuffer {
    var buffer: array?<byte>
    var length: nat
    var offset: nat
    var depth: nat
    const noalloc: bool
    const format: bool
    const hooks: Hooks

    /** The children of the node that is printed, in memory of their own. */
    ghost const tree: Forest

    // what the printer was given: printing leaves alone what else is live, and memory behind a buffer of the caller
    ghost const given: array?<byte>
    ghost const room: nat
    ghost const spare: seq<byte>
    ghost const others: set<object>
    ghost const calls: nat

    /** The end of the last reservation. */
    ghost var reserved: nat

    /** Bytes moved by growing, over the whole print. */
    ghost var copied: nat

    constructor (hooks: Hooks, buffer: array<byte>, length: nat, noalloc: bool, format: bool, ghost tree: Forest)
      requires length <= buffer.Length && (!noalloc ==> buffer in hooks.live)
      ensures this.hooks == hooks && this.buffer == buffer && this.length == length && this.tree == tree
      ensures this.noalloc == noalloc && this.format == format && offset == 0 && depth == 0 && copied == 0
      ensures room == length && spare == buffer[length..] && calls == hooks.calls
      ensures others == if noalloc then hooks.live else hooks.live - {buffer}
      ensures Kept()
    {
      this.hooks, this.buffer, this.length, this.tree := hooks, buffer, length, tree;
      this.noalloc, this.format := noalloc, format;
      offset, depth, copied, reserved := 0, 0, 0, 0;
      given, room, spare, calls := buffer, length, buffer[length..], hooks.calls;
      others := if noalloc then hooks.live else hooks.live - {buffer};
    }

    ghost predicate Kept()
      reads this, buffer, hooks
    {
      if noalloc then
        && buffer == given && buffer != null && length == room <= buffer.Length && buffer[length..] == spare
        && hooks.live == others && hooks.calls == calls
      else hooks.live - {buffer} == others && (buffer != null ==> buffer in hooks.live)
    }

    ghost predicate Valid()
      reads this, buffer, hooks, NodesOf(tree), Blocks(tree)
    {
      && buffer != null && length <= buffer.Length && length <= INT_MAX && Kept()
      && (length > 0 ==> offset < length) && (length == 0 ==> offset == 0)
      && (!noalloc ==> buffer.Length == length)
      && CopiedLittle()
      && Shown(tree) && buffer !in Blocks(tree)
    }

    /** Growing copies less than the buffer is long, and less than twice that once it has its largest size. */
    ghost predicate CopiedLittle()
      reads this
    {
      if length == 0 then copied == 0 else copied < if length < INT_MAX then length else 2 * length
    }

    /** The text already written and counted. */
    ghost function Text(): seq<byte>
      reads this, buffer
      requires buffer != null && offset <= buffer.Length
    {
      buffer[..offset]
    }

    /** The most the buffer can hold. */
    ghost function Limit(): nat { if noalloc then room else INT_MAX }

    /** What printing leaves alone, whether it succeeds or not. */
    twostate predicate Framed()
      reads this, buffer, hooks
    {
      Kept() && (buffer == old(buffer) || buffer == null || fresh(buffer)) && old(hooks.calls) <= hooks.calls
    }

    /** ensure: room for `needed` more bytes and one to spare. */
    method Ensure(needed: nat) returns (ok: bool)
      requires Valid()
      modifies this, hooks
      ensures ok <==> old(offset) + needed + 1 <= Limit() && hooks.Granted(old(hooks.calls))
      ensures offset == old(offset) && depth == old(depth) && Framed()
      ensures ok ==> Valid() && reserved == offset + needed < length && Text() == old(Text())
      ensures ok && buffer != old(buffer) ==> length > 2 * old(length) || length == INT_MAX
      ensures buffer == old(buffer) ==> length == old(length)
      ensures !ok && buffer != null ==> buffer == old(buffer)
    {
      AreAllocated(tree);
      if length > 0 && offset >= length {
        return false;
      }
      if needed > INT_MAX {
        return false;
      }
      var total := needed + offset + 1;
      reserved := offset + needed;
      if total <= length {
        return true;
      }
      if noalloc {
        return false;
      }
      var newsize;
      if total > INT_MAX / 2 {
        if total <= INT_MAX {
          newsize := INT_MAX;
        } else {
          return false;
        }
      } else {
        newsize := total * 2;
      }
      ok := Grow(newsize);
    }

    /** The growing part of ensure. */
    method Grow(newsize: nat) returns (ok: bool)
      requires Valid() && !noalloc && length < newsize <= INT_MAX && offset <= length
      requires newsize > 2 * length || newsize == INT_MAX
      modifies this`buffer, this`length, this`copied, hooks
      ensures hooks.calls == old(hooks.calls) + 1 && (ok <==> !hooks.refuses(old(hooks.calls)))
      ensures Kept()
      ensures ok ==> fresh(buffer) && length == newsize && offset < length && Valid() && Text() == old(Text())
      ensures !ok ==> buffer == null
    {
      AreAllocated(tree);
      var newbuffer := hooks.Reallocate(buffer, newsize);
      if newbuffer == null {
        hooks.Deallocate(buffer);
        length := 0;
        buffer := null;
        return false;
      }
      copied := copied + length;
      length := newsize;
      buffer := newbuffer;
      ok := true;
    }

    /** `p` has been printed and terminated; some of it may not be counted in `offset` yet. */
    ghost predicate Reached(p: seq<byte>)
      reads this, buffer, hooks, NodesOf(tree), Blocks(tree)
    {
      && Valid() && offset <= |p| && |p| + 2 <= length
      && buffer[..|p|] == p && buffer[|p|] == NUL
      && forall i :: offset <= i < |p| ==> p[i] != NUL
    }

    /** `p` has been printed and counted. */
    ghost predicate Counted(p: seq<byte>)
      reads this, buffer, hooks, NodesOf(tree), Blocks(tree)
    {
      Valid() && offset == |p| && Text() == p
    }

    /** Bytes stored at `pos`; nothing outside the last reservation is written. */
    method Store(pos: nat, w: Text, terminate: bool)
      requires Valid() && offset <= pos && pos + |w| + (if terminate then 1 else 0) <= reserved <= length
      modifies buffer
      ensures Valid() && buffer[..pos + |w|] == old(buffer[..pos]) + w
      ensures terminate ==> buffer[pos + |w|] == NUL
      ensures buffer[reserved..] == old(buffer[reserved..])
    {
      AreAllocated(tree);
      StoreBytes(buffer, pos, w);
      if terminate {
        buffer[pos + |w|] := NUL;
      }
      StoredParts(old(buffer[..]), buffer[..], pos, w, reserved);
      StoredParts(old(buffer[..]), buffer[..], pos, w, length);
    }

    /** A reservation for `w` and `slack` more bytes, then the text itself. */
    method Token(w: Text, slack: nat, terminate: bool) returns (ok: bool)
      requires Valid() && (terminate ==> slack >= 1)
      modifies this, hooks, buffer
      ensures ok <==> old(offset) + |w| + slack + 1 <= Limit() && hooks.Granted(old(hooks.calls))
      ensures offset == old(offset) && depth == old(depth) && Framed()
      ensures ok ==> Valid() && offset + |w| + slack + 1 <= length && buffer[..offset + |w|] == old(Text()) + w
      ensures ok && terminate ==> buffer[offset + |w|] == NUL
      ensures ok && buffer == old(buffer) ==>
        reserved == offset + |w| + slack && buffer[reserved..] == old(buffer[offset + |w| + slack..])
    {
      ok := Ensure(|w| + slack);
      if ok {
        Store(offset, w, terminate);
      }
    }

    /** update_offset: the terminated text at the write position is counted. */
    method UpdateOffset(ghost p: seq<byte>)
      requires Reached(p)
      modifies this`offset
      ensures Counted(p)
    {
      AreAllocated(tree);
      var n := 0;
      while buffer[offset + n] != NUL
        invariant 0 <= n && offset + n <= |p|
        decreases |p| - offset - n
      {
        n := n + 1;
      }
      offset := offset + n;
    }

    // ---------- the printing functions ----------

    /**
     * What every printing function guarantees: it succeeds exactly when that is possible within the
     * limit and no allocation is refused, and it touches nothing else.
     */
    twostate predicate Outcome(ok: bool, possible: bool)
      reads this, buffer, hooks
    {
      && (ok <==> possible && hooks.Granted(old(hooks.calls)))
      && Framed() && (ok ==> depth == old(depth))
    }

    /** print_number: the digits are counted at once. */
    method PrintNumber(value: real, ghost p: seq<byte>) returns (ok: bool)
      requires Counted(p) && PlainInteger(value)
      modifies this, hooks, buffer
      ensures Outcome(ok, |p| + |DecimalText(value.Floor)| + 2 <= Limit())
      ensures ok ==> Reached(p + DecimalText(value.Floor))
    {
      var w := DecimalText(value.Floor);
      ok := Token(w, 1, true);
      AreAllocated(tree);
      if ok {
        offset := offset + |w|;
      }
    }

    /** A text stored with its terminator, to be counted later. */
    method PrintTerminated(w: Text, ghost p: seq<byte>) returns (ok: bool)
      requires Counted(p)
      modifies this, hooks, buffer
      ensures Outcome(ok, |p| + |w| + 2 <= Limit())
      ensures ok ==> Reached(p + w)
    {
      ok := Token(w, 1, true);
    }

    /** A text stored, with its terminator or not, and counted. */
    method PrintCounted(w: Text, slack: nat, terminate: bool, ghost p: seq<byte>) returns (ok: bool)
      requires Counted(p) && slack <= 1 && (terminate ==> slack == 1)
      modifies this, hooks, buffer
      ensures ok <==> |p| + |w| + slack + 1 <= Limit() && hooks.Granted(old(hooks.calls))
      ensures Framed() && depth == old(depth)
      ensures ok ==> Counted(p + w)
    {
      ok := Token(w, slack, terminate);
      AreAllocated(tree);
      if ok {
        offset := offset + |w|;
      }
    }

    /** print_string_ptr: the escapes are counted, the room is reserved, then the escaped text is stored. */
    method PrintString(input: array?<byte>, ghost text: Option<Text>, ghost p: seq<byte>) returns (ok: bool)
      requires Counted(p) && Spells(input, text) && input != buffer
      modifies this, hooks, buffer
      ensures Outcome(ok, |p| + |Quoted(text)| + 2 <= Limit())
      ensures ok ==> Reached(p + Quoted(text))
    {
      AreAllocated(tree);
      if input == null {
        assert Quoted(text) == [QUOTE, QUOTE];
        ok := PrintTerminated([QUOTE, QUOTE], p);
        return;
      }
      ghost var t := text.value;
      var length, extra := CountEscapes(input, t);
      if extra == 0 {
        NothingEscaped(t);
        assert input[..length] == t;
        ok := PrintTerminated([QUOTE] + input[..length] + [QUOTE], p);
        return;
      }
      ok := PrintEscaped(input, length + extra, t, p);
    }

    /** The part of print_string_ptr behind the count. */
    method PrintEscaped(input: array<byte>, outputLength: nat, ghost t: Text, ghost p: seq<byte>) returns (ok: bool)
      requires Counted(p) && Spells(input, Some(t)) && input != buffer && outputLength == |Escape(t)|
      modifies this, hooks, buffer
      ensures Outcome(ok, |p| + |Quoted(Some(t))| + 2 <= Limit())
      ensures ok ==> Reached(p + Quoted(Some(t)))
    {
      ok := Ensure(outputLength + 3);
      if ok {
        StoreEscaped(input, t, p);
      }
    }

    /** The second pass: every character is stored, escaped where it must be, and nothing outside the reservation. */
    method StoreEscaped(input: array<byte>, ghost t: Text, ghost p: seq<byte>)
      requires Counted(p) && Spells(input, Some(t)) && input != buffer
      requires |p| + |Quoted(Some(t))| + 1 <= reserved < length
      modifies buffer
      ensures Valid() && Text() == p
      ensures buffer[..|p| + |Quoted(Some(t))|] == p + Quoted(Some(t)) && buffer[|p| + |Quoted(Some(t))|] == NUL
      ensures buffer[reserved..] == old(buffer[reserved..])
    {
      var pos := StoreEscapes(input, t, p);
      Store(pos, [QUOTE], true);
      QuotedText(p, t);
      assert buffer[..offset] == buffer[..pos + 1][..offset];
    }

    /** The opening quote and the escaped characters. */
    method StoreEscapes(input: array<byte>, ghost t: Text, ghost p: seq<byte>) returns (pos: nat)
      requires Counted(p) && Spells(input, Some(t)) && input != buffer
      requires |p| + |Quoted(Some(t))| + 1 <= reserved < length
      modifies buffer
      ensures Valid() && pos == |p| + 1 + |Escape(t)| && buffer[..pos] == p + [QUOTE] + Escape(t)
      ensures buffer[reserved..] == old(buffer[reserved..])
    {
      ghost var q: seq<byte> := p + [QUOTE];
      ghost var all := Escape(t);
      Store(offset, [QUOTE], false);
      var i := 0;
      pos := offset + 1;
      ghost var done: Text := [];
      SpelledByte(input, t, 0);
      while input[i] != NUL
        invariant i <= |t| && Valid() && Spells(input, Some(t)) && (input[i] == NUL <==> i == |t|)
        invariant done == Escape(t[..i]) && pos == |q| + |done| && |done| <= |all|
        invariant buffer[..pos] == q + done
        invariant buffer[reserved..] == old(buffer[reserved..])
        decreases |t| - i
      {
        pos, done := StoreEscape(input, i, pos, t, q, done);
        i := i + 1;
        SpelledByte(input, t, i);
      }
      assert t[..i] == t;
    }

    /** One turn of the loop: a character, escaped where it must be. */
    method StoreEscape(input: array<byte>, i: nat, pos: nat, ghost t: Text, ghost q: seq<byte>, ghost done: Text)
      returns (pos': nat, ghost done': Text)
      requires Valid() && Spells(input, Some(t)) && input != buffer && i < |t| && offset <= pos
      requires |q| + |Escape(t)| <= reserved < length && pos <= buffer.Length
      requires done == Escape(t[..i]) && pos == |q| + |done| && buffer[..pos] == q + done
      modifies buffer
      ensures Valid() && done' == Escape(t[..i + 1]) && pos' == |q| + |done'| && |done'| <= |Escape(t)|
      ensures buffer[..pos'] == q + done' && Spells(input, Some(t))
      ensures buffer[reserved..] == old(buffer[reserved..])
    {
      EscapeNext(t, i);
      SpelledByte(input, t, i);
      var e := EscapeByte(input[i]);
      done' := done + e;
      Regroup(q, done, e);
      Store(pos, e, false);
      pos' := pos + |e|;
    }

    /** The node can be read and stands for `t`; its children are part of the tree. */
    ghost predicate Reads(item: N.Node, info: Info, kids: Forest, t: Json)
      reads this, item, info.name, info.text
    {
      && Records(item, info) && item.child == Head(kids) && Within(kids, tree) && Stands(info, kids, t)
      && (info.text == null || info.text != buffer)
    }

    /** A part of the tree can be read. */
    lemma {:induction false} ReadsOf(f: Forest, items: Items)
      requires Valid() && f.Grove? && Within(f, tree) && Lists(f, items)
      ensures items.Cons? && Reads(f.node, f.info, f.kids, items.head) && f.node.next == Head(f.rest)
      ensures Within(f.rest, tree) && Lists(f.rest, items.tail) && (f.rest.Grove? <==> items.tail.Cons?)
      ensures items.name == f.info.nameText && f.node.name == f.info.name && Spells(f.info.name, f.info.nameText)
      ensures f.info.name != buffer
    {
      WithinParts(f, tree);
      WithinShown(f, tree);
      ShownRest(f);
      ListsParts(f, items);
      ListsParts(f.rest, items.tail);
      assert BlocksOf(f.info) <= Blocks(f);
    }

    method PrintValue(item: N.Node, ghost info: Info, ghost kids: Forest, ghost t: Json, ghost p: seq<byte>) returns (ok: bool)
      requires Counted(p) && Reads(item, info, kids, t) && PlainNumbers(t)
      modifies this, hooks, buffer
      ensures Outcome(ok, Printable(t) && |p| + |Rendered(t, format, old(depth))| + 2 <= Limit())
      ensures ok ==> Reached(p + Rendered(t, format, old(depth)))
      decreases 1 + Count(kids), 1
    {
      ghost var w := Rendered(t, format, depth);
      StandsParts(info, kids, t);
      match item.kind {
        case Null => ok := PrintTerminated(NULL_WORD, p);
        case False => ok := PrintTerminated(FALSE_WORD, p);
        case True => ok := PrintTerminated(TRUE_WORD, p);
        case Number => ok := PrintNumber(item.valuedouble, p);
        case Raw => ok := PrintRaw(item.valuestring, info.body, p);
        case String => ok := PrintString(item.valuestring, info.body, p);
        case Array => ok := PrintArray(item.child, kids, t.items, p, w);
        case Object => ok := PrintObject(item.child, kids, t.items, p, w);
        case Invalid => return false;
      }
    }

    /** print_value: the text of a raw node is copied as it is. */
    method PrintRaw(input: array?<byte>, ghost text: Option<Text>, ghost p: seq<byte>) returns (ok: bool)
      requires Counted(p) && Spells(input, text)
      modifies this, hooks, buffer
      ensures Outcome(ok, text.Some? && |p| + |text.value| + 2 <= Limit())
      ensures ok ==> Reached(p + text.value)
    {
      AreAllocated(tree);
      if input == null {
        return false;
      }
      var length := Strlen(input, text.value);
      assert input[..length] == text.value;
      ok := PrintTerminated(input[..length], p);
    }

    /** One element, whose text is `w`, with the comma behind it. */
    method PrintElement(current: N.Node, ghost f: Forest, ghost items: Items, ghost p: seq<byte>, ghost w: Text, ghost comma: Text)
      returns (ok: bool)
      requires f.Grove? && current == f.node && Within(f, tree) && Lists(f, items)
      requires items.Cons? && Counted(p) && PlainNumbers(items.head)
      requires w == Rendered(items.head, format, depth) && comma == ArrayComma(format, items.tail.Cons?)
      modifies this, hooks, buffer
      ensures Outcome(ok, Printable(items.head) && |p| + |w| + |comma| + 2 <= Limit())
      ensures ok ==> Counted(p + w + comma)
      decreases Count(f), 2
    {
      ReadsOf(f, items);
      ok := PrintValue(current, f.info, f.kids, items.head, p);
      if !ok {
        return;
      }
      UpdateOffset(p + w);
      if current.next != null {
        ok := PrintCounted(ArrayComma(format, true), 1, true, p + w);
      } else {
        assert p + w + [] == p + w;
      }
    }

    /** One turn of the loop of print_array. */
    method ElementTurn(current: N.Node, ghost x: Forest, ghost left: Items, ghost q: seq<byte>, ghost rest: Text)
      returns (ok: bool, next: N.Node?, ghost q': seq<byte>, ghost rest': Text)
      requires x.Grove? && current == x.node && Within(x, tree) && Lists(x, left)
      requires left.Cons? && Counted(q) && AllPlainNumbers(left) && ShowsElements(rest, left, format, depth)
      modifies this, hooks, buffer
      ensures Outcome(ok, Printable(left.head) && |q'| + 2 <= Limit()) && (ok ==> Counted(q'))
      ensures q + rest == q' + rest' && ShowsElements(rest', left.tail, format, old(depth))
      ensures next == Head(x.rest) && Within(x.rest, tree) && Lists(x.rest, left.tail) && (x.rest.Grove? <==> left.tail.Cons?)
      decreases Count(x), 3
    {
      ghost var w, behind;
      w, behind, rest' := ElementText(q, rest, left, format, depth);
      q' := q + w + behind;
      ReadsOf(x, left);
      ok := PrintElement(current, x, left, q, w, behind);
      next := current.next;
    }

    /** The loop over the elements, from the first one on; their text is `e`. */
    method PrintElements(first: N.Node?, ghost f: Forest, ghost items: Items, ghost p: seq<byte>, ghost e: Text) returns (ok: bool)
      requires first == Head(f) && Within(f, tree) && Lists(f, items)
      requires Counted(p) && AllPlainNumbers(items) && ShowsElements(e, items, format, depth)
      modifies this, hooks, buffer
      ensures Outcome(ok, AllPrintable(items) && (items.Nil? || |p| + |e| + 2 <= Limit()))
      ensures ok ==> Counted(p + e)
      decreases Count(f), 4
    {
      var current := first;
      ghost var d, q: seq<byte> := depth, p;
      ghost var rest: Text, begun := e, false;
      ghost var x, left := f, items;
      ListsParts(f, items);
      ok := true;
      while current != null
        invariant Counted(q) && Outcome(true, begun ==> |q| + 2 <= Limit())
        invariant current == Head(x) && Within(x, tree) && Lists(x, left) && (x.Grove? <==> left.Cons?)
        invariant if begun then items.Cons? else q == p && left == items
        invariant AllPlainNumbers(left) && (AllPrintable(items) <==> AllPrintable(left))
        invariant ShowsElements(rest, left, format, d) && q + rest == p + e
        invariant Count(x) <= Count(f)
        decreases x
      {
        ghost var q', rest';
        ok, current, q', rest' := ElementTurn(current, x, left, q, rest);
        if !ok {
          return;
        }
        q, rest, begun := q', rest', true;
        x, left := x.rest, left.tail;
      }
      NoElements(rest, left, format, d);
      assert q + [] == q;
    }

    /** print_array; `w` is the text of the array. */
    method PrintArray(child: N.Node?, ghost f: Forest, ghost items: Items, ghost p: seq<byte>, ghost w: Text) returns (ok: bool)
      requires child == Head(f) && Within(f, tree) && Lists(f, items)
      requires Counted(p) && AllPlainNumbers(items) && Shows(w, Array(items), format, depth)
      modifies this, hooks, buffer
      ensures Outcome(ok, AllPrintable(items) && |p| + |w| + 2 <= Limit())
      ensures ok ==> Reached(p + w)
      decreases 1 + Count(f), 0
    {
      ghost var e := ArrayText(p, w, items, format, depth, depth + 1);
      ok := PrintBrackets(child, f, items, p, e);
    }

    /** The brackets of an array around its elements, whose text is `e`. */
    method PrintBrackets(child: N.Node?, ghost f: Forest, ghost items: Items, ghost p: seq<byte>, ghost e: Text) returns (ok: bool)
      requires child == Head(f) && Within(f, tree) && Lists(f, items)
      requires Counted(p) && AllPlainNumbers(items) && ShowsElements(e, items, format, depth + 1)
      modifies this, hooks, buffer
      ensures Outcome(ok, AllPrintable(items) && |p| + |e| + 4 <= Limit())
      ensures ok ==> Reached(p + [LBRACKET] + e + [RBRACKET])
      decreases Count(f), 6
    {
      ok := PrintCounted([LBRACKET], 0, false, p);
      if ok {
        ok := PrintArrayBody(child, f, items, p + [LBRACKET], e);
      }
    }

    method PrintArrayBody(child: N.Node?, ghost f: Forest, ghost items: Items, ghost p: seq<byte>, ghost e: Text) returns (ok: bool)
      requires child == Head(f) && Within(f, tree) && Lists(f, items)
      requires Counted(p) && AllPlainNumbers(items) && ShowsElements(e, items, format, depth + 1)
      modifies this, hooks, buffer
      ensures Outcome(ok, AllPrintable(items) && |p| + |e| + 3 <= Limit())
      ensures ok ==> Reached(p + e + [RBRACKET])
      decreases Count(f), 5
    {
      AreAllocated(tree);
      depth := depth + 1;
      ok := PrintElements(child, f, items, p, e);
      if ok {
        ok := PrintClosing([RBRACKET], p + e);
      }
    }

    /** The indentation of a member. */
    method PrintIndent(ghost p: seq<byte>) returns (ok: bool)
      requires Counted(p)
      modifies this, hooks, buffer
      ensures ok ==> hooks.Granted(old(hooks.calls))
      ensures !ok ==> |p| + |Indent(format, old(depth))| + 1 > Limit() || !hooks.Granted(old(hooks.calls))
      ensures Outcome(ok, ok)
      ensures ok ==> Counted(p + Indent(format, old(depth)))
    {
      if format {
        ok := PrintCounted(Tabs(depth), 0, false, p);
      } else {
        assert p + [] == p;
        ok := true;
      }
    }

    /** The name and the colon of a member. */
    method PrintKey(input: array?<byte>, ghost name: Option<Text>, ghost q: seq<byte>) returns (ok: bool)
      requires Counted(q) && Spells(input, name) && input != buffer
      modifies this, hooks, buffer
      ensures ok ==> hooks.Granted(old(hooks.calls))
      ensures !ok ==> |q| + |Quoted(name)| + |AfterName(format)| + 1 > Limit() || !hooks.Granted(old(hooks.calls))
      ensures Outcome(ok, ok)
      ensures ok ==> Counted(q + Quoted(name) + AfterName(format))
    {
      ok := PrintString(input, name, q);
      if !ok {
        return;
      }
      UpdateOffset(q + Quoted(name));
      ok := PrintCounted(AfterName(format), 0, false, q + Quoted(name));
    }

    /** The indentation, the name and the colon of a member. */
    method PrintName(input: array?<byte>, ghost name: Option<Text>, ghost p: seq<byte>) returns (ok: bool)
      requires Counted(p) && Spells(input, name) && input != buffer
      modifies this, hooks, buffer
      ensures ok ==> hooks.Granted(old(hooks.calls))
      ensures !ok ==> |p| + |Member(name, [], format, old(depth))| + 2 > Limit() || !hooks.Granted(old(hooks.calls))
      ensures Outcome(ok, ok)
      ensures ok ==> Counted(p + Indent(format, old(depth)) + Quoted(name) + AfterName(format))
    {
      ghost var q := p + Indent(format, depth);
      ok := PrintIndent(p);
      if ok {
        ok := PrintKey(input, name, q);
      }
    }

    /** The value of a member, whose text is `w`, and what is behind it. */
    method PrintNamed(current: N.Node, ghost f: Forest, ghost items: Items, ghost q: seq<byte>, ghost w: Text, ghost after: Text)
      returns (ok: bool)
      requires f.Grove? && current == f.node && Within(f, tree) && Lists(f, items)
      requires items.Cons? && Counted(q) && PlainNumbers(items.head)
      requires w == Rendered(items.head, format, depth) && after == AfterMember(format, items.tail.Cons?)
      modifies this, hooks, buffer
      ensures Outcome(ok, Printable(items.head) && |q| + |w| + |after| + 2 <= Limit())
      ensures ok ==> Counted(q + w + after)
      decreases Count(f), 2
    {
      ReadsOf(f, items);
      ok := PrintValue(current, f.info, f.kids, items.head, q);
      if !ok {
        return;
      }
      UpdateOffset(q + w);
      ok := PrintCounted(AfterMember(format, current.next != null), 1, true, q + w);
    }

    /** One member, whose text is `m`, with what is behind it. */
    method PrintMember(current: N.Node, ghost f: Forest, ghost items: Items, ghost p: seq<byte>, ghost m: Text, ghost after: Text)
      returns (ok: bool)
      requires f.Grove? && current == f.node && Within(f, tree) && Lists(f, items)
      requires items.Cons? && Counted(p) && PlainNumbers(items.head)
      requires m == Member(items.name, Rendered(items.head, format, depth), format, depth)
      requires after == AfterMember(format, items.tail.Cons?)
      modifies this, hooks, buffer
      ensures Outcome(ok, Printable(items.head) && |p| + |m| + |after| + 2 <= Limit())
      ensures ok ==> Counted(p + m + after)
      decreases Count(f), 3
    {
      ghost var w, q := Rendered(items.head, format, depth), p + Indent(format, depth) + Quoted(items.name) + AfterName(format);
      MemberEnd(p, items.name, w, format, depth);
      ReadsOf(f, items);
      ok := PrintName(current.name, items.name, p);
      if ok {
        ok := PrintNamed(current, f, items, q, w, after);
      }
    }

    /** One turn of the loop of print_object. */
    method MemberTurn(current: N.Node, ghost x: Forest, ghost left: Items, ghost q: seq<byte>, ghost rest: Text)
      returns (ok: bool, next: N.Node?, ghost q': seq<byte>, ghost rest': Text)
      requires x.Grove? && current == x.node && Within(x, tree) && Lists(x, left)
      requires left.Cons? && Counted(q) && AllPlainNumbers(left) && ShowsMembers(rest, left, format, depth)
      modifies this, hooks, buffer
      ensures Outcome(ok, Printable(left.head) && |q'| + 2 <= Limit()) && (ok ==> Counted(q'))
      ensures q + rest == q' + rest' && ShowsMembers(rest', left.tail, format, old(depth))
      ensures next == Head(x.rest) && Within(x.rest, tree) && Lists(x.rest, left.tail) && (x.rest.Grove? <==> left.tail.Cons?)
      decreases Count(x), 4
    {
      ghost var w, behind;
      w, behind, rest' := MemberText(q, rest, left, format, depth);
      q' := q + w + behind;
      ReadsOf(x, left);
      ok := PrintMember(current, x, left, q, w, behind);
      next := current.next;
    }

    /** The loop over the members, from the first one on; their text is `e`. */
    method PrintMembers(first: N.Node?, ghost f: Forest, ghost items: Items, ghost p: seq<byte>, ghost e: Text) returns (ok: bool)
      requires first == Head(f) && Within(f, tree) && Lists(f, items)
      requires Counted(p) && AllPlainNumbers(items) && ShowsMembers(e, items, format, depth)
      modifies this, hooks, buffer
      ensures Outcome(ok, AllPrintable(items) && (items.Nil? || |p| + |e| + 2 <= Limit()))
      ensures ok ==> Counted(p + e)
      decreases Count(f), 5
    {
      var current := first;
      ghost var d, q: seq<byte> := depth, p;
      ghost var rest: Text, begun := e, false;
      ghost var x, left := f, items;
      ListsParts(f, items);
      ok := true;
      while current != null
        invariant Counted(q) && Outcome(true, begun ==> |q| + 2 <= Limit())
        invariant current == Head(x) && Within(x, tree) && Lists(x, left) && (x.Grove? <==> left.Cons?)
        invariant if begun then items.Cons? else q == p && left == items
        invariant AllPlainNumbers(left) && (AllPrintable(items) <==> AllPrintable(left))
        invariant ShowsMembers(rest, left, format, d) && q + rest == p + e
        invariant Count(x) <= Count(f)
        decreases x
      {
        ghost var q', rest';
        ok, current, q', rest' := MemberTurn(current, x, left, q, rest);
        if !ok {
          return;
        }
        q, rest, begun := q', rest', true;
        x, left := x.rest, left.tail;
      }
      NoMembers(rest, left, format, d);
      assert q + [] == q;
    }

    /** print_object; `w` is the text of the object. */
    method PrintObject(child: N.Node?, ghost f: Forest, ghost items: Items, ghost p: seq<byte>, ghost w: Text) returns (ok: bool)
      requires child == Head(f) && Within(f, tree) && Lists(f, items)
      requires Counted(p) && AllPlainNumbers(items) && Shows(w, Object(items), format, depth)
      modifies this, hooks, buffer
      ensures Outcome(ok, AllPrintable(items) && |p| + |w| + 2 <= Limit())
      ensures ok ==> Reached(p + w)
      decreases 1 + Count(f), 0
    {
      ghost var o, e, c := ObjectText(p, w, items, format, depth, depth + 1);
      ok := PrintBraces(child, f, items, p, o, e, c);
    }

    /** The braces of an object around its members, whose text is `e`. */
    method PrintBraces(child: N.Node?, ghost f: Forest, ghost items: Items, ghost p: seq<byte>, ghost o: Text, ghost e: Text, ghost c: Text)
      returns (ok: bool)
      requires child == Head(f) && Within(f, tree) && Lists(f, items)
      requires Counted(p) && AllPlainNumbers(items) && ShowsMembers(e, items, format, depth + 1)
      requires o == Opening(format) && c == Closing(format, depth)
      modifies this, hooks, buffer
      ensures Outcome(ok, AllPrintable(items) && |p| + |o| + |e| + |c| + 2 <= Limit())
      ensures ok ==> Reached(p + o + e + c)
      decreases Count(f), 7
    {
      ok := PrintCounted(Opening(format), 1, false, p);
      if ok {
        ok := PrintObjectBody(child, f, items, p + o, e, c);
      }
    }

    method PrintObjectBody(child: N.Node?, ghost f: Forest, ghost items: Items, ghost p: seq<byte>, ghost e: Text, ghost c: Text)
      returns (ok: bool)
      requires child == Head(f) && Within(f, tree) && Lists(f, items)
      requires Counted(p) && AllPlainNumbers(items) && ShowsMembers(e, items, format, depth + 1)
      requires c == Closing(format, depth)
      modifies this, hooks, buffer
      ensures Outcome(ok, AllPrintable(items) && |p| + |e| + |c| + 2 <= Limit())
      ensures ok ==> Reached(p + e + c)
      decreases Count(f), 6
    {
      ghost var outer := depth;
      AreAllocated(tree);
      depth := depth + 1;
      ok := PrintMembers(child, f, items, p, e);
      if ok {
        ok := PrintBrace(p + e, c, outer);
      }
    }

    /** The closing brace with its indentation. */
    method PrintBrace(ghost q: seq<byte>, ghost c: Text, ghost outer: nat) returns (ok: bool)
      requires Counted(q) && depth == outer + 1 && c == Closing(format, outer)
      modifies this, hooks, buffer
      ensures Framed() && (ok <==> |q| + |c| + 2 <= Limit() && hooks.Granted(old(hooks.calls)))
      ensures ok ==> depth == outer && Reached(q + c)
    {
      var level: nat := depth - 1;
      ok := PrintClosing(Closing(format, level), q);
    }

    /** The closing bracket or brace, one level further out. */
    method PrintClosing(close: Text, ghost q: seq<byte>) returns (ok: bool)
      requires Counted(q) && depth > 0
      modifies this, hooks, buffer
      ensures Framed() && (ok <==> |q| + |close| + 2 <= Limit() && hooks.Granted(old(hooks.calls)))
      ensures ok ==> depth == old(depth) - 1 && Reached(q + close)
    {
      ok := Token(close, 1, true);
      AreAllocated(tree);
      if ok {
        depth := depth - 1;
      }
    }
  }

  lemma ArrayText(p: seq<byte>, w: Text, items: Items, format: bool, d: nat, inner: nat) returns (e: Text)
    requires Shows(w, Array(items), format, d) && inner == d + 1
    ensures ShowsElements(e, items, format, inner)
    ensures p + w == p + [LBRACKET] + e + [RBRACKET] && |w| == |e| + 2
  {
    assert Known(Array(items));
    e := RenderedElements(items, format, inner);
    ContainerText(p, [LBRACKET], e, [RBRACKET]);
  }

  lemma ObjectText(p: seq<byte>, w: Text, items: Items, format: bool, d: nat, inner: nat) returns (o: Text, e: Text, c: Text)
    requires Shows(w, Object(items), format, d) && inner == d + 1
    ensures o == Opening(format) && ShowsMembers(e, items, format, inner) && c == Closing(format, d)
    ensures p + w == p + o + e + c && |w| == |o| + |e| + |c|
  {
    assert Known(Object(items));
    o, e, c := Opening(format), RenderedMembers(items, format, inner), Closing(format, d);
    ContainerText(p, o, e, c);
  }

  lemma ContainerText(p: seq<byte>, open: seq<byte>, e: seq<byte>, close: seq<byte>)
    ensures p + (open + (e + close)) == p + open + e + close
    ensures |open + (e + close)| == |open| + |e| + |close|
  {
  }

  lemma MemberEnd(p: seq<byte>, name: Option<Text>, w: Text, format: bool, d: nat)
    ensures p + Indent(format, d) + Quoted(name) + AfterName(format) + w == p + Member(name, w, format, d)
    ensures |Member(name, w, format, d)| == |Member(name, [], format, d)| + |w|
  {
    JoinFive(p, Indent(format, d), Quoted(name), AfterName(format), w);
  }

  lemma JoinFive(p: seq<byte>, a: Text, b: Text, c: Text, w: Text)
    ensures p + a + b + c + w == p + (a + (b + (c + w)))
  {
  }

  /** The text still to come, once an element and its comma are split off. */
  lemma ElementText(q: seq<byte>, rest: Text, items: Items, format: bool, d: nat) returns (w: Text, comma: Text, rest': Text)
    requires items.Cons? && ShowsElements(rest, items, format, d)
    ensures w == Rendered(items.head, format, d) && comma == ArrayComma(format, items.tail.Cons?)
    ensures ShowsElements(rest', items.tail, format, d)
    ensures q + rest == q + w + comma + rest' && |rest| == |w| + |comma| + |rest'|
  {
    assert Sought(items);
    w, comma, rest' := Rendered(items.head, format, d), ArrayComma(format, items.tail.Cons?), RenderedElements(items.tail, format, d);
    RegroupLeft(q, w, comma, rest');
  }

  lemma MemberText(q: seq<byte>, rest: Text, items: Items, format: bool, d: nat) returns (m: Text, after: Text, rest': Text)
    requires items.Cons? && ShowsMembers(rest, items, format, d)
    ensures m == Member(items.name, Rendered(items.head, format, d), format, d) && after == AfterMember(format, items.tail.Cons?)
    ensures ShowsMembers(rest', items.tail, format, d)
    ensures q + rest == q + m + after + rest' && |rest| == |m| + |after| + |rest'|
  {
    assert Sought(items);
    m, after := Member(items.name, Rendered(items.head, format, d), format, d), AfterMember(format, items.tail.Cons?);
    rest' := RenderedMembers(items.tail, format, d);
    RegroupLeft(q, m, after, rest');
  }

  lemma {:induction false} QuotedText(p: seq<byte>, t: Text)
    ensures p + [QUOTE] + Escape(t) + [QUOTE] == p + Quoted(Some(t))
    ensures (p + Quoted(Some(t)))[..|p|] == p
  {
  }

  /** The first pass: the length of the string and the extra characters its escapes need. */
  method CountEscapes(input: array<byte>, ghost t: Text) returns (length: nat, extra: nat)
    requires Spells(input, Some(t))
    ensures length == |t| && |t| + extra == |Escape(t)|
  {
    extra := 0;
    var i := 0;
    SpelledByte(input, t, 0);
    while input[i] != NUL
      invariant i <= |t| && (input[i] == NUL <==> i == |t|) && (i < |t| ==> input[i] == t[i])
      invariant i + extra == |Escape(t[..i])|
      decreases |t| - i
    {
      EscapeNext(t, i);
      SpelledByte(input, t, i + 1);
      if EscapeLetter(input[i]) >= 0 {
        extra := extra + 1;
      } else if input[i] < 32 {
        extra := extra + 5;
      }
      i := i + 1;
    }
    assert t[..i] == t;
    length := i;
  }

  lemma SpelledByte(input: array<byte>, t: Text, i: nat)
    requires Spells(input, Some(t)) && i <= |t|
    ensures i < |t| ==> input[i] == t[i]
    ensures input[i] == NUL <==> i == |t|
  {
    if i < |t| { assert input[..|t|][i] == t[i]; }
  }

  /** strlen. */
  method Strlen(input: array<byte>, ghost t: Text) returns (length: nat)
    requires Spells(input, Some(t))
    ensures length == |t|
  {
    length := 0;
    SpelledByte(input, t, 0);
    while input[length] != NUL
      invariant length <= |t| && (input[length] == NUL <==> length == |t|)
      decreases |t| - length
    {
      SpelledByte(input, t, length + 1);
      length := length + 1;
    }
  }

  lemma {:induction false} EscapeAppend(a: Text, b: Text)
    ensures Escape(a + b) == Escape(a) + Escape(b)
    decreases a
  {
    if a == [] {
      assert a + b == b;
    } else {
      assert (a + b)[1..] == a[1..] + b;
      EscapeAppend(a[1..], b);
    }
  }

  lemma EscapeNext(t: Text, i: nat)
    requires i < |t|
    ensures Escape(t[..i + 1]) == Escape(t[..i]) + EscapeByte(t[i])
    ensures |Escape(t[..i])| + |EscapeByte(t[i])| + |Escape(t[i + 1..])| == |Escape(t)|
  {
    assert t[..i + 1] == t[..i] + [t[i]] && t == t[..i + 1] + t[i + 1..];
    EscapeAppend(t[..i], [t[i]]);
    EscapeAppend(t[..i + 1], t[i + 1..]);
    assert [t[i]][1..] == [];
  }

  /** When no escape is counted the text is copied as it is. */
  lemma {:induction false} NothingEscaped(t: Text)
    requires |Escape(t)| == |t|
    ensures Escape(t) == t
    decreases t
  {
    if t != [] {
      EscapeGrows(t[1..]);
      NothingEscaped(t[1..]);
      assert EscapeByte(t[0]) == [t[0]];
      assert t == [t[0]] + t[1..];
    }
  }

  lemma {:induction false} EscapeGrows(t: Text)
    ensures |Escape(t)| >= |t|
    decreases t
  {
    if t != [] { EscapeGrows(t[1..]); }
  }
}
