/** The parser as it runs: nodes and strings come from the hooks, and a failure gives all of them back. */
module Parser {
  import opened Bytes
  import opened JsonValue
  import opened StringLiteral
  import opened Numbers
  import opened Memory
  import opened Trees
  import opened ParseSteps
  import G = Grammar
  import N = Nodes

  /** What a parsed node records besides its name. */
  ghost predicate Carries(node: N.Node, info: Info)
    reads node, info.text
  {
    && node.kind == info.kind && !node.isReference && !node.nameIsConst && !info.isReference && !info.nameIsConst
    && node.valuestring == info.text && Spells(info.text, info.body)
    && node.valuedouble == info.value && node.valueint == info.intValue
  }

  /** A node as memset leaves it. */
  const BLANK: Info := Info(N.Invalid, false, false, null, None, null, None, 0.0, 0)

  /** A list being parsed: the finished elements and the current one. */
  datatype Row = Row(done: Forest, tail: Forest)

  ghost function All(r: Row): Forest { Joined(r.done, r.tail) }

  ghost predicate Lined(head: N.Node?, last: N.Node?, r: Row)
    reads NodesOf(r.done), Blocks(r.done), NodesOf(r.tail), Blocks(r.tail)
  {
    && head == Head(All(r)) && last == Head(r.tail)
    && if last == null then r.done.Empty? else Strung(r.done, r.tail)
  }

  ghost predicate Bare(item: N.Node)
    reads item
  {
    && Carries(item, BLANK) && item.next == null && item.child == null && item.name == null
  }

  class ParseBuffer {
    const content: G.Buffer
    var offset: nat
    var depth: nat
    const hooks: Hooks

    constructor (content: G.Buffer, hooks: Hooks)
      ensures this.content == content && this.hooks == hooks && offset == 0 && depth == 0
    {
      this.content, this.hooks := content, hooks;
      offset, depth := 0, 0;
    }

    /** buffer_skip_whitespace. */
    method SkipWhitespace()
      requires offset < |content|
      modifies this`offset
      ensures offset == G.SkipSpace(content, old(offset)) < |content|
    {
      ghost var start := offset;
      while offset < |content| && content[offset] <= 32
        invariant start <= offset <= |content|
        invariant G.SkipSpace(content, start) == if offset < |content| then G.SkipSpace(content, offset) else |content| - 1
        decreases |content| - offset
      {
        offset := offset + 1;
      }
      if offset == |content| {
        offset := offset - 1;
      }
    }

    /** skip_utf8_bom, at the start of the buffer. */
    method SkipBom()
      requires offset == 0
      modifies this`offset
      ensures offset == G.SkipBom(content)
    {
      if 4 < |content| && content[0] == 0xEF && content[1] == 0xBB && content[2] == 0xBF {
        offset := offset + 3;
      }
    }

    /** What the parse of a value has put into `item`, and the blocks this took. */
    twostate predicate Filled(item: N.Node, new info: Info, new kids: Forest)
      reads this, hooks, item, info.text, NodesOf(kids), Blocks(kids)
    {
      && Carries(item, info) && item.child == Head(kids) && Built(kids, null) && Ringed(kids)
      && Own(info.text, false) !! old(hooks.live) && Owned(kids) !! old(hooks.live) + Own(info.text, false)
      && hooks.live == old(hooks.live) + Own(info.text, false) + Owned(kids)
    }

    /** The first pass of parse_string: where the literal at the offset ends, and the space it needs. */
    method ScanLiteral() returns (end: int, size: nat)
      requires offset < |content|
      ensures end < 0 ==> StringLiteral.ParseString(content, offset) == Error(offset + 1)
      ensures end >= 0 ==> content[offset] == QUOTE && ClosingQuote(content, offset + 1) == end
                           && size == UnitCount(content, offset + 1, end) + 2
    {
      if content[offset] != QUOTE {
        return -1, 0;
      }
      var skipped;
      end, skipped := ScanString(content, offset + 1);
      size := if end < 0 then 0 else end - offset - skipped + 1;
    }

    /** Both passes of parse_string: the literal at the offset in a block of its own. */
    method ParseLiteral(ghost r: Outcome<Text>) returns (output: array?<byte>)
      requires offset < |content| && StringIs(content, offset, r)
      modifies this`offset, hooks
      ensures hooks.calls >= old(hooks.calls) && offset <= |content|
      ensures output != null <==> r.Done? && hooks.Granted(old(hooks.calls))
      ensures hooks.Granted(old(hooks.calls)) ==> offset == r.pos
      ensures output != null ==>
                fresh(output) && Spells(output, Some(r.value)) && hooks.live == old(hooks.live) + {output}
      ensures output == null ==> hooks.live == old(hooks.live)
    {
      var start := offset;
      var end, size := ScanLiteral();
      offset := start + 1;
      output := null;
      if end < 0 {
        OpenStringAt(content, start);
        return;
      }
      output := hooks.Allocate(size);
      if output == null {
        return;
      }
      var ok, p := FillLiteral(start, end, output, r);
      offset := p;
      if !ok {
        hooks.Deallocate(output);
        output := null;
      }
    }

    /** The second pass: the block is filled, or `p` is where unescaping failed. */
    method FillLiteral(start: nat, end: nat, output: array<byte>, ghost r: Outcome<Text>) returns (ok: bool, p: nat)
      requires start < |content| && content[start] == QUOTE && StringIs(content, start, r)
      requires ClosingQuote(content, start + 1) == end && output.Length == UnitCount(content, start + 1, end) + 2
      modifies output
      ensures ok == r.Done? && p == r.pos <= |content| && (ok ==> Spells(output, Some(r.value)))
    {
      OpenStringAt(content, start);
      ok, p := UnescapeLiteral(content, start, end, output);
      if ok {
        p := end + 1;
      }
    }

    /** parse_string: the text goes to valuestring. */
    method ParseString(item: N.Node, ghost r: Outcome<Text>) returns (ok: bool, ghost info: Info)
      requires offset < |content| && item.child == null && item.valuestring == null && StringIs(content, offset, r)
      modifies this`offset, hooks, item`kind, item`isReference, item`nameIsConst, item`valuestring
      ensures hooks.calls >= old(hooks.calls) && offset <= |content|
      ensures ok <==> r.Done? && hooks.Granted(old(hooks.calls))
      ensures hooks.Granted(old(hooks.calls)) ==> offset == r.pos
      ensures ok ==> info.kind == N.String && info.body == Some(r.value)
      ensures !ok ==> hooks.live == old(hooks.live) && unchanged(item)
      ensures ok ==> item.valuestring != null && Filled(item, info, Empty)
    {
      info := BLANK;
      var output := ParseLiteral(r);
      ok := output != null;
      if ok {
        item.kind, item.isReference, item.nameIsConst := N.String, false, false;
        item.valuestring := output;
        info := BLANK.(kind := N.String, text := output, body := Some(r.value), value := item.valuedouble, intValue := item.valueint);
      }
    }

    /** The stores at the end of both number parsers. */
    method SetNumber(item: N.Node, value: real, intValue: int) returns (ghost info: Info)
      requires item.child == null && item.valuestring == null
      modifies item`kind, item`isReference, item`nameIsConst, item`valueint, item`valuedouble
      ensures Filled(item, info, Empty) && ValueOf(info, Nil) == Number(value, intValue)
    {
      item.valuedouble, item.valueint := value, intValue;
      item.kind, item.isReference, item.nameIsConst := N.Number, false, false;
      info := BLANK.(kind := N.Number, value := value, intValue := intValue);
    }

    /** parse_number. */
    method ParseNumber(item: N.Node) returns (ok: bool, ghost info: Info)
      requires offset < |content| && item.child == null && item.valuestring == null
      modifies this`offset, item`kind, item`isReference, item`nameIsConst, item`valueint, item`valuedouble
      ensures var r := Numbers.ParseNumber(content, old(offset));
        ok == r.Done? && offset == r.pos && (ok ==> r.value == ValueOf(info, Nil))
      ensures if ok then Filled(item, info, Empty) else unchanged(item)
    {
      info := BLANK;
      var value, intValue, length := ReadNumber(content, offset);
      ok := length != 0;
      if ok {
        offset := offset + length;
        info := SetNumber(item, value, intValue);
      }
    }

    /** parse_number_hex. */
    method ParseNumberHex(item: N.Node) returns (ghost info: Info)
      requires offset < |content| && item.child == null && item.valuestring == null
      modifies this`offset, item`kind, item`isReference, item`nameIsConst, item`valueint, item`valuedouble
      ensures var r := ParseHexNumber(content, old(offset)); offset == r.pos && r.value == ValueOf(info, Nil)
      ensures Filled(item, info, Empty)
    {
      var text, advance := CopyHexNumber(content, offset);
      var number := Strtoul(text);
      offset := offset + advance;
      info := SetNumber(item, number as real, LowInt(number));
    }

    /** "allocate next item" and "attach next item to list", at the start of both loops over children. */
    method NewChild(head: N.Node?, last: N.Node?, ghost r: Row) returns (item: N.Node?, first: N.Node?, ghost r': Row)
      requires Lined(head, last, r) && Owned(All(r)) <= hooks.live
      modifies hooks, (if last == null then {} else {last})`next
      ensures hooks.calls == old(hooks.calls) + 1 && (item == null <==> hooks.refuses(old(hooks.calls)))
      ensures item == null ==> first == head && r' == r && Lined(head, last, r) && hooks.live == old(hooks.live)
      ensures item != null ==> fresh(item) && Lined(first, item, r') && hooks.live == old(hooks.live) + {item}
      ensures item != null ==> r' == Row(All(r), Grove(item, BLANK, Empty, Empty))
      ensures item != null ==> Bare(item)
    {
      item := NewNode(head, last, r);
      first, r' := head, r;
      if item == null {
        return;
      }
      ghost var one := Grove(item, BLANK, Empty, Empty);
      r' := Row(All(r), one);
      JoinedParts(r.done, r.tail);
      JoinedParts(All(r), one);
      if head == null {
        first := item;
      } else {
        Link(last, item, r.done, r.tail, one);
      }
    }

    /** The allocation leaves the row alone. */
    method NewNode(head: N.Node?, last: N.Node?, ghost r: Row) returns (item: N.Node?)
      requires Lined(head, last, r) && Owned(All(r)) <= hooks.live
      modifies hooks
      ensures hooks.calls == old(hooks.calls) + 1 && (item == null <==> hooks.refuses(old(hooks.calls)))
      ensures Lined(head, last, r) && hooks.live == if item == null then old(hooks.live) else old(hooks.live) + {item}
      ensures item != null ==> fresh(item) && Bare(item)
      ensures item != null ==> var one := Grove(item, BLANK, Empty, Empty); Built(one, null) && Owned(one) == {item as object}
    {
      AreAllocated(r.done);
      AreAllocated(r.tail);
      item := hooks.NewItem();
      StaysBuilt(r.done);
      StaysBuilt(r.tail);
      if item != null {
        OwnedByRoot(item, BLANK, Empty);
        Rooted(item, BLANK, Empty);
      }
    }

    /** The answer to a parse into `item`: what `r` says, unless an allocation was refused. */
    twostate predicate Answers(r: Outcome<Json>, ok: bool, item: N.Node, new info: Info, new kids: Forest)
      reads this, hooks, item, info.text, NodesOf(kids), Blocks(kids)
    {
      && hooks.calls >= old(hooks.calls) && offset <= |content|
      && (ok <==> r.Done? && hooks.Granted(old(hooks.calls)))
      && (hooks.Granted(old(hooks.calls)) ==> offset == r.pos)
      && (ok ==> offset < |content| && depth == old(depth)
                 && Filled(item, info, kids) && ValueOf(info, ItemsOf(kids)) == r.value)
      && (!ok ==> hooks.live == old(hooks.live) && unchanged(item))
    }

    /** parse_value: the words. */
    method ParseWord(item: N.Node, word: Text, kind: N.Kind, intValue: int) returns (ghost info: Info)
      requires offset + |word| < |content| && item.child == null && item.valuestring == null
      modifies this`offset, item`kind, item`isReference, item`nameIsConst, item`valueint
      ensures offset == old(offset) + |word| && Filled(item, info, Empty) && info.kind == kind
    {
      item.kind, item.isReference, item.nameIsConst := kind, false, false;
      item.valueint := intValue;
      offset := offset + |word|;
      info := BLANK.(kind := kind, intValue := intValue, value := item.valuedouble);
    }

    /** A node from the hooks that has no value yet. */
    ghost predicate Fillable(item: N.Node)
      reads hooks, item
    {
      (item as object) in hooks.live && item.child == null && item.valuestring == null
    }

    /** parse_value. */
    method ParseValue(item: N.Node, ghost r: Outcome<Json>) returns (ok: bool, ghost info: Info, ghost kids: Forest)
      requires offset < |content| && Fillable(item) && ValueIs(content, offset, depth, r)
      modifies this`offset, this`depth, hooks
      modifies item`kind, item`isReference, item`nameIsConst, item`valuestring, item`valueint, item`valuedouble, item`child
      ensures Answers(r, ok, item, info, kids)
      decreases |content| - offset, 11
    {
      info, kids := BLANK, Empty;
      ok := true;
      var o := offset;
      OpenValue(content, o, depth);
      if At(content, o, G.NULL_WORD) {
        G.LastByte(content, o, G.NULL_WORD);
        info := ParseWord(item, G.NULL_WORD, N.Kind.Null, item.valueint);
      } else if At(content, o, G.FALSE_WORD) {
        G.LastByte(content, o, G.FALSE_WORD);
        info := ParseWord(item, G.FALSE_WORD, N.Kind.False, item.valueint);
      } else if At(content, o, G.TRUE_WORD) {
        G.LastByte(content, o, G.TRUE_WORD);
        info := ParseWord(item, G.TRUE_WORD, N.Kind.True, 1);
      } else {
        ok, info, kids := ParseToken(item, r);
      }
    }

    /** The branches of parse_value that look at one or two bytes. */
    method ParseToken(item: N.Node, ghost r: Outcome<Json>) returns (ok: bool, ghost info: Info, ghost kids: Forest)
      requires offset < |content| && Fillable(item) && ValueIs(content, offset, depth, r)
      requires forall w <- [G.NULL_WORD, G.FALSE_WORD, G.TRUE_WORD] :: !At(content, offset, w)
      modifies this`offset, this`depth, hooks
      modifies item`kind, item`isReference, item`nameIsConst, item`valuestring, item`valueint, item`valuedouble, item`child
      ensures Answers(r, ok, item, info, kids)
      decreases |content| - offset, 10
    {
      info, kids := BLANK, Empty;
      ok := true;
      var o := offset;
      var c := content[o];
      if c == QUOTE {
        OpenQuote(content, o, depth, r);
        ok, info := ParseString(item, StringAt(content, o));
      } else if c == ZERO && o + 1 < |content| && content[o + 1] == LOWER_X {
        OpenHex(content, o, depth, r);
        info := ParseNumberHex(item);
      } else if G.StartsNumber(c) {
        OpenNumber(content, o, depth, r);
        ok, info := ParseNumber(item);
      } else if c == LBRACKET {
        ok, info, kids := ParseArray(item, r);
      } else if c == LBRACE {
        ok, info, kids := ParseObject(item, r);
      } else {
        OpenNothing(content, o, depth, r);
        ok := false;
      }
    }

    /** The success exit of parse_array and parse_object, at the closing bracket or brace. */
    method EndContainer(item: N.Node, kind: N.Kind, head: N.Node?, ghost kids: Forest) returns (ghost info: Info)
      requires item.child == null && item.valuestring == null && depth > 0
      requires head == Head(kids) && Built(kids, null) && Ringed(kids) && (item as object) !in Owned(kids)
      modifies this`offset, this`depth, item`kind, item`isReference, item`nameIsConst, item`child
      ensures offset == old(offset) + 1 && depth == old(depth) - 1
      ensures Carries(item, info) && info.text == null && info.kind == kind
      ensures item.child == Head(kids) && Built(kids, null) && Ringed(kids)
    {
      assert Open(kids);
      Elsewhere(kids, item, item);
      depth := depth - 1;
      item.kind, item.isReference, item.nameIsConst := kind, false, false;
      item.child := head;
      offset := offset + 1;
      StaysBuilt(kids);
      info := BLANK.(kind := kind, value := item.valuedouble, intValue := item.valueint);
    }

    /** The failure exit of both loops. */
    method Discard(head: N.Node?, last: N.Node?, ghost r: Row)
      requires Lined(head, last, r) && Owned(All(r)) <= hooks.live
      modifies hooks
      ensures hooks.live == old(hooks.live) - Owned(All(r)) && hooks.calls == old(hooks.calls)
    {
      if head != null {
        JoinedParts(r.done, r.tail);
        JoinedBuilt(r.done, r.tail, null);
        DeleteList(hooks, head, All(r));
      }
    }

    /** The success exit: the head's prev link is set. */
    method EndRow(head: N.Node, last: N.Node, ghost r: Row) returns (ghost kids: Forest)
      requires Lined(head, last, r)
      modifies head`prev
      ensures kids == All(r) && head == Head(kids) && Built(kids, null) && Ringed(kids)
    {
      kids := All(r);
      JoinedParts(r.done, r.tail);
      JoinedBuilt(r.done, r.tail, null);
      Close(head, last, kids);
    }

    /** parse_array. */
    method ParseArray(item: N.Node, ghost r: Outcome<Json>) returns (ok: bool, ghost info: Info, ghost kids: Forest)
      requires offset + 1 < |content| && Fillable(item) && content[offset] == LBRACKET && ValueIs(content, offset, depth, r)
      modifies this`offset, this`depth, hooks
      modifies item`kind, item`isReference, item`nameIsConst, item`child
      ensures Answers(r, ok, item, info, kids)
      decreases |content| - offset, 9
    {
      info, kids := BLANK, Empty;
      if depth >= G.NESTING_LIMIT {
        TooDeep(content, offset, depth, r);
        return false, info, kids;
      }
      var head;
      ok, head, kids := ParseBrackets(r);
      if ok {
        info := EndContainer(item, N.Kind.Array, head, kids);
      }
    }

    /** The part of parse_array between the nesting check and the exits: up to the closing bracket. */
    method ParseBrackets(ghost r: Outcome<Json>) returns (ok: bool, head: N.Node?, ghost kids: Forest)
      requires offset + 1 < |content| && depth < G.NESTING_LIMIT && content[offset] == LBRACKET && ValueIs(content, offset, depth, r)
      modifies this`offset, this`depth, hooks
      ensures hooks.calls >= old(hooks.calls) && offset <= |content|
      ensures ok <==> r.Done? && hooks.Granted(old(hooks.calls))
      ensures hooks.Granted(old(hooks.calls)) ==> r.pos == if ok then offset + 1 else offset
      ensures ok ==> offset + 1 < |content| && depth == old(depth) + 1 && r.value == Array(ItemsOf(kids))
      ensures head == Head(kids) && Built(kids, null) && Ringed(kids) && (!ok ==> kids.Empty?)
      ensures Owned(kids) !! old(hooks.live) && hooks.live == old(hooks.live) + Owned(kids)
      decreases |content| - offset, 8
    {
      head, kids := null, Empty;
      ghost var o, d := offset, depth;
      depth := depth + 1;
      offset := offset + 1;
      SkipWhitespace();
      var first := offset;
      ghost var v := ArrayParts(content, o, d, first, r);
      if content[first] == RBRACKET {
        return true, head, kids;
      }
      offset := first - 1;
      ok, head, kids := ParseElements(v);
      if ok && content[offset] != RBRACKET {
        DeleteList(hooks, head, kids);
        return false, null, Empty;
      }
    }

    /** parse_object. */
    method ParseObject(item: N.Node, ghost r: Outcome<Json>) returns (ok: bool, ghost info: Info, ghost kids: Forest)
      requires offset + 1 < |content| && Fillable(item) && content[offset] == LBRACE && ValueIs(content, offset, depth, r)
      modifies this`offset, this`depth, hooks
      modifies item`kind, item`isReference, item`nameIsConst, item`child
      ensures Answers(r, ok, item, info, kids)
      decreases |content| - offset, 9
    {
      info, kids := BLANK, Empty;
      if depth >= G.NESTING_LIMIT {
        TooDeep(content, offset, depth, r);
        return false, info, kids;
      }
      var head;
      ok, head, kids := ParseBraces(r);
      if ok {
        info := EndContainer(item, N.Kind.Object, head, kids);
      }
    }

    /** The part of parse_object between the nesting check and the exits: up to the closing brace. */
    method ParseBraces(ghost r: Outcome<Json>) returns (ok: bool, head: N.Node?, ghost kids: Forest)
      requires offset + 1 < |content| && depth < G.NESTING_LIMIT && content[offset] == LBRACE && ValueIs(content, offset, depth, r)
      modifies this`offset, this`depth, hooks
      ensures hooks.calls >= old(hooks.calls) && offset <= |content|
      ensures ok <==> r.Done? && hooks.Granted(old(hooks.calls))
      ensures hooks.Granted(old(hooks.calls)) ==> r.pos == if ok then offset + 1 else offset
      ensures ok ==> offset + 1 < |content| && depth == old(depth) + 1 && r.value == Object(ItemsOf(kids))
      ensures head == Head(kids) && Built(kids, null) && Ringed(kids) && (!ok ==> kids.Empty?)
      ensures Owned(kids) !! old(hooks.live) && hooks.live == old(hooks.live) + Owned(kids)
      decreases |content| - offset, 8
    {
      head, kids := null, Empty;
      ghost var o, d := offset, depth;
      depth := depth + 1;
      offset := offset + 1;
      SkipWhitespace();
      var first := offset;
      ghost var v := ObjectParts(content, o, d, first, r);
      if content[first] == RBRACE {
        return true, head, kids;
      }
      offset := first - 1;
      ok, head, kids := ParseMembers(v);
      if ok && content[offset] != RBRACE {
        DeleteList(hooks, head, kids);
        return false, null, Empty;
      }
    }

    /** The byte before a value and the space around the value are passed with it. */
    method ParseSpaced(item: N.Node, ghost r: Outcome<Json>) returns (ok: bool, ghost info: Info, ghost kids: Forest)
      requires offset + 1 < |content| && Fillable(item) && SpacedIs(content, offset, depth, r)
      modifies this`offset, this`depth, hooks
      modifies item`kind, item`isReference, item`nameIsConst, item`valuestring, item`valueint, item`valuedouble, item`child
      ensures Answers(r, ok, item, info, kids)
      decreases |content| - offset, 0
    {
      ghost var v := SpacedParts(content, offset, depth, r);
      offset := offset + 1;
      SkipWhitespace();
      ok, info, kids := ParseValue(item, v);
      if ok {
        AreAllocated(kids);
        label Parsed: SkipWhitespace();
        StaysBuilt@Parsed(kids);
      }
    }

    /** Parsing into a node leaves a list that does not own it alone. */
    method ParseBeside(item: N.Node, ghost f: Forest, ghost r: Outcome<Json>)
      returns (ok: bool, ghost info: Info, ghost kids: Forest)
      requires offset + 1 < |content| && Fillable(item) && SpacedIs(content, offset, depth, r)
      requires Built(f, item) && (item as object) !in Owned(f)
      modifies this`offset, this`depth, hooks
      modifies item`kind, item`isReference, item`nameIsConst, item`valuestring, item`valueint, item`valuedouble, item`child
      ensures Answers(r, ok, item, info, kids)
      ensures Built(f, item)
      decreases |content| - offset, 1
    {
      AreAllocated(f);
      assert Open(f);
      Elsewhere(f, item, item);
      ok, info, kids := ParseSpaced(item, r);
      StaysBuilt(f);
    }

    /** An element or the value of a member is parsed into the current node of a row. */
    method ParseInto(item: N.Node, ghost row: Row, ghost r: Outcome<Json>) returns (ok: bool, ghost row': Row)
      requires offset + 1 < |content| && Fillable(item) && SpacedIs(content, offset, depth, r)
      requires row.tail.Grove? && row.tail.node == item && !row.tail.info.nameIsConst && row.tail.kids.Empty?
      requires Strung(row.done, row.tail) && Owned(row.done) + Owned(row.tail) <= hooks.live
      modifies this`offset, this`depth, hooks
      modifies item`kind, item`isReference, item`nameIsConst, item`valuestring, item`valueint, item`valuedouble, item`child
      ensures hooks.calls >= old(hooks.calls) && offset <= |content|
      ensures ok <==> r.Done? && hooks.Granted(old(hooks.calls))
      ensures hooks.Granted(old(hooks.calls)) ==> offset == r.pos
      ensures ok ==> offset < |content| && depth == old(depth)
                     && ItemsOf(row'.tail) == Cons(row.tail.info.nameText, r.value, Nil)
      ensures row'.done == row.done && (!ok ==> row' == row)
      ensures row'.tail.Grove? && row'.tail.node == item && Strung(row'.done, row'.tail)
      ensures hooks.live == old(hooks.live) + Owned(row'.tail)
      ensures Owned(row'.tail) !! old(hooks.live) - Owned(row.tail) && Owned(row.tail) <= Owned(row'.tail)
      decreases |content| - offset, 2
    {
      ghost var tag := row.tail.info;
      AreAllocated(row.tail);
      assert Open(row.tail);
      OwnedByRoot(item, tag, Empty);
      ghost var info, kids;
      ok, info, kids := ParseBeside(item, row.done, r);
      row' := row;
      if ok {
        ghost var whole := info.(name := tag.name, nameText := tag.nameText);
        Rooted(item, whole, kids);
        OwnedByRoot(item, whole, kids);
        row' := Row(row.done, Grove(item, whole, kids, Empty));
      } else {
        StaysBuilt(row.tail);
      }
    }

    /** An element goes into the new last node of a list. */
    method ElementAtEnd(item: N.Node, ghost row: Row, ghost r: Outcome<Json>) returns (ok: bool, ghost row': Row)
      requires offset + 1 < |content| && Bare(item) && SpacedIs(content, offset, depth, r)
      requires row.tail == Grove(item, BLANK, Empty, Empty) && Strung(row.done, row.tail)
      requires Owned(row.done) <= hooks.live && (item as object) in hooks.live
      modifies this`offset, this`depth, hooks
      modifies item`kind, item`isReference, item`nameIsConst, item`valuestring, item`valueint, item`valuedouble, item`child
      ensures hooks.calls >= old(hooks.calls) && offset <= |content|
      ensures ok <==> r.Done? && hooks.Granted(old(hooks.calls))
      ensures hooks.Granted(old(hooks.calls)) ==> offset == r.pos
      ensures ok ==> offset < |content| && depth == old(depth) && ItemsOf(All(row')) == Append(ItemsOf(row.done), Cons(None, r.value, Nil))
      ensures Lined(if row.done.Grove? then row.done.node else item, item, row')
      ensures Owned(All(row')) <= hooks.live && hooks.live - Owned(All(row')) == old(hooks.live) - (Owned(row.done) + {item})
      decreases |content| - offset, 3
    {
      OwnedByRoot(item, BLANK, Empty);
      ok, row' := ParseInto(item, row, r);
      JoinedParts(row.done, row'.tail);
    }

    /** One turn of the loop of parse_array: a new node, then its value. */
    method ParseElement(head: N.Node?, last: N.Node?, ghost row: Row, ghost r: Outcome<Json>)
      returns (ok: bool, first: N.Node?, item: N.Node?, ghost row': Row)
      requires offset + 1 < |content| && SpacedIs(content, offset, depth, r)
      requires Lined(head, last, row) && Owned(All(row)) <= hooks.live
      modifies this`offset, this`depth, hooks, (if last == null then {} else {last})`next
      ensures hooks.calls >= old(hooks.calls) && offset <= |content|
      ensures ok <==> r.Done? && hooks.Granted(old(hooks.calls))
      ensures hooks.Granted(old(hooks.calls)) ==> offset == r.pos
      ensures ok ==> offset < |content| && depth == old(depth)
                     && ItemsOf(All(row')) == Append(ItemsOf(All(row)), Cons(None, r.value, Nil))
      ensures Lined(first, item, row') && (ok ==> item != null && fresh(item))
      ensures first == if head == null then item else head
      ensures Owned(All(row')) <= hooks.live && hooks.live - Owned(All(row')) == old(hooks.live) - Owned(All(row))
      decreases |content| - offset, 4
    {
      item, first, row' := NewChild(head, last, row);
      if item == null {
        return false, head, last, row;
      }
      ok, row' := ElementAtEnd(item, row', r);
    }

    /** One turn of the do loop of parse_array and the test behind it. */
    method ElementTurn(head: N.Node?, last: N.Node?, ghost row: Row, ghost rest: Outcome<Items>)
      returns (ok: bool, more: bool, first: N.Node?, item: N.Node?, ghost row': Row, ghost rest': Outcome<Items>)
      requires offset + 1 < |content| && ElementsAre(content, offset, depth, rest)
      requires Lined(head, last, row) && Owned(All(row)) <= hooks.live
      modifies this`offset, this`depth, hooks, (if last == null then {} else {last})`next
      ensures hooks.calls >= old(hooks.calls) && offset <= |content| && (ok ==> hooks.Granted(old(hooks.calls)))
      ensures !ok && hooks.Granted(old(hooks.calls)) ==> rest == Error(offset)
      ensures ok ==> old(offset) < offset < |content| && depth == old(depth) && (more ==> offset + 1 < |content|)
      ensures ok ==> if more then ElementsAre(content, offset, depth, rest')
                                  && Prefixed(ItemsOf(All(row)), rest) == Prefixed(ItemsOf(All(row')), rest')
                     else Prefixed(ItemsOf(All(row)), rest) == Done(ItemsOf(All(row')), offset)
      ensures Lined(first, item, row') && (ok ==> item != null && fresh(item))
      ensures first == if head == null then item else head
      ensures Owned(All(row')) <= hooks.live && hooks.live - Owned(All(row')) == old(hooks.live) - Owned(All(row))
      decreases |content| - offset, 5
    {
      ghost var w;
      w, rest' := ElementsParts(content, offset, depth, rest);
      ghost var xs := ItemsOf(All(row));
      ok, first, item, row' := ParseElement(head, last, row, w);
      more := false;
      if ok {
        PrefixedTwice(xs, Cons(None, w.value, Nil), rest');
        more := content[offset] == COMMA;
      }
    }

    /** The do loop of parse_array; a failure releases the nodes made so far. */
    method ParseElements(ghost r: Outcome<Items>) returns (ok: bool, head: N.Node?, ghost kids: Forest)
      requires offset + 1 < |content| && ElementsAre(content, offset, depth, r)
      modifies this`offset, this`depth, hooks
      ensures hooks.calls >= old(hooks.calls) && offset <= |content|
      ensures ok <==> r.Done? && hooks.Granted(old(hooks.calls))
      ensures hooks.Granted(old(hooks.calls)) ==> offset == r.pos
      ensures ok ==> offset < |content| && depth == old(depth) && ItemsOf(kids) == r.value
      ensures head == Head(kids) && Built(kids, null) && Ringed(kids)
      ensures Owned(kids) !! old(hooks.live) && hooks.live == old(hooks.live) + Owned(kids)
      ensures !ok ==> kids.Empty?
      decreases |content| - offset, 6
    {
      ghost var d, row, rest := depth, Row(Empty, Empty), r;
      var last: N.Node? := null;
      head := null;
      var more := true;
      PrefixedNone(r);
      while more
        invariant old(offset) <= offset < |content| && depth == d && (more ==> offset + 1 < |content|)
        invariant hooks.calls >= old(hooks.calls) && hooks.Granted(old(hooks.calls))
        invariant if more then ElementsAre(content, offset, d, rest) && r == Prefixed(ItemsOf(All(row)), rest)
                  else r == Done(ItemsOf(All(row)), offset)
        invariant Lined(head, last, row) && (last != null ==> fresh(last) && fresh(head)) && (!more ==> last != null)
        invariant Owned(All(row)) !! old(hooks.live) && hooks.live == old(hooks.live) + Owned(All(row))
        decreases |content| - offset, more
      {
        ok, more, head, last, row, rest := ElementTurn(head, last, row, rest);
        if !ok {
          Discard(head, last, row);
          return false, null, Empty;
        }
      }
      kids := EndRow(head, last, row);
      ok := true;
    }

    /** "parse the name of the child": a string with the byte before it and the space around it. */
    method ParseSpacedString(item: N.Node, ghost t: Outcome<Text>) returns (ok: bool, ghost info: Info)
      requires offset + 1 < |content| && item.child == null && item.valuestring == null
      requires StringIs(content, G.SkipSpace(content, offset + 1), t) && (t.Done? ==> t.pos < |content|)
      modifies this`offset, hooks, item`kind, item`isReference, item`nameIsConst, item`valuestring
      ensures hooks.calls >= old(hooks.calls) && offset <= |content|
      ensures ok <==> t.Done? && hooks.Granted(old(hooks.calls))
      ensures ok ==> offset == G.SkipSpace(content, t.pos) < |content| && info.body == Some(t.value)
      ensures !ok && hooks.Granted(old(hooks.calls)) ==> offset == t.pos
      ensures !ok ==> hooks.live == old(hooks.live) && unchanged(item)
      ensures ok ==> item.valuestring != null && Filled(item, info, Empty)
    {
      offset := offset + 1;
      SkipWhitespace();
      ok, info := ParseString(item, t);
      if ok {
        SkipWhitespace();
      }
    }

    /** The name with the swap that moves it to the name field, up to the colon. */
    method ParseName(item: N.Node, ghost r: Outcome<Text>) returns (ok: bool, ghost info: Info)
      requires offset + 1 < |content| && Bare(item) && NameIs(content, offset, r)
      modifies this`offset, hooks, item`kind, item`isReference, item`nameIsConst, item`valuestring, item`name
      ensures hooks.calls >= old(hooks.calls) && offset <= |content|
      ensures ok <==> r.Done? && hooks.Granted(old(hooks.calls))
      ensures hooks.Granted(old(hooks.calls)) ==> r.pos == if ok then offset + 1 else offset
      ensures ok ==> offset + 1 < |content| && info.nameText == Some(r.value)
      ensures info == BLANK.(kind := item.kind, name := item.name, nameText := info.nameText) && Records(item, info)
      ensures Own(item.name, false) !! old(hooks.live) && hooks.live == old(hooks.live) + Own(item.name, false)
    {
      ghost var t := NameParts(content, offset, r);
      ok, info := ParseSpacedString(item, t);
      if !ok {
        return false, BLANK;
      }
      info := info.(name := info.text, nameText := info.body, text := null, body := None);
      item.name := item.valuestring;
      item.valuestring := null;
      ok := content[offset] == COLON;
    }

    /** A name is parsed into a new node beside the members read so far. */
    method ParseNameInto(item: N.Node, ghost row: Row, ghost r: Outcome<Text>) returns (ok: bool, ghost row': Row)
      requires offset + 1 < |content| && Bare(item) && NameIs(content, offset, r)
      requires row.tail == Grove(item, BLANK, Empty, Empty) && Strung(row.done, row.tail)
      requires Owned(row.done) + Owned(row.tail) <= hooks.live
      modifies this`offset, hooks, item`kind, item`isReference, item`nameIsConst, item`valuestring, item`name
      ensures hooks.calls >= old(hooks.calls) && offset <= |content|
      ensures ok <==> r.Done? && hooks.Granted(old(hooks.calls))
      ensures hooks.Granted(old(hooks.calls)) ==> r.pos == if ok then offset + 1 else offset
      ensures row'.done == row.done && row'.tail.Grove? && row'.tail.node == item && row'.tail.kids.Empty?
      ensures ok ==> offset + 1 < |content| && row'.tail.info.nameText == Some(r.value)
      ensures Strung(row'.done, row'.tail) && Fillable(item) && !row'.tail.info.nameIsConst
      ensures hooks.live == old(hooks.live) + Owned(row'.tail) && Owned(row'.tail) !! old(hooks.live) - Owned(row.tail)
    {
      AreAllocated(row.done);
      assert Open(row.done) && Open(row.tail);
      OwnedByRoot(item, BLANK, Empty);
      Elsewhere(row.done, item, item);
      ghost var info;
      ok, info := ParseName(item, r);
      StaysBuilt(row.done);
      Rooted(item, info, Empty);
      OwnedByRoot(item, info, Empty);
      row' := Row(row.done, Grove(item, info, Empty, Empty));
    }

    /** The name and the value of a member go into the current node of a row. */
    method ParsePair(item: N.Node, ghost row: Row, ghost r: Outcome<Items>) returns (ok: bool, ghost row': Row)
      requires offset + 1 < |content| && Bare(item) && MemberIs(content, offset, depth, r)
      requires row.tail == Grove(item, BLANK, Empty, Empty) && Strung(row.done, row.tail)
      requires Owned(row.done) + Owned(row.tail) <= hooks.live
      modifies this`offset, this`depth, hooks, item`name
      modifies item`kind, item`isReference, item`nameIsConst, item`valuestring, item`valueint, item`valuedouble, item`child
      ensures hooks.calls >= old(hooks.calls) && offset <= |content|
      ensures ok <==> r.Done? && hooks.Granted(old(hooks.calls))
      ensures hooks.Granted(old(hooks.calls)) ==> offset == r.pos
      ensures ok ==> offset < |content| && depth == old(depth) && ItemsOf(row'.tail) == r.value
      ensures row'.done == row.done && row'.tail.Grove? && row'.tail.node == item && Strung(row'.done, row'.tail)
      ensures hooks.live == old(hooks.live) + Owned(row'.tail) && Owned(row'.tail) !! old(hooks.live) - Owned(row.tail)
      decreases |content| - offset, 3
    {
      ghost var n, w := MemberParts(content, offset, depth, r);
      ok, row' := ParseNameInto(item, row, n);
      if ok {
        ok, row' := ParseInto(item, row', w);
      }
    }

    /** The name and the value of a member go into the new last node of a list. */
    method PairAtEnd(item: N.Node, ghost row: Row, ghost r: Outcome<Items>) returns (ok: bool, ghost row': Row)
      requires offset + 1 < |content| && Bare(item) && MemberIs(content, offset, depth, r)
      requires row.tail == Grove(item, BLANK, Empty, Empty) && Strung(row.done, row.tail)
      requires Owned(row.done) <= hooks.live && (item as object) in hooks.live
      modifies this`offset, this`depth, hooks, item`name
      modifies item`kind, item`isReference, item`nameIsConst, item`valuestring, item`valueint, item`valuedouble, item`child
      ensures hooks.calls >= old(hooks.calls) && offset <= |content|
      ensures ok <==> r.Done? && hooks.Granted(old(hooks.calls))
      ensures hooks.Granted(old(hooks.calls)) ==> offset == r.pos
      ensures ok ==> offset < |content| && depth == old(depth) && ItemsOf(All(row')) == Append(ItemsOf(row.done), r.value)
      ensures Lined(if row.done.Grove? then row.done.node else item, item, row')
      ensures Owned(All(row')) <= hooks.live && hooks.live - Owned(All(row')) == old(hooks.live) - (Owned(row.done) + {item})
      decreases |content| - offset, 4
    {
      OwnedByRoot(item, BLANK, Empty);
      ok, row' := ParsePair(item, row, r);
      JoinedParts(row.done, row'.tail);
    }

    /** One turn of the loop of parse_object: a new node, its name and its value. */
    method ParseMember(head: N.Node?, last: N.Node?, ghost row: Row, ghost r: Outcome<Items>)
      returns (ok: bool, first: N.Node?, item: N.Node?, ghost row': Row)
      requires offset + 1 < |content| && MemberIs(content, offset, depth, r)
      requires Lined(head, last, row) && Owned(All(row)) <= hooks.live
      modifies this`offset, this`depth, hooks, (if last == null then {} else {last})`next
      ensures hooks.calls >= old(hooks.calls) && offset <= |content|
      ensures ok <==> r.Done? && hooks.Granted(old(hooks.calls))
      ensures hooks.Granted(old(hooks.calls)) ==> offset == r.pos
      ensures ok ==> offset < |content| && depth == old(depth) && ItemsOf(All(row')) == Append(ItemsOf(All(row)), r.value)
      ensures Lined(first, item, row') && (ok ==> item != null && fresh(item))
      ensures first == if head == null then item else head
      ensures Owned(All(row')) <= hooks.live && hooks.live - Owned(All(row')) == old(hooks.live) - Owned(All(row))
      decreases |content| - offset, 5
    {
      item, first, row' := NewChild(head, last, row);
      if item == null {
        return false, head, last, row;
      }
      ok, row' := PairAtEnd(item, row', r);
    }

    /** One turn of the do loop of parse_object and the test behind it. */
    method MemberTurn(head: N.Node?, last: N.Node?, ghost row: Row, ghost rest: Outcome<Items>)
      returns (ok: bool, more: bool, first: N.Node?, item: N.Node?, ghost row': Row, ghost rest': Outcome<Items>)
      requires offset + 1 < |content| && MembersAre(content, offset, depth, rest)
      requires Lined(head, last, row) && Owned(All(row)) <= hooks.live
      modifies this`offset, this`depth, hooks, (if last == null then {} else {last})`next
      ensures hooks.calls >= old(hooks.calls) && offset <= |content| && (ok ==> hooks.Granted(old(hooks.calls)))
      ensures !ok && hooks.Granted(old(hooks.calls)) ==> rest == Error(offset)
      ensures ok ==> old(offset) < offset < |content| && depth == old(depth) && (more ==> offset + 1 < |content|)
      ensures ok ==> if more then MembersAre(content, offset, depth, rest')
                                  && Prefixed(ItemsOf(All(row)), rest) == Prefixed(ItemsOf(All(row')), rest')
                     else Prefixed(ItemsOf(All(row)), rest) == Done(ItemsOf(All(row')), offset)
      ensures Lined(first, item, row') && (ok ==> item != null && fresh(item))
      ensures first == if head == null then item else head
      ensures Owned(All(row')) <= hooks.live && hooks.live - Owned(All(row')) == old(hooks.live) - Owned(All(row))
      decreases |content| - offset, 6
    {
      ghost var w;
      w, rest' := MembersParts(content, offset, depth, rest);
      ghost var xs := ItemsOf(All(row));
      ok, first, item, row' := ParseMember(head, last, row, w);
      more := false;
      if ok {
        PrefixedTwice(xs, w.value, rest');
        more := content[offset] == COMMA;
      }
    }

    /** The do loop of parse_object; a failure releases the nodes made so far. */
    method ParseMembers(ghost r: Outcome<Items>) returns (ok: bool, head: N.Node?, ghost kids: Forest)
      requires offset + 1 < |content| && MembersAre(content, offset, depth, r)
      modifies this`offset, this`depth, hooks
      ensures hooks.calls >= old(hooks.calls) && offset <= |content|
      ensures ok <==> r.Done? && hooks.Granted(old(hooks.calls))
      ensures hooks.Granted(old(hooks.calls)) ==> offset == r.pos
      ensures ok ==> offset < |content| && depth == old(depth) && ItemsOf(kids) == r.value
      ensures head == Head(kids) && Built(kids, null) && Ringed(kids)
      ensures Owned(kids) !! old(hooks.live) && hooks.live == old(hooks.live) + Owned(kids)
      ensures !ok ==> kids.Empty?
      decreases |content| - offset, 7
    {
      ghost var d, row, rest := depth, Row(Empty, Empty), r;
      var last: N.Node? := null;
      head := null;
      var more := true;
      PrefixedNone(r);
      while more
        invariant old(offset) <= offset < |content| && depth == d && (more ==> offset + 1 < |content|)
        invariant hooks.calls >= old(hooks.calls) && hooks.Granted(old(hooks.calls))
        invariant if more then MembersAre(content, offset, d, rest) && r == Prefixed(ItemsOf(All(row)), rest)
                  else r == Done(ItemsOf(All(row)), offset)
        invariant Lined(head, last, row) && (last != null ==> fresh(last) && fresh(head)) && (!more ==> last != null)
        invariant Owned(All(row)) !! old(hooks.live) && hooks.live == old(hooks.live) + Owned(All(row))
        decreases |content| - offset, more
      {
        ok, more, head, last, row, rest := MemberTurn(head, last, row, rest);
        if !ok {
          Discard(head, last, row);
          return false, null, Empty;
        }
      }
      kids := EndRow(head, last, row);
      ok := true;
    }

    /** The part of cJSON_ParseWithLengthOpts between the allocation of the root and the exits. */
    method ParseDocument(item: N.Node, requireNul: bool, ghost r: Outcome<Json>)
      returns (ok: bool, ghost info: Info, ghost kids: Forest)
      requires offset == 0 && depth == 0 && Fillable(item) && Bare(item) && r == Document(content, requireNul)
      modifies this`offset, this`depth, hooks
      modifies item`kind, item`isReference, item`nameIsConst, item`valuestring, item`valueint, item`valuedouble, item`child
      ensures hooks.calls >= old(hooks.calls) && offset <= |content|
      ensures ok <==> r.Done? && hooks.Granted(old(hooks.calls))
      ensures hooks.Granted(old(hooks.calls)) ==> r.pos == if offset < |content| then offset else |content| - 1
      ensures ok ==> offset < |content| && r.value == ValueOf(info, ItemsOf(kids))
      ensures Filled(item, info, kids) && info.nameText == None && info.name == null
    {
      SkipBom();
      SkipWhitespace();
      var start := offset;
      ghost var v := DocumentParts(content, requireNul, start, r);
      ok, info, kids := ParseValue(item, v);
      if !ok {
        return false, BLANK, Empty;
      }
      info := info.(name := null, nameText := None);
      if requireNul {
        AreAllocated(kids);
        label Parsed: SkipWhitespace();
        StaysBuilt@Parsed(kids);
        ok := content[offset] == NUL;
      }
    }
  }

  /** cJSON_ParseWithLengthOpts: the tree and the parse end, or the error position and nothing left allocated. */
  method ParseWithLengthOpts(hooks: Hooks, content: G.Buffer, requireNul: bool)
    returns (item: N.Node?, parseEnd: nat, ghost f: Forest)
    modifies hooks
    ensures hooks.calls >= old(hooks.calls) && parseEnd < |content|
    ensures var r := G.ParseText(content, requireNul);
      && (item != null <==> r.Done? && hooks.Granted(old(hooks.calls)))
      && (hooks.Granted(old(hooks.calls)) ==> parseEnd == r.pos)
      && (item != null ==> ItemsOf(f) == Cons(None, r.value, Nil))
    ensures item == null ==> hooks.live == old(hooks.live)
    ensures item != null ==> f.Grove? && f.node == item && f.rest.Empty? && Built(f, null)
    ensures item != null ==> Owned(f) !! old(hooks.live) && hooks.live == old(hooks.live) + Owned(f)
  {
    OpenDocument(content, requireNul);
    item, parseEnd, f := ParseRoot(hooks, content, requireNul, Document(content, requireNul));
  }

  method ParseRoot(hooks: Hooks, content: G.Buffer, requireNul: bool, ghost r: Outcome<Json>)
    returns (item: N.Node?, parseEnd: nat, ghost f: Forest)
    requires r == Document(content, requireNul)
    modifies hooks
    ensures hooks.calls >= old(hooks.calls) && parseEnd < |content|
    ensures item != null <==> r.Done? && hooks.Granted(old(hooks.calls))
    ensures hooks.Granted(old(hooks.calls)) ==> parseEnd == r.pos
    ensures item != null ==> ItemsOf(f) == Cons(None, r.value, Nil)
    ensures item == null ==> hooks.live == old(hooks.live)
    ensures item != null ==> f.Grove? && f.node == item && f.rest.Empty? && Built(f, null)
    ensures item != null ==> Owned(f) !! old(hooks.live) && hooks.live == old(hooks.live) + Owned(f)
  {
    item := hooks.NewItem();
    parseEnd, f := 0, Empty;
    if item == null {
      return;
    }
    var ok;
    ok, parseEnd, f := ParseInRoot(hooks, item, content, requireNul, r);
    if !ok {
      parseEnd := Fail(hooks, item, parseEnd, |content|, f);
      item := null;
    }
  }

  /** The part behind the allocation of the root; a tree that is not used is still whole. */
  method ParseInRoot(hooks: Hooks, item: N.Node, content: G.Buffer, requireNul: bool, ghost r: Outcome<Json>)
    returns (ok: bool, parseEnd: nat, ghost f: Forest)
    requires r == Document(content, requireNul) && (item as object) in hooks.live && Bare(item)
    modifies hooks, item`kind, item`isReference, item`nameIsConst, item`valuestring, item`valueint, item`valuedouble, item`child
    ensures hooks.calls >= old(hooks.calls) && parseEnd <= |content|
    ensures ok <==> r.Done? && hooks.Granted(old(hooks.calls))
    ensures hooks.Granted(old(hooks.calls)) ==> r.pos == if parseEnd < |content| then parseEnd else |content| - 1
    ensures ok ==> parseEnd < |content| && ItemsOf(f) == Cons(None, r.value, Nil)
    ensures f.Grove? && f.node == item && f.rest.Empty? && Built(f, null)
    ensures item as object in Owned(f) && Owned(f) - {item} !! old(hooks.live) && hooks.live == old(hooks.live) + Owned(f)
  {
    var buffer := new ParseBuffer(content, hooks);
    ghost var info, kids;
    ok, info, kids := buffer.ParseDocument(item, requireNul, r);
    parseEnd := buffer.offset;
    OwnedByRoot(item, info, kids);
    Rooted(item, info, kids);
    f := Grove(item, info, kids, Empty);
  }

  /** The failure exit: the root is released, and the position is one inside the buffer. */
  method Fail(hooks: Hooks, item: N.Node, offset: nat, length: nat, ghost f: Forest) returns (position: nat)
    requires f.Grove? && f.node == item && Built(f, null) && Owned(f) <= hooks.live && length > 0
    modifies hooks
    ensures hooks.live == old(hooks.live) - Owned(f) && hooks.calls == old(hooks.calls)
    ensures position == if offset < length then offset else length - 1
  {
    DeleteList(hooks, item, f);
    position := if offset < length then offset else length - 1;
  }
}
