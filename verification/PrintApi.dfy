/** cJSON_Print, cJSON_PrintUnformatted, cJSON_PrintBuffered and cJSON_PrintPreallocated. */
module PrintApi {
  import opened Bytes
  import opened JsonValue
  import opened JsonText
  import opened Memory
  import opened Trees
  import opened Printer
  import N = Nodes

  const DEFAULT_BUFFER_SIZE: nat := 256

  /** The block starts with the terminated text. */
  ghost predicate HoldsText(block: array<byte>, w: seq<byte>)
    reads block
  {
    |w| < block.Length && block[..|w|] == w && block[|w|] == NUL
  }

  /** A tree whose text, with two bytes to spare, is within the size the printer supports. */
  ghost predicate Fits(t: Json, format: bool) {
    Printable(t) && |Rendered(t, format, 0)| + 2 <= INT_MAX
  }

  /** A node that can be printed, and the value it stands for; NULL stands for none. */
  ghost predicate Prints(item: N.Node?, f: Forest, t: Json)
    reads item, NodesOf(f), Blocks(f)
  {
    item != null ==> IsTree(item, f) && t == TreeValue(f) && PlainNumbers(t)
  }

  lemma {:induction false} CanBeRead(p: PrintBuffer, item: N.Node, f: Forest, t: Json)
    requires Prints(item, f, t) && p.buffer != null && p.buffer !in Blocks(f) && p.tree == f.kids
    ensures p.Reads(item, f.info, f.kids, t)
    ensures Shown(p.tree) && p.buffer !in Blocks(p.tree)
  {
    assert BlocksOf(f.info) <= Blocks(f);
  }

  ghost function KidsOf(item: N.Node?, f: Forest): Forest
    requires item != null ==> f.Grove?
  {
    if item == null then Empty else f.kids
  }

  /** The printed text is moved to a block of exactly its size; on failure nothing stays allocated. */
  method Print(item: N.Node?, format: bool, hooks: Hooks, ghost f: Forest, ghost t: Json) returns (printed: array?<byte>)
    requires Prints(item, f, t)
    modifies hooks
    ensures hooks.calls > old(hooks.calls)
    ensures printed != null <==> item != null && Fits(t, format) && hooks.Granted(old(hooks.calls))
    ensures printed == null ==> hooks.live == old(hooks.live)
    ensures printed != null ==> fresh(printed) && hooks.live == old(hooks.live) + {printed}
    ensures printed != null ==> printed[..] == Rendered(t, format, 0) + [NUL]
  {
    AreAllocated(f);
    var block := hooks.Allocate(DEFAULT_BUFFER_SIZE);
    if block == null {
      return null;
    }
    var p := new PrintBuffer(hooks, block, DEFAULT_BUFFER_SIZE, false, format, KidsOf(item, f));
    printed := PrintAndShrink(p, item, f, t, Rendered(t, format, 0));
  }

  /** The part of print behind the creation of the buffer. */
  method PrintAndShrink(p: PrintBuffer, item: N.Node?, ghost f: Forest, ghost t: Json, ghost w: Text) returns (printed: array?<byte>)
    requires Prints(item, f, t) && p.Kept() && p.depth == p.offset == 0 && p.copied == 0 && !p.noalloc
    requires p.buffer != null && p.buffer.Length == p.length <= INT_MAX
    requires item != null ==> p.buffer !in Blocks(f) && p.tree == f.kids && w == Rendered(t, p.format, 0)
    modifies p, p.hooks, p.buffer
    ensures p.hooks.calls >= old(p.hooks.calls)
    ensures printed != null <==> item != null && Printable(t) && |w| + 2 <= INT_MAX && p.hooks.Granted(old(p.hooks.calls))
    ensures printed == null ==> p.hooks.live == p.others
    ensures printed != null ==> fresh(printed) && p.hooks.live == p.others + {printed} && printed[..] == w + [NUL]
  {
    var ok := PrintItem(p, item, f, t, w);
    if ok {
      printed := Shrink(p, w);
      return;
    }
    if p.buffer != null {
      p.hooks.Deallocate(p.buffer);
    }
    printed := null;
  }

  /** print_value on the root, into a buffer at its start. */
  method PrintItem(p: PrintBuffer, item: N.Node?, ghost f: Forest, ghost t: Json, ghost w: Text) returns (ok: bool)
    requires Prints(item, f, t) && p.Kept() && p.depth == p.offset == 0 && p.copied == 0
    requires p.buffer != null && p.length <= p.buffer.Length && p.length <= INT_MAX && (!p.noalloc ==> p.buffer.Length == p.length)
    requires item != null ==> p.buffer !in Blocks(f) && p.tree == f.kids && w == Rendered(t, p.format, 0)
    modifies p, p.hooks, p.buffer
    ensures p.Framed()
    ensures ok <==> item != null && Printable(t) && |w| + 2 <= p.Limit() && p.hooks.Granted(old(p.hooks.calls))
    ensures ok ==> p.Reached(w)
  {
    if item == null {
      return false;
    }
    CanBeRead(p, item, f, t);
    ok := p.PrintValue(item, f.info, f.kids, t, []);
    assert [] + w == w;
  }

  /** The end of print: the text is counted and moved to a block of exactly its size. */
  method Shrink(p: PrintBuffer, ghost w: Text) returns (printed: array?<byte>)
    requires p.Reached(w) && !p.noalloc
    modifies p, p.hooks
    ensures p.hooks.calls == old(p.hooks.calls) + 1
    ensures printed != null <==> !p.hooks.refuses(old(p.hooks.calls))
    ensures printed == null ==> p.hooks.live == old(p.hooks.live - {p.buffer})
    ensures printed != null ==> fresh(printed) && p.hooks.live == old(p.hooks.live - {p.buffer}) + {printed}
    ensures printed != null ==> printed[..] == w + [NUL]
  {
    p.UpdateOffset(w);
    printed := p.hooks.Reallocate(p.buffer, p.offset + 1);
    if printed != null {
      assert p.buffer[..|w|] == w && p.buffer[|w|] == NUL;
    } else {
      p.hooks.Deallocate(p.buffer);
    }
  }

  method PrintBuffered(item: N.Node?, prebuffer: int, format: bool, hooks: Hooks, ghost f: Forest, ghost t: Json)
    returns (printed: array?<byte>)
    requires Prints(item, f, t) && prebuffer <= INT_MAX
    modifies hooks
    ensures printed != null <==> item != null && prebuffer >= 0 && Fits(t, format) && hooks.Granted(old(hooks.calls))
    ensures printed == null ==> hooks.live == old(hooks.live)
    ensures printed != null ==> fresh(printed) && hooks.live == old(hooks.live) + {printed}
    ensures printed != null ==> HoldsText(printed, Rendered(t, format, 0))
  {
    if prebuffer < 0 {
      return null;
    }
    AreAllocated(f);
    var block := hooks.Allocate(prebuffer);
    if block == null {
      return null;
    }
    var p := new PrintBuffer(hooks, block, prebuffer, false, format, KidsOf(item, f));
    printed := PrintOrRelease(p, item, f, t, Rendered(t, format, 0));
  }

  /** The part of cJSON_PrintBuffered behind the creation of the buffer. */
  method PrintOrRelease(p: PrintBuffer, item: N.Node?, ghost f: Forest, ghost t: Json, ghost w: Text) returns (printed: array?<byte>)
    requires Prints(item, f, t) && p.Kept() && p.depth == p.offset == 0 && p.copied == 0 && !p.noalloc
    requires p.buffer != null && p.buffer.Length == p.length <= INT_MAX
    requires item != null ==> p.buffer !in Blocks(f) && p.tree == f.kids && w == Rendered(t, p.format, 0)
    modifies p, p.hooks, p.buffer
    ensures p.hooks.calls >= old(p.hooks.calls)
    ensures printed != null <==> item != null && Printable(t) && |w| + 2 <= INT_MAX && p.hooks.Granted(old(p.hooks.calls))
    ensures printed == null ==> p.hooks.live == p.others
    ensures printed != null ==> (printed == old(p.buffer) || fresh(printed)) && p.hooks.live == p.others + {printed} && HoldsText(printed, w)
  {
    var ok := PrintItem(p, item, f, t, w);
    if !ok {
      if p.buffer != null {
        p.hooks.Deallocate(p.buffer);
      }
      return null;
    }
    printed := p.buffer;
  }

  /** Two bytes more than strlen of the text are enough, and they are needed. */
  method PrintPreallocated(item: N.Node?, buffer: array?<byte>, length: int, format: bool, hooks: Hooks, ghost f: Forest, ghost t: Json)
    returns (ok: bool)
    requires Prints(item, f, t) && (item != null ==> buffer == null || buffer !in Blocks(f))
    requires length <= INT_MAX && (buffer != null ==> length <= buffer.Length)
    modifies buffer, hooks
    ensures hooks.live == old(hooks.live) && hooks.calls == old(hooks.calls)
    ensures ok <==> item != null && buffer != null && Printable(t) && |Rendered(t, format, 0)| + 2 <= length
    ensures ok ==> HoldsText(buffer, Rendered(t, format, 0))
    ensures buffer != null && length >= 0 ==> buffer[length..] == old(buffer[length..])
  {
    if length < 0 || buffer == null {
      return false;
    }
    AreAllocated(f);
    var p := new PrintBuffer(hooks, buffer, length, true, format, KidsOf(item, f));
    ok := PrintItem(p, item, f, t, Rendered(t, format, 0));
  }
}
