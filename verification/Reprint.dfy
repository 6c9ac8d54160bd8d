/** Printing the nodes of a tree and parsing the text again: a new tree of the same value. */
module Reprint {
  import opened Bytes
  import opened JsonValue
  import opened JsonText
  import opened Memory
  import opened Trees
  import opened Reparse
  import G = Grammar
  import N = Nodes
  import Parser
  import PrintApi

  /**
   * cJSON_Parse on what cJSON_Print made of a tree: where no memory is refused the tree comes back as new
   * nodes, unless its text is too long or it is nested too deeply; nothing but these nodes stays allocated.
   */
  method PrintAndParse(item: N.Node, format: bool, requireNul: bool, hooks: Hooks, ghost f: Forest, ghost t: Json)
    returns (again: N.Node?, ghost g: Forest)
    requires IsTree(item, f) && t == TreeValue(f) && Textual(t)
    modifies hooks
    ensures hooks.Granted(old(hooks.calls)) ==>
              (again != null <==> |Rendered(t, format, 0)| + 2 <= INT_MAX && Nesting(t) <= G.NESTING_LIMIT)
    ensures again == null ==> hooks.live == old(hooks.live)
    ensures again != null ==> g.Grove? && g.node == again && g.rest.Empty? && Built(g, null)
    ensures again != null ==> ItemsOf(g) == Cons(None, Normal(t), Nil)
    ensures again != null ==> Owned(g) !! old(hooks.live) && hooks.live == old(hooks.live) + Owned(g)
  {
    TextualIsPrintable(t);
    var printed := PrintApi.Print(item, format, hooks, f, t);
    if printed == null {
      return null, Empty;
    }
    PrintedTextParsesBack(t, format, requireNul);
    again, g := ParsePrinted(printed, requireNul, hooks);
  }

  /** The text is parsed and released. */
  method ParsePrinted(printed: array<byte>, requireNul: bool, hooks: Hooks) returns (again: N.Node?, ghost g: Forest)
    requires printed.Length > 0 && printed[printed.Length - 1] == NUL && printed in hooks.live
    modifies hooks
    ensures hooks.calls >= old(hooks.calls)
    ensures var r := G.ParseText(old(printed[..]), requireNul);
      && (again != null <==> r.Done? && hooks.Granted(old(hooks.calls)))
      && (again != null ==> ItemsOf(g) == Cons(None, r.value, Nil))
    ensures again == null ==> hooks.live == old(hooks.live) - {printed}
    ensures again != null ==> g.Grove? && g.node == again && g.rest.Empty? && Built(g, null)
    ensures again != null ==> Owned(g) !! old(hooks.live) && hooks.live == old(hooks.live) - {printed} + Owned(g)
  {
    var content: G.Buffer := printed[..];
    var parseEnd;
    again, parseEnd, g := Parser.ParseWithLengthOpts(hooks, content, requireNul);
    AreAllocated(g);
    label Before: hooks.Deallocate(printed);
    if again != null { StaysBuilt@Before(g); }
  }
}
