/** The command list of the small CLI: sorted registration and dispatch by name or prefix. */
module Cli {
  import opened Bytes

  /** A registered command; `func` stands for its function pointer. */
  datatype Command = Command(name: Text, func: nat)

  // ---------- the order of names ----------

  /** strcmp(s, t) > 0. */
  predicate Greater(s: Text, t: Text) {
    s != [] && (t == [] || s[0] > t[0] || (s[0] == t[0] && Greater(s[1..], t[1..])))
  }

  lemma {:induction false} GreaterTransitive(s: Text, t: Text, u: Text)
    ensures Greater(s, t) && Greater(t, u) ==> Greater(s, u)
  {
    if s != [] && t != [] && u != [] { GreaterTransitive(s[1..], t[1..], u[1..]); }
  }

  lemma {:induction false} GreaterTotal(s: Text, t: Text)
    ensures s == t || Greater(s, t) || Greater(t, s)
    ensures !(Greater(s, t) && Greater(t, s)) && !Greater(s, s)
  {
    if s != [] && t != [] {
      GreaterTotal(s[1..], t[1..]);
      assert s == [s[0]] + s[1..] && t == [t[0]] + t[1..];
      GreaterIrreflexive(s);
    } else {
      GreaterIrreflexive(s);
    }
  }

  lemma {:induction false} GreaterIrreflexive(s: Text)
    ensures !Greater(s, s)
  {
    if s != [] { GreaterIrreflexive(s[1..]); }
  }

  predicate IsPrefix(p: Text, s: Text) { |p| <= |s| && s[..|p|] == p }

  /** No longer name with the prefix comes before the prefix itself. */
  lemma {:induction false} PrefixIsLeast(p: Text, s: Text)
    requires IsPrefix(p, s)
    ensures !Greater(p, s)
  {
    if p != [] {
      assert s[0] == s[..|p|][0] == p[0] && s[1..][..|p| - 1] == s[..|p|][1..] == p[1..];
      PrefixIsLeast(p[1..], s[1..]);
    }
  }

  // ---------- registration ----------

  /** The command goes before the first one with a greater name, so behind those with its own. */
  function Inserted(list: seq<Command>, c: Command): seq<Command> {
    if list == [] then [c]
    else if Greater(list[0].name, c.name) then [c] + list
    else [list[0]] + Inserted(list[1..], c)
  }

  /** The list after registrations in that order. */
  function Registered(calls: seq<Command>): seq<Command> {
    if calls == [] then [] else Inserted(Registered(calls[..|calls| - 1]), calls[|calls| - 1])
  }

  predicate Sorted(list: seq<Command>) {
    forall i, j :: 0 <= i < j < |list| ==> !Greater(list[i].name, list[j].name)
  }

  /** The commands with that name, in the order of the list. */
  function Named(list: seq<Command>, name: Text): seq<Command> {
    if list == [] then []
    else if list[0].name == name then [list[0]] + Named(list[1..], name) else Named(list[1..], name)
  }

  lemma {:induction false} InsertedMembers(list: seq<Command>, c: Command)
    ensures |Inserted(list, c)| == |list| + 1
    ensures forall d :: d in Inserted(list, c) <==> d in list || d == c
  {
    if list != [] && !Greater(list[0].name, c.name) {
      InsertedMembers(list[1..], c);
      assert list == [list[0]] + list[1..];
    }
  }

  lemma {:induction false} InsertedSorted(list: seq<Command>, c: Command)
    requires Sorted(list)
    ensures Sorted(Inserted(list, c))
  {
    if list == [] {
    } else if Greater(list[0].name, c.name) {
      forall j | 0 <= j < |list| ensures !Greater(c.name, list[j].name) {
        GreaterTransitive(list[0].name, c.name, list[j].name);
        GreaterTotal(list[0].name, c.name);
      }
    } else {
      InsertedSorted(list[1..], c);
      InsertedMembers(list[1..], c);
      var rest := Inserted(list[1..], c);
      forall j | 0 <= j < |rest| ensures !Greater(list[0].name, rest[j].name) {
        assert rest[j] in rest;
      }
    }
  }

  lemma {:induction false} InsertedNamed(list: seq<Command>, c: Command, name: Text)
    requires Sorted(list)
    ensures Named(Inserted(list, c), name) == Named(list, name) + if c.name == name then [c] else []
  {
    if list == [] {
    } else if Greater(list[0].name, c.name) {
      assert ([c] + list)[1..] == list;
      if c.name == name { NoneNamed(list, c.name); }
    } else {
      InsertedNamed(list[1..], c, name);
      assert Inserted(list, c)[1..] == Inserted(list[1..], c);
    }
  }

  lemma {:induction false} NoneNamed(list: seq<Command>, name: Text)
    requires Sorted(list) && list != [] && Greater(list[0].name, name)
    ensures Named(list, name) == []
  {
    GreaterIrreflexive(name);
    if |list| > 1 {
      GreaterTotal(list[0].name, list[1].name);
      GreaterTransitive(list[1].name, list[0].name, name);
      NoneNamed(list[1..], name);
    }
  }

  /** After any registrations the list is sorted, and commands of one name are in the order of their registration. */
  lemma {:induction false} RegisteredIsSortedAndStable(calls: seq<Command>, name: Text)
    ensures Sorted(Registered(calls)) && |Registered(calls)| == |calls|
    ensures Named(Registered(calls), name) == Named(calls, name)
  {
    if calls != [] {
      var before, last := calls[..|calls| - 1], calls[|calls| - 1];
      RegisteredIsSortedAndStable(before, name);
      InsertedSorted(Registered(before), last);
      InsertedMembers(Registered(before), last);
      InsertedNamed(Registered(before), last, name);
      NamedInSum(before, last, name);
      assert before + [last] == calls;
    }
  }

  lemma {:induction false} NamedInSum(list: seq<Command>, c: Command, name: Text)
    ensures Named(list + [c], name) == Named(list, name) + if c.name == name then [c] else []
  {
    if list != [] {
      assert (list + [c])[1..] == list[1..] + [c];
      NamedInSum(list[1..], c, name);
    }
  }

  lemma {:induction false} RegisteredMembers(calls: seq<Command>)
    ensures forall c :: c in Registered(calls) <==> c in calls
  {
    if calls != [] {
      var before, last := calls[..|calls| - 1], calls[|calls| - 1];
      RegisteredMembers(before);
      InsertedMembers(Registered(before), last);
      assert before + [last] == calls;
    }
  }

  // ---------- dispatch ----------

  /** strncasecmp over the length of the key finds no difference. */
  predicate Matches(name: Text, key: Text) { IsPrefix(LowerText(key), LowerText(name)) }

  datatype Outcome = Execute(command: Command) | Ambiguous | Unknown

  /** The lookup of cli_cmd_exec: the first match, unless it is longer than the key and another one follows. */
  function Dispatch(list: seq<Command>, key: Text): Outcome {
    if list == [] then Unknown
    else if !Matches(list[0].name, key) then Dispatch(list[1..], key)
    else if |key| < |list[0].name| && AnyMatch(list[1..], key) then Ambiguous
    else Execute(list[0])
  }

  predicate AnyMatch(list: seq<Command>, key: Text) {
    list != [] && (Matches(list[0].name, key) || AnyMatch(list[1..], key))
  }

  predicate LowerCase(list: seq<Command>) {
    forall c <- list :: LowerText(c.name) == c.name
  }

  lemma {:induction false} AnyMatchMember(list: seq<Command>, key: Text)
    ensures AnyMatch(list, key) <==> exists c :: c in list && Matches(c.name, key)
  {
    if list != [] {
      AnyMatchMember(list[1..], key);
      assert list == [list[0]] + list[1..];
      if AnyMatch(list[1..], key) {
        var c :| c in list[1..] && Matches(c.name, key);
        assert c in list;
      }
    }
  }

  /**
   * A registered name is executed, even where it is the beginning of others, exactly if no smaller name
   * matches it; of several commands with the name the first one is.
   */
  lemma {:induction false} ExactNameIsExecuted(list: seq<Command>, name: Text)
    requires Sorted(list) && Named(list, name) != []
    ensures Dispatch(list, name) == Execute(Named(list, name)[0])
            <==> forall c <- list :: Matches(c.name, name) ==> !Greater(name, c.name)
  {
    var first, rest := list[0], list[1..];
    assert first in list && forall c <- rest :: c in list;
    if first.name == name {
      SortedFrom(list);
    } else if !Matches(first.name, name) {
      ExactNameIsExecuted(rest, name);
      assert forall c <- list :: c == first || c in rest;
    } else {
      NamedMember(rest, name);
      var i :| 0 <= i < |rest| && rest[i].name == name;
      assert list[i + 1].name == name && !Greater(first.name, name);
      GreaterTotal(first.name, name);
      NamedIsNamed(list, name);
    }
  }

  lemma SortedFrom(list: seq<Command>)
    requires Sorted(list) && list != []
    ensures forall c <- list :: !Greater(list[0].name, c.name)
  {
    GreaterIrreflexive(list[0].name);
    forall c | c in list ensures !Greater(list[0].name, c.name) {
      var i :| 0 <= i < |list| && list[i] == c;
    }
  }

  lemma {:induction false} NamedIsNamed(list: seq<Command>, name: Text)
    ensures forall c <- Named(list, name) :: c.name == name
  {
    if list != [] { NamedIsNamed(list[1..], name); }
  }

  /** Where names have no capitals a registered name is executed, however the key is written. */
  lemma {:induction false} LowerCaseNameIsExecuted(list: seq<Command>, key: Text)
    requires Sorted(list) && LowerCase(list) && Named(list, LowerText(key)) != []
    ensures Dispatch(list, key) == Execute(Named(list, LowerText(key))[0])
  {
    var k := LowerText(key);
    var first := list[0];
    assert first in list;
    if first.name != k {
      assert Named(list[1..], k) != [];
      if Matches(first.name, key) {
        NamedMember(list[1..], k);
        var i :| 0 <= i < |list[1..]| && list[1..][i].name == k;
        assert list[i + 1].name == k && !Greater(first.name, k);
        PrefixIsLeast(k, first.name);
        GreaterTotal(first.name, k);
        assert false;
      }
      LowerCaseNameIsExecuted(list[1..], key);
    }
  }

  lemma {:induction false} NamedMember(list: seq<Command>, name: Text)
    requires Named(list, name) != []
    ensures exists i :: 0 <= i < |list| && list[i].name == name
  {
    if list[0].name != name {
      NamedMember(list[1..], name);
      var i :| 0 <= i < |list[1..]| && list[1..][i].name == name;
      assert list[i + 1].name == name;
    }
  }

  /** The commands whose names the key begins. */
  function Matching(list: seq<Command>, key: Text): seq<Command> {
    if list == [] then []
    else if Matches(list[0].name, key) then [list[0]] + Matching(list[1..], key) else Matching(list[1..], key)
  }

  lemma {:induction false} WholeMatch(name: Text, key: Text)
    requires Matches(name, key)
    ensures |key| <= |name| && (|key| == |name| ==> LowerText(name) == LowerText(key))
  {
  }

  lemma {:induction false} MatchingIsAny(list: seq<Command>, key: Text)
    ensures AnyMatch(list, key) <==> Matching(list, key) != []
  {
    if list != [] { MatchingIsAny(list[1..], key); }
  }

  /** A key that is a whole name, or matches only one, is executed as the first match; otherwise it is ambiguous or unknown. */
  lemma {:induction false} KeyIsResolved(list: seq<Command>, key: Text)
    ensures var m := Matching(list, key);
      Dispatch(list, key) == if m == [] then Unknown
                             else if |m| == 1 || LowerText(m[0].name) == LowerText(key) then Execute(m[0]) else Ambiguous
  {
    if list != [] {
      if Matches(list[0].name, key) {
        MatchingIsAny(list[1..], key);
        WholeMatch(list[0].name, key);
      } else {
        KeyIsResolved(list[1..], key);
      }
    }
  }

  /** With a capital letter in a name, an exact name can be passed over. */
  lemma CapitalsHideAName()
    ensures var list := [Command([66, 97], 1), Command([98], 2)];
      Sorted(list) && Dispatch(list, [98]) == Ambiguous
  {
    var list := [Command([66, 97], 1), Command([98], 2)];
    assert LowerText([66, 97])[..1] == LowerText([98]);
    assert Matches(list[0].name, [98]) && Matches(list[1].name, [98]);
    assert list[1..] == [list[1]];
  }

  // ---------- the order of registration ----------

  predicate DistinctNames(list: seq<Command>) {
    forall i, j :: 0 <= i < j < |list| ==> list[i].name != list[j].name
  }

  predicate StrictlySorted(list: seq<Command>) {
    forall i, j :: 0 <= i < j < |list| ==> Greater(list[j].name, list[i].name)
  }

  lemma {:induction false} OneSortedList(a: seq<Command>, b: seq<Command>)
    requires StrictlySorted(a) && StrictlySorted(b) && forall c :: c in a <==> c in b
    ensures a == b
  {
    if b != [] {
      assert b[0] in b;
      assert b[0] in a;
    }
    if a != [] {
      assert a[0] in a;
      var j :| 0 <= j < |b| && b[j] == a[0];
      assert b[0] in b;
      var i :| 0 <= i < |a| && a[i] == b[0];
      GreaterTotal(a[0].name, b[0].name);
      assert i == 0 && j == 0;
      forall c ensures c in a[1..] <==> c in b[1..] {
        GreaterIrreflexive(c.name);
        if c in a[1..] { assert c in a && c in b; }
        if c in b[1..] { assert c in b && c in a; }
      }
      OneSortedList(a[1..], b[1..]);
    }
  }

  lemma {:induction false} RegisteredDistinct(calls: seq<Command>)
    requires DistinctNames(calls)
    ensures StrictlySorted(Registered(calls))
  {
    if calls != [] {
      var before, last := calls[..|calls| - 1], calls[|calls| - 1];
      RegisteredDistinct(before);
      RegisteredMembers(before);
      forall c | c in Registered(before) ensures c.name != last.name {
        assert c in before;
      }
      InsertedStrictly(Registered(before), last);
    }
  }

  lemma {:induction false} InsertedStrictly(list: seq<Command>, c: Command)
    requires StrictlySorted(list) && forall d :: d in list ==> d.name != c.name
    ensures StrictlySorted(Inserted(list, c))
  {
    if list == [] {
    } else if Greater(list[0].name, c.name) {
      forall j | 0 <= j < |list| ensures Greater(list[j].name, c.name) {
        if j > 0 { GreaterTransitive(list[j].name, list[0].name, c.name); }
      }
    } else {
      InsertedStrictly(list[1..], c);
      InsertedMembers(list[1..], c);
      var rest := Inserted(list[1..], c);
      assert list[0] in list;
      forall j | 0 <= j < |rest| ensures Greater(rest[j].name, list[0].name) {
        assert rest[j] in rest;
        GreaterTotal(list[0].name, c.name);
      }
    }
  }

  /** Commands with distinct names may be registered in any order: the list, so every dispatch, is the same. */
  lemma {:induction false} OrderOfRegistrationIsFree(calls: seq<Command>, other: seq<Command>, key: Text)
    requires DistinctNames(calls) && DistinctNames(other) && forall c :: c in calls <==> c in other
    ensures Registered(calls) == Registered(other)
    ensures Dispatch(Registered(calls), key) == Dispatch(Registered(other), key)
  {
    RegisteredDistinct(calls);
    RegisteredDistinct(other);
    RegisteredMembers(calls);
    RegisteredMembers(other);
    OneSortedList(Registered(calls), Registered(other));
  }

  // ---------- the list as it is linked ----------

  class CmdNode {
    const command: Command
    var next: CmdNode?

    constructor (command: Command)
      ensures this.command == command && next == null
    {
      this.command, next := command, null;
    }
  }

  /** The next links run through the nodes and end in NULL. */
  ghost predicate Linked(nodes: seq<CmdNode>)
    reads nodes
  {
    && (forall i, j :: 0 <= i < j < |nodes| ==> nodes[i] != nodes[j])
    && (forall i {:trigger nodes[i].next} :: 0 <= i < |nodes| ==>
          nodes[i].next == if i + 1 < |nodes| then nodes[i + 1] else null)
  }

  lemma SplicedIsLinked(nodes: seq<CmdNode>, i: nat, node: CmdNode)
    requires i <= |nodes| && node !in nodes && forall j, k :: 0 <= j < k < |nodes| ==> nodes[j] != nodes[k]
    requires forall k {:trigger nodes[k].next} :: 0 <= k < |nodes| && k != i - 1 ==>
               nodes[k].next == if k + 1 < |nodes| then nodes[k + 1] else null
    requires i > 0 ==> nodes[i - 1].next == node
    requires node.next == if i < |nodes| then nodes[i] else null
    ensures Linked(nodes[..i] + [node] + nodes[i..])
  {
    var spliced := nodes[..i] + [node] + nodes[i..];
    assert forall k :: 0 <= k < |spliced| ==> spliced[k] == if k < i then nodes[k] else if k == i then node else nodes[k - 1];
  }

  /** gst_cmd_list. */
  class CmdList {
    var head: CmdNode?
    ghost var nodes: seq<CmdNode>

    constructor ()
      ensures Valid() && Commands(0) == [] && fresh(nodes)
    {
      head, nodes := null, [];
    }

    ghost predicate Valid()
      reads this, nodes
    {
      head == (if nodes == [] then null else nodes[0]) && Linked(nodes)
    }

    /** The commands from node `i` on. */
    ghost function Commands(i: nat): seq<Command>
      requires i <= |nodes|
      reads this
      decreases |nodes| - i
    {
      if i == |nodes| then [] else [nodes[i].command] + Commands(i + 1)
    }

    /** The loop of cli_cmd_reg: the first node with a greater name and the one before it. */
    method FindPlace(name: Text) returns (q: CmdNode?, p: CmdNode?, ghost i: nat)
      requires Valid()
      ensures i <= |nodes| && p == (if i < |nodes| then nodes[i] else null) && q == (if i > 0 then nodes[i - 1] else null)
      ensures forall k :: 0 <= k < i ==> !Greater(nodes[k].command.name, name)
      ensures i < |nodes| ==> Greater(nodes[i].command.name, name)
    {
      q, p, i := null, head, 0;
      while p != null && !Greater(p.command.name, name)
        invariant i <= |nodes| && p == (if i < |nodes| then nodes[i] else null) && q == (if i > 0 then nodes[i - 1] else null)
        invariant forall k :: 0 <= k < i ==> !Greater(nodes[k].command.name, name)
        decreases |nodes| - i
      {
        q, p, i := p, p.next, i + 1;
      }
    }

    /** The new node is linked between `q` and `p`. */
    method LinkIn(node: CmdNode, q: CmdNode?, p: CmdNode?, ghost i: nat)
      requires Valid() && node !in nodes && i <= |nodes|
      requires p == (if i < |nodes| then nodes[i] else null) && q == (if i > 0 then nodes[i - 1] else null)
      modifies this, node`next, nodes`next
      ensures Valid() && nodes == old(nodes[..i]) + [node] + old(nodes[i..])
    {
      node.next := p;
      if q == null {
        head := node;
      } else {
        q.next := node;
      }
      SplicedIsLinked(nodes, i, node);
      nodes := nodes[..i] + [node] + nodes[i..];
    }

    /** cli_cmd_reg; `refused` says that malloc gives no node. */
    method Register(command: Command, refused: bool) returns (ok: bool)
      requires Valid()
      modifies this, nodes
      ensures Valid() && ok == !refused
      ensures Commands(0) == if ok then Inserted(old(Commands(0)), command) else old(Commands(0))
      ensures fresh(set n <- nodes | n !in old(nodes))
    {
      if refused {
        return false;
      }
      var node := new CmdNode(command);
      var q, p;
      ghost var i;
      q, p, i := FindPlace(command.name);
      ghost var before := nodes;
      LinkIn(node, q, p, i);
      assert nodes[..i] == before[..i] && nodes[i] == node && nodes[i + 1..] == before[i..];
      Spliced(0, i, command);
      ok := true;
    }

    /** The new node stands before the first one that is greater. */
    twostate lemma {:induction false} Spliced(from: nat, new i: nat, new command: Command)
      requires from <= i <= |old(nodes)| && |nodes| == |old(nodes)| + 1
      requires nodes[i].command == command && nodes[..i] == old(nodes)[..i] && nodes[i + 1..] == old(nodes)[i..]
      requires forall k :: 0 <= k < i ==> !Greater(nodes[k].command.name, command.name)
      requires i < |old(nodes)| ==> Greater(nodes[i + 1].command.name, command.name)
      ensures Commands(from) == Inserted(old(Commands(from)), command)
      decreases i - from
    {
      if from < i {
        assert nodes[from] == nodes[..i][from] == old(nodes)[from];
        Spliced(from + 1, i, command);
      } else {
        Shifted(from);
        if i < |old(nodes)| { assert nodes[i + 1] == nodes[i + 1..][0] == old(nodes)[i]; }
      }
    }

    twostate lemma {:induction false} Shifted(from: nat)
      requires from <= |old(nodes)| && |nodes| == |old(nodes)| + 1 && nodes[from + 1..] == old(nodes)[from..]
      ensures Commands(from + 1) == old(Commands(from))
      decreases |old(nodes)| - from
    {
      if from < |old(nodes)| {
        assert nodes[from + 1] == nodes[from + 1..][0] == old(nodes)[from];
        assert nodes[from + 2..] == nodes[from + 1..][1..] == old(nodes)[from..][1..];
        Shifted(from + 1);
      }
    }

    /** The lookup of cli_cmd_exec. */
    method Lookup(key: Text) returns (outcome: Outcome)
      requires Valid()
      ensures outcome == Dispatch(Commands(0), key)
    {
      var p := head;
      ghost var i := 0;
      while p != null && !Matches(p.command.name, key)
        invariant i <= |nodes| && p == if i < |nodes| then nodes[i] else null
        invariant Dispatch(Commands(i), key) == Dispatch(Commands(0), key)
        decreases |nodes| - i
      {
        p, i := p.next, i + 1;
      }
      if p == null {
        return Unknown;
      }
      if |key| < |p.command.name| {
        var q := p.next;
        ghost var j := i + 1;
        while q != null && !Matches(q.command.name, key)
          invariant j <= |nodes| && q == if j < |nodes| then nodes[j] else null
          invariant AnyMatch(Commands(j), key) == AnyMatch(Commands(i + 1), key)
          decreases |nodes| - j
        {
          q, j := q.next, j + 1;
        }
        if q != null {
          return Ambiguous;
        }
      }
      outcome := Execute(p.command);
    }
  }
}
