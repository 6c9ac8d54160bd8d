/** The timer thread and the checker thread of the hardware monitor, which share the status of each node. */
module Scheduler {
  /**
   * A checked node. `ready` is check_status, which only ever is READY or IDLE. The last four fields
   * record the past: timer visits while enabled, expiries of the interval, the number of expiries at
   * the start of the latest run, and whether the interval was ever set.
   */
  datatype Node = Node(
    enable: bool, hasFun: bool, interval: int, intervalCmp: int, ready: bool, checkTimes: nat,
    ticks: nat, expiries: nat, atStart: nat, intervalSet: bool)

  /** Where the timer thread is: between nodes, behind its test of `enable`, or about to store READY. */
  datatype Timer = Resting | Enabled(i: nat) | Expired(i: nat)

  /** Where the checker thread is: between nodes, behind its test of `enable`, in a check function, or about to store IDLE. */
  datatype Checker = Scanning | Tested(i: nat) | Running(i: nat) | Counted(i: nat)

  datatype System = System(nodes: seq<Node>, timer: Timer, checker: Checker)

  /** The steps of all threads; any of them may come next at any time. Only the timer uses interval_cmp. */
  datatype Action =
    | TestTimer(i: nat)
    | CountTick
    | StoreReady
    | TestCheck(i: nat)
    | StartRun
    | CountRun
    | StoreIdle
    | SetEnable(i: nat, enable: bool)
    | SetInterval(i: nat, interval: int)
    | SetFun(i: nat)

  function With(s: System, i: nat, n: Node): System
    requires i < |s.nodes|
  {
    s.(nodes := s.nodes[i := n])
  }

  /** interval_cmp is counted up, or back to 0 when the interval has expired. */
  function Ticked(n: Node): Node {
    n.(intervalCmp := if n.intervalCmp >= n.interval then 0 else n.intervalCmp + 1, ticks := n.ticks + 1)
  }

  /** The test of hwmon_check_task behind that of `enable`. */
  predicate Due(n: Node) { n.ready && n.hasFun }

  predicate Bounded(s: System) {
    && (s.timer.Resting? || s.timer.i < |s.nodes|)
    && (s.checker.Scanning? || s.checker.i < |s.nodes|)
  }

  function Next(s: System, a: Action): System
    requires Bounded(s)
  {
    match a
    case TestTimer(i) =>
      if s.timer.Resting? && i < |s.nodes| && s.nodes[i].enable then s.(timer := Enabled(i)) else s
    case CountTick =>
      if s.timer.Enabled? then
        var n := s.nodes[s.timer.i];
        With(s, s.timer.i, Ticked(n)).(timer := if n.intervalCmp >= n.interval then Expired(s.timer.i) else Resting)
      else s
    case StoreReady =>
      if s.timer.Expired? then
        var n := s.nodes[s.timer.i];
        With(s, s.timer.i, n.(ready := true, expiries := n.expiries + 1)).(timer := Resting)
      else s
    case TestCheck(i) =>
      if s.checker.Scanning? && i < |s.nodes| && s.nodes[i].enable then s.(checker := Tested(i)) else s
    case StartRun =>
      if s.checker.Tested? then
        var n := s.nodes[s.checker.i];
        if Due(n) then With(s, s.checker.i, n.(atStart := n.expiries)).(checker := Running(s.checker.i))
        else s.(checker := Scanning)
      else s
    case CountRun =>
      if s.checker.Running? then
        var n := s.nodes[s.checker.i];
        With(s, s.checker.i, n.(checkTimes := n.checkTimes + 1)).(checker := Counted(s.checker.i))
      else s
    case StoreIdle =>
      if s.checker.Counted? then With(s, s.checker.i, s.nodes[s.checker.i].(ready := false)).(checker := Scanning) else s
    case SetEnable(i, enable) => if i < |s.nodes| then With(s, i, s.nodes[i].(enable := enable)) else s
    case SetInterval(i, interval) =>
      if i < |s.nodes| then With(s, i, s.nodes[i].(interval := interval, intervalSet := true)) else s
    case SetFun(i) => if i < |s.nodes| then With(s, i, s.nodes[i].(hasFun := true)) else s
  }

  function Run(s: System, actions: seq<Action>): (t: System)
    requires Bounded(s)
    ensures Bounded(t) && |t.nodes| == |s.nodes|
  {
    if actions == [] then s else Next(Run(s, actions[..|actions| - 1]), actions[|actions| - 1])
  }

  /** A node as hwmon_register leaves it. */
  predicate Registered(n: Node) {
    && n.intervalCmp == 0 && !n.ready && n.checkTimes == 0
    && n.ticks == 0 && n.expiries == 0 && n.atStart == 0 && !n.intervalSet
  }

  predicate Initial(s: System) {
    s.timer.Resting? && s.checker.Scanning? && forall i :: 0 <= i < |s.nodes| ==> Registered(s.nodes[i])
  }

  /** The number of visits from one expiry to the next. */
  function Period(interval: int): nat { if interval < 0 then 1 else interval + 1 }

  /** The expiry of a node that the timer has seen but not stored yet. */
  function Underway(s: System, i: nat): nat { if s.timer == Expired(i) then 1 else 0 }

  predicate Paced(n: Node, underway: nat) {
    !n.intervalSet ==> n.intervalCmp == n.ticks % Period(n.interval) && n.expiries + underway == n.ticks / Period(n.interval)
  }

  /** How far the checker thread is with node `i`; a node that is being run is still READY. */
  predicate Accounted(s: System, i: nat)
    requires i < |s.nodes|
  {
    var n := s.nodes[i];
    && n.atStart <= n.expiries
    && (s.checker == Running(i) || s.checker == Counted(i) ==> n.ready)
    && (n.ready && s.checker != Running(i) && s.checker != Counted(i) ==> n.atStart < n.expiries)
  }

  predicate Inv(s: System) {
    Bounded(s) && forall i {:trigger s.nodes[i]} :: 0 <= i < |s.nodes| ==> Paced(s.nodes[i], Underway(s, i)) && Accounted(s, i)
  }

  lemma TickKeepsPace(n: Node)
    requires Paced(n, 0)
    ensures Paced(Ticked(n), if n.intervalCmp >= n.interval then 1 else 0)
  {
    var t, p := n.ticks, Period(n.interval);
    if !n.intervalSet {
      if t % p + 1 < p {
        assert t + 1 == p * (t / p) + (t % p + 1);
        DivMod(t + 1, p, t / p, t % p + 1);
      } else {
        assert t + 1 == p * (t / p + 1);
        DivMod(t + 1, p, t / p + 1, 0);
      }
    }
  }

  lemma DivMod(t: nat, p: nat, q: nat, r: nat)
    requires r < p && t == p * q + r
    ensures t / p == q && t % p == r
  {
    assert t == p * (t / p) + t % p;
    var d := t / p - q;
    assert p * d == r - t % p;
    MultipleIsFar(p, d);
  }

  lemma MultipleIsFar(p: int, d: int)
    requires p >= 0
    ensures (d >= 1 ==> p * d >= p) && (d <= -1 ==> p * d <= -p)
  {
    if d >= 1 { assert p * (d - 1) >= 0; }
    if d <= -1 { assert p * (-d - 1) >= 0; }
  }

  /** One step keeps the pace and the account of each node by itself. */
  lemma NodePreserved(s: System, a: Action, i: nat)
    requires Bounded(s) && i < |s.nodes| && Paced(s.nodes[i], Underway(s, i)) && Accounted(s, i)
    ensures |Next(s, a).nodes| == |s.nodes|
    ensures Paced(Next(s, a).nodes[i], Underway(Next(s, a), i)) && Accounted(Next(s, a), i)
  {
    if a.CountTick? && s.timer == Enabled(i) {
      TickKeepsPace(s.nodes[i]);
    }
  }

  lemma Preserved(s: System, a: Action)
    requires Inv(s)
    ensures Inv(Next(s, a))
  {
    forall i | 0 <= i < |s.nodes|
      ensures |Next(s, a).nodes| == |s.nodes| && Paced(Next(s, a).nodes[i], Underway(Next(s, a), i)) && Accounted(Next(s, a), i)
    {
      assert Paced(s.nodes[i], Underway(s, i)) && Accounted(s, i);
      NodePreserved(s, a, i);
    }
    assert |Next(s, a).nodes| == |s.nodes| && Bounded(Next(s, a));
  }

  lemma {:induction false} Invariant(s: System, actions: seq<Action>)
    requires Initial(s)
    ensures Inv(Run(s, actions))
  {
    if actions == [] {
      forall i | 0 <= i < |s.nodes| ensures Paced(s.nodes[i], 0) && Accounted(s, i) {
        assert Registered(s.nodes[i]);
      }
    } else {
      Invariant(s, actions[..|actions| - 1]);
      Preserved(Run(s, actions[..|actions| - 1]), actions[|actions| - 1]);
    }
  }

  // ---------- expiries and runs ----------

  /** The next step would store READY in a node that is READY already, so its expiry will not be seen. */
  predicate Loses(s: System, a: Action, i: nat)
    requires i < |s.nodes|
  {
    a.StoreReady? && s.timer == Expired(i) && s.nodes[i].ready
  }

  /** The expiries of a node that met it READY: waiting for the checker, or being run. */
  function Lost(s: System, actions: seq<Action>, i: nat): nat
    requires Bounded(s) && i < |s.nodes|
  {
    if actions == [] then 0
    else
      var before, last := actions[..|actions| - 1], actions[|actions| - 1];
      Lost(s, before, i) + if Loses(Run(s, before), last, i) then 1 else 0
  }

  /** READY with no run counted for it yet. */
  function Pending(s: System, i: nat): nat
    requires i < |s.nodes|
  {
    if s.nodes[i].ready && s.checker != Counted(i) then 1 else 0
  }

  lemma StepIsAccounted(s: System, a: Action, i: nat)
    requires Bounded(s) && i < |s.nodes| && Accounted(s, i)
    ensures var t := Next(s, a);
      && |t.nodes| == |s.nodes| && t.nodes[i].expiries >= s.nodes[i].expiries
      && t.nodes[i].checkTimes + Pending(t, i) + (if Loses(s, a, i) then 1 else 0)
         == s.nodes[i].checkTimes + Pending(s, i) + (t.nodes[i].expiries - s.nodes[i].expiries)
  {
  }

  /** In every interleaving each expiry of a node has been run, is still to be run, or is lost. */
  lemma {:induction false} ExpiriesAreAccounted(s: System, actions: seq<Action>, i: nat)
    requires Initial(s) && i < |s.nodes|
    ensures var t := Run(s, actions);
      t.nodes[i].checkTimes + Lost(s, actions, i) + Pending(t, i) == t.nodes[i].expiries
  {
    if actions == [] {
      assert Registered(s.nodes[i]);
    } else {
      var before, last := actions[..|actions| - 1], actions[|actions| - 1];
      ExpiriesAreAccounted(s, before, i);
      var t := Run(s, before);
      assert Accounted(t, i) by { Invariant(s, before); assert t.nodes[i] == t.nodes[i]; }
      StepIsAccounted(t, last, i);
    }
  }

  /** So a node is never run more often than its interval expires. */
  lemma {:induction false} RunsNeedExpiries(s: System, actions: seq<Action>, i: nat)
    requires Initial(s) && i < |s.nodes|
    ensures Run(s, actions).nodes[i].checkTimes <= Run(s, actions).nodes[i].expiries
  {
    ExpiriesAreAccounted(s, actions, i);
  }

  /** Step `k` loses an expiry of the node. */
  predicate LosesAt(s: System, actions: seq<Action>, i: nat, k: nat)
    requires Bounded(s) && i < |s.nodes| && k < |actions|
  {
    Loses(Run(s, actions[..k]), actions[k], i)
  }

  lemma {:induction false} NothingLost(s: System, actions: seq<Action>, i: nat, n: nat)
    requires Bounded(s) && i < |s.nodes| && n <= |actions|
    ensures Lost(s, actions[..n], i) == 0 <==> forall k :: 0 <= k < n ==> !LosesAt(s, actions, i, k)
  {
    if n > 0 {
      var m := n - 1;
      NothingLost(s, actions, i, m);
      OneMoreLost(s, actions, i, m, n);
    }
  }

  lemma {:induction false} OneMoreLost(s: System, actions: seq<Action>, i: nat, m: nat, n: nat)
    requires Bounded(s) && i < |s.nodes| && n == m + 1 <= |actions|
    ensures Lost(s, actions[..n], i) == Lost(s, actions[..m], i) + if LosesAt(s, actions, i, m) then 1 else 0
  {
    assert actions[..n][..m] == actions[..m];
  }

  /** A node at rest has been run once for each expiry exactly if none of them met it READY. */
  lemma {:induction false} RunsEqualExpiries(s: System, actions: seq<Action>, i: nat)
    requires Initial(s) && i < |s.nodes| && !Run(s, actions).nodes[i].ready
    ensures Run(s, actions).nodes[i].checkTimes == Run(s, actions).nodes[i].expiries
            <==> forall k :: 0 <= k < |actions| ==> !LosesAt(s, actions, i, k)
  {
    ExpiriesAreAccounted(s, actions, i);
    NothingLost(s, actions, i, |actions|);
    assert actions[..|actions|] == actions;
  }

  /** When a run of a node is about to start, its interval has expired since the latest one started. */
  lemma {:induction false} ExpiryBetweenRuns(s: System, actions: seq<Action>, i: nat)
    requires Initial(s) && i < |s.nodes|
    ensures var t := Run(s, actions);
      t.checker == Tested(i) && Due(t.nodes[i]) ==> t.nodes[i].atStart < t.nodes[i].expiries
  {
    Invariant(s, actions);
    assert Accounted(Run(s, actions), i);
  }

  /** While its interval n is not set anew, t enabled visits make the floor of t / (n + 1) expiries. */
  lemma {:induction false} ExpiriesArePaced(s: System, actions: seq<Action>, i: nat)
    requires Initial(s) && i < |s.nodes| && s.nodes[i].interval >= 0
    requires forall k, n :: 0 <= k < |actions| ==> actions[k] != SetInterval(i, n)
    ensures var t := Run(s, actions);
      t.nodes[i].expiries + Underway(t, i) == t.nodes[i].ticks / (s.nodes[i].interval + 1)
  {
    Invariant(s, actions);
    IntervalStays(s, actions, i);
    assert Paced(Run(s, actions).nodes[i], Underway(Run(s, actions), i));
  }

  lemma {:induction false} IntervalStays(s: System, actions: seq<Action>, i: nat)
    requires Initial(s) && i < |s.nodes|
    requires forall k, n :: 0 <= k < |actions| ==> actions[k] != SetInterval(i, n)
    ensures Run(s, actions).nodes[i].interval == s.nodes[i].interval && !Run(s, actions).nodes[i].intervalSet
  {
    if actions == [] {
      assert Registered(s.nodes[i]);
    } else {
      var before, last := actions[..|actions| - 1], actions[|actions| - 1];
      IntervalStays(s, before, i);
      assert last.SetInterval? ==> last != SetInterval(i, last.interval);
      StepKeepsInterval(Run(s, before), last, i);
    }
  }

  lemma StepKeepsInterval(s: System, a: Action, i: nat)
    requires Bounded(s) && i < |s.nodes| && !(a.SetInterval? && a.i == i)
    ensures |Next(s, a).nodes| == |s.nodes|
    ensures Next(s, a).nodes[i].interval == s.nodes[i].interval && Next(s, a).nodes[i].intervalSet == s.nodes[i].intervalSet
  {
  }

  /** One node at rest with interval 0, its expiries being as many as its visits, and the threads between nodes. */
  function AtRest(ticks: nat, runs: nat): System {
    System([Node(true, true, 0, 0, false, runs, ticks, ticks, ticks, false)], Resting, Scanning)
  }

  /** An expiry that meets a node still waiting for the checker is lost: two expiries, one run, and nothing left to do. */
  lemma ExpiryBeforeRunIsLost()
    ensures var visit := [TestTimer(0), CountTick, StoreReady];
      Run(AtRest(0, 0), visit + visit + [TestCheck(0), StartRun, CountRun, StoreIdle]) == AtRest(2, 1)
  {
    var s, visit, run := AtRest(0, 0), [TestTimer(0), CountTick, StoreReady], [TestCheck(0), StartRun, CountRun, StoreIdle];
    VisitedIsThreeSteps(s, 0);
    VisitedIsThreeSteps(Run(s, visit), 0);
    CheckedIsFourSteps(Run(Run(s, visit), visit), 0);
    RunOn(s, visit, visit);
    RunOn(s, visit + visit, run);
  }

  /** AtRest(2, 1) but for the expiry seen at the start of the run. */
  function RunEarlier(): System {
    System([Node(true, true, 0, 0, false, 1, 2, 2, 1, false)], Resting, Scanning)
  }

  function InRun(expiries: nat): System {
    System([Node(true, true, 0, 0, true, 0, expiries, expiries, 1, false)], Resting, Running(0))
  }

  /** So is one that comes during a run. */
  lemma ExpiryDuringRunIsLost()
    ensures var visit := [TestTimer(0), CountTick, StoreReady];
      Run(AtRest(0, 0), visit + [TestCheck(0), StartRun] + visit + [CountRun, StoreIdle]) == RunEarlier()
  {
    var s, visit, start, end := AtRest(0, 0), [TestTimer(0), CountTick, StoreReady], [TestCheck(0), StartRun], [CountRun, StoreIdle];
    RunStarts();
    VisitedIsThreeSteps(InRun(1), 0);
    assert Run(InRun(1), visit) == InRun(2);
    RunEnds();
    RunOn(s, visit + start, visit);
    RunOn(s, visit + start + visit, end);
  }

  lemma RunStarts()
    ensures Run(AtRest(0, 0), [TestTimer(0), CountTick, StoreReady] + [TestCheck(0), StartRun]) == InRun(1)
  {
    var s, visit := AtRest(0, 0), [TestTimer(0), CountTick, StoreReady];
    VisitedIsThreeSteps(s, 0);
    RunTwo(Run(s, visit), TestCheck(0), StartRun);
    RunOn(s, visit, [TestCheck(0), StartRun]);
  }

  lemma RunEnds()
    ensures Run(InRun(2), [CountRun, StoreIdle]) == RunEarlier()
  {
    RunTwo(InRun(2), CountRun, StoreIdle);
  }

  lemma {:induction false} RunOn(s: System, a: seq<Action>, b: seq<Action>)
    requires Bounded(s)
    ensures Run(s, a + b) == Run(Run(s, a), b)
  {
    RunAgain(s, a, b, a + b, Run(s, a));
  }

  lemma {:induction false} RunAgain(s: System, a: seq<Action>, b: seq<Action>, all: seq<Action>, mid: System)
    requires Bounded(s) && all == a + b && mid == Run(s, a)
    ensures Run(s, all) == Run(mid, b)
    decreases |b|
  {
    if b == [] {
      assert all == a;
    } else {
      var before, last, most := b[..|b| - 1], b[|b| - 1], all[..|all| - 1];
      RunAgain(s, a, before, most, mid);
      RunLast(s, all, most, mid, b, before, last);
    }
  }

  /** One more action keeps two runs together. */
  lemma {:induction false} RunLast(s: System, all: seq<Action>, before: seq<Action>,
                                    s': System, all': seq<Action>, before': seq<Action>, last: Action)
    requires Bounded(s) && all == before + [last] && Bounded(s') && all' == before' + [last]
    requires Run(s, before) == Run(s', before')
    ensures Run(s, all) == Run(s', all')
  {
    assert all[..|before|] == before && all'[..|before'|] == before';
  }

  lemma {:induction false} RunTwo(s: System, a: Action, b: Action)
    requires Bounded(s)
    ensures Bounded(Next(s, a)) && Run(s, [a, b]) == Next(Next(s, a), b)
  {
    assert [a, b][..1] == [a] && [a][..0] == [];
    assert Run(s, [a]) == Next(s, a);
  }

  lemma {:induction false} RunThree(s: System, a: Action, b: Action, c: Action)
    requires Bounded(s)
    ensures Bounded(Next(s, a)) && Bounded(Next(Next(s, a), b)) && Run(s, [a, b, c]) == Next(Next(Next(s, a), b), c)
  {
    assert [a, b, c][..2] == [a, b];
    RunTwo(s, a, b);
  }

  lemma {:induction false} RunFour(s: System, a: Action, b: Action, c: Action, d: Action)
    requires Bounded(s)
    ensures Bounded(Next(s, a)) && Bounded(Next(Next(s, a), b)) && Bounded(Next(Next(Next(s, a), b), c))
    ensures Run(s, [a, b, c, d]) == Next(Next(Next(Next(s, a), b), c), d)
  {
    assert [a, b, c, d][..3] == [a, b, c];
    RunThree(s, a, b, c);
  }

  // ---------- the list as it is updated in place ----------

  class NodeInfo {
    var enable: bool
    var hasFun: bool
    var interval: int
    var intervalCmp: int
    var ready: bool
    var checkTimes: nat
    ghost var ticks: nat
    ghost var expiries: nat
    ghost var atStart: nat
    ghost var intervalSet: bool

    ghost function View(): Node
      reads this
    {
      Node(enable, hasFun, interval, intervalCmp, ready, checkTimes, ticks, expiries, atStart, intervalSet)
    }
  }

  /** An undisturbed visit of the timer to one node. */
  function Visited(n: Node): Node {
    if !n.enable then n
    else if n.intervalCmp >= n.interval then Ticked(n).(ready := true, expiries := n.expiries + 1) else Ticked(n)
  }

  /** It is made of the steps of the timer. */
  lemma {:induction false} VisitedIsThreeSteps(s: System, i: nat)
    requires Bounded(s) && s.timer.Resting? && i < |s.nodes|
    ensures Run(s, [TestTimer(i), CountTick, StoreReady]) == With(s, i, Visited(s.nodes[i]))
  {
    RunThree(s, TestTimer(i), CountTick, StoreReady);
    WithSame(s, i);
    if s.nodes[i].enable {
      TickIsTwoSteps(s.(timer := Enabled(i)), i);
    }
  }

  lemma TickIsTwoSteps(s: System, i: nat)
    requires Bounded(s) && s.timer == Enabled(i) && s.nodes[i].enable
    ensures Bounded(Next(s, CountTick))
    ensures Next(Next(s, CountTick), StoreReady) == With(s, i, Visited(s.nodes[i])).(timer := Resting)
  {
    var n := s.nodes[i];
    var expired := n.intervalCmp >= n.interval;
    var t := With(s, i, Ticked(n)).(timer := if expired then Expired(i) else Resting);
    assert Next(s, CountTick) == t;
    if expired { WithTwice(s, i, Ticked(n), Visited(n)); }
  }

  lemma WithSame(s: System, i: nat)
    requires i < |s.nodes|
    ensures With(s, i, s.nodes[i]) == s
  {
  }

  lemma WithTwice(s: System, i: nat, m: Node, n: Node)
    requires i < |s.nodes|
    ensures With(With(s, i, m), i, n) == With(s, i, n)
  {
  }

  /** hwmon_list_check. */
  method ListCheck(list: seq<NodeInfo>)
    requires forall i, j :: 0 <= i < j < |list| ==> list[i] != list[j]
    modifies list
    ensures forall i {:trigger list[i]} :: 0 <= i < |list| ==> list[i].View() == Visited(old(list[i].View()))
  {
    for i := 0 to |list|
      invariant forall k {:trigger list[k]} :: 0 <= k < i ==> list[k].View() == Visited(old(list[k].View()))
      invariant forall k {:trigger list[k]} :: i <= k < |list| ==> list[k].View() == old(list[k].View())
    {
      var node := list[i];
      if node.enable {
        node.ticks := node.ticks + 1;
        var expired := node.intervalCmp >= node.interval;
        node.intervalCmp := node.intervalCmp + 1;
        if expired {
          node.intervalCmp := 0;
          node.ready := true;
          node.expiries := node.expiries + 1;
        }
      }
    }
  }

  /** One pass of hwmon_check_task with no step of another thread in between: every due node is run once. */
  method CheckPass(list: seq<NodeInfo>)
    requires forall i, j :: 0 <= i < j < |list| ==> list[i] != list[j]
    modifies list
    ensures forall i {:trigger list[i]} :: 0 <= i < |list| ==> list[i].View() == Checked(old(list[i].View()))
  {
    for i := 0 to |list|
      invariant forall k {:trigger list[k]} :: 0 <= k < i ==> list[k].View() == Checked(old(list[k].View()))
      invariant forall k {:trigger list[k]} :: i <= k < |list| ==> list[k].View() == old(list[k].View())
    {
      var node := list[i];
      if node.enable && node.ready && node.hasFun {
        node.atStart := node.expiries;
        node.checkTimes := node.checkTimes + 1;
        node.ready := false;
      }
    }
  }

  function Checked(n: Node): Node {
    if n.enable && Due(n) then n.(atStart := n.expiries, checkTimes := n.checkTimes + 1, ready := false) else n
  }

  /** An undisturbed pass is made of the steps of the checker. */
  lemma {:induction false} CheckedIsFourSteps(s: System, i: nat)
    requires Bounded(s) && s.checker.Scanning? && i < |s.nodes|
    ensures Run(s, [TestCheck(i), StartRun, CountRun, StoreIdle]) == With(s, i, Checked(s.nodes[i]))
  {
    RunFour(s, TestCheck(i), StartRun, CountRun, StoreIdle);
    WithSame(s, i);
    if s.nodes[i].enable && Due(s.nodes[i]) {
      RunIsThreeSteps(s.(checker := Tested(i)), i);
    }
  }

  lemma RunIsThreeSteps(s: System, i: nat)
    requires Bounded(s) && s.checker == Tested(i) && s.nodes[i].enable && Due(s.nodes[i])
    ensures Bounded(Next(s, StartRun)) && Bounded(Next(Next(s, StartRun), CountRun))
    ensures Next(Next(Next(s, StartRun), CountRun), StoreIdle) == With(s, i, Checked(s.nodes[i])).(checker := Scanning)
  {
    var n := s.nodes[i];
    var m := n.(atStart := n.expiries);
    var k := m.(checkTimes := m.checkTimes + 1);
    assert Next(s, StartRun) == With(s, i, m).(checker := Running(i));
    WithTwice(s, i, m, k);
    assert Next(Next(s, StartRun), CountRun) == With(s, i, k).(checker := Counted(i));
    WithTwice(s, i, k, Checked(n));
  }
}
