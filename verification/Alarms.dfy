/** The checks of the hardware monitor: which alarms they raise and clear over any run of readings. */
module Alarms {
  import opened JsonValue

  datatype Severity = NoFault | Critical | Major | Minor | Warning

  datatype Alarm = HighTemp | OverHeating | ProcessOverload | MemOverload | InputPower | UnitOutOfOrder | LinkFault

  /** What hwmon_send_msg is given; severity NoFault clears the alarm. */
  datatype Message = Message(alarm: Alarm, severity: Severity)

  /** The alarms sent raised and not yet sent cleared. */
  function Outstanding(sent: seq<Message>): set<Alarm> {
    if sent == [] then {}
    else
      var before, m := Outstanding(sent[..|sent| - 1]), sent[|sent| - 1];
      if m.severity == NoFault then before - {m.alarm} else before + {m.alarm}
  }

  /** No alarm is raised twice in a row, and none is cleared that is not raised. */
  predicate Disciplined(sent: seq<Message>) {
    sent == [] ||
    var before, m := sent[..|sent| - 1], sent[|sent| - 1];
    Disciplined(before) && (m.severity == NoFault <==> m.alarm in Outstanding(before))
  }

  lemma {:induction false} OneMore(sent: seq<Message>, m: Message)
    ensures Outstanding(sent + [m]) == if m.severity == NoFault then Outstanding(sent) - {m.alarm} else Outstanding(sent) + {m.alarm}
    ensures Disciplined(sent + [m]) <==> Disciplined(sent) && (m.severity == NoFault <==> m.alarm in Outstanding(sent))
  {
    assert (sent + [m])[..|sent|] == sent;
  }

  // ---------- temperatures ----------

  function Level(temp: int, limit1: int, limit2: int): Severity {
    if temp > limit2 then Critical else if temp > limit1 then Minor else NoFault
  }

  /** The alarm a fault state stands for. */
  function Named(state: Severity): set<Alarm> {
    match state case Critical => {OverHeating} case Minor => {HighTemp} case _ => {}
  }

  function Clearing(state: Severity): seq<Message> {
    match state case Critical => [Message(OverHeating, NoFault)] case Minor => [Message(HighTemp, NoFault)] case _ => []
  }

  function Raising(state: Severity): seq<Message> {
    match state case Critical => [Message(OverHeating, Critical)] case Minor => [Message(HighTemp, Minor)] case _ => []
  }

  /** The messages of a change of level: the old alarm is cleared before the new one is raised. */
  function Change(from: Severity, to: Severity): seq<Message> {
    if from == to then [] else Clearing(from) + Raising(to)
  }

  lemma {:induction false} ClearingTells(sent: seq<Message>, from: Severity)
    requires Outstanding(sent) == Named(from) && Disciplined(sent)
    ensures Outstanding(sent + Clearing(from)) == {} && Disciplined(sent + Clearing(from))
  {
    if from == Critical {
      assert Clearing(from) == [Message(OverHeating, NoFault)];
      OneMore(sent, Message(OverHeating, NoFault));
    } else if from == Minor {
      assert Clearing(from) == [Message(HighTemp, NoFault)];
      OneMore(sent, Message(HighTemp, NoFault));
    } else {
      assert Clearing(from) == [] && sent + [] == sent;
    }
  }

  lemma {:induction false} RaisingTells(sent: seq<Message>, to: Severity)
    requires Outstanding(sent) == {} && Disciplined(sent)
    ensures Outstanding(sent + Raising(to)) == Named(to) && Disciplined(sent + Raising(to))
  {
    if to == Critical {
      assert Raising(to) == [Message(OverHeating, Critical)];
      OneMore(sent, Message(OverHeating, Critical));
    } else if to == Minor {
      assert Raising(to) == [Message(HighTemp, Minor)];
      OneMore(sent, Message(HighTemp, Minor));
    } else {
      assert Raising(to) == [] && sent + [] == sent;
    }
  }

  lemma {:induction false} ChangeTells(sent: seq<Message>, from: Severity, to: Severity)
    requires Outstanding(sent) == Named(from) && Disciplined(sent)
    ensures Outstanding(sent + Change(from, to)) == Named(to) && Disciplined(sent + Change(from, to))
  {
    if from == to {
      assert sent + [] == sent;
    } else {
      var cleared := sent + Clearing(from);
      ClearingTells(sent, from);
      RaisingTells(cleared, to);
      assert sent + Change(from, to) == cleared + Raising(to);
    }
  }

  /** One run of a temperature check: the limits in force and what the driver gave, None for its failure. */
  datatype Sample = Sample(temp: Option<int>, limit1: int, limit2: int)

  predicate Usable(s: Sample) { s.limit1 < s.limit2 && s.temp.Some? }

  /** The level of the last usable sample. */
  function LastLevel(samples: seq<Sample>): (state: Severity)
    ensures state == NoFault || state == Minor || state == Critical
  {
    if samples == [] then NoFault
    else
      var s := samples[|samples| - 1];
      if Usable(s) then Level(s.temp.value, s.limit1, s.limit2) else LastLevel(samples[..|samples| - 1])
  }

  lemma {:induction false} SkippedSample(samples: seq<Sample>, s: Sample)
    requires !Usable(s)
    ensures LastLevel(samples + [s]) == LastLevel(samples)
  {
    assert (samples + [s])[..|samples|] == samples;
  }

  // ---------- debounced checks ----------

  /** The number of bad readings since the last good one. */
  function Streak(bads: seq<bool>): nat {
    if bads == [] || !bads[|bads| - 1] then 0 else 1 + Streak(bads[..|bads| - 1])
  }

  /** More consecutive bad readings than are tolerated. */
  predicate TooMany(bads: seq<bool>, repeatMax: int) {
    Streak(bads) > 0 && Streak(bads) > repeatMax
  }

  /** The alarm follows `TooMany`: one message at each change of it. */
  function Edges(bads: seq<bool>, repeatMax: int, raised: Message): seq<Message> {
    if bads == [] then []
    else
      var before := bads[..|bads| - 1];
      Edges(before, repeatMax, raised)
      + if TooMany(bads, repeatMax) == TooMany(before, repeatMax) then []
        else if TooMany(bads, repeatMax) then [raised] else [Message(raised.alarm, NoFault)]
  }

  /** The alarm is raised exactly by the bad reading number repeat_max + 1 in a row, and cleared by the first good one. */
  lemma {:induction false} EdgeMoments(bads: seq<bool>, bad: bool, repeatMax: int)
    ensures TooMany(bads + [bad], repeatMax) && !TooMany(bads, repeatMax)
            <==> bad && Streak(bads) == if repeatMax > 0 then repeatMax else 0
    ensures !TooMany(bads + [bad], repeatMax) && TooMany(bads, repeatMax) <==> !bad && Streak(bads) > repeatMax && Streak(bads) > 0
    ensures Streak(bads + [bad]) == if bad then Streak(bads) + 1 else 0
  {
    assert (bads + [bad])[..|bads|] == bads;
  }

  /** One more reading. */
  lemma {:induction false} EdgesStep(bads: seq<bool>, bad: bool, repeatMax: int, raised: Message)
    ensures var after := bads + [bad];
      && Streak(after) == (if bad then Streak(bads) + 1 else 0)
      && Edges(after, repeatMax, raised) == Edges(bads, repeatMax, raised)
         + if TooMany(after, repeatMax) == TooMany(bads, repeatMax) then []
           else if bad then [raised] else [Message(raised.alarm, NoFault)]
  {
    assert (bads + [bad])[..|bads|] == bads;
  }

  /** Over any readings the alarm is outstanding exactly while there are too many, and messages alternate. */
  lemma {:induction false} EdgesTell(bads: seq<bool>, repeatMax: int, raised: Message)
    requires raised.severity != NoFault
    ensures Outstanding(Edges(bads, repeatMax, raised)) == if TooMany(bads, repeatMax) then {raised.alarm} else {}
    ensures Disciplined(Edges(bads, repeatMax, raised))
    ensures |Edges(bads, repeatMax, raised)| % 2 == if TooMany(bads, repeatMax) then 1 else 0
  {
    if bads != [] {
      var before := bads[..|bads| - 1];
      EdgesTell(before, repeatMax, raised);
      var sent := Edges(before, repeatMax, raised);
      OneMore(sent, raised);
      OneMore(sent, Message(raised.alarm, NoFault));
      assert sent + [] == sent;
    }
  }

  // ---------- links ----------

  /** A successful read of the link count, by the node in question or by another one. */
  datatype Link = Link(own: bool, count: int)

  /** The most links ever seen, never less than 0. */
  function Highest(links: seq<Link>): int {
    if links == [] then 0
    else
      var before, last := Highest(links[..|links| - 1]), links[|links| - 1].count;
      if last > before then last else before
  }

  lemma {:induction false} HighestIsMaximum(links: seq<Link>)
    ensures forall k :: 0 <= k < |links| ==> links[k].count <= Highest(links)
    ensures Highest(links) == 0 || exists k :: 0 <= k < |links| && links[k].count == Highest(links)
  {
    if links != [] {
      var before, last := links[..|links| - 1], |links| - 1;
      HighestIsMaximum(before);
      if Highest(links) == Highest(before) && Highest(links) != 0 {
        var k :| 0 <= k < |before| && before[k].count == Highest(before);
        assert links[k].count == Highest(links);
      } else if Highest(links) != 0 {
        assert links[last].count == Highest(links);
      }
    }
  }

  /** Which of the node's own readings were below some that came before, its own or another one's. */
  function Drops(links: seq<Link>): (bads: seq<bool>) {
    if links == [] then []
    else
      var before, last := links[..|links| - 1], links[|links| - 1];
      Drops(before) + if last.own then [last.count < Highest(before)] else []
  }

  lemma {:induction false} LinksStep(links: seq<Link>, link: Link)
    ensures Highest(links + [link]) == if link.count > Highest(links) then link.count else Highest(links)
    ensures Drops(links + [link]) == if link.own then Drops(links) + [link.count < Highest(links)] else Drops(links)
  {
    assert (links + [link])[..|links|] == links;
    assert Drops(links) + [] == Drops(links);
  }

  /** The static count of check_cpri_state, which all nodes with that check share. */
  class LinkBaseline {
    var preRruCnt: int

    constructor ()
      ensures preRruCnt == Highest([])
    {
      preRruCnt := 0;
    }
  }

  // ---------- register checks ----------

  datatype Comparison = Good | Glitch | Wrong

  /** The first read, and the second one when the first does not match. */
  function Compared(first: bv32, second: bv32, mask: bv32, expected: bv32): Comparison {
    if first & mask == expected & mask then Good
    else if second & mask == expected & mask then Glitch else Wrong
  }

  /** Whether the last reading that was no glitch was wrong. */
  predicate LastWrong(readings: seq<Comparison>) {
    readings != [] &&
    var last := readings[|readings| - 1];
    last == Wrong || (last == Glitch && LastWrong(readings[..|readings| - 1]))
  }

  const CHK_P_NUM: nat := 8

  /** CHK_NODE_INFO_S with the trace of its messages. */
  class CheckNode {
    const repeatMax: int
    const param: array<int>
    var faultState: Severity
    var faultCnt: int
    var sent: seq<Message>

    constructor (repeatMax: int)
      ensures this.repeatMax == repeatMax && fresh(param) && param.Length == CHK_P_NUM
      ensures AfterSamples([]) && AfterReadings([], Message(ProcessOverload, Major))
      ensures AfterReadings([], Message(LinkFault, Major)) && AfterComparisons([])
    {
      this.repeatMax := repeatMax;
      param := new int[CHK_P_NUM](_ => 0);
      faultState, faultCnt, sent := NoFault, 0, [];
    }

    method SendMsg(alarm: Alarm, severity: Severity)
      modifies this`sent
      ensures sent == old(sent) + [Message(alarm, severity)]
    {
      sent := sent + [Message(alarm, severity)];
    }

    /** The "param" branch of hwmon_set_node_cfg. */
    method SetParam(pi: int, value: int) returns (ok: bool)
      requires param.Length == CHK_P_NUM
      modifies param
      ensures ok <==> 0 <= pi < CHK_P_NUM
      ensures param[..] == if ok then old(param[..])[pi := value] else old(param[..])
    {
      if pi < 0 || pi >= CHK_P_NUM {
        return false;
      }
      param[pi] := value;
      ok := true;
    }

    // ---------- temperatures ----------

    /** The state after the samples: the alarm outstanding is the one the fault state names. */
    ghost predicate AfterSamples(samples: seq<Sample>)
      reads this
    {
      faultState == LastLevel(samples) && Outstanding(sent) == Named(faultState) && Disciplined(sent)
    }

    /** check_cpu_temp. */
    method CheckCpuTemp(temp: Option<int>, ghost samples: seq<Sample>) returns (ok: bool)
      requires param.Length == CHK_P_NUM && AfterSamples(samples)
      modifies this`faultState, this`sent
      ensures AfterSamples(samples + [Sample(temp, param[0], param[1])])
      ensures ok <==> param[0] < param[1] && temp.Some?
      ensures sent == old(sent) + Change(old(faultState), faultState)
    {
      if param[0] >= param[1] {
        SkippedSample(samples, Sample(temp, param[0], param[1]));
        return false;
      }
      ok := CheckTemp(temp, param[0], param[1], samples);
    }

    /** check_board_temp. */
    method CheckBoardTemp(temp: Option<int>, ghost samples: seq<Sample>) returns (ok: bool)
      requires param.Length == CHK_P_NUM && AfterSamples(samples)
      modifies this`faultState, this`sent
      ensures AfterSamples(samples + [Sample(temp, param[1], param[2])])
      ensures ok <==> param[1] < param[2] && temp.Some?
      ensures sent == old(sent) + Change(old(faultState), faultState)
    {
      if param[1] >= param[2] {
        SkippedSample(samples, Sample(temp, param[1], param[2]));
        return false;
      }
      ok := CheckTemp(temp, param[1], param[2], samples);
    }

    /** The part that check_cpu_temp and check_board_temp have in common. */
    method CheckTemp(temp: Option<int>, limit1: int, limit2: int, ghost samples: seq<Sample>) returns (ok: bool)
      requires limit1 < limit2 && AfterSamples(samples)
      modifies this`faultState, this`sent
      ensures AfterSamples(samples + [Sample(temp, limit1, limit2)])
      ensures ok <==> temp.Some?
      ensures sent == old(sent) + Change(old(faultState), faultState)
    {
      ghost var after := samples + [Sample(temp, limit1, limit2)];
      assert after[..|samples|] == samples;
      if temp.None? {
        assert sent == sent + Change(faultState, faultState);
        return false;
      }
      SetLevel(temp.value, limit1, limit2);
      ChangeTells(old(sent), old(faultState), faultState);
      ok := true;
    }

    /** The three branches on the temperature. */
    method SetLevel(temp: int, limit1: int, limit2: int)
      requires faultState == NoFault || faultState == Minor || faultState == Critical
      modifies this`faultState, this`sent
      ensures faultState == if temp > limit2 then Critical else if temp > limit1 then Minor else NoFault
      ensures sent == old(sent) + Change(old(faultState), faultState)
    {
      if temp > limit2 {
        if faultState != Critical {
          if faultState == Minor {
            SendMsg(HighTemp, NoFault);
          }
          SendMsg(OverHeating, Critical);
        }
        faultState := Critical;
      } else if temp > limit1 {
        if faultState != Minor {
          if faultState == Critical {
            SendMsg(OverHeating, NoFault);
          }
          SendMsg(HighTemp, Minor);
        }
        faultState := Minor;
      } else {
        if faultState != NoFault {
          if faultState == Critical {
            SendMsg(OverHeating, NoFault);
          } else if faultState == Minor {
            SendMsg(HighTemp, NoFault);
          }
        }
        faultState := NoFault;
      }
    }

    // ---------- debounced checks ----------

    /** The state after the readings of one debounced check that raises `raised`. */
    ghost predicate AfterReadings(bads: seq<bool>, raised: Message)
      reads this
    {
      && faultCnt == Streak(bads) && sent == Edges(bads, repeatMax, raised)
      && faultState == if TooMany(bads, repeatMax) then Critical else NoFault
    }

    /** check_cpu_occupy. */
    method CheckCpuOccupy(usage: Option<int>, ghost bads: seq<bool>) returns (ok: bool)
      requires param.Length == CHK_P_NUM && AfterReadings(bads, Message(ProcessOverload, Major))
      modifies this`faultState, this`faultCnt, this`sent
      ensures ok <==> usage.Some?
      ensures AfterReadings(if ok then bads + [usage.value > param[0]] else bads, Message(ProcessOverload, Major))
    {
      if usage.None? {
        return false;
      }
      EdgesStep(bads, usage.value > param[0], repeatMax, Message(ProcessOverload, Major));
      if usage.value > param[0] {
        var over := faultCnt >= repeatMax;
        faultCnt := faultCnt + 1;
        if over {
          if faultState == NoFault {
            SendMsg(ProcessOverload, Major);
          }
          faultState := Critical;
        }
      } else {
        if faultState != NoFault {
          SendMsg(ProcessOverload, NoFault);
        }
        faultState := NoFault;
        faultCnt := 0;
      }
      ok := true;
    }

    /** ina2xx_reg_check. */
    method CheckInputPower(power: Option<int>, ghost bads: seq<bool>) returns (ok: bool)
      requires param.Length == CHK_P_NUM && AfterReadings(bads, Message(InputPower, Major))
      modifies this`faultState, this`faultCnt, this`sent
      ensures ok <==> power.Some?
      ensures AfterReadings(if ok then bads + [power.value < param[1]] else bads, Message(InputPower, Major))
    {
      if power.None? {
        return false;
      }
      EdgesStep(bads, power.value < param[1], repeatMax, Message(InputPower, Major));
      if power.value < param[1] {
        var over := faultCnt >= repeatMax;
        faultCnt := faultCnt + 1;
        if over {
          if faultState != Critical {
            SendMsg(InputPower, Major);
          }
          faultState := Critical;
        }
      } else {
        if faultState != NoFault {
          SendMsg(InputPower, NoFault);
        }
        faultState := NoFault;
        faultCnt := 0;
      }
      ok := true;
    }

    /** The state after the link counts: the baseline is the most links ever seen by any node. */
    ghost predicate AfterLinks(baseline: LinkBaseline, links: seq<Link>)
      reads this, baseline
    {
      baseline.preRruCnt == Highest(links) && AfterReadings(Drops(links), Message(LinkFault, Major))
    }

    /** check_cpri_state; `other` is any other node with that check. */
    method CheckCpriState(count: Option<int>, baseline: LinkBaseline, ghost links: seq<Link>, ghost other: CheckNode, ghost others: seq<Link>)
      returns (ok: bool)
      requires AfterLinks(baseline, links) && other != this && other.AfterLinks(baseline, others)
      modifies this`faultState, this`faultCnt, this`sent, baseline
      ensures ok <==> count.Some?
      ensures AfterLinks(baseline, if ok then links + [Link(true, count.value)] else links)
      ensures other.AfterLinks(baseline, if ok then others + [Link(false, count.value)] else others)
    {
      if count.None? {
        return false;
      }
      LinksStep(links, Link(true, count.value));
      LinksStep(others, Link(false, count.value));
      EdgesStep(Drops(links), count.value < baseline.preRruCnt, repeatMax, Message(LinkFault, Major));
      if count.value < baseline.preRruCnt {
        var over := faultCnt >= repeatMax;
        faultCnt := faultCnt + 1;
        if over {
          if faultState == NoFault {
            SendMsg(LinkFault, Major);
          }
          faultState := Critical;
        }
      } else {
        baseline.preRruCnt := count.value;
        if faultState != NoFault {
          SendMsg(LinkFault, NoFault);
        }
        faultCnt := 0;
        faultState := NoFault;
      }
      ok := true;
    }

    // ---------- register checks ----------

    ghost predicate AfterComparisons(readings: seq<Comparison>)
      reads this
    {
      && faultState == (if LastWrong(readings) then Critical else NoFault)
      && Outstanding(sent) == (if LastWrong(readings) then {UnitOutOfOrder} else {}) && Disciplined(sent)
    }

    /** fpga_reg_check: a second read that matches neither raises nor clears. */
    method CheckRegister(first: bv32, second: bv32, mask: bv32, expected: bv32, ghost readings: seq<Comparison>)
      requires AfterComparisons(readings)
      modifies this`faultState, this`sent
      ensures AfterComparisons(readings + [Compared(first, second, mask, expected)])
    {
      var differs, stillDiffers := first & mask != expected & mask, second & mask != expected & mask;
      SetRegister(differs, stillDiffers, readings);
    }

    /** The branches of fpga_reg_check on its comparisons. */
    method SetRegister(differs: bool, stillDiffers: bool, ghost readings: seq<Comparison>)
      requires AfterComparisons(readings)
      modifies this`faultState, this`sent
      ensures AfterComparisons(readings + [if !differs then Good else if !stillDiffers then Glitch else Wrong])
    {
      ghost var reading := if !differs then Good else if !stillDiffers then Glitch else Wrong;
      ghost var after := readings + [reading];
      assert after[..|readings|] == readings;
      OneMore(sent, Message(UnitOutOfOrder, Critical));
      OneMore(sent, Message(UnitOutOfOrder, NoFault));
      if differs {
        if stillDiffers {
          if faultState != Critical {
            SendMsg(UnitOutOfOrder, Critical);
          }
          faultState := Critical;
        }
      } else {
        if faultState != NoFault {
          SendMsg(UnitOutOfOrder, NoFault);
        }
        faultState := NoFault;
      }
    }
  }
}
