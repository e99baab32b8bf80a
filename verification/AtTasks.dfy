/** What the order of commands in a task guarantees: a command that must be answered is answered before anything
    behind it is written. For a message this means that its text goes out only after the prompt, and for a call that
    it is dialled only after the others were put on hold. */
module AtTasks {
  import opened AtResponses
  import opened AtQueue
  import opened AtQueueRuns

  /** The same commands, whether written yet or not. */
  ghost predicate SameOrders(a: seq<Cmd>, b: seq<Cmd>) {
    |a| == |b| && forall i :: 0 <= i < |a| ==> a[i].(length := 0) == b[i].(length := 0)
  }

  /** The events of one task are about the same commands. */
  ghost predicate Consistent(q: Queue) {
    && (forall e :: e in q.log ==> e.index < |e.cmds|)
    && (forall a, b :: a in q.log && b in q.log && a.no == b.no ==> SameOrders(a.cmds, b.cmds))
    && (q.tasks != [] ==> HeadOrders(q.log, q.tasks[0]))
  }

  ghost predicate HeadOrders(log: seq<Event>, t: Task) {
    forall e :: e in log && e.no == t.no ==> SameOrders(e.cmds, t.cmds)
  }

  lemma EventKeeps(q: Queue, e: Event)
    requires Consistent(q) && q.tasks != [] && e.index < |e.cmds|
    requires e.no == q.tasks[0].no && e.cmds == q.tasks[0].cmds
    ensures forall a, b :: a in q.log + [e] && b in q.log + [e] && a.no == b.no ==> SameOrders(a.cmds, b.cmds)
    ensures HeadOrders(q.log + [e], q.tasks[0])
  {
  }

  lemma AdvancedConsistent(q: Queue, outcome: Outcome)
    requires Sound(q) && Consistent(q)
    ensures Consistent(Advanced(q, outcome))
  {
    hide Ordered, Blocks, InTurn, Numbered, PlainInOrder, OnlyHeadBegun, Passed, SameOrders;
    if q.tasks != [] {
      var t := q.tasks[0];
      var e := Handled(t.no, t.cindex, t.cmds, outcome);
      EventKeeps(q, e);
      HeadReplaced(q, t, e);
      if |q.tasks| > 1 {
        var l := [t] + q.tasks[1..];
        assert l[1] == q.tasks[1];
        assert forall x :: x in q.log + [e] ==> x.no != l[1].no;
      }
    }
  }

  lemma RunConsistent(q: Queue, ok: bool)
    requires Sound(q) && Consistent(q)
    ensures Consistent(Run(q, ok))
  {
    hide Ordered, Blocks, InTurn, Numbered, PlainInOrder, OnlyHeadBegun, Passed, Advanced, SameOrders;
    if Due(q) {
      if ok {
        var t := q.tasks[0];
        var e := Wrote(t.no, t.cindex, t.cmds);
        EventKeeps(q, e);
        WrittenOrders(q.log + [e], t);
      } else {
        AdvancedConsistent(q, NotWritten);
      }
    }
  }

  lemma WrittenOrders(log: seq<Event>, t: Task)
    requires t.cindex < |t.cmds| && HeadOrders(log, t)
    ensures HeadOrders(log, Written(t))
  {
  }

  lemma AddedConsistent(q: Queue, owner: nat, cmds: seq<Cmd>, prio: bool)
    requires Sound(q) && Consistent(q)
    ensures Consistent(Added(q, owner, cmds, prio))
  {
    hide Ordered, Blocks, InTurn, Numbered, PlainInOrder, OnlyHeadBegun, Passed, SameOrders, Linked;
    if cmds != [] {
      LinkedAt(q.tasks, Task(q.next, owner, cmds, 0), prio, 0);
    }
  }

  lemma RelinkedConsistent(q: Queue, owner: nat)
    requires Consistent(q)
    ensures Consistent(q.(tasks := Relinked(q.tasks, owner)))
  {
    hide SameOrders;
    if q.tasks != [] {
      assert Relinked(q.tasks, owner)[0].no == q.tasks[0].no && Relinked(q.tasks, owner)[0].cmds == q.tasks[0].cmds;
    }
  }

  lemma FlushedConsistent(q: Queue)
    requires Consistent(q)
    ensures Consistent(Flushed(q))
  {
    hide SameOrders;
  }

  lemma StepConsistent(q: Queue, s: Step)
    requires Sound(q) && Consistent(q) && Proper(s)
    ensures Consistent(Apply(q, s))
  {
    hide Added, Run, Advanced, Relinked, AllUnsent, Ordered, Blocks, InTurn, UpToDate, OnlyHeadBegun, Numbered,
      PlainInOrder, Consistent;
    match s
    case Insert(owner, cmds, prio, memory, ok) =>
      if memory {
        AddedKeeps(q, owner, cmds, prio);
        AddedConsistent(q, owner, cmds, prio);
        RunConsistent(Added(q, owner, cmds, prio), ok);
      } else {
        RunConsistent(q, ok);
      }
    case Answer(res, ok) =>
      AdvancedKeeps(q, Got(res));
      AdvancedConsistent(q, Got(res));
      RunConsistent(Replied(q, res), ok);
    case Fatal(res) =>
      AdvancedConsistent(q, Got(res));
      FlushedConsistent(Replied(q, res));
    case Leave(owner) => RelinkedConsistent(q, owner);
    case Disconnect => FlushedConsistent(q);
  }

  lemma {:induction false} RunsAreConsistent(steps: seq<Step>)
    requires AllProper(steps)
    ensures Consistent(After(steps))
  {
    hide Apply, Sound, Consistent;
    if steps == [] {
      EmptyConsistent();
    } else {
      var before, s := steps[..|steps| - 1], steps[|steps| - 1];
      RunsAreConsistent(before);
      StepConsistent(After(before), s);
    }
  }

  lemma EmptyConsistent()
    ensures Consistent(EMPTY)
  {
  }

  /** In every run, whatever else is enqueued, answered or fails in between: when a command is written, every earlier
      command of its task that must be answered was answered, as expected, before that. */
  lemma AnsweredFirst(steps: seq<Step>, j: int, index: int) returns (i: int)
    requires AllProper(steps) && 0 <= j < |After(steps).log| && After(steps).log[j].Wrote?
    requires 0 <= index < After(steps).log[j].index && index < |After(steps).log[j].cmds|
    requires !After(steps).log[j].cmds[index].ignore
    ensures 0 <= i < j && After(steps).log[i].Handled?
    ensures After(steps).log[i].no == After(steps).log[j].no && After(steps).log[i].index == index
    ensures After(steps).log[i].outcome == Got(After(steps).log[j].cmds[index].res)
  {
    hide After, Accounted, OnlyHeadBegun, Numbered, PlainInOrder, UpToDate, Ordered, Blocks;
    RunsAreConsistent(steps);
    var log := After(steps).log;
    assert log[j] in log && Passed(log, j, log[j].no, index);
    i :| 0 <= i < j && i < |log| && log[i].Handled? && log[i].no == log[j].no && log[i].index == index
      && Continues(log[i]);
    assert log[i] in log && SameOrders(log[i].cmds, log[j].cmds);
  }

  /** The other way round: when the wait for such a command ended otherwise, by an error or because it could not be
      written, nothing behind it is ever written, before or after. */
  lemma RefusedMeansNever(steps: seq<Step>, i: int, j: int)
    requires AllProper(steps) && 0 <= i < |After(steps).log| && 0 <= j < |After(steps).log|
    requires After(steps).log[i].Handled? && After(steps).log[j].Wrote?
    requires After(steps).log[j].no == After(steps).log[i].no && After(steps).log[i].index < After(steps).log[j].index
    requires After(steps).log[i].index < |After(steps).log[i].cmds|
    requires !After(steps).log[i].cmds[After(steps).log[i].index].ignore
    ensures i < j && After(steps).log[i].outcome == Got(After(steps).log[i].cmds[After(steps).log[i].index].res)
  {
    hide After, Accounted, OnlyHeadBegun, Numbered, PlainInOrder, UpToDate, Blocks;
    var log := After(steps).log;
    assert Sound(After(steps));
    assert Passed(log, j, log[j].no, log[i].index);
    var k :| 0 <= k < j && k < |log| && log[k].Handled? && log[k].no == log[j].no && log[k].index == log[i].index
      && Continues(log[k]);
    assert Rank(log[k]) == Rank(log[i]);
    assert k == i;
  }

  /* ------------------------------------------------------------------ two tasks */

  /** The task at_enque_sms builds: the command that announces a message, and its text. */
  function SmsTask(announce: nat, text: nat): (cmds: seq<Cmd>)
    ensures announce > 0 && text > 0 ==> AllUnsent(cmds, 0)
  {
    [Cmd(CMD_AT_CMGS, RES_SMS_PROMPT, false, announce), Cmd(CMD_AT_SMSTEXT, RES_OK, false, text)]
  }

  /** The text of a message is written only after its announcement was answered with the prompt, while it was the
      head command. */
  lemma TextAfterPrompt(steps: seq<Step>, j: int, announce: nat, text: nat) returns (i: int)
    requires AllProper(steps) && 0 <= j < |After(steps).log| && After(steps).log[j].Wrote?
    requires SameOrders(After(steps).log[j].cmds, SmsTask(announce, text)) && After(steps).log[j].index == 1
    ensures 0 <= i < j && After(steps).log[i].Handled?
    ensures After(steps).log[i].no == After(steps).log[j].no && After(steps).log[i].index == 0
    ensures After(steps).log[i].outcome == Got(RES_SMS_PROMPT)
  {
    hide After;
    assert After(steps).log[j].cmds[0].(length := 0) == SmsTask(announce, text)[0].(length := 0);
    i := AnsweredFirst(steps, j, 0);
  }

  /** The task at_enque_dial builds: put the active call on hold when asked to, hide the number or not, dial, list the
      calls, set the voice path up. The lengths of the texts do not matter here. */
  function DialTask(hold: bool, clir: bool): (cmds: seq<Cmd>)
    ensures AllUnsent(cmds, 0)
  {
    (if hold then [Cmd(CMD_AT_CHLD_2, RES_OK, false, 1)] else [])
    + (if clir then [Cmd(CMD_AT_CLIR, RES_OK, true, 1)] else [])
    + [Cmd(CMD_AT_D, RES_OK, true, 1), Cmd(CMD_AT_CLCC, RES_OK, false, 1), Cmd(CMD_AT_DDSETEX, RES_OK, false, 1)]
  }

  /** A call that puts another on hold is dialled only after the modem has accepted that. */
  lemma DialAfterHold(steps: seq<Step>, j: int, clir: bool) returns (i: int)
    requires AllProper(steps) && 0 <= j < |After(steps).log| && After(steps).log[j].Wrote?
    requires SameOrders(After(steps).log[j].cmds, DialTask(true, clir))
    requires After(steps).log[j].index < |After(steps).log[j].cmds|
    requires After(steps).log[j].cmds[After(steps).log[j].index].cmd == CMD_AT_D
    ensures 0 <= i < j && After(steps).log[i].Handled?
    ensures After(steps).log[i].no == After(steps).log[j].no && After(steps).log[i].index == 0
    ensures After(steps).log[i].outcome == Got(RES_OK)
  {
    hide After;
    var e := After(steps).log[j];
    assert e.cmds[0].(length := 0) == DialTask(true, clir)[0].(length := 0);
    assert e.index > 0;
    i := AnsweredFirst(steps, j, 0);
  }
}
