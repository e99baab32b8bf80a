/** What a reply, a write and a failed write do to the queue, told by the head command alone; and that a task refused
    is gone for good. */
module AtAnswers {
  import opened AtResponses
  import opened AtReplies
  import opened AtQueue
  import opened AtQueueRuns
  import opened AtTasks

  /** The command at the head. */
  function Head(q: Queue): Cmd
    requires InRange(q.tasks) && q.tasks != []
  {
    q.tasks[0].cmds[q.tasks[0].cindex]
  }

  /** The head task goes on to its next command, or, behind its last, the next task follows. */
  function Onward(q: Queue): seq<Task>
    requires InRange(q.tasks) && q.tasks != []
  {
    var t := q.tasks[0];
    if t.cindex + 1 < |t.cmds| then [t.(cindex := t.cindex + 1)] + q.tasks[1..] else q.tasks[1..]
  }

  /** What a reply makes of the tasks. An error ends what expects OK, a stored message or the prompt; OK ends what
      expects it, or a stored message, which then did not come; the others are for those that expect them, and for
      what the user sent. */
  ghost predicate AnsweredRightly(q: Queue, res: Reply, after: seq<Task>)
    requires InRange(q.tasks)
  {
    if q.tasks == [] then after == []
    else
      var cmd, refused := Head(q), if Head(q).ignore then Onward(q) else q.tasks[1..];
      match res
      case RES_OK =>
        if cmd.res == RES_OK then after == Onward(q)
        else if cmd.res == RES_CMGR then after == refused
        else after == q.tasks
      case RES_ERROR =>
        if cmd.res == RES_OK || cmd.res == RES_CMGR || cmd.res == RES_SMS_PROMPT then after == refused
        else after == q.tasks
      case RES_CMS_ERROR =>
        if cmd.res == RES_OK || cmd.res == RES_CMGR || cmd.res == RES_SMS_PROMPT then after == refused
        else after == q.tasks
      case RES_SMS_PROMPT =>
        if cmd.res == RES_SMS_PROMPT then after == Onward(q) else after == q.tasks
      case RES_CMGR =>
        if cmd.res == RES_CMGR then after == Onward(q)
        else if cmd.cmd == CMD_USER then after == refused
        else after == q.tasks
      case _ => after == q.tasks
  }

  /** The event that goes with it, when the head command's wait ended. */
  ghost predicate LoggedRightly(q: Queue, outcome: Outcome, after: Queue)
    requires InRange(q.tasks) && q.tasks != []
  {
    var t := q.tasks[0];
    after.log == if after.tasks == q.tasks then q.log else q.log + [Handled(t.no, t.cindex, t.cmds, outcome)]
  }

  lemma OnwardMoves(q: Queue)
    requires InRange(q.tasks) && q.tasks != []
    ensures Onward(q) != q.tasks && q.tasks[1..] != q.tasks
  {
    assert |q.tasks[1..]| < |q.tasks|;
    if q.tasks[0].cindex + 1 < |q.tasks[0].cmds| { assert Onward(q)[0].cindex != q.tasks[0].cindex; }
  }

  lemma ReplyAnswers(q: Queue, res: Reply)
    requires InRange(q.tasks)
    ensures AnsweredRightly(q, res, Replied(q, res).tasks)
    ensures q.tasks != [] ==> LoggedRightly(q, Got(res), Replied(q, res))
  {
    if q.tasks != [] { OnwardMoves(q); }
  }

  /** at_queue_run on the tasks: nothing when the head command has no text left; else its text is gone, or, when it
      cannot be written, its wait ends at once, and only a command whose outcome does not matter is followed by the
      next of its task. */
  lemma RunWritesOrDrops(q: Queue, ok: bool)
    requires InRange(q.tasks)
    ensures var after := Run(q, ok);
      if q.tasks == [] || Head(q).length == 0 then after == q
      else if ok then
        var t := q.tasks[0];
        && after.tasks == [t.(cmds := t.cmds[t.cindex := Head(q).(length := 0)])] + q.tasks[1..]
        && after.log == q.log + [Wrote(t.no, t.cindex, t.cmds)]
      else
        && after.tasks == (if Head(q).ignore then Onward(q) else q.tasks[1..])
        && LoggedRightly(q, NotWritten, after)
  {
    if q.tasks != [] { OnwardMoves(q); }
  }

  /** A new task goes behind the head when it is urgent, behind all others when not; and nothing is added without
      commands. */
  lemma AddedBehind(q: Queue, owner: nat, cmds: seq<Cmd>, prio: bool)
    ensures var after, t := Added(q, owner, cmds, prio), Task(q.next, owner, cmds, 0);
      after.tasks == if cmds == [] then q.tasks
                     else if prio && |q.tasks| > 0 then q.tasks[..1] + [t] + q.tasks[1..]
                     else q.tasks + [t]
  {
  }

  /** at_queue_flush leaves nothing, and the counters say so. */
  lemma FlushLeavesNothing(q: Queue)
    requires Sound(q)
    ensures Flushed(q).tasks == [] && Flushed(q).atTasks == 0 && Flushed(q).atCmds == 0 && Flushed(q).log == q.log
  {
  }

  /** The reply line by line: a text that begins with OK moves on a queue that waits for it, and so on. */
  lemma TextAnswers(q: Queue, c: seq<char>)
    requires InRange(q.tasks) && q.tasks != []
    ensures "OK\r" <= c && Head(q).res == RES_OK ==> Replied(q, Class(c)).tasks == Onward(q)
    ensures "> " <= c && Head(q).res == RES_SMS_PROMPT ==> Replied(q, Class(c)).tasks == Onward(q)
    ensures "+CMGR:" <= c && Head(q).res == RES_CMGR ==> Replied(q, Class(c)).tasks == Onward(q)
    ensures ("ERROR\r" <= c || "COMMAND NOT SUPPORT\r" <= c || "+CMS ERROR:" <= c)
            && Head(q).res in {RES_OK, RES_CMGR, RES_SMS_PROMPT} ==>
              Replied(q, Class(c)).tasks == if Head(q).ignore then Onward(q) else q.tasks[1..]
  {
    hide Replied, ClassFrom, Onward;
    ReplyAnswers(q, Class(c));
    ClassifiedIff(c, RES_OK);
    ClassifiedIff(c, RES_SMS_PROMPT);
    ClassifiedIff(c, RES_CMGR);
    ClassifiedIff(c, RES_ERROR);
    ClassifiedIff(c, RES_CMS_ERROR);
  }

  /* ------------------------------------------------------------------ gone for good */

  /** A task that was there once and is not any more. */
  ghost predicate Gone(q: Queue, no: nat) {
    no < q.next && forall i :: 0 <= i < |q.tasks| ==> q.tasks[i].no != no
  }

  /** What was added to the log is not about this task. */
  ghost predicate Silent(log: seq<Event>, after: seq<Event>, no: nat) {
    log <= after && forall i :: |log| <= i < |after| ==> after[i].no != no
  }

  lemma SilentOn(a: seq<Event>, b: seq<Event>, c: seq<Event>, no: nat)
    requires Silent(a, b, no) && Silent(b, c, no)
    ensures Silent(a, c, no)
  {
    forall i | |a| <= i < |c| ensures c[i].no != no {
      if i < |b| { assert c[i] == b[i]; }
    }
  }

  lemma AdvancedGone(q: Queue, outcome: Outcome, no: nat)
    requires InRange(q.tasks) && Gone(q, no)
    ensures Gone(Advanced(q, outcome), no) && Silent(q.log, Advanced(q, outcome).log, no)
  {
  }

  lemma RunGone(q: Queue, ok: bool, no: nat)
    requires InRange(q.tasks) && Gone(q, no)
    ensures Gone(Run(q, ok), no) && Silent(q.log, Run(q, ok).log, no)
  {
    hide Advanced;
    AdvancedGone(q, NotWritten, no);
  }

  lemma AddedGone(q: Queue, owner: nat, cmds: seq<Cmd>, prio: bool, no: nat)
    requires Gone(q, no)
    ensures Gone(Added(q, owner, cmds, prio), no) && Added(q, owner, cmds, prio).log == q.log
  {
    hide Linked;
    if cmds != [] {
      var t := Task(q.next, owner, cmds, 0);
      var l := Linked(q.tasks, t, prio);
      LinkedAt(q.tasks, t, prio, 0);
      forall i | 0 <= i < |l| ensures l[i].no != no { LinkedAt(q.tasks, t, prio, i); }
    }
  }

  lemma StepGone(q: Queue, s: Step, no: nat)
    requires Sound(q) && Proper(s) && Gone(q, no)
    ensures Gone(Apply(q, s), no) && Silent(q.log, Apply(q, s).log, no)
  {
    hide Added, Run, Advanced, OnlyHeadBegun, Numbered, PlainInOrder, Ordered, Blocks, InTurn, UpToDate, Gone, Silent,
      Outstanding, Relinked, Flushed, AllUnsent;
    Same(q, no);
    match s
    case Insert(owner, cmds, prio, memory, ok) =>
      if memory {
        AddedKeeps(q, owner, cmds, prio);
        AddedGone(q, owner, cmds, prio, no);
        RunGone(Added(q, owner, cmds, prio), ok, no);
      } else {
        RunGone(q, ok, no);
      }
    case Answer(res, ok) =>
      RepliedInRange(q, res);
      AdvancedGone(q, Got(res), no);
      RunGone(Replied(q, res), ok, no);
      SilentOn(q.log, Replied(q, res).log, Run(Replied(q, res), ok).log, no);
    case Fatal(res) =>
      AdvancedGone(q, Got(res), no);
      FlushedGone(Replied(q, res), no);
    case Leave(owner) => RelinkedGone(q, owner, no);
    case Disconnect => FlushedGone(q, no);
  }

  lemma Same(q: Queue, no: nat)
    ensures Silent(q.log, q.log, no)
  {
  }

  lemma FlushedGone(q: Queue, no: nat)
    requires Gone(q, no)
    ensures Gone(Flushed(q), no) && Flushed(q).log == q.log
  {
  }

  lemma RelinkedGone(q: Queue, owner: nat, no: nat)
    requires Gone(q, no)
    ensures Gone(q.(tasks := Relinked(q.tasks, owner)), no)
  {
  }

  lemma {:induction false} StaysGone(steps: seq<Step>, more: seq<Step>, no: nat)
    requires AllProper(steps) && AllProper(more) && Gone(After(steps), no)
    ensures AllProper(steps + more)
    ensures Gone(After(steps + more), no) && Silent(After(steps).log, After(steps + more).log, no)
    decreases |more|
  {
    hide Apply, Sound, Gone, Silent;
    if more == [] {
      assert steps + more == steps;
      Same(After(steps), no);
    } else {
      var fewer, s := more[..|more| - 1], more[|more| - 1];
      StaysGone(steps, fewer, no);
      assert (steps + more)[..|steps + more| - 1] == steps + fewer;
      StepGone(After(steps + fewer), s, no);
      SilentOn(After(steps).log, After(steps + fewer).log, After(steps + more).log, no);
    }
  }

  /** The head task is dropped, and the next command written. */
  lemma Dropped(q: Queue, res: Reply, ok: bool)
    requires Sound(q) && q.tasks != [] && !Head(q).ignore
    requires res in {RES_ERROR, RES_CMS_ERROR} && Head(q).res in {RES_OK, RES_CMGR, RES_SMS_PROMPT}
    ensures var no, after := q.tasks[0].no, Apply(q, Answer(res, ok));
      && Gone(after, no) && q.log <= after.log
      && forall i :: |q.log| <= i < |after.log| ==> after.log[i].Wrote? ==> after.log[i].no != no
  {
    hide Replied, Run, Onward, Ordered, Blocks, InTurn, UpToDate, PlainInOrder, OnlyHeadBegun, Outstanding;
    var no := q.tasks[0].no;
    ReplyAnswers(q, res);
    RepliedInRange(q, res);
    RepliedNext(q, res);
    var q1 := Replied(q, res);
    assert Gone(q1, no);
    RunGone(q1, ok, no);
    var log := Run(q1, ok).log;
    assert forall i :: |q1.log| <= i < |log| ==> log[i].no != no;
    assert forall i :: |q.log| <= i < |q1.log| ==> log[i] == q1.log[i] && q1.log[i].Handled?;
  }

  lemma RepliedNext(q: Queue, res: Reply)
    requires InRange(q.tasks)
    ensures Replied(q, res).next == q.next
  {
  }

  /** In every run: when an error answers a head command that has to succeed, the task is removed, and none of its
      commands is written from then on, whatever happens. */
  lemma ErrorEndsTask(steps: seq<Step>, res: Reply, ok: bool, more: seq<Step>)
    requires AllProper(steps) && AllProper(more) && After(steps).tasks != [] && !Head(After(steps)).ignore
    requires res in {RES_ERROR, RES_CMS_ERROR} && Head(After(steps)).res in {RES_OK, RES_CMGR, RES_SMS_PROMPT}
    ensures AllProper(steps + [Answer(res, ok)] + more)
    ensures var q, end := After(steps), After(steps + [Answer(res, ok)] + more);
      && (forall i :: 0 <= i < |end.tasks| ==> end.tasks[i].no != q.tasks[0].no)
      && q.log <= end.log
      && (forall i :: |q.log| <= i < |end.log| && end.log[i].no == q.tasks[0].no ==> !end.log[i].Wrote?)
  {
    hide Apply, Sound;
    var q, s := After(steps), Answer(res, ok);
    var all := steps + [s];
    assert all[..|all| - 1] == steps && AllProper(all);
    Dropped(q, res, ok);
    StaysGone(all, more, q.tasks[0].no);
    var mid, end := After(all), After(all + more);
    forall i | |q.log| <= i < |end.log| && end.log[i].no == q.tasks[0].no ensures !end.log[i].Wrote? {
      if i < |mid.log| { assert end.log[i] == mid.log[i]; }
    }
  }

  /** So a message whose announcement is refused is dropped, and its text never written. */
  lemma RefusedMessage(steps: seq<Step>, res: Reply, ok: bool, more: seq<Step>, announce: nat, text: nat)
    requires AllProper(steps) && AllProper(more) && After(steps).tasks != []
    requires After(steps).tasks[0].cindex == 0 && SameOrders(After(steps).tasks[0].cmds, SmsTask(announce, text))
    requires res in {RES_ERROR, RES_CMS_ERROR}
    ensures AllProper(steps + [Answer(res, ok)] + more)
    ensures var no, end := After(steps).tasks[0].no, After(steps + [Answer(res, ok)] + more);
      && (forall i :: 0 <= i < |end.tasks| ==> end.tasks[i].no != no)
      && (forall i :: 0 <= i < |end.log| && end.log[i].no == no && end.log[i].Wrote? ==> end.log[i].index == 0)
  {
    hide After;
    var q := After(steps);
    var t := q.tasks[0];
    assert t.cmds[0].(length := 0) == SmsTask(announce, text)[0].(length := 0);
    ErrorEndsTask(steps, res, ok, more);
    NothingBehindYet(q);
    var end := After(steps + [Answer(res, ok)] + more);
    forall i | 0 <= i < |end.log| && end.log[i].no == t.no && end.log[i].Wrote? ensures end.log[i].index == 0 {
      if i < |q.log| { assert end.log[i] == q.log[i] && q.log[i] in q.log; }
    }
  }

  /** Nothing behind the head command has been written. */
  lemma NothingBehindYet(q: Queue)
    requires Sound(q) && q.tasks != []
    ensures forall e :: e in q.log && e.no == q.tasks[0].no && e.Wrote? ==> e.index <= q.tasks[0].cindex
  {
    hide Ordered, Blocks, InTurn, Accounted, OnlyHeadBegun, Numbered, PlainInOrder;
  }

  /** And one whose announcement is answered with the prompt is at its text next. */
  lemma PromptBringsText(q: Queue, announce: nat, text: nat)
    requires InRange(q.tasks) && q.tasks != [] && q.tasks[0].cindex == 0
    requires SameOrders(q.tasks[0].cmds, SmsTask(announce, text))
    ensures var after := Replied(q, RES_SMS_PROMPT);
      && |after.tasks| == |q.tasks| && InRange(after.tasks) && after.tasks[0].no == q.tasks[0].no
      && Head(after).cmd == CMD_AT_SMSTEXT && after.tasks[1..] == q.tasks[1..]
  {
    var t := q.tasks[0];
    assert t.cmds[0].(length := 0) == SmsTask(announce, text)[0].(length := 0);
    assert t.cmds[1].(length := 0) == SmsTask(announce, text)[1].(length := 0);
    ReplyAnswers(q, RES_SMS_PROMPT);
  }
}
