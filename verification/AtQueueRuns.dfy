/** What holds of the queue over every run: its counters, its order, and what is written when. */
module AtQueueRuns {
  import opened AtResponses
  import opened AtQueue

  /** One locked section that touches the queue: commands are enqueued and the queue is run, a reply is handled and
      the queue is run, or the reply is fatal and the device disconnected instead, a call goes away, the device is
      disconnected. A write that falls due succeeds or not. */
  datatype Step = Insert(owner: nat, cmds: seq<Cmd>, prio: bool, memory: bool, ok: bool)
    | Answer(res: Reply, ok: bool) | Fatal(res: Reply) | Leave(owner: nat) | Disconnect

  function Apply(q: Queue, s: Step): Queue
    requires InRange(q.tasks)
  {
    match s
    case Insert(owner, cmds, prio, memory, ok) => Run(if memory then Added(q, owner, cmds, prio) else q, ok)
    case Answer(res, ok) =>
      RepliedInRange(q, res);
      Run(Replied(q, res), ok)
    case Fatal(res) => Flushed(Replied(q, res))
    case Leave(owner) => q.(tasks := Relinked(q.tasks, owner))
    case Disconnect => Flushed(q)
  }

  /** No task has run out of commands. */
  ghost predicate InRange(tasks: seq<Task>) {
    forall i :: 0 <= i < |tasks| ==> tasks[i].cindex < |tasks[i].cmds|
  }

  lemma RepliedInRange(q: Queue, res: Reply)
    requires InRange(q.tasks)
    ensures InRange(Replied(q, res).tasks)
  {
  }

  /** Every command that is enqueued has a text. */
  predicate Proper(s: Step) {
    s.Insert? ==> AllUnsent(s.cmds, 0)
  }

  predicate AllUnsent(cmds: seq<Cmd>, from: nat) {
    forall j :: from <= j < |cmds| ==> cmds[j].length > 0
  }

  /* ------------------------------------------------------------------ what every state satisfies */

  /** The counters count. */
  ghost predicate Accounted(q: Queue) {
    InRange(q.tasks) && q.atTasks == |q.tasks| && q.atCmds == Outstanding(q.tasks)
  }

  /** Only the head task has begun, and only its current command can be on its way. */
  ghost predicate OnlyHeadBegun(tasks: seq<Task>) {
    && (tasks != [] ==> AllUnsent(tasks[0].cmds, tasks[0].cindex + 1))
    && forall i :: 1 <= i < |tasks| ==> tasks[i].cindex == 0 && AllUnsent(tasks[i].cmds, 0)
  }

  /** Numbers name tasks, in the order they were added. */
  ghost predicate Numbered(tasks: seq<Task>, next: nat) {
    && (forall i :: 0 <= i < |tasks| ==> tasks[i].no < next)
    && (forall i, j :: 0 <= i < j < |tasks| ==> tasks[i].no != tasks[j].no)
  }

  /** Tasks without priority stay in the order they were added. */
  ghost predicate PlainInOrder(tasks: seq<Task>, next: nat, plain: set<nat>) {
    && (forall i, j :: 0 <= i < j < |tasks| && tasks[i].no in plain && tasks[j].no in plain ==>
          tasks[i].no < tasks[j].no)
    && (forall n :: n in plain ==> n < next)
  }

  /** The order of the events of one task: each command is written, if it is, before its wait ends, and the next one
      only after that. */
  function Rank(e: Event): nat {
    if e.Wrote? then 2 * e.index else 2 * e.index + 1
  }

  ghost predicate Ordered(log: seq<Event>) {
    forall i, j :: 0 <= i < j < |log| && log[i].no == log[j].no ==> Rank(log[i]) < Rank(log[j])
  }

  predicate AllWrites(a: Event, b: Event, c: Event) { a.Wrote? && b.Wrote? && c.Wrote? }

  /** The writes of a task have no write of another task between them. */
  ghost predicate Blocks(log: seq<Event>) {
    forall i, j, k :: 0 <= i < j < k < |log| && AllWrites(log[i], log[j], log[k]) && log[i].no == log[k].no ==>
      log[j].no == log[i].no
  }

  /** The wait for this command ended with the expected reply, or its outcome does not matter. */
  predicate Continues(e: Event)
    requires e.Handled?
  {
    e.index < |e.cmds| && (e.cmds[e.index].ignore || e.outcome == Got(e.cmds[e.index].res))
  }

  /** Command index of task no has been waited for, among the first n events, and the task went on. */
  ghost predicate Passed(log: seq<Event>, n: int, no: nat, index: nat) {
    exists i :: 0 <= i < n && i < |log| && log[i].Handled? && log[i].no == no && log[i].index == index
      && Continues(log[i])
  }

  /** A command is written only after all the commands before it have been passed. */
  ghost predicate InTurn(log: seq<Event>) {
    forall j, index :: 0 <= j < |log| && log[j].Wrote? && 0 <= index < log[j].index ==>
      Passed(log, j, log[j].no, index)
  }

  /** How far the events of a task can have come. */
  function Reach(t: Task): nat
    requires t.cindex < |t.cmds|
  {
    if t.cmds[t.cindex].length == 0 then 2 * t.cindex + 1 else 2 * t.cindex
  }

  /** The log and the queue agree: queued tasks behind the head have no events, those of the head have come as far as
      its current command, and no other task has been written since the head was first. */
  ghost predicate UpToDate(q: Queue)
    requires InRange(q.tasks)
  {
    && (forall e :: e in q.log ==> e.no < q.next)
    && (forall e, i :: e in q.log && 1 <= i < |q.tasks| ==> e.no != q.tasks[i].no)
    && (q.tasks != [] ==> HeadUpToDate(q.log, q.tasks[0]))
  }

  ghost predicate HeadUpToDate(log: seq<Event>, t: Task)
    requires t.cindex < |t.cmds|
  {
    && (forall e :: e in log && e.no == t.no ==> Rank(e) < Reach(t))
    && (forall i, j :: 0 <= i < j < |log| && log[i].Wrote? && log[j].Wrote? && log[i].no == t.no ==> log[j].no == t.no)
    && (forall index :: 0 <= index < t.cindex ==> Passed(log, |log|, t.no, index))
  }

  ghost predicate Sound(q: Queue) {
    && Accounted(q) && OnlyHeadBegun(q.tasks)
    && Numbered(q.tasks, q.next) && PlainInOrder(q.tasks, q.next, q.plain)
    && Ordered(q.log) && Blocks(q.log) && InTurn(q.log) && UpToDate(q)
  }

  const EMPTY := Queue([], 0, 0, 0, {}, [])

  lemma EmptyIsSound()
    ensures Sound(EMPTY)
  {
  }

  /* ------------------------------------------------------------------ each step keeps it */

  lemma PassedEarlier(log: seq<Event>, e: Event, n: int, no: nat, index: nat)
    requires n <= |log| && Passed(log, n, no, index)
    ensures Passed(log + [e], n, no, index) && Passed(log + [e], |log| + 1, no, index)
  {
    var i :| 0 <= i < n && i < |log| && log[i].Handled? && log[i].no == no && log[i].index == index
             && Continues(log[i]);
    assert (log + [e])[i] == log[i];
  }

  /** An event of the head task at the end of the log. */
  lemma LogGrows(log: seq<Event>, t: Task, e: Event)
    requires t.cindex < |t.cmds| && e.no == t.no && e.index == t.cindex && Rank(e) >= Reach(t)
    requires Ordered(log) && Blocks(log) && InTurn(log) && HeadUpToDate(log, t)
    ensures Ordered(log + [e]) && Blocks(log + [e]) && InTurn(log + [e])
  {
    hide Passed, Reach;
    var all := log + [e];
    forall i, j | 0 <= i < j < |all| && all[i].no == all[j].no ensures Rank(all[i]) < Rank(all[j]) {
      if j == |log| { assert log[i] in log; }
    }
    forall j, index | 0 <= j < |all| && all[j].Wrote? && 0 <= index < all[j].index
      ensures Passed(all, j, all[j].no, index)
    {
      PassedEarlier(log, e, j, all[j].no, index);
    }
  }

  lemma HeadWritten(log: seq<Event>, t: Task, e: Event)
    requires t.cindex < |t.cmds| && t.cmds[t.cindex].length > 0 && e == Wrote(t.no, t.cindex, t.cmds)
    requires HeadUpToDate(log, t)
    ensures HeadUpToDate(log + [e], Written(t))
  {
    hide Passed;
    var all := log + [e];
    forall index | 0 <= index < t.cindex ensures Passed(all, |all|, t.no, index) {
      PassedEarlier(log, e, |log|, t.no, index);
    }
  }

  lemma HeadAdvanced(log: seq<Event>, t: Task, e: Event, outcome: Outcome)
    requires t.cindex + 1 < |t.cmds| && e == Handled(t.no, t.cindex, t.cmds, outcome) && Continues(e)
    requires HeadUpToDate(log, t)
    ensures HeadUpToDate(log + [e], t.(cindex := t.cindex + 1))
  {
    var all := log + [e];
    forall index | 0 <= index <= t.cindex ensures Passed(all, |all|, t.no, index) {
      if index < t.cindex {
        PassedEarlier(log, e, |log|, t.no, index);
      } else {
        assert all[|log|] == e;
      }
    }
  }

  /** A task that has not begun is up to date at the head. */
  lemma FreshHead(log: seq<Event>, t: Task)
    requires |t.cmds| > 0 && t.cindex == 0 && forall e :: e in log ==> e.no != t.no
    ensures HeadUpToDate(log, t)
  {
    forall i | 0 <= i < |log| ensures log[i].no != t.no { assert log[i] in log; }
  }

  lemma {:induction false} OutstandingLinked(tasks: seq<Task>, t: Task, prio: bool)
    ensures Outstanding(Linked(tasks, t, prio)) == Outstanding(tasks) + |t.cmds| - t.cindex
  {
    if prio && tasks != [] {
      var l := Linked(tasks, t, prio);
      assert l[1..] == [t] + tasks[1..];
      assert l[1..][1..] == tasks[1..];
    } else {
      OutstandingAppend(tasks, t);
    }
  }

  lemma {:induction false} OutstandingAppend(tasks: seq<Task>, t: Task)
    ensures Outstanding(tasks + [t]) == Outstanding(tasks) + |t.cmds| - t.cindex
  {
    if tasks == [] {
      assert (tasks + [t])[1..] == [];
    } else {
      OutstandingAppend(tasks[1..], t);
      assert (tasks + [t])[1..] == tasks[1..] + [t];
    }
  }

  /** Where the new task is put, and what stands where. */
  lemma LinkedAt(tasks: seq<Task>, t: Task, prio: bool, i: nat)
    requires i <= |tasks|
    ensures |Linked(tasks, t, prio)| == |tasks| + 1
    ensures var p := if prio && tasks != [] then 1 else |tasks|;
      Linked(tasks, t, prio)[i] == if i < p then tasks[i] else if i == p then t else tasks[i - 1]
  {
  }

  lemma LinkedShape(tasks: seq<Task>, t: Task, prio: bool)
    requires OnlyHeadBegun(tasks) && InRange(tasks) && t.cindex == 0 && t.cmds != [] && AllUnsent(t.cmds, 0)
    ensures OnlyHeadBegun(Linked(tasks, t, prio)) && InRange(Linked(tasks, t, prio))
    ensures Linked(tasks, t, prio)[0] == if tasks == [] then t else tasks[0]
  {
    hide AllUnsent;
    var l := Linked(tasks, t, prio);
    LinkedAt(tasks, t, prio, 0);
    assert AllUnsent(t.cmds, 1) by { LaterUnsent(t.cmds); }
    forall i | 0 <= i < |l| ensures l[i].cindex < |l[i].cmds| { LinkedAt(tasks, t, prio, i); }
    forall i | 1 <= i < |l| ensures l[i].cindex == 0 && AllUnsent(l[i].cmds, 0) { LinkedAt(tasks, t, prio, i); }
  }

  lemma LaterUnsent(cmds: seq<Cmd>)
    requires AllUnsent(cmds, 0)
    ensures AllUnsent(cmds, 1)
  {
  }

  lemma LinkedNumbered(tasks: seq<Task>, next: nat, t: Task, prio: bool)
    requires Numbered(tasks, next) && t.no == next
    ensures Numbered(Linked(tasks, t, prio), next + 1)
  {
    hide Linked;
    var l := Linked(tasks, t, prio);
    LinkedAt(tasks, t, prio, 0);
    forall i | 0 <= i < |l| ensures l[i].no <= next { LinkedAt(tasks, t, prio, i); }
    forall i, j | 0 <= i < j < |l| ensures l[i].no != l[j].no {
      LinkedAt(tasks, t, prio, i);
      LinkedAt(tasks, t, prio, j);
    }
  }

  lemma LinkedInOrder(tasks: seq<Task>, next: nat, plain: set<nat>, t: Task, prio: bool)
    requires Numbered(tasks, next) && PlainInOrder(tasks, next, plain) && t.no == next
    ensures PlainInOrder(Linked(tasks, t, prio), next + 1, if prio then plain else plain + {next})
  {
    hide Linked;
    var l, plain1 := Linked(tasks, t, prio), if prio then plain else plain + {next};
    LinkedAt(tasks, t, prio, 0);
    forall i, j | 0 <= i < j < |l| && l[i].no in plain1 && l[j].no in plain1 ensures l[i].no < l[j].no {
      LinkedAt(tasks, t, prio, i);
      LinkedAt(tasks, t, prio, j);
    }
  }

  lemma AddedUpToDate(q: Queue, t: Task, prio: bool)
    requires InRange(q.tasks) && UpToDate(q) && t.no == q.next && t.cindex == 0 && t.cmds != []
    ensures InRange(Linked(q.tasks, t, prio))
    ensures UpToDate(q.(tasks := Linked(q.tasks, t, prio), next := q.next + 1))
  {
    hide Linked, HeadUpToDate;
    var l := Linked(q.tasks, t, prio);
    LinkedAt(q.tasks, t, prio, 0);
    forall i | 0 <= i < |l| ensures l[i].cindex < |l[i].cmds| { LinkedAt(q.tasks, t, prio, i); }
    forall e, i | e in q.log && 1 <= i < |l| ensures e.no != l[i].no { LinkedAt(q.tasks, t, prio, i); }
    if q.tasks == [] {
      FreshHead(q.log, t);
    }
  }

  lemma AddedKeeps(q: Queue, owner: nat, cmds: seq<Cmd>, prio: bool)
    requires Sound(q) && AllUnsent(cmds, 0)
    ensures Sound(Added(q, owner, cmds, prio))
  {
    hide Ordered, Blocks, InTurn, AllUnsent, Outstanding, InRange, OnlyHeadBegun, Numbered, PlainInOrder, Linked;
    if cmds != [] {
      var t := Task(q.next, owner, cmds, 0);
      OutstandingLinked(q.tasks, t, prio);
      LinkedShape(q.tasks, t, prio);
      LinkedNumbered(q.tasks, q.next, t, prio);
      LinkedInOrder(q.tasks, q.next, q.plain, t, prio);
      AddedUpToDate(q, t, prio);
      LinkedAt(q.tasks, t, prio, 0);
      AddedAgrees(q.(tasks := Linked(q.tasks, t, prio), next := q.next + 1), Added(q, owner, cmds, prio));
    }
  }

  lemma AddedAgrees(p: Queue, q: Queue)
    requires InRange(p.tasks) && UpToDate(p) && p.tasks == q.tasks && p.next == q.next && p.log == q.log
    ensures UpToDate(q)
  {
    hide HeadUpToDate;
  }

  /** The head leaves; the next task has not begun. */
  lemma RemovedKeeps(q: Queue)
    requires q.tasks != [] && OnlyHeadBegun(q.tasks)
    requires Numbered(q.tasks, q.next) && PlainInOrder(q.tasks, q.next, q.plain)
    requires forall i :: 1 <= i < |q.tasks| ==> q.tasks[i].cindex < |q.tasks[i].cmds|
    requires q.atTasks == |q.tasks| && q.atCmds == Outstanding(q.tasks)
    requires Ordered(q.log) && Blocks(q.log) && InTurn(q.log)
    requires forall e :: e in q.log ==> e.no < q.next
    requires forall e, i :: e in q.log && 1 <= i < |q.tasks| ==> e.no != q.tasks[i].no
    ensures Sound(Removed(q))
  {
    hide Ordered, Blocks, InTurn, HeadUpToDate;
    var r := Removed(q);
    if |q.tasks| > 1 {
      FreshHead(q.log, q.tasks[1]);
      assert r.tasks[0] == q.tasks[1];
    }
  }

  lemma AdvancedKeeps(q: Queue, outcome: Outcome)
    requires Sound(q)
    ensures Sound(Advanced(q, outcome))
  {
    hide Ordered, Blocks, InTurn, HeadUpToDate, Passed, Numbered, PlainInOrder;
    if q.tasks != [] {
      var t := q.tasks[0];
      var order := t.cmds[t.cindex];
      var e := Handled(t.no, t.cindex, t.cmds, outcome);
      LogGrows(q.log, t, e);
      var t1 := t.(cindex := t.cindex + 1);
      var q1 := q.(tasks := [t1] + q.tasks[1..], atCmds := q.atCmds - 1, log := q.log + [e]);
      HeadReplaced(q, t1, e);
      if t.cindex + 1 >= |t.cmds| || Finishes(order, outcome) {
        RemovedKeeps(q1);
      } else {
        HeadAdvanced(q.log, t, e, outcome);
        assert AllUnsent(t1.cmds, t1.cindex + 1);
      }
    }
  }

  /** Another head of the same number, and its event. */
  lemma HeadReplaced(q: Queue, t: Task, e: Event)
    requires Sound(q) && q.tasks != [] && t.no == q.tasks[0].no && e.no == t.no
    ensures var l := [t] + q.tasks[1..];
      && Numbered(l, q.next) && PlainInOrder(l, q.next, q.plain)
      && (forall i :: 1 <= i < |l| ==> l[i] == q.tasks[i])
      && (forall x, i :: x in q.log + [e] && 1 <= i < |l| ==> x.no != l[i].no)
      && (forall x :: x in q.log + [e] ==> x.no < q.next)
      && l[1..] == q.tasks[1..]
  {
    hide Ordered, Blocks, InTurn, HeadUpToDate, Accounted, OnlyHeadBegun;
    var l := [t] + q.tasks[1..];
    assert forall i :: 0 <= i < |l| ==> l[i].no == q.tasks[i].no;
  }

  lemma WrittenKeeps(q: Queue)
    requires Sound(q) && Due(q)
    ensures Sound(Run(q, true))
  {
    hide Ordered, Blocks, InTurn, HeadUpToDate, Passed, Numbered, PlainInOrder;
    var t := q.tasks[0];
    var e := Wrote(t.no, t.cindex, t.cmds);
    LogGrows(q.log, t, e);
    HeadReplaced(q, Written(t), e);
    HeadWritten(q.log, t, e);
    StillUnsent(t);
  }

  lemma StillUnsent(t: Task)
    requires t.cindex < |t.cmds| && AllUnsent(t.cmds, t.cindex + 1)
    ensures AllUnsent(Written(t).cmds, t.cindex + 1)
  {
  }

  lemma RunKeeps(q: Queue, ok: bool)
    requires Sound(q)
    ensures Sound(Run(q, ok))
  {
    hide Advanced, OnlyHeadBegun, Numbered, PlainInOrder, Ordered, Blocks, InTurn, UpToDate;
    if Due(q) {
      if ok { WrittenKeeps(q); } else { AdvancedKeeps(q, NotWritten); }
    }
  }

  lemma RelinkedKeeps(q: Queue, owner: nat)
    requires Sound(q)
    ensures Sound(q.(tasks := Relinked(q.tasks, owner)))
  {
    hide Ordered, Blocks, InTurn, Passed;
    OutstandingRelinked(q.tasks, owner);
    var l := Relinked(q.tasks, owner);
    assert forall i :: 0 <= i < |l| ==> l[i].(owner := 0) == q.tasks[i].(owner := 0);
    assert forall i :: 0 <= i < |l| ==>
        l[i].no == q.tasks[i].no && l[i].cindex == q.tasks[i].cindex && l[i].cmds == q.tasks[i].cmds;
  }

  lemma {:induction false} OutstandingRelinked(tasks: seq<Task>, owner: nat)
    ensures Outstanding(Relinked(tasks, owner)) == Outstanding(tasks)
  {
    if tasks != [] {
      assert Relinked(tasks, owner)[1..] == Relinked(tasks[1..], owner);
      OutstandingRelinked(tasks[1..], owner);
    }
  }

  lemma FlushedKeeps(q: Queue)
    requires Sound(q)
    ensures Sound(Flushed(q))
  {
    hide Ordered, Blocks, InTurn, HeadUpToDate;
  }

  lemma StepKeeps(q: Queue, s: Step)
    requires Sound(q) && Proper(s)
    ensures Sound(Apply(q, s))
  {
    hide Added, Run, Advanced, Flushed, Relinked, AllUnsent, Ordered, Blocks, InTurn, UpToDate, OnlyHeadBegun, Numbered,
      PlainInOrder;
    match s
    case Insert(owner, cmds, prio, memory, ok) =>
      if memory {
        AddedKeeps(q, owner, cmds, prio);
        RunKeeps(Added(q, owner, cmds, prio), ok);
      } else {
        RunKeeps(q, ok);
      }
    case Answer(res, ok) =>
      AdvancedKeeps(q, Got(res));
      RunKeeps(Replied(q, res), ok);
    case Fatal(res) =>
      AdvancedKeeps(q, Got(res));
      FlushedKeeps(Replied(q, res));
    case Leave(owner) => RelinkedKeeps(q, owner);
    case Disconnect => FlushedKeeps(q);
  }

  /* ------------------------------------------------------------------ every run */

  ghost predicate AllProper(steps: seq<Step>) {
    forall i :: 0 <= i < |steps| ==> Proper(steps[i])
  }

  /** The queue after the steps, from an empty one. */
  ghost function After(steps: seq<Step>): (q: Queue)
    requires AllProper(steps)
    ensures Sound(q)
  {
    if steps == [] then
      EmptyIsSound();
      EMPTY
    else
      var q := After(steps[..|steps| - 1]);
      StepKeeps(q, steps[|steps| - 1]);
      Apply(q, steps[|steps| - 1])
  }

  /** The counters are right, no task but the head has begun, and tasks without priority keep their order. */
  lemma CountersAndOrder(steps: seq<Step>)
    requires AllProper(steps)
    ensures var q := After(steps); q.atTasks == |q.tasks| && q.atCmds == Outstanding(q.tasks) && InRange(q.tasks)
    ensures forall i :: 1 <= i < |After(steps).tasks| ==> NotBegun(After(steps).tasks[i])
    ensures PlainInOrder(After(steps).tasks, After(steps).next, After(steps).plain)
  {
    hide After;
    SoundMeans(After(steps));
  }

  predicate NotBegun(t: Task) {
    t.cindex == 0 && AllUnsent(t.cmds, 0)
  }

  lemma SoundMeans(q: Queue)
    requires Sound(q)
    ensures q.atTasks == |q.tasks| && q.atCmds == Outstanding(q.tasks) && InRange(q.tasks)
    ensures forall i :: 1 <= i < |q.tasks| ==> NotBegun(q.tasks[i])
    ensures PlainInOrder(q.tasks, q.next, q.plain)
  {
    hide Ordered, Blocks, InTurn, UpToDate, Numbered, PlainInOrder;
  }

  /** The writes of one task are one block, in the order of its commands, each once; and a command is written only
      after the wait for every earlier one of its task ended well. */
  lemma WritesFormBlocks(steps: seq<Step>, i: int, j: int, k: int)
    requires AllProper(steps) && 0 <= i < j < k < |After(steps).log|
    requires AllWrites(After(steps).log[i], After(steps).log[j], After(steps).log[k])
    requires After(steps).log[i].no == After(steps).log[k].no
    ensures After(steps).log[j].no == After(steps).log[i].no
    ensures After(steps).log[i].index < After(steps).log[j].index < After(steps).log[k].index
    ensures forall index :: 0 <= index < After(steps).log[k].index ==>
        Passed(After(steps).log, k, After(steps).log[k].no, index)
  {
    hide After, Passed, OnlyHeadBegun, Numbered, PlainInOrder, UpToDate;
    assert Sound(After(steps));
  }

  /** The head command has been written. */
  predicate InFlight(q: Queue)
    requires q.tasks != [] ==> q.tasks[0].cindex < |q.tasks[0].cmds|
  {
    !Due(q)
  }

  predicate WriteSucceeds(s: Step) {
    match s
    case Insert(_, _, _, _, ok) => ok
    case Answer(_, ok) => ok
    case _ => true
  }

  lemma RunWrites(q: Queue)
    requires InRange(q.tasks)
    ensures InRange(Run(q, true).tasks) && InFlight(Run(q, true))
  {
  }

  lemma NothingDue(q: Queue)
    ensures InRange(Flushed(q).tasks) && InFlight(Flushed(q))
  {
  }

  lemma StepKeepsInFlight(q: Queue, s: Step)
    requires Sound(q) && Proper(s) && InFlight(q) && WriteSucceeds(s)
    ensures InRange(Apply(q, s).tasks) && InFlight(Apply(q, s))
  {
    hide Run, Added, Replied, OnlyHeadBegun, Numbered, PlainInOrder, Ordered, Blocks, InTurn, UpToDate;
    match s
    case Insert(owner, cmds, prio, memory, ok) =>
      if memory { AddedKeeps(q, owner, cmds, prio); }
      RunWrites(if memory then Added(q, owner, cmds, prio) else q);
    case Answer(res, ok) =>
      RepliedInRange(q, res);
      RunWrites(Replied(q, res));
    case Fatal(res) =>
      NothingDue(Replied(q, res));
    case Leave(owner) =>
      var l := Relinked(q.tasks, owner);
      assert forall i :: 0 <= i < |l| ==> l[i].cindex == q.tasks[i].cindex && l[i].cmds == q.tasks[i].cmds;
    case Disconnect => NothingDue(q);
  }

  /** While no write fails, a queue that is not empty has its head on the way whenever the lock is free. */
  lemma {:induction false} HeadIsInFlight(steps: seq<Step>)
    requires AllProper(steps) && forall i :: 0 <= i < |steps| ==> WriteSucceeds(steps[i])
    ensures InRange(After(steps).tasks) && InFlight(After(steps))
  {
    hide Apply, Sound, InFlight;
    if steps != [] {
      var before, s := steps[..|steps| - 1], steps[|steps| - 1];
      HeadIsInFlight(before);
      StepKeepsInFlight(After(before), s);
    } else {
      EmptyInFlight();
    }
  }

  lemma EmptyInFlight()
    ensures InFlight(EMPTY)
  {
  }

  /** Each step is what the code does in one locked section. */
  method Perform(queue: AtQueue, s: Step)
    requires queue.Valid()
    modifies queue
    ensures queue.Valid() && queue.Value() == Apply(old(queue.Value()), s)
  {
    hide Run, Added, Replied, Flushed, Relinked;
    var fail := false;
    match s {
      case Insert(owner, cmds, prio, memory, ok) =>
        fail := queue.Insert(owner, cmds, prio, memory, ok);
      case Answer(res, ok) =>
        queue.Response(res);
        fail := queue.RunHead(ok);
      case Fatal(res) =>
        queue.Response(res);
        queue.Flush();
      case Leave(owner) =>
        queue.Relink(owner);
      case Disconnect =>
        queue.Flush();
    }
  }
}
