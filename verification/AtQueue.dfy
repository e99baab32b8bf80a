/** at_queue.c: tasks of AT commands, of which the first command of the first task is on its way to the modem. */
module AtQueue {
  import opened AtResponses

  /** The command codes that matter here; the others are told apart by a number. */
  datatype Command = CMD_AT_CMGS | CMD_AT_SMSTEXT | CMD_AT_CHLD_2 | CMD_AT_CLIR | CMD_AT_D | CMD_AT_CLCC
    | CMD_AT_DDSETEX | CMD_AT_CMGR | CMD_USER | CMD_OTHER(no: nat)

  /** struct at_queue_cmd: length is that of the text still to be written, 0 once it has been. */
  datatype Cmd = Cmd(cmd: Command, res: Reply, ignore: bool, length: nat)

  /** struct at_queue_task; owner is the call it belongs to, 0 for the device's own channel. The number no is what
      the pointer to it is: its identity. */
  datatype Task = Task(no: nat, owner: nat, cmds: seq<Cmd>, cindex: nat)

  /** What ended the wait for a command: a reply, or that it could not be written, which at_queue_run expresses by
      the code after the expected one. */
  datatype Outcome = Got(res: Reply) | NotWritten

  /** What happened on the way to command index of task no, whose commands are cmds: it was written, or its wait
      ended. */
  datatype Event = Wrote(no: nat, index: nat, cmds: seq<Cmd>)
    | Handled(no: nat, index: nat, cmds: seq<Cmd>, outcome: Outcome)

  /** The queue and its counters; and, to state what happens over time, the number of the next task, the tasks that
      were added without priority, and the events so far. */
  datatype Queue = Queue(tasks: seq<Task>, atTasks: int, atCmds: int, next: nat, plain: set<nat>, log: seq<Event>)

  /* ------------------------------------------------------------------ the steps on values */

  predicate Finishes(cmd: Cmd, outcome: Outcome) {
    outcome != Got(cmd.res) && !cmd.ignore
  }

  function Linked(tasks: seq<Task>, t: Task, prio: bool): seq<Task> {
    if prio && tasks != [] then [tasks[0], t] + tasks[1..] else tasks + [t]
  }

  function Added(q: Queue, owner: nat, cmds: seq<Cmd>, prio: bool): Queue {
    if cmds == [] then q
    else q.(tasks := Linked(q.tasks, Task(q.next, owner, cmds, 0), prio), atTasks := q.atTasks + 1,
            atCmds := q.atCmds + |cmds|, next := q.next + 1, plain := if prio then q.plain else q.plain + {q.next})
  }

  function Removed(q: Queue): Queue {
    if q.tasks == [] then q
    else q.(tasks := q.tasks[1..], atTasks := q.atTasks - 1,
            atCmds := q.atCmds - (|q.tasks[0].cmds| - q.tasks[0].cindex))
  }

  /** The head command's wait ends: the next command, or, after the last or an unexpected outcome, the next task. */
  function Advanced(q: Queue, outcome: Outcome): Queue
    requires q.tasks != [] ==> q.tasks[0].cindex < |q.tasks[0].cmds|
  {
    if q.tasks == [] then q
    else
      var t := q.tasks[0];
      var q1 := q.(tasks := [t.(cindex := t.cindex + 1)] + q.tasks[1..], atCmds := q.atCmds - 1,
                   log := q.log + [Handled(t.no, t.cindex, t.cmds, outcome)]);
      if t.cindex + 1 >= |t.cmds| || Finishes(t.cmds[t.cindex], outcome) then Removed(q1) else q1
  }

  /** The head command is due to be written. */
  predicate Due(q: Queue)
    requires q.tasks != [] ==> q.tasks[0].cindex < |q.tasks[0].cmds|
  {
    q.tasks != [] && q.tasks[0].cmds[q.tasks[0].cindex].length > 0
  }

  function Written(t: Task): Task
    requires t.cindex < |t.cmds|
  {
    t.(cmds := t.cmds[t.cindex := t.cmds[t.cindex].(length := 0)])
  }

  /** at_queue_run, given whether a write would succeed. */
  function Run(q: Queue, ok: bool): Queue
    requires q.tasks != [] ==> q.tasks[0].cindex < |q.tasks[0].cmds|
  {
    if !Due(q) then q
    else if ok then
      var t := q.tasks[0];
      q.(tasks := [Written(t)] + q.tasks[1..], log := q.log + [Wrote(t.no, t.cindex, t.cmds)])
    else Advanced(q, NotWritten)
  }

  /** Whether a reply is one the head command waits for, one that ends it, or neither; the queue moves on for the
      first two. */
  predicate Concerns(cmd: Cmd, res: Reply) {
    match res
    case RES_OK => cmd.res in {RES_OK, RES_CMGR}
    case RES_ERROR => cmd.res in {RES_OK, RES_CMGR, RES_SMS_PROMPT}
    case RES_CMS_ERROR => cmd.res in {RES_OK, RES_CMGR, RES_SMS_PROMPT}
    case RES_SMS_PROMPT => cmd.res == RES_SMS_PROMPT
    case RES_CMGR => cmd.res == RES_CMGR || cmd.cmd == CMD_USER
    case _ => false
  }

  function Replied(q: Queue, res: Reply): Queue
    requires q.tasks != [] ==> q.tasks[0].cindex < |q.tasks[0].cmds|
  {
    if q.tasks != [] && Concerns(q.tasks[0].cmds[q.tasks[0].cindex], res) then Advanced(q, Got(res)) else q
  }

  /** The loop of cpvt_free: tasks of a call that goes away pass to the device. */
  function Relinked(tasks: seq<Task>, owner: nat): (r: seq<Task>)
    ensures |r| == |tasks|
  {
    seq(|tasks|, i requires 0 <= i < |tasks| => if tasks[i].owner == owner then tasks[i].(owner := 0) else tasks[i])
  }

  /** The commands of queued tasks whose wait has not ended. */
  function Outstanding(tasks: seq<Task>): int {
    if tasks == [] then 0 else |tasks[0].cmds| - tasks[0].cindex + Outstanding(tasks[1..])
  }

  function Flushed(q: Queue): Queue {
    q.(tasks := [], atTasks := q.atTasks - |q.tasks|, atCmds := q.atCmds - Outstanding(q.tasks))
  }

  /* ------------------------------------------------------------------ the queue itself */

  class AtQueue {
    var tasks: seq<Task>
    var atTasks: int
    var atCmds: int
    var next: nat
    ghost var plain: set<nat>
    ghost var log: seq<Event>

    ghost function Value(): Queue
      reads this
    {
      Queue(tasks, atTasks, atCmds, next, plain, log)
    }

    ghost predicate Valid()
      reads this
    {
      forall i :: 0 <= i < |tasks| ==> tasks[i].cindex < |tasks[i].cmds|
    }

    constructor ()
      ensures Valid() && Value() == Queue([], 0, 0, 0, {}, [])
    {
      tasks, atTasks, atCmds, next, plain, log := [], 0, 0, 0, {}, [];
    }

    /** at_queue_add, given whether there is memory for the task. */
    method Add(owner: nat, cmds: seq<Cmd>, prio: bool, memory: bool) returns (done: bool)
      requires Valid()
      modifies this
      ensures Valid() && done == (cmds != [] && memory)
      ensures Value() == if done then Added(old(Value()), owner, cmds, prio) else old(Value())
    {
      done := false;
      if |cmds| > 0 {
        if memory {
          var e := Task(next, owner, cmds, 0);
          if prio && tasks != [] {
            tasks := [tasks[0], e] + tasks[1..];
          } else {
            tasks := tasks + [e];
          }
          atTasks := atTasks + 1;
          atCmds := atCmds + |cmds|;
          plain := if prio then plain else plain + {next};
          next := next + 1;
          done := true;
        }
      }
    }

    /** at_queue_remove. */
    method Remove()
      requires tasks != [] ==> tasks[0].cindex <= |tasks[0].cmds|
      requires forall i :: 1 <= i < |tasks| ==> tasks[i].cindex < |tasks[i].cmds|
      modifies this
      ensures Valid() && Value() == Removed(old(Value()))
    {
      if tasks != [] {
        var task := tasks[0];
        tasks := tasks[1..];
        atTasks := atTasks - 1;
        atCmds := atCmds - (|task.cmds| - task.cindex);
      }
    }

    /** at_queue_remove_cmd. */
    method RemoveCmd(outcome: Outcome)
      requires Valid()
      modifies this
      ensures Valid() && Value() == Advanced(old(Value()), outcome)
    {
      if tasks != [] {
        var task := tasks[0];
        var index := task.cindex;
        tasks := [task.(cindex := index + 1)] + tasks[1..];
        atCmds := atCmds - 1;
        log := log + [Handled(task.no, index, task.cmds, outcome)];
        if index + 1 >= |task.cmds| || (outcome != Got(task.cmds[index].res) && !task.cmds[index].ignore) {
          Remove();
        }
      }
    }

    /** at_queue_run; the port takes the text or it does not. */
    method RunHead(ok: bool) returns (fail: bool)
      requires Valid()
      modifies this
      ensures Valid() && Value() == Run(old(Value()), ok) && fail == (Due(old(Value())) && !ok)
    {
      fail := false;
      if tasks != [] {
        var task := tasks[0];
        var cmd := task.cmds[task.cindex];
        if cmd.length > 0 {
          fail := !ok;
          if fail {
            RemoveCmd(NotWritten);
          } else {
            log := log + [Wrote(task.no, task.cindex, task.cmds)];
            tasks := [task.(cmds := task.cmds[task.cindex := cmd.(length := 0)])] + tasks[1..];
          }
        }
      }
    }

    /** at_queue_insert_const: runs the queue only when the task was added. */
    method InsertConst(owner: nat, cmds: seq<Cmd>, prio: bool, memory: bool, ok: bool) returns (fail: bool)
      requires Valid()
      modifies this
      ensures Valid()
      ensures Value() == if cmds == [] || !memory then old(Value())
                         else Run(Added(old(Value()), owner, cmds, prio), ok)
      ensures fail == (cmds == [] || !memory || (Due(Added(old(Value()), owner, cmds, prio)) && !ok))
    {
      var done := Add(owner, cmds, prio, memory);
      fail := true;
      if done {
        fail := RunHead(ok);
      }
    }

    /** at_queue_insert_task and at_queue_insert: run it in any case. */
    method Insert(owner: nat, cmds: seq<Cmd>, prio: bool, memory: bool, ok: bool) returns (fail: bool)
      requires Valid()
      modifies this
      ensures Valid()
      ensures var q := if memory then Added(old(Value()), owner, cmds, prio) else old(Value());
        Value() == Run(q, ok) && fail == (cmds == [] || !memory || (Due(q) && !ok))
    {
      var done := Add(owner, cmds, prio, memory);
      fail := RunHead(ok);
      fail := fail || !done;
    }

    /** What at_response does to the queue for any reply: at_response_ok, at_response_error, at_response_cmgr,
        at_response_sms_prompt; no other handler touches it except to enqueue more. */
    method Response(res: Reply)
      requires Valid()
      modifies this
      ensures Valid() && Value() == Replied(old(Value()), res)
    {
      if tasks != [] {
        var ecmd := tasks[0].cmds[tasks[0].cindex];
        match res {
          case RES_OK =>
            if ecmd.res == RES_OK || ecmd.res == RES_CMGR {
              RemoveCmd(Got(res));
            }
          case RES_ERROR | RES_CMS_ERROR =>
            if ecmd.res == RES_OK || ecmd.res == RES_CMGR || ecmd.res == RES_SMS_PROMPT {
              RemoveCmd(Got(res));
            }
          case RES_SMS_PROMPT =>
            if ecmd.res == RES_SMS_PROMPT {
              RemoveCmd(Got(RES_SMS_PROMPT));
            }
          case RES_CMGR =>
            if ecmd.res == RES_CMGR || ecmd.cmd == CMD_USER {
              RemoveCmd(Got(RES_CMGR));
            }
          case _ =>
        }
      }
    }

    /** at_queue_flush. */
    method Flush()
      requires Valid()
      modifies this
      ensures Valid() && Value() == Flushed(old(Value()))
    {
      while tasks != []
        invariant Valid() && next == old(next) && plain == old(plain) && log == old(log)
        invariant atTasks - |tasks| == old(atTasks - |tasks|)
        invariant atCmds - Outstanding(tasks) == old(atCmds - Outstanding(tasks))
        decreases |tasks|
      {
        Remove();
      }
    }

    /** The relinking of cpvt_free. */
    method Relink(owner: nat)
      requires Valid()
      modifies `tasks
      ensures Valid() && tasks == Relinked(old(tasks), owner)
    {
      tasks := RelinkTasks(tasks, owner);
    }
  }

  /** The relinking loop of cpvt_free. */
  method RelinkTasks(tasks: seq<Task>, owner: nat) returns (after: seq<Task>)
    ensures after == Relinked(tasks, owner)
  {
    after := tasks;
    var i := 0;
    while i < |after|
      invariant 0 <= i <= |after| == |tasks|
      invariant forall j :: 0 <= j < i ==> after[j] == Relinked(tasks, owner)[j]
      invariant forall j :: i <= j < |after| ==> after[j] == tasks[j]
    {
      if after[i].owner == owner {
        after := after[i := after[i].(owner := 0)];
      }
      i := i + 1;
    }
    assert after == Relinked(tasks, owner);
  }
}
