/** cpvt.c and the parts of channel.c and chan_datacard.c that keep the calls of a device: their states, counters,
    mixer attachments and the references to them. */
module Calls {
  import opened AtQueue
  import opened Lists

  datatype State = ACTIVE | ONHOLD | DIALING | ALERTING | INCOMING | WAITING | RELEASED | INIT

  const STATES := 8

  function StateNo(s: State): (n: nat)
    ensures n < STATES
  {
    match s
    case ACTIVE => 0 case ONHOLD => 1 case DIALING => 2 case ALERTING => 3
    case INCOMING => 4 case WAITING => 5 case RELEASED => 6 case INIT => 7
  }

  /** struct cpvt: no is what the pointer to it is, idx the number the modem gives the call; channel says whether it
      has one, and the rest are its flags. */
  datatype Call = Call(no: nat, idx: int, state: State, incoming: bool, channel: bool, activated: bool, master: bool,
                       needHangup: bool)

  /** The part of struct pvt that concerns calls: the list, the counters, of which the one by state is eight bits
      wide, the call that was dialled last (0 for none), the queued tasks, the streams in the mixer by the number of
      their call, the number of streams, and whether the audio port is open. */
  datatype Registry = Registry(calls: seq<Call>, chanCount: seq<int>, chansno: int, lastDialed: nat, tasks: seq<Task>,
                               mixed: seq<nat>, attached: int, audio: bool, next: nat)

  /* ------------------------------------------------------------------ the steps on values */

  function Counted(count: seq<int>, s: State, change: int): seq<int>
    requires |count| == STATES
  {
    count[StateNo(s) := (count[StateNo(s)] + change) % 256]
  }

  /** disactivate_call. */
  function Disactivated(r: Registry, i: nat): Registry
    requires i < |r.calls|
  {
    var c := r.calls[i];
    if c.channel && c.activated then
      r.(calls := r.calls[i := c.(activated := false, master := false)], mixed := Without(r.mixed, c.no),
         attached := r.attached - 1)
    else r
  }

  /** Every call but the one at i gives up the audio port. */
  function Demoted(calls: seq<Call>, i: nat): (r: seq<Call>)
    ensures |r| == |calls|
  {
    seq(|calls|, j requires 0 <= j < |calls| => if j == i then calls[j] else calls[j].(master := false))
  }

  /** activate_call. */
  function Activated(r: Registry, i: nat): Registry
    requires i < |r.calls|
  {
    var c := r.calls[i];
    if c.master then r
    else
      var calls := Demoted(r.calls, i);
      var r1 := if c.activated then r.(calls := calls)
                else r.(calls := calls, mixed := r.mixed + [c.no], attached := r.attached + 1);
      if r.audio then r1.(calls := calls[i := c.(activated := true, master := true)]) else r1
  }

  /** cpvt_alloc. The first call starts the mixer afresh, all but its count of streams. */
  function Allocated(r: Registry, idx: int, incoming: bool, state: State): Registry
    requires |r.chanCount| == STATES
  {
    r.(calls := r.calls + [Call(r.next, idx, state, incoming, false, false, false, false)],
       mixed := if r.chansno == 0 then [] else r.mixed,
       chansno := r.chansno + 1, chanCount := Counted(r.chanCount, state, 1), next := r.next + 1)
  }

  /** cpvt_free. */
  function Freed(r: Registry, i: nat): Registry
    requires i < |r.calls| && |r.chanCount| == STATES
  {
    var c := r.calls[i];
    r.(calls := r.calls[..i] + r.calls[i + 1..], chanCount := Counted(r.chanCount, c.state, -1),
       chansno := r.chansno - 1, tasks := Relinked(r.tasks, c.no),
       lastDialed := if r.lastDialed == c.no then 0 else r.lastDialed)
  }

  /** The new state entered in the call and in the counters. */
  function Restated(r: Registry, i: nat, state: State): Registry
    requires i < |r.calls| && |r.chanCount| == STATES
  {
    r.(calls := r.calls[i := r.calls[i].(state := state)],
       chanCount := Counted(Counted(r.chanCount, r.calls[i].state, -1), state, 1))
  }

  /** change_channel_state. */
  function Changed(r: Registry, i: nat, state: State): Registry
    requires i < |r.calls| && |r.chanCount| == STATES
  {
    if r.calls[i].state == state then r
    else
      var r1 := Restated(r, i, state);
      if !r.calls[i].channel then if state == RELEASED then Freed(r1, i) else r1
      else
        match state
        case DIALING => Activated(r1, i)
        case ALERTING => Activated(r1, i)
        case ACTIVE => Activated(r1, i)
        case ONHOLD => Disactivated(r1, i)
        case RELEASED => Freed(Disactivated(r1, i), i)
        case _ => r1
  }

  /** new_channel, given whether Asterisk has a channel for the call. */
  function Opened(r: Registry, idx: int, incoming: bool, state: State, channel: bool): Registry
    requires |r.chanCount| == STATES
  {
    var r1 := Allocated(r, idx, incoming, state);
    var i := |r.calls|;
    if channel then r1.(calls := r1.calls[i := r1.calls[i].(channel := true)]) else Freed(r1, i)
  }

  /** channel_hangup, given whether the hangup command could be enqueued, which takes the call off lastDialed when it
      is still being set up. */
  function HungUp(r: Registry, i: nat, enqueued: bool): Registry
    requires i < |r.calls|
  {
    if !r.calls[i].channel then r
    else
      var c := r.calls[i];
      var r1 := if c.needHangup && c.state == INIT then r.(lastDialed := 0) else r;
      var r2 := if c.needHangup && enqueued then r1.(calls := r.calls[i := c.(needHangup := false)]) else r1;
      var r3 := Disactivated(r2, i);
      r3.(calls := r3.calls[i := r3.calls[i].(channel := false)])
  }

  /* ------------------------------------------------------------------ the device */

  class Device {
    var calls: seq<Call>
    var chanCount: seq<int>
    var chansno: int
    var lastDialed: nat
    var tasks: seq<Task>
    var mixed: seq<nat>
    var attached: int
    var audio: bool
    var next: nat

    ghost function Value(): Registry
      reads this
    {
      Registry(calls, chanCount, chansno, lastDialed, tasks, mixed, attached, audio, next)
    }

    /** mixb_attach and mixb_detach, as far as the list goes. */
    method MixAttach(no: nat)
      modifies `mixed, `attached
      ensures mixed == old(mixed) + [no] && attached == old(attached) + 1
    {
      mixed := mixed + [no];
      attached := attached + 1;
    }

    method MixDetach(no: nat)
      modifies `mixed, `attached
      ensures mixed == Without(old(mixed), no) && attached == old(attached) - 1
    {
      var i := 0;
      while i < |mixed| && mixed[i] != no
        invariant 0 <= i <= |mixed| && mixed == old(mixed) && attached == old(attached)
        invariant forall j :: 0 <= j < i ==> mixed[j] != no
      {
        i := i + 1;
      }
      WithoutAt(mixed, no, i);
      if i < |mixed| {
        mixed := mixed[..i] + mixed[i + 1..];
      }
      attached := attached - 1;
    }

    method DisactivateCall(i: nat)
      requires i < |calls|
      modifies `calls, `mixed, `attached
      ensures Value() == Disactivated(old(Value()), i)
    {
      if calls[i].channel && calls[i].activated {
        MixDetach(calls[i].no);
        calls := calls[i := calls[i].(activated := false, master := false)];
      }
    }

    /** The loop of activate_call. */
    method Demote(i: nat)
      requires i < |calls|
      modifies `calls
      ensures calls == Demoted(old(calls), i)
    {
      ghost var was := calls;
      var j := 0;
      while j < |calls|
        invariant 0 <= j <= |calls| == |was|
        invariant forall k :: 0 <= k < j ==> calls[k] == Demoted(was, i)[k]
        invariant forall k :: j <= k < |calls| ==> calls[k] == was[k]
      {
        if j != i {
          calls := calls[j := calls[j].(master := false)];
        }
        j := j + 1;
      }
      assert calls == Demoted(was, i);
    }

    method ActivateCall(i: nat)
      requires i < |calls|
      modifies `calls, `mixed, `attached
      ensures Value() == Activated(old(Value()), i)
    {
      if calls[i].master {
        return;
      }
      Demote(i);
      if !calls[i].activated {
        MixAttach(calls[i].no);
      }
      if audio {
        calls := calls[i := calls[i].(activated := true, master := true)];
      }
    }

    /** cpvt_alloc, given whether there is memory and a pipe. */
    method Alloc(idx: int, incoming: bool, state: State, resources: bool) returns (done: bool)
      requires |chanCount| == STATES
      modifies this
      ensures done == resources
      ensures Value() == if done then Allocated(old(Value()), idx, incoming, state) else old(Value())
    {
      done := resources;
      if resources {
        calls := calls + [Call(next, idx, state, incoming, false, false, false, false)];
        if chansno == 0 {
          mixed := [];
        }
        chansno := chansno + 1;
        chanCount := chanCount[StateNo(state) := (chanCount[StateNo(state)] + 1) % 256];
        next := next + 1;
      }
    }

    /** cpvt_free. */
    method Free(i: nat)
      requires i < |calls| && |chanCount| == STATES
      requires forall j, k :: 0 <= j < k < |calls| ==> calls[j].no != calls[k].no
      modifies this
      ensures Value() == Freed(old(Value()), i)
    {
      var cpvt := calls[i];
      var found := 0;
      while calls[found].no != cpvt.no
        invariant 0 <= found <= i
        decreases i - found
      {
        found := found + 1;
      }
      calls := calls[..found] + calls[found + 1..];
      chanCount := chanCount[StateNo(cpvt.state) := (chanCount[StateNo(cpvt.state)] - 1) % 256];
      chansno := chansno - 1;
      tasks := RelinkTasks(tasks, cpvt.no);
      if lastDialed == cpvt.no {
        lastDialed := 0;
      }
    }

    /** pvt_find_cpvt: the first call with this number. */
    method Find(idx: int) returns (i: int)
      ensures -1 <= i < |calls|
      ensures i >= 0 ==> calls[i].idx == idx && forall j :: 0 <= j < i ==> calls[j].idx != idx
      ensures i < 0 ==> forall j :: 0 <= j < |calls| ==> calls[j].idx != idx
    {
      i := 0;
      while i < |calls|
        invariant 0 <= i <= |calls| && forall j :: 0 <= j < i ==> calls[j].idx != idx
      {
        if calls[i].idx == idx {
          return;
        }
        i := i + 1;
      }
      i := -1;
    }

    method EnterState(i: nat, state: State)
      requires i < |calls| && |chanCount| == STATES
      modifies `calls, `chanCount
      ensures Value() == Restated(old(Value()), i, state)
      ensures forall j :: 0 <= j < |calls| ==> calls[j].no == old(calls)[j].no
    {
      var oldState := calls[i].state;
      calls := calls[i := calls[i].(state := state)];
      chanCount := chanCount[StateNo(oldState) := (chanCount[StateNo(oldState)] - 1) % 256];
      chanCount := chanCount[StateNo(state) := (chanCount[StateNo(state)] + 1) % 256];
    }

    /** change_channel_state. */
    method ChangeState(i: nat, state: State)
      requires i < |calls| && |chanCount| == STATES
      requires forall j, k :: 0 <= j < k < |calls| ==> calls[j].no != calls[k].no
      modifies this
      ensures Value() == Changed(old(Value()), i, state)
    {
      hide Activated, Disactivated, Freed;
      if state != calls[i].state {
        EnterState(i, state);
        if !calls[i].channel {
          if state == RELEASED {
            Free(i);
          }
        } else {
          match state {
            case DIALING | ALERTING | ACTIVE =>
              ActivateCall(i);
            case ONHOLD =>
              DisactivateCall(i);
            case RELEASED =>
              ghost var r := Value();
              DisactivateCall(i);
              NumbersKept(r, i);
              Free(i);
            case _ =>
          }
        }
      }
    }

    /** new_channel. */
    method NewChannel(idx: int, incoming: bool, state: State, resources: bool, channel: bool) returns (done: bool)
      requires |chanCount| == STATES
      requires forall j, k :: 0 <= j < k < |calls| ==> calls[j].no != calls[k].no
      requires forall j :: 0 <= j < |calls| ==> calls[j].no < next
      modifies this
      ensures done == (resources && channel)
      ensures Value() == if resources then Opened(old(Value()), idx, incoming, state, channel) else old(Value())
    {
      hide Freed;
      done := Alloc(idx, incoming, state, resources);
      if done {
        var i := |calls| - 1;
        if channel {
          calls := calls[i := calls[i].(channel := true)];
        } else {
          Free(i);
          done := false;
        }
      }
    }

    /** channel_hangup, as far as the call goes. */
    method Hangup(i: nat, enqueued: bool)
      requires i < |calls|
      modifies this
      ensures Value() == HungUp(old(Value()), i, enqueued)
    {
      hide Disactivated;
      if calls[i].channel {
        if calls[i].needHangup {
          if calls[i].state == INIT {
            lastDialed := 0;
          }
          if enqueued {
            calls := calls[i := calls[i].(needHangup := false)];
          }
        }
        ghost var r := Value();
        DisactivateCall(i);
        NumbersKept(r, i);
        calls := calls[i := calls[i].(channel := false)];
      }
    }
  }

  lemma NumbersKept(r: Registry, i: nat)
    requires i < |r.calls|
    ensures |Disactivated(r, i).calls| == |r.calls|
    ensures forall j :: 0 <= j < |r.calls| ==> Disactivated(r, i).calls[j].no == r.calls[j].no
    ensures Disactivated(r, i).chanCount == r.chanCount
  {
  }
}
