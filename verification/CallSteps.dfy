/** The runs of a device: requests, incoming calls, changes of state, hangups, replies and disconnects, in any
    order. */
module CallSteps {
  import opened AtQueue
  import opened Calls
  import opened CallRuns

  /** One locked section. A call is given by its place in the list. */
  datatype Step =
    | Request(idx: int, resources: bool, channel: bool)
    | Ring(idx: int, state: State, resources: bool, channel: bool, pbx: bool)
    | Change(i: nat, state: State)
    | LocalHangup(i: nat, enqueued: bool)
    | MarkHangup(i: nat, need: bool)
    | Enqueue(owner: nat, cmds: seq<Cmd>, prio: bool)
    | TaskDone
    | DialAccepted
    | Originated(idx: int, voice: bool)
    | Connect
    | Disconnect

  /** start_pbx: a call that the dialplan refuses is freed while it still has its channel. */
  function Started(r: Registry, s: Step): Registry
    requires s.Ring? && |r.chanCount| == STATES
  {
    if !s.resources then r
    else
      var r1 := Opened(r, s.idx, true, s.state, s.channel);
      var i := |r.calls|;
      if !s.channel then r1
      else
        var r2 := r1.(calls := r1.calls[i := r1.calls[i].(needHangup := true)]);
        if s.pbx then r2 else Freed(r2, i)
  }

  /** The place of the call with this number. */
  function Place(calls: seq<Call>, no: nat): (i: nat)
    ensures i <= |calls| && (i < |calls| <==> Listed(calls, no)) && (i < |calls| ==> calls[i].no == no)
  {
    if calls == [] then 0 else if calls[0].no == no then 0
    else
      PlaceStep(calls, no);
      1 + Place(calls[1..], no)
  }

  lemma PlaceStep(calls: seq<Call>, no: nat)
    requires calls != [] && calls[0].no != no
    ensures Listed(calls, no) == Listed(calls[1..], no)
  {
    if Listed(calls, no) {
      var k :| 0 <= k < |calls| && calls[k].no == no;
      assert calls[1..][k - 1].no == no;
    }
    if Listed(calls[1..], no) {
      var k :| 0 <= k < |calls| - 1 && calls[1..][k].no == no;
      assert calls[k + 1].no == no;
    }
  }

  /** at_response_orig: the call dialled last learns its number and is dialing. */
  function Orig(r: Registry, idx: int, voice: bool): Registry
    requires |r.chanCount| == STATES
  {
    var r1 := r.(lastDialed := 0);
    var i := Place(r.calls, r.lastDialed);
    if r.lastDialed == 0 || i == |r.calls| || !voice || !(0 <= idx <= 31) then r1
    else
      var r2 := r1.(calls := r1.calls[i := r1.calls[i].(idx := idx)]);
      Changed(r2, i, DIALING)
  }

  /** The call at the front of the list is released, and so on until there is none. */
  ghost function AllReleased(r: Registry): (s: Registry)
    requires Sound(r)
    ensures Sound(s) && s.calls == [] && s.audio == r.audio
    decreases |r.calls|
  {
    if r.calls == [] then r
    else
      var r1 := r.(calls := r.calls[0 := r.calls[0].(needHangup := false)]);
      FrontMarked(r);
      ChangedKeeps(r1, 0, RELEASED);
      AudioKept(r1, 0, RELEASED);
      AllReleased(Changed(r1, 0, RELEASED))
  }

  lemma AudioKept(r: Registry, i: nat, state: State)
    requires i < |r.calls| && |r.chanCount| == STATES
    ensures Changed(r, i, state).audio == r.audio
  {
  }

  lemma FrontMarked(r: Registry)
    requires Sound(r) && r.calls != []
    ensures Sound(r.(calls := r.calls[0 := r.calls[0].(needHangup := false)]))
  {
    hide Core;
    var c := r.calls[0];
    assert c.activated ==> c.channel by { ActiveHasChannel(r, 0); }
    FlagsOnly(r, 0, c.(needHangup := false));
  }

  lemma ActiveHasChannel(r: Registry, i: nat)
    requires Core(r) && i < |r.calls|
    ensures r.calls[i].activated ==> r.calls[i].channel
  {
  }

  /** disconnect_datacard. */
  ghost function Disconnected(r: Registry): Registry
    requires Sound(r)
  {
    AllReleased(r).(tasks := [], lastDialed := 0, audio := false)
  }

  /** What the code asks for: calls arise only while the device is connected, never as released; a task is enqueued
      for a call in the list or for the device; the device connects when it has no calls. */
  ghost predicate Enabled(r: Registry, s: Step) {
    match s
    case Request(_, _, _) => r.audio
    case Ring(_, state, _, _, _) => r.audio && state in {INCOMING, WAITING}
    case Change(i, _) => i < |r.calls|
    case LocalHangup(i, _) => i < |r.calls|
    case MarkHangup(i, _) => i < |r.calls|
    case Enqueue(owner, _, _) => owner == 0 || Listed(r.calls, owner)
    case TaskDone => r.tasks != []
    case DialAccepted => r.tasks != []
    case Originated(_, _) => true
    case Connect => r.calls == []
    case Disconnect => true
  }

  ghost function Apply(r: Registry, s: Step): Registry
    requires Sound(r) && Enabled(r, s)
  {
    CoreCounts(r);
    match s
    case Request(idx, resources, channel) => if resources then Opened(r, idx, false, INIT, channel) else r
    case Ring(_, _, _, _, _) => Started(r, s)
    case Change(i, state) => Changed(r, i, state)
    case LocalHangup(i, enqueued) => HungUp(r, i, enqueued)
    case MarkHangup(i, need) => r.(calls := r.calls[i := r.calls[i].(needHangup := need)])
    case Enqueue(owner, cmds, prio) => r.(tasks := Linked(r.tasks, Task(0, owner, cmds, 0), prio))
    case TaskDone => r.(tasks := r.tasks[1..])
    case DialAccepted => if r.tasks[0].owner == 0 then r else r.(lastDialed := r.tasks[0].owner)
    case Originated(idx, voice) => Orig(r, idx, voice)
    case Connect => r.(audio := true)
    case Disconnect => Disconnected(r)
  }

  /* ------------------------------------------------------------------ each step keeps it */

  lemma OpenedKeeps(r: Registry, idx: int, incoming: bool, state: State, channel: bool)
    requires Sound(r) && r.audio && state != RELEASED
    ensures Sound(Opened(r, idx, incoming, state, channel))
    ensures |Opened(r, idx, incoming, state, channel).calls| == |r.calls| + (if channel then 1 else 0)
    ensures channel ==> var c := Opened(r, idx, incoming, state, channel).calls[|r.calls|]; c.channel && !c.activated
  {
    hide Core, Freed;
    CoreCounts(r);
    AllocatedKeeps(r, idx, incoming, state);
    var r1, i := Allocated(r, idx, incoming, state), |r.calls|;
    var c := r1.calls[i];
    if channel {
      FlagsOnly(r1, i, c.(channel := true));
    } else {
      CoreCounts(r1);
      FreedKeeps(r1, i);
      FreedStates(r1, i);
    }
  }

  lemma MarkedKeeps(r: Registry, i: nat, need: bool)
    requires Sound(r) && i < |r.calls|
    ensures Sound(r.(calls := r.calls[i := r.calls[i].(needHangup := need)]))
  {
    hide Core;
    ActiveHasChannel(r, i);
    FlagsOnly(r, i, r.calls[i].(needHangup := need));
  }

  lemma StartedKeeps(r: Registry, s: Step)
    requires Sound(r) && r.audio && s.Ring? && s.state != RELEASED && |r.chanCount| == STATES
    ensures Sound(Started(r, s))
  {
    hide Core, Freed, Opened;
    if s.resources {
      OpenedKeeps(r, s.idx, true, s.state, s.channel);
      var r1, i := Opened(r, s.idx, true, s.state, s.channel), |r.calls|;
      if s.channel {
        MarkedKeeps(r1, i, true);
        var r2 := r1.(calls := r1.calls[i := r1.calls[i].(needHangup := true)]);
        if !s.pbx {
          CoreCounts(r2);
          FreedKeeps(r2, i);
          FreedStates(r2, i);
          FreedAudio(r2, i);
        }
      }
    }
  }

  lemma FreedAudio(r: Registry, i: nat)
    requires i < |r.calls| && |r.chanCount| == STATES
    ensures Freed(r, i).audio == r.audio && Freed(r, i).calls != r.calls
  {
  }

  lemma Undialed(r: Registry)
    requires Sound(r)
    ensures Sound(r.(lastDialed := 0))
  {
    hide Distinct, Counts, Mixing, Flags, Listed;
  }

  lemma HungUpKeeps(r: Registry, i: nat, enqueued: bool)
    requires Sound(r) && i < |r.calls|
    ensures Sound(HungUp(r, i, enqueued))
  {
    hide Core, Disactivated;
    if r.calls[i].channel {
      var c := r.calls[i];
      Undialed(r);
      var r1 := if c.needHangup && c.state == INIT then r.(lastDialed := 0) else r;
      var r2 := if c.needHangup && enqueued then r1.(calls := r.calls[i := c.(needHangup := false)]) else r1;
      MarkedKeeps(r1, i, false);
      DisactivatedKeeps(r2, i);
      StatesKept(r2, i);
      var r3 := Disactivated(r2, i);
      FlagsOnly(r3, i, r3.calls[i].(channel := false));
    }
  }

  lemma OrigKeeps(r: Registry, idx: int, voice: bool)
    requires Sound(r) && |r.chanCount| == STATES
    ensures Sound(Orig(r, idx, voice))
  {
    hide Core, Changed;
    Undialed(r);
    var r1, i := r.(lastDialed := 0), Place(r.calls, r.lastDialed);
    if r.lastDialed != 0 && i < |r.calls| && voice && 0 <= idx <= 31 {
      ActiveHasChannel(r1, i);
      FlagsOnly(r1, i, r1.calls[i].(idx := idx));
      ChangedKeeps(r1.(calls := r1.calls[i := r1.calls[i].(idx := idx)]), i, DIALING);
    }
  }

  lemma TasksKeep(r: Registry, tasks: seq<Task>, lastDialed: nat)
    requires Sound(r) && References(r.calls, lastDialed, tasks)
    ensures Sound(r.(tasks := tasks, lastDialed := lastDialed))
  {
    hide Distinct, Counts, Mixing, Flags, References;
  }

  lemma EnqueuedReferences(r: Registry, t: Task, prio: bool)
    requires References(r.calls, r.lastDialed, r.tasks) && (t.owner == 0 || Listed(r.calls, t.owner))
    ensures References(r.calls, r.lastDialed, Linked(r.tasks, t, prio))
  {
    hide Listed;
  }

  lemma StepKeeps(r: Registry, s: Step)
    requires Sound(r) && Enabled(r, s)
    ensures Sound(Apply(r, s))
  {
    hide Core, Opened, Started, Changed, HungUp, Orig, AllReleased, Linked, Place, Listed;
    CoreCounts(r);
    match s
    case Request(idx, resources, channel) => if resources { OpenedKeeps(r, idx, false, INIT, channel); }
    case Ring(_, _, _, _, _) => StartedKeeps(r, s);
    case Change(i, state) => ChangedKeeps(r, i, state);
    case LocalHangup(i, enqueued) => HungUpKeeps(r, i, enqueued);
    case MarkHangup(i, need) => MarkedKeeps(r, i, need);
    case Enqueue(owner, cmds, prio) =>
      CoreReferences(r);
      EnqueuedReferences(r, Task(0, owner, cmds, 0), prio);
      TasksKeep(r, Linked(r.tasks, Task(0, owner, cmds, 0), prio), r.lastDialed);
    case TaskDone =>
      CoreReferences(r);
      TasksKeep(r, r.tasks[1..], r.lastDialed);
    case DialAccepted =>
      CoreReferences(r);
      TasksKeep(r, r.tasks, if r.tasks[0].owner == 0 then r.lastDialed else r.tasks[0].owner);
    case Originated(idx, voice) => OrigKeeps(r, idx, voice);
    case Connect => ConnectKeeps(r, true);
    case Disconnect =>
      ConnectKeeps(AllReleased(r), false);
      CoreReferences(AllReleased(r));
      TasksKeep(AllReleased(r).(audio := false), [], 0);
  }

  lemma CoreReferences(r: Registry)
    requires Core(r)
    ensures References(r.calls, r.lastDialed, r.tasks)
  {
  }

  lemma ConnectKeeps(r: Registry, open: bool)
    requires Sound(r) && r.calls == []
    ensures Sound(r.(audio := open))
  {
    hide Distinct, Counts, Mixing, Flags, References;
  }

  /* ------------------------------------------------------------------ every run */

  const EMPTY := Registry([], [0, 0, 0, 0, 0, 0, 0, 0], 0, 0, [], [], 0, false, 1)

  lemma EmptyIsSound()
    ensures Sound(EMPTY)
  {
    assert forall s: State :: EMPTY.chanCount[StateNo(s)] == 0;
  }

  /** Each step is one the code can take when its turn comes. */
  ghost predicate Possible(r: Registry, steps: seq<Step>)
    requires Sound(r)
    decreases |steps|
  {
    steps == [] || (Enabled(r, steps[0]) && (StepKeeps(r, steps[0]); Possible(Apply(r, steps[0]), steps[1..])))
  }

  ghost function After(r: Registry, steps: seq<Step>): (s: Registry)
    requires Sound(r) && Possible(r, steps)
    ensures Sound(s)
    decreases |steps|
  {
    if steps == [] then r
    else
      StepKeeps(r, steps[0]);
      After(Apply(r, steps[0]), steps[1..])
  }

  /** Steps a device can take from the start. */
  ghost predicate Run(steps: seq<Step>) {
    EmptyIsSound();
    Possible(EMPTY, steps)
  }

  ghost function Reached(steps: seq<Step>): (r: Registry)
    requires Run(steps)
    ensures Sound(r)
  {
    EmptyIsSound();
    After(EMPTY, steps)
  }

  /** In every state a device reaches, each counter by state is the number of listed calls in that state, kept in
      eight bits, and so is exact below 256; none is released; and nothing refers to a call that is gone. */
  lemma CountersAgree(steps: seq<Step>, s: State)
    requires Run(steps)
    ensures var r := Reached(steps);
      && r.chansno == |r.calls| && |r.chanCount| == STATES
      && r.chanCount[StateNo(s)] == Count(r.calls, In(s)) % 256
      && (|r.calls| < 256 ==> r.chanCount[StateNo(s)] == Count(r.calls, In(s)))
      && r.chanCount[StateNo(RELEASED)] == 0
      && (r.lastDialed == 0 || Listed(r.calls, r.lastDialed))
      && (forall i :: 0 <= i < |r.tasks| ==> r.tasks[i].owner == 0 || Listed(r.calls, r.tasks[i].owner))
  {
    hide Reached, Run, Distinct, Mixing, Flags, Listed, In;
    var r := Reached(steps);
    CountBounded(r.calls, In(s));
    NoneIn(r.calls);
    CountBounded(r.calls, In(RELEASED));
  }

  lemma NoneIn(calls: seq<Call>)
    requires forall i :: 0 <= i < |calls| ==> calls[i].state != RELEASED
    ensures forall i :: 0 <= i < |calls| ==> !In(RELEASED)(calls[i])
  {
  }

  /** In every state a device reaches, the mixer holds exactly the streams of the activated calls, one each, and
      counts them; one call at most has the audio port, and it is activated; and no activated call is without a
      channel. */
  lemma MixerAgrees(steps: seq<Step>, i: nat, j: nat)
    requires Run(steps) && i < |Reached(steps).calls| && j < |Reached(steps).calls|
    ensures var r := Reached(steps);
      && (r.calls[i].activated <==> r.calls[i].no in r.mixed)
      && (forall no: nat :: no in r.mixed ==> Listed(r.calls, no))
      && r.attached == |r.mixed| == Count(r.calls, On())
      && (r.calls[i].master && r.calls[j].master ==> i == j)
      && (r.calls[i].master ==> r.calls[i].activated)
      && (r.calls[i].activated ==> r.calls[i].channel)
  {
    hide Reached, Run, Counts, References;
    var r := Reached(steps);
    ActiveAt(r.calls, r.next, i);
  }

  /** All of this rests on the open audio port: a call with a channel that is activated keeps the mixer right
      exactly when the port is open or its stream is there already. */
  lemma ActivationIsRightIff(r: Registry, i: nat)
    requires Core(r) && i < |r.calls| && r.calls[i].channel
    ensures Core(Activated(r, i)) <==> r.audio || r.calls[i].activated
  {
    hide Core;
    if r.audio {
      ActivatedKeeps(r, i);
    } else if r.calls[i].activated {
      DemotedKeeps(r, i);
    } else {
      StreamWithoutFlag(r, i);
    }
  }

  /** With the port closed the stream goes into the mixer, and the call is not marked. */
  lemma StreamWithoutFlag(r: Registry, i: nat)
    requires Core(r) && i < |r.calls| && !r.audio && !r.calls[i].activated
    ensures !Core(Activated(r, i))
  {
    hide Counts, References, Listed, Active;
    DemotedAt(r.calls, i);
    DemotedKeeps(r, i);
    var r1 := Activated(r, i);
    assert r1.mixed[|r.mixed|] == r1.calls[i].no;
    ActiveAt(r1.calls, r1.next, i);
  }
}
