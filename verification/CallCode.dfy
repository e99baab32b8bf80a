/** The code of cpvt.c, channel.c and at_response.c takes the steps that the runs of a device are made of. */
module CallCode {
  import opened AtQueue
  import opened Calls
  import opened CallRuns
  import opened CallSteps

  lemma CoreDistinct(r: Registry)
    requires Core(r)
    ensures forall j, k :: 0 <= j < k < |r.calls| ==> r.calls[j].no != r.calls[k].no
    ensures forall j :: 0 <= j < |r.calls| ==> r.calls[j].no < r.next
  {
  }

  lemma NoneMixed(r: Registry)
    requires Core(r) && r.calls == []
    ensures r.mixed == [] && r.attached == 0
  {
  }

  /** start_pbx. */
  method StartPbx(d: Device, idx: int, state: State, resources: bool, channel: bool, pbx: bool)
    requires Sound(d.Value()) && d.audio && state in {INCOMING, WAITING}
    modifies d
    ensures d.Value() == Started(old(d.Value()), Ring(idx, state, resources, channel, pbx))
  {
    hide Core, Freed, Opened;
    ghost var r := d.Value();
    CoreCounts(r);
    CoreDistinct(r);
    var done := d.NewChannel(idx, true, state, resources, channel);
    if done {
      var i := |d.calls| - 1;
      OpenedKeeps(r, idx, true, state, true);
      MarkedKeeps(d.Value(), i, true);
      d.calls := d.calls[i := d.calls[i].(needHangup := true)];
      if !pbx {
        CoreCounts(d.Value());
        CoreDistinct(d.Value());
        d.Free(i);
      }
    }
  }

  /** The call the pointer refers to. */
  method FindCall(calls: seq<Call>, no: nat) returns (i: nat)
    ensures i == Place(calls, no)
  {
    i := 0;
    assert calls[0..] == calls;
    while i < |calls| && calls[i].no != no
      invariant 0 <= i <= |calls| && Place(calls, no) == i + Place(calls[i..], no)
    {
      assert calls[i..][1..] == calls[i + 1..];
      i := i + 1;
    }
  }

  /** at_response_orig. */
  method ResponseOrig(d: Device, idx: int, voice: bool)
    requires Sound(d.Value())
    modifies d
    ensures d.Value() == Orig(old(d.Value()), idx, voice)
  {
    hide Core, Changed, Place;
    ghost var r := d.Value();
    CoreCounts(r);
    var cpvt := d.lastDialed;
    d.lastDialed := 0;
    if cpvt != 0 {
      var i := FindCall(d.calls, cpvt);
      if i < |d.calls| && voice && 0 <= idx <= 31 {
        CoreDistinct(r);
        d.calls := d.calls[i := d.calls[i].(idx := idx)];
        d.ChangeState(i, DIALING);
      }
    }
  }

  /** The releasing loop of disconnect_datacard and what it clears. */
  method DisconnectDevice(d: Device)
    requires Sound(d.Value())
    modifies d
    ensures d.Value() == Disconnected(old(d.Value())) && Sound(d.Value())
    ensures d.calls == [] && d.mixed == [] && d.attached == 0 && d.tasks == [] && d.lastDialed == 0
  {
    hide Core, Changed;
    ghost var all := AllReleased(d.Value());
    while d.calls != []
      invariant Sound(d.Value()) && AllReleased(d.Value()) == all
      decreases |d.calls|
    {
      ghost var r := d.Value();
      FrontMarked(r);
      d.calls := d.calls[0 := d.calls[0].(needHangup := false)];
      ghost var r1 := d.Value();
      assert r1 == r.(calls := r.calls[0 := r.calls[0].(needHangup := false)]);
      ChangedKeeps(r1, 0, RELEASED);
      CoreCounts(r1);
      CoreDistinct(r1);
      d.ChangeState(0, RELEASED);
    }
    NoneMixed(d.Value());
    CoreReferences(d.Value());
    ConnectKeeps(d.Value(), false);
    TasksKeep(d.Value().(audio := false), [], 0);
    d.tasks := [];
    d.lastDialed := 0;
    d.audio := false;
  }

  /** Each step is what the code does in one locked section. */
  method Perform(d: Device, s: Step)
    requires Sound(d.Value()) && Enabled(d.Value(), s)
    modifies d
    ensures d.Value() == Apply(old(d.Value()), s) && Sound(d.Value())
  {
    hide Core, Opened, Started, Changed, HungUp, Orig, Disconnected, Linked;
    ghost var r := d.Value();
    StepKeeps(r, s);
    CoreCounts(r);
    CoreDistinct(r);
    match s {
      case Request(idx, resources, channel) =>
        var done := d.NewChannel(idx, false, INIT, resources, channel);
      case Ring(idx, state, resources, channel, pbx) =>
        StartPbx(d, idx, state, resources, channel, pbx);
      case Change(i, state) =>
        d.ChangeState(i, state);
      case LocalHangup(i, enqueued) =>
        d.Hangup(i, enqueued);
      case MarkHangup(i, need) =>
        d.calls := d.calls[i := d.calls[i].(needHangup := need)];
      case Enqueue(owner, cmds, prio) =>
        d.tasks := Linked(d.tasks, Task(0, owner, cmds, 0), prio);
      case TaskDone =>
        d.tasks := d.tasks[1..];
      case DialAccepted =>
        if d.tasks[0].owner != 0 {
          d.lastDialed := d.tasks[0].owner;
        }
      case Originated(idx, voice) =>
        ResponseOrig(d, idx, voice);
      case Connect =>
        d.audio := true;
      case Disconnect =>
        DisconnectDevice(d);
    }
  }
}
