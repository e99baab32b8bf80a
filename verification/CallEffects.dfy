/** What each event does to the calls and to the mixer's list, said in terms of these alone; and that a call on hold
    has no part in the mixer. */
module CallEffects {
  import opened AtQueue
  import opened Lists
  import opened Calls
  import opened CallRuns
  import opened CallSteps

  /** The streams in the mixer, but for this call's, are the ones that were there. */
  ghost predicate OthersMixed(mixed: seq<nat>, was: seq<nat>, no: nat) {
    forall n: nat :: n != no ==> (n in mixed <==> n in was)
  }

  /** Nothing but the calls, their counters and the mixer is touched. */
  ghost predicate OnlyCalls(r: Registry, after: Registry) {
    && after.tasks == r.tasks && after.lastDialed == r.lastDialed
    && after.audio == r.audio && after.next == r.next
  }

  /** The call at i is gone, its tasks are the device's, and it is not the one dialled last. */
  ghost predicate CallGone(r: Registry, i: nat, after: Registry)
    requires i < |r.calls|
  {
    var no := r.calls[i].no;
    && after.calls == r.calls[..i] + r.calls[i + 1..]
    && |after.tasks| == |r.tasks|
    && (forall k :: 0 <= k < |r.tasks| ==>
          after.tasks[k] == if r.tasks[k].owner == no then r.tasks[k].(owner := 0) else r.tasks[k])
    && after.lastDialed == (if r.lastDialed == no then 0 else r.lastDialed)
    && after.audio == r.audio && after.next == r.next
  }

  /** A call that is to be heard has the audio port, alone, and is in the mixer. */
  ghost predicate TakesOver(r: Registry, i: nat, state: State, after: Registry)
    requires i < |r.calls|
  {
    var c := r.calls[i];
    && |after.calls| == |r.calls|
    && after.calls[i] == c.(state := state, activated := true, master := true)
    && (forall j :: 0 <= j < |r.calls| && j != i ==> after.calls[j] == r.calls[j].(master := false))
    && c.no in after.mixed && OthersMixed(after.mixed, r.mixed, c.no) && OnlyCalls(r, after)
  }

  /** A call on hold leaves the mixer and gives up the port. */
  ghost predicate GoesQuiet(r: Registry, i: nat, state: State, after: Registry)
    requires i < |r.calls|
  {
    var c := r.calls[i];
    && after.calls == r.calls[i := c.(state := state, activated := false, master := false)]
    && c.no !in after.mixed && OthersMixed(after.mixed, r.mixed, c.no) && OnlyCalls(r, after)
  }

  /** What becomes of a call whose state changes, and of the others. */
  ghost predicate ChangedRightly(r: Registry, i: nat, state: State, after: Registry)
    requires i < |r.calls|
  {
    var c := r.calls[i];
    if c.state == state then after == r
    else if !c.channel then
      if state == RELEASED then CallGone(r, i, after) && after.mixed == r.mixed
      else after.calls == r.calls[i := c.(state := state)] && after.mixed == r.mixed && OnlyCalls(r, after)
    else
      match state
      case ACTIVE => TakesOver(r, i, ACTIVE, after)
      case DIALING => TakesOver(r, i, DIALING, after)
      case ALERTING => TakesOver(r, i, ALERTING, after)
      case ONHOLD => GoesQuiet(r, i, ONHOLD, after)
      case RELEASED => CallGone(r, i, after) && c.no !in after.mixed && OthersMixed(after.mixed, r.mixed, c.no)
      case _ => after.calls == r.calls[i := c.(state := state)] && after.mixed == r.mixed && OnlyCalls(r, after)
  }

  lemma ActivatedTakesOver(r: Registry, i: nat, state: State)
    requires Core(r) && i < |r.calls| && r.audio && r.calls[i].channel && |r.chanCount| == STATES
    ensures TakesOver(r, i, state, Activated(Restated(r, i, state), i))
  {
    hide Counts, References, Distinct, Listed, Active;
    var c := r.calls[i];
    FlagsAt(r, i);
    MixedAt(r, i);
    if c.master {
      assert c.activated;
    } else {
      assert forall n: nat :: n != c.no ==> (n in r.mixed + [c.no] <==> n in r.mixed);
    }
  }

  /** What the flags of one call say about the others, and about the mixer. */
  lemma FlagsAt(r: Registry, i: nat)
    requires Core(r) && i < |r.calls|
    ensures r.calls[i].master ==> r.calls[i].activated
    ensures r.calls[i].master ==> forall j :: 0 <= j < |r.calls| && j != i ==> !r.calls[j].master
    ensures r.calls[i].activated ==> r.calls[i].channel
  {
    hide Counts, References, Distinct, Listed, Active, Mixing;
  }

  lemma MixedAt(r: Registry, i: nat)
    requires Core(r) && i < |r.calls|
    ensures r.calls[i].activated <==> r.calls[i].no in r.mixed
    ensures forall j, k :: 0 <= j < k < |r.mixed| ==> r.mixed[j] != r.mixed[k]
  {
    hide Counts, References, Flags, Listed;
    ActiveAt(r.calls, r.next, i);
  }

  lemma DisactivatedGoesQuiet(r: Registry, i: nat, state: State)
    requires Core(r) && i < |r.calls| && r.calls[i].channel && |r.chanCount| == STATES
    ensures GoesQuiet(r, i, state, Disactivated(Restated(r, i, state), i))
  {
    hide Counts, References, Distinct, Listed, Active, Without;
    var c := r.calls[i];
    FlagsAt(r, i);
    MixedAt(r, i);
    if c.activated {
      WithoutIs(r.mixed, c.no);
    }
  }

  lemma FreedGone(r: Registry, i: nat)
    requires i < |r.calls| && |r.chanCount| == STATES
    ensures CallGone(r, i, Freed(r, i)) && Freed(r, i).mixed == r.mixed
  {
  }

  /** A released call goes quiet and is then gone. */
  lemma QuietThenGone(r: Registry, i: nat, mid: Registry)
    requires i < |r.calls| && GoesQuiet(r, i, RELEASED, mid) && |mid.chanCount| == STATES
    ensures CallGone(r, i, Freed(mid, i)) && r.calls[i].no !in Freed(mid, i).mixed
    ensures OthersMixed(Freed(mid, i).mixed, r.mixed, r.calls[i].no)
  {
    FreedGone(mid, i);
    assert mid.calls[..i] == r.calls[..i] && mid.calls[i + 1..] == r.calls[i + 1..];
  }

  lemma ChangeDoes(r: Registry, i: nat, state: State)
    requires Core(r) && i < |r.calls| && r.audio && |r.chanCount| == STATES
    ensures ChangedRightly(r, i, state, Changed(r, i, state))
  {
    hide Core, Activated, Disactivated, Freed, GoesQuiet, TakesOver;
    var c := r.calls[i];
    if c.state != state {
      var r1 := Restated(r, i, state);
      if !c.channel {
        if state == RELEASED {
          FreedGone(r1, i);
          assert r1.calls[..i] == r.calls[..i] && r1.calls[i + 1..] == r.calls[i + 1..];
        }
      } else if state in {ACTIVE, DIALING, ALERTING} {
        ActivatedTakesOver(r, i, state);
      } else if state in {ONHOLD, RELEASED} {
        DisactivatedGoesQuiet(r, i, state);
        NumbersKept(r1, i);
        if state == RELEASED { QuietThenGone(r, i, Disactivated(r1, i)); }
      }
    }
  }

  /* ------------------------------------------------------------------ the other events */

  /** channel_hangup: the call stays, without a channel and out of the mixer; the hangup it needs is asked for. */
  ghost predicate HungUpRightly(r: Registry, i: nat, enqueued: bool, after: Registry)
    requires i < |r.calls|
  {
    var c := r.calls[i];
    if !c.channel then after == r
    else
      && after.calls == r.calls[i := c.(channel := false, activated := false, master := false,
                                        needHangup := c.needHangup && !enqueued)]
      && c.no !in after.mixed && OthersMixed(after.mixed, r.mixed, c.no)
      && after.lastDialed == (if c.needHangup && c.state == INIT then 0 else r.lastDialed)
      && after.tasks == r.tasks && after.chanCount == r.chanCount && after.audio == r.audio
  }

  lemma HangupDoes(r: Registry, i: nat, enqueued: bool)
    requires Core(r) && i < |r.calls|
    ensures HungUpRightly(r, i, enqueued, HungUp(r, i, enqueued))
  {
    hide Counts, References, Distinct, Listed, Active, Without;
    var c := r.calls[i];
    FlagsAt(r, i);
    MixedAt(r, i);
    if c.channel && c.activated { WithoutIs(r.mixed, c.no); }
  }

  /** new_channel: a call with its channel joins the list, or nothing changes but the numbers given away. */
  lemma OpenDoes(r: Registry, idx: int, incoming: bool, state: State, channel: bool)
    requires Core(r)
    ensures var after := Opened(r, idx, incoming, state, channel);
      && after.calls == (if channel then r.calls + [Call(r.next, idx, state, incoming, true, false, false, false)]
                         else r.calls)
      && after.mixed == r.mixed && after.attached == r.attached
      && after.tasks == r.tasks && after.lastDialed == r.lastDialed && after.audio == r.audio
  {
    hide Distinct, Flags, Active;
    NoStreamsWithoutCalls(r);
    if !channel {
      NotReferred(r);
      var f := Freed(Allocated(r, idx, incoming, state), |r.calls|);
      assert f.calls == r.calls;
      assert f.tasks == r.tasks;
    }
  }

  lemma NoStreamsWithoutCalls(r: Registry)
    requires Core(r)
    ensures r.chansno == |r.calls| && (r.calls == [] ==> r.mixed == [])
  {
  }

  /** Nothing refers to a call that is not there yet. */
  lemma NotReferred(r: Registry)
    requires Core(r)
    ensures r.lastDialed != r.next && forall k :: 0 <= k < |r.tasks| ==> r.tasks[k].owner != r.next
  {
    hide Counts, Mixing, Flags;
  }

  /** at_response_orig: the call dialled last takes the number the modem gives and is dialing; nobody is the one
      dialled last any more, and the number and state of no other call change. */
  ghost predicate OrigRightly(r: Registry, idx: int, voice: bool, after: Registry) {
    if r.lastDialed == 0 || !voice || idx < 0 || idx > 31 then after == r.(lastDialed := 0)
    else
      && |after.calls| == |r.calls| && after.lastDialed == 0 && after.tasks == r.tasks
      && exists i :: 0 <= i < |r.calls| && r.calls[i].no == r.lastDialed
          && after.calls[i].no == r.lastDialed && after.calls[i].idx == idx && after.calls[i].state == DIALING
          && (r.calls[i].channel && r.calls[i].state != DIALING ==> after.calls[i].master)
          && forall j :: 0 <= j < |r.calls| && j != i ==>
               after.calls[j].(master := false) == r.calls[j].(master := false)
  }

  lemma OrigDoes(r: Registry, idx: int, voice: bool)
    requires Sound(r) && |r.chanCount| == STATES
    ensures OrigRightly(r, idx, voice, Orig(r, idx, voice))
  {
    hide Core, Changed, OthersMixed;
    CoreReferences(r);
    if r.lastDialed != 0 && voice && 0 <= idx <= 31 {
      var i := CallSteps.Place(r.calls, r.lastDialed);
      var r1 := r.(lastDialed := 0);
      Undialed(r);
      ActiveHasChannel(r1, i);
      FlagsOnly(r1, i, r1.calls[i].(idx := idx));
      var r2 := r1.(calls := r1.calls[i := r1.calls[i].(idx := idx)]);
      ChangeDoes(r2, i, DIALING);
      OneChanged(r, r2, i, DIALING, Changed(r2, i, DIALING));
    }
  }

  lemma OneChanged(r: Registry, r2: Registry, i: nat, state: State, after: Registry)
    requires i < |r.calls| == |r2.calls| && state in {DIALING, ACTIVE, ALERTING}
    requires r2.calls == r.calls[i := r2.calls[i]] && ChangedRightly(r2, i, state, after)
    ensures |after.calls| == |r.calls| && after.calls[i].no == r2.calls[i].no && after.calls[i].idx == r2.calls[i].idx
    ensures after.calls[i].state == state && OnlyCalls(r2, after)
    ensures r2.calls[i].channel && r2.calls[i].state != state ==> after.calls[i].master
    ensures forall j :: 0 <= j < |r.calls| && j != i ==>
              after.calls[j].(master := false) == r.calls[j].(master := false)
  {
    hide OthersMixed;
  }

  /** start_pbx: an incoming call that the dialplan takes is in the list, to be hung up when it ends; one it refuses
      leaves everything as it was. */
  lemma StartDoes(r: Registry, idx: int, state: State, resources: bool, channel: bool, pbx: bool)
    requires Core(r) && |r.chanCount| == STATES
    ensures var after := Started(r, Ring(idx, state, resources, channel, pbx));
      && after.calls == (if resources && channel && pbx
                         then r.calls + [Call(r.next, idx, state, true, true, false, false, true)] else r.calls)
      && after.mixed == r.mixed && after.tasks == r.tasks && after.lastDialed == r.lastDialed
  {
    hide Core, Opened, Freed;
    if resources {
      OpenDoes(r, idx, true, state, channel);
      if channel {
        var r1, i := Opened(r, idx, true, state, true), |r.calls|;
        OpenedHasCounts(r, idx, state);
        var r2 := r1.(calls := r1.calls[i := r1.calls[i].(needHangup := true)]);
        FreedGone(r2, i);
        NotReferred(r);
        assert r2.calls[..i] + r2.calls[i + 1..] == r.calls;
        if !pbx { assert Freed(r2, i).tasks == r.tasks; }
      }
    }
  }

  lemma OpenedHasCounts(r: Registry, idx: int, state: State)
    requires |r.chanCount| == STATES
    ensures |Opened(r, idx, true, state, true).chanCount| == STATES
  {
  }

  /** The call whose dialling is answered is the one dialled last from then on; a task of the device changes nothing. */
  lemma DialAcceptedDoes(r: Registry)
    requires Sound(r) && r.tasks != []
    ensures Apply(r, DialAccepted)
         == r.(lastDialed := if r.tasks[0].owner != 0 then r.tasks[0].owner else r.lastDialed)
  {
    hide Core;
  }

  /* ------------------------------------------------------------------ on hold */

  predicate Quiet(calls: seq<Call>) {
    forall i :: 0 <= i < |calls| ==> calls[i].state == ONHOLD ==> !calls[i].activated
  }

  lemma ChangedQuiet(r: Registry, i: nat, state: State)
    requires Core(r) && i < |r.calls| && r.audio && |r.chanCount| == STATES && Quiet(r.calls)
    ensures Quiet(Changed(r, i, state).calls)
  {
    hide Core, Changed, OthersMixed;
    ChangeDoes(r, i, state);
    FlagsAt(r, i);
    var rest := r.calls[..i] + r.calls[i + 1..];
    assert forall j :: 0 <= j < |rest| ==> rest[j] == r.calls[if j < i then j else j + 1];
  }

  lemma OrigQuiet(r: Registry, idx: int, voice: bool)
    requires Sound(r) && |r.chanCount| == STATES && Quiet(r.calls)
    ensures Quiet(Orig(r, idx, voice).calls)
  {
    hide Orig, Sound;
    OrigDoes(r, idx, voice);
    var after := Orig(r, idx, voice);
    if r.lastDialed != 0 && voice && 0 <= idx <= 31 {
      forall j | 0 <= j < |after.calls| && after.calls[j].state == ONHOLD ensures !after.calls[j].activated {
        assert after.calls[j].(master := false) == r.calls[j].(master := false);
      }
    }
  }

  lemma StepQuiet(r: Registry, s: Step)
    requires Sound(r) && Enabled(r, s) && Quiet(r.calls)
    ensures Quiet(Apply(r, s).calls)
  {
    hide Core, Opened, Started, Changed, HungUp, Orig, AllReleased, Linked, Place, Listed;
    CoreCounts(r);
    match s
    case Request(idx, resources, channel) => if resources { OpenDoes(r, idx, false, INIT, channel); }
    case Ring(idx, state, resources, channel, pbx) => StartDoes(r, idx, state, resources, channel, pbx);
    case Change(i, state) => ChangedQuiet(r, i, state);
    case LocalHangup(i, enqueued) => HangupDoes(r, i, enqueued);
    case Originated(idx, voice) => OrigQuiet(r, idx, voice);
    case _ =>
  }

  lemma {:induction false} AfterQuiet(r: Registry, steps: seq<Step>)
    requires Sound(r) && Possible(r, steps) && Quiet(r.calls)
    ensures Quiet(After(r, steps).calls)
    decreases |steps|
  {
    hide Apply, Enabled, Sound;
    if steps != [] {
      StepQuiet(r, steps[0]);
      StepKeeps(r, steps[0]);
      AfterQuiet(Apply(r, steps[0]), steps[1..]);
    }
  }

  /** In every state a device reaches, a call on hold has not got the audio port, and its stream is not in the mixer. */
  lemma HoldIsQuiet(steps: seq<Step>, i: nat)
    requires CallSteps.Run(steps) && i < |Reached(steps).calls| && Reached(steps).calls[i].state == ONHOLD
    ensures var r := Reached(steps);
      !r.calls[i].activated && !r.calls[i].master && r.calls[i].no !in r.mixed
  {
    hide Possible, After, Sound;
    EmptyIsSound();
    AfterQuiet(EMPTY, steps);
    MixerAgrees(steps, i, i);
  }
}
