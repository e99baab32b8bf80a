/** A call whose voice is written to the mixer has its stream there: what channel_write relies on. */
module CallVoices {
  import opened AtQueue
  import opened Lists
  import opened Calls
  import opened CallRuns
  import opened CallSteps

  /** The states in which a call with a channel has voice: CPVT_IS_SOUND_SOURCE, and CPVT_IS_ACTIVE among them. */
  predicate HasVoice(c: Call) {
    c.channel && c.state in {ACTIVE, DIALING, ALERTING}
  }

  predicate Voiced(calls: seq<Call>) {
    forall i :: 0 <= i < |calls| ==> HasVoice(calls[i]) ==> calls[i].activated
  }

  lemma UpdatedVoiced(calls: seq<Call>, i: nat, c: Call)
    requires i < |calls| && Voiced(calls) && (HasVoice(c) ==> c.activated)
    ensures Voiced(calls[i := c])
  {
  }

  lemma DisactivatedVoiced(r: Registry, i: nat)
    requires i < |r.calls|
    requires forall j :: 0 <= j < |r.calls| && j != i && HasVoice(r.calls[j]) ==> r.calls[j].activated
    ensures var calls := Disactivated(r, i).calls;
      |calls| == |r.calls|
      && (forall j :: 0 <= j < |calls| && j != i && HasVoice(calls[j]) ==> calls[j].activated)
      && calls[i].state == r.calls[i].state && calls[i].channel == r.calls[i].channel
  {
    hide Without;
  }

  lemma ActivatedVoiced(r: Registry, i: nat)
    requires i < |r.calls| && r.audio && (r.calls[i].master ==> r.calls[i].activated)
    requires forall j :: 0 <= j < |r.calls| && j != i && HasVoice(r.calls[j]) ==> r.calls[j].activated
    ensures Voiced(Activated(r, i).calls)
  {
  }

  lemma FreedVoiced(r: Registry, i: nat)
    requires i < |r.calls| && |r.chanCount| == STATES
    requires forall j :: 0 <= j < |r.calls| && j != i && HasVoice(r.calls[j]) ==> r.calls[j].activated
    ensures Voiced(Freed(r, i).calls)
  {
    var rest := r.calls[..i] + r.calls[i + 1..];
    assert forall j :: 0 <= j < |rest| ==> rest[j] == r.calls[if j < i then j else j + 1];
  }

  lemma MasterIsActivated(r: Registry, i: nat)
    requires Core(r) && i < |r.calls|
    ensures r.calls[i].master ==> r.calls[i].activated
  {
  }

  lemma ChangedVoiced(r: Registry, i: nat, state: State)
    requires i < |r.calls| && Core(r) && r.audio && Voiced(r.calls) && |r.chanCount| == STATES
    ensures Voiced(Changed(r, i, state).calls)
  {
    hide Core, Activated, Disactivated, Freed;
    if r.calls[i].state != state {
      var r1 := Restated(r, i, state);
      MasterIsActivated(r, i);
      if !r.calls[i].channel {
        if state == RELEASED { FreedVoiced(r1, i); }
      } else if state in {ACTIVE, DIALING, ALERTING} {
        ActivatedVoiced(r1, i);
      } else if state in {ONHOLD, RELEASED} {
        DisactivatedVoiced(r1, i);
        NumbersKept(r1, i);
        if state == RELEASED { FreedVoiced(Disactivated(r1, i), i); }
      }
    }
  }

  lemma OpenedVoiced(r: Registry, idx: int, incoming: bool, state: State, channel: bool)
    requires |r.chanCount| == STATES && Voiced(r.calls) && state !in {ACTIVE, DIALING, ALERTING}
    ensures Voiced(Opened(r, idx, incoming, state, channel).calls)
    ensures channel ==> var calls := Opened(r, idx, incoming, state, channel).calls;
      |calls| == |r.calls| + 1 && calls[|r.calls|].state == state
  {
    if !channel { FreedVoiced(Allocated(r, idx, incoming, state), |r.calls|); }
  }

  lemma StartedVoiced(r: Registry, s: Step)
    requires s.Ring? && |r.chanCount| == STATES && Voiced(r.calls) && s.state !in {ACTIVE, DIALING, ALERTING}
    ensures Voiced(Started(r, s).calls)
  {
    hide Opened, Freed;
    if s.resources {
      OpenedVoiced(r, s.idx, true, s.state, s.channel);
      if s.channel {
        var r1, i := Opened(r, s.idx, true, s.state, s.channel), |r.calls|;
        UpdatedVoiced(r1.calls, i, r1.calls[i].(needHangup := true));
        OpenedCounts(r, s.idx, true, s.state);
        if !s.pbx { FreedVoiced(r1.(calls := r1.calls[i := r1.calls[i].(needHangup := true)]), i); }
      }
    }
  }

  lemma OpenedCounts(r: Registry, idx: int, incoming: bool, state: State)
    requires |r.chanCount| == STATES
    ensures |Opened(r, idx, incoming, state, true).chanCount| == STATES
  {
  }

  lemma HungUpVoiced(r: Registry, i: nat, enqueued: bool)
    requires i < |r.calls| && Voiced(r.calls)
    ensures Voiced(HungUp(r, i, enqueued).calls)
  {
    hide Disactivated;
    if r.calls[i].channel {
      var c := r.calls[i];
      var r1 := if c.needHangup && c.state == INIT then r.(lastDialed := 0) else r;
      var r2 := if c.needHangup && enqueued then r1.(calls := r.calls[i := c.(needHangup := false)]) else r1;
      DisactivatedVoiced(r2, i);
    }
  }

  lemma OrigVoiced(r: Registry, idx: int, voice: bool)
    requires Sound(r) && Voiced(r.calls) && |r.chanCount| == STATES
    ensures Voiced(Orig(r, idx, voice).calls)
  {
    hide Core, Changed;
    var r1, i := r.(lastDialed := 0), Place(r.calls, r.lastDialed);
    if r.lastDialed != 0 && i < |r.calls| && voice && 0 <= idx <= 31 {
      Undialed(r);
      ActiveHasChannel(r1, i);
      FlagsOnly(r1, i, r1.calls[i].(idx := idx));
      UpdatedVoiced(r.calls, i, r.calls[i].(idx := idx));
      ChangedVoiced(r1.(calls := r1.calls[i := r1.calls[i].(idx := idx)]), i, DIALING);
    }
  }

  lemma StepVoiced(r: Registry, s: Step)
    requires Sound(r) && Enabled(r, s) && Voiced(r.calls)
    ensures Voiced(Apply(r, s).calls)
  {
    hide Core, Opened, Started, Changed, HungUp, Orig, AllReleased, Linked, Place, Listed;
    CoreCounts(r);
    match s
    case Request(idx, resources, channel) => if resources { OpenedVoiced(r, idx, false, INIT, channel); }
    case Ring(_, _, _, _, _) => StartedVoiced(r, s);
    case Change(i, state) => ChangedVoiced(r, i, state);
    case LocalHangup(i, enqueued) => HungUpVoiced(r, i, enqueued);
    case MarkHangup(i, need) => UpdatedVoiced(r.calls, i, r.calls[i].(needHangup := need));
    case Originated(idx, voice) => OrigVoiced(r, idx, voice);
    case _ =>
  }

  lemma {:induction false} AfterVoiced(r: Registry, steps: seq<Step>)
    requires Sound(r) && Possible(r, steps) && Voiced(r.calls)
    ensures Voiced(After(r, steps).calls)
    decreases |steps|
  {
    hide Apply, Enabled, Sound;
    if steps != [] {
      StepVoiced(r, steps[0]);
      StepKeeps(r, steps[0]);
      AfterVoiced(Apply(r, steps[0]), steps[1..]);
    }
  }

  /** In every state a device reaches, the stream of a call with a channel that is active, dialing or alerting is in
      the mixer. */
  lemma VoiceIsMixed(steps: seq<Step>, i: nat)
    requires CallSteps.Run(steps) && i < |Reached(steps).calls| && HasVoice(Reached(steps).calls[i])
    ensures Reached(steps).calls[i].activated && Reached(steps).calls[i].no in Reached(steps).mixed
  {
    hide Possible, After, Sound;
    EmptyIsSound();
    AfterVoiced(EMPTY, steps);
    MixerAgrees(steps, i, i);
  }
}
