/** Whether a device can place a call, and that it sets up one call at a time: is_dial_possible2 of
    chan_datacard.c and the requests it admits. */
module Dialing {
  import opened Calls
  import opened CallRuns
  import opened CallSteps

  /** Nothing is ringing or being dialled; no call is being set up, but for the one to ignore; and active or held
      calls are there only with the permission to hold others, and not both kinds at once. */
  ghost predicate DialPossible(calls: seq<Call>, busy: bool, holdOther: bool, ignore: nat) {
    && !busy
    && (forall c :: c in calls ==> c.state !in {DIALING, ALERTING, INCOMING, WAITING})
    && (forall c :: c in calls && c.state == INIT ==> c.no == ignore)
    && (forall c :: c in calls && c.state in {ACTIVE, ONHOLD} ==> holdOther)
    && (forall c, d :: c in calls && d in calls ==> !(c.state == ACTIVE && d.state == ONHOLD))
  }

  /** is_dial_possible2. */
  method IsDialPossible2(calls: seq<Call>, ring: bool, cwaiting: bool, dialing: bool, holdOther: bool, ignore: nat)
    returns (possible: bool)
    ensures possible == DialPossible(calls, ring || cwaiting || dialing, holdOther, ignore)
  {
    var hold, active := 0, 0;
    if ring || cwaiting || dialing {
      return false;
    }
    var i := 0;
    while i < |calls|
      invariant 0 <= i <= |calls| && hold >= 0 && active >= 0
      invariant DialPossible(calls[..i], false, holdOther, ignore)
      invariant active > 0 <==> exists j :: 0 <= j < i && calls[j].state == ACTIVE
      invariant hold > 0 <==> exists j :: 0 <= j < i && calls[j].state == ONHOLD
    {
      var c := calls[i];
      assert calls[..i + 1] == calls[..i] + [c] && c in calls;
      match c.state {
        case INIT =>
          if c.no != ignore {
            return false;
          }
        case DIALING | ALERTING | INCOMING | WAITING =>
          return false;
        case ACTIVE =>
          if hold > 0 || !holdOther {
            return false;
          }
          active := active + 1;
        case ONHOLD =>
          if active > 0 || !holdOther {
            return false;
          }
          hold := hold + 1;
        case RELEASED =>
      }
      i := i + 1;
    }
    assert calls[..i] == calls;
    return true;
  }

  /** The answer depends on which calls there are, not on their order or how often they are listed. */
  lemma OrderDoesNotMatter(a: seq<Call>, b: seq<Call>, busy: bool, holdOther: bool, ignore: nat)
    requires forall c :: c in a <==> c in b
    ensures DialPossible(a, busy, holdOther, ignore) == DialPossible(b, busy, holdOther, ignore)
  {
  }

  /* ------------------------------------------------------------------ one call set up at a time */

  function Inits(r: Registry): nat { Count(r.calls, In(INIT)) }

  /** A step as the code takes it: a request has passed is_dial_possible2 under the same lock, and no event makes a
      call one that is being set up. */
  ghost predicate Admitted(r: Registry, s: Step, busy: bool, holdOther: bool) {
    && (s.Request? ==> DialPossible(r.calls, busy, holdOther, 0))
    && (s.Change? ==> s.state != INIT)
  }

  lemma SameStates(a: Registry, b: Registry)
    requires |a.calls| == |b.calls| && forall j :: 0 <= j < |a.calls| ==> a.calls[j].state == b.calls[j].state
    ensures Inits(a) == Inits(b)
  {
    CountSame(a.calls, b.calls, In(INIT));
  }

  lemma FreedInits(r: Registry, i: nat)
    requires i < |r.calls| && |r.chanCount| == STATES
    ensures Inits(Freed(r, i)) <= Inits(r)
    ensures r.calls[i].state == INIT ==> Inits(Freed(r, i)) == Inits(r) - 1
  {
    CountRemoved(r.calls, i, In(INIT));
  }

  lemma ChangedInits(r: Registry, i: nat, state: State)
    requires i < |r.calls| && Sound(r) && state != INIT && |r.chanCount| == STATES
    ensures Inits(Changed(r, i, state)) <= Inits(r)
  {
    hide Sound, Activated, Disactivated, Freed;
    if r.calls[i].state != state {
      var r1 := Restated(r, i, state);
      CountUpdated(r.calls, i, r.calls[i].(state := state), In(INIT));
      StatesKept(r1, i);
      SameStates(Activated(r1, i), r1);
      SameStates(Disactivated(r1, i), r1);
      FreedInits(r1, i);
      FreedInits(Disactivated(r1, i), i);
    }
  }

  lemma OpenedInits(r: Registry, idx: int, incoming: bool, state: State, channel: bool)
    requires |r.chanCount| == STATES
    ensures Inits(Opened(r, idx, incoming, state, channel)) <= Inits(r) + (if state == INIT then 1 else 0)
  {
    hide Freed;
    var r1, i := Allocated(r, idx, incoming, state), |r.calls|;
    CountAppended(r.calls, r1.calls[i], In(INIT));
    if channel {
      SameStates(Opened(r, idx, incoming, state, channel), r1);
    } else {
      FreedInits(r1, i);
    }
  }

  lemma StartedInits(r: Registry, s: Step)
    requires Sound(r) && r.audio && s.Ring? && s.state in {INCOMING, WAITING} && |r.chanCount| == STATES
    ensures Inits(Started(r, s)) <= Inits(r)
  {
    hide Sound, Freed, Opened, Core;
    if s.resources {
      OpenedKeeps(r, s.idx, true, s.state, s.channel);
      OpenedInits(r, s.idx, true, s.state, s.channel);
      var r1, i := Opened(r, s.idx, true, s.state, s.channel), |r.calls|;
      if s.channel {
        var r2 := r1.(calls := r1.calls[i := r1.calls[i].(needHangup := true)]);
        SameStates(r2, r1);
        if !s.pbx {
          OpenedCounts(r1);
          FreedInits(r2, i);
        }
      }
    }
  }

  lemma OpenedCounts(r: Registry)
    requires Sound(r)
    ensures |r.chanCount| == STATES
  {
  }

  lemma HungUpInits(r: Registry, i: nat, enqueued: bool)
    requires i < |r.calls|
    ensures Inits(HungUp(r, i, enqueued)) == Inits(r)
  {
    hide Disactivated;
    if r.calls[i].channel {
      var c := r.calls[i];
      var r1 := if c.needHangup && c.state == INIT then r.(lastDialed := 0) else r;
      var r2 := if c.needHangup && enqueued then r1.(calls := r.calls[i := c.(needHangup := false)]) else r1;
      SameStates(r2, r);
      StatesKept(r2, i);
      SameStates(Disactivated(r2, i), r2);
      SameStates(HungUp(r, i, enqueued), Disactivated(r2, i));
    }
  }

  lemma OrigInits(r: Registry, idx: int, voice: bool)
    requires Sound(r) && |r.chanCount| == STATES
    ensures Inits(Orig(r, idx, voice)) <= Inits(r)
  {
    hide Core, Changed;
    Undialed(r);
    var r1, i := r.(lastDialed := 0), Place(r.calls, r.lastDialed);
    if r.lastDialed != 0 && i < |r.calls| && voice && 0 <= idx <= 31 {
      ActiveHasChannel(r1, i);
      FlagsOnly(r1, i, r1.calls[i].(idx := idx));
      var r2 := r1.(calls := r1.calls[i := r1.calls[i].(idx := idx)]);
      SameStates(r2, r1);
      ChangedInits(r2, i, DIALING);
    }
  }

  /** An admitted request finds no call being set up; no other step begins one. */
  lemma StepInits(r: Registry, s: Step, busy: bool, holdOther: bool)
    requires Sound(r) && Enabled(r, s) && Admitted(r, s, busy, holdOther) && Inits(r) <= 1
    ensures Inits(Apply(r, s)) <= 1
  {
    hide Sound, Opened, Started, Changed, HungUp, Orig, AllReleased, Place, Listed;
    OpenedCounts(r);
    match s
    case Request(idx, resources, channel) =>
      if resources {
        OpenedInits(r, idx, false, INIT, channel);
        NoneBeingSetUp(r, busy, holdOther);
      }
    case Ring(_, _, _, _, _) => StartedInits(r, s);
    case Change(i, state) => ChangedInits(r, i, state);
    case LocalHangup(i, enqueued) => HungUpInits(r, i, enqueued);
    case MarkHangup(i, need) => SameStates(Apply(r, s), r);
    case Originated(idx, voice) => OrigInits(r, idx, voice);
    case _ =>
  }

  lemma NoneBeingSetUp(r: Registry, busy: bool, holdOther: bool)
    requires Sound(r) && DialPossible(r.calls, busy, holdOther, 0)
    ensures Inits(r) == 0
  {
    forall i | 0 <= i < |r.calls| ensures !In(INIT)(r.calls[i]) { assert r.calls[i] in r.calls; }
    CountBounded(r.calls, In(INIT));
  }

  /** Each step possible and admitted, with some state of the busy bits and options. */
  ghost predicate AllAdmitted(r: Registry, steps: seq<Step>, busy: seq<bool>, holdOther: seq<bool>)
    requires Sound(r) && Possible(r, steps) && |busy| == |holdOther| == |steps|
    decreases |steps|
  {
    steps == [] ||
    (Admitted(r, steps[0], busy[0], holdOther[0])
     && (StepKeeps(r, steps[0]); AllAdmitted(Apply(r, steps[0]), steps[1..], busy[1..], holdOther[1..])))
  }

  /** In every reachable state at most one call is being set up. */
  lemma {:induction false} AtMostOneSetUp(r: Registry, steps: seq<Step>, busy: seq<bool>, holdOther: seq<bool>)
    requires Sound(r) && Possible(r, steps) && |busy| == |holdOther| == |steps|
    requires AllAdmitted(r, steps, busy, holdOther) && Inits(r) <= 1
    ensures Inits(After(r, steps)) <= 1
    decreases |steps|
  {
    hide Sound, Apply, Admitted, Enabled, Inits;
    if steps != [] {
      StepKeeps(r, steps[0]);
      StepInits(r, steps[0], busy[0], holdOther[0]);
      AtMostOneSetUp(Apply(r, steps[0]), steps[1..], busy[1..], holdOther[1..]);
    }
  }
}
