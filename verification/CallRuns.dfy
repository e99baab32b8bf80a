/** What holds of the calls of a device over every run. */
module CallRuns {
  import opened AtQueue
  import opened Calls
  import opened Lists

  function Count(calls: seq<Call>, p: Call -> bool): nat {
    if calls == [] then 0 else (if p(calls[0]) then 1 else 0) + Count(calls[1..], p)
  }

  function In(s: State): Call -> bool { (c: Call) => c.state == s }

  function On(): Call -> bool { (c: Call) => c.activated }

  predicate Listed(calls: seq<Call>, no: nat) {
    exists i :: 0 <= i < |calls| && calls[i].no == no
  }

  /** The call of this number is activated. */
  predicate Active(calls: seq<Call>, no: nat) {
    exists i :: 0 <= i < |calls| && calls[i].no == no && calls[i].activated
  }

  /** Calls are told apart by their numbers. */
  ghost predicate Distinct(calls: seq<Call>, next: nat) {
    && (forall i :: 0 <= i < |calls| ==> 0 < calls[i].no < next)
    && (forall i, j :: 0 <= i < j < |calls| ==> calls[i].no != calls[j].no)
  }

  /** The counters count: those by state exactly, as long as there are fewer than 256 calls in it. */
  ghost predicate Counts(calls: seq<Call>, chanCount: seq<int>, chansno: int) {
    && |chanCount| == STATES && chansno == |calls|
    && (forall s: State :: chanCount[StateNo(s)] == Count(calls, In(s)) % 256)
  }

  /** Nothing refers to a call that is gone. */
  ghost predicate References(calls: seq<Call>, lastDialed: nat, tasks: seq<Task>) {
    && (lastDialed == 0 || Listed(calls, lastDialed))
    && (forall i :: 0 <= i < |tasks| ==> tasks[i].owner == 0 || Listed(calls, tasks[i].owner))
  }

  /** The mixer holds the streams of the activated calls, each once, and counts them. */
  ghost predicate Mixing(calls: seq<Call>, mixed: seq<nat>, attached: int) {
    && attached == |mixed| == Count(calls, On())
    && (forall i, j :: 0 <= i < j < |mixed| ==> mixed[i] != mixed[j])
    && (forall no: nat :: no in mixed <==> Active(calls, no))
  }

  /** One call at most has the audio port; it is activated; and no call without a channel is. */
  ghost predicate Flags(calls: seq<Call>) {
    && (forall i, j :: 0 <= i < j < |calls| ==> !(calls[i].master && calls[j].master))
    && (forall i :: 0 <= i < |calls| ==> (calls[i].master ==> calls[i].activated))
    && (forall i :: 0 <= i < |calls| ==> (calls[i].activated ==> calls[i].channel))
  }

  /** What holds even in the middle of a step. */
  ghost predicate Core(r: Registry) {
    && Distinct(r.calls, r.next) && Counts(r.calls, r.chanCount, r.chansno) && r.next > 0
    && References(r.calls, r.lastDialed, r.tasks) && Mixing(r.calls, r.mixed, r.attached) && Flags(r.calls)
  }

  /** Between steps no call is released, because a released call is gone; and there are calls only while the audio
      port is open. */
  ghost predicate Sound(r: Registry) {
    Core(r) && (forall i :: 0 <= i < |r.calls| ==> r.calls[i].state != RELEASED) && (r.calls != [] ==> r.audio)
  }

  /* ------------------------------------------------------------------ counting */

  lemma {:induction false} CountUpdated(calls: seq<Call>, i: nat, c: Call, p: Call -> bool)
    requires i < |calls|
    ensures Count(calls[i := c], p) == Count(calls, p) - (if p(calls[i]) then 1 else 0) + (if p(c) then 1 else 0)
  {
    if i == 0 {
      assert calls[i := c][1..] == calls[1..];
    } else {
      CountUpdated(calls[1..], i - 1, c, p);
      assert calls[i := c][1..] == calls[1..][i - 1 := c];
    }
  }

  lemma {:induction false} CountRemoved(calls: seq<Call>, i: nat, p: Call -> bool)
    requires i < |calls|
    ensures Count(calls[..i] + calls[i + 1..], p) == Count(calls, p) - (if p(calls[i]) then 1 else 0)
  {
    var rest := calls[..i] + calls[i + 1..];
    if i == 0 {
      assert rest == calls[1..];
    } else {
      CountRemoved(calls[1..], i - 1, p);
      assert rest[1..] == calls[1..][..i - 1] + calls[1..][i..];
    }
  }

  lemma {:induction false} CountAppended(calls: seq<Call>, c: Call, p: Call -> bool)
    ensures Count(calls + [c], p) == Count(calls, p) + (if p(c) then 1 else 0)
  {
    if calls == [] {
      assert (calls + [c])[1..] == [];
    } else {
      CountAppended(calls[1..], c, p);
      assert (calls + [c])[1..] == calls[1..] + [c];
    }
  }

  lemma {:induction false} CountSame(a: seq<Call>, b: seq<Call>, p: Call -> bool)
    requires |a| == |b| && forall i :: 0 <= i < |a| ==> p(a[i]) == p(b[i])
    ensures Count(a, p) == Count(b, p)
  {
    if a != [] { CountSame(a[1..], b[1..], p); }
  }

  lemma {:induction false} CountBounded(calls: seq<Call>, p: Call -> bool)
    ensures Count(calls, p) <= |calls|
    ensures (exists i :: 0 <= i < |calls| && p(calls[i])) ==> Count(calls, p) > 0
    ensures (forall i :: 0 <= i < |calls| ==> !p(calls[i])) ==> Count(calls, p) == 0
  {
    if calls != [] { CountBounded(calls[1..], p); }
  }

  /* ------------------------------------------------------------------ one call changed in place */

  /** The same call with other flags or another state. */
  predicate SameCall(a: Call, b: Call) { a.no == b.no }

  lemma UpdatedDistinct(calls: seq<Call>, next: nat, i: nat, c: Call)
    requires i < |calls| && Distinct(calls, next) && SameCall(c, calls[i])
    ensures Distinct(calls[i := c], next)
    ensures forall no: nat :: Listed(calls, no) ==> Listed(calls[i := c], no)
  {
    forall no: nat | Listed(calls, no) ensures Listed(calls[i := c], no) {
      var k :| 0 <= k < |calls| && calls[k].no == no;
      assert calls[i := c][k].no == no;
    }
  }

  lemma UpdatedActive(calls: seq<Call>, next: nat, i: nat, c: Call, no: nat)
    requires i < |calls| && Distinct(calls, next) && SameCall(c, calls[i])
    ensures Active(calls[i := c], no) == if no == c.no then c.activated else Active(calls, no)
  {
    var after := calls[i := c];
    if no == c.no {
      assert after[i] == c;
    } else {
      if Active(calls, no) {
        var k :| 0 <= k < |calls| && calls[k].no == no && calls[k].activated;
        assert after[k] == calls[k];
      }
      if Active(after, no) {
        var k :| 0 <= k < |after| && after[k].no == no && after[k].activated;
        assert after[k] == calls[k];
      }
    }
  }

  lemma UpdatedReferences(r: Registry, i: nat, c: Call)
    requires i < |r.calls| && Distinct(r.calls, r.next) && SameCall(c, r.calls[i])
    requires References(r.calls, r.lastDialed, r.tasks)
    ensures References(r.calls[i := c], r.lastDialed, r.tasks)
  {
    hide Listed;
    UpdatedDistinct(r.calls, r.next, i, c);
  }

  lemma ActiveAt(calls: seq<Call>, next: nat, i: nat)
    requires i < |calls| && Distinct(calls, next)
    ensures Active(calls, calls[i].no) == calls[i].activated
  {
  }

  lemma Modular(n: int, d: int)
    ensures (n % 256 + d) % 256 == (n + d) % 256
  {
  }

  /** A change of flags other than activation. */
  lemma FlagsOnly(r: Registry, i: nat, c: Call)
    requires i < |r.calls| && Core(r) && SameCall(c, r.calls[i])
    requires c.state == r.calls[i].state && c.activated == r.calls[i].activated && c.master == r.calls[i].master
    requires c.activated ==> c.channel
    ensures Core(r.(calls := r.calls[i := c]))
  {
    hide Listed, Active, References;
    var after := r.calls[i := c];
    UpdatedDistinct(r.calls, r.next, i, c);
    UpdatedReferences(r, i, c);
    CountSame(r.calls, after, On());
    forall s: State ensures Count(after, In(s)) == Count(r.calls, In(s)) { CountSame(r.calls, after, In(s)); }
    ActiveAt(r.calls, r.next, i);
    forall no: nat ensures Active(after, no) == Active(r.calls, no) { UpdatedActive(r.calls, r.next, i, c, no); }
  }

  lemma RestatedKeeps(r: Registry, i: nat, state: State)
    requires i < |r.calls| && Core(r)
    ensures Core(Restated(r, i, state))
  {
    hide Listed, Active, References;
    var c := r.calls[i].(state := state);
    var after := r.calls[i := c];
    UpdatedDistinct(r.calls, r.next, i, c);
    UpdatedReferences(r, i, c);
    CountUpdated(r.calls, i, c, On());
    ActiveAt(r.calls, r.next, i);
    forall no: nat ensures Active(after, no) == Active(r.calls, no) { UpdatedActive(r.calls, r.next, i, c, no); }
    RestatedCounts(r, i, state);
  }

  lemma RestatedCounts(r: Registry, i: nat, state: State)
    requires i < |r.calls| && Counts(r.calls, r.chanCount, r.chansno)
    ensures var r1 := Restated(r, i, state); Counts(r1.calls, r1.chanCount, r1.chansno)
  {
    var c := r.calls[i].(state := state);
    var was := r.calls[i].state;
    var one := Counted(r.chanCount, was, -1);
    var after := r.calls[i := c];
    forall s: State ensures Counted(one, state, 1)[StateNo(s)] == Count(after, In(s)) % 256 {
      CountUpdated(r.calls, i, c, In(s));
      Modular(Count(r.calls, In(s)), -1);
      Modular(Count(r.calls, In(s)), 1);
      Modular(Count(r.calls, In(s)) - 1, 1);
      StatesDiffer(s, was);
      StatesDiffer(s, state);
    }
  }

  lemma StatesDiffer(a: State, b: State)
    ensures StateNo(a) == StateNo(b) <==> a == b
  {
  }

  lemma {:induction false} WithoutIs(mixed: seq<nat>, no: nat)
    requires forall i, j :: 0 <= i < j < |mixed| ==> mixed[i] != mixed[j]
    ensures forall n: nat :: n in Without(mixed, no) <==> n in mixed && n != no
    ensures forall i, j :: 0 <= i < j < |Without(mixed, no)| ==> Without(mixed, no)[i] != Without(mixed, no)[j]
    ensures |Without(mixed, no)| == |mixed| - (if no in mixed then 1 else 0)
  {
    if mixed != [] {
      if mixed[0] != no {
        WithoutIs(mixed[1..], no);
        assert mixed == [mixed[0]] + mixed[1..];
        var u := Without(mixed, no);
        assert u == [mixed[0]] + Without(mixed[1..], no);
        forall i, j | 0 <= i < j < |u| ensures u[i] != u[j] {
          if i == 0 { assert u[j] in Without(mixed[1..], no); }
        }
      } else {
        assert mixed == [no] + mixed[1..];
      }
    }
  }

  lemma DisactivatedKeeps(r: Registry, i: nat)
    requires i < |r.calls| && Core(r)
    ensures Core(Disactivated(r, i)) && |Disactivated(r, i).calls| == |r.calls|
    ensures !Disactivated(r, i).calls[i].activated
  {
    hide Listed, Active, References;
    var c := r.calls[i];
    if c.channel && c.activated {
      var off := c.(activated := false, master := false);
      var after := r.calls[i := off];
      UpdatedDistinct(r.calls, r.next, i, off);
      UpdatedReferences(r, i, off);
      CountUpdated(r.calls, i, off, On());
      forall s: State ensures Count(after, In(s)) == Count(r.calls, In(s)) { CountSame(r.calls, after, In(s)); }
      ActiveAt(r.calls, r.next, i);
      WithoutIs(r.mixed, c.no);
      forall no: nat ensures Active(after, no) == (Active(r.calls, no) && no != c.no) {
        UpdatedActive(r.calls, r.next, i, off, no);
      }
    }
  }

  lemma DemotedKeeps(r: Registry, i: nat)
    requires i < |r.calls| && Core(r)
    ensures Core(r.(calls := Demoted(r.calls, i)))
    ensures forall j :: 0 <= j < |r.calls| && j != i ==> !Demoted(r.calls, i)[j].master
  {
    hide Listed, Active;
    var after := Demoted(r.calls, i);
    assert forall j :: 0 <= j < |after| ==> after[j].(master := false) == r.calls[j].(master := false);
    assert forall j :: 0 <= j < |after| ==> after[j].no == r.calls[j].no && after[j].activated == r.calls[j].activated;
    assert forall j :: 0 <= j < |after| ==>
      after[j].state == r.calls[j].state && after[j].channel == r.calls[j].channel;
    CountSame(r.calls, after, On());
    forall s: State ensures Count(after, In(s)) == Count(r.calls, In(s)) { CountSame(r.calls, after, In(s)); }
    forall no: nat ensures Listed(after, no) == Listed(r.calls, no) { SameNumbers(r.calls, after, no); }
    forall no: nat ensures Active(after, no) == Active(r.calls, no) { SameNumbers(r.calls, after, no); }
  }

  lemma SameNumbers(a: seq<Call>, b: seq<Call>, no: nat)
    requires |a| == |b| && forall j :: 0 <= j < |a| ==> a[j].no == b[j].no && a[j].activated == b[j].activated
    ensures Listed(a, no) == Listed(b, no) && Active(a, no) == Active(b, no)
  {
  }

  /** With the audio port open, a call with a channel takes it over and is in the mixer. */
  lemma ActivatedKeeps(r: Registry, i: nat)
    requires i < |r.calls| && Core(r) && r.audio && r.calls[i].channel
    ensures Core(Activated(r, i))
  {
    hide Listed, Active, References, Demoted;
    var c := r.calls[i];
    if !c.master {
      DemotedKeeps(r, i);
      var calls := Demoted(r.calls, i);
      DemotedAt(r.calls, i);
      var on := c.(activated := true, master := true);
      var after := calls[i := on];
      UpdatedDistinct(calls, r.next, i, on);
      UpdatedReferences(r.(calls := calls), i, on);
      CountUpdated(calls, i, on, On());
      forall s: State ensures Count(after, In(s)) == Count(calls, In(s)) { CountSame(calls, after, In(s)); }
      ActiveAt(calls, r.next, i);
      forall no: nat ensures Active(after, no) == (Active(calls, no) || no == c.no) {
        UpdatedActive(calls, r.next, i, on, no);
      }
    }
  }

  lemma DemotedAt(calls: seq<Call>, i: nat)
    requires i < |calls|
    ensures Demoted(calls, i)[i] == calls[i]
  {
  }

  lemma RemovedListed(calls: seq<Call>, next: nat, i: nat, no: nat)
    requires i < |calls| && Distinct(calls, next)
    ensures var rest := calls[..i] + calls[i + 1..];
      && Listed(rest, no) == (Listed(calls, no) && no != calls[i].no)
      && Active(rest, no) == (Active(calls, no) && no != calls[i].no)
  {
    var rest := calls[..i] + calls[i + 1..];
    assert forall j :: 0 <= j < |rest| ==> rest[j] == calls[if j < i then j else j + 1];
    if Listed(calls, no) && no != calls[i].no {
      var k :| 0 <= k < |calls| && calls[k].no == no;
      assert rest[if k < i then k else k - 1] == calls[k];
    }
    if Active(calls, no) && no != calls[i].no {
      var k :| 0 <= k < |calls| && calls[k].no == no && calls[k].activated;
      assert rest[if k < i then k else k - 1] == calls[k];
    }
  }

  lemma RemovedShape(calls: seq<Call>, next: nat, i: nat)
    requires i < |calls| && Distinct(calls, next) && Flags(calls)
    ensures Distinct(calls[..i] + calls[i + 1..], next) && Flags(calls[..i] + calls[i + 1..])
  {
    var rest := calls[..i] + calls[i + 1..];
    assert forall j :: 0 <= j < |rest| ==> rest[j] == calls[if j < i then j else j + 1];
  }

  /** cpvt_free of a call that is out of the mixer leaves no trace of it. */
  lemma FreedKeeps(r: Registry, i: nat)
    requires i < |r.calls| && Core(r) && !r.calls[i].activated
    ensures Core(Freed(r, i))
    ensures forall j :: 0 <= j < |Freed(r, i).calls| ==> Freed(r, i).calls[j] in r.calls
  {
    hide Listed, Active, Distinct, Flags;
    var c, rest := r.calls[i], r.calls[..i] + r.calls[i + 1..];
    RemovedShape(r.calls, r.next, i);
    CountRemoved(r.calls, i, On());
    FreedCounts(r, i);
    FreedReferences(r, i);
    assert !Active(r.calls, c.no) by { ActiveAt(r.calls, r.next, i); }
    forall no: nat ensures Active(rest, no) == Active(r.calls, no) { RemovedListed(r.calls, r.next, i, no); }
  }

  lemma FreedCounts(r: Registry, i: nat)
    requires i < |r.calls| && Counts(r.calls, r.chanCount, r.chansno)
    ensures var f := Freed(r, i); Counts(f.calls, f.chanCount, f.chansno)
  {
    var rest := r.calls[..i] + r.calls[i + 1..];
    var gone := r.calls[i].state;
    forall s: State ensures Counted(r.chanCount, gone, -1)[StateNo(s)] == Count(rest, In(s)) % 256 {
      CountRemoved(r.calls, i, In(s));
      Modular(Count(r.calls, In(s)), -1);
      StatesDiffer(s, gone);
    }
  }

  lemma FreedReferences(r: Registry, i: nat)
    requires i < |r.calls| && |r.chanCount| == STATES
    requires Distinct(r.calls, r.next) && References(r.calls, r.lastDialed, r.tasks)
    ensures var f := Freed(r, i); References(f.calls, f.lastDialed, f.tasks)
  {
    hide Listed;
    var f := Freed(r, i);
    forall no: nat ensures Listed(f.calls, no) == (Listed(r.calls, no) && no != r.calls[i].no) {
      RemovedListed(r.calls, r.next, i, no);
    }
  }

  lemma AllocatedKeeps(r: Registry, idx: int, incoming: bool, state: State)
    requires Core(r)
    ensures Core(Allocated(r, idx, incoming, state))
    ensures |Allocated(r, idx, incoming, state).calls| == |r.calls| + 1
  {
    hide Listed, Active;
    var c := Call(r.next, idx, state, incoming, false, false, false, false);
    var after := r.calls + [c];
    CountAppended(r.calls, c, On());
    forall s: State ensures Counted(r.chanCount, state, 1)[StateNo(s)] == Count(after, In(s)) % 256 {
      CountAppended(r.calls, c, In(s));
      Modular(Count(r.calls, In(s)), 1);
      StatesDiffer(s, state);
    }
    forall no: nat
      ensures Listed(after, no) == (Listed(r.calls, no) || no == c.no) && Active(after, no) == Active(r.calls, no)
    {
      AppendedListed(r.calls, c, no);
    }
  }

  lemma AppendedListed(calls: seq<Call>, c: Call, no: nat)
    requires !c.activated
    ensures Listed(calls + [c], no) == (Listed(calls, no) || no == c.no)
    ensures Active(calls + [c], no) == Active(calls, no)
  {
    var after := calls + [c];
    assert after[|calls|] == c;
    if Listed(calls, no) {
      var k :| 0 <= k < |calls| && calls[k].no == no;
      assert after[k] == calls[k];
    }
    if Active(calls, no) {
      var k :| 0 <= k < |calls| && calls[k].no == no && calls[k].activated;
      assert after[k] == calls[k];
    }
  }

  /** No call is released. */
  ghost predicate NoneReleased(calls: seq<Call>) {
    forall i :: 0 <= i < |calls| ==> calls[i].state != RELEASED
  }

  /** Nothing but the call at i may be. */
  ghost predicate OthersNotReleased(calls: seq<Call>, i: nat) {
    forall j :: 0 <= j < |calls| && j != i ==> calls[j].state != RELEASED
  }

  lemma StatesKept(r: Registry, i: nat)
    requires i < |r.calls|
    ensures |Activated(r, i).calls| == |r.calls| && |Disactivated(r, i).calls| == |r.calls|
    ensures forall j :: 0 <= j < |r.calls| ==> Activated(r, i).calls[j].state == r.calls[j].state
    ensures forall j :: 0 <= j < |r.calls| ==> Disactivated(r, i).calls[j].state == r.calls[j].state
    ensures Activated(r, i).audio == Disactivated(r, i).audio == r.audio
    ensures Disactivated(r, i).chanCount == r.chanCount
  {
  }

  lemma ChangedKeeps(r: Registry, i: nat, state: State)
    requires i < |r.calls| && Sound(r)
    ensures Sound(Changed(r, i, state))
    ensures |Changed(r, i, state).calls| == |r.calls| - (if state == RELEASED then 1 else 0)
  {
    hide Core, Activated, Disactivated, Freed;
    assert |r.chanCount| == STATES by { CoreCounts(r); }
    if r.calls[i].state != state {
      var r1 := Restated(r, i, state);
      RestatedKeeps(r, i, state);
      StatesKept(r1, i);
      if !r.calls[i].channel {
        if state == RELEASED {
          NotActivated(r1, i);
          FreedKeeps(r1, i);
          FreedStates(r1, i);
        }
      } else {
        match state
        case DIALING => ActivatedKeeps(r1, i);
        case ALERTING => ActivatedKeeps(r1, i);
        case ACTIVE => ActivatedKeeps(r1, i);
        case ONHOLD => DisactivatedKeeps(r1, i);
        case RELEASED =>
          DisactivatedKeeps(r1, i);
          FreedKeeps(Disactivated(r1, i), i);
          FreedStates(Disactivated(r1, i), i);
        case _ =>
      }
    }
  }

  lemma CoreCounts(r: Registry)
    requires Core(r)
    ensures |r.chanCount| == STATES
  {
  }

  lemma NotActivated(r: Registry, i: nat)
    requires i < |r.calls| && Core(r) && !r.calls[i].channel
    ensures !r.calls[i].activated
  {
  }

  lemma FreedStates(r: Registry, i: nat)
    requires i < |r.calls| && |r.chanCount| == STATES && OthersNotReleased(r.calls, i)
    ensures NoneReleased(Freed(r, i).calls) && |Freed(r, i).calls| == |r.calls| - 1 && Freed(r, i).audio == r.audio
  {
  }
}
