/** The round-robin choice among the devices of a group: the 'r' branch of find_device_by_resource_ex in
    chan_datacard.c. */
module RoundRobin {

  /** How many devices round_robin has room for. */
  const CAPACITY := 256

  /** The places of the devices of a group, in the order of the list, as far as there is room. */
  function Members(groups: seq<int>, group: int, n: nat): (m: seq<nat>)
    requires n <= |groups|
    ensures |m| <= 256 && |m| <= n
    ensures forall k :: 0 <= k < |m| ==> m[k] < n && groups[m[k]] == group
    ensures forall k, l :: 0 <= k < l < |m| ==> m[k] < m[l]
    ensures |m| < CAPACITY ==> forall d :: 0 <= d < n && groups[d] == group ==> d in m
  {
    if n == 0 then []
    else
      var m := Members(groups, group, n - 1);
      if groups[n - 1] == group && |m| < CAPACITY then m + [n - 1] else m
  }

  /** In a list of up to 256 devices none is left out. */
  lemma {:induction false} AllMembers(groups: seq<int>, group: int, n: nat)
    requires n <= |groups| && n <= 256
    ensures forall d :: 0 <= d < n ==> (groups[d] == group <==> d in Members(groups, group, n))
  {
    if n > 0 { AllMembers(groups, group, n - 1); }
  }

  /** Which of c members is d steps after the one behind the last. */
  function After(c: nat, last: nat, d: nat): (k: nat)
    requires last < c && d < c
    ensures k < c && (k == last + 1 + d || k + c == last + 1 + d)
  {
    if last + 1 + d >= c then last + 1 + d - c else last + 1 + d
  }

  /** How many steps that one is away. */
  function Steps(c: nat, last: nat, k: nat): (d: nat)
    requires last < c && k < c
    ensures d < c && After(c, last, d) == k
  {
    if k > last then k - last - 1 else k + c - last - 1
  }

  /** k is the first member that can dial, going round from behind the last. */
  ghost predicate FirstRound(can: seq<bool>, last: nat, k: nat)
    requires last < |can|
  {
    && k < |can| && can[k]
    && forall l :: 0 <= l < |can| && can[l] ==> Steps(|can|, last, k) <= Steps(|can|, last, l)
  }

  lemma FirstRoundIsOne(can: seq<bool>, last: nat, k: nat, l: nat)
    requires last < |can| && FirstRound(can, last, k) && FirstRound(can, last, l)
    ensures k == l
  {
    assert After(|can|, last, Steps(|can|, last, k)) == After(|can|, last, Steps(|can|, last, l));
  }

  /** The search of the second loop, from d steps on; -1 when nobody can. */
  function First(can: seq<bool>, last: nat, d: nat): (k: int)
    requires last < |can|
    ensures -1 <= k < |can| && (k >= 0 ==> can[k])
    decreases |can| - d
  {
    if d >= |can| then -1
    else if can[After(|can|, last, d)] then After(|can|, last, d)
    else First(can, last, d + 1)
  }

  lemma StepsOfAfter(c: nat, last: nat, d: nat)
    requires last < c && d < c
    ensures Steps(c, last, After(c, last, d)) == d
  {
  }

  /** The search stops at the first one round, and misses only when nobody can. */
  lemma {:induction false} FirstIsFirst(can: seq<bool>, last: nat, d: nat)
    requires last < |can| && forall l :: 0 <= l < |can| && can[l] ==> d <= Steps(|can|, last, l)
    ensures var k := First(can, last, d);
      if k >= 0 then FirstRound(can, last, k) else forall l :: 0 <= l < |can| ==> !can[l]
    decreases |can| - d
  {
    if d < |can| {
      StepsOfAfter(|can|, last, d);
      if !can[After(|can|, last, d)] {
        forall l | 0 <= l < |can| && can[l] ensures d + 1 <= Steps(|can|, last, l) {
          assert After(|can|, last, Steps(|can|, last, l)) == l;
        }
        FirstIsFirst(can, last, d + 1);
      }
    } else {
      forall l | 0 <= l < |can| ensures !can[l] {
        assert Steps(|can|, last, l) < |can|;
      }
    }
  }

  /** The members' answers. */
  function Answers(members: seq<nat>, canDial: seq<bool>): (can: seq<bool>)
    requires forall k :: 0 <= k < |members| ==> members[k] < |canDial|
    ensures |can| == |members|
  {
    seq(|members|, k requires 0 <= k < |members| => canDial[members[k]])
  }

  /** The last member that is marked, or the first one when none is. */
  function LastMarked(members: seq<nat>, marked: seq<bool>, n: nat): (last: nat)
    requires n <= |members| && forall k :: 0 <= k < |members| ==> members[k] < |marked|
    ensures n > 0 ==> last < n
    ensures (forall k :: 0 <= k < n ==> !marked[members[k]]) ==> last == 0
    ensures forall j :: 0 <= j < n && marked[members[j]] ==> j <= last && marked[members[last]]
  {
    if n == 0 then 0 else if marked[members[n - 1]] then n - 1 else LastMarked(members, marked, n - 1)
  }

  function Last(members: seq<nat>, marked: seq<bool>): (last: nat)
    requires forall k :: 0 <= k < |members| ==> members[k] < |marked|
    ensures members != [] ==> last < |members|
  {
    LastMarked(members, marked, |members|)
  }

  /** The list of devices: the group of each, and group_last_used. */
  class DeviceList {
    const groups: seq<int>
    const roundRobin: array<nat>
    var lastUsed: seq<bool>

    ghost predicate Valid()
      reads this
    {
      |lastUsed| == |groups| && roundRobin.Length == CAPACITY
    }

    constructor (groups: seq<int>)
      ensures Valid() && this.groups == groups && fresh(roundRobin)
      ensures lastUsed == seq(|groups|, _ => false)
    {
      this.groups := groups;
      roundRobin := new nat[CAPACITY];
      lastUsed := seq(|groups|, _ => false);
    }

    /** The first loop: the members are collected and their marks taken off. */
    method Collect(group: int) returns (c: nat, last: nat)
      requires Valid()
      modifies this, roundRobin
      ensures Valid() && c <= CAPACITY && roundRobin[..c] == Members(groups, group, |groups|)
      ensures last == Last(Members(groups, group, |groups|), old(lastUsed))
      ensures Cleared(lastUsed, old(lastUsed), Members(groups, group, |groups|))
    {
      hide Members, LastMarked, Last, Cleared;
      c, last := 0, 0;
      var d := 0;
      ghost var was, m: seq<nat> := lastUsed, [];
      NoneCollected(groups, group, was);
      while d < |groups| && c < CAPACITY
        invariant 0 <= d <= |groups| && c == |m| <= CAPACITY && Valid()
        invariant roundRobin[..c] == m == Members(groups, group, d)
        invariant last == Last(m, was) && Cleared(lastUsed, was, m)
      {
        OneMoreDevice(groups, group, d, was, lastUsed);
        if groups[d] == group {
          Store(c, d, m);
          if lastUsed[d] {
            lastUsed := lastUsed[d := false];
            last := c;
          }
          m := m + [d];
          c := c + 1;
        }
        d := d + 1;
      }
      FullMembers(groups, group, d);
    }

    /** The second loop: the first member from behind the last one that can dial. */
    method Search(c: nat, last: nat, canDial: seq<bool>) returns (k: int)
      requires Valid() && c <= CAPACITY && (c > 0 ==> last < c) && |canDial| == |groups|
      requires forall l :: 0 <= l < c ==> roundRobin[l] < |groups|
      ensures c == 0 ==> k == -1
      ensures c > 0 ==> k == First(Answers(roundRobin[..c], canDial), last, 0)
    {
      var i, j := 0, last + 1;
      k := -1;
      ghost var can := Answers(roundRobin[..c], canDial);
      while i < c
        invariant 0 <= i <= c && (i < c ==> 0 <= j <= c && (if j == c then 0 else j) == After(c, last, i))
        invariant c > 0 ==> First(can, last, 0) == First(can, last, i)
      {
        if j == c {
          j := 0;
        }
        assert j == After(c, last, i);
        if canDial[roundRobin[j]] {
          return j;
        }
        i := i + 1;
        j := j + 1;
      }
    }

    /** The 'r' branch. The device found is marked and the other members are not; when nobody can dial no member
        stays marked. */
    method FindDevice(group: int, canDial: seq<bool>) returns (found: int, some: bool)
      requires Valid() && |canDial| == |groups|
      modifies this, roundRobin
      ensures Valid()
      ensures var m := Members(groups, group, |groups|);
        && some == (m != [])
        && (found >= 0 <==> exists k :: 0 <= k < |m| && canDial[m[k]])
        && (forall k :: 0 <= k < |m| ==>
              (found == m[k] <==> FirstRound(Answers(m, canDial), Last(m, old(lastUsed)), k)))
        && (forall e :: 0 <= e < |groups| ==> lastUsed[e] == (e == found || (old(lastUsed)[e] && e !in m)))
    {
      hide Members, LastMarked, Last, First, FirstRound, Answers;
      var c, last := Collect(group);
      ghost var m := Members(groups, group, |groups|);
      assert |m| == c && roundRobin[..c] == m;
      assert forall l :: 0 <= l < c ==> roundRobin[l] == m[l];
      var k := Search(c, last, canDial);
      some := c > 0;
      found := -1;
      if c > 0 { AnswersFirst(m, canDial, last); }
      assert forall l :: 0 <= l < |m| ==> ((k >= 0 && m[l] == m[k]) <==> k == l);
      if k >= 0 {
        found := roundRobin[k];
        lastUsed := lastUsed[found := true];
      }
    }

    method Store(c: nat, d: nat, ghost m: seq<nat>)
      requires c < roundRobin.Length && roundRobin[..c] == m
      modifies roundRobin
      ensures roundRobin[..c + 1] == m + [d]
    {
      roundRobin[c] := d;
    }
  }

  lemma AnswersFirst(m: seq<nat>, canDial: seq<bool>, last: nat)
    requires last < |m| && forall k :: 0 <= k < |m| ==> m[k] < |canDial|
    ensures var can := Answers(m, canDial); var k := First(can, last, 0);
      && (if k >= 0 then canDial[m[k]] else forall l :: 0 <= l < |m| ==> !canDial[m[l]])
      && (forall l: nat :: l < |m| ==> (FirstRound(can, last, l) <==> k == l))
  {
    hide First, Steps;
    var can := Answers(m, canDial);
    FirstIsFirst(can, last, 0);
    var k := First(can, last, 0);
    forall l: nat | l < |m| && FirstRound(can, last, l) ensures k == l {
      if k >= 0 { FirstRoundIsOne(can, last, k, l); }
    }
    assert forall l :: 0 <= l < |m| ==> can[l] == canDial[m[l]];
  }

  /** The marks of the members collected so far are off, the others as they were. */
  ghost predicate Cleared(marks: seq<bool>, was: seq<bool>, m: seq<nat>) {
    |marks| == |was| && forall e :: 0 <= e < |was| ==> marks[e] == (was[e] && e !in m)
  }

  lemma NoneCollected(groups: seq<int>, group: int, was: seq<bool>)
    ensures Members(groups, group, 0) == [] && Last([], was) == 0 && Cleared(was, was, [])
  {
  }

  lemma OneMoreDevice(groups: seq<int>, group: int, d: nat, was: seq<bool>, marks: seq<bool>)
    requires d < |groups| == |was| && |Members(groups, group, d)| < CAPACITY
    requires Cleared(marks, was, Members(groups, group, d))
    ensures |marks| == |was|
    ensures var m := Members(groups, group, d);
      if groups[d] != group then Members(groups, group, d + 1) == m
      else
        && Members(groups, group, d + 1) == m + [d] && marks[d] == was[d]
        && Last(m + [d], was) == (if was[d] then |m| else Last(m, was))
        && Cleared(if was[d] then marks[d := false] else marks, was, m + [d])
  {
    hide LastMarked;
    var m := Members(groups, group, d);
    assert d !in m;
    if groups[d] == group { MarkedPrefix(m, d, was); }
  }

  lemma MarkedPrefix(m: seq<nat>, d: nat, marked: seq<bool>)
    requires d < |marked| && forall k :: 0 <= k < |m| ==> m[k] < d
    ensures LastMarked(m + [d], marked, |m| + 1) == if marked[d] then |m| else LastMarked(m, marked, |m|)
  {
    PrefixMarked(m, d, marked, |m|);
  }

  lemma {:induction false} PrefixMarked(m: seq<nat>, d: nat, marked: seq<bool>, n: nat)
    requires n <= |m| && d < |marked| && forall k :: 0 <= k < |m| ==> m[k] < d
    ensures LastMarked(m + [d], marked, n) == LastMarked(m, marked, n)
  {
    if n > 0 { PrefixMarked(m, d, marked, n - 1); }
  }

  /** Once there is no room the rest of the list does not matter. */
  lemma {:induction false} FullMembers(groups: seq<int>, group: int, n: nat)
    requires n <= |groups| && (n == |groups| || |Members(groups, group, n)| == CAPACITY)
    ensures Members(groups, group, |groups|) == Members(groups, group, n)
    decreases |groups| - n
  {
    if n < |groups| { FullMembers(groups, group, n + 1); }
  }

  /* ------------------------------------------------------------------ fairness */

  lemma MarkOnOne(m: seq<nat>, marks: seq<bool>, k: nat, n: nat)
    requires k < n <= |m| && forall j :: 0 <= j < |m| ==> m[j] < |marks| && marks[m[j]] == (j == k)
    ensures LastMarked(m, marks, n) == k
  {
  }

  /** A choice that is not the waiting member brings it nearer. */
  lemma Nearer(can: seq<bool>, last: nat, k: nat, p: nat)
    requires last < |can| && p < |can| && can[p] && FirstRound(can, last, k) && k != p
    ensures Steps(|can|, k, p) < Steps(|can|, last, p)
  {
    assert Steps(|can|, last, k) != Steps(|can|, last, p) by {
      assert After(|can|, last, Steps(|can|, last, k)) == k && After(|can|, last, Steps(|can|, last, p)) == p;
    }
  }

  /** Request after request for the same group: a member that can always dial is found before the requests outnumber
      the steps to it, and so within as many requests as the group has members. */
  method Requests(devices: DeviceList, group: int, answers: seq<seq<bool>>, ghost p: nat) returns (found: seq<int>)
    requires devices.Valid() && forall i :: 0 <= i < |answers| ==> |answers[i]| == |devices.groups|
    requires var m := Members(devices.groups, group, |devices.groups|);
      && p < |m| && (forall i :: 0 <= i < |answers| ==> answers[i][m[p]])
      && |answers| > Steps(|m|, Last(m, devices.lastUsed), p)
    modifies devices, devices.roundRobin
    ensures devices.Valid() && |found| == |answers|
    ensures exists i :: 0 <= i < |found| && found[i] == Members(devices.groups, group, |devices.groups|)[p]
  {
    hide Members, LastMarked, Last, First, FirstRound, Steps;
    ghost var m := Members(devices.groups, group, |devices.groups|);
    ghost var at := -1;
    found := [];
    var i := 0;
    while i < |answers|
      invariant 0 <= i <= |answers| && |found| == i && devices.Valid()
      invariant at < 0 ==> Steps(|m|, Last(m, devices.lastUsed), p) < |answers| - i
      invariant at >= 0 ==> at < i && found[at] == m[p]
    {
      ghost var last := Last(m, devices.lastUsed);
      ghost var can := Answers(m, answers[i]);
      ghost var k := First(can, last, 0);
      assert can[p];
      var device, some := devices.FindDevice(group, answers[i]);
      AnswersFirst(m, answers[i], last);
      assert device == m[k];
      if at < 0 {
        if k == p {
          at := i;
        } else {
          Nearer(can, last, k, p);
          MarksAfter(m, devices.lastUsed, k);
        }
      }
      found := found + [device];
      i := i + 1;
    }
    assert at >= 0;
  }

  /** After a success the mark is on the device found. */
  lemma MarksAfter(m: seq<nat>, marks: seq<bool>, k: nat)
    requires k < |m| && (forall j, l :: 0 <= j < l < |m| ==> m[j] < m[l])
    requires forall j :: 0 <= j < |m| ==> m[j] < |marks| && (marks[m[j]] <==> m[j] == m[k])
    ensures Last(m, marks) == k
  {
    MarkOnOne(m, marks, k, |m|);
  }
}
