/** The monitor's inner loop: replies are taken from the ring until there is none. */
module AtMonitor {
  import opened RingBuffer
  import opened AtRead
  import opened AtResponses
  import opened AtFraming

  /** One reply: where it stood in the stream, its text, where what it took ends, and its kind. */
  datatype Taking = Taking(start: nat, text: seq<char>, end: nat, res: Reply)

  /** What the loop leaves: the replies, the state, the position in the stream and the bytes now before the end of
      the buffer. */
  datatype Drained = Drained(takings: seq<Taking>, line: bool, at: nat, h: nat)

  /** The bytes the classifier removes with the reply at the front of r. */
  function Removed(r: seq<char>, frame: nat): (n: nat)
    ensures n <= |r| && (frame > 0 && r != [] ==> n > 0)
  {
    Min(Taken(Class(r), frame), |r|)
  }

  /** The reply at the front of the bytes c, which stand at position at of the stream. */
  ghost function Front(c: seq<char>, f: Framed, at: nat): Taking
    requires f.dropped + f.frame <= |c|
  {
    var r := c[f.dropped..];
    Taking(at + f.dropped, r[..f.frame], at + f.dropped + Removed(r, f.frame), Class(r))
  }

  /** The loop on the bytes c. */
  ghost function Drain(line: bool, c: seq<char>, at: nat, h: nat, size: nat, beyond: seq<char>): (d: Drained)
    requires |beyond| >= 7 && |c| <= size
    ensures at <= d.at <= at + |c|
    decreases |c|, 1
  {
    var f := Next(line, c, h, size, beyond);
    if f.frame == 0 then Drained([], f.line, at + f.dropped, f.h)
    else
      var d := Later(c, f, at, size, beyond);
      d.(takings := [Front(c, f, at)] + d.takings)
  }

  /** The loop once that reply is gone. */
  ghost function Later(c: seq<char>, f: Framed, at: nat, size: nat, beyond: seq<char>): (d: Drained)
    requires |beyond| >= 7 && |c| <= size && 0 < f.frame && f.dropped + f.frame <= |c|
    ensures at <= d.at <= at + |c|
    decreases |c|, 0
  {
    var r := c[f.dropped..];
    var n := Removed(r, f.frame);
    Drain(f.line, r[n..], at + f.dropped + n, HeadAfter(size, |r|, f.h, n), size, beyond)
  }

  /** The texts and kinds alone. */
  function Replies(takings: seq<Taking>): (r: seq<(seq<char>, Reply)>)
    ensures |r| == |takings|
  {
    seq(|takings|, i requires 0 <= i < |takings| => (takings[i].text, takings[i].res))
  }

  /** Taken one behind another from the bytes c at position at, each its own bytes and its own kind. */
  ghost predicate InOrder(takings: seq<Taking>, c: seq<char>, at: nat, end: nat) {
    && at <= end <= at + |c|
    && (forall i :: 0 <= i < |takings| ==> Within(takings[i], c, at, end))
    && (forall i, j :: 0 <= i < j < |takings| ==> takings[i].end <= takings[j].start)
  }

  ghost predicate Within(t: Taking, c: seq<char>, at: nat, end: nat) {
    && at <= t.start && 0 < |t.text| && t.start + |t.text| <= t.end <= end <= at + |c|
    && t.text == c[t.start - at..t.start - at + |t.text|]
    && t.res == Class(t.text)
  }

  /** Replies are disjoint stretches of the stream, in order, and each is classified by its own bytes. */
  lemma {:induction false} DrainInOrder(line: bool, c: seq<char>, at: nat, h: nat, size: nat, beyond: seq<char>)
    requires |beyond| >= 7 && |c| <= size
    ensures var d := Drain(line, c, at, h, size, beyond);
      InOrder(d.takings, c, at, d.at)
    decreases |c|
  {
    hide Next, Class, Removed, HeadAfter, Front, InOrder;
    var f := Next(line, c, h, size, beyond);
    if f.frame > 0 {
      var r := c[f.dropped..];
      ReplyIsWhole(line, c, h, size, beyond);
      var n := Removed(r, f.frame);
      RemovedIs(r, f.frame);
      DrainInOrder(f.line, r[n..], at + f.dropped + n, HeadAfter(size, |r|, f.h, n), size, beyond);
      FrontAndRest(c, at, f, r, n, Later(c, f, at, size, beyond));
    } else {
      NoneInOrder(c, at, at + f.dropped);
    }
  }

  lemma FrontAndRest(c: seq<char>, at: nat, f: Framed, r: seq<char>, n: nat, rest: Drained)
    requires 0 < f.frame && f.dropped + f.frame <= |c| && r == c[f.dropped..] && n == Removed(r, f.frame) >= f.frame
    requires Class(r[..f.frame]) == Class(r)
    requires at + f.dropped + n <= rest.at <= at + |c|
    requires InOrder(rest.takings, r[n..], at + f.dropped + n, rest.at)
    ensures InOrder([Front(c, f, at)] + rest.takings, c, at, rest.at)
  {
    hide Class, Removed, Front, InOrder, Within;
    assert r[n..] == c[f.dropped + n..];
    FirstWithin(c, at, f, rest.at);
    AllInOrder(Front(c, f, at), rest.takings, c, at, f.dropped + n, rest.at);
  }

  lemma NoneInOrder(c: seq<char>, at: nat, end: nat)
    requires at <= end <= at + |c|
    ensures InOrder([], c, at, end)
  {
  }

  lemma RemovedIs(r: seq<char>, frame: nat)
    requires frame <= Taken(Class(r), frame) <= |r|
    ensures Removed(r, frame) == Taken(Class(r), frame)
  {
    hide Class, Taken;
  }

  lemma FirstWithin(c: seq<char>, at: nat, f: Framed, end: nat)
    requires 0 < f.frame && f.dropped + f.frame <= |c|
    requires f.frame <= Removed(c[f.dropped..], f.frame)
    requires Class(c[f.dropped..][..f.frame]) == Class(c[f.dropped..])
    requires at + f.dropped + Removed(c[f.dropped..], f.frame) <= end <= at + |c|
    ensures Within(Front(c, f, at), c, at, end)
    ensures Front(c, f, at).end == at + f.dropped + Removed(c[f.dropped..], f.frame)
  {
    hide Class, Removed;
    assert c[f.dropped..][..f.frame] == c[f.dropped..f.dropped + f.frame];
  }

  lemma StillWithin(t: Taking, c: seq<char>, at: nat, m: nat, end: nat)
    requires m <= |c| && Within(t, c[m..], at + m, end)
    ensures Within(t, c, at, end)
  {
    hide Class;
    var k := t.start - (at + m);
    assert c[m..][k..k + |t.text|] == c[m + k..m + k + |t.text|];
  }

  lemma AllInOrder(first: Taking, rest: seq<Taking>, c: seq<char>, at: nat, m: nat, end: nat)
    requires at <= end <= at + |c| && Within(first, c, at, end) && first.end == at + m
    requires m <= |c| && InOrder(rest, c[m..], at + m, end)
    ensures InOrder([first] + rest, c, at, end)
  {
    forall i | 0 <= i < |rest| ensures Within(rest[i], c, at, end) { StillWithin(rest[i], c, at, m, end); }
    var all := [first] + rest;
    forall i, j | 0 <= i < j < |all| ensures all[i].end <= all[j].start {
      assert Within(rest[j - 1], c[m..], at + m, end);
    }
  }

  /* ------------------------------------------------------------------ the loop itself */

  /** The bytes the vectors point at. */
  method Collect(a: array<char>, l: IovList) returns (text: seq<char>)
    requires l.count > 0 && IovInside(l, a.Length)
    ensures text == Gather(a[..], l)
  {
    text := a[l.v0.start..l.v0.start + l.v0.len];
    assert text == a[..][l.v0.start..l.v0.start + l.v0.len];
    if l.count == 2 {
      assert a[l.v1.start..l.v1.start + l.v1.len] == a[..][l.v1.start..l.v1.start + l.v1.len];
      text := text + a[l.v1.start..l.v1.start + l.v1.len];
    }
  }

  /** The whole is what is done so far and what the rest of the bytes gives. */
  ghost predicate Resumes(all: Drained, done: seq<Taking>, rest: Drained) {
    all == rest.(takings := done + rest.takings)
  }

  lemma ResumesStart(all: Drained)
    ensures Resumes(all, [], all)
  {
  }

  lemma Prepend(done: seq<Taking>, t: Taking, rest: seq<Taking>)
    ensures done + ([t] + rest) == done + [t] + rest
  {
  }

  lemma ResumesNext(all: Drained, done: seq<Taking>, line: bool, c: seq<char>, at: nat, h: nat, size: nat,
                    beyond: seq<char>)
    requires |beyond| >= 7 && |c| <= size && Resumes(all, done, Drain(line, c, at, h, size, beyond))
    ensures var f := Next(line, c, h, size, beyond);
      if f.frame == 0 then all == Drained(done, f.line, at + f.dropped, f.h)
      else Resumes(all, done + [Front(c, f, at)], Later(c, f, at, size, beyond))
  {
    hide Next, Front, Later;
    var f := Next(line, c, h, size, beyond);
    if f.frame > 0 {
      Prepend(done, Front(c, f, at), Later(c, f, at, size, beyond).takings);
    }
  }

  /** The ring after a turn that found a reply in what was c. */
  ghost predicate TookFront(rb: RingBuffer, c: seq<char>, f: Framed, text: seq<char>, res: Reply)
    requires rb.Valid() && f.dropped + f.frame <= |c| <= rb.size
    reads rb, rb.buffer
  {
    var r := c[f.dropped..];
    && f.frame > 0 && text == r[..f.frame] && res == Class(r)
    && rb.Contents() == r[Removed(r, f.frame)..] && rb.used < |c|
    && rb.size - rb.read == HeadAfter(rb.size, |r|, f.h, Removed(r, f.frame))
  }

  /** One turn: at_read_result_iov, and at_read_result_classification when it found a reply. The classifier moves
      the ring past the reply before its text is looked at; the bytes are still there. */
  method TakeOne(rb: RingBuffer, line: bool, beyond: seq<char>)
    returns (found: bool, text: seq<char>, res: Reply, lineAfter: bool)
    requires rb.Valid() && |beyond| >= 7
    modifies rb`read, rb`write, rb`used
    ensures rb.Valid()
    ensures var c := old(rb.Contents());
      var f := Next(line, c, old(rb.size - rb.read), rb.size, beyond);
      && lineAfter == f.line
      && (!found ==> f.frame == 0 && rb.Contents() == c[f.dropped..] && rb.size - rb.read == f.h)
      && (found ==> TookFront(rb, c, f, text, res))
  {
    hide Next, Class, Taken, HeadAfter, Gather, Result, Describes, TookFront;
    ghost var c, h := rb.Contents(), rb.size - rb.read;
    ghost var f := Next(line, c, h, rb.size, beyond);
    text, res := [], RES_UNKNOWN;
    var l;
    l, lineAfter := ReadResult(rb, line, beyond);
    ResultIs(rb, c, f, lineAfter, l);
    found := l.count > 0;
    if found {
      text, res := ClassifyFront(rb, l, c, f);
    }
  }

  method ClassifyFront(rb: RingBuffer, l: IovList, ghost c: seq<char>, ghost f: Framed)
    returns (text: seq<char>, res: Reply)
    requires rb.Valid() && f.dropped + f.frame <= |c| <= rb.size && rb.Contents() == c[f.dropped..]
    requires rb.size - rb.read == f.h && l.count > 0 && f.frame > 0 && Describes(rb, l, f.frame)
    modifies rb`read, rb`write, rb`used
    ensures rb.Valid() && TookFront(rb, c, f, text, res)
  {
    hide Class, Taken, HeadAfter, Gather, Describes, TookFront;
    DescribesIs(rb, l, f.frame);
    text := Collect(rb.buffer, l);
    ghost var r, used, h := rb.Contents(), rb.used, rb.size - rb.read;
    var len := l.v0.len + l.v1.len;
    res := Classify(rb, len);
    ghost var rest := rb.Contents();
    assert rest == r[Min(Taken(res, len), used)..];
    TookFrontIs(rb, c, f, text, res, r, len, used, h, rest);
  }

  lemma ResultIs(rb: RingBuffer, was: seq<char>, f: Framed, line: bool, l: IovList)
    requires rb.Valid() && Result(rb, was, f, line, l)
    ensures f.dropped <= |was| && rb.Contents() == was[f.dropped..] && line == f.line && rb.size - rb.read == f.h
    ensures Describes(rb, l, f.frame) && (l.count > 0 <==> f.frame > 0)
  {
  }

  lemma DescribesIs(rb: RingBuffer, l: IovList, frame: nat)
    requires rb.Valid() && Describes(rb, l, frame) && l.count > 0
    ensures IovInside(l, rb.size) && l.v0.len + l.v1.len == frame <= rb.used
    ensures Gather(rb.buffer[..], l) == rb.Contents()[..frame]
  {
  }

  lemma TookFrontIs(rb: RingBuffer, c: seq<char>, f: Framed, text: seq<char>, res: Reply, r: seq<char>, len: nat,
                    used: nat, h: nat, rest: seq<char>)
    requires rb.Valid() && f.dropped + f.frame <= |c| <= rb.size && f.frame > 0 && r == c[f.dropped..]
    requires len == f.frame && used == |r| && h == f.h
    requires text == r[..f.frame] && res == Class(r)
    requires rest == rb.Contents() && rest == r[Min(Taken(res, len), used)..]
    requires rb.size - rb.read == HeadAfter(rb.size, used, h, Min(Taken(res, len), used))
    ensures TookFront(rb, c, f, text, res)
  {
    hide Class, Taken, HeadAfter;
    assert Removed(r, f.frame) > 0;
  }

  /** now is the end of c. */
  ghost predicate IsRest(now: seq<char>, c: seq<char>) {
    |now| <= |c| && now == c[|c| - |now|..]
  }

  lemma RestOfRest(now: seq<char>, was: seq<char>, c: seq<char>)
    requires IsRest(now, was) && IsRest(was, c)
    ensures IsRest(now, c)
  {
  }

  lemma WholeIsRest(c: seq<char>)
    ensures IsRest(c, c)
  {
  }

  /** The loop is under way, or has ended. */
  ghost predicate Going(all: Drained, done: seq<Taking>, line: bool, c: seq<char>, pos: nat, h: nat, size: nat,
                        beyond: seq<char>, more: bool)
    requires |beyond| >= 7 && |c| <= size
  {
    if more then Resumes(all, done, Drain(line, c, pos, h, size, beyond)) else all == Drained(done, line, pos, h)
  }

  lemma Starts(all: Drained, line: bool, c: seq<char>, pos: nat, h: nat, size: nat, beyond: seq<char>)
    requires |beyond| >= 7 && |c| <= size && all == Drain(line, c, pos, h, size, beyond)
    ensures Going(all, [], line, c, pos, h, size, beyond, true) && Replies([]) == []
  {
    hide Drain;
    ResumesStart(all);
  }

  /** One turn of the loop, seen from outside. */
  lemma Turn(rb: RingBuffer, all: Drained, done: seq<Taking>, line: bool, was: seq<char>, pos: nat, h: nat,
             beyond: seq<char>, found: bool, text: seq<char>, res: Reply)
    requires rb.Valid() && |beyond| >= 7 && |was| <= rb.size
    requires Going(all, done, line, was, pos, h, rb.size, beyond, true)
    requires var f := Next(line, was, h, rb.size, beyond);
      if found then TookFront(rb, was, f, text, res)
      else f.frame == 0 && rb.Contents() == was[f.dropped..] && rb.size - rb.read == f.h
    ensures var f := Next(line, was, h, rb.size, beyond);
      && rb.used <= |was| && IsRest(rb.Contents(), was) && (found ==> rb.used < |was|)
      && Going(all, if found then done + [Front(was, f, pos)] else done, f.line, rb.Contents(),
               pos + (|was| - rb.used), rb.size - rb.read, rb.size, beyond, found)
      && (found ==> Replies(done + [Front(was, f, pos)]) == Replies(done) + [(text, res)])
  {
    hide Next, Class, Removed, HeadAfter, Drain, Resumes, Replies;
    var f := Next(line, was, h, rb.size, beyond);
    ResumesNext(all, done, line, was, pos, h, rb.size, beyond);
    if found {
      RepliesOneMore(done, Front(was, f, pos));
    }
  }

  /** The loop around at_read_result_iov and at_read_result_classification. Both find what they take whole, so the
      loop ends, with a ring that holds no complete reply. */
  method TakeReplies(rb: RingBuffer, line: bool, ghost at: nat, beyond: seq<char>)
    returns (replies: seq<(seq<char>, Reply)>, lineAfter: bool, ghost all: Drained)
    requires rb.Valid() && |beyond| >= 7
    modifies rb`read, rb`write, rb`used
    ensures rb.Valid()
    ensures all == Drain(line, old(rb.Contents()), at, old(rb.size - rb.read), rb.size, beyond)
    ensures replies == Replies(all.takings) && lineAfter == all.line
    ensures rb.size - rb.read == all.h && at <= all.at == at + (old(rb.used) - rb.used)
    ensures IsRest(rb.Contents(), old(rb.Contents()))
  {
    hide Next, Class, Removed, HeadAfter, Drain, Resumes, Replies, Going, TookFront, Front, IsRest;
    replies, lineAfter := [], line;
    ghost var c := rb.Contents();
    all := Drain(line, c, at, rb.size - rb.read, rb.size, beyond);
    ghost var done: seq<Taking> := [];
    WholeIsRest(c);
    Starts(all, line, c, at, rb.size - rb.read, rb.size, beyond);
    var more := true;
    while more
      invariant rb.Valid() && rb.used <= |c| && IsRest(rb.Contents(), c)
      invariant Going(all, done, lineAfter, rb.Contents(), at + (|c| - rb.used), rb.size - rb.read, rb.size, beyond,
                      more)
      invariant replies == Replies(done)
      decreases more, rb.used
    {
      ghost var was, pos, h, line1 := rb.Contents(), at + (|c| - rb.used), rb.size - rb.read, lineAfter;
      var text, res;
      more, text, res, lineAfter := TakeOne(rb, lineAfter, beyond);
      Turn(rb, all, done, line1, was, pos, h, beyond, more, text, res);
      RestOfRest(rb.Contents(), was, c);
      if more {
        replies := replies + [(text, res)];
        done := done + [Front(was, Next(line1, was, h, rb.size, beyond), pos)];
      }
    }
    Ended(all, done, lineAfter, rb.Contents(), at + (|c| - rb.used), rb.size - rb.read, rb.size, beyond);
  }

  lemma Ended(all: Drained, done: seq<Taking>, line: bool, c: seq<char>, pos: nat, h: nat, size: nat, beyond: seq<char>)
    requires |beyond| >= 7 && |c| <= size && Going(all, done, line, c, pos, h, size, beyond, false)
    ensures all == Drained(done, line, pos, h)
  {
  }

  lemma RepliesOneMore(done: seq<Taking>, t: Taking)
    ensures Replies(done + [t]) == Replies(done) + [(t.text, t.res)]
  {
  }
}
