/** at_read.c: cutting the bytes a modem sends into replies. The framer works on the ring in place; what it
    decides is a function of the bytes waiting, of its one bit of state, and of how many of the bytes lie before
    the end of the buffer, which matters to the search for the end of a multi-line reply. */
module AtRead {
  import opened Samples
  import opened RingBuffer
  import opened RingSearch

  /** Where a framing step leaves things: the state, the bytes dropped, the bytes now before the end of the buffer,
      and the length of the reply at the front; 0 when there is none yet. */
  datatype Framed = Framed(line: bool, dropped: nat, h: nat, frame: nat)

  /** How many bytes up to and with the first x; all of them when there is none. */
  function UpTo(c: seq<char>, x: char): (n: nat)
    ensures n <= |c| && (c != [] ==> n > 0)
  {
    if c == [] then 0 else if c[0] == x then 1 else 1 + UpTo(c[1..], x)
  }

  /** The first position not before j at which the search for p succeeds, or -1. */
  ghost function StopFrom(c: seq<char>, p: seq<char>, beyond: seq<char>, h: nat, j: nat): (k: int)
    requires |beyond| >= |p|
    ensures -1 <= k && (k >= 0 ==> k + |p| <= |c|)
    decreases |c| - j
  {
    if j + |p| > |c| then -1
    else if TestedMatch(c, p, beyond, h, j) then j
    else if j == |c| then -1
    else StopFrom(c, p, beyond, h, j + 1)
  }

  ghost function Stop(c: seq<char>, p: seq<char>, beyond: seq<char>, h: nat): int
    requires |beyond| >= |p|
  {
    StopFrom(c, p, beyond, h, 0)
  }

  const LINE_END := "\r\n"

  predicate AnnouncesCssi(c: seq<char>) { "+CSSI:" <= c }

  /** An empty line in front of one of these replies is skipped. */
  predicate EmptyLineBefore(c: seq<char>) {
    "\r\n+CSSU:" <= c || "\r\n+CMS ERROR:" <= c || "\r\n+CMGS:" <= c
  }

  predicate Prompts(c: seq<char>) { "> " <= c }

  /** Replies of several lines, which end with an OK. */
  predicate Multiline(c: seq<char>) {
    "+CMGR:" <= c || "+CNUM:" <= c || "ERROR+CNUM:" <= c || "+CLCC:" <= c
  }

  /** What at_read_result_iov makes of the bytes c, h of them before the end of the buffer. */
  ghost function Next(line: bool, c: seq<char>, h: nat, size: nat, beyond: seq<char>): (f: Framed)
    requires |beyond| >= 7 && |c| <= size
    ensures f.dropped + f.frame <= |c|
    decreases |c|
  {
    if c == [] then Framed(line, 0, h, 0)
    else if !line then
      if LINE_END <= c then Dropping(2, true, c, h, size, beyond)
      else if |c| < 2 then Framed(false, 0, h, 0)
      else if "\n" <= c then Dropping(1, false, c, h, size, beyond)
      else Dropping(UpTo(c, '\r'), false, c, h, size, beyond)
    else if AnnouncesCssi(c) then
      if |c| < 8 then Framed(true, 0, h, 0) else Framed(false, 0, h, 8)
    else if EmptyLineBefore(c) then Dropping(2, true, c, h, size, beyond)
    else if Prompts(c) then Framed(false, 0, h, 2)
    else if Multiline(c) then
      var k := Stop(c, LAST_LINE, beyond, h);
      if k <= 0 then Framed(k < 0, 0, h, 0) else Framed(false, 0, h, k)
    else
      var k := Stop(c, LINE_END, beyond, h);
      if k < 0 then Framed(true, 0, h, 0) else Framed(false, 0, h, k + 1)
  }

  ghost function Dropping(n: nat, line: bool, c: seq<char>, h: nat, size: nat, beyond: seq<char>): (f: Framed)
    requires |beyond| >= 7 && 0 < n <= |c| <= size
    ensures f.dropped + f.frame <= |c|
    decreases |c|, 0
  {
    var f := Next(line, c[n..], HeadAfter(size, |c|, h, n), size, beyond);
    f.(dropped := n + f.dropped)
  }

  /* ------------------------------------------------------------------ the searches */

  lemma {:induction false} UpToIs(c: seq<char>, x: char, k: nat)
    requires FirstByte(c, x, k)
    ensures UpTo(c, x) == k + 1
    decreases k
  {
    if k > 0 {
      assert forall j :: 0 <= j < |c| - 1 ==> c[1..][j] == c[j + 1];
      UpToIs(c[1..], x, k - 1);
    }
  }

  lemma {:induction false} UpToAll(c: seq<char>, x: char)
    requires x !in c
    ensures UpTo(c, x) == |c|
  {
    if c != [] { UpToAll(c[1..], x); }
  }

  lemma {:induction false} StopIs(c: seq<char>, p: seq<char>, beyond: seq<char>, h: nat, j: nat, k: nat)
    requires |beyond| >= |p| && FirstTested(c, p, beyond, h, k) && j <= k
    ensures StopFrom(c, p, beyond, h, j) == k
    decreases k - j
  {
    hide TestedMatch;
    TestedInside(c, p, beyond, h, k);
    if j < k { StopIs(c, p, beyond, h, j + 1, k); }
  }

  lemma TestedInside(c: seq<char>, p: seq<char>, beyond: seq<char>, h: nat, k: int)
    requires |beyond| >= |p| && TestedMatch(c, p, beyond, h, k)
    ensures 0 <= k && k + |p| <= |c|
  {
  }

  lemma {:induction false} StopNever(c: seq<char>, p: seq<char>, beyond: seq<char>, h: nat, j: nat)
    requires |beyond| >= |p| && NeverTested(c, p, beyond, h)
    ensures StopFrom(c, p, beyond, h, j) == -1
    decreases |c| - j
  {
    hide TestedMatch;
    if j + |p| <= |c| && j < |c| { StopNever(c, p, beyond, h, j + 1); }
  }

  /** What the position found means. */
  lemma {:induction false} StopMeans(c: seq<char>, p: seq<char>, beyond: seq<char>, h: nat, j: nat)
    requires |beyond| >= |p| && NotBefore(c, p, beyond, h, j)
    ensures var k := StopFrom(c, p, beyond, h, j);
      if k >= 0 then FirstTested(c, p, beyond, h, k) else NeverTested(c, p, beyond, h)
    decreases |c| - j
  {
    hide TestedMatch;
    if j + |p| > |c| || (j == |c| && !TestedMatch(c, p, beyond, h, j)) {
      forall k ensures !TestedMatch(c, p, beyond, h, k) {
        if TestedMatch(c, p, beyond, h, k) { TestedInside(c, p, beyond, h, k); }
      }
    } else if !TestedMatch(c, p, beyond, h, j) {
      StopMeans(c, p, beyond, h, j + 1);
    }
  }

  /* ------------------------------------------------------------------ the framer */

  /** The vectors describe the frame bytes at the front of the ring, or there are none. */
  ghost predicate Describes(rb: RingBuffer, l: IovList, frame: nat)
    requires rb.Valid()
    reads rb, rb.buffer
  {
    && IovInside(l, rb.size)
    && (l.count > 0 <==> frame > 0)
    && (l.count > 0 ==> frame <= rb.used && Gather(rb.buffer[..], l) == rb.Contents()[..frame])
  }

  ghost predicate Result(rb: RingBuffer, was: seq<char>, f: Framed, line: bool, l: IovList)
    requires rb.Valid()
    reads rb, rb.buffer
  {
    && f.dropped <= |was| && rb.Contents() == was[f.dropped..]
    && line == f.line && rb.size - rb.read == f.h && Describes(rb, l, f.frame)
  }

  /** at_read_result_iov. The length of what waits is what makes it end. */
  method ReadResult(rb: RingBuffer, line: bool, beyond: seq<char>) returns (l: IovList, lineAfter: bool)
    requires rb.Valid() && |beyond| >= 7
    modifies rb`read, rb`write, rb`used
    ensures rb.Valid()
    ensures Result(rb, old(rb.Contents()),
                   Next(line, old(rb.Contents()), old(rb.size - rb.read), rb.size, beyond), lineAfter, l)
    decreases rb.used
  {
    hide Stop, UpTo, TestedMatch, Gather;
    l, lineAfter := NO_IOV, line;
    if rb.used == 0 {
      return;
    }
    if !line {
      l, lineAfter := ReadBetween(rb, beyond);
    } else {
      l, lineAfter := ReadLine(rb, beyond);
    }
  }

  /** rb_read_upd and the call that goes on from there. */
  method DropAndRead(rb: RingBuffer, n: nat, line: bool, beyond: seq<char>) returns (l: IovList, lineAfter: bool)
    requires rb.Valid() && |beyond| >= 7 && 0 < n <= rb.used
    modifies rb`read, rb`write, rb`used
    ensures rb.Valid()
    ensures Result(rb, old(rb.Contents()),
                   Dropping(n, line, old(rb.Contents()), old(rb.size - rb.read), rb.size, beyond), lineAfter, l)
    decreases rb.used, 0
  {
    hide Next, Result, RingBuffer.View, RingBuffer.Contents, Rotate, ViewOf;
    ghost var was, h := rb.Contents(), rb.size - rb.read;
    var dropped := rb.ReadUpd(n);
    ghost var h1 := HeadAfter(rb.size, |was|, h, n);
    assert rb.size - rb.read == h1 && rb.Contents() == was[n..];
    l, lineAfter := ReadResult(rb, line, beyond);
    ResultLater(rb, was, n, Next(line, was[n..], h1, rb.size, beyond), lineAfter, l);
  }

  lemma ResultLater(rb: RingBuffer, was: seq<char>, n: nat, f: Framed, line: bool, l: IovList)
    requires rb.Valid() && n <= |was| && Result(rb, was[n..], f, line, l)
    ensures Result(rb, was, f.(dropped := n + f.dropped), line, l)
  {
    assert was[n..][f.dropped..] == was[n + f.dropped..];
  }

  /** The end of a reply of several lines is never found at its very start. */
  lemma MultilineStop(rb: RingBuffer, l: IovList, beyond: seq<char>, was: seq<char>)
    requires rb.Valid() && |beyond| >= 7 && was == rb.Contents() && Multiline(was)
    requires l.count == 0 ==> NeverTested(was, LAST_LINE, beyond, rb.size - rb.read)
    requires l.count > 0 ==> rb.StopsAtMem(l, LAST_LINE, beyond)
    ensures var k := Stop(was, LAST_LINE, beyond, rb.size - rb.read);
      (l.count == 0 ==> k == -1) && (l.count > 0 ==> k > 0 && Describes(rb, l, k))
  {
    hide TestedMatch;
    var h := rb.size - rb.read;
    if l.count == 0 {
      StopNever(was, LAST_LINE, beyond, h, 0);
    } else {
      var k := |Gather(rb.buffer[..], l)|;
      StopIs(was, LAST_LINE, beyond, h, 0, k);
      if TestedMatch(was, LAST_LINE, beyond, h, 0) { MatchStarts(was, LAST_LINE, beyond, h, 0); }
    }
  }

  lemma LineStop(rb: RingBuffer, l: IovList, beyond: seq<char>, was: seq<char>)
    requires rb.Valid() && |beyond| >= 7 && was == rb.Contents()
    requires l.count == 0 ==> NeverTested(was, LINE_END, beyond, rb.size - rb.read)
    requires l.count > 0 ==> rb.StopsAtMem(l, LINE_END, beyond)
    ensures var k := Stop(was, LINE_END, beyond, rb.size - rb.read);
      (l.count == 0 ==> k == -1) && (l.count > 0 ==> k == l.v0.len + l.v1.len && k + 2 <= rb.used)
  {
    hide TestedMatch;
    var h := rb.size - rb.read;
    if l.count == 0 {
      StopNever(was, LINE_END, beyond, h, 0);
    } else {
      var k := |Gather(rb.buffer[..], l)|;
      StopIs(was, LINE_END, beyond, h, 0, k);
    }
  }

  /** Wherever the search succeeds, the first byte is the first of the pattern. */
  lemma MatchStarts(c: seq<char>, p: seq<char>, beyond: seq<char>, h: nat, j: nat)
    requires |beyond| >= |p| > 0 && TestedMatch(c, p, beyond, h, j)
    ensures j < |c| && c[j] == p[0]
  {
    if j + |p| <= h || h <= j {
      assert c[j..j + |p|][0] == c[j];
    } else {
      assert c[j..h][0] == c[j];
    }
  }

  /* The tests at the front of the ring. */

  method FrontIsCssi(rb: RingBuffer) returns (b: bool)
    requires rb.Valid()
    ensures b == AnnouncesCssi(rb.Contents())
  {
    var r := rb.Memcmp("+CSSI:");
    return r == 0;
  }

  method FrontIsEmptyLine(rb: RingBuffer) returns (b: bool)
    requires rb.Valid()
    ensures b == EmptyLineBefore(rb.Contents()) && (b ==> rb.used >= 2)
  {
    var cssu := rb.Memcmp("\r\n+CSSU:");
    var cmsError := rb.Memcmp("\r\n+CMS ERROR:");
    var cmgs := rb.Memcmp("\r\n+CMGS:");
    return cssu == 0 || cmsError == 0 || cmgs == 0;
  }

  method FrontIsPrompt(rb: RingBuffer) returns (b: bool)
    requires rb.Valid()
    ensures b == Prompts(rb.Contents()) && (b ==> rb.used >= 2)
  {
    var r := rb.Memcmp("> ");
    return r == 0;
  }

  method FrontIsMultiline(rb: RingBuffer) returns (b: bool)
    requires rb.Valid()
    ensures b == Multiline(rb.Contents())
  {
    var cmgr := rb.Memcmp("+CMGR:");
    var cnum := rb.Memcmp("+CNUM:");
    var errorCnum := rb.Memcmp("ERROR+CNUM:");
    var clcc := rb.Memcmp("+CLCC:");
    return cmgr == 0 || cnum == 0 || errorCnum == 0 || clcc == 0;
  }

  lemma Nothing(rb: RingBuffer, was: seq<char>, line: bool)
    requires rb.Valid() && rb.Contents() == was
    ensures Result(rb, was, Framed(line, 0, rb.size - rb.read, 0), line, NO_IOV)
  {
  }

  lemma Found(rb: RingBuffer, was: seq<char>, l: IovList, frame: nat)
    requires rb.Valid() && rb.Contents() == was && Describes(rb, l, frame)
    ensures Result(rb, was, Framed(false, 0, rb.size - rb.read, frame), false, l)
  {
  }

  /** Between replies: the first line end starts one, anything else is thrown away. */
  method ReadBetween(rb: RingBuffer, beyond: seq<char>) returns (l: IovList, line: bool)
    requires rb.Valid() && |beyond| >= 7 && rb.used > 0
    modifies rb`read, rb`write, rb`used
    ensures rb.Valid()
    ensures Result(rb, old(rb.Contents()),
                   Next(false, old(rb.Contents()), old(rb.size - rb.read), rb.size, beyond), line, l)
    decreases rb.used, 1
  {
    hide Dropping, Stop, UpTo, TestedMatch, Gather, Result, Describes;
    ghost var was := rb.Contents();
    l, line := NO_IOV, false;
    var res := rb.Memcmp(LINE_END);
    if res == 0 {
      l, line := DropAndRead(rb, 2, true, beyond);
    } else if res > 0 {
      var newline := rb.Memcmp("\n");
      if newline == 0 {
        l, line := DropAndRead(rb, 1, false, beyond);
      } else {
        var s := RestOfLine(rb);
        l, line := DropAndRead(rb, s, false, beyond);
      }
    } else {
      Nothing(rb, was, false);
    }
  }

  method RestOfLine(rb: RingBuffer) returns (s: nat)
    requires rb.Valid()
    ensures s == UpTo(rb.Contents(), '\r')
  {
    hide UpTo, Gather;
    s := rb.used;
    var upTo := rb.ReadUntilChar('\r');
    if upTo.count > 0 {
      s := upTo.v0.len + upTo.v1.len + 1;
      UpToIs(rb.Contents(), '\r', s - 1);
    } else {
      UpToAll(rb.Contents(), '\r');
    }
  }

  /** Inside a reply: what it starts with decides how its end is found. */
  method ReadLine(rb: RingBuffer, beyond: seq<char>) returns (l: IovList, line: bool)
    requires rb.Valid() && |beyond| >= 7 && rb.used > 0
    modifies rb`read, rb`write, rb`used
    ensures rb.Valid()
    ensures Result(rb, old(rb.Contents()),
                   Next(true, old(rb.Contents()), old(rb.size - rb.read), rb.size, beyond), line, l)
    decreases rb.used, 1
  {
    hide Dropping, Stop, UpTo, TestedMatch, Gather, Result, AnnouncesCssi, EmptyLineBefore, Prompts, Multiline;
    ghost var was := rb.Contents();
    l, line := NO_IOV, true;
    var cssi := FrontIsCssi(rb);
    if cssi {
      l := rb.ReadNIov(8);
      if l.count > 0 {
        line := false;
        Found(rb, was, l, 8);
      } else {
        l := NO_IOV;
        Nothing(rb, was, true);
      }
      return;
    }
    var empty := FrontIsEmptyLine(rb);
    if empty {
      l, line := DropAndRead(rb, 2, true, beyond);
      return;
    }
    var prompt := FrontIsPrompt(rb);
    if prompt {
      line := false;
      l := rb.ReadNIov(2);
      Found(rb, was, l, 2);
      return;
    }
    var several := FrontIsMultiline(rb);
    if several {
      l := rb.ReadUntilMem(LAST_LINE, beyond);
      MultilineStop(rb, l, beyond, was);
      if l.count > 0 {
        line := false;
        Found(rb, was, l, Stop(was, LAST_LINE, beyond, rb.size - rb.read));
      } else {
        l := NO_IOV;
        Nothing(rb, was, true);
      }
      return;
    }
    l := rb.ReadUntilMem(LINE_END, beyond);
    LineStop(rb, l, beyond, was);
    if l.count > 0 {
      line := false;
      l := rb.ReadNIov(l.v0.len + l.v1.len + 1);
      Found(rb, was, l, Stop(was, LINE_END, beyond, rb.size - rb.read) + 1);
    } else {
      l := NO_IOV;
      Nothing(rb, was, true);
    }
  }

  /* ------------------------------------------------------------------ at_read */

  /** readv into the vectors: the first is filled before the second. */
  method Readv(a: array<char>, l: IovList, data: seq<char>)
    requires l.count > 0 && IovInside(l, a.Length) && |data| <= l.v0.len + l.v1.len
    modifies a
    ensures var k := Min(|data|, l.v0.len);
      a[..] == if k == |data| then Splice(old(a[..]), l.v0.start, data)
               else Splice(Splice(old(a[..]), l.v0.start, data[..k]), l.v1.start, data[k..])
  {
    hide Splice;
    var k := Min(|data|, l.v0.len);
    assert k == |data| ==> data[..k] == data;
    CallWriteMethod(Memmove, a, l.v0.start, data[..k]);
    if k < |data| {
      CallWriteMethod(Memmove, a, l.v1.start, data[k..]);
    }
  }

  /** readv into the free vectors leaves the bytes behind the content. */
  method Fill(rb: RingBuffer, l: IovList, data: seq<char>)
    requires rb.Valid() && l.count > 0 && IovInside(l, rb.size) && |data| <= rb.size - rb.used
    requires l.v0.len + l.v1.len == rb.size - rb.used
    requires l.v0.start == rb.write && l.v0.len == Min(rb.size - rb.used, rb.size - rb.write) && l.v1.start == 0
    modifies rb.buffer
    ensures rb.View() == Overwritten(Memmove, old(rb.View()), rb.used, data, Min(|data|, rb.size - rb.write))
  {
    hide Splice, ViewOf, Overwritten;
    ghost var v, b := rb.View(), rb.buffer[..];
    Readv(rb.buffer, l, data);
    ghost var b1 := rb.buffer[..];
    PutBytesView(b, rb.read, rb.used, rb.write, Memmove, data, Min(|data|, rb.size - rb.write), v);
    assert b1 == PutBytes(b, rb.write, Memmove, data);
  }

  /** What readv does: it brings some of what waits at the port, is interrupted, or fails. */
  datatype Arrival = Arrived(bytes: seq<char>) | Interrupted | Failed

  /** at_read: as much of what waits as there is room for joins the content. */
  method Receive(rb: RingBuffer, arrival: Arrival) returns (n: int)
    requires rb.Valid()
    modifies rb`write, rb`used, rb.buffer
    ensures rb.Valid()
    ensures n == if old(rb.used) == rb.size || arrival.Failed? then -1
                 else if arrival.Interrupted? then 0
                 else Min(|arrival.bytes|, rb.size - old(rb.used))
    ensures rb.Contents() == old(rb.Contents()) + if n > 0 then arrival.bytes[..n] else []
  {
    hide RingBuffer.View, RingBuffer.Contents, ViewOf, Splice;
    assert rb.Contents() + [] == rb.Contents();
    var l := rb.WriteIov();
    if l.count == 0 {
      return -1;
    }
    match arrival
    case Failed => n := -1;
    case Interrupted => n := 0;
    case Arrived(bytes) =>
      n := Min(|bytes|, rb.size - rb.used);
      if n > 0 {
        TakeIn(rb, l, bytes[..n]);
      }
  }

  /** readv, and the rb_write_upd behind it. */
  method TakeIn(rb: RingBuffer, l: IovList, data: seq<char>)
    requires rb.Valid() && l.count > 0 && IovInside(l, rb.size) && |data| <= rb.size - rb.used
    requires Gather(rb.buffer[..], l) == rb.View()[rb.used..]
    requires l.v0.start == rb.write && l.v0.len == Min(rb.size - rb.used, rb.size - rb.write) && l.v1.start == 0
    modifies rb`write, rb`used, rb.buffer
    ensures rb.Valid() && rb.used == old(rb.used) + |data|
    ensures rb.Contents() == old(rb.Contents()) + data
  {
    hide Splice, ViewOf, Overwritten;
    ghost var v, used, cut := rb.View(), rb.used, Min(|data|, rb.size - rb.write);
    assert |v[used..]| == rb.size - used;
    Fill(rb, l, data);
    ghost var v1 := rb.View();
    MemmoveAppends(v, used, data, cut, v1);
    var taken := rb.WriteUpd(|data|);
    assert v1[..used + |data|] == v1[..used] + v1[used..used + |data|];
    assert v1[..used + |data|] == v[..used] + data;
  }
}
