/** What becomes of a reply whose empty line was taken for a reply: none of its bytes is ever reported. */
module AtEmptyLines {
  import opened RingBuffer
  import opened AtRead
  import opened AtResponses
  import opened AtIds
  import opened AtMonitor
  import opened AtStream
  import opened AtStands
  import opened AtChunks

  /** All replies of the run start at this position of the stream or later. */
  ghost predicate StartFrom(takings: seq<Taking>, at: nat) {
    forall i :: 0 <= i < |takings| ==> takings[i].start >= at
  }

  lemma InOrderStarts(takings: seq<Taking>, c: seq<char>, at: nat, end: nat)
    requires InOrder(takings, c, at, end)
    ensures StartFrom(takings, at)
  {
  }

  lemma BothStart(a: seq<Taking>, b: seq<Taking>, at: nat)
    requires StartFrom(a, at) && StartFrom(b, at)
    ensures StartFrom(a + b, at)
  {
  }

  lemma NoneStart(at: nat)
    ensures StartFrom([], at)
  {
  }

  lemma StartsEarlier(takings: seq<Taking>, at: nat, sooner: nat)
    requires StartFrom(takings, at) && sooner <= at
    ensures StartFrom(takings, sooner)
  {
  }

  lemma {:induction false} FeedStarts(line: bool, c: seq<char>, at: nat, h: nat, chunks: seq<seq<char>>, size: nat,
                                      beyond: seq<char>)
    requires |beyond| >= 7 && |c| <= size && Fits(line, c, at, h, chunks, size, beyond)
    ensures StartFrom(Feed(line, c, at, h, chunks, size, beyond).takings, at)
    decreases |chunks|
  {
    hide Drain, StartFrom, InOrder;
    if chunks != [] && |c| < size {
      var now := c + chunks[0];
      var d := Drain(line, now, at, h, size, beyond);
      var later := Feed(d.line, now[d.at - at..], d.at, d.h, chunks[1..], size, beyond).takings;
      DrainInOrder(line, now, at, h, size, beyond);
      InOrderStarts(d.takings, now, at, d.at);
      FeedStarts(d.line, now[d.at - at..], d.at, d.h, chunks[1..], size, beyond);
      StartsEarlier(later, d.at, at);
      BothStart(d.takings, later, at);
    } else {
      NoneStart(at);
    }
  }

  /** Between replies, bytes up to a line end that does not start them are dropped. */
  lemma DrainSkips(q: seq<char>, c: seq<char>, future: seq<char>, rest: seq<char>, at: nat, h: nat, size: nat,
                   beyond: seq<char>)
    requires |beyond| >= 7 && |c| <= size && c + future == q + LINE_END + rest && '\r' !in q && '\n' !in q
    ensures var d := Drain(false, c, at, h, size, beyond);
      && StartFrom(d.takings, at + |q|)
      && (d.at < at + |q| ==> !d.line && d.takings == [])
  {
    hide Drain, Next, InOrder, HeadAfter, UpTo;
    var d := Drain(false, c, at, h, size, beyond);
    if q == [] {
      DrainInOrder(false, c, at, h, size, beyond);
      InOrderStarts(d.takings, c, at, d.at);
    } else if |c| < 2 {
      WaitsBetween(c, at, h, size, beyond);
    } else {
      assert forall k :: 0 <= k < |c| && k <= |q| ==> c[k] == (c + future)[k] == (q + LINE_END + rest)[k];
      assert c[0] == q[0] && q[0] in q;
      var m := if |c| <= |q| then |c| else |q| + 1;
      UpToHere(c, q, m);
      DropsBetween(c, h, size, beyond, m);
      DrainDrops(false, c, at, h, size, beyond, m, false);
      var h1 := HeadAfter(size, |c|, h, m);
      DrainInOrder(false, c[m..], at + m, h1, size, beyond);
      InOrderStarts(d.takings, c[m..], at + m, d.at);
      if |c| <= |q| { WaitsBetween(c[m..], at + m, h1, size, beyond); }
    }
  }

  lemma UpToHere(c: seq<char>, q: seq<char>, m: nat)
    requires '\r' !in q && forall k :: 0 <= k < |c| && k < |q| ==> c[k] == q[k]
    requires if |c| <= |q| then m == |c| else m == |q| + 1 && c[|q|] == '\r'
    ensures UpTo(c, '\r') == m
  {
    if |c| <= |q| {
      UpToAll(c, '\r');
    } else {
      assert FirstByte(c, '\r', |q|);
      UpToIs(c, '\r', |q|);
    }
  }

  lemma WaitsBetween(c: seq<char>, at: nat, h: nat, size: nat, beyond: seq<char>)
    requires |beyond| >= 7 && |c| <= size && |c| < 2
    ensures Drain(false, c, at, h, size, beyond) == Drained([], false, at, h)
  {
  }

  lemma DropsBetween(c: seq<char>, h: nat, size: nat, beyond: seq<char>, m: nat)
    requires |beyond| >= 7 && 2 <= |c| <= size && c[0] != '\r' && c[0] != '\n' && UpTo(c, '\r') == m
    ensures m > 0 && Next(false, c, h, size, beyond) == Dropping(m, false, c, h, size, beyond)
  {
    hide Dropping, UpTo;
  }

  /** A line without a line end in front of it is no reply: it is dropped, and what follows is in step. */
  lemma NoiseIsSkipped(q: seq<char>, c: seq<char>, at: nat, h: nat, size: nat, beyond: seq<char>)
    requires |beyond| >= 7 && q != [] && '\r' !in q && '\n' !in q && c != [] && |q| + 2 + |c| <= size
    ensures var m, all := |q| + 1, q + LINE_END + c;
      var h1 := HeadAfter(size, |all|, h, m);
      Drain(false, all, at, h, size, beyond)
      == Drain(false, c, at + m + 1, HeadAfter(size, |c| + 1, h1, 1), size, beyond)
  {
    hide Drain, Next, HeadAfter, UpTo;
    var m, all := |q| + 1, q + LINE_END + c;
    var h1 := HeadAfter(size, |all|, h, m);
    assert all[0] == q[0] && q[0] in q && all[|q|] == '\r' && all[m..] == "\n" + c;
    UpToHere(all, q, m);
    DropsBetween(all, h, size, beyond, m);
    DrainDrops(false, all, at, h, size, beyond, m, false);
    NewlineGoes("\n" + c, h1, size, beyond);
    assert ("\n" + c)[1..] == c;
    DrainDrops(false, "\n" + c, at + m, h1, size, beyond, 1, false);
  }

  lemma NewlineGoes(c: seq<char>, h: nat, size: nat, beyond: seq<char>)
    requires |beyond| >= 7 && 2 <= |c| <= size && c[0] == '\n'
    ensures Next(false, c, h, size, beyond) == Dropping(1, false, c, h, size, beyond)
  {
    hide Dropping, UpTo;
  }

  lemma {:induction false} FeedSkips(q: seq<char>, c: seq<char>, rest: seq<char>, at: nat, h: nat,
                                     chunks: seq<seq<char>>, size: nat, beyond: seq<char>)
    requires |beyond| >= 7 && |c| <= size && Fits(false, c, at, h, chunks, size, beyond)
    requires c + Joined(chunks) == q + LINE_END + rest && '\r' !in q && '\n' !in q
    ensures StartFrom(Feed(false, c, at, h, chunks, size, beyond).takings, at + |q|)
    decreases |chunks|
  {
    hide Drain, StartFrom;
    if chunks != [] && |c| < size {
      var now, future := c + chunks[0], Joined(chunks[1..]);
      assert c + (chunks[0] + future) == now + future;
      DrainSkips(q, now, future, rest, at, h, size, beyond);
      var d := Drain(false, now, at, h, size, beyond);
      var m, left := d.at - at, now[d.at - at..];
      if m < |q| {
        LessToSkip(q, now, future, rest, m);
        FeedSkips(q[m..], left, rest, d.at, d.h, chunks[1..], size, beyond);
      } else {
        FeedStarts(d.line, left, d.at, d.h, chunks[1..], size, beyond);
        StartsEarlier(Feed(d.line, left, d.at, d.h, chunks[1..], size, beyond).takings, d.at, at + |q|);
      }
      BothStart(d.takings, Feed(d.line, left, d.at, d.h, chunks[1..], size, beyond).takings, at + |q|);
    } else {
      NoneStart(at + |q|);
    }
  }

  lemma LessToSkip(q: seq<char>, c: seq<char>, future: seq<char>, rest: seq<char>, m: nat)
    requires c + future == q + LINE_END + rest && m <= |q| && m <= |c|
    ensures c[m..] + future == q[m..] + LINE_END + rest
    ensures forall x :: x !in q ==> x !in q[m..]
  {
    assert c[m..] + future == (c + future)[m..];
    assert (q + LINE_END + rest)[m..] == q[m..] + LINE_END + rest;
  }

  /** When a read ends behind the empty line but before the end of the identifier behind it, the empty line is reported
      as a reply of one character, and whatever is read later, no reply ever starts among the bytes of the line behind
      it. */
  lemma LineIsLost(text: seq<char>, c: seq<char>, rest: seq<char>, at: nat, h: nat, chunks: seq<seq<char>>, size: nat,
                   beyond: seq<char>, d: Drained, left: seq<char>)
    requires |beyond| >= 7 && |c| <= size && WellFormed(Spaced(text)) && 2 <= |c| < 2 + SkipLength(text)
    requires c + Joined(chunks) == Tail(Spaced(text)) + rest
    requires d == Drain(true, c, at, h, size, beyond) && left == c[d.at - at..]
    requires Fits(d.line, left, d.at, d.h, chunks, size, beyond)
    ensures |d.takings| == 1 && d.takings[0].start == at && d.takings[0].text == "\r"
    ensures StartFrom(Feed(d.line, left, d.at, d.h, chunks, size, beyond).takings, at + 2 + |text|)
  {
    hide Drain, WellFormed, SkipLength, Fits, Feed, StartFrom, Tail, Joined;
    var m := EmptyLineFirst(text, c, Joined(chunks), rest, at, h, size, beyond, d, left);
    NoBreakInside(text);
    FeedSkips(text[m..], left, rest, d.at, d.h, chunks, size, beyond);
  }

  /** The read in which that happens leaves a later part of the line to come. */
  lemma EmptyLineFirst(text: seq<char>, c: seq<char>, future: seq<char>, rest: seq<char>, at: nat, h: nat, size: nat,
                       beyond: seq<char>, d: Drained, left: seq<char>) returns (m: nat)
    requires |beyond| >= 7 && |c| <= size && WellFormed(Spaced(text)) && 2 <= |c| < 2 + SkipLength(text)
    requires c + future == Tail(Spaced(text)) + rest
    requires d == Drain(true, c, at, h, size, beyond) && left == c[d.at - at..]
    ensures |d.takings| == 1 && d.takings[0].start == at && d.takings[0].text == "\r"
    ensures m <= |text| && d.at == at + 2 + m && !d.line && left + future == text[m..] + LINE_END + rest
  {
    hide Drain, WellFormed, SkipLength, Next, HeadAfter;
    EmptyLineRead(text, c, future, rest, h, size, beyond);
    SkipsWhenSeen(text, c, future, rest);
    EmptyLineTaken(c, at, h, size, beyond);
    SpacedIsLine(text);
    var p, h1 := c[2..], HeadAfter(size, |c|, h, 2);
    NoReplyYet(text, p, future, rest, at + 2, h1, size, beyond);
    m := d.at - (at + 2);
    LessToSkip(text, p, future, rest, m);
    assert p[m..] == left;
  }

  /** Part of the line makes no reply between replies. */
  lemma NoReplyYet(q: seq<char>, c: seq<char>, future: seq<char>, rest: seq<char>, at: nat, h: nat, size: nat,
                   beyond: seq<char>)
    requires |beyond| >= 7 && |c| <= size && c + future == q + LINE_END + rest && |c| < |q|
    requires WellFormed(Spaced(q))
    ensures var d := Drain(false, c, at, h, size, beyond);
      d.takings == [] && !d.line && at <= d.at <= at + |c|
  {
    hide Drain, WellFormed, StartFrom;
    NoBreakInside(q);
    DrainSkips(q, c, future, rest, at, h, size, beyond);
    DrainEnds(c, at, h, size, beyond);
  }

  lemma DrainEnds(c: seq<char>, at: nat, h: nat, size: nat, beyond: seq<char>)
    requires |beyond| >= 7 && |c| <= size
    ensures at <= Drain(false, c, at, h, size, beyond).at <= at + |c|
  {
  }

  lemma NoBreakInside(text: seq<char>)
    requires WellFormed(Spaced(text))
    ensures '\r' !in text && '\n' !in text
    ensures forall m :: 0 <= m <= |text| ==> '\r' !in text[m..] && '\n' !in text[m..]
  {
  }

  lemma EmptyLineTaken(c: seq<char>, at: nat, h: nat, size: nat, beyond: seq<char>)
    requires |beyond| >= 7 && 2 <= |c| <= size && c[0] == '\r'
    requires Next(true, c, h, size, beyond) == Framed(false, 0, h, 1)
    ensures var d, later := Drain(true, c, at, h, size, beyond),
                            Drain(false, c[2..], at + 2, HeadAfter(size, |c|, h, 2), size, beyond);
      && d.line == later.line && d.at == later.at && d.h == later.h
      && |d.takings| == 1 + |later.takings| && d.takings[0].start == at && d.takings[0].text == "\r"
  {
    hide Next, Class, Taken, HeadAfter;
    OrdinaryTaken(c, 1);
    assert c[0..] == c && c[..1] == "\r";
  }

  /* ------------------------------------------------------------------ one such line */

  /** An empty line in front of a reply. */
  const EMPTY_LINE := "\r\n\r\n"
  const CSSU_LINE := "+CSSU: 1\r\n"

  lemma BetweenAtLineEnd(c: seq<char>, h: nat, size: nat, beyond: seq<char>)
    requires |beyond| >= 7 && 2 <= |c| <= size && c[0] == '\r' && c[1] == '\n'
    ensures Next(false, c, h, size, beyond) == Dropping(2, true, c, h, size, beyond)
  {
    hide Dropping;
  }

  lemma InsideAtEmptyLine(c: seq<char>, h: nat, size: nat, beyond: seq<char>)
    requires |beyond| >= 7 && 8 <= |c| <= size && c[..8] == "\r\n+CSSU:"
    ensures Next(true, c, h, size, beyond) == Dropping(2, true, c, h, size, beyond)
  {
    hide Dropping;
    assert c[0] == '\r' && "\r\n+CSSU:" <= c;
  }

  /** Read in one piece, the empty line is skipped and the reply behind it is reported. */
  lemma ReadWhole(h: nat, size: nat, beyond: seq<char>)
    requires |beyond| >= 7 && size >= 14
    ensures var f := Next(false, EMPTY_LINE + CSSU_LINE, h, size, beyond);
      f.dropped == 4 && f.frame == 9 && (EMPTY_LINE + CSSU_LINE)[4..13] == "+CSSU: 1\r"
  {
    hide Stop, HeadAfter, Next, FirstAt;
    var c := EMPTY_LINE + CSSU_LINE;
    var c2 := c[2..];
    var h1 := HeadAfter(size, 14, h, 2);
    BetweenAtLineEnd(c, h, size, beyond);
    InsideAtEmptyLine(c2, h1, size, beyond);
    assert c2[2..] == CSSU_LINE;
    CssuEnd();
    LineEndFront(CSSU_LINE, HeadAfter(size, 12, h1, 2), beyond, 8);
    CssuIsOrdinary(HeadAfter(size, 12, h1, 2), size, beyond);
  }

  lemma CssuEnd()
    ensures FirstAt(CSSU_LINE, LINE_END, 8)
  {
    assert CSSU_LINE[8..10] == LINE_END;
    forall j | 0 <= j < 8 ensures !OccursAt(CSSU_LINE, LINE_END, j) {
      assert CSSU_LINE[j..j + 2][0] == CSSU_LINE[j];
    }
  }

  lemma CssuIsOrdinary(h: nat, size: nat, beyond: seq<char>)
    requires |beyond| >= 7 && size >= 14 && Stop(CSSU_LINE, LINE_END, beyond, h) == 8
    ensures Next(true, CSSU_LINE, h, size, beyond) == Framed(false, 0, h, 9)
  {
    hide Stop, Dropping;
    assert CSSU_LINE[0] == '+' && CSSU_LINE[2] == 'S' && CSSU_LINE[4] == 'U';
  }

  lemma LineEndInside(h: nat, size: nat, beyond: seq<char>)
    requires |beyond| >= 7 && size >= 14
    ensures Next(true, LINE_END, h, size, beyond) == Framed(false, 0, h, 1)
  {
    hide Stop, Dropping;
    assert OccursAt(LINE_END, LINE_END, 0);
    LineEndFront(LINE_END, h, beyond, 0);
    assert LINE_END[0] == '\r' && |LINE_END| == 2;
  }

  lemma LineEndTaken()
    ensures Removed(LINE_END, 1) == 2
  {
    hide Class, Taken;
    assert LINE_END[0] == '\r';
    OrdinaryTaken(LINE_END, 1);
  }

  lemma BetweenAtReply(h: nat, size: nat, beyond: seq<char>)
    requires |beyond| >= 7 && size >= 14
    ensures Next(false, CSSU_LINE, h, size, beyond) == Dropping(9, false, CSSU_LINE, h, size, beyond)
    ensures CSSU_LINE[9..] == "\n" && |CSSU_LINE| == 10
  {
    hide Dropping;
    assert FirstByte(CSSU_LINE, '\r', 8);
    UpToIs(CSSU_LINE, '\r', 8);
    assert CSSU_LINE[0] == '+';
  }

  lemma NewlineAlone(h: nat, size: nat, beyond: seq<char>)
    requires |beyond| >= 7 && size >= 14
    ensures Next(false, "\n", h, size, beyond) == Framed(false, 0, h, 0)
  {
  }

  /** Read in two pieces, the empty line is reported as a reply of one character and the reply behind it is thrown
      away. */
  lemma ReadInTwo(h: nat, size: nat, beyond: seq<char>)
    requires |beyond| >= 7 && size >= 14
    ensures var f := Next(false, EMPTY_LINE, h, size, beyond);
      f.dropped == 2 && f.frame == 1 && !f.line && Removed(EMPTY_LINE[2..], 1) == 2
    ensures var g := Next(false, CSSU_LINE, h, size, beyond);
      g.dropped == |CSSU_LINE| - 1 && g.frame == 0 && !g.line
  {
    hide Stop, HeadAfter, Class, Next, Removed;
    assert EMPTY_LINE[2..] == LINE_END;
    BetweenAtLineEnd(EMPTY_LINE, h, size, beyond);
    LineEndInside(HeadAfter(size, 4, h, 2), size, beyond);
    LineEndTaken();
    BetweenAtReply(h, size, beyond);
    NewlineAlone(HeadAfter(size, 10, h, 9), size, beyond);
  }
}
