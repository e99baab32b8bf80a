/** Where a stream of replies stands in the ring, told from lengths alone; and whether the monitor's loop keeps up
    with it. */
module AtStands {
  import opened RingBuffer
  import opened RingSearch
  import opened AtRead
  import opened AtResponses
  import opened AtMonitor
  import opened AtStream

  /** Between two tokens or inside the first of ts; n bytes of what is to come have arrived, and h bytes lie between
      the first of them and the end of the buffer. */
  datatype Stand = Stand(line: bool, ts: seq<Token>, n: nat, h: nat)

  /** The bytes c wait, and with those still to come they are what the stand says. */
  ghost predicate Holds(s: Stand, c: seq<char>, future: seq<char>) {
    (s.line ==> s.ts != []) && AllWellFormed(s.ts) && |c| == s.n && ToCome(s.line, s.ts) == c + future
  }

  predicate Moves(s: Stand) {
    s.ts != [] && s.n >= if s.line then Needs(s.ts[0]) else 2
  }

  /** What is to happen next: the line end in front of a token goes, the empty line goes, or the token is reported. */
  function Moved(s: Stand, size: nat): Stand
    requires Moves(s) && s.n <= size
  {
    if !s.line then Stand(true, s.ts, s.n - 2, HeadAfter(size, s.n, s.h, 2))
    else match s.ts[0]
      case Spaced(text) => Stand(true, [Line(text)] + s.ts[1..], s.n - 2, HeadAfter(size, s.n, s.h, 2))
      case t => Stand(false, s.ts[1..], s.n - |Tail(t)|, HeadAfter(size, s.n, s.h, |Tail(t)|))
  }

  /** What is to be reached with the bytes that have arrived. */
  function Advance(s: Stand, size: nat): Stand
    requires s.n <= size
    decreases |s.ts|, s.n
  {
    if Moves(s) then Advance(Moved(s, size), size) else s
  }

  /** The framer will not do that: only part of the identifier behind an empty line has arrived, or the search for the
      end of a message errs at the end of the buffer. */
  ghost predicate Trouble(s: Stand, beyond: seq<char>)
    requires |beyond| >= 7
  {
    s.line && s.ts != [] &&
    match s.ts[0]
    case Spaced(text) => 2 <= s.n < 2 + SkipLength(text)
    case Message(text) => Misled(text, s.n, s.h, beyond)
    case Listing(text) => Misled(text, s.n, s.h, beyond)
    case _ => false
  }

  /** No trouble on the way. */
  ghost predicate Calm(s: Stand, size: nat, beyond: seq<char>)
    requires |beyond| >= 7 && s.n <= size
    decreases |s.ts|, s.n
  {
    !Trouble(s, beyond) && (Moves(s) ==> Calm(Moved(s, size), size, beyond))
  }

  /* ------------------------------------------------------------------ the loop, one move at a time */

  /** Bytes dropped first make no difference to the loop. */
  lemma DrainDrops(line: bool, c: seq<char>, at: nat, h: nat, size: nat, beyond: seq<char>, n: nat, line1: bool)
    requires |beyond| >= 7 && 0 < n <= |c| <= size
    requires Next(line, c, h, size, beyond) == Dropping(n, line1, c, h, size, beyond)
    ensures Drain(line, c, at, h, size, beyond)
         == Drain(line1, c[n..], at + n, HeadAfter(size, |c|, h, n), size, beyond)
  {
    hide Next, Class, Removed, HeadAfter;
    var g := Next(line1, c[n..], HeadAfter(size, |c|, h, n), size, beyond);
    assert c[n..][g.dropped..] == c[n + g.dropped..];
  }

  lemma StartGoes(s: Stand, c: seq<char>, future: seq<char>, at: nat, size: nat, beyond: seq<char>)
    requires |beyond| >= 7 && |c| <= size && Holds(s, c, future) && !s.line && Moves(s)
    ensures var t := Moved(s, size);
      && Holds(t, c[2..], future)
      && Drain(false, c, at, s.h, size, beyond) == Drain(true, c[2..], at + 2, t.h, size, beyond)
  {
    hide Drain, Dropping, AllWellFormed, Tail, HeadAfter;
    StreamStarts(s.ts, c, future);
    DrainDrops(false, c, at, s.h, size, beyond, 2, true);
  }

  lemma StreamStarts(ts: seq<Token>, c: seq<char>, future: seq<char>)
    requires ts != [] && Stream(ts) == c + future && |c| >= 2
    ensures LINE_END <= c && ToCome(true, ts) == c[2..] + future
  {
    var rest := Tail(ts[0]) + Stream(ts[1..]);
    assert c[0] == (c + future)[0] && c[1] == (c + future)[1];
    RestBehind(c, future, LINE_END, rest);
  }

  lemma RestBehind(c: seq<char>, future: seq<char>, field: seq<char>, rest: seq<char>)
    requires c + future == field + rest && |field| <= |c|
    ensures rest == c[|field|..] + future
  {
    assert (c + future)[|field|..] == c[|field|..] + future;
    assert (field + rest)[|field|..] == rest;
  }

  /** A token with its empty line gone is a line, and is to be reported as the same. */
  lemma EmptyLineGoes(s: Stand, c: seq<char>, future: seq<char>, at: nat, size: nat, beyond: seq<char>)
    requires |beyond| >= 7 && |c| <= size && Holds(s, c, future) && s.line && s.ts[0].Spaced? && Moves(s)
    ensures var t := Moved(s, size);
      && Holds(t, c[2..], future) && RepliesOf(t.ts) == RepliesOf(s.ts)
      && Drain(true, c, at, s.h, size, beyond) == Drain(true, c[2..], at + 2, t.h, size, beyond)
  {
    hide Drain, Dropping, WellFormed, HeadAfter, SkipLength, Next, ReplyOf, RepliesOf;
    var text, rest := s.ts[0].text, Stream(s.ts[1..]);
    EmptyLineRead(text, c, future, rest, s.h, size, beyond);
    SkipsWhenSeen(text, c, future, rest);
    SpacedIsLine(text);
    DrainDrops(true, c, at, s.h, size, beyond, 2, true);
    var ts := [Line(text)] + s.ts[1..];
    assert ts[1..] == s.ts[1..];
    SameReplies(text, s.ts);
  }

  lemma SameReplies(text: seq<char>, ts: seq<Token>)
    requires ts != [] && ts[0] == Spaced(text)
    ensures RepliesOf([Line(text)] + ts[1..]) == RepliesOf(ts)
  {
    hide Class;
  }

  lemma Inside(t: Token, c: seq<char>, future: seq<char>, rest: seq<char>, h: nat, size: nat, beyond: seq<char>)
    requires |beyond| >= 7 && |c| <= size && WellFormed(t) && c + future == Tail(t) + rest && !t.Spaced?
    requires t.Listing? ==> LINE_END + ("OK" + LINE_END) <= rest
    requires Several(t) ==> !Misled(t.text, |c|, h, beyond)
    ensures Reports(Next(true, c, h, size, beyond), t, c, h)
  {
    hide Next, Reports, WellFormed, Misled;
    match t
    case Line(text) => InsideLine(text, c, future, rest, h, size, beyond);
    case Prompt => InsidePrompt(c, future, rest, h, size, beyond);
    case Cssi(text) => InsideCssi(text, c, future, rest, h, size, beyond);
    case Message(text) => InsideMessage(text, c, future, rest, h, size, beyond);
    case Listing(text) =>
      ListingStream(text, rest);
      InsideListing(text, c, future, rest[6..], h, size, beyond);
  }

  /** Behind a list its OK is to come. */
  lemma OkBehind(ts: seq<Token>)
    requires ts != [] && AllWellFormed(ts)
    ensures ts[0].Listing? ==> LINE_END + ("OK" + LINE_END) <= Stream(ts[1..])
  {
    hide WellFormed, Tail;
    if ts[0].Listing? {
      assert ts[1..][0] == Line("OK");
      TailOfOk();
      BothInFront(LINE_END, Tail(Line("OK")), Stream(ts[1..][1..]));
    }
  }

  lemma TailOfOk()
    ensures Tail(Line("OK")) == "OK" + LINE_END
  {
  }

  lemma BothInFront(a: seq<char>, b: seq<char>, c: seq<char>)
    ensures a + b <= a + (b + c)
  {
    assert a + (b + c) == a + b + c;
  }

  lemma NeedsTail(t: Token)
    ensures !t.Spaced? ==> |Tail(t)| <= Needs(t)
  {
  }

  lemma ReplyNotEmpty(t: Token)
    requires WellFormed(t)
    ensures |ReplyOf(t).0| > 0
  {
  }

  /** A token that has arrived whole is reported. */
  lemma TokenGoes(s: Stand, c: seq<char>, future: seq<char>, at: nat, size: nat, beyond: seq<char>)
    requires |beyond| >= 7 && |c| <= size && Holds(s, c, future) && s.line && !s.ts[0].Spaced? && Moves(s)
    requires !Trouble(s, beyond)
    ensures var t, m := Moved(s, size), |Tail(s.ts[0])|;
      var d, later := Drain(true, c, at, s.h, size, beyond), Drain(false, c[m..], at + m, t.h, size, beyond);
      && Holds(t, c[m..], future) && d.takings != []
      && (d.takings[0].text, d.takings[0].res) == ReplyOf(s.ts[0])
      && d == later.(takings := [d.takings[0]] + later.takings)
  {
    hide WellFormed, Misled, Next, Class, Tail, ReplyOf, Removed, HeadAfter;
    var t, rest := s.ts[0], Stream(s.ts[1..]);
    OkBehind(s.ts);
    NeedsTail(t);
    Inside(t, c, future, rest, s.h, size, beyond);
    ReplyNotEmpty(t);
    assert c[0..] == c && c[..|ReplyOf(t).0|] == ReplyOf(t).0;
    RestBehind(c, future, Tail(t), rest);
  }

  /** Nothing more can be taken, and nothing is. */
  lemma StaysPut(s: Stand, c: seq<char>, future: seq<char>, at: nat, size: nat, beyond: seq<char>)
    requires |beyond| >= 7 && |c| <= size && Holds(s, c, future) && !Moves(s) && !Trouble(s, beyond)
    ensures Drain(s.line, c, at, s.h, size, beyond) == Drained([], s.line, at, s.h)
  {
    hide WellFormed, Misled, Class, Tail, ReplyOf, Removed, HeadAfter, SkipLength, Stop;
    if !s.line {
      if s.ts == [] { assert c + future == []; }
    } else {
      var t, rest := s.ts[0], Stream(s.ts[1..]);
      OkBehind(s.ts);
      NothingYet(t, c, future, rest, s.h, size, beyond);
    }
  }

  lemma NothingYet(t: Token, c: seq<char>, future: seq<char>, rest: seq<char>, h: nat, size: nat, beyond: seq<char>)
    requires |beyond| >= 7 && |c| <= size && WellFormed(t) && c + future == Tail(t) + rest
    requires |c| < if t.Spaced? then 2 else Needs(t)
    requires t.Listing? ==> LINE_END + ("OK" + LINE_END) <= rest
    requires Several(t) ==> !Misled(t.text, |c|, h, beyond)
    ensures Next(true, c, h, size, beyond) == Framed(true, 0, h, 0)
  {
    hide Next, WellFormed, Misled, Class, Removed, ReplyOf;
    if t.Spaced? {
      EmptyLineRead(t.text, c, future, rest, h, size, beyond);
    } else {
      Inside(t, c, future, rest, h, size, beyond);
    }
  }

  /* ------------------------------------------------------------------ the loop as a whole */

  /** The loop has brought stand s to stand e. */
  ghost predicate Along(d: Drained, s: Stand, e: Stand, c: seq<char>, future: seq<char>, at: nat) {
    && at <= d.at <= at + |c| && d.line == e.line && d.h == e.h
    && Holds(e, c[d.at - at..], future)
    && Replies(d.takings) + RepliesOf(e.ts) == RepliesOf(s.ts)
  }

  /** Without trouble the loop reports token after token, as long as they have arrived. */
  lemma {:induction false} DrainAlong(s: Stand, c: seq<char>, future: seq<char>, at: nat, size: nat,
                                      beyond: seq<char>)
    requires |beyond| >= 7 && |c| <= size && Holds(s, c, future) && Calm(s, size, beyond)
    ensures Along(Drain(s.line, c, at, s.h, size, beyond), s, Advance(s, size), c, future, at)
    ensures !Moves(Advance(s, size))
    decreases |s.ts|, s.n
  {
    hide Drain, Trouble, Holds, Moved, Along, HeadAfter, Tail, ReplyOf;
    StandIs(s, c, future);
    if !Moves(s) {
      StaysPut(s, c, future, at, size, beyond);
      AlongAtOnce(s, c, future, at);
    } else if !s.line {
      StartGoes(s, c, future, at, size, beyond);
      MovedLess(s, size);
      DrainAlong(Moved(s, size), c[2..], future, at + 2, size, beyond);
      AlongLater(s, Moved(s, size), c, future, at, 2, Drain(s.line, c, at, s.h, size, beyond), Advance(s, size));
    } else if s.ts[0].Spaced? {
      EmptyLineGoes(s, c, future, at, size, beyond);
      MovedLess(s, size);
      DrainAlong(Moved(s, size), c[2..], future, at + 2, size, beyond);
      AlongLater(s, Moved(s, size), c, future, at, 2, Drain(s.line, c, at, s.h, size, beyond), Advance(s, size));
    } else {
      var m := |Tail(s.ts[0])|;
      TokenGoes(s, c, future, at, size, beyond);
      MovedLess(s, size);
      DrainAlong(Moved(s, size), c[m..], future, at + m, size, beyond);
      OneMore(s, Moved(s, size), c, future, at, m, Drain(s.line, c, at, s.h, size, beyond),
              Drain(false, c[m..], at + m, Moved(s, size).h, size, beyond), Advance(s, size));
    }
  }

  lemma StandIs(s: Stand, c: seq<char>, future: seq<char>)
    requires Holds(s, c, future)
    ensures |c| == s.n && (s.line ==> s.ts != [])
  {
  }

  lemma MovedLess(s: Stand, size: nat)
    requires Moves(s) && s.n <= size
    ensures var t := Moved(s, size);
      && t.n <= s.n && (|t.ts| < |s.ts| || (|t.ts| == |s.ts| && t.n < s.n))
      && t.line == (!s.line || s.ts[0].Spaced?)
      && (!s.line ==> t.ts == s.ts) && (s.line && !s.ts[0].Spaced? ==> t.ts == s.ts[1..])
  {
  }

  lemma AlongAtOnce(s: Stand, c: seq<char>, future: seq<char>, at: nat)
    requires Holds(s, c, future)
    ensures Along(Drained([], s.line, at, s.h), s, s, c, future, at)
  {
    hide Holds, Replies, RepliesOf;
    var none := Replies([]);
    NoneBefore(none, RepliesOf(s.ts));
    WholeRest(c);
  }

  lemma WholeRest(c: seq<char>)
    ensures c[0..] == c
  {
  }

  lemma NoneBefore(none: seq<(seq<char>, Reply)>, x: seq<(seq<char>, Reply)>)
    requires |none| == 0
    ensures none + x == x
  {
  }

  lemma AlongLater(s: Stand, t: Stand, c: seq<char>, future: seq<char>, at: nat, m: nat, d: Drained, e: Stand)
    requires m <= |c| && RepliesOf(t.ts) == RepliesOf(s.ts)
    requires Along(d, t, e, c[m..], future, at + m)
    ensures Along(d, s, e, c, future, at)
  {
    hide Holds, RepliesOf, Replies;
    assert c[m..][d.at - (at + m)..] == c[d.at - at..];
  }

  lemma OneMore(s: Stand, t: Stand, c: seq<char>, future: seq<char>, at: nat, m: nat, d: Drained, later: Drained,
                e: Stand)
    requires m <= |c| && s.ts != [] && d.takings != []
    requires (d.takings[0].text, d.takings[0].res) == ReplyOf(s.ts[0])
    requires d == later.(takings := [d.takings[0]] + later.takings)
    requires t.ts == s.ts[1..] && Along(later, t, e, c[m..], future, at + m)
    ensures Along(d, s, e, c, future, at)
  {
    hide Holds, ReplyOf, Replies, RepliesOf;
    assert c[m..][d.at - (at + m)..] == c[d.at - at..];
    RepliesJoin(d.takings[0], later.takings);
    RepliesOfFirst(s.ts);
  }

  lemma RepliesJoin(t: Taking, more: seq<Taking>)
    ensures Replies([t] + more) == [(t.text, t.res)] + Replies(more)
  {
  }

  lemma RepliesOfFirst(ts: seq<Token>)
    requires ts != []
    ensures RepliesOf(ts) == [ReplyOf(ts[0])] + RepliesOf(ts[1..])
  {
    hide ReplyOf;
  }

  /* ------------------------------------------------------------------ trouble */

  /** Some reply is not the one it should be. */
  ghost predicate Departs(r: seq<(seq<char>, Reply)>, x: seq<(seq<char>, Reply)>) {
    exists j :: 0 <= j < |r| && j < |x| && r[j] != x[j]
  }

  lemma WrongReply(d: Drained, ts: seq<Token>)
    requires d.takings != [] && ts != [] && |d.takings[0].text| != |ReplyOf(ts[0]).0|
    ensures Departs(Replies(d.takings), RepliesOf(ts))
  {
    hide ReplyOf;
    assert Replies(d.takings)[0].0 == d.takings[0].text && RepliesOf(ts)[0] == ReplyOf(ts[0]);
  }

  /** The first reply the loop takes when the framer finds one at once. */
  lemma TakesFirst(c: seq<char>, at: nat, h: nat, size: nat, beyond: seq<char>, frame: nat)
    requires |beyond| >= 7 && 0 < frame <= |c| <= size
    requires Next(true, c, h, size, beyond) == Framed(false, 0, h, frame)
    ensures var d := Drain(true, c, at, h, size, beyond);
      d.takings != [] && d.takings[0].start == at && d.takings[0].text == c[..frame]
  {
    hide Next, Class, Removed, HeadAfter;
    assert c[0..] == c;
  }

  /** In trouble the loop reports something else, or waits for the end of a message it will not see. */
  lemma TroubleShows(s: Stand, c: seq<char>, future: seq<char>, at: nat, size: nat, beyond: seq<char>)
    requires |beyond| >= 7 && |c| <= size && Holds(s, c, future) && Trouble(s, beyond)
    ensures var d := Drain(true, c, at, s.h, size, beyond);
      Departs(Replies(d.takings), RepliesOf(s.ts)) || (Several(s.ts[0]) && d == Drained([], true, at, s.h))
  {
    hide Drain, Next, Misled, WellFormed, SkipLength, Class, Departs;
    var rest := Stream(s.ts[1..]);
    match s.ts[0]
    case Spaced(text) =>
      EmptyLineRead(text, c, future, rest, s.h, size, beyond);
      TakesFirst(c, at, s.h, size, beyond, 1);
      SpacedIsLine(text);
      LineNotEmpty(text);
      WrongReply(Drain(true, c, at, s.h, size, beyond), s.ts);
    case Message(text) =>
      MisledReply(s.ts[0], c, future, rest, at, s.h, size, beyond);
      if Stop(c, LAST_LINE, beyond, s.h) >= 0 {
        WrongReply(Drain(true, c, at, s.h, size, beyond), s.ts);
      }
    case Listing(text) =>
      OkBehind(s.ts);
      ListingStream(text, rest);
      MisledReply(s.ts[0], c, future, rest[6..], at, s.h, size, beyond);
      if Stop(c, LAST_LINE, beyond, s.h) >= 0 {
        WrongReply(Drain(true, c, at, s.h, size, beyond), s.ts);
      }
  }

  lemma LineNotEmpty(text: seq<char>)
    requires WellFormed(Line(text))
    ensures |text| > 0
  {
  }

  lemma MisledReply(t: Token, c: seq<char>, future: seq<char>, rest: seq<char>, at: nat, h: nat, size: nat,
                    beyond: seq<char>)
    requires |beyond| >= 7 && |c| <= size && WellFormed(t) && Several(t) && Misled(t.text, |c|, h, beyond)
    requires c + future == t.text + LAST_LINE + rest
    ensures var d := Drain(true, c, at, h, size, beyond);
      if Stop(c, LAST_LINE, beyond, h) < 0 then d == Drained([], true, at, h)
      else d.takings != [] && |d.takings[0].text| != |t.text|
  {
    hide Drain, Next, FirstAt, Stop;
    var text := t.text;
    if t.Message? {
      MessageBegins(text, c, future, rest);
    } else {
      ListingBegins(text, c, future, rest);
      MisledLate(text, |c|, h, beyond);
    }
    MessageMissed(text, c, h, beyond);
    FoundMessage(c, h, size, beyond);
    var k := Stop(c, LAST_LINE, beyond, h);
    if k >= 0 {
      TakesFirst(c, at, h, size, beyond, k);
    } else {
      FindsNone(c, at, h, size, beyond);
    }
  }

  lemma FindsNone(c: seq<char>, at: nat, h: nat, size: nat, beyond: seq<char>)
    requires |beyond| >= 7 && |c| <= size && Next(true, c, h, size, beyond) == Framed(true, 0, h, 0)
    ensures Drain(true, c, at, h, size, beyond) == Drained([], true, at, h)
  {
    hide Next;
  }

  /** Trouble on the way shows in the replies, or leaves the loop waiting in it. */
  lemma {:induction false} DrainTrouble(s: Stand, c: seq<char>, future: seq<char>, at: nat, size: nat,
                                        beyond: seq<char>) returns (left: Stand)
    requires |beyond| >= 7 && |c| <= size && Holds(s, c, future) && !Calm(s, size, beyond)
    ensures var d := Drain(s.line, c, at, s.h, size, beyond);
      || Departs(Replies(d.takings), RepliesOf(s.ts))
      || (Along(d, s, left, c, future, at) && Trouble(left, beyond) && Several(left.ts[0]))
    decreases |s.ts|, s.n
  {
    hide Drain, Holds, Moved, Along, HeadAfter, Tail, ReplyOf, Departs, Misled, SkipLength;
    StandIs(s, c, future);
    left := s;
    if Trouble(s, beyond) {
      TroubleShows(s, c, future, at, size, beyond);
      AlongAtOnce(s, c, future, at);
    } else {
      MovedLess(s, size);
      var t := Moved(s, size);
      if !s.line {
        StartGoes(s, c, future, at, size, beyond);
        left := DrainTrouble(t, c[2..], future, at + 2, size, beyond);
        TroubleLater(s, t, c, future, at, 2, Drain(s.line, c, at, s.h, size, beyond), left);
      } else if s.ts[0].Spaced? {
        EmptyLineGoes(s, c, future, at, size, beyond);
        left := DrainTrouble(t, c[2..], future, at + 2, size, beyond);
        TroubleLater(s, t, c, future, at, 2, Drain(s.line, c, at, s.h, size, beyond), left);
      } else {
        var m := |Tail(s.ts[0])|;
        TokenGoes(s, c, future, at, size, beyond);
        left := DrainTrouble(t, c[m..], future, at + m, size, beyond);
        TroubleOneMore(s, t, c, future, at, m, Drain(s.line, c, at, s.h, size, beyond),
                       Drain(false, c[m..], at + m, t.h, size, beyond), left);
      }
    }
  }

  lemma TroubleLater(s: Stand, t: Stand, c: seq<char>, future: seq<char>, at: nat, m: nat, d: Drained, e: Stand)
    requires m <= |c| && RepliesOf(t.ts) == RepliesOf(s.ts)
    ensures Along(d, t, e, c[m..], future, at + m) ==> Along(d, s, e, c, future, at)
  {
    hide Along;
    if Along(d, t, e, c[m..], future, at + m) { AlongLater(s, t, c, future, at, m, d, e); }
  }

  lemma TroubleOneMore(s: Stand, t: Stand, c: seq<char>, future: seq<char>, at: nat, m: nat, d: Drained,
                       later: Drained, e: Stand)
    requires m <= |c| && s.ts != [] && d.takings != []
    requires (d.takings[0].text, d.takings[0].res) == ReplyOf(s.ts[0])
    requires d == later.(takings := [d.takings[0]] + later.takings) && t.ts == s.ts[1..]
    ensures Along(later, t, e, c[m..], future, at + m) ==> Along(d, s, e, c, future, at)
    ensures Departs(Replies(later.takings), RepliesOf(t.ts)) ==> Departs(Replies(d.takings), RepliesOf(s.ts))
  {
    hide Along, Replies, RepliesOf, ReplyOf, Departs;
    if Along(later, t, e, c[m..], future, at + m) { OneMore(s, t, c, future, at, m, d, later, e); }
    if Departs(Replies(later.takings), RepliesOf(t.ts)) {
      RepliesJoin(d.takings[0], later.takings);
      RepliesOfFirst(s.ts);
      DepartsBehind([(d.takings[0].text, d.takings[0].res)], Replies(later.takings), RepliesOf(t.ts));
    }
  }

  lemma DepartsBehind(first: seq<(seq<char>, Reply)>, r: seq<(seq<char>, Reply)>, x: seq<(seq<char>, Reply)>)
    requires Departs(r, x)
    ensures Departs(first + r, first + x)
  {
    var j :| 0 <= j < |r| && j < |x| && r[j] != x[j];
    var k := |first| + j;
    assert (first + r)[k] == r[j] && (first + x)[k] == x[j];
  }
}
