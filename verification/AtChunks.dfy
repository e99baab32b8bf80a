/** Whether the replies depend on how the stream is cut into reads: exactly when they do not. */
module AtChunks {
  import opened RingBuffer
  import opened AtResponses
  import opened AtMonitor
  import opened AtStream
  import opened AtStands

  /* ------------------------------------------------------------------ read after read */

  function Joined(chunks: seq<seq<char>>): seq<char> {
    if chunks == [] then [] else chunks[0] + Joined(chunks[1..])
  }

  /** All that was reported, and what is left waiting. */
  datatype Fed = Fed(takings: seq<Taking>, line: bool, waiting: seq<char>)

  /** No read brings more than there is room for. A full ring ends the loop. */
  ghost predicate Fits(line: bool, c: seq<char>, at: nat, h: nat, chunks: seq<seq<char>>, size: nat,
                       beyond: seq<char>)
    requires |beyond| >= 7 && |c| <= size
    decreases |chunks|
  {
    chunks == [] || |c| == size ||
    (var now := c + chunks[0];
     && |now| <= size
     && var d := Drain(line, now, at, h, size, beyond);
        Fits(d.line, now[d.at - at..], d.at, d.h, chunks[1..], size, beyond))
  }

  /** The monitor: read, take replies, read again. The bytes c stand at position at of the stream. */
  ghost function Feed(line: bool, c: seq<char>, at: nat, h: nat, chunks: seq<seq<char>>, size: nat,
                      beyond: seq<char>): Fed
    requires |beyond| >= 7 && |c| <= size && Fits(line, c, at, h, chunks, size, beyond)
    decreases |chunks|
  {
    if chunks == [] || |c| == size then Fed([], line, c)
    else
      var now := c + chunks[0];
      var d := Drain(line, now, at, h, size, beyond);
      var fed := Feed(d.line, now[d.at - at..], d.at, d.h, chunks[1..], size, beyond);
      fed.(takings := d.takings + fed.takings)
  }

  /** Every token finds room in the ring. */
  ghost predicate FitsIn(ts: seq<Token>, size: nat) {
    size >= 2 && forall i :: 0 <= i < |ts| ==> |Tail(ts[i])| <= size && Needs(ts[i]) <= size
  }

  /** The stand with more bytes arrived. */
  function With(s: Stand, chunk: seq<char>): Stand {
    s.(n := s.n + |chunk|)
  }

  /** No read ends in trouble. */
  ghost predicate CalmRun(s: Stand, chunks: seq<seq<char>>, size: nat, beyond: seq<char>)
    requires |beyond| >= 7
    decreases |chunks|
  {
    chunks == [] ||
    (var s1 := With(s, chunks[0]);
     && s1.n <= size && Calm(s1, size, beyond)
     && CalmRun(Advance(s1, size), chunks[1..], size, beyond))
  }

  lemma OneChunk(s: Stand, c: seq<char>, chunk: seq<char>, rest: seq<char>)
    requires Holds(s, c, chunk + rest)
    ensures Holds(With(s, chunk), c + chunk, rest)
  {
    hide AllWellFormed, ToCome;
    assert c + (chunk + rest) == (c + chunk) + rest;
  }

  /** Where nothing can be taken the ring is not full. */
  lemma NotFull(s: Stand, c: seq<char>, future: seq<char>, size: nat)
    requires Holds(s, c, future) && !Moves(s) && FitsIn(s.ts, size)
    ensures |c| < size
    ensures future == [] ==> s.ts == [] && c == [] && !s.line
  {
    if s.ts == [] {
      assert |c + future| == 0;
    } else {
      SpacedNeeds(s.ts[0]);
      OkBehind(s.ts);
      assert future == [] ==> c == c + future;
    }
  }

  lemma SpacedNeeds(t: Token)
    requires WellFormed(t)
    ensures Needs(t) >= 2 && (!t.Listing? ==> Needs(t) <= |Tail(t)|)
  {
    if t.Spaced? { SpacedIsLine(t.text); }
  }

  lemma {:induction false} StillFitsIn(s: Stand, size: nat)
    requires s.n <= size && FitsIn(s.ts, size)
    ensures FitsIn(Advance(s, size).ts, size)
    decreases |s.ts|, s.n
  {
    hide HeadAfter;
    if Moves(s) {
      var t := Moved(s, size);
      MovedLess(s, size);
      assert s.line && s.ts[0].Spaced? ==> |Tail(t.ts[0])| + 2 == |Tail(s.ts[0])| && Needs(t.ts[0]) == |Tail(t.ts[0])|;
      StillFitsIn(t, size);
    }
  }

  lemma AlongIs(d: Drained, s: Stand, e: Stand, c: seq<char>, future: seq<char>, at: nat)
    requires Along(d, s, e, c, future, at)
    ensures at <= d.at <= at + |c| && d.line == e.line && d.h == e.h && Holds(e, c[d.at - at..], future)
    ensures Replies(d.takings) + RepliesOf(e.ts) == RepliesOf(s.ts)
  {
    hide Holds, Replies, RepliesOf;
  }

  lemma RepliesOfBoth(a: seq<Taking>, b: seq<Taking>)
    ensures Replies(a + b) == Replies(a) + Replies(b)
  {
  }

  /* ------------------------------------------------------------------ runs without trouble */

  lemma {:induction false} FeedAlong(s: Stand, c: seq<char>, at: nat, chunks: seq<seq<char>>, size: nat,
                                     beyond: seq<char>)
    requires |beyond| >= 7 && |c| <= size && Fits(s.line, c, at, s.h, chunks, size, beyond)
    requires Holds(s, c, Joined(chunks)) && !Moves(s) && FitsIn(s.ts, size) && CalmRun(s, chunks, size, beyond)
    ensures var fed := Feed(s.line, c, at, s.h, chunks, size, beyond);
      Replies(fed.takings) == RepliesOf(s.ts) && !fed.line && fed.waiting == []
    decreases |chunks|
  {
    hide Drain, Replies, RepliesOf, Holds, Moves, FitsIn, Along, Calm, Advance;
    NotFull(s, c, Joined(chunks), size);
    if chunks == [] {
      assert Replies([]) == RepliesOf([]);
    } else {
      var now, rest, s1 := c + chunks[0], Joined(chunks[1..]), With(s, chunks[0]);
      OneChunk(s, c, chunks[0], rest);
      StandIs(s1, now, rest);
      DrainAlong(s1, now, rest, at, size, beyond);
      StillFitsIn(s1, size);
      var d, e := Drain(s.line, now, at, s.h, size, beyond), Advance(s1, size);
      AlongIs(d, s1, e, now, rest, at);
      FeedAlong(e, now[d.at - at..], d.at, chunks[1..], size, beyond);
      RepliesOfBoth(d.takings, Feed(d.line, now[d.at - at..], d.at, d.h, chunks[1..], size, beyond).takings);
    }
  }

  /* ------------------------------------------------------------------ runs with trouble */

  /** The replies are not those of ts, and nothing that may follow mends it. */
  ghost predicate Fails(r: seq<(seq<char>, Reply)>, ts: seq<Token>) {
    !(RepliesOf(ts) <= r)
  }

  lemma DepartedFails(r: seq<(seq<char>, Reply)>, more: seq<(seq<char>, Reply)>, ts: seq<Token>)
    requires Departs(r, RepliesOf(ts))
    ensures Fails(r + more, ts)
  {
    hide RepliesOf;
    var j :| 0 <= j < |r| && j < |RepliesOf(ts)| && r[j] != RepliesOf(ts)[j];
    assert (r + more)[j] == r[j];
  }

  lemma FailsLater(r: seq<(seq<char>, Reply)>, more: seq<(seq<char>, Reply)>, left: seq<Token>, ts: seq<Token>)
    requires r + RepliesOf(left) == RepliesOf(ts) && Fails(more, left)
    ensures Fails(r + more, ts)
  {
    hide RepliesOf;
    PrefixBehind(r, RepliesOf(left), more);
  }

  lemma PrefixBehind(r: seq<(seq<char>, Reply)>, x: seq<(seq<char>, Reply)>, more: seq<(seq<char>, Reply)>)
    ensures r + x <= r + more ==> x <= more
  {
    assert (r + x)[|r|..] == x && (r + more)[|r|..] == more;
  }

  /** A message whose end will not be seen is never reported, whatever follows. */
  lemma {:induction false} FeedMisled(s: Stand, c: seq<char>, at: nat, chunks: seq<seq<char>>, size: nat,
                                      beyond: seq<char>)
    requires |beyond| >= 7 && |c| <= size && Fits(s.line, c, at, s.h, chunks, size, beyond)
    requires Holds(s, c, Joined(chunks)) && Trouble(s, beyond) && Several(s.ts[0])
    ensures Fails(Replies(Feed(s.line, c, at, s.h, chunks, size, beyond).takings), s.ts)
    decreases |chunks|
  {
    hide Drain, Replies, RepliesOf, Holds, Misled, Departs, Fails;
    if chunks == [] || |c| == size {
      NoneFails(s.ts);
    } else {
      var now, rest, s1 := c + chunks[0], Joined(chunks[1..]), With(s, chunks[0]);
      OneChunk(s, c, chunks[0], rest);
      StillMisled(s.ts[0].text, s.n, s1.n, s.h, beyond);
      TroubleShows(s1, now, rest, at, size, beyond);
      var d := Drain(true, now, at, s.h, size, beyond);
      var fed := Feed(d.line, now[d.at - at..], d.at, d.h, chunks[1..], size, beyond);
      RepliesOfBoth(d.takings, fed.takings);
      if Departs(Replies(d.takings), RepliesOf(s.ts)) {
        DepartedFails(Replies(d.takings), Replies(fed.takings), s.ts);
      } else {
        assert now[0..] == now && [] + fed.takings == fed.takings;
        FeedMisled(s1, now, at, chunks[1..], size, beyond);
      }
    }
  }

  lemma NoneFails(ts: seq<Token>)
    requires ts != []
    ensures Fails(Replies([]), ts)
  {
    hide ReplyOf;
    assert |Replies([])| == 0;
  }

  lemma StillMisled(text: seq<char>, n: nat, n1: nat, h: nat, beyond: seq<char>)
    requires |beyond| >= 7 && Misled(text, n, h, beyond) && n <= n1
    ensures Misled(text, n1, h, beyond)
  {
    hide ErrsAt;
  }

  lemma {:induction false} FeedTroubled(s: Stand, c: seq<char>, at: nat, chunks: seq<seq<char>>, size: nat,
                                        beyond: seq<char>)
    requires |beyond| >= 7 && |c| <= size && Fits(s.line, c, at, s.h, chunks, size, beyond)
    requires Holds(s, c, Joined(chunks)) && !Moves(s) && FitsIn(s.ts, size) && !CalmRun(s, chunks, size, beyond)
    ensures Fails(Replies(Feed(s.line, c, at, s.h, chunks, size, beyond).takings), s.ts)
    decreases |chunks|
  {
    hide Drain, Replies, RepliesOf, Holds, Moves, FitsIn, Along, Calm, Advance, Departs, Fails, Trouble;
    NotFull(s, c, Joined(chunks), size);
    var now, rest, s1 := c + chunks[0], Joined(chunks[1..]), With(s, chunks[0]);
    OneChunk(s, c, chunks[0], rest);
    StandIs(s1, now, rest);
    var d := Drain(s.line, now, at, s.h, size, beyond);
    var fed := Feed(d.line, now[d.at - at..], d.at, d.h, chunks[1..], size, beyond);
    RepliesOfBoth(d.takings, fed.takings);
    if Calm(s1, size, beyond) {
      DrainAlong(s1, now, rest, at, size, beyond);
      StillFitsIn(s1, size);
      var e := Advance(s1, size);
      AlongIs(d, s1, e, now, rest, at);
      FeedTroubled(e, now[d.at - at..], d.at, chunks[1..], size, beyond);
      FailsLater(Replies(d.takings), Replies(fed.takings), e.ts, s.ts);
    } else {
      var left := DrainTrouble(s1, now, rest, at, size, beyond);
      if Departs(Replies(d.takings), RepliesOf(s.ts)) {
        DepartedFails(Replies(d.takings), Replies(fed.takings), s.ts);
      } else {
        AlongIs(d, s1, left, now, rest, at);
        FeedMisled(left, now[d.at - at..], d.at, chunks[1..], size, beyond);
        FailsLater(Replies(d.takings), Replies(fed.takings), left.ts, s.ts);
      }
    }
  }

  /* ------------------------------------------------------------------ when the reads make no difference */

  lemma AtFirst(ts: seq<Token>, h: nat)
    requires AllWellFormed(ts)
    ensures Holds(Stand(false, ts, 0, h), [], Stream(ts)) && !Moves(Stand(false, ts, 0, h))
  {
    hide Stream, AllWellFormed;
    assert [] + Stream(ts) == Stream(ts);
  }

  /** The replies are those of the stream, in order, exactly when no read ends in trouble: with an empty line and not
      yet the identifier behind it, or with a message for the end of which the search errs at the end of the buffer.
      Otherwise they are not, whatever is read later. */
  lemma SameRepliesIff(ts: seq<Token>, chunks: seq<seq<char>>, h: nat, size: nat, beyond: seq<char>)
    requires |beyond| >= 7 && AllWellFormed(ts) && FitsIn(ts, size) && Joined(chunks) == Stream(ts)
    requires Fits(false, [], 0, h, chunks, size, beyond)
    ensures var fed := Feed(false, [], 0, h, chunks, size, beyond);
      && (Replies(fed.takings) == RepliesOf(ts) <==> CalmRun(Stand(false, ts, 0, h), chunks, size, beyond))
      && (RepliesOf(ts) <= Replies(fed.takings) ==> Replies(fed.takings) == RepliesOf(ts))
      && (Replies(fed.takings) == RepliesOf(ts) ==> !fed.line && fed.waiting == [])
  {
    hide Fits, Feed, Stream, AllWellFormed, FitsIn, Holds, Moves, CalmRun, Replies, RepliesOf;
    var s := Stand(false, ts, 0, h);
    AtFirst(ts, h);
    if CalmRun(s, chunks, size, beyond) {
      FeedAlong(s, [], 0, chunks, size, beyond);
    } else {
      FeedTroubled(s, [], 0, chunks, size, beyond);
    }
  }

  /* ------------------------------------------------------------------ streams without stored messages */

  ghost predicate NoMessage(ts: seq<Token>) {
    forall i :: 0 <= i < |ts| ==> !Several(ts[i])
  }

  /** The first e bytes of what is to come end with an empty line in front of a line, or in the identifier behind it. */
  predicate EndsShort(line: bool, ts: seq<Token>, e: nat)
    requires line ==> ts != []
    decreases |ts|, !line
  {
    if !line then ts != [] && e >= 2 && EndsShort(true, ts, e - 2)
    else
      || (ts[0].Spaced? && 2 <= e < 2 + SkipLength(ts[0].text))
      || (e >= |Tail(ts[0])| && EndsShort(false, ts[1..], e - |Tail(ts[0])|))
  }

  /** The same bytes end a stream short before and after a move. */
  lemma MovedEndsShort(s: Stand, size: nat, e: nat)
    requires Moves(s) && s.n <= size && s.n <= e && AllWellFormed(s.ts)
    ensures var t := Moved(s, size);
      EndsShort(t.line, t.ts, e - (s.n - t.n)) == EndsShort(s.line, s.ts, e)
  {
    hide HeadAfter, SkipLength, WellFormed;
    if s.line {
      assert WellFormed(s.ts[0]);
      if s.ts[0].Spaced? {
        SpacedIsLine(s.ts[0].text);
        var ts := [Line(s.ts[0].text)] + s.ts[1..];
        assert ts[1..] == s.ts[1..];
        LineEndsShort(ts, e - 2);
      } else {
        LineEndsShort(s.ts, e);
      }
    }
  }

  lemma LineEndsShort(ts: seq<Token>, e: nat)
    requires ts != [] && !ts[0].Spaced?
    ensures EndsShort(true, ts, e) <==> e >= |Tail(ts[0])| && EndsShort(false, ts[1..], e - |Tail(ts[0])|)
  {
  }

  lemma MovedSound(s: Stand, size: nat)
    requires Moves(s) && s.n <= size && AllWellFormed(s.ts) && NoMessage(s.ts)
    ensures var t := Moved(s, size);
      AllWellFormed(t.ts) && NoMessage(t.ts) && (t.line ==> t.ts != [])
  {
    hide HeadAfter, SkipLength, WellFormed;
    if s.line && s.ts[0].Spaced? { SpacedIsLine(s.ts[0].text); }
  }

  lemma {:induction false} AdvancedEndsShort(s: Stand, size: nat, e: nat)
    requires s.n <= size && s.n <= e && AllWellFormed(s.ts) && NoMessage(s.ts) && (s.line ==> s.ts != [])
    ensures var t := Advance(s, size);
      && t.n <= s.n && AllWellFormed(t.ts) && NoMessage(t.ts) && (t.line ==> t.ts != [])
      && EndsShort(t.line, t.ts, e - (s.n - t.n)) == EndsShort(s.line, s.ts, e)
    decreases |s.ts|, s.n
  {
    hide Moved, Moves, EndsShort, AllWellFormed, NoMessage;
    if Moves(s) {
      MovedLess(s, size);
      MovedSound(s, size);
      MovedEndsShort(s, size, e);
      var t := Moved(s, size);
      AdvancedEndsShort(t, size, e - (s.n - t.n));
    }
  }

  /** Trouble on the way is to end short. */
  lemma {:induction false} CalmIffNotShort(s: Stand, size: nat, beyond: seq<char>)
    requires |beyond| >= 7 && s.n <= size
    requires AllWellFormed(s.ts) && NoMessage(s.ts) && (s.line ==> s.ts != [])
    ensures Calm(s, size, beyond) <==> !EndsShort(s.line, s.ts, s.n)
    decreases |s.ts|, s.n
  {
    hide Moved, WellFormed, SkipLength;
    if s.ts != [] { SpacedNeeds(s.ts[0]); }
    if !Trouble(s, beyond) && Moves(s) {
      MovedLess(s, size);
      MovedSound(s, size);
      MovedEndsShort(s, size, s.n);
      CalmIffNotShort(Moved(s, size), size, beyond);
    }
  }

  /** Some read ends there. */
  ghost predicate SomeReadEndsShort(s: Stand, chunks: seq<seq<char>>)
    requires s.line ==> s.ts != []
  {
    exists i :: 1 <= i <= |chunks| && EndsShort(s.line, s.ts, s.n + |Joined(chunks[..i])|)
  }

  lemma JoinedFirst(chunks: seq<seq<char>>, i: nat)
    requires 1 <= i <= |chunks|
    ensures Joined(chunks[..i]) == chunks[0] + Joined(chunks[1..][..i - 1])
  {
    assert chunks[..i][1..] == chunks[1..][..i - 1];
  }

  /** The first read, or one of the others. */
  lemma ShortNowOrLater(s: Stand, chunks: seq<seq<char>>, size: nat)
    requires chunks != [] && With(s, chunks[0]).n <= size
    requires AllWellFormed(s.ts) && NoMessage(s.ts) && (s.line ==> s.ts != [])
    ensures var e := Advance(With(s, chunks[0]), size);
      && (e.line ==> e.ts != [])
      && (SomeReadEndsShort(s, chunks)
          <==> EndsShort(s.line, s.ts, With(s, chunks[0]).n) || SomeReadEndsShort(e, chunks[1..]))
  {
    hide EndsShort, Advance, NoMessage, AllWellFormed, Joined;
    var s1 := With(s, chunks[0]);
    var e := Advance(s1, size);
    AdvancedEndsShort(s1, size, s1.n);
    forall i: nat | 1 <= i <= |chunks|
      ensures i == 1 ==> s.n + |Joined(chunks[..i])| == s1.n
      ensures i > 1 ==> (EndsShort(s.line, s.ts, s.n + |Joined(chunks[..i])|)
                         <==> EndsShort(e.line, e.ts, e.n + |Joined(chunks[1..][..i - 1])|))
    {
      JoinedFirst(chunks, i);
      if i == 1 { NothingJoined(chunks[1..]); }
      AdvancedEndsShort(s1, size, s1.n + |Joined(chunks[1..][..i - 1])|);
    }
    if EndsShort(s.line, s.ts, s1.n) {
      assert s.n + |Joined(chunks[..1])| == s1.n;
    }
    if SomeReadEndsShort(e, chunks[1..]) {
      var i :| 1 <= i <= |chunks[1..]| && EndsShort(e.line, e.ts, e.n + |Joined(chunks[1..][..i])|);
      assert EndsShort(s.line, s.ts, s.n + |Joined(chunks[..i + 1])|);
    }
  }

  lemma NothingJoined(chunks: seq<seq<char>>)
    ensures |Joined(chunks[..0])| == 0
  {
  }

  lemma {:induction false} CalmRunIffNoneShort(s: Stand, c: seq<char>, at: nat, chunks: seq<seq<char>>, size: nat,
                                               beyond: seq<char>)
    requires |beyond| >= 7 && |c| <= size && Fits(s.line, c, at, s.h, chunks, size, beyond)
    requires Holds(s, c, Joined(chunks)) && !Moves(s) && FitsIn(s.ts, size) && NoMessage(s.ts)
    ensures CalmRun(s, chunks, size, beyond) <==> !SomeReadEndsShort(s, chunks)
    decreases |chunks|
  {
    hide Drain, EndsShort, Moves, FitsIn, NoMessage, Along, Calm, Advance, AllWellFormed, ToCome, SomeReadEndsShort;
    NotFull(s, c, Joined(chunks), size);
    if chunks == [] {
      NoReads(s);
    } else {
      var now, rest, s1 := c + chunks[0], Joined(chunks[1..]), With(s, chunks[0]);
      OneChunk(s, c, chunks[0], rest);
      ShortNowOrLater(s, chunks, size);
      CalmIffNotShort(s1, size, beyond);
      if Calm(s1, size, beyond) {
        DrainAlong(s1, now, rest, at, size, beyond);
        StillFitsIn(s1, size);
        AdvancedEndsShort(s1, size, s1.n);
        var d, e := Drain(s.line, now, at, s.h, size, beyond), Advance(s1, size);
        AlongIs(d, s1, e, now, rest, at);
        CalmRunIffNoneShort(e, now[d.at - at..], d.at, chunks[1..], size, beyond);
      }
    }
  }

  lemma NoReads(s: Stand)
    requires s.line ==> s.ts != []
    ensures !SomeReadEndsShort(s, [])
  {
  }

  /** Without stored messages, the replies are those of the stream exactly when no read ends behind an empty line in
      front of one of the three lines but before the end of the identifier there. */
  lemma SameRepliesIffNoneShort(ts: seq<Token>, chunks: seq<seq<char>>, h: nat, size: nat, beyond: seq<char>)
    requires |beyond| >= 7 && AllWellFormed(ts) && FitsIn(ts, size) && Joined(chunks) == Stream(ts)
    requires Fits(false, [], 0, h, chunks, size, beyond) && NoMessage(ts)
    ensures Replies(Feed(false, [], 0, h, chunks, size, beyond).takings) == RepliesOf(ts)
       <==> forall i :: 1 <= i <= |chunks| ==> !EndsShort(false, ts, |Joined(chunks[..i])|)
  {
    hide Fits, Feed, Stream, AllWellFormed, FitsIn, Holds, Moves, CalmRun, Replies, RepliesOf, EndsShort, Joined;
    AtFirst(ts, h);
    SameRepliesIff(ts, chunks, h, size, beyond);
    CalmRunIffNoneShort(Stand(false, ts, 0, h), [], 0, chunks, size, beyond);
  }

  /** So streams of lines, prompts and +CSSI: replies without empty lines come out whole however they are cut. */
  lemma AnyChunking(ts: seq<Token>, chunks: seq<seq<char>>, h: nat, size: nat, beyond: seq<char>)
    requires |beyond| >= 7 && AllWellFormed(ts) && FitsIn(ts, size) && Joined(chunks) == Stream(ts)
    requires Fits(false, [], 0, h, chunks, size, beyond) && NoMessage(ts)
    requires forall i :: 0 <= i < |ts| ==> !ts[i].Spaced?
    ensures Replies(Feed(false, [], 0, h, chunks, size, beyond).takings) == RepliesOf(ts)
  {
    hide Fits, Feed, Stream, AllWellFormed, FitsIn, Replies, RepliesOf, EndsShort, Joined;
    SameRepliesIffNoneShort(ts, chunks, h, size, beyond);
    forall i | 1 <= i <= |chunks| ensures !EndsShort(false, ts, |Joined(chunks[..i])|) {
      NeverShort(false, ts, |Joined(chunks[..i])|);
    }
  }

  lemma {:induction false} NeverShort(line: bool, ts: seq<Token>, e: nat)
    requires (line ==> ts != []) && forall i :: 0 <= i < |ts| ==> !ts[i].Spaced?
    ensures !EndsShort(line, ts, e)
    decreases |ts|, !line
  {
    hide Tail;
    if !line {
      if ts != [] && e >= 2 { NeverShort(true, ts, e - 2); }
    } else if e >= |Tail(ts[0])| {
      NeverShort(false, ts[1..], e - |Tail(ts[0])|);
    }
  }
}
