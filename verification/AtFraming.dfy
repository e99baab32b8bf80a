/** What the framer and the classifier do together: each reply takes the bytes of its frame and its own end mark,
    all of which have arrived, and nothing behind the frame decides what it is. */
module AtFraming {
  import opened RingBuffer
  import opened RingSearch
  import opened AtRead
  import opened AtResponses
  import opened AtIds

  /** A frame was decided inside a reply, at the place the dropping stopped. */
  lemma {:induction false} DecidedThere(line: bool, c: seq<char>, h: nat, size: nat, beyond: seq<char>)
    requires |beyond| >= 7 && |c| <= size
    ensures var f := Next(line, c, h, size, beyond);
      f.frame > 0 ==> Next(true, c[f.dropped..], f.h, size, beyond) == Framed(false, 0, f.h, f.frame)
    decreases |c|
  {
    hide Stop, UpTo, AnnouncesCssi, EmptyLineBefore, Prompts, Multiline, HeadAfter;
    var f := Next(line, c, h, size, beyond);
    if f.frame > 0 {
      if f.dropped == 0 {
        assert c[0..] == c;
      } else {
        var n, line1 := FirstDrop(line, c, h, size, beyond);
        DecidedThere(line1, c[n..], HeadAfter(size, |c|, h, n), size, beyond);
        assert c[n..][f.dropped - n..] == c[f.dropped..];
      }
    }
  }

  /** What is dropped first, when something is. */
  lemma FirstDrop(line: bool, c: seq<char>, h: nat, size: nat, beyond: seq<char>) returns (n: nat, line1: bool)
    requires |beyond| >= 7 && |c| <= size && Next(line, c, h, size, beyond).dropped > 0
    ensures 0 < n <= |c| && Next(line, c, h, size, beyond) == Dropping(n, line1, c, h, size, beyond)
  {
    hide Dropping, Stop, AnnouncesCssi, EmptyLineBefore, Prompts, Multiline;
    if line {
      n, line1 := 2, true;
      EmptyLineHasTwo(c);
    } else if LINE_END <= c {
      n, line1 := 2, true;
    } else if "\n" <= c {
      n, line1 := 1, false;
    } else {
      n, line1 := UpTo(c, '\r'), false;
    }
  }

  lemma EmptyLineHasTwo(c: seq<char>)
    requires EmptyLineBefore(c)
    ensures |c| >= 2
  {
  }

  /** How a reply at the front ends after frame bytes. */
  ghost predicate Ends(r: seq<char>, h: nat, beyond: seq<char>, frame: nat)
    requires |beyond| >= 7
  {
    if AnnouncesCssi(r) then frame == 8
    else if Prompts(r) then frame == 2
    else if Multiline(r) then frame > 0 && FirstTested(r, LAST_LINE, beyond, h, frame)
    else frame > 0 && FirstAt(r, LINE_END, frame - 1)
  }

  lemma EndOf(r: seq<char>, h: nat, size: nat, beyond: seq<char>, frame: nat)
    requires |beyond| >= 7 && |r| <= size && frame > 0
    requires Next(true, r, h, size, beyond) == Framed(false, 0, h, frame)
    ensures Ends(r, h, beyond, frame)
  {
    hide AnnouncesCssi, EmptyLineBefore, Prompts, Multiline, TestedMatch, OccursAt;
    if !AnnouncesCssi(r) && !EmptyLineBefore(r) && !Prompts(r) {
      if Multiline(r) {
        StopMeans(r, LAST_LINE, beyond, h, 0);
      } else {
        StopMeans(r, LINE_END, beyond, h, 0);
        ShortPatternsExact(r, LINE_END, beyond, h);
      }
    }
  }

  /** The byte behind a frame that is not of fixed length is a newline that has arrived. */
  lemma NewlineBehind(r: seq<char>, h: nat, beyond: seq<char>, frame: nat)
    requires |beyond| >= 7 && Ends(r, h, beyond, frame) && !AnnouncesCssi(r) && !Prompts(r)
    ensures frame < |r| && r[frame] == '\n'
    ensures Multiline(r) ==> frame + 7 <= |r|
    ensures !Multiline(r) ==> frame > 0 && r[frame - 1] == '\r'
  {
    hide AnnouncesCssi, Prompts, Multiline, TestedMatch;
    if Multiline(r) {
      MatchStarts(r, LAST_LINE, beyond, h, frame);
      TestedInside(r, LAST_LINE, beyond, h, frame);
    } else {
      var k := frame - 1;
      assert r[k..k + 2][0] == r[k] && r[k..k + 2][1] == r[k + 1];
    }
  }

  /** The classifier takes the frame and its own end mark, which are all there: the clamp in rb_read_upd never
      acts. */
  lemma TakenIsThere(r: seq<char>, h: nat, beyond: seq<char>, frame: nat)
    requires |beyond| >= 7 && frame <= |r| && Ends(r, h, beyond, frame)
    ensures var n := Taken(Class(r), frame);
      && frame <= n <= |r|
      && (if AnnouncesCssi(r) || Prompts(r) then n == frame
          else if "+CMGR:" <= r then n == frame + 7
          else n == frame + 1 && r[frame] == '\n')
  {
    hide Class, Ends, TestedMatch;
    if AnnouncesCssi(r) {
      CssiClass(r);
      EndsFixed(r, h, beyond, frame);
    } else if Prompts(r) {
      PromptClass(r);
      EndsFixed(r, h, beyond, frame);
    } else {
      NewlineBehind(r, h, beyond, frame);
      if "+CMGR:" <= r { CmgrClass(r); } else { OrdinaryTaken(r, frame); }
    }
  }

  lemma EndsFixed(r: seq<char>, h: nat, beyond: seq<char>, frame: nat)
    requires |beyond| >= 7 && Ends(r, h, beyond, frame)
    ensures AnnouncesCssi(r) ==> frame == 8
    ensures !AnnouncesCssi(r) && Prompts(r) ==> frame == 2
  {
  }

  /** Whether an identifier matches is settled by the bytes of the frame. */
  lemma MatchIsInside(r: seq<char>, h: nat, beyond: seq<char>, frame: nat, i: nat)
    requires |beyond| >= 7 && frame <= |r| && Ends(r, h, beyond, frame)
    ensures Matches(r[..frame], i) <==> Matches(r, i)
  {
    hide Id, Ends, Multiline;
    if Matches(r, i) && |Id(i)| > frame {
      if AnnouncesCssi(r) {
        EndsFixed(r, h, beyond, frame);
        OnlyCssi(r, i);
        SpecialIds();
      } else if Prompts(r) {
        EndsFixed(r, h, beyond, frame);
        OnlyPrompt(r, i);
        SpecialIds();
      } else {
        NewlineBehind(r, h, beyond, frame);
        assert r[frame] == Id(i)[frame];
        IdHasNoNewline(i, frame);
      }
      assert false;
    }
  }

  /** A reply leaves the framer between replies; with the classifier it takes its own bytes and nothing else; and
      its kind is the kind of its frame. */
  lemma ReplyIsWhole(line: bool, c: seq<char>, h: nat, size: nat, beyond: seq<char>)
    requires |beyond| >= 7 && |c| <= size && Next(line, c, h, size, beyond).frame > 0
    ensures var f := Next(line, c, h, size, beyond);
      var r := c[f.dropped..];
      var n := Taken(Class(r), f.frame);
      && !f.line && f.frame <= n <= |r|
      && (if AnnouncesCssi(r) || Prompts(r) then n == f.frame
          else if "+CMGR:" <= r then n == f.frame + 7
          else n == f.frame + 1 && r[f.frame] == '\n')
      && (forall i :: Matches(r[..f.frame], i) <==> Matches(r, i))
      && Class(r[..f.frame]) == Class(r)
  {
    hide Class, Ends, Stop, AnnouncesCssi, EmptyLineBefore, Prompts, Multiline, Matches, Taken;
    var f := Next(line, c, h, size, beyond);
    var r := c[f.dropped..];
    DecidedThere(line, c, h, size, beyond);
    EndOf(r, f.h, size, beyond, f.frame);
    TakenIsThere(r, f.h, beyond, f.frame);
    forall i ensures Matches(r[..f.frame], i) <==> Matches(r, i) { MatchIsInside(r, f.h, beyond, f.frame, i); }
    ClassOfSame(r[..f.frame], r);
    FoundBetween(line, c, h, size, beyond);
  }

  lemma ClassOfSame(c: seq<char>, d: seq<char>)
    requires forall i :: Matches(c, i) <==> Matches(d, i)
    ensures Class(c) == Class(d)
  {
    SameMatches(c, d, IDS_FIRST);
  }

  /** A positive result always leaves the framer between replies. */
  lemma FoundBetween(line: bool, c: seq<char>, h: nat, size: nat, beyond: seq<char>)
    requires |beyond| >= 7 && |c| <= size && Next(line, c, h, size, beyond).frame > 0
    ensures !Next(line, c, h, size, beyond).line
    decreases |c|
  {
    hide Stop, UpTo, AnnouncesCssi, EmptyLineBefore, Prompts, Multiline, HeadAfter;
    if Next(line, c, h, size, beyond).dropped > 0 {
      var n, line1 := FirstDrop(line, c, h, size, beyond);
      FoundBetween(line1, c[n..], HeadAfter(size, |c|, h, n), size, beyond);
    }
  }
}
