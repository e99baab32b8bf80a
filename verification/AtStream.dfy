/** What a modem sends, and what the framer makes of one reply of which some bytes have arrived. */
module AtStream {
  import opened RingBuffer
  import opened RingSearch
  import opened AtRead
  import opened AtResponses
  import opened AtIds
  import opened AtFraming
  import opened AtMonitor
  import opened AtReplies

  /** What a modem sends: a line, the prompt for the text of a message, a +CSSI: of eight characters, a stored
      message, which is several lines and the OK behind them, one of three lines with an empty line in front, or a list
      of several lines, in front of an OK that is a line of its own. */
  datatype Token = Line(text: seq<char>) | Prompt | Cssi(text: seq<char>) | Message(text: seq<char>)
    | Spaced(text: seq<char>) | Listing(text: seq<char>)

  predicate Lists(text: seq<char>) {
    "+CNUM:" <= text || "ERROR+CNUM:" <= text || "+CLCC:" <= text
  }

  /** The replies whose end is searched for. */
  predicate Several(t: Token) {
    t.Message? || t.Listing?
  }

  /** The lines an empty line in front of which is to be skipped. */
  predicate SkipsEmptyLine(text: seq<char>) {
    "+CSSU:" <= text || "+CMS ERROR:" <= text || "+CMGS:" <= text
  }

  /** How many bytes of such a line the framer wants to see before it skips the empty line. */
  function SkipLength(text: seq<char>): nat {
    if "+CMS ERROR:" <= text then 11 else 6
  }

  ghost predicate WellFormed(t: Token) {
    match t
    case Line(text) =>
      && text != [] && '\r' !in text && '\n' !in text
      && !AnnouncesCssi(text) && !Prompts(text) && !Multiline(text)
    case Prompt => true
    case Cssi(text) => |text| == 8 && AnnouncesCssi(text)
    case Message(text) => "+CMGR:" <= text && FirstAt(text + LAST_LINE, LAST_LINE, |text|)
    case Spaced(text) => SkipsEmptyLine(text) && '\r' !in text && '\n' !in text
    case Listing(text) => Lists(text) && FirstAt(text + LAST_LINE, LAST_LINE, |text|)
  }

  /** Each is well formed, and behind a list stands its OK. */
  ghost predicate AllWellFormed(ts: seq<Token>) {
    && (forall i :: 0 <= i < |ts| ==> WellFormed(ts[i]))
    && (forall i :: 0 <= i < |ts| && ts[i].Listing? ==> i + 1 < |ts| && ts[i + 1] == Line("OK"))
  }

  /** The bytes of a token behind the line end that starts it. */
  function Tail(t: Token): seq<char> {
    match t
    case Line(text) => text + LINE_END
    case Prompt => "> "
    case Cssi(text) => text
    case Message(text) => text + LAST_LINE
    case Spaced(text) => LINE_END + (text + LINE_END)
    case Listing(text) => text + "\n"
  }

  /** How many bytes of it are needed before anything is made of it; for a list, its OK as well. */
  function Needs(t: Token): nat {
    if t.Spaced? then 2 + SkipLength(t.text) else if t.Listing? then |t.text| + 7 else |Tail(t)|
  }

  function Stream(ts: seq<Token>): seq<char> {
    if ts == [] then [] else LINE_END + (Tail(ts[0]) + Stream(ts[1..]))
  }

  /** What is still to come, between tokens or inside the first of ts. */
  function ToCome(line: bool, ts: seq<Token>): seq<char>
    requires line ==> ts != []
  {
    if line then Tail(ts[0]) + Stream(ts[1..]) else Stream(ts)
  }

  /** The reply a token should be reported as. */
  function ReplyOf(t: Token): (seq<char>, Reply) {
    match t
    case Line(text) => (text + "\r", Class(text + "\r"))
    case Prompt => ("> ", RES_SMS_PROMPT)
    case Cssi(text) => (text, RES_CSSI)
    case Message(text) => (text, RES_CMGR)
    case Spaced(text) => (text + "\r", Class(text + "\r"))
    case Listing(text) => (text, if "+CLCC:" <= text then RES_CLCC else RES_CNUM)
  }

  function RepliesOf(ts: seq<Token>): (r: seq<(seq<char>, Reply)>)
    ensures |r| == |ts|
  {
    seq(|ts|, i requires 0 <= i < |ts| => ReplyOf(ts[i]))
  }

  /* ------------------------------------------------------------------ one token */

  /** An identifier at the front of the bytes so far is at the front of the line. */
  lemma FrontOfLine(id: seq<char>, c: seq<char>, text: seq<char>, future: seq<char>, rest: seq<char>)
    requires id <= c && '\r' !in id && c + future == text + LINE_END + rest
    ensures id <= text
  {
    var all := c + future;
    assert forall k :: 0 <= k < |id| ==> id[k] == c[k] == all[k] && id[k] in id;
    assert all[|text|] == '\r';
  }

  /** Nothing but a line end is looked for in the bytes c. */
  lemma Ordinary(c: seq<char>, text: seq<char>, future: seq<char>, rest: seq<char>)
    requires WellFormed(Line(text)) && c != [] && c + future == text + LINE_END + rest
    ensures !AnnouncesCssi(c) && !EmptyLineBefore(c) && !Prompts(c) && !Multiline(c)
  {
    if AnnouncesCssi(c) { FrontOfLine("+CSSI:", c, text, future, rest); }
    if Prompts(c) { FrontOfLine("> ", c, text, future, rest); }
    if "+CMGR:" <= c { FrontOfLine("+CMGR:", c, text, future, rest); }
    if "+CNUM:" <= c { FrontOfLine("+CNUM:", c, text, future, rest); }
    if "ERROR+CNUM:" <= c { FrontOfLine("ERROR+CNUM:", c, text, future, rest); }
    if "+CLCC:" <= c { FrontOfLine("+CLCC:", c, text, future, rest); }
    assert c[0] == (c + future)[0] == text[0] && text[0] in text;
  }

  /** The first line end is the one behind the text, once it has arrived. */
  lemma LineEndAt(c: seq<char>, text: seq<char>, beyond: seq<char>, h: nat)
    requires |beyond| >= 7 && '\r' !in text
    requires c <= text + LINE_END || text + LINE_END <= c
    ensures Stop(c, LINE_END, beyond, h) == if |c| >= |text| + 2 then |text| else -1
  {
    hide TestedMatch;
    ShortPatternsExact(c, LINE_END, beyond, h);
    forall k | 0 <= k < |text| && k + 2 <= |c| ensures !OccursAt(c, LINE_END, k) {
      assert c[k..k + 2][0] == c[k] == (text + LINE_END)[k] == text[k];
    }
    if |c| >= |text| + 2 {
      var k := |text|;
      assert c[k..k + 2] == LINE_END;
      assert FirstAt(c, LINE_END, k);
      StopIs(c, LINE_END, beyond, h, 0, k);
    } else {
      StopMeans(c, LINE_END, beyond, h, 0);
    }
  }

  /** The framer inside token t, of which the bytes c have arrived and more follows: it waits, or it reports t. */
  ghost predicate Reports(f: Framed, t: Token, c: seq<char>, h: nat) {
    if |c| < Needs(t) then f == Framed(true, 0, h, 0)
    else f == Framed(false, 0, h, |ReplyOf(t).0|) && ReplyOf(t).0 <= c
         && Class(c) == ReplyOf(t).1 && Removed(c, |ReplyOf(t).0|) == |Tail(t)|
  }

  lemma InsideLine(text: seq<char>, c: seq<char>, future: seq<char>, rest: seq<char>, h: nat, size: nat,
                   beyond: seq<char>)
    requires |beyond| >= 7 && |c| <= size && WellFormed(Line(text)) && c + future == text + LINE_END + rest
    ensures Reports(Next(true, c, h, size, beyond), Line(text), c, h)
  {
    hide Stop, Class, Taken, AnnouncesCssi, EmptyLineBefore, Prompts, Multiline, WellFormed, Ends;
    if c != [] {
      Ordinary(c, text, future, rest);
      NoCrInside(text);
      assert c <= text + LINE_END || text + LINE_END <= c by {
        PrefixesOfOne(c, future, text + LINE_END, rest);
      }
      LineEndAt(c, text, beyond, h);
      if |c| >= |text| + 2 {
        var frame := |text| + 1;
        assert c[..frame] == text + "\r" by { assert c[..frame] == (text + LINE_END)[..frame]; }
        ReplyIsWhole(true, c, h, size, beyond);
        assert c[0..] == c;
        assert !("+CMGR:" <= c) by { NotCmgr(c); }
        RemovedIs(c, frame);
      }
    }
  }

  lemma NoCrInside(text: seq<char>)
    requires WellFormed(Line(text))
    ensures '\r' !in text
  {
  }

  lemma NotCmgr(c: seq<char>)
    requires !Multiline(c)
    ensures !("+CMGR:" <= c)
  {
  }

  lemma PrefixesOfOne(a: seq<char>, x: seq<char>, b: seq<char>, y: seq<char>)
    requires a + x == b + y
    ensures if |a| <= |b| then a <= b else b <= a
  {
    assert (a + x)[..|a|] == a && (b + y)[..|b|] == b;
    if |a| <= |b| {
      assert b[..|a|] == (b + y)[..|a|];
    } else {
      assert a[..|b|] == (a + x)[..|b|];
    }
  }

  /** Bytes without a carriage return hold no line end. */
  lemma NoLineEnd(c: seq<char>, beyond: seq<char>, h: nat)
    requires |beyond| >= 7 && '\r' !in c
    ensures Stop(c, LINE_END, beyond, h) == -1
  {
    hide TestedMatch;
    ShortPatternsExact(c, LINE_END, beyond, h);
    forall k | 0 <= k && k + 2 <= |c| ensures !OccursAt(c, LINE_END, k) {
      assert c[k..k + 2][0] == c[k];
    }
    StopMeans(c, LINE_END, beyond, h, 0);
  }

  /** Too few bytes for any of the special replies, and no line end among them. */
  lemma Waits(c: seq<char>, h: nat, size: nat, beyond: seq<char>)
    requires |beyond| >= 7 && |c| <= size && '\r' !in c && |c| < 6 && !Prompts(c)
    ensures Next(true, c, h, size, beyond) == Framed(true, 0, h, 0)
  {
    hide Stop;
    NoLineEnd(c, beyond, h);
  }

  lemma InsidePrompt(c: seq<char>, future: seq<char>, rest: seq<char>, h: nat, size: nat, beyond: seq<char>)
    requires |beyond| >= 7 && |c| <= size && c + future == "> " + rest
    ensures Reports(Next(true, c, h, size, beyond), Prompt, c, h)
  {
    hide Next, Class;
    PrefixesOfOne(c, future, "> ", rest);
    if |c| >= 2 {
      PromptClass(c);
      FoundPrompt(c, h, size, beyond);
      assert c[..2] == "> ";
    } else {
      Waits(c, h, size, beyond);
    }
  }

  lemma FoundPrompt(c: seq<char>, h: nat, size: nat, beyond: seq<char>)
    requires |beyond| >= 7 && |c| <= size && Prompts(c)
    ensures Next(true, c, h, size, beyond) == Framed(false, 0, h, 2)
  {
    hide Stop, Dropping;
    assert c[0] == '>';
  }

  lemma PlusIsNoPrompt(c: seq<char>)
    requires |c| > 0 ==> c[0] == '+'
    ensures !Prompts(c)
  {
  }

  lemma InsideCssi(text: seq<char>, c: seq<char>, future: seq<char>, rest: seq<char>, h: nat, size: nat,
                   beyond: seq<char>)
    requires |beyond| >= 7 && |c| <= size && WellFormed(Cssi(text)) && c + future == text + rest
    ensures Reports(Next(true, c, h, size, beyond), Cssi(text), c, h)
  {
    hide Class;
    PrefixesOfOne(c, future, text, rest);
    if |c| >= 6 {
      assert "+CSSI:" <= c;
      CssiClass(c);
    } else {
      assert forall k :: 0 <= k < |c| ==> c[k] == "+CSSI:"[k];
      PlusIsNoPrompt(c);
      Waits(c, h, size, beyond);
    }
  }

  /** The framer inside a reply of several lines. */
  lemma FoundMessage(c: seq<char>, h: nat, size: nat, beyond: seq<char>)
    requires |beyond| >= 7 && |c| <= size && ("+CMGR:" <= c || Lists(c))
    ensures var k := Stop(c, LAST_LINE, beyond, h);
      k != 0 && Next(true, c, h, size, beyond) == if k < 0 then Framed(true, 0, h, 0) else Framed(false, 0, h, k)
  {
    hide Dropping, TestedMatch;
    SpecialFronts(c);
    StopMeans(c, LAST_LINE, beyond, h, 0);
    if TestedMatch(c, LAST_LINE, beyond, h, 0) { MatchStarts(c, LAST_LINE, beyond, h, 0); }
  }

  lemma SpecialFronts(c: seq<char>)
    requires "+CMGR:" <= c || Lists(c)
    ensures !AnnouncesCssi(c) && !EmptyLineBefore(c) && !Prompts(c) && Multiline(c) && c[0] != '\n'
  {
    assert c[0] == '+' || c[0] == 'E';
    assert c[2] == 'M' || c[2] == 'N' || c[2] == 'L' || c[2] == 'R';
  }

  /** Among the first n bytes of a stored message, h bytes before the end of the buffer, the test errs at a place that
      straddles that end: it takes it for the end of the message, or it is the end. */
  ghost predicate Misled(text: seq<char>, n: nat, h: nat, beyond: seq<char>)
    requires |beyond| >= 7
  {
    exists j :: 0 <= j <= |text| && j + 7 <= n && ErrsAt(text, h, beyond, j)
  }

  ghost predicate ErrsAt(text: seq<char>, h: nat, beyond: seq<char>, j: nat)
    requires |beyond| >= 7 && j <= |text|
  {
    j < h < j + 7 && (j < |text| ==> TestedMatch(text + LAST_LINE, LAST_LINE, beyond, h, j))
  }

  /** The bytes c are the first of a message, or the message and more. */
  predicate Begins(c: seq<char>, text: seq<char>) {
    if |c| <= |text| + 7 then c <= text + LAST_LINE else text + LAST_LINE <= c
  }

  /** The test looks at seven bytes. */
  lemma SameTest(c: seq<char>, text: seq<char>, h: nat, beyond: seq<char>, j: nat)
    requires |beyond| >= 7 && Begins(c, text) && j <= |text| && j + 7 <= |c|
    ensures TestedMatch(c, LAST_LINE, beyond, h, j) <==> TestedMatch(text + LAST_LINE, LAST_LINE, beyond, h, j)
  {
    var all := text + LAST_LINE;
    assert c[j..j + 7] == all[j..j + 7];
    if j < h < j + 7 {
      assert c[j..j + 7][..h - j] == c[j..h] && c[j..j + 7][h - j..] == c[h..j + 7];
      assert all[j..j + 7][..h - j] == all[j..h] && all[j..j + 7][h - j..] == all[h..j + 7];
    }
  }

  /** The end of the message is tested rightly, unless it straddles. */
  lemma EndTested(text: seq<char>, h: nat, beyond: seq<char>)
    requires |beyond| >= 7
    ensures TestedMatch(text + LAST_LINE, LAST_LINE, beyond, h, |text|) <==> !(|text| < h < |text| + 7)
  {
    var all := text + LAST_LINE;
    assert all[|text|..|text| + 7] == LAST_LINE;
    if |text| < h < |text| + 7 { LastLineStraddling(all, beyond, h, |text|); }
  }

  /** Unless misled, the framer finds the end of the message once it has arrived, and nothing before. */
  lemma MessageEnd(text: seq<char>, c: seq<char>, h: nat, beyond: seq<char>)
    requires |beyond| >= 7 && FirstAt(text + LAST_LINE, LAST_LINE, |text|)
    requires Begins(c, text) && !Misled(text, |c|, h, beyond)
    ensures Stop(c, LAST_LINE, beyond, h) == if |c| >= |text| + 7 then |text| else -1
  {
    hide Begins, TestedMatch;
    var n := |text|;
    forall k: nat | k < n && k + 7 <= |c| ensures !TestedMatch(c, LAST_LINE, beyond, h, k) {
      SameTest(c, text, h, beyond, k);
      if k < h < k + 7 { assert !ErrsAt(text, h, beyond, k); } else { NotBeforeEnd(text, h, beyond, k); }
    }
    NotTooFar(c, h, beyond);
    if |c| >= n + 7 {
      SameTest(c, text, h, beyond, n);
      EndTested(text, h, beyond);
      assert !ErrsAt(text, h, beyond, n);
      StopIs(c, LAST_LINE, beyond, h, 0, n);
    } else {
      StopNever(c, LAST_LINE, beyond, h, 0);
    }
  }

  lemma NotBeforeEnd(text: seq<char>, h: nat, beyond: seq<char>, k: nat)
    requires |beyond| >= 7 && FirstAt(text + LAST_LINE, LAST_LINE, |text|) && k < |text| && !(k < h < k + 7)
    ensures !TestedMatch(text + LAST_LINE, LAST_LINE, beyond, h, k)
  {
  }

  lemma NotTooFar(c: seq<char>, h: nat, beyond: seq<char>)
    requires |beyond| >= 7
    ensures forall k :: TestedMatch(c, LAST_LINE, beyond, h, k) ==> 0 <= k && k + 7 <= |c|
  {
  }

  /** When misled, it finds another end or none. */
  lemma MessageMissed(text: seq<char>, c: seq<char>, h: nat, beyond: seq<char>)
    requires |beyond| >= 7 && Begins(c, text) && Misled(text, |c|, h, beyond)
    ensures Stop(c, LAST_LINE, beyond, h) != |text|
  {
    hide Begins, TestedMatch;
    var j :| 0 <= j <= |text| && j + 7 <= |c| && ErrsAt(text, h, beyond, j);
    SameTest(c, text, h, beyond, j);
    EndTested(text, h, beyond);
    StopMeans(c, LAST_LINE, beyond, h, 0);
  }

  /** A message that does not run past the end of the buffer is never misread. */
  lemma StraightIsNotMisled(text: seq<char>, n: nat, h: nat, beyond: seq<char>)
    requires |beyond| >= 7 && n <= h
    ensures !Misled(text, n, h, beyond)
  {
  }

  lemma MessageBegins(text: seq<char>, c: seq<char>, future: seq<char>, rest: seq<char>)
    requires "+CMGR:" <= text && c + future == text + LAST_LINE + rest
    ensures Begins(c, text)
    ensures if |c| >= 6 then "+CMGR:" <= c else c <= "+CMGR:"
  {
    PrefixesOfOne(c, future, text + LAST_LINE, rest);
    assert forall k :: 0 <= k < |c| && k < 6 ==> c[k] == (c + future)[k] == text[k] == "+CMGR:"[k];
  }

  lemma InsideMessage(text: seq<char>, c: seq<char>, future: seq<char>, rest: seq<char>, h: nat, size: nat,
                      beyond: seq<char>)
    requires |beyond| >= 7 && |c| <= size && WellFormed(Message(text)) && !Misled(text, |c|, h, beyond)
    requires c + future == text + LAST_LINE + rest
    ensures Reports(Next(true, c, h, size, beyond), Message(text), c, h)
  {
    hide Class, Stop, FirstAt, Next, Misled;
    MessageBegins(text, c, future, rest);
    if |c| >= 6 {
      CmgrClass(c);
      MessageEnd(text, c, h, beyond);
      FoundMessage(c, h, size, beyond);
      if |c| >= |text| + 7 { assert c[..|text|] == (text + LAST_LINE)[..|text|] == text; }
    } else {
      FewCmgr(c);
      Waits(c, h, size, beyond);
    }
  }

  /* ------------------------------------------------------------------ a list of several lines */

  lemma ListingBegins(text: seq<char>, c: seq<char>, future: seq<char>, rest: seq<char>)
    requires Lists(text) && c + future == text + LAST_LINE + rest
    ensures Begins(c, text)
    ensures |c| >= 11 ==> Lists(c)
    ensures Lists(c) ==> ("+CLCC:" <= c <==> "+CLCC:" <= text)
    ensures !Lists(c) ==> c <= "+CNUM:" || c <= "ERROR+CNUM:" || c <= "+CLCC:"
  {
    PrefixesOfOne(c, future, text + LAST_LINE, rest);
    assert forall k :: 0 <= k < |c| && k < |text| ==> c[k] == (c + future)[k] == text[k];
    if Lists(c) { assert c[2] == text[2]; }
  }

  /** Part of an identifier is neither another reply nor a line. */
  lemma PartWaits(c: seq<char>, h: nat, size: nat, beyond: seq<char>)
    requires |beyond| >= 7 && |c| <= size && !Lists(c)
    requires c <= "+CNUM:" || c <= "ERROR+CNUM:" || c <= "+CLCC:"
    ensures Next(true, c, h, size, beyond) == Framed(true, 0, h, 0)
  {
    hide Stop, Dropping;
    assert '\r' !in c;
    assert |c| > 0 ==> c[0] == '+' || c[0] == 'E';
    assert |c| > 2 ==> c[2] == 'N' || c[2] == 'L' || c[2] == 'R';
    NoLineEnd(c, beyond, h);
  }

  /** The search cannot err before the identifier has arrived. */
  lemma MisledLate(text: seq<char>, n: nat, h: nat, beyond: seq<char>)
    requires |beyond| >= 7 && Lists(text) && Misled(text, n, h, beyond)
    ensures n >= 12
  {
    hide TestedMatch;
    var j :| 0 <= j <= |text| && j + 7 <= n && ErrsAt(text, h, beyond, j);
    if j < |text| {
      MatchStarts(text + LAST_LINE, LAST_LINE, beyond, h, j);
      assert text[j] == '\n';
    }
  }

  /** With its OK behind it, it is several lines like a stored message. */
  lemma ListingStream(text: seq<char>, rest: seq<char>)
    requires LINE_END + ("OK" + LINE_END) <= rest
    ensures text + "\n" + rest == text + LAST_LINE + rest[6..]
  {
    var ok := LINE_END + ("OK" + LINE_END);
    assert rest == ok + rest[6..];
    assert "\n" + ok == LAST_LINE;
    assert text + "\n" + (ok + rest[6..]) == text + ("\n" + ok) + rest[6..];
  }

  lemma ListingClass(c: seq<char>)
    requires Lists(c)
    ensures Class(c) == (if "+CLCC:" <= c then RES_CLCC else RES_CNUM) && Taken(Class(c), |c|) == |c| + 1
    ensures forall len: nat :: Taken(Class(c), len) == len + 1
  {
    hide ClassFrom;
    assert "+CLCC:" <= c ==> c[2] == 'L';
    ClassifiedIff(c, if "+CLCC:" <= c then RES_CLCC else RES_CNUM);
  }

  lemma InsideListing(text: seq<char>, c: seq<char>, future: seq<char>, rest: seq<char>, h: nat, size: nat,
                      beyond: seq<char>)
    requires |beyond| >= 7 && |c| <= size && WellFormed(Listing(text)) && !Misled(text, |c|, h, beyond)
    requires c + future == text + LAST_LINE + rest
    ensures Reports(Next(true, c, h, size, beyond), Listing(text), c, h)
  {
    hide Class, Stop, FirstAt, Next, Misled, Lists, Taken;
    ListingBegins(text, c, future, rest);
    if Lists(c) {
      ListingClass(c);
      MessageEnd(text, c, h, beyond);
      FoundMessage(c, h, size, beyond);
      if |c| >= |text| + 7 { assert c[..|text|] == (text + LAST_LINE)[..|text|] == text; }
      NotEmptyListing(text);
    } else {
      LongEnough(text);
      PartWaits(c, h, size, beyond);
    }
  }

  lemma NotEmptyListing(text: seq<char>)
    requires Lists(text)
    ensures |text| >= 6
  {
  }

  lemma LongEnough(text: seq<char>)
    requires Lists(text)
    ensures |text| + 7 >= 12
  {
  }

  lemma FewCmgr(c: seq<char>)
    requires c <= "+CMGR:"
    ensures '\r' !in c && !Prompts(c)
  {
    assert c != [] ==> c[0] == "+CMGR:"[0];
  }

  /* ------------------------------------------------------------------ an empty line in front */

  lemma SpacedIsLine(text: seq<char>)
    requires WellFormed(Spaced(text))
    ensures WellFormed(Line(text)) && |text| >= SkipLength(text)
  {
    assert text[0] == '+' && text[1] == 'C';
    assert text[2] == 'S' ==> text[4] == 'U';
    assert text[2] == 'M' ==> text[3] == 'S' || text[4] == 'S';
  }

  lemma EmptyLineAndIdentifier(c: seq<char>)
    ensures EmptyLineBefore(c) <==> LINE_END <= c && SkipsEmptyLine(c[2..])
  {
    if LINE_END <= c { assert c == LINE_END + c[2..]; }
    assert "\r\n+CSSU:"[2..] == "+CSSU:" && "\r\n+CMS ERROR:"[2..] == "+CMS ERROR:" && "\r\n+CMGS:"[2..] == "+CMGS:";
  }

  /** The identifier is seen once all of it has arrived. */
  lemma IdentifierSeen(text: seq<char>, c: seq<char>, future: seq<char>, rest: seq<char>)
    requires WellFormed(Spaced(text)) && c + future == text + LINE_END + rest
    ensures SkipsEmptyLine(c) <==> |c| >= SkipLength(text)
  {
    if "+CSSU:" <= c { FrontOfLine("+CSSU:", c, text, future, rest); }
    if "+CMGS:" <= c { FrontOfLine("+CMGS:", c, text, future, rest); }
    assert "+CMS ERROR:" <= text ==> text[3] == 'S' && text[2] == 'M';
    assert forall k :: 0 <= k < |c| && k < |text| ==> c[k] == (c + future)[k] == text[k];
    SpacedIsLine(text);
  }

  /** The framer has seen enough to skip the empty line. */
  lemma SkipsWhenSeen(text: seq<char>, c: seq<char>, future: seq<char>, rest: seq<char>)
    requires WellFormed(Spaced(text)) && c + future == LINE_END + (text + LINE_END) + rest
    ensures EmptyLineBefore(c) <==> |c| >= 2 + SkipLength(text)
    ensures |c| >= 1 ==> c[0] == '\r'
    ensures |c| >= 2 ==> LINE_END <= c && c[2..] + future == text + LINE_END + rest
  {
    hide WellFormed, SkipLength, SkipsEmptyLine, EmptyLineBefore;
    var all := LINE_END + (text + LINE_END) + rest;
    assert forall k :: 0 <= k < |c| && k < 2 ==> c[k] == (c + future)[k] == all[k] == LINE_END[k];
    EmptyLineAndIdentifier(c);
    if |c| >= 2 {
      assert (c + future)[2..] == c[2..] + future && all[2..] == text + LINE_END + rest;
      IdentifierSeen(text, c[2..], future, rest);
    }
  }

  /** In front of such a line the framer waits, takes the empty line for a reply, or skips it, as more of what follows
      has arrived. */
  lemma EmptyLineRead(text: seq<char>, c: seq<char>, future: seq<char>, rest: seq<char>, h: nat, size: nat,
                      beyond: seq<char>)
    requires |beyond| >= 7 && |c| <= size && WellFormed(Spaced(text))
    requires c + future == LINE_END + (text + LINE_END) + rest
    ensures Next(true, c, h, size, beyond)
         == if |c| < 2 then Framed(true, 0, h, 0)
            else if |c| < 2 + SkipLength(text) then Framed(false, 0, h, 1)
            else Dropping(2, true, c, h, size, beyond)
  {
    hide Stop, Dropping, EmptyLineBefore, WellFormed, SkipLength;
    SkipsWhenSeen(text, c, future, rest);
    if |c| < 2 {
      NoLineEndYet(c, beyond, h);
    } else {
      assert OccursAt(c, LINE_END, 0) by { assert c[0..2] == LINE_END; }
      LineEndFront(c, h, beyond, 0);
    }
  }

  lemma NoLineEndYet(c: seq<char>, beyond: seq<char>, h: nat)
    requires |beyond| >= 7 && |c| < 2
    ensures Stop(c, LINE_END, beyond, h) == -1
  {
  }

  lemma LineEndFront(c: seq<char>, h: nat, beyond: seq<char>, k: nat)
    requires |beyond| >= 7 && FirstAt(c, LINE_END, k)
    ensures Stop(c, LINE_END, beyond, h) == k
  {
    ShortPatternsExact(c, LINE_END, beyond, h);
    StopIs(c, LINE_END, beyond, h, 0, k);
  }

  /** Behind a skipped empty line, the line itself is awaited or reported. */
  lemma BehindSkipped(text: seq<char>, c: seq<char>, future: seq<char>, rest: seq<char>, h: nat, size: nat,
                      beyond: seq<char>)
    requires |beyond| >= 7 && 2 <= |c| <= size && WellFormed(Spaced(text))
    requires c + future == LINE_END + (text + LINE_END) + rest
    ensures c[2..] + future == text + LINE_END + rest
    ensures var h1 := HeadAfter(size, |c|, h, 2);
      Reports(Next(true, c[2..], h1, size, beyond), Line(text), c[2..], h1)
  {
    hide WellFormed, Next, Reports, HeadAfter;
    SpacedIsLine(text);
    SkipsWhenSeen(text, c, future, rest);
    InsideLine(text, c[2..], future, rest, HeadAfter(size, |c|, h, 2), size, beyond);
  }

  /** The empty line is reported as a reply exactly when it has arrived and the identifier behind it has not. */
  lemma EmptyLineReportedIff(text: seq<char>, c: seq<char>, future: seq<char>, rest: seq<char>, h: nat, size: nat,
                             beyond: seq<char>)
    requires |beyond| >= 7 && |c| <= size && WellFormed(Spaced(text))
    requires c + future == LINE_END + (text + LINE_END) + rest
    ensures var f := Next(true, c, h, size, beyond);
      f.frame > 0 && c[f.dropped..][..f.frame] == "\r" <==> 2 <= |c| < 2 + SkipLength(text)
  {
    hide WellFormed, SkipLength, Next, Class, HeadAfter;
    EmptyLineRead(text, c, future, rest, h, size, beyond);
    if |c| >= 2 {
      SkipsWhenSeen(text, c, future, rest);
      BehindSkipped(text, c, future, rest, h, size, beyond);
      assert c[0..][..1] == "\r";
      SpacedIsLine(text);
      LongerReply(text, c[2..]);
    }
  }

  lemma LongerReply(text: seq<char>, c: seq<char>)
    requires text != []
    ensures forall k :: 0 <= k <= |c| && c[..k] == text + "\r" ==> c[..k] != "\r"
  {
    assert |text + "\r"| > |"\r"|;
  }
}
