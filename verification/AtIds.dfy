/** What the identifiers of the table have in common, and which replies have a length of their own. */
module AtIds {
  import opened AtResponses

  /** No identifier holds a newline. */
  lemma IdHasNoNewline(i: nat, k: nat)
    requires k < |Id(i)|
    ensures Id(i)[k] != '\n'
  {
    hide Id;
    if i < 10 { NoNewlineTo10(i, k); } else if i < 20 { NoNewlineTo20(i, k); }
    else if i < 30 { NoNewlineTo30(i, k); } else { NoNewlineOn(i, k); }
  }

  lemma NoNewlineTo10(i: nat, k: nat)
    requires i < 10 && k < |Id(i)|
    ensures Id(i)[k] != '\n'
  {
  }

  lemma NoNewlineTo20(i: nat, k: nat)
    requires 10 <= i < 20 && k < |Id(i)|
    ensures Id(i)[k] != '\n'
  {
  }

  lemma NoNewlineTo30(i: nat, k: nat)
    requires 20 <= i < 30 && k < |Id(i)|
    ensures Id(i)[k] != '\n'
  {
  }

  lemma NoNewlineOn(i: nat, k: nat)
    requires 30 <= i && k < |Id(i)|
    ensures Id(i)[k] != '\n'
  {
  }

  /** The first five characters tell an identifier that announces one of the replies with a length of their own. */
  lemma OwnLength(i: nat)
    requires IDS_FIRST <= i < IDS
    ensures Res(i) == RES_SMS_PROMPT <==> i == 27
    ensures Res(i) == RES_CMGR <==> i == 5
    ensures Res(i) == RES_CSSI <==> i == 15
  {
  }

  lemma OnlyPrompt(c: seq<char>, i: nat)
    requires "> " <= c && Matches(c, i)
    ensures i == 27
  {
    assert c[0] == Id(i)[0];
  }

  lemma OnlyCssi(c: seq<char>, i: nat)
    requires "+CSSI:" <= c && Matches(c, i)
    ensures i == 15
  {
    assert |Id(i)| > 4 ==> c[0] == Id(i)[0] && c[2] == Id(i)[2] && c[4] == Id(i)[4];
    assert |Id(i)| > 3 ==> c[3] == Id(i)[3];
    assert c[0] == Id(i)[0];
  }

  lemma OnlyCmgr(c: seq<char>, i: nat)
    requires "+CMGR:" <= c && Matches(c, i)
    ensures i == 5
  {
    assert c[0] == Id(i)[0];
    assert |Id(i)| > 4 ==> c[2] == Id(i)[2] && c[3] == Id(i)[3] && c[4] == Id(i)[4];
  }

  lemma {:induction false} ClassIs(c: seq<char>, i: nat, from: nat)
    requires IDS_FIRST <= i < IDS && from <= i && Matches(c, i)
    requires forall j :: Matches(c, j) ==> j == i
    ensures ClassFrom(c, from) == Res(i)
    decreases i - from
  {
    hide Id, Res, Matches;
    if from < i { ClassIs(c, i, from + 1); }
  }

  /** A reply that is not unknown was announced by its identifier. */
  lemma {:induction false} ClassMatches(c: seq<char>, from: nat) returns (i: nat)
    requires ClassFrom(c, from) != RES_UNKNOWN
    ensures from <= i < IDS && Matches(c, i) && Res(i) == ClassFrom(c, from)
    decreases IDS - from
  {
    hide Id, Res, Matches;
    i := from;
    if from < IDS && !Matches(c, from) { i := ClassMatches(c, from + 1); }
  }

  lemma {:induction false} SameMatches(c: seq<char>, d: seq<char>, from: nat)
    requires forall i :: Matches(c, i) <==> Matches(d, i)
    ensures ClassFrom(c, from) == ClassFrom(d, from)
    decreases IDS - from
  {
    hide Id, Res, Matches;
    if from < IDS { SameMatches(c, d, from + 1); }
  }

  lemma PromptClass(c: seq<char>)
    requires "> " <= c
    ensures Class(c) == RES_SMS_PROMPT
  {
    forall i | Matches(c, i) ensures i == 27 { OnlyPrompt(c, i); }
    ClassIs(c, 27, IDS_FIRST);
  }

  lemma CssiClass(c: seq<char>)
    requires "+CSSI:" <= c
    ensures Class(c) == RES_CSSI
  {
    forall i | Matches(c, i) ensures i == 15 { OnlyCssi(c, i); }
    ClassIs(c, 15, IDS_FIRST);
  }

  lemma CmgrClass(c: seq<char>)
    requires "+CMGR:" <= c
    ensures Class(c) == RES_CMGR
  {
    forall i | Matches(c, i) ensures i == 5 { OnlyCmgr(c, i); }
    ClassIs(c, 5, IDS_FIRST);
  }

  /** Anything else takes its bytes and one more. */
  lemma OrdinaryTaken(c: seq<char>, len: nat)
    requires !("> " <= c) && !("+CSSI:" <= c) && !("+CMGR:" <= c)
    ensures Taken(Class(c), len) == len + 1
  {
    if Class(c) in {RES_SMS_PROMPT, RES_CSSI, RES_CMGR} {
      var i := ClassMatches(c, IDS_FIRST);
      OwnLength(i);
      SpecialIds();
    }
  }

  lemma SpecialIds()
    ensures Id(27) == "> " && Id(15) == "+CSSI:" && Id(5) == "+CMGR:"
  {
  }
}
