/** Which texts announce which reply, said without the table: the classifier decides by these and nothing else. */
module AtReplies {
  import opened AtResponses
  import opened AtIds

  /** The text begins as this reply does. */
  predicate Announces(c: seq<char>, res: Reply) {
    match res
    case RES_OK => "OK\r" <= c
    case RES_ERROR => "ERROR\r" <= c || "COMMAND NOT SUPPORT\r" <= c
    case RES_CMS_ERROR => "+CMS ERROR:" <= c
    case RES_SMS_PROMPT => "> " <= c
    case RES_CMGR => "+CMGR:" <= c
    case RES_CMGS => "+CMGS:" <= c || "+CPMS:" <= c
    case RES_CMTI => "+CMTI:" <= c
    case RES_CSCA => "+CSCA:" <= c
    case RES_CNUM => "+CNUM:" <= c || "ERROR+CNUM:" <= c
    case RES_CLCC => "+CLCC:" <= c
    case RES_CCWA => "+CCWA:" <= c
    case RES_CSSI => "+CSSI:" <= c
    case RES_CSSU => "+CSSU:" <= c
    case RES_CUSD => "+CUSD:" <= c
    case RES_COPS => "+COPS:" <= c
    case RES_CPIN => "+CPIN:" <= c
    case RES_CREG => "+CREG:" <= c
    case RES_CSQ => "+CSQ:" <= c
    case RES_ORIG => "^ORIG:" <= c
    case RES_CONF => "^CONF:" <= c
    case RES_CONN => "^CONN:" <= c
    case RES_CEND => "^CEND:" <= c
    case RES_RING => "RING\r" <= c
    case RES_BUSY => "BUSY\r" <= c
    case RES_NO_CARRIER => "NO CARRIER\r" <= c
    case RES_NO_DIALTONE => "NO DIALTONE\r" <= c
    case RES_BOOT => "^BOOT:" <= c
    case RES_MODE => "^MODE:" <= c
    case RES_RSSI => "^RSSI:" <= c
    case RES_SMMEMFULL => "^SMMEMFULL:" <= c
    case RES_SRVST => "^SRVST:" <= c
    case RES_CVOICE => "^CVOICE:" <= c
    case RES_PARSE_ERROR => false
    case RES_UNKNOWN => false
  }

  /** Where the table has the identifier the text begins with, told from a few of its characters. */
  function Place(c: seq<char>): nat {
    if |c| < 2 then 0
    else if c[0] == '+' then if |c| < 5 then 0 else PlacePlus(c[2], c[3], c[4])
    else if c[0] == '^' then if |c| < 5 then 0 else PlaceHat(c[1], c[2], c[4])
    else if c[0] == '>' then 27
    else if c[0] == 'B' then 3
    else if c[0] == 'C' then 36
    else if c[0] == 'E' then if |c| > 5 && c[5] == '+' then 35 else 18
    else if c[0] == 'N' then if |c| > 3 && c[3] == 'C' then 20 else 21
    else if c[0] == 'O' then 22
    else 24
  }

  function PlacePlus(x: char, y: char, z: char): nat {
    if x == 'M' then if y == 'G' then if z == 'R' then 5 else 30 else if y == 'S' then 6 else 7
    else if x == 'N' then 8 else if x == 'O' then 11
    else if x == 'P' then if y == 'I' then 12 else 31
    else if x == 'R' then 13
    else if x == 'S' then if y == 'Q' then 14 else if y == 'C' then 32 else if z == 'I' then 15 else 16
    else if x == 'U' then 17 else if x == 'L' then 33 else 34
  }

  function PlaceHat(x: char, y: char, z: char): nat {
    if x == 'B' then 2
    else if x == 'C' then if y == 'E' then 4 else if y == 'V' then 29 else if z == 'F' then 9 else 10
    else if x == 'M' then 19 else if x == 'O' then 23 else if x == 'R' then 25
    else if y == 'M' then 26 else 28
  }

  /** The first characters of an identifier are those of the text. */
  lemma FrontOf(c: seq<char>, i: nat)
    requires Matches(c, i)
    ensures |Id(i)| <= |c| && forall k :: 0 <= k < |Id(i)| ==> c[k] == Id(i)[k]
  {
    hide Id;
  }

  lemma PlaceTo10(c: seq<char>, i: nat)
    requires IDS_FIRST <= i < 10 && Matches(c, i)
    ensures Place(c) == i
  {
    FrontOf(c, i);
  }

  lemma PlaceTo20(c: seq<char>, i: nat)
    requires 10 <= i < 20 && Matches(c, i)
    ensures Place(c) == i
  {
    FrontOf(c, i);
  }

  lemma PlaceTo30(c: seq<char>, i: nat)
    requires 20 <= i < 30 && Matches(c, i)
    ensures Place(c) == i
  {
    FrontOf(c, i);
  }

  lemma PlaceTo37(c: seq<char>, i: nat)
    requires 30 <= i < IDS && Matches(c, i)
    ensures Place(c) == i
  {
    FrontOf(c, i);
  }

  /** No text begins with two identifiers. */
  lemma OnlyOne(c: seq<char>, i: nat)
    requires Matches(c, i)
    ensures IDS_FIRST <= i < IDS && Place(c) == i
  {
    hide Matches, Place;
    InTable(c, i);
    if i < 10 { PlaceTo10(c, i); } else if i < 20 { PlaceTo20(c, i); }
    else if i < 30 { PlaceTo30(c, i); } else { PlaceTo37(c, i); }
  }

  lemma InTable(c: seq<char>, i: nat)
    requires Matches(c, i)
    ensures IDS_FIRST <= i < IDS
  {
  }

  lemma EntryTo20(c: seq<char>, i: nat)
    requires IDS_FIRST <= i < 20 && Matches(c, i)
    ensures Announces(c, Res(i)) && Res(i) != RES_UNKNOWN
  {
  }

  lemma EntryTo37(c: seq<char>, i: nat)
    requires 20 <= i < IDS && Matches(c, i)
    ensures Announces(c, Res(i)) && Res(i) != RES_UNKNOWN
  {
  }

  /** An entry announces its reply by its identifier. */
  lemma EntryAnnounces(c: seq<char>, i: nat)
    requires IDS_FIRST <= i < IDS && Matches(c, i)
    ensures Announces(c, Res(i)) && Res(i) != RES_UNKNOWN
  {
    hide Announces, Res, Matches;
    if i < 20 { EntryTo20(c, i); } else { EntryTo37(c, i); }
  }

  /** And whatever announces a reply is the identifier of an entry for it. */
  lemma AnnouncedByEntry(c: seq<char>, res: Reply) returns (i: nat)
    requires Announces(c, res)
    ensures IDS_FIRST <= i < IDS && Matches(c, i) && Res(i) == res
  {
    i := IDS_FIRST;
    match res
    case RES_OK => i := 22;
    case RES_ERROR => i := if "ERROR\r" <= c then 18 else 36;
    case RES_CMS_ERROR => i := 6;
    case RES_SMS_PROMPT => i := 27;
    case RES_CMGR => i := 5;
    case RES_CMGS => i := if "+CMGS:" <= c then 30 else 31;
    case RES_CMTI => i := 7;
    case RES_CSCA => i := 32;
    case RES_CNUM => i := if "+CNUM:" <= c then 8 else 35;
    case RES_CLCC => i := 33;
    case RES_CCWA => i := 34;
    case RES_CSSI => i := 15;
    case RES_CSSU => i := 16;
    case RES_CUSD => i := 17;
    case RES_COPS => i := 11;
    case RES_CPIN => i := 12;
    case RES_CREG => i := 13;
    case RES_CSQ => i := 14;
    case RES_ORIG => i := 23;
    case RES_CONF => i := 9;
    case RES_CONN => i := 10;
    case RES_CEND => i := 4;
    case RES_RING => i := 24;
    case RES_BUSY => i := 3;
    case RES_NO_CARRIER => i := 20;
    case RES_NO_DIALTONE => i := 21;
    case RES_BOOT => i := 2;
    case RES_MODE => i := 19;
    case RES_RSSI => i := 25;
    case RES_SMMEMFULL => i := 26;
    case RES_SRVST => i := 28;
    case RES_CVOICE => i := 29;
    case RES_PARSE_ERROR => assert false;
    case RES_UNKNOWN => assert false;
  }

  /** A text is classified as a reply exactly when it begins as that reply does, and as unknown exactly when it begins
      as none does. */
  lemma ClassifiedIff(c: seq<char>, res: Reply)
    ensures res != RES_UNKNOWN ==> (Class(c) == res <==> Announces(c, res))
    ensures Class(c) == RES_UNKNOWN <==> forall other: Reply :: !Announces(c, other)
  {
    hide Id, Res, Matches, Place, Announces, ClassFrom;
    if Class(c) != RES_UNKNOWN {
      var i := ClassMatches(c, IDS_FIRST);
      OnlyOne(c, i);
      EntryAnnounces(c, i);
    }
    forall other: Reply | Announces(c, other) ensures Class(c) == other && other != RES_UNKNOWN {
      var i := AnnouncedByEntry(c, other);
      EntryAnnounces(c, i);
      forall j | Matches(c, j) ensures j == i { OnlyOne(c, i); OnlyOne(c, j); }
      ClassIs(c, i, IDS_FIRST);
    }
  }
}
