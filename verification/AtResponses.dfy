/** The table of reply identifiers of at_response.c, and the classifier of at_read.c. */
module AtResponses {
  import opened RingBuffer

  datatype Reply = RES_PARSE_ERROR | RES_UNKNOWN | RES_BOOT | RES_BUSY | RES_CEND | RES_CMGR | RES_CMS_ERROR | RES_CMTI
    | RES_CNUM | RES_CONF | RES_CONN | RES_COPS | RES_CPIN | RES_CREG | RES_CSQ | RES_CSSI | RES_CSSU | RES_CUSD
    | RES_ERROR | RES_MODE | RES_NO_CARRIER | RES_NO_DIALTONE | RES_OK | RES_ORIG | RES_RING | RES_RSSI
    | RES_SMMEMFULL | RES_SMS_PROMPT | RES_SRVST | RES_CVOICE | RES_CMGS | RES_CSCA | RES_CLCC | RES_CCWA

  const IDS_FIRST := 2
  const IDS := 37

  /** Identifier i of the table; the first two entries have none. */
  function Id(i: nat): seq<char> {
    if i < 10 then
      if i < 2 then "" else if i == 2 then "^BOOT:" else if i == 3 then "BUSY\r" else if i == 4 then "^CEND:"
      else if i == 5 then "+CMGR:" else if i == 6 then "+CMS ERROR:" else if i == 7 then "+CMTI:"
      else if i == 8 then "+CNUM:" else "^CONF:"
    else if i < 20 then
      if i == 10 then "^CONN:" else if i == 11 then "+COPS:" else if i == 12 then "+CPIN:" else if i == 13 then "+CREG:"
      else if i == 14 then "+CSQ:" else if i == 15 then "+CSSI:" else if i == 16 then "+CSSU:"
      else if i == 17 then "+CUSD:" else if i == 18 then "ERROR\r" else "^MODE:"
    else if i < 30 then
      if i == 20 then "NO CARRIER\r" else if i == 21 then "NO DIALTONE\r" else if i == 22 then "OK\r"
      else if i == 23 then "^ORIG:" else if i == 24 then "RING\r" else if i == 25 then "^RSSI:"
      else if i == 26 then "^SMMEMFULL:" else if i == 27 then "> " else if i == 28 then "^SRVST:" else "^CVOICE:"
    else
      if i == 30 then "+CMGS:" else if i == 31 then "+CPMS:" else if i == 32 then "+CSCA:" else if i == 33 then "+CLCC:"
      else if i == 34 then "+CCWA:" else if i == 35 then "ERROR+CNUM:" else if i == 36 then "COMMAND NOT SUPPORT\r"
      else ""
  }

  /** The reply entry i announces. */
  function Res(i: nat): Reply {
    if i < 10 then
      if i < 1 then RES_PARSE_ERROR else if i == 1 then RES_UNKNOWN else if i == 2 then RES_BOOT
      else if i == 3 then RES_BUSY else if i == 4 then RES_CEND else if i == 5 then RES_CMGR
      else if i == 6 then RES_CMS_ERROR else if i == 7 then RES_CMTI else if i == 8 then RES_CNUM else RES_CONF
    else if i < 20 then
      if i == 10 then RES_CONN else if i == 11 then RES_COPS else if i == 12 then RES_CPIN
      else if i == 13 then RES_CREG else if i == 14 then RES_CSQ else if i == 15 then RES_CSSI
      else if i == 16 then RES_CSSU else if i == 17 then RES_CUSD else if i == 18 then RES_ERROR else RES_MODE
    else if i < 30 then
      if i == 20 then RES_NO_CARRIER else if i == 21 then RES_NO_DIALTONE else if i == 22 then RES_OK
      else if i == 23 then RES_ORIG else if i == 24 then RES_RING else if i == 25 then RES_RSSI
      else if i == 26 then RES_SMMEMFULL else if i == 27 then RES_SMS_PROMPT else if i == 28 then RES_SRVST
      else RES_CVOICE
    else
      if i == 30 then RES_CMGS else if i == 31 then RES_CMGS else if i == 32 then RES_CSCA else if i == 33 then RES_CLCC
      else if i == 34 then RES_CCWA else if i == 35 then RES_CNUM else RES_ERROR
  }

  /** The text begins with identifier i. */
  predicate Matches(c: seq<char>, i: nat) {
    Id(i) != [] && Id(i) <= c
  }

  /** The reply of the first entry from i on whose identifier the text begins with. */
  function ClassFrom(c: seq<char>, i: nat): Reply
    decreases IDS - i
  {
    if i >= IDS then RES_UNKNOWN else if Matches(c, i) then Res(i) else ClassFrom(c, i + 1)
  }

  function Class(c: seq<char>): Reply {
    ClassFrom(c, IDS_FIRST)
  }

  /** How many bytes a reply takes, given the bytes before its end mark. */
  function Taken(res: Reply, len: nat): nat {
    if res == RES_SMS_PROMPT then 2
    else if res == RES_CMGR then len + 7
    else if res == RES_CSSI then 8
    else len + 1
  }

  /** at_read_result_classification. */
  method Classify(rb: RingBuffer, len: nat) returns (res: Reply)
    requires rb.Valid()
    modifies rb`read, rb`write, rb`used
    ensures rb.Valid() && res == Class(old(rb.Contents()))
    ensures rb.Contents() == old(rb.Contents())[Min(Taken(res, len), old(rb.used))..]
    ensures rb.size - rb.read == HeadAfter(rb.size, old(rb.used), old(rb.size - rb.read),
                                           Min(Taken(res, len), old(rb.used)))
  {
    hide ClassFrom;
    res := Identify(rb);
    ghost var used, h := rb.used, rb.size - rb.read;
    var dropped := rb.ReadUpd(Taken(res, len));
    assert rb.size - rb.read == HeadAfter(rb.size, used, h, dropped);
  }

  /** The search of the table. */
  method Identify(rb: RingBuffer) returns (res: Reply)
    requires rb.Valid()
    ensures res == Class(rb.Contents())
  {
    hide Id, Res, Matches;
    var idx := IDS_FIRST;
    while idx < IDS
      invariant IDS_FIRST <= idx <= IDS && ClassFrom(rb.Contents(), idx) == Class(rb.Contents())
    {
      var same := FrontIsId(rb, idx);
      if same {
        return Res(idx);
      }
      idx := idx + 1;
    }
    return RES_UNKNOWN;
  }

  method FrontIsId(rb: RingBuffer, i: nat) returns (b: bool)
    requires rb.Valid()
    ensures b == Matches(rb.Contents(), i)
  {
    hide Id;
    var r := rb.Memcmp(Id(i));
    return r == 0;
  }
}
