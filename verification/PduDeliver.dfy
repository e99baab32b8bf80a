/** The SMS-DELIVER of section 9.2.2.1 of 3GPP TS 23.040 written out as the modem shows it, and that pdu_parse
    reads every such text back. */
module PduDeliver {
  import opened Octets
  import opened HexText
  import opened PduFields
  import opened PduAddress
  import opened SeptetCodec
  import opened PduParse

  type byte = n: nat | n < 256

  /** How the text of a message is coded. */
  datatype Coding = Septets7 | Octets8 | Ucs2

  /** The data coding scheme of section 4 of 3GPP TS 23.038, general coding, not compressed: the alphabet in bits 2
      and 3, a class (kind) in bits 0 and 1, which means something when bit 4 is set. */
  function DcsOctet(coding: Coding, meant: bool, kind: nat): byte
    requires kind < 4
  {
    (if meant then 0x10 else 0) + kind + match coding case Septets7 => 0 case Octets8 => 4 case Ucs2 => 8
  }

  /** The bits of the first octet of an SMS-DELIVER, whose type is 0 in bits 0 and 1. */
  datatype First = First(more: bool, loop: bool, spare: bool, report: bool, header: bool, replyPath: bool)

  function FirstOctet(f: First): byte {
    (if f.more then 0x04 else 0) + (if f.loop then 0x08 else 0) + (if f.spare then 0x10 else 0)
    + (if f.report then 0x20 else 0) + (if f.header then 0x40 else 0) + (if f.replyPath then 0x80 else 0)
  }

  /** A message from a service centre: the octets of the address of the centre, the first octet of the PDU, the
      sender and its type of address, the coding, the time stamp, the user data length, and the user data. */
  datatype Deliver = Deliver(sca: seq<octet>, first: First, toa: byte, sender: seq<char>, coding: Coding, meant: bool,
                             kind: nat, stamp: seq<octet>, udl: byte, header: seq<octet>, body: seq<octet>)

  /** Octets of user data: a header, when the first octet announces one, comes behind its length. */
  function DataOctets(m: Deliver): nat {
    if m.first.header then 1 + |m.header| + |m.body| else |m.body|
  }

  /** The user data length counts septets in the 7-bit alphabet, which take no more octets than they need, and octets
      in the others. */
  predicate LengthSays(coding: Coding, udl: nat, octets: nat) {
    if coding.Septets7? then 7 * udl <= 8 * octets < 7 * udl + 8 else octets == udl
  }

  ghost predicate WellFormed(m: Deliver) {
    && |m.sca| < 256
    && 1 <= |m.sender| < 256 && IsAddress(m.sender)
    && m.kind < 4
    && |m.stamp| == 7
    && |m.header| < 256
    && LengthSays(m.coding, m.udl, DataOctets(m))
  }

  /* ------------------------------------------------------------------ what the parser makes of these octets */

  /** The first octets taken for an SMS-DELIVER are those of one, and the header is looked for when it is announced. */
  lemma DeliverIff(v: byte)
    ensures Mti(v) == 0 <==> exists f: First :: FirstOctet(f) == v
    ensures forall f: First :: FirstOctet(f) == v ==> (HasHeader(v) <==> f.header)
  {
    forall f: First | FirstOctet(f) == v ensures Mti(v) == 0 && (HasHeader(v) <==> f.header) { FirstSays(f); }
    if Mti(v) == 0 { var f := FirstOf(v); }
  }

  /** The bits of an octet of that type. */
  lemma FirstOf(v: byte) returns (f: First)
    requires v % 4 == 0
    ensures FirstOctet(f) == v
  {
    var a := v / 4;
    var b := a / 2;
    var c := b / 2;
    var d := c / 2;
    var e := d / 2;
    f := First(a % 2 == 1, b % 2 == 1, c % 2 == 1, d % 2 == 1, e % 2 == 1, e / 2 == 1);
  }

  lemma FirstSays(f: First)
    ensures Mti(FirstOctet(f)) == 0 && (HasHeader(FirstOctet(f)) <==> f.header)
  {
  }

  /** The coding schemes taken are these, and each is reported as what it is. */
  lemma CodingIff(v: byte)
    ensures SupportedDcs(v) <==> exists coding: Coding, meant: bool, kind: nat ::
              kind < 4 && DcsOctet(coding, meant, kind) == v
    ensures forall coding: Coding, meant: bool, kind: nat :: kind < 4 && DcsOctet(coding, meant, kind) == v ==>
              AlphabetEncoding(Alphabet(v))
              == match coding case Septets7 => SevenBitHex case Octets8 => EightBitHex case Ucs2 => Ucs2Hex
  {
    forall coding: Coding, meant: bool, kind: nat | kind < 4 && DcsOctet(coding, meant, kind) == v
      ensures SupportedDcs(v)
      ensures AlphabetEncoding(Alphabet(v))
           == match coding case Septets7 => SevenBitHex case Octets8 => EightBitHex case Ucs2 => Ucs2Hex
    {
      CodingSays(coding, meant, kind);
    }
    if SupportedDcs(v) {
      var coding := if Alphabet(v) == 0 then Septets7 else if Alphabet(v) == 1 then Octets8 else Ucs2;
      assert DcsOctet(coding, (v / 16) % 2 == 1, v % 4) == v;
    }
  }

  lemma CodingSays(coding: Coding, meant: bool, kind: nat)
    requires kind < 4
    ensures var v := DcsOctet(coding, meant, kind);
      && SupportedDcs(v) && (Alphabet(v) == 0 <==> coding.Septets7?)
      && AlphabetEncoding(Alphabet(v))
         == match coding case Septets7 => SevenBitHex case Octets8 => EightBitHex case Ucs2 => Ucs2Hex
  {
  }

  /** And the user data length is taken for what it says. */
  lemma LengthIff(coding: Coding, meant: bool, kind: nat, udl: byte, octets: nat)
    requires kind < 4
    ensures UserDataOctets(DcsOctet(coding, meant, kind), udl) == octets <==> LengthSays(coding, udl, octets)
  {
    hide DcsOctet, Alphabet;
    CodingSays(coding, meant, kind);
  }

  /** One octet in digits. */
  function Two(v: byte): (t: seq<char>)
    ensures |t| == 2
  {
    [HexDigit(v / 16), HexDigit(v % 16)]
  }

  function UserDataText(m: Deliver): (t: seq<char>)
    requires |m.header| < 256
    ensures |t| == 2 * DataOctets(m)
  {
    if m.first.header then Then(Two(|m.header|), Then(Hex(m.header), Hex(m.body))) else Hex(m.body)
  }

  function DataText(m: Deliver): (t: seq<char>)
    requires WellFormed(m)
    ensures |t| % 2 == 0
  {
    Then(Two(DcsOctet(m.coding, m.meant, m.kind)), Then(Hex(m.stamp), Then(Two(m.udl), UserDataText(m))))
  }

  function TpduText(m: Deliver): seq<char>
    requires WellFormed(m)
  {
    Then(Two(FirstOctet(m.first)), Then(Two(|m.sender|),
      Then(Two(m.toa), Then(SemiOctets(m.sender), Then(Two(0), DataText(m))))))
  }

  lemma TpduTextIsWholeOctets(m: Deliver)
    requires WellFormed(m)
    ensures |TpduText(m)| % 2 == 0
  {
    hide Two, Then, SemiOctets, DataText, WellFormed;
    Sizes(m);
  }

  lemma Sizes(m: Deliver)
    requires WellFormed(m)
    ensures |m.sender| < 256 && |m.sca| < 256
  {
  }

  function Text(m: Deliver): seq<char>
    requires WellFormed(m)
  {
    Then(Two(|m.sca|), Then(Hex(m.sca), TpduText(m)))
  }

  /* ------------------------------------------------------------------ reading one piece */

  lemma ByteHere(text: seq<char>, pos: nat, v: byte, rest: seq<char>)
    requires At(text, pos, Then(Two(v), rest))
    ensures pos + 2 <= |text| && ByteAt(text, pos) == Read(v, pos + 2) && At(text, pos + 2, rest)
  {
    hide HexDigit, ParseHexDigit, At, Then, Two;
    FirstTwo(text, pos, v, rest);
    HighLow(v);
    Past(text, pos, Two(v), rest);
  }

  lemma FirstTwo(text: seq<char>, pos: nat, v: byte, rest: seq<char>)
    requires At(text, pos, Then(Two(v), rest))
    ensures pos + 2 <= |text| && text[pos] == HexDigit(v / 16) && text[pos + 1] == HexDigit(v % 16)
  {
    hide HexDigit;
    assert text[pos] == text[pos..][0] && text[pos + 1] == text[pos..][1];
  }

  lemma NumberHere(text: seq<char>, pos: nat, toa: byte, sender: seq<char>, rest: seq<char>)
    requires IsAddress(sender) && At(text, pos, Then(Two(toa), Then(SemiOctets(sender), rest)))
    ensures pos + 2 + RoundUp2(|sender|) <= |text| && At(text, pos + 2 + RoundUp2(|sender|), rest)
    ensures NumberAt(text, pos, |sender|)
         == Number(2 + RoundUp2(|sender|), toa, StoredSender(toa, sender), pos + 2 + RoundUp2(|sender|))
  {
    hide At, Then, SemiOctets, DigitsAt, IsAddress, Two, ByteAt, UpperAll, NumberAt, StoredSender;
    ByteHere(text, pos, toa, Then(SemiOctets(sender), rest));
    DigitsOfSemiOctets(text, pos + 2, sender, rest);
    Past(text, pos + 2, SemiOctets(sender), rest);
    OnlyOneNul(text, pos, toa, sender);
  }

  /** An odd last digit brings the NUL with it, an even one gets it afterwards. */
  lemma OnlyOneNul(text: seq<char>, pos: nat, toa: byte, sender: seq<char>)
    requires pos + 2 + RoundUp2(|sender|) <= |text| && ByteAt(text, pos) == Read(toa, pos + 2)
    requires DigitsAt(text, pos + 2, RoundUp2(|sender|), |sender| % 2 == 1)
          == Digits(true, UpperAll(sender) + if |sender| % 2 == 1 then ['\0'] else [], pos + 2 + RoundUp2(|sender|))
    ensures NumberAt(text, pos, |sender|)
         == Number(2 + RoundUp2(|sender|), toa, StoredSender(toa, sender), pos + 2 + RoundUp2(|sender|))
  {
    hide DigitsAt, ByteAt, UpperAll;
    var plus := if toa == INTERNATIONAL then ['+'] else [];
    var upper := UpperAll(sender);
    assert plus + (upper + ['\0']) + [] == plus + (upper + ['\0']) == plus + (upper + []) + ['\0'];
  }

  /** The number as the dialplan sees it: '+' when international, letters in upper case, a NUL behind. */
  function StoredSender(toa: byte, sender: seq<char>): seq<char> {
    (if toa == 0x91 then ['+'] else []) + (UpperAll(sender) + ['\0'])
  }

  /* ------------------------------------------------------------------ reading it all */

  lemma DataHere(m: Deliver, text: seq<char>, pos: nat)
    requires WellFormed(m) && At(text, pos, DataText(m))
    ensures pos <= |text| && DataFrom(text, pos, FirstOctet(m.first)) == Accepted(CodingOf(m), |text| - 2 * |m.body|)
    ensures 2 * |m.body| <= |text| && At(text, |text| - 2 * |m.body|, Hex(m.body))
  {
    hide At, Then, ByteAt, Two, Hex, SupportedDcs, UserDataOctets, AlphabetEncoding, Alphabet, HeaderFrom, HasHeader,
      IsAddress, UserDataText, DcsOctet, FirstOctet, LengthSays;
    var dcs := DcsOctet(m.coding, m.meant, m.kind);
    CodingSays(m.coding, m.meant, m.kind);
    LengthIff(m.coding, m.meant, m.kind, m.udl, DataOctets(m));
    FirstSays(m.first);
    ByteHere(text, pos, dcs, Then(Hex(m.stamp), Then(Two(m.udl), UserDataText(m))));
    Past(text, pos + 2, Hex(m.stamp), Then(Two(m.udl), UserDataText(m)));
    ByteHere(text, pos + 16, m.udl, UserDataText(m));
    AtEnd(text, pos + 18, UserDataText(m));
    if m.first.header {
      HeaderHere(m, text, pos + 18, CodingOf(m));
    } else {
      NoHeader(m);
    }
  }

  /** How the text of the message is coded, in the driver's terms. */
  function CodingOf(m: Deliver): Encoding {
    match m.coding case Septets7 => SevenBitHex case Octets8 => EightBitHex case Ucs2 => Ucs2Hex
  }

  lemma NoHeader(m: Deliver)
    requires |m.header| < 256 && !m.first.header
    ensures UserDataText(m) == Hex(m.body)
  {
  }

  lemma HeaderHere(m: Deliver, text: seq<char>, pos: nat, encoding: Encoding)
    requires |m.header| < 256 && m.first.header && At(text, pos, UserDataText(m))
    ensures pos <= |text| && HeaderFrom(text, pos, encoding) == Accepted(encoding, |text| - 2 * |m.body|)
    ensures 2 * |m.body| <= |text| && At(text, |text| - 2 * |m.body|, Hex(m.body))
  {
    hide At, Then, ByteAt, Two, Hex;
    ByteHere(text, pos, |m.header|, Then(Hex(m.header), Hex(m.body)));
    Past(text, pos + 2, Hex(m.header), Hex(m.body));
    AtEnd(text, pos + 2 + 2 * |m.header|, Hex(m.body));
  }

  lemma TpduHere(m: Deliver, text: seq<char>, pos: nat, oaLen: nat)
    requires WellFormed(m) && oaLen > |m.sender| && At(text, pos, TpduText(m))
    ensures pos <= |text| && TpduFrom(text, pos, oaLen)
         == Outcome(StoredSender(m.toa, m.sender), Accepted(CodingOf(m), |text| - 2 * |m.body|))
    ensures 2 * |m.body| <= |text| && At(text, |text| - 2 * |m.body|, Hex(m.body))
  {
    hide At, Then, ByteAt, Two, Hex, DataFrom, IsAddress, NumberAt, SemiOctets, DataText, StoredSender, RoundUp2,
      FirstOctet, LengthSays, CodingOf, Mti;
    var n := |m.sender|;
    var r3 := Then(Two(0), DataText(m));
    var r2 := Then(Two(m.toa), Then(SemiOctets(m.sender), r3));
    FirstSays(m.first);
    ByteHere(text, pos, FirstOctet(m.first), Then(Two(n), r2));
    ByteHere(text, pos + 2, n, r2);
    NumberHere(text, pos + 4, m.toa, m.sender, r3);
    var p := pos + 6 + RoundUp2(|m.sender|);
    ByteHere(text, p, 0, DataText(m));
    DataHere(m, text, p + 2);
  }

  /** pdu_parse accepts the text of every well-formed message, given its length without the address of the
      centre and room for the sender and a NUL; it reports the sender, the coding, and the user data after any header,
      digit for digit. */
  lemma ParseInvertsText(m: Deliver, oaLen: nat)
    requires WellFormed(m) && oaLen > |m.sender|
    ensures var t, start := Text(m), |Text(m)| - 2 * |m.body|;
      && |TpduText(m)| % 2 == 0
      && PduFrom(t, |TpduText(m)| / 2, oaLen) == Outcome(StoredSender(m.toa, m.sender), Accepted(CodingOf(m), start))
      && start >= 0 && At(t, start, Hex(m.body))
  {
    hide At, Then, ByteAt, Two, Hex, TpduText, WellFormed, TpduFrom, StoredSender, CodingOf;
    Sizes(m);
    TpduTextIsWholeOctets(m);
    var t := Text(m);
    AtStart(t);
    ByteHere(t, 0, |m.sca|, Then(Hex(m.sca), TpduText(m)));
    Past(t, 2, Hex(m.sca), TpduText(m));
    TpduHere(m, t, 2 + 2 * |m.sca|, oaLen);
  }
}
