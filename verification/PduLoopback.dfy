/** What pdu_parse makes of user data that the driver's own packer produced. */
module PduLoopback {
  import opened Octets
  import opened HexText
  import opened Septets
  import opened SeptetCodec
  import opened PduFields
  import opened PduParse
  import opened PduDeliver

  /** The end of a message in the 7-bit alphabet: coding, time stamp, septet count, packed septets. */
  function SeptetText(stamp: seq<octet>, count: byte, octets: seq<octet>): seq<char> {
    Then(Two(0), Then(Hex(stamp), Then(Two(count), Hex(octets))))
  }

  /** The stages of the parser on such a text. */
  lemma SeptetStages(t: seq<char>, pos: nat, pduType: byte, count: byte, data: seq<char>)
    requires |t| == pos + 18 + |data| && |data| % 2 == 0 && !HasHeader(pduType)
    requires ByteAt(t, pos) == Read(0, pos + 2) && ByteAt(t, pos + 16) == Read(count, pos + 18)
    ensures DataFrom(t, pos, pduType)
         == if |data| / 2 == (7 * count + 7) / 8 then Accepted(SevenBitHex, pos + 18)
            else Refused(UdlMismatch, pos + 16)
  {
    hide ByteAt, HasHeader;
  }

  /** The fields of such a text, one by one. */
  lemma SeptetFields(t: seq<char>, pos: nat, stamp: seq<octet>, count: byte, octets: seq<octet>)
    requires |stamp| == 7
    requires At(t, pos, Then(Two(0), Then(Hex(stamp), Then(Two(count), Hex(octets)))))
    ensures |t| == pos + 18 + |Hex(octets)| && At(t, pos + 18, Hex(octets))
    ensures ByteAt(t, pos) == Read(0, pos + 2) && ByteAt(t, pos + 16) == Read(count, pos + 18)
  {
    hide *;
    var data := Hex(octets);
    ByteHere(t, pos, 0, Then(Hex(stamp), Then(Two(count), data)));
    Past(t, pos + 2, Hex(stamp), Then(Two(count), data));
    ByteHere(t, pos + 16, count, data);
    AtEnd(t, pos + 18, data);
  }

  /** The parser takes it exactly when there are as many octets as the septets need. */
  lemma SeptetsAccepted(t: seq<char>, pos: nat, pduType: byte, stamp: seq<octet>, count: byte, octets: seq<octet>)
    requires |stamp| == 7 && !HasHeader(pduType) && At(t, pos, SeptetText(stamp, count, octets))
    ensures |t| == pos + 18 + |Hex(octets)| && At(t, pos + 18, Hex(octets))
    ensures DataFrom(t, pos, pduType)
         == if |octets| == (7 * count + 7) / 8 then Accepted(SevenBitHex, pos + 18) else Refused(UdlMismatch, pos + 16)
  {
    hide At, Then, ByteAt, Two, Hex, HasHeader, DataFrom;
    SeptetFields(t, pos, stamp, count, octets);
    SeptetStages(t, pos, pduType, count, Hex(octets));
  }

  /** The packer and the parser agree on the number of octets exactly when eight does not divide the number of
      characters; then unpacking what is reported gives the text. Otherwise the message is refused. */
  lemma PackedIsAcceptedIff(t: seq<char>, pos: nat, pduType: byte, stamp: seq<octet>, text: seq<octet>, scan: Scan)
    requires |text| < 256 && SevenBit(text) && |stamp| == 7 && !HasHeader(pduType)
    requires At(t, pos, SeptetText(stamp, |text|, Pack(text)))
    ensures |t| == pos + 18 + |Hex(Pack(text))| && At(t, pos + 18, Hex(Pack(text)))
    ensures DataFrom(t, pos, pduType)
         == if text == [] || |text| % 8 != 0 then Accepted(SevenBitHex, pos + 18) else Refused(UdlMismatch, pos + 16)
    ensures AllScan(scan, Hex(Pack(text)))
    ensures Unpack(Scanned(scan, Hex(Pack(text))))
         == if text != [] && |text| % 8 in {0, 7} then text + [0] else text
  {
    hide At, SeptetText, DataFrom, Hex, Pack, HasHeader, SevenBit, Unpack, Scanned, PackedLength, AllScan;
    TextRoundTrip(scan, text);
    SeptetsAccepted(t, pos, pduType, stamp, |text|, Pack(text));
    PackedLengthIsLeastIff(|text|);
  }

  /** User data packed as section 6.1.2.1.1 of 3GPP TS 23.038 packs it is always accepted, and unpacks to the text,
      with one NUL behind it exactly when the last group of eight lacks one character. */
  lemma StandardIsAccepted(t: seq<char>, pos: nat, pduType: byte, stamp: seq<octet>, text: seq<octet>, scan: Scan)
    requires |text| < 256 && SevenBit(text) && |stamp| == 7 && !HasHeader(pduType)
    requires At(t, pos, SeptetText(stamp, |text|, StandardPack(text)))
    ensures |t| == pos + 18 + |Hex(StandardPack(text))| && At(t, pos + 18, Hex(StandardPack(text)))
    ensures DataFrom(t, pos, pduType) == Accepted(SevenBitHex, pos + 18)
    ensures AllScan(scan, Hex(StandardPack(text)))
    ensures Unpack(Scanned(scan, Hex(StandardPack(text)))) == if |text| % 8 == 7 then text + [0] else text
  {
    hide At, SeptetText, DataFrom, Hex, StandardPack, HasHeader, SevenBit, Unpack, Scanned, AllScan;
    StandardTextRoundTrip(scan, text);
    SeptetsAccepted(t, pos, pduType, stamp, |text|, StandardPack(text));
  }
}
