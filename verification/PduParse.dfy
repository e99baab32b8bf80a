/** pdu_parse against a printer of SMS-DELIVER in the layout of section 9.2.2.1 of 3GPP TS 23.040. */
module PduParse {
  import opened PduFields
  import opened SeptetCodec

  /* ------------------------------------------------------------------ what pdu_parse decides */

  datatype Reason = BadSca | LengthMismatch | BadType | NotDeliver | BadAddressLength | BadAddress | BadPid
    | UnhandledPid | BadDcs | UnsupportedDcs | BadTimestamp | BadUdl | UdlMismatch | BadUdhl | BadUdh

  /** A refusal and where the pointer is left, on the field at fault or behind it; or the coding of the text and
      where the text starts. */
  datatype Verdict = Refused(reason: Reason, pos: int) | Accepted(encoding: Encoding, start: nat)

  /** The verdict, and the sender as stored once it has been read. */
  datatype Outcome = Outcome(sender: seq<char>, verdict: Verdict)

  function Mti(pduType: int): int { pduType % 4 }

  predicate HasHeader(pduType: int) { (pduType / 64) % 2 == 1 }

  function Alphabet(dcs: int): int { (dcs / 4) % 4 }

  /** General data coding, not compressed, one of the three alphabets. */
  predicate SupportedDcs(dcs: int) {
    dcs / 64 == 0 && (dcs / 32) % 2 == 0 && Alphabet(dcs) != 3
  }

  /** pdu_dcs_alpabet2encoding. */
  function AlphabetEncoding(alphabet: int): Encoding {
    if alphabet == 0 then SevenBitHex
    else if alphabet == 1 then EightBitHex
    else if alphabet == 2 then Ucs2Hex
    else UnknownEncoding
  }

  /** Octets of user data for a user data length, which counts septets when the alphabet is the 7-bit one. */
  function UserDataOctets(dcs: int, udl: nat): nat {
    if Alphabet(dcs) == 0 then (udl + 1) * 7 / 8 else udl
  }

  function HeaderFrom(text: seq<char>, pos: nat, encoding: Encoding): Verdict
    requires pos <= |text|
  {
    var udhl := ByteAt(text, pos);
    if udhl.value < 0 then Refused(BadUdhl, udhl.pos)
    else if |text| - udhl.pos < 2 * udhl.value then Refused(BadUdh, udhl.pos)
    else Accepted(encoding, udhl.pos + 2 * udhl.value)
  }

  /** From the data coding scheme on. */
  function DataFrom(text: seq<char>, pos: nat, pduType: int): Verdict
    requires pos <= |text|
  {
    var dcs := ByteAt(text, pos);
    if dcs.value < 0 then Refused(BadDcs, dcs.pos)
    else if !SupportedDcs(dcs.value) then Refused(UnsupportedDcs, dcs.pos - 2)
    else
      var stamp := TimestampAt(text, dcs.pos);
      if stamp.value < 0 then Refused(BadTimestamp, stamp.pos)
      else
        var udl, encoding := ByteAt(text, stamp.pos), AlphabetEncoding(Alphabet(dcs.value));
        if udl.value < 0 then Refused(BadUdl, udl.pos)
        else if 2 * UserDataOctets(dcs.value, udl.value) != |text| - udl.pos then Refused(UdlMismatch, udl.pos - 2)
        else if HasHeader(pduType) then HeaderFrom(text, udl.pos, encoding)
        else Accepted(encoding, udl.pos)
  }

  /** From the type of the PDU on, with oaLen characters of room for the sender. */
  function TpduFrom(text: seq<char>, pos: nat, oaLen: nat): Outcome
    requires pos <= |text|
  {
    var pduType := ByteAt(text, pos);
    if pduType.value < 0 then Outcome([], Refused(BadType, pduType.pos))
    else if Mti(pduType.value) != 0 then Outcome([], Refused(NotDeliver, pduType.pos - 2))
    else
      var digits := ByteAt(text, pduType.pos);
      if digits.value <= 0 then Outcome([], Refused(BadAddressLength, digits.pos))
      else if oaLen < digits.value + 1 then Outcome([], Refused(BadAddress, digits.pos))
      else
        var number := NumberAt(text, digits.pos, digits.value);
        if number.rv <= 0 then Outcome([], Refused(BadAddress, number.pos))
        else
          var pid := ByteAt(text, number.pos);
          Outcome(number.stored,
            if pid.value < 0 then Refused(BadPid, pid.pos)
            else if pid.value != 0 then Refused(UnhandledPid, pid.pos)
            else DataFrom(text, pid.pos, pduType.value))
  }

  function PduFrom(text: seq<char>, tpduLength: nat, oaLen: nat): Outcome {
    var sca := ScaAt(text, 0);
    if sca.value <= 0 then Outcome([], Refused(BadSca, sca.pos))
    else if 2 * tpduLength != |text| - sca.pos then Outcome([], Refused(LengthMismatch, sca.pos))
    else TpduFrom(text, sca.pos, oaLen)
  }

  /* ------------------------------------------------------------------ pdu_parse */

  predicate StepsBack(reason: Reason) {
    reason in {NotDeliver, UnsupportedDcs, UdlMismatch}
  }

  /** The pointer stands where the verdict says, in step with the length; but three refusals step back over the octet
      they are about without giving its length back. */
  ghost predicate Stands(c: Cursor, verdict: Verdict)
    reads c
  {
    match verdict
    case Accepted(_, start) => c.Valid() && c.pos == start
    case Refused(reason, pos) => c.pos == pos && c.pos + c.length + (if StepsBack(reason) then 2 else 0) == |c.text|
  }

  method ParseHeader(c: Cursor, encoding: Encoding) returns (verdict: Verdict)
    requires c.Valid()
    modifies c
    ensures verdict == HeaderFrom(c.text, old(c.pos), encoding) && Stands(c, verdict)
  {
    hide ByteAt;
    var udhl := c.ParseByte();
    if udhl < 0 {
      return Refused(BadUdhl, c.pos);
    }
    if c.length < udhl * 2 {
      return Refused(BadUdh, c.pos);
    }
    c.pos := c.pos + udhl * 2;
    c.length := c.length - udhl * 2;
    return Accepted(encoding, c.pos);
  }

  method ParseData(c: Cursor, pduType: nat) returns (verdict: Verdict)
    requires c.Valid() && c.pos > 0
    modifies c
    ensures verdict == DataFrom(c.text, old(c.pos), pduType) && Stands(c, verdict)
  {
    hide ByteAt, HeaderFrom, SupportedDcs, UserDataOctets, HasHeader, Alphabet, AlphabetEncoding;
    var dcs := c.ParseByte();
    if dcs < 0 {
      return Refused(BadDcs, c.pos);
    }
    if !SupportedDcs(dcs) {
      c.pos := c.pos - 2;
      return Refused(UnsupportedDcs, c.pos);
    }
    var stamp := c.ParseTimestamp();
    var encoding := AlphabetEncoding(Alphabet(dcs));
    if stamp < 0 {
      return Refused(BadTimestamp, c.pos);
    }
    var udl := c.ParseByte();
    if udl < 0 {
      return Refused(BadUdl, c.pos);
    }
    if UserDataOctets(dcs, udl) * 2 != c.length {
      c.pos := c.pos - 2;
      return Refused(UdlMismatch, c.pos);
    }
    if HasHeader(pduType) {
      verdict := ParseHeader(c, encoding);
    } else {
      verdict := Accepted(encoding, c.pos);
    }
  }

  /** The room for the sender may be any, as long as the '+' that its test forgets does no harm: either one character
      more follows, or no number of an octet's length needs all of it. */
  predicate RoomForPlus(size: nat, oaLen: nat) {
    oaLen <= size && (oaLen == size ==> size >= 257)
  }

  method ParseTpdu(c: Cursor, oa: array<char>, oaLen: nat) returns (verdict: Verdict)
    requires c.Valid() && c.pos > 0 && RoomForPlus(oa.Length, oaLen)
    modifies c, oa
    ensures var o := TpduFrom(c.text, old(c.pos), oaLen);
      && verdict == o.verdict && Stands(c, verdict)
      && |o.sender| <= oa.Length && oa[..|o.sender|] == o.sender
  {
    hide ByteAt, DataFrom, Mti, NumberAt;
    var pduType := c.ParseByte();
    if pduType < 0 {
      return Refused(BadType, c.pos);
    }
    if Mti(pduType) != 0 {
      c.pos := c.pos - 2;
      return Refused(NotDeliver, c.pos);
    }
    var oaDigits := c.ParseByte();
    if oaDigits <= 0 {
      return Refused(BadAddressLength, c.pos);
    }
    var fieldLen, oaToa := c.ParseNumber(oaDigits, oa, oaLen);
    if fieldLen <= 0 {
      return Refused(BadAddress, c.pos);
    }
    var pid := c.ParseByte();
    if pid < 0 {
      return Refused(BadPid, c.pos);
    }
    if pid != 0 {
      return Refused(UnhandledPid, c.pos);
    }
    verdict := ParseData(c, pduType);
  }

  /** pdu_parse. */
  method ParsePdu(c: Cursor, tpduLength: nat, oa: array<char>, oaLen: nat) returns (verdict: Verdict)
    requires c.Valid() && c.pos == 0 && RoomForPlus(oa.Length, oaLen)
    modifies c, oa
    ensures var o := PduFrom(c.text, tpduLength, oaLen);
      && verdict == o.verdict && Stands(c, verdict)
      && |o.sender| <= oa.Length && oa[..|o.sender|] == o.sender
  {
    hide ByteAt, TpduFrom;
    var fieldLen := c.ParseSca();
    if fieldLen <= 0 {
      return Refused(BadSca, c.pos);
    }
    if tpduLength * 2 != c.length {
      return Refused(LengthMismatch, c.pos);
    }
    verdict := ParseTpdu(c, oa, oaLen);
  }
}
