/** Which texts pdu_parse accepts, field by field, in the terms of section 9.2.2.1 of 3GPP TS 23.040. */
module PduAccept {
  import opened PduFields
  import opened SeptetCodec
  import opened PduParse
  import opened PduDeliver

  /** The text, from the address of the centre on, is that of a message with this first octet and this coding, whose
      text starts at start; n is the announced length of what follows the address of the centre. */
  ghost predicate ReadsAs(t: seq<char>, n: nat, oaLen: nat, f: First, coding: Coding, meant: bool, kind: nat,
                          start: nat)
    requires kind < 4
  {
    var sca := ByteAt(t, 0);
    && sca.value >= 0 && 2 * sca.value <= |t| - sca.pos
    && TpduReadsAs(t, sca.pos + 2 * sca.value, n, oaLen, f, coding, meant, kind, start)
  }

  /** The same from the first octet on. */
  ghost predicate TpduReadsAs(t: seq<char>, from: nat, n: nat, oaLen: nat, f: First, coding: Coding, meant: bool,
                              kind: nat, start: nat)
    requires kind < 4 && from <= |t|
  {
    var len := ByteAt(t, ByteAt(t, from).pos);
    && |t| - from == 2 * n
    && ByteAt(t, from).value == FirstOctet(f)
    && 1 <= len.value < oaLen && NumberAt(t, len.pos, len.value).rv > 0
    && DataReadsAs(t, NumberAt(t, len.pos, len.value).pos, f, coding, meant, kind, start)
  }

  /** And from the protocol identifier on. */
  ghost predicate DataReadsAs(t: seq<char>, from: nat, f: First, coding: Coding, meant: bool, kind: nat, start: nat)
    requires kind < 4 && from <= |t|
  {
    var dcs := ByteAt(t, ByteAt(t, from).pos);
    && ByteAt(t, from).value == 0
    && dcs.value == DcsOctet(coding, meant, kind)
    && dcs.pos + 14 <= |t|
    && var udl := ByteAt(t, dcs.pos + 14);
       && udl.value >= 0
       && (|t| - udl.pos) % 2 == 0 && LengthSays(coding, udl.value, (|t| - udl.pos) / 2)
       && var more := ByteAt(t, udl.pos);
          if f.header then more.value >= 0 && start == more.pos + 2 * more.value <= |t| else start == udl.pos
  }

  lemma ReadsMeansAccepted(t: seq<char>, n: nat, oaLen: nat, f: First, coding: Coding, meant: bool, kind: nat,
                           start: nat)
    requires kind < 4 && ReadsAs(t, n, oaLen, f, coding, meant, kind, start)
    ensures PduFrom(t, n, oaLen).verdict
         == Accepted(match coding case Septets7 => SevenBitHex case Octets8 => EightBitHex case Ucs2 => Ucs2Hex, start)
  {
    hide ByteAt, NumberAt, FirstOctet, DcsOctet, LengthSays, SupportedDcs, UserDataOctets, Alphabet, AlphabetEncoding,
      HasHeader, Mti;
    FirstSays(f);
    CodingSays(coding, meant, kind);
    var from := ByteAt(t, 0).pos + 2 * ByteAt(t, 0).value;
    var len := ByteAt(t, ByteAt(t, from).pos);
    var dcs := ByteAt(t, ByteAt(t, NumberAt(t, len.pos, len.value).pos).pos);
    var udl := ByteAt(t, dcs.pos + 14);
    LengthIff(coding, meant, kind, udl.value, (|t| - udl.pos) / 2);
  }

  /** And nothing else is accepted. */
  lemma AcceptedMeansReads(t: seq<char>, n: nat, oaLen: nat) returns (f: First, coding: Coding, meant: bool, kind: nat)
    requires PduFrom(t, n, oaLen).verdict.Accepted?
    ensures kind < 4 && ReadsAs(t, n, oaLen, f, coding, meant, kind, PduFrom(t, n, oaLen).verdict.start)
  {
    hide ByteAt, NumberAt, FirstOctet, DcsOctet, LengthSays, SupportedDcs, UserDataOctets, Alphabet, AlphabetEncoding,
      HasHeader, Mti;
    var from := ByteAt(t, 0).pos + 2 * ByteAt(t, 0).value;
    var first := ByteAt(t, from);
    var len := ByteAt(t, first.pos);
    var dcs := ByteAt(t, ByteAt(t, NumberAt(t, len.pos, len.value).pos).pos);
    var udl := ByteAt(t, dcs.pos + 14);
    DeliverIff(first.value);
    f :| FirstOctet(f) == first.value;
    CodingIff(dcs.value);
    coding, meant, kind :| kind < 4 && DcsOctet(coding, meant, kind) == dcs.value;
    LengthIff(coding, meant, kind, udl.value, (|t| - udl.pos) / 2);
  }

  /** The sender is what stands in its field, when the message got that far. */
  lemma SenderIs(t: seq<char>, n: nat, oaLen: nat, from: nat, len: Read)
    requires from == ByteAt(t, 0).pos + 2 * ByteAt(t, 0).value && from <= |t|
    requires len == ByteAt(t, ByteAt(t, from).pos) && PduFrom(t, n, oaLen).verdict.Accepted?
    ensures len.value >= 0 && PduFrom(t, n, oaLen).sender == NumberAt(t, len.pos, len.value).stored
  {
    hide ByteAt, NumberAt, DataFrom, Mti;
  }
}
