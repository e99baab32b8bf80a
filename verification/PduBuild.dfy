/** pdu_build against the SMS-SUBMIT of section 9.2.2.2 of 3GPP TS 23.040. */
module PduBuild {
  import opened Octets
  import opened Buffers
  import opened HexText
  import opened Septets
  import opened SeptetCodec
  import opened PduTables
  import opened PduFields
  import opened PduAddress
  import opened PduDeliver
  import opened PduSubmit

  const E2BIG := 7

  lemma TextIs(msg: seq<octet>, recode: Recode)
    ensures UserText(msg, recode).Ok? <==> SevenBit(msg) || recode(msg).Ok?
  {
  }

  lemma ValidityInScale(minutes: nat)
    requires minutes >= 1
    ensures 0 <= RelativeValidity(minutes)
  {
  }

  /* ------------------------------------------------------------------ writing */

  lemma TwosThen(v: seq<byte>, n: nat)
    requires n < |v|
    ensures Twos(v[..n + 1]) == Twos(v[..n]) + Two(v[n])
  {
    assert v[..n + 1][..n] == v[..n];
  }

  /** snprintf of "%02X" for each of v: the digits and a NUL, which all fit. */
  method PrintOctets(buffer: array<char>, base: nat, size: nat, v: seq<byte>, ghost done: seq<char>) returns (n: nat)
    requires base + size <= buffer.Length && 2 * |v| < size && buffer[..base] == done
    modifies buffer
    ensures n == 2 * |v| && buffer[..base + n] == done + Twos(v) && OutsideKept(buffer, base, base + n + 1)
  {
    hide Two, HexDigit;
    n := 0;
    var i := 0;
    assert v[..0] == [] && done + Twos(v[..0]) == done;
    while i < |v|
      invariant 0 <= i <= |v| && n == 2 * i
      invariant buffer[..base + n] == done + Twos(v[..i]) && OutsideKept(buffer, base, base + n)
    {
      TwosThen(v, i);
      PutTwo(buffer, 0, base + n, HexDigit(v[i] / 16), HexDigit(v[i] % 16), done + Twos(v[..i]));
      TwoIs(v[i]);
      Associate(done, Twos(v[..i]), Two(v[i]));
      i := i + 1;
      n := n + 2;
    }
    assert v[..i] == v;
    buffer[base + n] := '\0';
  }

  lemma TwoIs(v: byte)
    ensures Two(v) == [HexDigit(v / 16), HexDigit(v % 16)]
  {
  }

  /** The address of the service centre. */
  method WriteSca(buffer: array<char>, length: nat, csca: seq<char>) returns (len: nat)
    requires OctetsOf(csca) < 255 && ScaLength(csca) + 20 <= length <= buffer.Length
    modifies buffer
    ensures len == ScaLength(csca) && buffer[..len] == ScaText(csca) && OutsideKept(buffer, 0, length)
  {
    hide Twos, SemiOctets;
    if csca != [] {
      len := PrintOctets(buffer, 0, length, [1 + OctetsOf(csca), INTERNATIONAL], []);
      ghost var front := buffer[..len];
      var stored := StoreNumber(buffer, len, csca);
      assert buffer[..len + stored] == front + SemiOctets(csca) by { assert buffer[..len] == front; }
      len := len + stored;
    } else {
      PutTwo(buffer, 0, 0, '0', '0', []);
      len := 2;
      ZeroIs();
    }
  }

  /** The type of the PDU, the message reference and the destination. */
  method WriteFront(buffer: array<char>, length: nat, from: nat, csca: seq<char>, report: bool, dst: seq<char>)
    returns (len: nat)
    requires OctetsOf(csca) < 255 && |dst| < 256 && from == ScaLength(csca)
    requires from + 20 + RoundUp2(|dst|) <= length <= buffer.Length && buffer[..from] == ScaText(csca)
    modifies buffer
    ensures len == from + 8 + RoundUp2(|dst|) && buffer[..len] == FrontText(csca, report, dst)
    ensures OutsideKept(buffer, 0, length)
  {
    hide Twos, SemiOctets, ScaText, SubmitType;
    var n := PrintOctets(buffer, from, length - from, Four(SubmitType(report), 0, |dst|, INTERNATIONAL), ScaText(csca));
    len := from + n;
    ghost var front := buffer[..len];
    var stored := StoreNumber(buffer, len, dst);
    assert buffer[..len + stored] == front + SemiOctets(dst) by { assert buffer[..len] == front; }
    len := len + stored;
  }

  /** str_recode as pdu_build calls it. With room for four characters an octet no coder runs short. */
  method WriteData(buffer: array<char>, base: nat, outSize: nat, msg: seq<octet>, recode: Recode) returns (rv: int)
    requires base + outSize <= buffer.Length && 4 * |msg| < outSize
    modifies buffer
    ensures rv >= 0 <==> UserText(msg, recode).Ok?
    ensures rv >= 0 ==> rv == |UserText(msg, recode).value| <= 4 * |msg| && (SevenBit(msg) || rv % 2 == 0)
    ensures rv >= 0 ==> buffer[base..base + rv] == UserText(msg, recode).value
    ensures OutsideKept(buffer, base, base + outSize)
  {
    hide Hex, Pack, SevenBit;
    PackedFits(|msg|);
    var encoding := GetEncodingToSend(msg);
    if encoding == Ucs2Hex {
      rv := Utf8ToHexstrUcs2(recode, msg, buffer, base, outSize);
    } else {
      rv := CharToHexstr7bit(msg, buffer, base, outSize);
    }
  }

  lemma PackedFits(n: nat)
    ensures 2 * PackedLength(n) <= 4 * n && n - n / 8 <= 2 * n
  {
  }

  /** The eight digits in front of the user data, which is already there: the NUL that snprintf leaves on its
      first character is taken back. */
  method WriteTail(buffer: array<char>, length: nat, at: nat, v: seq<byte>, ghost front: seq<char>,
                   ghost data: seq<char>) returns (len: nat)
    requires |v| == 4 && at + 8 + |data| < length <= buffer.Length
    requires buffer[..at] == front && buffer[at + 8..at + 8 + |data|] == data
    modifies buffer
    ensures len == at + 8 && buffer[..len + |data|] == front + Twos(v) + data
    ensures OutsideKept(buffer, 0, length)
  {
    hide Twos;
    var tmp := buffer[at + 8];
    var n := PrintOctets(buffer, at, length - at, v, front);
    len := at + n;
    buffer[len] := tmp;
    ghost var head := front + Twos(v);
    assert buffer[..len] == head;
    assert buffer[len..len + |data|] == data;
    assert buffer[..len + |data|] == buffer[..len] + buffer[len..len + |data|];
  }

  /** pdu_build. When the one test of the room passes nothing later runs short, every character lands inside
      buffer[..length], and the text is the SMS-SUBMIT asked for. */
  method BuildPdu(buffer: array<char>, length: nat, csca: seq<char>, dst: seq<char>, msg: seq<octet>, minutes: nat,
                  report: bool, recode: Recode) returns (rv: int, scaLen: nat)
    requires length <= buffer.Length
    requires OctetsOf(Stripped(csca)) < 255 && |Stripped(dst)| < 256 && minutes >= 1
    modifies buffer
    ensures var sca, to := |Stripped(csca)|, |Stripped(dst)|;
      var room := (if sca == 0 then 2 else 4 + sca + sca % 2) + 8 + to + to % 2 + 8 + 4 * |msg| + 4;
      var most := if SevenBit(msg) then 160 else 70;
      && (rv >= 0 <==> |msg| <= most && length >= room && (SevenBit(msg) || recode(msg).Ok?))
      && (rv < 0 ==> rv == if |msg| > most then -E2BIG else if length < room then -ENOMEM else -EINVAL)
    ensures rv >= 0 ==>
      && scaLen == ScaLength(Stripped(csca)) && UserText(msg, recode).Ok?
      && DataLength(msg, UserText(msg, recode).value) < 256 && 0 <= RelativeValidity(minutes) < 256
      && var t := SubmitText(Stripped(csca), report, Stripped(dst), msg, UserText(msg, recode).value,
                             RelativeValidity(minutes));
      rv == |t| && buffer[..rv] == t
    ensures rv >= 0 && IsAddress(Stripped(csca)) && IsAddress(Stripped(dst)) ==>
      ReadsAsSubmit(buffer[..rv], scaLen, Stripped(csca), report, Stripped(dst), msg, minutes, recode)
    ensures OutsideKept(buffer, 0, length)
  {
    hide SevenBit, Twos, SemiOctets, Hex, Pack, UserText, ScaText, RelativeValidity, FrontText, ReadsAsSubmit,
      IsAddress, Stripped;
    TextIs(msg, recode);
    var encoding := GetEncodingToSend(msg);
    scaLen := 0;
    if (encoding == Ucs2Hex && |msg| > 70) || |msg| > 160 {
      return -E2BIG, scaLen;
    }
    var sca, to := Stripped(csca), Stripped(dst);
    if length < (if |sca| == 0 then 2 else 4 + RoundUp2(|sca|)) + 8 + RoundUp2(|to|) + 8 + |msg| * 4 + 4 {
      return -ENOMEM, scaLen;
    }
    scaLen := WriteSca(buffer, length, sca);
    var len := WriteFront(buffer, length, scaLen, sca, report, to);
    ghost var front := FrontText(sca, report, to);
    var dataLen := WriteData(buffer, len + 8, length - len - 11, msg, recode);
    if dataLen < 0 {
      return -EINVAL, scaLen;
    }
    ghost var data := UserText(msg, recode).value;
    var udl := if encoding == Ucs2Hex then dataLen / 2 else |msg|;
    ValidityRoundsUp(minutes, minutes, 0);
    assert 0 <= RelativeValidity(minutes) by { ValidityInScale(minutes); }
    assert buffer[..len] == front;
    len := WriteTail(buffer, length, len, Four(0, if encoding == Ucs2Hex then 8 else 0, RelativeValidity(minutes), udl),
                     front, data);
    rv := len + dataLen;
    if IsAddress(sca) && IsAddress(to) {
      SubmitReads(sca, report, to, msg, minutes, recode, data, buffer[..rv]);
    }
  }
}
