/** The SMS-SUBMIT of section 9.2.2.2 of 3GPP TS 23.040 as pdu_build writes it, and what a reader finds in it. */
module PduSubmit {
  import opened Octets
  import opened HexText
  import opened Septets
  import opened SeptetCodec
  import opened PduTables
  import opened PduFields
  import opened PduAddress
  import opened PduDeliver

  /** Octets in digits, one behind another. */
  function Twos(v: seq<byte>): (t: seq<char>)
    ensures |t| == 2 * |v|
  {
    if v == [] then [] else Twos(v[..|v| - 1]) + Two(v[|v| - 1])
  }

  function Four(a: byte, b: byte, c: byte, d: byte): (v: seq<byte>)
    ensures |v| == 4
  {
    [a, b, c, d]
  }

  /** The address of the service centre: nothing, or its length in octets, its type and its digits. */
  function ScaText(csca: seq<char>): (t: seq<char>)
    requires OctetsOf(csca) < 255
    ensures |t| == ScaLength(csca)
  {
    if csca == [] then Twos([0]) else Twos([1 + OctetsOf(csca), INTERNATIONAL]) + SemiOctets(csca)
  }

  function OctetsOf(number: seq<char>): nat { (|number| + 1) / 2 }

  function ScaLength(csca: seq<char>): nat {
    if csca == [] then 2 else 4 + RoundUp2(|csca|)
  }

  /** An SMS-SUBMIT with a relative validity period, asking for a report or not. */
  function SubmitType(report: bool): byte { if report then 0x31 else 0x11 }

  function FrontText(csca: seq<char>, report: bool, dst: seq<char>): (t: seq<char>)
    requires OctetsOf(csca) < 255 && |dst| < 256
    ensures |t| == ScaLength(csca) + 8 + RoundUp2(|dst|)
  {
    ScaText(csca) + Twos(Four(SubmitType(report), 0, |dst|, INTERNATIONAL)) + SemiOctets(dst)
  }

  /** The user data in digits: packed septets, or whatever the conversion to UCS-2 gives. */
  function UserText(msg: seq<octet>, recode: Recode): Result<seq<char>> {
    if SevenBit(msg) then Ok(Hex(Pack(msg)))
    else
      var converted := recode(msg);
      if converted.Ok? then Ok(Hex(converted.value)) else Invalid
  }

  /** The user data length counts septets of packed text and octets of UCS-2. */
  function DataLength(msg: seq<octet>, data: seq<char>): nat {
    if SevenBit(msg) then |msg| else |data| / 2
  }

  function Dcs(msg: seq<octet>): byte { if SevenBit(msg) then 0 else 8 }

  function SubmitText(csca: seq<char>, report: bool, dst: seq<char>, msg: seq<octet>, data: seq<char>, validity: byte)
      : (t: seq<char>)
    requires OctetsOf(csca) < 255 && |dst| < 256 && DataLength(msg, data) < 256
    ensures |t| == ScaLength(csca) + 16 + RoundUp2(|dst|) + |data|
  {
    FrontText(csca, report, dst) + Twos(Four(0, Dcs(msg), validity, DataLength(msg, data))) + data
  }

  /** A number without the '+' in front. */
  function Stripped(number: seq<char>): seq<char> {
    if number != [] && number[0] == '+' then number[1..] else number
  }

  /** Of a number in digits, with a '+' or without, the digits are left. */
  lemma StrippedIs(number: seq<char>, digits: seq<char>)
    requires IsAddress(digits) && (number == digits || number == ['+'] + digits)
    ensures Stripped(number) == digits
  {
    assert digits != [] ==> IsAddressDigit(digits[0]);
  }

  /* ------------------------------------------------------------------ reading it */

  /** An international number is in its field: its type, and its digits, which read as '+', the digits in upper case
      and a NUL. */
  ghost predicate NumberReads(t: seq<char>, pos: nat, number: seq<char>) {
    pos <= |t| && NumberAt(t, pos, |number|)
    == Number(2 + RoundUp2(|number|), 0x91, ['+'] + (UpperAll(number) + ['\0']), pos + 2 + RoundUp2(|number|))
  }

  ghost predicate OctetReads(t: seq<char>, pos: nat, v: int) {
    pos <= |t| && ByteAt(t, pos) == Read(v, pos + 2) && v >= 0
  }

  /** The octet at pos; -1 when there is none. */
  function OctetAt(t: seq<char>, pos: nat): (v: int)
    ensures v < 256
  {
    if pos <= |t| then ByteAt(t, pos).value else -1
  }

  /** The address of the centre: a zero when there is none, else its length in octets, its type and its digits. */
  ghost predicate CentreReads(t: seq<char>, sca: seq<char>, end: nat) {
    && ScaAt(t, 0) == Read(end, end)
    && if sca == [] then OctetReads(t, 0, 0) && end == 2
       else OctetReads(t, 0, 1 + (|sca| + 1) / 2) && NumberReads(t, 2, sca) && end == 4 + RoundUp2(|sca|)
  }

  /** The first octet: type 1, duplicates accepted, a relative validity period (format 2), a report or not, no header,
      no reply path. */
  predicate IsSubmit(v: int, report: bool) {
    && v >= 0 && v % 4 == 1 && (v / 4) % 2 == 0 && (v / 8) % 4 == 2
    && (v / 32) % 2 == (if report then 1 else 0) && (v / 64) % 2 == 0 && v / 128 == 0
  }

  /** The validity is the shortest that lasts as long as asked for, or the longest there is. */
  ghost predicate LastsLongEnough(code: int, minutes: nat) {
    && code >= 0
    && if minutes <= 635040 then
         && minutes <= Period(code)
         && forall other: nat :: other <= 255 && minutes <= Period(other) ==> Period(code) <= Period(other)
       else Period(code) == 635040
  }

  /** The user data and its length: septets that unpack to the message, or the octets its conversion gives. */
  ghost predicate DataReads(data: seq<char>, udl: int, msg: seq<octet>, recode: Recode) {
    && AllHex(data)
    && if SevenBit(msg) then
         && udl == |msg|
         && Unpack(FromHex(data)) == if msg != [] && |msg| % 8 in {0, 7} then msg + [0] else msg
       else recode(msg).Ok? && FromHex(data) == recode(msg).value && udl == |recode(msg).value|
  }

  /** What a reader finds: the centre, the first octet, reference 0, the destination, identifier 0, the alphabet, the
      validity, and the user data. */
  ghost predicate ReadsAsSubmit(t: seq<char>, end: nat, sca: seq<char>, report: bool, dst: seq<char>, msg: seq<octet>,
                                minutes: nat, recode: Recode)
  {
    && CentreReads(t, sca, end)
    && OctetReads(t, end, OctetAt(t, end)) && IsSubmit(OctetAt(t, end), report)
    && OctetReads(t, end + 2, 0) && OctetReads(t, end + 4, |dst|) && NumberReads(t, end + 6, dst)
    && BodyReads(t, end + 8 + RoundUp2(|dst|), msg, minutes, recode)
  }

  ghost predicate BodyReads(t: seq<char>, from: nat, msg: seq<octet>, minutes: nat, recode: Recode) {
    && OctetReads(t, from, 0) && OctetReads(t, from + 2, if SevenBit(msg) then 0 else 8)
    && OctetReads(t, from + 4, OctetAt(t, from + 4)) && LastsLongEnough(OctetAt(t, from + 4), minutes)
    && OctetReads(t, from + 6, OctetAt(t, from + 6))
    && from + 8 <= |t| && DataReads(t[from + 8..], OctetAt(t, from + 6), msg, recode)
  }

  /* ------------------------------------------------------------------ proof */

  lemma TwosOfTwo(a: byte, b: byte, rest: seq<char>)
    ensures Twos([a, b]) + rest == Then(Two(a), Then(Two(b), rest))
  {
    hide Two;
    assert [a, b][..1] == [a] && [a][..0] == [];
    assert Twos([a]) == Two(a);
  }

  lemma TwosOfFour(a: byte, b: byte, c: byte, d: byte, rest: seq<char>)
    ensures Twos(Four(a, b, c, d)) + rest == Then(Two(a), Then(Two(b), Then(Two(c), Then(Two(d), rest))))
  {
    hide Two;
    assert [a, b, c, d][..3] == [a, b, c] && [a, b, c][..2] == [a, b];
    TwosOfTwo(a, b, Two(c) + Two(d) + rest);
    assert Twos([a, b, c, d]) + rest == Twos([a, b]) + (Two(c) + Two(d) + rest);
    assert Two(c) + Two(d) + rest == Then(Two(c), Then(Two(d), rest));
  }

  lemma FourHere(t: seq<char>, pos: nat, a: byte, b: byte, c: byte, d: byte, rest: seq<char>)
    requires At(t, pos, Then(Two(a), Then(Two(b), Then(Two(c), Then(Two(d), rest)))))
    ensures OctetReads(t, pos, a) && OctetReads(t, pos + 2, b) && OctetReads(t, pos + 4, c) && OctetReads(t, pos + 6, d)
    ensures At(t, pos + 6, Then(Two(d), rest)) && At(t, pos + 8, rest)
  {
    hide At, Then, Two, ByteAt;
    ByteHere(t, pos, a, Then(Two(b), Then(Two(c), Then(Two(d), rest))));
    ByteHere(t, pos + 2, b, Then(Two(c), Then(Two(d), rest)));
    ByteHere(t, pos + 4, c, Then(Two(d), rest));
    ByteHere(t, pos + 6, d, rest);
  }

  /** The text, field by field. */
  lemma SubmitParts(csca: seq<char>, report: bool, dst: seq<char>, msg: seq<octet>, data: seq<char>, validity: byte,
                    body: seq<char>, front: seq<char>)
    requires OctetsOf(csca) < 255 && |dst| < 256 && DataLength(msg, data) < 256
    requires body == Then(Two(0), Then(Two(Dcs(msg)), Then(Two(validity), Then(Two(DataLength(msg, data)), data))))
    requires front == Then(Two(SubmitType(report)), Then(Two(0), Then(Two(|dst|),
                           Then(Two(INTERNATIONAL), Then(SemiOctets(dst), body)))))
    ensures SubmitText(csca, report, dst, msg, data, validity) == ScaText(csca) + front
  {
    hide Two, Twos, SemiOctets, ScaText, SubmitType, Dcs, DataLength, Then, Four;
    var head := Twos(Four(SubmitType(report), 0, |dst|, INTERNATIONAL));
    var tail := Twos(Four(0, Dcs(msg), validity, DataLength(msg, data)));
    TwosOfFour(0, Dcs(msg), validity, DataLength(msg, data), data);
    TwosOfFour(SubmitType(report), 0, |dst|, INTERNATIONAL, Then(SemiOctets(dst), body));
    Regroup(ScaText(csca), head, SemiOctets(dst), tail, data, body, front);
  }

  lemma Regroup(a: seq<char>, b: seq<char>, c: seq<char>, d: seq<char>, e: seq<char>, body: seq<char>,
                front: seq<char>)
    requires d + e == body && b + Then(c, body) == front
    ensures a + b + c + d + e == a + front
  {
    assert a + b + c + d + e == a + b + c + (d + e);
    assert a + b + c + body == a + (b + (c + body));
  }

  /** The address of the centre, field by field. */
  lemma CentreParts(csca: seq<char>, front: seq<char>)
    requires 0 < OctetsOf(csca) < 255
    ensures ScaText(csca) + front
         == Then(Two(1 + OctetsOf(csca)), Then(Two(INTERNATIONAL), Then(SemiOctets(csca), front)))
  {
    hide Two, Twos, SemiOctets;
    var n := 1 + OctetsOf(csca);
    TwosOfTwo(n, INTERNATIONAL, Then(SemiOctets(csca), front));
    Associate(Twos([n, INTERNATIONAL]), SemiOctets(csca), front);
  }

  lemma CentreHere(t: seq<char>, csca: seq<char>, front: seq<char>)
    requires OctetsOf(csca) < 255 && IsAddress(csca) && t == ScaText(csca) + front
    ensures CentreReads(t, csca, ScaLength(csca)) && At(t, ScaLength(csca), front)
  {
    hide Two, Twos, SemiOctets, ByteAt, NumberAt, IsAddress, UpperAll, At, ScaText, Then;
    if csca == [] {
      NoCentre(front);
      AtFront(t, Two(0), front);
      ByteHere(t, 0, 0, front);
    } else {
      var n := 1 + OctetsOf(csca);
      CentreParts(csca, front);
      var rest := Then(Two(INTERNATIONAL), Then(SemiOctets(csca), front));
      AtStart(t);
      ByteHere(t, 0, n, rest);
      NumberHere(t, 2, INTERNATIONAL, csca, front);
    }
  }

  lemma NoCentre(front: seq<char>)
    ensures ScaText([]) + front == Two(0) + front
  {
    ZeroIs();
  }

  lemma AtFront(t: seq<char>, field: seq<char>, rest: seq<char>)
    requires t == field + rest
    ensures At(t, 0, Then(field, rest))
  {
  }

  lemma ZeroIs()
    ensures Twos([0]) == Two(0) == ['0', '0']
  {
    assert [0][..0] == [];
  }

  lemma TypeIsSubmit(report: bool)
    ensures IsSubmit(SubmitType(report), report)
  {
  }

  lemma ValidityLasts(minutes: nat)
    requires minutes >= 1
    ensures 0 <= RelativeValidity(minutes) <= 255 && LastsLongEnough(RelativeValidity(minutes), minutes)
  {
    hide RelativeValidity, Period;
    ValidityRoundsUp(minutes, minutes, 255);
    OffTheScale(minutes);
    if minutes <= 635040 {
      ValidityIsLeast(minutes, 255);
      var code := RelativeValidity(minutes);
      forall other: nat | other <= 255 && minutes <= Period(other) ensures Period(code) <= Period(other) {
        ValidityIsLeast(minutes, other);
        PeriodsGrow(code, other);
      }
    }
  }

  lemma {:induction false} PeriodsGrow(code: nat, other: nat)
    requires code <= other <= 255
    ensures Period(code) <= Period(other)
    decreases other - code
  {
    hide Period;
    if code < other {
      PeriodGrows(code);
      PeriodsGrow(code + 1, other);
    }
  }

  lemma DataIs(msg: seq<octet>, recode: Recode)
    requires UserText(msg, recode).Ok?
    ensures var data := UserText(msg, recode).value; DataReads(data, DataLength(msg, data), msg, recode)
  {
    hide Hex, FromHex, Pack, Unpack, SevenBit, AllHex;
    if SevenBit(msg) {
      HexRoundTrip(Pack(msg));
      PackRoundTrip(msg);
    } else {
      HexRoundTrip(recode(msg).value);
    }
  }

  /** What pdu_build writes reads as the message that was asked for. */
  lemma SubmitReads(csca: seq<char>, report: bool, dst: seq<char>, msg: seq<octet>, minutes: nat, recode: Recode,
                    data: seq<char>, t: seq<char>)
    requires OctetsOf(csca) < 255 && |dst| < 256 && IsAddress(csca) && IsAddress(dst) && minutes >= 1
    requires UserText(msg, recode).Ok? && data == UserText(msg, recode).value && DataLength(msg, data) < 256
    requires 0 <= RelativeValidity(minutes) < 256
    requires t == SubmitText(csca, report, dst, msg, data, RelativeValidity(minutes))
    ensures ReadsAsSubmit(t, ScaLength(csca), csca, report, dst, msg, minutes, recode)
  {
    hide At, Then, Two, SemiOctets, NumberAt, ByteAt, IsAddress, SubmitText, CentreReads, LastsLongEnough, DataReads,
      IsSubmit, SubmitType, UserText, RelativeValidity, ScaText, DataLength, UpperAll, SevenBit;
    var v, udl, at := RelativeValidity(minutes), DataLength(msg, data), ScaLength(csca);
    var body := Then(Two(0), Then(Two(Dcs(msg)), Then(Two(v), Then(Two(udl), data))));
    var number := Then(SemiOctets(dst), body);
    var front := Then(Two(SubmitType(report)), Then(Two(0), Then(Two(|dst|), Then(Two(INTERNATIONAL), number))));
    SubmitParts(csca, report, dst, msg, data, v, body, front);
    CentreHere(t, csca, front);
    FourHere(t, at, SubmitType(report), 0, |dst|, INTERNATIONAL, number);
    TypeIsSubmit(report);
    NumberHere(t, at + 6, INTERNATIONAL, dst, body);
    var from := at + 8 + RoundUp2(|dst|);
    FourHere(t, from, 0, Dcs(msg), v, udl, data);
    ValidityLasts(minutes);
    DataIs(msg, recode);
    TailIs(t, from + 8, data);
  }

  lemma TailIs(t: seq<char>, pos: nat, data: seq<char>)
    requires At(t, pos, data)
    ensures pos <= |t| && t[pos..] == data
  {
  }
}
