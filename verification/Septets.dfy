/** The 7-bit packing of char_conv.c: char_to_hexstr_7bit and hexstr_7bit_to_char, stated against the bit
    positions of section 6.1.2.1.1 of 3GPP TS 23.038. */
module Septets {
  import opened Octets

  /** Bit p of the characters laid end to end, seven bits each, lowest first. */
  predicate TextBit(text: seq<octet>, p: nat) {
    p / 7 < |text| && Bit(text[p / 7], p % 7)
  }

  /** Bit p of the octets laid end to end. */
  predicate StreamBit(octets: seq<octet>, p: nat) {
    p / 8 < |octets| && Bit(octets[p / 8], p % 8)
  }

  predicate SevenBit(text: seq<octet>) {
    forall i :: 0 <= i < |text| ==> text[i] < 128
  }

  /** Octet n of the packed text: its bit k is bit 8n+k of the text. */
  function PackedOctet(text: seq<octet>, n: nat): octet {
    Assemble(TextBit(text, 8 * n), TextBit(text, 8 * n + 1), TextBit(text, 8 * n + 2), TextBit(text, 8 * n + 3),
             TextBit(text, 8 * n + 4), TextBit(text, 8 * n + 5), TextBit(text, 8 * n + 6), TextBit(text, 8 * n + 7))
  }

  /** How many octets the packer produces: one more than needed when eight divides the length. */
  function PackedLength(n: nat): nat {
    if n == 0 then 0 else 7 * n / 8 + 1
  }

  function Pack(text: seq<octet>): (octets: seq<octet>)
    ensures |octets| == PackedLength(|text|)
  {
    PackUpTo(text, PackedLength(|text|))
  }

  function PackUpTo(text: seq<octet>, n: nat): (octets: seq<octet>)
    ensures |octets| == n
  {
    if n == 0 then [] else PackUpTo(text, n - 1) + [PackedOctet(text, n - 1)]
  }

  lemma {:induction false} PackUpToAt(text: seq<octet>, n: nat, i: nat)
    requires i < n
    ensures PackUpTo(text, n)[i] == PackedOctet(text, i)
  {
    hide PackedOctet;
    if i < n - 1 { PackUpToAt(text, n - 1, i); }
  }

  lemma PackedOctetBit(text: seq<octet>, n: nat, k: nat)
    requires k < 8
    ensures Bit(PackedOctet(text, n), k) == TextBit(text, 8 * n + k)
  {
    hide TextBit, Bit, Assemble;
    AssembleBits(TextBit(text, 8 * n), TextBit(text, 8 * n + 1), TextBit(text, 8 * n + 2), TextBit(text, 8 * n + 3),
      TextBit(text, 8 * n + 4), TextBit(text, 8 * n + 5), TextBit(text, 8 * n + 6), TextBit(text, 8 * n + 7));
  }

  /** The packed stream carries the text bit for bit, and zeros after it: bit k of character i is bit 7i+k. */
  lemma PackedBits(text: seq<octet>, n: nat, p: nat)
    requires p < 8 * n
    ensures StreamBit(PackUpTo(text, n), p) == TextBit(text, p)
  {
    hide TextBit, Bit, PackedOctet, PackUpTo;
    PackUpToAt(text, n, p / 8);
    PackedOctetBit(text, p / 8, p % 8);
  }

  /** The packing of the standard: as many octets as the septets need. */
  function StandardPack(text: seq<octet>): (octets: seq<octet>)
    ensures |octets| == (7 * |text| + 7) / 8
  {
    PackUpTo(text, (7 * |text| + 7) / 8)
  }

  /** What the loop of the packer emits when s bits of character i are already out. */
  function Emitted(c: octet, d: octet, s: nat): octet
    requires s < 7
  {
    Shr(c, s) | Shl(d, 7 - s)
  }

  lemma EmittedIsPacked(text: seq<octet>, i: nat, s: nat, n: nat)
    requires SevenBit(text) && i + 1 < |text| && s < 7 && 8 * n == 7 * i + s
    ensures Emitted(text[i], text[i + 1], s) == PackedOctet(text, n)
  {
    hide Bit, TextBit, PackedOctet, Emitted;
    var v := Emitted(text[i], text[i + 1], s);
    forall k | 0 <= k < 8 ensures Bit(v, k) == Bit(PackedOctet(text, n), k) {
      PackedOctetBit(text, n, k);
      EmittedBit(text[i], text[i + 1], s, k);
      if k < 7 - s {
        TextBitAt(text, i, s + k, 8 * n + k);
      } else {
        TextBitAt(text, i + 1, k - (7 - s), 8 * n + k);
      }
    }
    SameBits(v, PackedOctet(text, n));
  }

  lemma TextBitAt(text: seq<octet>, i: nat, k: nat, p: nat)
    requires k < 7 && p == 7 * i + k
    ensures TextBit(text, p) == (i < |text| && Bit(text[i], k))
  {
    assert p / 7 == i && p % 7 == k;
  }

  lemma SeptetTop(c: octet)
    requires c < 128
    ensures !Bit(c, 7)
  {
  }

  lemma ZeroBit(k: nat)
    requires k < 8
    ensures !Bit(0, k)
  {
  }

  lemma EmittedBit(c: octet, d: octet, s: nat, k: nat)
    requires c < 128 && s < 7 && k < 8
    ensures Bit(Emitted(c, d, s), k) == if k < 7 - s then Bit(c, s + k) else Bit(d, k - (7 - s))
  {
    hide Bit, Shr, Shl;
    SeptetTop(c);
    ShrBit(c, s, k);
    ShlBit(d, 7 - s, k);
    OrBit(Shr(c, s), Shl(d, 7 - s), k);
  }

  lemma LastIsPacked(text: seq<octet>, s: nat, n: nat)
    requires SevenBit(text) && text != [] && s < 8 && 8 * n == 7 * (|text| - 1) + s
    ensures Shr(text[|text| - 1], s) == PackedOctet(text, n) && n + 1 == PackedLength(|text|)
  {
    hide Bit, TextBit, PackedOctet, Shr;
    var i := |text| - 1;
    SeptetTop(text[i]);
    forall k | 0 <= k < 8 ensures Bit(Shr(text[i], s), k) == Bit(PackedOctet(text, n), k) {
      PackedOctetBit(text, n, k);
      ShrBit(text[i], s, k);
      if k < 7 - s {
        TextBitAt(text, i, s + k, 8 * n + k);
      } else if k < 14 - s {
        TextBitAt(text, i + 1, k - (7 - s), 8 * n + k);
      } else {
        assert k == 7 && s == 7;
        TextBitAt(text, i + 2, 0, 8 * n + k);
      }
    }
    SameBits(Shr(text[i], s), PackedOctet(text, n));
  }

  /* ------------------------------------------------------------------ unpacking */

  /** How many characters the unpacker produces from n octets. */
  function UnpackedLength(n: nat): nat {
    n + n / 7
  }

  /** Character i of the unpacked stream. */
  function UnpackedChar(octets: seq<octet>, i: nat): octet {
    Assemble(StreamBit(octets, 7 * i), StreamBit(octets, 7 * i + 1), StreamBit(octets, 7 * i + 2),
             StreamBit(octets, 7 * i + 3), StreamBit(octets, 7 * i + 4), StreamBit(octets, 7 * i + 5),
             StreamBit(octets, 7 * i + 6), false)
  }

  function Unpack(octets: seq<octet>): (text: seq<octet>)
    ensures |text| == UnpackedLength(|octets|)
  {
    UnpackUpTo(octets, UnpackedLength(|octets|))
  }

  function UnpackUpTo(octets: seq<octet>, n: nat): (text: seq<octet>)
    ensures |text| == n
  {
    if n == 0 then [] else UnpackUpTo(octets, n - 1) + [UnpackedChar(octets, n - 1)]
  }

  lemma {:induction false} UnpackUpToAt(octets: seq<octet>, n: nat, i: nat)
    requires i < n
    ensures UnpackUpTo(octets, n)[i] == UnpackedChar(octets, i)
  {
    hide UnpackedChar;
    if i < n - 1 { UnpackUpToAt(octets, n - 1, i); }
  }

  lemma UnpackedCharBit(octets: seq<octet>, i: nat, k: nat)
    requires k < 8
    ensures Bit(UnpackedChar(octets, i), k) == (k < 7 && StreamBit(octets, 7 * i + k))
  {
    hide StreamBit, Bit, Assemble;
    AssembleBits(StreamBit(octets, 7 * i), StreamBit(octets, 7 * i + 1), StreamBit(octets, 7 * i + 2),
      StreamBit(octets, 7 * i + 3), StreamBit(octets, 7 * i + 4), StreamBit(octets, 7 * i + 5),
      StreamBit(octets, 7 * i + 6), false);
  }

  /** What the loop of the unpacker stores for octet v, given the r bits carried over from the octet before. */
  function Stored(v: octet, b: octet, r: nat): octet
    requires r < 7
  {
    Shr(Shl(v, r + 1), 1) | b
  }

  /** The bits of octet i that belong to the character after it. */
  function Carried(octets: seq<octet>, i: nat, r: nat): octet
    requires i <= |octets| && r < 7 && (r > 0 ==> i > 0)
  {
    if r == 0 then 0 else Shr(octets[i - 1], 8 - r)
  }

  lemma StoredBit(v: octet, u: octet, r: nat, k: nat)
    requires r < 7 && k < 8
    ensures Bit(Stored(v, if r == 0 then 0 else Shr(u, 8 - r), r), k)
         == if k == 7 then false else if k < r then Bit(u, 8 - r + k) else Bit(v, k - r)
  {
    hide Bit, Shr, Shl;
    var b: octet := if r == 0 then 0 else Shr(u, 8 - r);
    OrBit(Shr(Shl(v, r + 1), 1), b, k);
    ShrBit(Shl(v, r + 1), 1, k);
    if k < 7 { ShlBit(v, r + 1, k + 1); }
    if r == 0 { ZeroBit(k); } else { ShrBit(u, 8 - r, k); }
  }

  lemma StreamBitAt(octets: seq<octet>, i: nat, k: nat, p: nat)
    requires k < 8 && p == 8 * i + k
    ensures StreamBit(octets, p) == (i < |octets| && Bit(octets[i], k))
  {
    assert p / 8 == i && p % 8 == k;
  }

  lemma StoredIsUnpacked(octets: seq<octet>, i: nat, r: nat, n: nat)
    requires i < |octets| && r < 7 && 8 * i == 7 * n + r
    ensures Stored(octets[i], Carried(octets, i, r), r) == UnpackedChar(octets, n)
  {
    hide Bit, StreamBit, UnpackedChar, Stored, Shr;
    var v := Stored(octets[i], Carried(octets, i, r), r);
    forall k | 0 <= k < 8 ensures Bit(v, k) == Bit(UnpackedChar(octets, n), k) {
      UnpackedCharBit(octets, n, k);
      StoredBit(octets[i], if r == 0 then 0 else octets[i - 1], r, k);
      if k < r {
        StreamBitAt(octets, i - 1, 8 - r + k, 7 * n + k);
      } else if k < 7 {
        StreamBitAt(octets, i, k - r, 7 * n + k);
      }
    }
    SameBits(v, UnpackedChar(octets, n));
  }

  /** Every seventh octet leaves a whole character behind. */
  lemma CarriedIsUnpacked(octets: seq<octet>, i: nat, n: nat)
    requires i < |octets| && 8 * i == 7 * n + 6
    ensures Shr(octets[i], 1) == UnpackedChar(octets, n + 1)
  {
    hide Bit, StreamBit, UnpackedChar, Shr;
    forall k | 0 <= k < 8 ensures Bit(Shr(octets[i], 1), k) == Bit(UnpackedChar(octets, n + 1), k) {
      UnpackedCharBit(octets, n + 1, k);
      ShrBit(octets[i], 1, k);
      if k < 7 { StreamBitAt(octets, i, k + 1, 7 * (n + 1) + k); }
    }
    SameBits(Shr(octets[i], 1), UnpackedChar(octets, n + 1));
  }

  /* ------------------------------------------------------------------ round trip */

  /** Eight septets fill seven octets: the lengths the round trip goes through. */
  lemma UnpackedPackedLength(n: nat)
    ensures UnpackedLength(PackedLength(n)) == if n > 0 && n % 8 in {0, 7} then n + 1 else n
  {
    var q, r := n / 8, n % 8;
    assert n == 8 * q + r;
    assert 7 * n / 8 == 7 * q + 7 * r / 8;
  }

  /** The text, cut or filled up with NULs. */
  function Padded(text: seq<octet>, m: nat): (r: seq<octet>)
    ensures |r| == m
  {
    seq(m, i requires 0 <= i < m => if i < |text| then text[i] else 0)
  }

  /** Unpacking any number of packed octets gives as much of the text as they hold, and NULs behind it. */
  lemma UnpackPackUpTo(text: seq<octet>, n: nat)
    requires SevenBit(text)
    ensures Unpack(PackUpTo(text, n)) == Padded(text, UnpackedLength(n))
  {
    hide Bit, UnpackedChar, UnpackUpTo, PackUpTo, UnpackedLength;
    var m := UnpackedLength(n);
    SeptetsInOctets(n);
    var back, expected := Unpack(PackUpTo(text, n)), Padded(text, m);
    forall i | 0 <= i < m ensures back[i] == expected[i] {
      UnpackUpToAt(PackUpTo(text, n), m, i);
      forall k | 0 <= k < 8 ensures Bit(UnpackedChar(PackUpTo(text, n), i), k) == Bit(expected[i], k) {
        CharBitBack(text, n, i, k, m);
        ZeroBit(k);
      }
      SameBits(UnpackedChar(PackUpTo(text, n), i), expected[i]);
    }
  }

  lemma SeptetsInOctets(n: nat)
    ensures 7 * UnpackedLength(n) <= 8 * n
  {
  }

  lemma CharBitBack(text: seq<octet>, n: nat, i: nat, k: nat, m: nat)
    requires SevenBit(text) && i < m && k < 8 && 7 * m <= 8 * n
    ensures Bit(UnpackedChar(PackUpTo(text, n), i), k) == (i < |text| && Bit(text[i], k))
  {
    hide Bit, StreamBit, TextBit, UnpackedChar, PackUpTo;
    UnpackedCharBit(PackUpTo(text, n), i, k);
    if k < 7 {
      PackedBits(text, n, 7 * i + k);
      TextBitAt(text, i, k, 7 * i + k);
    } else if i < |text| {
      SeptetTop(text[i]);
    }
  }

  /** Unpacking what was packed gives the text back, followed by one NUL exactly when the last group of eight
      lacks at most one character. */
  lemma PackRoundTrip(text: seq<octet>)
    requires SevenBit(text)
    ensures Unpack(Pack(text)) == if text != [] && |text| % 8 in {0, 7} then text + [0] else text
  {
    hide Unpack, PackUpTo, PackedLength, UnpackedLength;
    UnpackedPackedLength(|text|);
    UnpackPackUpTo(text, PackedLength(|text|));
  }

  /** From the packing of the standard it comes back with one NUL exactly when the last group lacks one character. */
  lemma StandardRoundTrip(text: seq<octet>)
    requires SevenBit(text)
    ensures Unpack(StandardPack(text)) == if |text| % 8 == 7 then text + [0] else text
  {
    hide Unpack, PackUpTo;
    var q, r := |text| / 8, |text| % 8;
    assert |text| == 8 * q + r;
    assert (7 * |text| + 7) / 8 == 7 * q + r;
    UnpackPackUpTo(text, (7 * |text| + 7) / 8);
  }

  /** The number of octets the packer emits is the number needed for the septets exactly when eight does not
      divide their number. */
  lemma PackedLengthIsLeastIff(n: nat)
    ensures PackedLength(n) == (7 * n + 7) / 8 <==> n == 0 || n % 8 != 0
    ensures n > 0 && n % 8 == 0 ==> PackedLength(n) == (7 * n + 7) / 8 + 1
  {
    var q, r := n / 8, n % 8;
    assert n == 8 * q + r;
  }

  /** The packer asks for room for 2(n - n/8) digits; that is what it writes exactly when eight does not divide
      the length, and one octet less when it does. */
  lemma RoomAskedIsRoomUsedIff(n: nat)
    ensures 2 * PackedLength(n) == 2 * (n - n / 8) <==> n == 0 || n % 8 != 0
    ensures n > 0 && n % 8 == 0 ==> 2 * PackedLength(n) == 2 * (n - n / 8) + 2
  {
    var q, r := n / 8, n % 8;
    assert n == 8 * q + r;
    assert 7 * n / 8 == 7 * q + 7 * r / 8;
  }
}
