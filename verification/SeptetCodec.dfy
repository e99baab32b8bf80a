/** The coders of char_conv.c, writing into their output buffers in place. */
module SeptetCodec {
  import opened Octets
  import opened Buffers
  import opened HexText
  import opened Septets

  lemma EmittedText(text: seq<octet>, i: nat, s: nat, n: nat)
    requires SevenBit(text) && i + 1 < |text| && s < 7 && 8 * n == 7 * i + s
    ensures var c := Emitted(text[i], text[i + 1], s);
      Hex(PackUpTo(text, n + 1)) == Hex(PackUpTo(text, n)) + [HexDigit(High(c)), HexDigit(Low(c))]
  {
    hide PackedOctet, Emitted, Hex, HexDigit, High, Low;
    EmittedIsPacked(text, i, s, n);
    HexThen(PackUpTo(text, n), Emitted(text[i], text[i + 1], s));
  }

  lemma LastText(text: seq<octet>, s: nat, n: nat)
    requires SevenBit(text) && text != [] && s < 8 && 8 * n == 7 * (|text| - 1) + s
    ensures n + 1 == PackedLength(|text|)
    ensures var c := Shr(text[|text| - 1], s);
      Hex(Pack(text)) == Hex(PackUpTo(text, n)) + [HexDigit(High(c)), HexDigit(Low(c))]
  {
    hide PackedOctet, Shr, Hex, HexDigit, High, Low;
    LastIsPacked(text, s, n);
    HexThen(PackUpTo(text, n), Shr(text[|text| - 1], s));
  }

  /** char_to_hexstr_7bit. Its test of the room is short by one octet when eight divides the length, so a
      caller must leave that much more. */
  method CharToHexstr7bit(text: seq<octet>, out: array<char>, base: nat, outSize: nat) returns (rv: int)
    requires outSize > 0 && base + outSize <= out.Length
    requires 2 * (|text| - |text| / 8) < outSize ==> base + 2 * PackedLength(|text|) < out.Length
    modifies out
    ensures rv == if outSize - 1 < 2 * (|text| - |text| / 8) then -1 else 2 * PackedLength(|text|)
    ensures rv < 0 ==> forall i :: 0 <= i < out.Length ==> out[i] == old(out[i])
    ensures rv >= 0 ==> out[base + rv] == '\0' && OutsideKept(out, base, base + rv + 1)
    ensures rv >= 0 && SevenBit(text) ==> out[base..base + rv] == Hex(Pack(text))
  {
    hide PackedOctet, Emitted, Shr, Shl, Hex, Pack, PackUpTo, HexDigit, High, Low, SevenBit;
    var x := (|text| - |text| / 8) * 2;
    if outSize - 1 < x {
      return -1;
    }
    x := 0;
    ghost var m := 0;
    assert out[base..base] == [] == Hex([]) by { HexEmpty(); }
    if |text| > 0 {
      var n := |text| - 1;
      var i, s := 0, 0;
      while i < n
        invariant 0 <= i <= n && 0 <= s <= 7 && x == 2 * m && 8 * m == 7 * i + s
        invariant OutsideKept(out, base, base + x)
        invariant SevenBit(text) ==> out[base..base + x] == Hex(PackUpTo(text, m))
      {
        if s == 7 {
          s := 0;
          i := i + 1;
          continue;
        }
        var c := Emitted(text[i], text[i + 1], s);
        if SevenBit(text) { EmittedText(text, i, s, m); }
        s := s + 1;
        PutTwo(out, base, x, HexDigit(High(c)), HexDigit(Low(c)), out[base..base + x]);
        x := x + 2;
        m := m + 1;
        i := i + 1;
      }
      var c := Shr(text[i], s);
      if SevenBit(text) { LastText(text, s, m); }
      PutTwo(out, base, x, HexDigit(High(c)), HexDigit(Low(c)), out[base..base + x]);
      x := x + 2;
      m := m + 1;
    }
    out[base + x] := '\0';
    return x;
  }

  /* ------------------------------------------------------------------ unpacking */

  /** sscanf with "%x" on two characters, cut to an octet. Its result on pairs that are not two digits is not
      described further. */
  type Scan = f: (char, char) -> Result<octet> | ScansDigits(f)
    witness (c, d) => if IsHex(c) && IsHex(d) then Ok(Pair(c, d) as octet) else Invalid

  ghost predicate ScansDigits(f: (char, char) -> Result<octet>) {
    forall c, d :: IsHex(c) && IsHex(d) ==> f(c, d) == Ok(Pair(c, d) as octet)
  }

  predicate AllScan(scan: Scan, t: seq<char>) {
    forall i :: 0 <= i < |t| / 2 ==> scan(t[2 * i], t[2 * i + 1]).Ok?
  }

  function Scanned(scan: Scan, t: seq<char>): (octets: seq<octet>)
    requires AllScan(scan, t)
    ensures |octets| == |t| / 2
  {
    seq(|t| / 2, i requires 0 <= i < |t| / 2 => scan(t[2 * i], t[2 * i + 1]).value)
  }

  lemma DigitsScan(scan: Scan, t: seq<char>)
    requires AllHex(t)
    ensures AllScan(scan, t) && Scanned(scan, t) == FromHex(t)
  {
    hide IsHex, Pair;
    assert ScansDigits(scan);
  }

  /** hexstr_7bit_to_char. */
  method Hexstr7bitToChar(scan: Scan, text: seq<char>, out: array<octet>, outSize: nat) returns (rv: int)
    requires 0 < outSize <= out.Length
    modifies out
    ensures rv == if outSize - 1 < UnpackedLength(|text| / 2) || !AllScan(scan, text) then -1
                  else UnpackedLength(|text| / 2)
    ensures rv >= 0 ==> out[..rv] == Unpack(Scanned(scan, text)) && out[rv] == 0
  {
    hide Shr, Shl, UnpackedChar, Scanned, Stored, Pair, IsHex;
    var n := |text| / 2;
    var x := n + n / 7;
    if outSize - 1 < x {
      return -1;
    }
    var i, s, b: octet := 0, 1, 0;
    x := 0;
    while i < n
      invariant 0 <= i <= n && 1 <= s <= 7 && x >= 0 && 8 * i == 7 * x + (s - 1)
      invariant forall j :: 0 <= j < i ==> scan(text[2 * j], text[2 * j + 1]).Ok?
      invariant AllScan(scan, text) ==> b == Carried(Scanned(scan, text), i, s - 1)
      invariant AllScan(scan, text) ==> out[..x] == UnpackUpTo(Scanned(scan, text), x)
    {
      var v := scan(text[2 * i], text[2 * i + 1]);
      if !v.Ok? {
        return -1;
      }
      ghost var whole := AllScan(scan, text);
      if whole {
        ScannedAt(scan, text, i);
        StoredIsUnpacked(Scanned(scan, text), i, s - 1, x);
        if s == 7 { CarriedIsUnpacked(Scanned(scan, text), i, x); }
      }
      out[x] := Stored(v.value, b, s - 1);
      b := Shr(v.value, 8 - s);
      x := x + 1;
      s := s + 1;
      if s == 8 {
        out[x] := b;
        s := 1;
        b := 0;
        x := x + 1;
      }
      i := i + 1;
    }
    out[x] := 0;
    return x;
  }

  lemma ScannedAt(scan: Scan, t: seq<char>, i: nat)
    requires AllScan(scan, t) && i < |t| / 2
    ensures Scanned(scan, t)[i] == scan(t[2 * i], t[2 * i + 1]).value
  {
  }

  /** Packed to digits by one and unpacked by the other, a seven-bit text comes back, with one NUL behind it
      exactly when the last group of eight lacks at most one character. */
  lemma TextRoundTrip(scan: Scan, text: seq<octet>)
    requires SevenBit(text)
    ensures var t := Hex(Pack(text));
      && AllScan(scan, t)
      && Unpack(Scanned(scan, t)) == if text != [] && |text| % 8 in {0, 7} then text + [0] else text
  {
    hide Pack, Unpack, Hex, FromHex, Scanned, AllScan, AllHex;
    HexRoundTrip(Pack(text));
    DigitsScan(scan, Hex(Pack(text)));
    PackRoundTrip(text);
  }

  /** The same for the packing of the standard. */
  lemma StandardTextRoundTrip(scan: Scan, text: seq<octet>)
    requires SevenBit(text)
    ensures var t := Hex(StandardPack(text));
      && AllScan(scan, t)
      && Unpack(Scanned(scan, t)) == if |text| % 8 == 7 then text + [0] else text
  {
    hide StandardPack, Unpack, Hex, FromHex, Scanned, AllScan, AllHex;
    HexRoundTrip(StandardPack(text));
    DigitsScan(scan, Hex(StandardPack(text)));
    StandardRoundTrip(text);
  }

  /* ------------------------------------------------------------------ eight bits */

  /** chars8bit_to_hexstr. */
  method Chars8bitToHexstr(text: seq<octet>, out: array<char>, base: nat, outSize: nat) returns (rv: int)
    requires outSize > 0 && base + outSize <= out.Length
    modifies out
    ensures rv == if outSize - 1 < 2 * |text| then -1 else 2 * |text|
    ensures rv < 0 ==> forall i :: 0 <= i < out.Length ==> out[i] == old(out[i])
    ensures rv >= 0 ==> out[base..base + rv] == Hex(text) && out[base + rv] == '\0'
    ensures rv >= 0 ==> OutsideKept(out, base, base + rv + 1)
  {
    hide Hex, HexDigit, High, Low;
    if outSize - 1 < |text| * 2 {
      return -1;
    }
    var i := 0;
    assert out[base..base] == [] == Hex(text[..0]) by { HexEmpty(); }
    while i < |text|
      invariant 0 <= i <= |text| && OutsideKept(out, base, base + 2 * i)
      invariant out[base..base + 2 * i] == Hex(text[..i])
    {
      HexThen(text[..i], text[i]);
      assert text[..i + 1] == text[..i] + [text[i]];
      PutTwo(out, base, 2 * i, HexDigit(High(text[i])), HexDigit(Low(text[i])), Hex(text[..i]));
      i := i + 1;
    }
    assert text[..i] == text;
    out[base + 2 * i] := '\0';
    return 2 * |text|;
  }

  /** hexstr_to_8bitchars: refuses an odd length, too little room and anything that is not all digits. */
  method HexstrTo8bitchars(text: seq<char>, out: array<octet>, outSize: nat) returns (rv: int)
    requires 0 < outSize <= out.Length
    modifies out
    ensures rv == if |text| % 2 == 1 then -EINVAL else if outSize - 1 < |text| / 2 then -ENOMEM
                  else if !AllHex(text) then -EINVAL else |text| / 2
    ensures rv >= 0 ==> out[..rv] == FromHex(text) && out[rv] == 0
  {
    hide ParseHexDigit, Pair;
    if |text| % 2 == 1 {
      return -EINVAL;
    }
    if outSize - 1 < |text| / 2 {
      return -ENOMEM;
    }
    var i := 0;
    while i < |text| / 2
      invariant 0 <= i <= |text| / 2
      invariant forall j :: 0 <= j < 2 * i ==> IsHex(text[j])
      invariant forall j :: 0 <= j < i ==> out[j] == Pair(text[2 * j], text[2 * j + 1]) as octet
    {
      if ParseHexDigit(text[2 * i]) < 0 {
        return -EINVAL;
      }
      if ParseHexDigit(text[2 * i + 1]) < 0 {
        return -EINVAL;
      }
      out[i] := Pair(text[2 * i], text[2 * i + 1]) as octet;
      i := i + 1;
    }
    out[i] := 0;
    return |text| / 2;
  }

  /* ------------------------------------------------------------------ choosing the coder */

  datatype Encoding = SevenBitHex | EightBitHex | Ucs2Hex | SevenBitText | UnknownEncoding

  /** get_encoding for RECODE_ENCODE: packed septets exactly for text whose every octet has seven bits. */
  method GetEncodingToSend(text: seq<octet>) returns (encoding: Encoding)
    ensures encoding == if SevenBit(text) then SevenBitHex else Ucs2Hex
    ensures encoding == Ucs2Hex <==> exists i :: 0 <= i < |text| && text[i] >= 0x80
  {
    var i := 0;
    while i < |text|
      invariant 0 <= i <= |text| && SevenBit(text[..i])
    {
      if text[i] & 0x80 != 0 {
        assert text[i] >= 128;
        return Ucs2Hex;
      }
      assert text[i] < 128;
      i := i + 1;
    }
    assert text[..i] == text;
    return SevenBitHex;
  }

  /** get_encoding for RECODE_DECODE: it never names a coder for digits. */
  method GetEncodingReceived(text: seq<char>) returns (encoding: Encoding)
    ensures encoding == if AllHex(text) then UnknownEncoding else SevenBitText
  {
    hide ParseHexDigit;
    var x := 0;
    while x < |text|
      invariant 0 <= x <= |text| && forall j :: 0 <= j < x ==> IsHex(text[j])
    {
      if ParseHexDigit(text[x]) < 0 {
        return SevenBitText;
      }
      x := x + 1;
    }
    return UnknownEncoding;
  }

  /** iconv from UTF-8 to UCS-2: not described, but for at most two octets out for each one in. */
  type Recode = f: seq<octet> -> Result<seq<octet>> | AtMostDoubles(f)
    witness (text: seq<octet>) => Invalid

  ghost predicate AtMostDoubles(f: seq<octet> -> Result<seq<octet>>) {
    forall t :: f(t).Ok? ==> |f(t).value| <= 2 * |t|
  }

  /** utf8_to_hexstr_ucs2. */
  method Utf8ToHexstrUcs2(recode: Recode, text: seq<octet>, out: array<char>, base: nat, outSize: nat)
    returns (rv: int)
    requires outSize > 0 && base + outSize <= out.Length
    modifies out
    ensures rv >= 0 <==> 4 * |text| < outSize && recode(text).Ok?
    ensures rv < 0 ==> forall i :: 0 <= i < out.Length ==> out[i] == old(out[i])
    ensures rv >= 0 ==> rv == 2 * |recode(text).value| && rv <= 4 * |text|
    ensures rv >= 0 ==> out[base..base + rv] == Hex(recode(text).value)
    ensures rv >= 0 ==> out[base + rv] == '\0' && OutsideKept(out, base, base + rv + 1)
  {
    hide Hex;
    if outSize - 1 < |text| * 4 {
      return -1;
    }
    var converted := recode(text);
    if !converted.Ok? {
      return -3;
    }
    assert AtMostDoubles(recode);
    rv := Chars8bitToHexstr(converted.value, out, base, outSize);
  }
}
