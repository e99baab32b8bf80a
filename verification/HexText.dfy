/** Octets written as pairs of hexadecimal digits: parse_hexdigit, chars8bit_to_hexstr and hexstr_to_8bitchars
    of char_conv.c. */
module HexText {
  import opened Octets

  const EINVAL := 22
  const ENOMEM := 12

  datatype Result<T> = Ok(value: T) | Invalid | NoRoom

  /** parse_hexdigit; -1 for anything that is not a digit. */
  function ParseHexDigit(c: char): (d: int)
    ensures -1 <= d < 16
  {
    if '0' <= c <= '9' then c as int - '0' as int
    else if 'a' <= c <= 'f' then c as int - 'a' as int + 10
    else if 'A' <= c <= 'F' then c as int - 'A' as int + 10
    else -1
  }

  /** The digits in their order, read in either case and written in upper case. */
  lemma DigitsInOrder(c: char, d: nat)
    requires d < 16
    ensures ParseHexDigit(c) == d <==> c == "0123456789ABCDEF"[d] || c == "0123456789abcdef"[d]
    ensures HexDigit(d) == "0123456789ABCDEF"[d]
  {
  }

  predicate IsHex(c: char) {
    ParseHexDigit(c) >= 0
  }

  /** And nothing else is one. */
  lemma OnlyDigits(c: char)
    ensures IsHex(c) <==> c in "0123456789ABCDEFabcdef"
  {
    var all := "0123456789ABCDEFabcdef";
    if '0' <= c <= '9' { assert all[c as int - '0' as int] == c; }
    if 'A' <= c <= 'F' { assert all[c as int - 'A' as int + 10] == c; }
    if 'a' <= c <= 'f' { assert all[c as int - 'a' as int + 16] == c; }
  }

  /** hex_table and the digits of "%X". */
  function HexDigit(d: nat): (c: char)
    requires d < 16
    ensures IsHex(c) && ParseHexDigit(c) == d
  {
    if d < 10 then '0' + d as char else 'A' + (d - 10) as char
  }

  function High(v: octet): (d: nat)
    ensures d < 16
  {
    (v as nat) / 16
  }

  function Low(v: octet): (d: nat)
    ensures d < 16
  {
    (v as nat) % 16
  }

  /** The text of a sequence of octets. */
  function Hex(octets: seq<octet>): (t: seq<char>)
    ensures |t| == 2 * |octets|
  {
    if octets == [] then []
    else Hex(octets[..|octets| - 1]) + [HexDigit(High(octets[|octets| - 1])), HexDigit(Low(octets[|octets| - 1]))]
  }

  lemma {:induction false} HexAt(octets: seq<octet>, i: nat)
    requires i < |octets|
    ensures Hex(octets)[2 * i] == HexDigit(High(octets[i])) && Hex(octets)[2 * i + 1] == HexDigit(Low(octets[i]))
  {
    if i < |octets| - 1 {
      HexAt(octets[..|octets| - 1], i);
    }
  }

  lemma HexEmpty()
    ensures Hex([]) == []
  {
  }

  lemma HexThen(octets: seq<octet>, v: octet)
    ensures Hex(octets + [v]) == Hex(octets) + [HexDigit(High(v)), HexDigit(Low(v))]
  {
    assert (octets + [v])[..|octets|] == octets;
  }

  predicate AllHex(t: seq<char>) {
    forall i :: 0 <= i < |t| ==> IsHex(t[i])
  }

  /** The octet two digits stand for. */
  function Pair(c: char, d: char): (n: nat)
    requires IsHex(c) && IsHex(d)
    ensures n < 256
  {
    ParseHexDigit(c) * 16 + ParseHexDigit(d)
  }

  /** The octets of a text of digits; an odd last digit is not looked at. */
  function FromHex(t: seq<char>): (octets: seq<octet>)
    requires AllHex(t)
    ensures |octets| == |t| / 2
  {
    seq(|t| / 2, i requires 0 <= i < |t| / 2 => Pair(t[2 * i], t[2 * i + 1]) as octet)
  }

  lemma PairOfDigits(v: octet)
    ensures Pair(HexDigit(High(v)), HexDigit(Low(v))) as octet == v
  {
    hide HexDigit, ParseHexDigit;
    assert Pair(HexDigit(High(v)), HexDigit(Low(v))) == v as nat by { HighLow(v as nat); }
  }

  lemma HighLow(n: nat)
    ensures (n / 16) * 16 + n % 16 == n
  {
  }

  /** Reading the text of octets gives them back. */
  lemma {:induction false} HexRoundTrip(octets: seq<octet>)
    ensures AllHex(Hex(octets)) && FromHex(Hex(octets)) == octets
  {
    hide HexDigit, High, Low, Pair, ParseHexDigit;
    var t := Hex(octets);
    forall i | 0 <= i < |t| ensures IsHex(t[i]) {
      HexAt(octets, i / 2);
      assert i == 2 * (i / 2) || i == 2 * (i / 2) + 1;
    }
    forall i | 0 <= i < |octets| ensures FromHex(t)[i] == octets[i] {
      HexAt(octets, i);
      PairOfDigits(octets[i]);
    }
  }
}
