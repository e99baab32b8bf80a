/** The fields of a PDU in pdu.c: a cursor over the hexadecimal text, the parsers that move it, and the writer of
    addresses. */
module PduFields {
  import opened HexText
  import opened PduTables

  /* ------------------------------------------------------------------ text from a position on */

  /** From pos on the text reads: rest. */
  ghost predicate At(text: seq<char>, pos: nat, rest: seq<char>) {
    pos <= |text| && text[pos..] == rest
  }

  /** A field with something behind it. */
  function Then(field: seq<char>, rest: seq<char>): (t: seq<char>)
    ensures |t| == |field| + |rest|
  {
    field + rest
  }

  lemma Past(text: seq<char>, pos: nat, field: seq<char>, rest: seq<char>)
    requires At(text, pos, Then(field, rest))
    ensures pos + |field| <= |text| && At(text, pos + |field|, rest)
  {
    assert text[pos + |field|..] == text[pos..][|field|..];
  }

  lemma AtStart(text: seq<char>)
    ensures At(text, 0, text)
  {
  }

  lemma AtEnd(text: seq<char>, pos: nat, rest: seq<char>)
    requires At(text, pos, rest)
    ensures pos + |rest| == |text|
  {
  }

  /* ------------------------------------------------------------------ what the parsers read */

  /** What a parser returned and where it left the cursor. */
  datatype Read = Read(value: int, pos: nat)

  /** Two digits make an octet. When only the second is bad the first comes back alone, as no error. */
  function ByteAt(text: seq<char>, pos: nat): (r: Read)
    requires pos <= |text|
    ensures pos <= r.pos <= |text| && -1 <= r.value < 256 && (r.value >= 0 ==> r.pos > pos)
  {
    if |text| - pos < 2 || !IsHex(text[pos]) then Read(-1, pos)
    else if !IsHex(text[pos + 1]) then Read(ParseHexDigit(text[pos]), pos + 1)
    else Read(Pair(text[pos], text[pos + 1]), pos + 2)
  }

  /** The octet by its characters: sixteen times the first digit and the second; the first digit alone when only the
      second is none; -1 when the first is none or there are not two. */
  lemma OctetRead(text: seq<char>, pos: nat, d: nat, e: nat)
    requires pos + 2 <= |text| && d < 16 && e < 16
    ensures text[pos] == "0123456789ABCDEF"[d] && text[pos + 1] == "0123456789ABCDEF"[e] ==>
      ByteAt(text, pos) == Read(16 * d + e, pos + 2)
    ensures text[pos] == "0123456789abcdef"[d] && text[pos + 1] == "0123456789abcdef"[e] ==>
      ByteAt(text, pos) == Read(16 * d + e, pos + 2)
    ensures text[pos] == "0123456789ABCDEF"[d] && text[pos + 1] !in "0123456789ABCDEFabcdef" ==>
      ByteAt(text, pos) == Read(d, pos + 1)
    ensures text[pos] !in "0123456789ABCDEFabcdef" ==> ByteAt(text, pos) == Read(-1, pos)
  {
    hide ParseHexDigit;
    DigitsInOrder(text[pos], d);
    DigitsInOrder(text[pos + 1], e);
    OnlyDigits(text[pos]);
    OnlyDigits(text[pos + 1]);
  }

  function ScaAt(text: seq<char>, pos: nat): (r: Read)
    requires pos <= |text|
    ensures pos <= r.pos <= |text|
  {
    var n := ByteAt(text, pos);
    if n.value >= 0 && 2 * n.value <= |text| - n.pos then Read(2 * n.value + 2, n.pos + 2 * n.value)
    else Read(-EINVAL, n.pos)
  }

  function TimestampAt(text: seq<char>, pos: nat): (r: Read)
    requires pos <= |text|
    ensures pos <= r.pos <= |text|
  {
    if |text| - pos >= 14 then Read(14, pos + 14) else Read(-EINVAL, pos)
  }

  /** The digits an address field stores: whether it was well formed, the characters stored, the cursor. */
  datatype Digits = Digits(ok: bool, stored: seq<char>, pos: nat)

  function RoundUp2(n: nat): (m: nat)
    ensures n <= m <= n + 1 && m % 2 == 0
  {
    n + n % 2
  }

  /** The loop of pdu_parse_number: syms characters left, and whether a filler may close the last pair. */
  function DigitsAt(text: seq<char>, pos: nat, syms: nat, odd: bool): (d: Digits)
    requires pos + syms <= |text| && syms % 2 == 0
    ensures pos <= d.pos <= |text| && |d.stored| <= syms && (d.ok ==> d.pos == pos + syms && |d.stored| == syms)
    decreases syms
  {
    if syms == 0 then Digits(true, [], pos)
    else
      var first, second := CodeToDigit(text[pos + 1]), CodeToDigit(text[pos]);
      if !first.Digit? then Digits(false, [], pos)
      else if second.NoCode? || (second.Filler? && (syms != 2 || !odd)) then Digits(false, [first.c], pos)
      else
        var rest := DigitsAt(text, pos + 2, syms - 2, odd);
        rest.(stored := [first.c, if second.Filler? then '\0' else second.c] + rest.stored)
  }

  /** The whole field is what is stored so far and what the rest of the field gives. */
  ghost predicate Continues(all: Digits, stored: seq<char>, rest: Digits) {
    all == rest.(stored := stored + rest.stored)
  }

  lemma DigitsStep(text: seq<char>, pos: nat, syms: nat, odd: bool, stored: seq<char>, all: Digits)
    requires pos + syms <= |text| && syms % 2 == 0 && syms > 0
    requires Continues(all, stored, DigitsAt(text, pos, syms, odd))
    ensures var first, second := CodeToDigit(text[pos + 1]), CodeToDigit(text[pos]);
      if !first.Digit? then all == Digits(false, stored, pos)
      else if second.NoCode? || (second.Filler? && (syms != 2 || !odd)) then
        all == Digits(false, stored + [first.c], pos)
      else Continues(all, stored + [first.c] + [if second.Filler? then '\0' else second.c],
                     DigitsAt(text, pos + 2, syms - 2, odd))
  {
    hide CodeToDigit;
    var first, second := CodeToDigit(text[pos + 1]), CodeToDigit(text[pos]);
    if first.Digit? && !second.NoCode? && (second.Filler? ==> syms == 2 && odd) {
      var two, rest := [first.c, if second.Filler? then '\0' else second.c], DigitsAt(text, pos + 2, syms - 2, odd);
      assert stored + (two + rest.stored) == (stored + [two[0]] + [two[1]]) + rest.stored;
    }
  }

  lemma ContinuesStart(all: Digits)
    ensures Continues(all, [], all)
  {
  }

  lemma ContinuesEnd(text: seq<char>, pos: nat, odd: bool, stored: seq<char>, all: Digits)
    requires pos <= |text| && Continues(all, stored, DigitsAt(text, pos, 0, odd))
    ensures all == Digits(true, stored, pos)
  {
  }

  /** What pdu_parse_number returns, the type of address, what it stored and where the cursor went. */
  datatype Number = Number(rv: int, toa: int, stored: seq<char>, pos: nat)

  function NumberAt(text: seq<char>, pos: nat, digits: nat): (n: Number)
    requires pos <= |text|
    ensures pos <= n.pos <= |text| && |n.stored| <= digits + 2
  {
    var t := ByteAt(text, pos);
    if t.value < 0 || RoundUp2(digits) > |text| - t.pos then Number(-EINVAL, t.value, [], t.pos)
    else
      var d := DigitsAt(text, t.pos, RoundUp2(digits), digits % 2 == 1);
      var plus := if t.value == INTERNATIONAL then ['+'] else [];
      if !d.ok then Number(-1, t.value, plus + d.stored, d.pos)
      else Number(d.pos - pos, t.value, plus + d.stored + if digits % 2 == 0 then ['\0'] else [], d.pos)
  }

  const INTERNATIONAL := 0x91

  /** What a number that is accepted takes in the buffer: its digits and a NUL, and one more exactly when it is
      international, which the test of the room overlooks. */
  lemma StoredLength(text: seq<char>, pos: nat, digits: nat)
    requires pos <= |text| && NumberAt(text, pos, digits).rv >= 0
    ensures var n := NumberAt(text, pos, digits);
      && |n.stored| == digits + 1 + (if n.toa == INTERNATIONAL then 1 else 0)
  {
  }

  /** A number that is accepted ends with a NUL exactly when its digits are even in number or the last is beside the
      filler; a digit in the filler's place is stored in the place of the NUL. */
  lemma EndsWithNulIff(text: seq<char>, pos: nat, digits: nat)
    requires pos <= |text| && 0 < digits && NumberAt(text, pos, digits).rv >= 0
    ensures var n := NumberAt(text, pos, digits);
      && n.stored != [] && 2 <= n.pos <= |text|
      && (n.stored[|n.stored| - 1] == '\0' <==> digits % 2 == 0 || text[n.pos - 2] == 'F')
  {
    hide CodeToDigit;
    var t := ByteAt(text, pos);
    LastPairStored(text, t.pos, RoundUp2(digits), digits % 2 == 1);
    OnlyFiller(text[t.pos + RoundUp2(digits) - 2]);
  }

  lemma OnlyFiller(code: char)
    ensures CodeToDigit(code).Filler? <==> code == 'F'
    ensures CodeToDigit(code).Digit? ==> CodeToDigit(code).c != '\0'
  {
  }

  lemma {:induction false} LastPairStored(text: seq<char>, pos: nat, syms: nat, odd: bool)
    requires 0 < syms && syms % 2 == 0 && pos + syms <= |text| && DigitsAt(text, pos, syms, odd).ok
    ensures var d := DigitsAt(text, pos, syms, odd).stored;
      && |d| == syms && !CodeToDigit(text[pos + syms - 2]).NoCode?
      && d[syms - 1] == match CodeToDigit(text[pos + syms - 2]) case Digit(c) => c case _ => '\0'
    decreases syms
  {
    hide CodeToDigit;
    if syms > 2 { LastPairStored(text, pos + 2, syms - 2, odd); }
  }

  /** *number++ = c, when number[from..k] holds what was stored before. */
  method StoreDigit(number: array<char>, from: nat, k: nat, c: char, ghost stored: seq<char>)
    requires from <= k < number.Length && number[from..k] == stored
    modifies number
    ensures number[from..k + 1] == stored + [c]
    ensures from == 1 ==> number[0] == old(number[0])
  {
    number[k] := c;
    assert number[from..k] == stored;
  }

  /* ------------------------------------------------------------------ the cursor */

  /** The pointer into the text and the number of characters left, which every parser moves together. */
  class Cursor {
    const text: seq<char>
    var pos: nat
    var length: nat

    predicate Valid()
      reads this
    {
      pos + length == |text|
    }

    constructor (text: seq<char>)
      ensures this.text == text && pos == 0 && Valid()
    {
      this.text, pos, length := text, 0, |text|;
    }

    /** pdu_parse_byte. */
    method ParseByte() returns (res: int)
      requires Valid()
      modifies this
      ensures Valid() && Read(res, pos) == ByteAt(text, old(pos))
    {
      hide ParseHexDigit;
      res := -1;
      if length >= 2 {
        res := ParseHexDigit(text[pos]);
        if res >= 0 {
          pos := pos + 1;
          length := length - 1;
          var res2 := ParseHexDigit(text[pos]);
          if res2 >= 0 {
            pos := pos + 1;
            length := length - 1;
            return res * 16 + res2;
          }
        }
      }
    }

    /** pdu_parse_sca. */
    method ParseSca() returns (res: int)
      requires Valid()
      modifies this
      ensures Valid() && Read(res, pos) == ScaAt(text, old(pos))
    {
      hide ByteAt;
      var scaLen := ParseByte();
      if scaLen >= 0 {
        scaLen := scaLen * 2;
        if scaLen <= length {
          pos := pos + scaLen;
          length := length - scaLen;
          return scaLen + 2;
        }
      }
      return -EINVAL;
    }

    /** pdu_parse_timestamp. */
    method ParseTimestamp() returns (res: int)
      requires Valid()
      modifies this
      ensures Valid() && Read(res, pos) == TimestampAt(text, old(pos))
    {
      if length >= 14 {
        pos := pos + 14;
        length := length - 14;
        return 14;
      }
      return -EINVAL;
    }

    /** pdu_parse_number. Its test of the room forgets the '+' of an international number, which the caller must
        have left room for. */
    method ParseNumber(digits: nat, number: array<char>, numLen: nat) returns (res: int, toa: int)
      requires Valid() && numLen <= number.Length
      requires numLen >= digits + 1 ==>
        number.Length >= digits + 1 + if ByteAt(text, pos).value == INTERNATIONAL then 1 else 0
      modifies this, number
      ensures Valid()
      ensures numLen < digits + 1 ==> res == -ENOMEM && pos == old(pos)
      ensures numLen >= digits + 1 ==>
        var n := NumberAt(text, old(pos), digits);
        res == n.rv && toa == n.toa && pos == n.pos && number[..|n.stored|] == n.stored
    {
      hide ByteAt, CodeToDigit, DigitsAt;
      toa := -1;
      if numLen < digits + 1 {
        return -ENOMEM, toa;
      }
      var begin := pos;
      toa := ParseByte();
      if toa >= 0 && digits + digits % 2 <= length {
        var k := 0;
        if toa == INTERNATIONAL {
          number[0] := '+';
          k := 1;
        }
        var ok;
        ok, k := ParseDigits(digits, number, k);
        if !ok {
          return -1, toa;
        }
        if digits % 2 == 0 {
          number[k] := '\0';
        }
        return pos - begin, toa;
      }
      return -EINVAL, toa;
    }

    /** The loop of pdu_parse_number, storing from number[from] on. */
    method ParseDigits(digits: nat, number: array<char>, from: nat) returns (ok: bool, k: nat)
      requires Valid() && RoundUp2(digits) <= length && from <= 1 && from + digits + 1 <= number.Length
      modifies this, number
      ensures Valid()
      ensures var d := DigitsAt(text, old(pos), RoundUp2(digits), digits % 2 == 1);
        && ok == d.ok && pos == d.pos && k == from + |d.stored| && k <= number.Length
        && number[from..k] == d.stored && (from == 1 ==> number[0] == old(number[0]))
    {
      hide CodeToDigit, DigitsAt, Continues, RoundUp2;
      k := from;
      var syms: nat := RoundUp2(digits);
      ghost var odd := digits % 2 == 1;
      ghost var all, stored := DigitsAt(text, pos, syms, odd), [];
      assert Continues(all, stored, all) by { ContinuesStart(all); }
      while syms > 0
        invariant Valid() && syms % 2 == 0 && syms <= length && syms <= RoundUp2(digits)
        invariant k == from + RoundUp2(digits) - syms && k <= number.Length
        invariant (from == 1 ==> number[0] == old(number[0])) && number[from..k] == stored
        invariant Continues(all, stored, DigitsAt(text, pos, syms, odd))
      {
        DigitsStep(text, pos, syms, odd, stored, all);
        var digit := CodeToDigit(text[pos + 1]);
        if !digit.Digit? {
          return false, k;
        }
        StoreDigit(number, from, k, digit.c, stored);
        var second := CodeToDigit(text[pos]);
        if second.NoCode? || (second.Filler? && (syms != 2 || digits % 2 == 0)) {
          return false, k + 1;
        }
        var c := if second.Filler? then '\0' else second.c;
        StoreDigit(number, from, k + 1, c, stored + [digit.c]);
        stored := stored + [digit.c] + [c];
        k := k + 2;
        syms := syms - 2;
        pos := pos + 2;
        length := length - 2;
      }
      ContinuesEnd(text, pos, odd, stored, all);
      return true, k;
    }
  }
}
