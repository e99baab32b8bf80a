/** The tables of pdu.c: semi-octet digits and the relative validity period of section 9.2.3.12.1 of
    3GPP TS 23.040. */
module PduTables {

  /* ------------------------------------------------------------------ digits */

  /** The characters a semi-octet of an address can stand for, as the dialling side writes them. */
  predicate IsAddressDigit(c: char) {
    '0' <= c <= '9' || c == '*' || c == '#' || 'a' <= c <= 'c' || 'A' <= c <= 'C'
  }

  /** pdu_digit2code; NUL for a character it does not know. */
  function DigitToCode(digit: char): (code: char)
    ensures IsAddressDigit(digit) <==> code != '\0'
  {
    if '0' <= digit <= '9' then digit
    else if digit == '*' then 'A'
    else if digit == '#' then 'B'
    else if digit == 'a' || digit == 'A' then 'C'
    else if digit == 'b' || digit == 'B' then 'D'
    else if digit == 'c' || digit == 'C' then 'E'
    else '\0'
  }

  /** What pdu_code2digit can return: a digit, 0 for the filler, -1. */
  datatype Semi = Digit(c: char) | Filler | NoCode

  function CodeToDigit(code: char): Semi {
    if '0' <= code <= '9' then Digit(code)
    else if code == 'a' || code == 'A' then Digit('*')
    else if code == 'b' || code == 'B' then Digit('#')
    else if code == 'c' || code == 'C' then Digit('A')
    else if code == 'd' || code == 'D' then Digit('B')
    else if code == 'e' || code == 'E' then Digit('C')
    else if code == 'F' then Filler
    else NoCode
  }

  function Upper(c: char): char {
    if 'a' <= c <= 'z' then c - 32 as char else c
  }

  /** The digits and what the two tables make of them, in the order of section 9.1.2.3 of 3GPP TS 23.040: the codes of
      *, #, a, b and c are A to E. Nothing else has a code or stands for a digit, but for the filler, in upper case. */
  lemma DigitTables(c: char)
    ensures forall k :: 0 <= k < 15 ==>
      && DigitToCode("0123456789*#abc"[k]) == DigitToCode("0123456789*#ABC"[k]) == "0123456789ABCDE"[k]
      && CodeToDigit("0123456789ABCDE"[k]) == CodeToDigit("0123456789abcde"[k]) == Digit("0123456789*#ABC"[k])
    ensures CodeToDigit('F') == Filler && CodeToDigit('f') == NoCode
    ensures c !in "0123456789*#abcABC" <==> DigitToCode(c) == '\0'
    ensures c !in "0123456789ABCDEFabcde" <==> CodeToDigit(c) == NoCode
  {
    forall k | 0 <= k < 15
      ensures DigitToCode("0123456789*#abc"[k]) == DigitToCode("0123456789*#ABC"[k]) == "0123456789ABCDE"[k]
      ensures CodeToDigit("0123456789ABCDE"[k]) == CodeToDigit("0123456789abcde"[k]) == Digit("0123456789*#ABC"[k])
    {
      TableAt(k);
    }
    Among(c);
  }

  lemma TableAt(k: nat)
    requires k < 15
    ensures DigitToCode("0123456789*#abc"[k]) == DigitToCode("0123456789*#ABC"[k]) == "0123456789ABCDE"[k]
    ensures CodeToDigit("0123456789ABCDE"[k]) == CodeToDigit("0123456789abcde"[k]) == Digit("0123456789*#ABC"[k])
  {
  }

  lemma Among(c: char)
    ensures c in "0123456789*#abcABC" <==> DigitToCode(c) != '\0'
    ensures c in "0123456789ABCDEFabcde" <==> CodeToDigit(c) != NoCode
  {
    var digits, codes := "0123456789*#abcABC", "0123456789ABCDEFabcde";
    if '0' <= c <= '9' {
      var k := c as int - '0' as int;
      assert digits[k] == c && codes[k] == c;
    }
    assert digits[10] == '*' && digits[11] == '#' && digits[12] == 'a' && digits[13] == 'b' && digits[14] == 'c';
    assert digits[15] == 'A' && digits[16] == 'B' && digits[17] == 'C';
    assert codes[10] == 'A' && codes[11] == 'B' && codes[12] == 'C' && codes[13] == 'D' && codes[14] == 'E';
    assert codes[15] == 'F' && codes[16] == 'a' && codes[17] == 'b' && codes[18] == 'c' && codes[19] == 'd';
    assert codes[20] == 'e';
  }

  /** A digit survives the two tables, in upper case. */
  lemma DigitRoundTrip(c: char)
    requires IsAddressDigit(c)
    ensures CodeToDigit(DigitToCode(c)) == Digit(Upper(c))
  {
  }

  /* ------------------------------------------------------------------ validity */

  const LONGEST := 635040

  function DivUp(x: nat, y: nat): nat
    requires y > 0
  {
    (x + y - 1) / y
  }

  /** pdu_relative_validity. No minutes at all makes the unsigned difference wrap, which an int shows as -1. */
  function RelativeValidity(minutes: nat): int {
    if minutes <= 720 then DivUp(minutes, 5) - 1
    else if minutes <= 1440 then DivUp(minutes, 30) + 119
    else if minutes <= 43200 then DivUp(minutes, 1440) + 166
    else if minutes <= LONGEST then DivUp(minutes, 10080) + 192
    else 0xFF
  }

  /** The minutes a code stands for: five minute steps, then half hours beyond twelve hours, days, weeks. */
  function Period(code: nat): nat {
    if code <= 143 then (code + 1) * 5
    else if code <= 167 then 12 * 60 + (code - 143) * 30
    else if code <= 196 then (code - 166) * 24 * 60
    else if code <= 255 then (code - 192) * 7 * 24 * 60
    else 0
  }

  /** The code chosen is the least one whose period is long enough, for every duration a code can express. */
  lemma ValidityIsLeast(minutes: nat, code: nat)
    requires 1 <= minutes <= LONGEST && code <= 255
    ensures RelativeValidity(minutes) <= code <==> minutes <= Period(code)
    ensures 0 <= RelativeValidity(minutes) <= 255
  {
    if minutes <= 720 {
      assert DivUp(minutes, 5) * 5 >= minutes > (DivUp(minutes, 5) - 1) * 5;
    } else if minutes <= 1440 {
      assert DivUp(minutes, 30) * 30 >= minutes > (DivUp(minutes, 30) - 1) * 30;
    } else if minutes <= 43200 {
      assert DivUp(minutes, 1440) * 1440 >= minutes > (DivUp(minutes, 1440) - 1) * 1440;
    } else {
      assert DivUp(minutes, 10080) * 10080 >= minutes > (DivUp(minutes, 10080) - 1) * 10080;
    }
  }

  /** So rounding up is monotone, never shortens a validity, and is exact on the periods themselves; anything
      longer than the longest period gets the longest one, and zero minutes is outside the scale. */
  lemma ValidityRoundsUp(minutes: nat, more: nat, code: nat)
    requires 1 <= minutes <= more && code <= 255
    ensures RelativeValidity(minutes) <= RelativeValidity(more) <= 255
    ensures minutes <= LONGEST ==> minutes <= Period(RelativeValidity(minutes))
    ensures RelativeValidity(Period(code)) == code
    ensures more > LONGEST ==> RelativeValidity(more) == 255 && Period(255) == LONGEST
    ensures RelativeValidity(0) == -1
  {
    hide RelativeValidity, Period;
    OffTheScale(minutes);
    OffTheScale(more);
    if more <= LONGEST {
      ValidityIsLeast(more, 255);
      ValidityIsLeast(more, RelativeValidity(more));
      ValidityIsLeast(minutes, RelativeValidity(more));
    }
    if minutes <= LONGEST {
      ValidityIsLeast(minutes, 255);
      ValidityIsLeast(minutes, RelativeValidity(minutes));
    }
    PeriodInScale(code);
    ValidityIsLeast(Period(code), code);
    if code > 0 {
      PeriodGrows(code - 1);
      ValidityIsLeast(Period(code), code - 1);
    }
  }

  lemma OffTheScale(minutes: nat)
    ensures RelativeValidity(0) == -1 && Period(255) == LONGEST
    ensures minutes > LONGEST ==> RelativeValidity(minutes) == 255
  {
  }

  lemma PeriodInScale(code: nat)
    requires code <= 255
    ensures 1 <= Period(code) <= LONGEST
  {
  }

  lemma PeriodGrows(code: nat)
    requires code < 255
    ensures Period(code) < Period(code + 1)
  {
  }
}
