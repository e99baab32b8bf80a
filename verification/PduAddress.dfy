/** Addresses in semi-octets: pdu_store_number, and that pdu_parse_number undoes it. */
module PduAddress {
  import opened Buffers
  import opened PduTables
  import opened PduFields

  /** Two digits to an octet, the second one first; a filler beside an odd last digit. */
  function SemiOctets(number: seq<char>): (t: seq<char>)
    ensures |t| == RoundUp2(|number|)
  {
    if number == [] then []
    else if |number| == 1 then ['F', DigitToCode(number[0])]
    else [DigitToCode(number[1]), DigitToCode(number[0])] + SemiOctets(number[2..])
  }

  /** pdu_store_number. */
  method StoreNumber(buffer: array<char>, base: nat, number: seq<char>) returns (i: nat)
    requires base + RoundUp2(|number|) <= buffer.Length
    modifies buffer
    ensures i == RoundUp2(|number|) && buffer[base..base + i] == SemiOctets(number)
    ensures OutsideKept(buffer, base, base + i)
  {
    hide DigitToCode, SemiOctets;
    i := 0;
    var length := |number|;
    ghost var done: seq<char> := [];
    assert done + SemiOctets(number[0..]) == SemiOctets(number) by { assert number[0..] == number; }
    while length > 1
      invariant 0 <= length && i + length == |number| && i % 2 == 0
      invariant buffer[base..base + i] == done && done + SemiOctets(number[i..]) == SemiOctets(number)
      invariant OutsideKept(buffer, base, base + i)
    {
      PairStored(number, i, done);
      PutTwo(buffer, base, i, DigitToCode(number[i + 1]), DigitToCode(number[i]), done);
      done := done + [DigitToCode(number[i + 1]), DigitToCode(number[i])];
      length := length - 2;
      i := i + 2;
    }
    LastStored(number, i, done);
    if length > 0 {
      PutTwo(buffer, base, i, 'F', DigitToCode(number[i]), done);
      i := i + 2;
    }
  }

  lemma PairStored(number: seq<char>, i: nat, done: seq<char>)
    requires i + 2 <= |number| && done + SemiOctets(number[i..]) == SemiOctets(number)
    ensures done + [DigitToCode(number[i + 1]), DigitToCode(number[i])] + SemiOctets(number[i + 2..])
         == SemiOctets(number)
  {
    hide DigitToCode, SemiOctets;
    SemiOctetsOfPair(number[i..]);
    assert number[i..][2..] == number[i + 2..];
    Associate(done, [DigitToCode(number[i + 1]), DigitToCode(number[i])], SemiOctets(number[i + 2..]));
  }

  lemma SemiOctetsOfPair(number: seq<char>)
    requires |number| >= 2
    ensures SemiOctets(number) == [DigitToCode(number[1]), DigitToCode(number[0])] + SemiOctets(number[2..])
  {
    hide DigitToCode;
  }

  lemma Associate(a: seq<char>, b: seq<char>, c: seq<char>)
    ensures a + (b + c) == a + b + c
  {
  }

  lemma LastStored(number: seq<char>, i: nat, done: seq<char>)
    requires i <= |number| <= i + 1 && done + SemiOctets(number[i..]) == SemiOctets(number)
    ensures SemiOctets(number) == done + if i < |number| then ['F', DigitToCode(number[i])] else []
  {
    hide DigitToCode;
    assert number[i..] == if i < |number| then [number[i]] else [];
  }

  function UpperAll(s: seq<char>): (t: seq<char>)
    ensures |t| == |s|
  {
    seq(|s|, i requires 0 <= i < |s| => Upper(s[i]))
  }

  predicate IsAddress(s: seq<char>) {
    forall i :: 0 <= i < |s| ==> IsAddressDigit(s[i])
  }

  lemma UpperPair(s: seq<char>)
    requires |s| >= 2
    ensures UpperAll(s) == [Upper(s[0]), Upper(s[1])] + UpperAll(s[2..])
  {
  }

  lemma {:induction false} DigitsOfSemiOctets(text: seq<char>, pos: nat, number: seq<char>, rest: seq<char>)
    requires IsAddress(number) && At(text, pos, Then(SemiOctets(number), rest))
    ensures pos + RoundUp2(|number|) <= |text|
    ensures DigitsAt(text, pos, RoundUp2(|number|), |number| % 2 == 1)
         == Digits(true, UpperAll(number) + if |number| % 2 == 1 then ['\0'] else [], pos + RoundUp2(|number|))
    decreases |number|
  {
    hide DigitToCode, CodeToDigit, Upper;
    if |number| == 0 {
    } else if |number| == 1 {
      assert text[pos..][0] == 'F' && text[pos..][1] == DigitToCode(number[0]);
      DigitRoundTrip(number[0]);
      FillerCode();
      assert DigitsAt(text, pos + 2, 0, true) == Digits(true, [], pos + 2);
    } else {
      var later := number[2..];
      assert text[pos..][0] == DigitToCode(number[1]) && text[pos..][1] == DigitToCode(number[0]);
      DigitRoundTrip(number[0]);
      DigitRoundTrip(number[1]);
      assert text[pos + 2..] == text[pos..][2..] == SemiOctets(later) + rest;
      DigitsOfSemiOctets(text, pos + 2, later, rest);
      UpperPair(number);
    }
  }

  lemma FillerCode()
    ensures CodeToDigit('F') == Filler
  {
  }
}
