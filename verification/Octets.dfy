/** Octets as the C code handles them: eight-bit values with shifts, taken apart into bits. */
module Octets {

  type octet = bv8

  predicate Bit(v: octet, k: nat)
    requires k < 8
  {
    if k == 0 then v & 1 != 0 else if k == 1 then v & 2 != 0
    else if k == 2 then v & 4 != 0 else if k == 3 then v & 8 != 0
    else if k == 4 then v & 16 != 0 else if k == 5 then v & 32 != 0
    else if k == 6 then v & 64 != 0 else v & 128 != 0
  }

  /** v >> s and v << s on an unsigned char. */
  function Shr(v: octet, s: nat): octet
    requires s < 8
  {
    if s == 0 then v else if s == 1 then v >> 1 else if s == 2 then v >> 2 else if s == 3 then v >> 3
    else if s == 4 then v >> 4 else if s == 5 then v >> 5 else if s == 6 then v >> 6 else v >> 7
  }

  function Shl(v: octet, s: nat): octet
    requires s < 8
  {
    if s == 0 then v else if s == 1 then v << 1 else if s == 2 then v << 2 else if s == 3 then v << 3
    else if s == 4 then v << 4 else if s == 5 then v << 5 else if s == 6 then v << 6 else v << 7
  }

  function Assemble(b0: bool, b1: bool, b2: bool, b3: bool, b4: bool, b5: bool, b6: bool, b7: bool): octet {
    (if b0 then 1 else 0) | (if b1 then 2 else 0) | (if b2 then 4 else 0) | (if b3 then 8 else 0)
    | (if b4 then 16 else 0) | (if b5 then 32 else 0) | (if b6 then 64 else 0) | (if b7 then 128 else 0)
  }

  lemma AssembleBits(b0: bool, b1: bool, b2: bool, b3: bool, b4: bool, b5: bool, b6: bool, b7: bool)
    ensures var v := Assemble(b0, b1, b2, b3, b4, b5, b6, b7);
      && Bit(v, 0) == b0 && Bit(v, 1) == b1 && Bit(v, 2) == b2 && Bit(v, 3) == b3
      && Bit(v, 4) == b4 && Bit(v, 5) == b5 && Bit(v, 6) == b6 && Bit(v, 7) == b7
  {
  }

  /** An octet is its bits. */
  lemma SameBits(a: octet, b: octet)
    requires forall k :: 0 <= k < 8 ==> Bit(a, k) == Bit(b, k)
    ensures a == b
  {
    assert Bit(a, 0) == Bit(b, 0) && Bit(a, 1) == Bit(b, 1) && Bit(a, 2) == Bit(b, 2) && Bit(a, 3) == Bit(b, 3);
    assert Bit(a, 4) == Bit(b, 4) && Bit(a, 5) == Bit(b, 5) && Bit(a, 6) == Bit(b, 6) && Bit(a, 7) == Bit(b, 7);
  }

  lemma ShrBit(v: octet, s: nat, k: nat)
    requires s < 8 && k < 8
    ensures Bit(Shr(v, s), k) == (s + k < 8 && Bit(v, s + k))
  {
  }

  lemma ShlBit(v: octet, s: nat, k: nat)
    requires s < 8 && k < 8
    ensures Bit(Shl(v, s), k) == (s <= k && Bit(v, k - s))
  {
  }

  lemma OrLowBit(a: octet, b: octet, k: nat)
    requires k < 4
    ensures Bit(a | b, k) == (Bit(a, k) || Bit(b, k))
  {
  }

  lemma OrHighBit(a: octet, b: octet, k: nat)
    requires 4 <= k < 8
    ensures Bit(a | b, k) == (Bit(a, k) || Bit(b, k))
  {
  }

  lemma OrBit(a: octet, b: octet, k: nat)
    requires k < 8
    ensures Bit(a | b, k) == (Bit(a, k) || Bit(b, k))
  {
    hide Bit;
    if k < 4 { OrLowBit(a, b, k); } else { OrHighBit(a, b, k); }
  }
}
