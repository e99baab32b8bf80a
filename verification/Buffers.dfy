/** Characters stored one behind another in a buffer the caller owns. */
module Buffers {

  /** Nothing outside buffer[lo..hi] has changed. */
  twostate predicate OutsideKept(buffer: array<char>, lo: nat, hi: nat)
    reads buffer
  {
    forall i :: 0 <= i < buffer.Length && (i < lo || i >= hi) ==> buffer[i] == old(buffer[i])
  }

  /** Two characters behind what buffer[base..base + x] holds already. */
  method PutTwo(buffer: array<char>, base: nat, x: nat, c: char, d: char, ghost done: seq<char>)
    requires base + x + 2 <= buffer.Length && buffer[base..base + x] == done
    modifies buffer
    ensures buffer[base..base + x + 2] == done + [c, d]
    ensures OutsideKept(buffer, base + x, base + x + 2)
  {
    buffer[base + x] := c;
    buffer[base + x + 1] := d;
    assert buffer[base..base + x] == done;
  }
}
