/** Audio bytes taken two at a time: saturated_sum of mixbuffer.c.
    The addition of two samples belongs to Asterisk, so it is a parameter. */
module Samples {

  datatype Sample = Sample(lo: char, hi: char)

  type Adder = (Sample, Sample) -> Sample

  /** Byte i of dst after src has been added to it sample by sample.
      A trailing odd byte is left alone. */
  function MixAt(add: Adder, dst: seq<char>, src: seq<char>, i: nat): char
    requires |dst| == |src| && i < |dst|
  {
    var p := i - i % 2;
    if p + 1 < |dst| then
      var s := add(Sample(dst[p], dst[p + 1]), Sample(src[p], src[p + 1]));
      if i == p then s.lo else s.hi
    else
      dst[i]
  }

  function Mix(add: Adder, dst: seq<char>, src: seq<char>): (r: seq<char>)
    requires |dst| == |src|
    ensures |r| == |dst|
  {
    MixUpTo(add, dst, src, |dst|)
  }

  function MixUpTo(add: Adder, dst: seq<char>, src: seq<char>, n: nat): (r: seq<char>)
    requires n <= |dst| == |src|
    ensures |r| == n
  {
    if n == 0 then [] else MixUpTo(add, dst, src, n - 1) + [MixAt(add, dst, src, n - 1)]
  }

  lemma MixPoints(add: Adder, dst: seq<char>, src: seq<char>)
    requires |dst| == |src|
    ensures forall i :: 0 <= i < |dst| ==> Mix(add, dst, src)[i] == MixAt(add, dst, src, i)
  {
    MixUpToPoints(add, dst, src, |dst|);
  }

  lemma {:induction false} MixUpToPoints(add: Adder, dst: seq<char>, src: seq<char>, n: nat)
    requires n <= |dst| == |src|
    ensures forall i :: 0 <= i < n ==> MixUpTo(add, dst, src, n)[i] == MixAt(add, dst, src, i)
  {
    if n > 0 { MixUpToPoints(add, dst, src, n - 1); }
  }

  /** s with the bytes from off on replaced by t. */
  ghost function Splice(s: seq<char>, off: nat, t: seq<char>): (r: seq<char>)
    requires off + |t| <= |s|
    ensures |r| == |s|
  {
    SpliceUpTo(s, off, t, |t|)
  }

  ghost function SpliceUpTo(s: seq<char>, off: nat, t: seq<char>, n: nat): (r: seq<char>)
    requires off + |t| <= |s| && n <= |t|
    ensures |r| == |s|
  {
    if n == 0 then s else SpliceUpTo(s, off, t, n - 1)[off + n - 1 := t[n - 1]]
  }

  lemma SplicePoints(s: seq<char>, off: nat, t: seq<char>)
    requires off + |t| <= |s|
    ensures forall i :: 0 <= i < |s| ==> Splice(s, off, t)[i] == if off <= i < off + |t| then t[i - off] else s[i]
  {
    SpliceUpToPoints(s, off, t, |t|);
  }

  /** How to recognise a splice. */
  lemma SpliceIs(s: seq<char>, off: nat, t: seq<char>, r: seq<char>)
    requires off + |t| <= |s| == |r|
    requires forall i :: 0 <= i < off ==> r[i] == s[i]
    requires forall i :: 0 <= i < |t| ==> r[off + i] == t[i]
    requires forall i :: off + |t| <= i < |s| ==> r[i] == s[i]
    ensures r == Splice(s, off, t)
  {
    SplicePoints(s, off, t);
    forall i | 0 <= i < |s| ensures r[i] == Splice(s, off, t)[i] {
      if off <= i < off + |t| { assert r[off + (i - off)] == t[i - off]; }
    }
  }

  lemma {:induction false} SpliceUpToPoints(s: seq<char>, off: nat, t: seq<char>, n: nat)
    requires off + |t| <= |s| && n <= |t|
    ensures forall i :: 0 <= i < |s| ==> SpliceUpTo(s, off, t, n)[i] == if off <= i < off + n then t[i - off] else s[i]
  {
    if n > 0 { SpliceUpToPoints(s, off, t, n - 1); }
  }

  /** ast_slinear_saturated_add on the sample at a[p]. */
  method AddSample(add: Adder, a: array<char>, p: nat, x: Sample)
    requires p + 1 < a.Length
    modifies a
    ensures var s := add(Sample(old(a[p]), old(a[p + 1])), x); a[p] == s.lo && a[p + 1] == s.hi
    ensures forall i :: 0 <= i < a.Length && i != p && i != p + 1 ==> a[i] == old(a[i])
  {
    var s := add(Sample(a[p], a[p + 1]), x);
    a[p], a[p + 1] := s.lo, s.hi;
  }

  /** The loop of saturated_sum, in place on a[off .. off + |src|]. */
  method SaturatedSum(add: Adder, a: array<char>, off: nat, src: seq<char>)
    requires off + |src| <= a.Length
    modifies a
    ensures a[..] == Splice(old(a[..]), off, Mix(add, old(a[..])[off..off + |src|], src))
  {
    ghost var was := a[..];
    ghost var dst := was[off..off + |src|];
    var k := 0;
    while k < |src| / 2
      invariant 0 <= k <= |src| / 2
      invariant forall i :: 0 <= i < off ==> a[i] == was[i]
      invariant forall i :: off + 2 * k <= i < a.Length ==> a[i] == was[i]
      invariant forall i :: 0 <= i < 2 * k ==> a[off + i] == MixAt(add, dst, src, i)
    {
      MixPair(add, dst, src, k);
      AddSample(add, a, off + 2 * k, Sample(src[2 * k], src[2 * k + 1]));
      k := k + 1;
    }
    ghost var mixed, now := Mix(add, dst, src), a[..];
    MixPoints(add, dst, src);
    SpliceIs(was, off, mixed, now);
  }

  lemma MixPair(add: Adder, dst: seq<char>, src: seq<char>, k: nat)
    requires |dst| == |src| && 2 * k + 1 < |dst|
    ensures var s := add(Sample(dst[2 * k], dst[2 * k + 1]), Sample(src[2 * k], src[2 * k + 1]));
      MixAt(add, dst, src, 2 * k) == s.lo && MixAt(add, dst, src, 2 * k + 1) == s.hi
  {
    assert (2 * k) % 2 == 0 && (2 * k + 1) % 2 == 1;
  }

  /** Mixing can be cut at any even byte. */
  lemma MixSplit(add: Adder, dst: seq<char>, src: seq<char>, k: nat)
    requires |dst| == |src| && k <= |dst|
    requires k % 2 == 0 || k == |dst|
    ensures Mix(add, dst, src) == Mix(add, dst[..k], src[..k]) + Mix(add, dst[k..], src[k..])
  {
    var l, r := Mix(add, dst[..k], src[..k]), Mix(add, dst[k..], src[k..]);
    MixPoints(add, dst, src);
    MixPoints(add, dst[..k], src[..k]);
    MixPoints(add, dst[k..], src[k..]);
    forall i: nat | i < |dst|
      ensures Mix(add, dst, src)[i] == (l + r)[i]
    {
      if i < k {
        assert i - i % 2 + 1 < k <==> i - i % 2 + 1 < |dst|;
      } else {
        assert (i - k) % 2 == i % 2;
      }
    }
  }
}
