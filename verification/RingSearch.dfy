/** When rb_read_until_mem_iov finds what it is asked for. Its comparison across the end of the buffer is
    made against the wrong part of the pattern, so the answer can be wrong for patterns of three bytes and
    more; this module says exactly when it is right. */
module RingSearch {
  import opened RingBuffer

  /** The search stops at the first occurrence of p, and only there. */
  ghost predicate Exact(c: seq<char>, p: seq<char>, beyond: seq<char>, h: nat)
    requires |beyond| >= |p|
  {
    forall k :: FirstTested(c, p, beyond, h, k) <==> FirstAt(c, p, k)
  }

  /** In a content of n bytes, h of them before the end of the buffer, p can lie with its last i bytes behind it. */
  predicate CanStraddle(p: seq<char>, h: nat, n: nat, i: int) {
    1 <= i < |p| && |p| - i <= h && h + i <= n
  }

  /** The bytes compared with the last i of p are the last i of p. */
  predicate RightBytes(p: seq<char>, beyond: seq<char>, i: nat)
    requires 1 <= i < |p| <= |beyond|
  {
    (p + beyond)[i..2 * i] == p[|p| - i..]
  }

  lemma StraddlingTest(c: seq<char>, p: seq<char>, beyond: seq<char>, h: nat, i: nat)
    requires |beyond| >= |p| && CanStraddle(p, h, |c|, i)
    ensures var j := h + i - |p|;
      OccursAt(c, p, j) <==> c[j..h] == p[..|p| - i] && c[h..h + i] == p[|p| - i..]
  {
    var j := h + i - |p|;
    assert c[j..j + |p|] == c[j..h] + c[h..h + i];
    assert p == p[..|p| - i] + p[|p| - i..];
    assert c[j..j + |p|] == p ==> c[j..h] == p[..|p| - i] && c[h..h + i] == p[|p| - i..] by {
      assert c[j..j + |p|][..|p| - i] == c[j..h] && c[j..j + |p|][|p| - i..] == c[h..h + i];
    }
  }

  lemma SafeSplitsExact(c: seq<char>, p: seq<char>, beyond: seq<char>, h: nat)
    requires |beyond| >= |p|
    requires forall i :: CanStraddle(p, h, |c|, i) ==> RightBytes(p, beyond, i)
    ensures forall j :: TestedMatch(c, p, beyond, h, j) <==> OccursAt(c, p, j)
    ensures Exact(c, p, beyond, h)
  {
    forall j ensures TestedMatch(c, p, beyond, h, j) <==> OccursAt(c, p, j) {
      if 0 <= j < h < j + |p| <= |c| {
        var i := j + |p| - h;
        assert CanStraddle(p, h, |c|, i);
        StraddlingTest(c, p, beyond, h, i);
      }
    }
  }

  /** A content of n bytes that holds p exactly once, with its last i bytes behind the end of the buffer. */
  function Straddler(p: seq<char>, x: char, h: nat, n: nat, i: nat): (c: seq<char>)
    requires CanStraddle(p, h, n, i)
    ensures |c| == n
  {
    seq(h + i - |p|, _ => x) + p + seq(n - h - i, _ => x)
  }

  lemma StraddlerHoldsOnce(p: seq<char>, x: char, h: nat, n: nat, i: nat)
    requires CanStraddle(p, h, n, i) && x !in p
    ensures FirstAt(Straddler(p, x, h, n, i), p, h + i - |p|)
  {
    var c, at := Straddler(p, x, h, n, i), h + i - |p|;
    assert c[at..at + |p|] == p;
    forall j | 0 <= j < at ensures !OccursAt(c, p, j) {
      assert c[j..j + |p|][0] == c[j] == x && p[0] in p;
    }
  }

  lemma UnsafeSplitMisses(p: seq<char>, beyond: seq<char>, x: char, h: nat, n: nat, i: nat)
    requires |beyond| >= |p| && CanStraddle(p, h, n, i) && x !in p && !RightBytes(p, beyond, i)
    ensures !Exact(Straddler(p, x, h, n, i), p, beyond, h)
  {
    var c, at := Straddler(p, x, h, n, i), h + i - |p|;
    StraddlerHoldsOnce(p, x, h, n, i);
    StraddlingTest(c, p, beyond, h, i);
    assert !TestedMatch(c, p, beyond, h, at);
    assert !FirstTested(c, p, beyond, h, at);
  }

  /** With h bytes before the end of the buffer and n bytes in all, the search is right for every content
      exactly when each way the pattern can straddle that end is compared with the right bytes. */
  lemma SearchIsRightIff(p: seq<char>, beyond: seq<char>, x: char, h: nat, n: nat)
    requires |beyond| >= |p| && x !in p
    ensures (forall c: seq<char> :: |c| == n ==> Exact(c, p, beyond, h))
       <==> (forall i :: CanStraddle(p, h, n, i) ==> RightBytes(p, beyond, i))
  {
    if forall i :: CanStraddle(p, h, n, i) ==> RightBytes(p, beyond, i) {
      forall c: seq<char> | |c| == n ensures Exact(c, p, beyond, h) {
        SafeSplitsExact(c, p, beyond, h);
      }
    } else {
      var i :| CanStraddle(p, h, n, i) && !RightBytes(p, beyond, i);
      UnsafeSplitMisses(p, beyond, x, h, n, i);
      assert |Straddler(p, x, h, n, i)| == n;
    }
  }

  /** Patterns of at most two bytes are always found, wherever the content wraps. */
  lemma ShortPatternsExact(c: seq<char>, p: seq<char>, beyond: seq<char>, h: nat)
    requires |p| <= 2 && |beyond| >= |p|
    ensures Exact(c, p, beyond, h)
  {
    forall i | CanStraddle(p, h, |c|, i) ensures RightBytes(p, beyond, i) {
      assert (p + beyond)[1..2] == p[1..];
    }
    SafeSplitsExact(c, p, beyond, h);
  }

  /** The seven bytes that end a multi-line reply. */
  const LAST_LINE := "\n\r\nOK\r\n"

  /** The end of a multi-line reply is never recognised when it straddles the end of the buffer. */
  lemma LastLineStraddling(c: seq<char>, beyond: seq<char>, h: nat, j: nat)
    requires |beyond| >= 7 && j < h < j + 7 && OccursAt(c, LAST_LINE, j)
    ensures !TestedMatch(c, LAST_LINE, beyond, h, j)
  {
    var i := j + 7 - h;
    StraddlingTest(c, LAST_LINE, beyond, h, i);
    assert (LAST_LINE + beyond)[i..2 * i][0] == LAST_LINE[i];
    assert LAST_LINE[7 - i..][0] == LAST_LINE[7 - i];
    assert LAST_LINE[i] != LAST_LINE[7 - i];
  }

  /** It is recognised wherever the content does not wrap. */
  lemma ExactWithoutWrap(c: seq<char>, p: seq<char>, beyond: seq<char>, h: nat)
    requires |beyond| >= |p| && |c| <= h
    ensures Exact(c, p, beyond, h)
  {
    StraightTests(c, p, beyond, h);
  }

  /** And bytes that are not the end of a reply are taken for it. */
  lemma FalseLastLine(beyond: seq<char>)
    requires |beyond| >= 7
    ensures var c := "+CLCC: 1\n\r\nOK\r\r"; FirstTested(c, LAST_LINE, beyond, |c| - 1, 8) && Nowhere(c, LAST_LINE)
  {
    var c := "+CLCC: 1\n\r\nOK\r\r";
    assert (LAST_LINE + beyond)[1..2] == "\r" && c[14..15] == "\r" && c[8..14] == LAST_LINE[..6];
    forall j | 0 <= j && j + 7 <= |c|
      ensures !OccursAt(c, LAST_LINE, j) && (j < 8 ==> !TestedMatch(c, LAST_LINE, beyond, 14, j))
    {
      assert c[j..j + 7][0] == c[j] && c[j..j + 7][6] == c[j + 6];
    }
  }
}
