/** AST_LIST_REMOVE: the mixer's list of streams and the calls' references to it lose an element in the same way. */
module Lists {
  /** The list without its first x. */
  function Without<T(==)>(l: seq<T>, x: T): seq<T> {
    if l == [] then [] else if l[0] == x then l[1..] else [l[0]] + Without(l[1..], x)
  }

  lemma {:induction false} WithoutAt<T>(l: seq<T>, x: T, i: nat)
    requires i <= |l| && forall j :: 0 <= j < i ==> l[j] != x
    requires i < |l| ==> l[i] == x
    ensures Without(l, x) == if i < |l| then l[..i] + l[i + 1..] else l
  {
    if i > 0 {
      WithoutAt(l[1..], x, i - 1);
      if i < |l| {
        assert l[..i] + l[i + 1..] == [l[0]] + (l[1..][..i - 1] + l[1..][i..]);
      }
    }
  }
}
