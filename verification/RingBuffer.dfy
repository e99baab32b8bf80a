/** ringbuffer.c, ringbuffer.h and memmem.c: a wrapping byte ring.
    The ring's abstract value is the plain sequence Contents(); View() is that
    sequence followed by the free bytes, in the order in which they will be filled. */
module RingBuffer {
  import opened Samples

  /** A struct iovec pointing into the ring's buffer. */
  datatype Iov = Iov(start: nat, len: nat)

  /** What an iov-filling function returns: count vectors are meaningful. */
  datatype IovList = IovList(count: nat, v0: Iov, v1: Iov)

  const NO_IOV := IovList(0, Iov(0, 0), Iov(0, 0))

  ghost predicate IovInside(l: IovList, size: nat) {
    && l.count <= 2
    && (l.count >= 1 ==> l.v0.start + l.v0.len <= size)
    && (l.count == 1 ==> l.v1.len == 0)
    && (l.count == 2 ==> l.v1.start + l.v1.len <= size)
  }

  /** The bytes the vectors describe, in order. */
  ghost function Gather(b: seq<char>, l: IovList): (r: seq<char>)
    requires IovInside(l, |b|)
    ensures l.count > 0 ==> |r| == l.v0.len + l.v1.len
  {
    if l.count == 0 then []
    else if l.count == 1 then b[l.v0.start..l.v0.start + l.v0.len]
    else b[l.v0.start..l.v0.start + l.v0.len] + b[l.v1.start..l.v1.start + l.v1.len]
  }

  /** What the function pointer rb_write_f does: given the bytes at the destination and as many source
      bytes, it leaves these bytes at the destination. */
  type WriteMethod = f: (seq<char>, seq<char>) -> seq<char> | KeepsLength(f) witness Memmove

  ghost predicate KeepsLength(f: (seq<char>, seq<char>) -> seq<char>) {
    forall d, s :: |d| == |s| ==> |f(d, s)| == |d|
  }

  function Memmove(dst: seq<char>, src: seq<char>): seq<char> {
    src
  }

  /** The effect of the one or two calls made for a region cut by the end of the buffer. */
  ghost function WrittenAcross(m: WriteMethod, dst: seq<char>, src: seq<char>, cut: nat): (r: seq<char>)
    requires |dst| == |src| && cut <= |src|
    ensures |r| == |src|
  {
    m(dst[..cut], src[..cut]) + m(dst[cut..], src[cut..])
  }

  /** A view after src has been written at off, the write being cut in two by the end of the buffer. */
  ghost function Overwritten(m: WriteMethod, v: seq<char>, off: nat, src: seq<char>, cut: nat): (r: seq<char>)
    requires off + |src| <= |v| && cut <= |src|
    ensures |r| == |v|
  {
    Splice(v, off, WrittenAcross(m, v[off..off + |src|], src, cut))
  }

  lemma WrittenWhole(m: WriteMethod, dst: seq<char>, src: seq<char>)
    requires |dst| == |src|
    ensures WrittenAcross(m, dst, src, |src|) == m(dst, src)
  {
    assert dst[..|src|] == dst && src[..|src|] == src;
    assert m(dst[|src|..], src[|src|..]) == [];
  }

  /** One call through the pointer. */
  method CallWriteMethod(m: WriteMethod, a: array<char>, off: nat, src: seq<char>)
    requires off + |src| <= a.Length
    modifies a
    ensures a[..] == Splice(old(a[..]), off, m(old(a[..])[off..off + |src|], src))
  {
    ghost var was := a[..];
    var t := m(a[off..off + |src|], src);
    assert t == m(was[off..off + |src|], src);
    forall i | 0 <= i < |t| { a[off + i] := t[i]; }
    SpliceIs(was, off, t, a[..]);
  }

  function Min(a: nat, b: nat): nat { if a < b then a else b }

  function Wrap(size: nat, p: nat): nat { if p >= size then p - size else p }

  /** Bytes before the end of the buffer once n of the used ones are dropped: an empty ring starts over. */
  function HeadAfter(size: nat, used: nat, h: nat, n: nat): nat
    requires n <= used <= size
  {
    if n == used && n > 0 then size else if n < h then h - n else h - n + size
  }

  /** The whole buffer, starting at the read position. */
  ghost function ViewOf(b: seq<char>, read: nat): (v: seq<char>)
    requires read <= |b|
    ensures |v| == |b|
  {
    Round(b, read, |b|)
  }

  /** The first n bytes met going round the buffer from the read position. */
  ghost function Round(b: seq<char>, read: nat, n: nat): (v: seq<char>)
    requires read <= |b| && n <= |b|
    ensures |v| == n
  {
    if n == 0 then [] else Round(b, read, n - 1) + [b[Wrap(|b|, read + n - 1)]]
  }

  lemma {:induction false} RoundPoints(b: seq<char>, read: nat, n: nat)
    requires read <= |b| && n <= |b|
    ensures forall i :: 0 <= i < n ==> Round(b, read, n)[i] == b[Wrap(|b|, read + i)]
  {
    if n > 0 { RoundPoints(b, read, n - 1); }
  }

  lemma ViewPoints(b: seq<char>, read: nat)
    requires read <= |b|
    ensures forall i :: 0 <= i < |b| ==> ViewOf(b, read)[i] == b[Wrap(|b|, read + i)]
  {
    RoundPoints(b, read, |b|);
  }

  /** Overwriting a stretch of the buffer that does not cross its end, seen from the read position. */
  lemma SpliceView(b: seq<char>, read: nat, off: nat, t: seq<char>)
    requires read <= |b| && off + |t| <= |b|
    requires Wrap(|b|, read + off) + |t| <= |b|
    ensures ViewOf(Splice(b, Wrap(|b|, read + off), t), read) == Splice(ViewOf(b, read), off, t)
  {
    var w := Wrap(|b|, read + off);
    SplicePoints(b, w, t);
    ViewPoints(b, read);
    ViewPoints(Splice(b, w, t), read);
    SpliceIs(ViewOf(b, read), off, t, ViewOf(Splice(b, w, t), read));
  }

  /** A stretch of the view that does not cross the end of the buffer. */
  lemma ViewRun(b: seq<char>, read: nat, lo: nat, hi: nat)
    requires read <= |b| && lo <= hi <= |b|
    ensures read + hi <= |b| ==> ViewOf(b, read)[lo..hi] == b[read + lo..read + hi]
    ensures read + lo >= |b| ==> ViewOf(b, read)[lo..hi] == b[read + lo - |b|..read + hi - |b|]
  {
    ViewPoints(b, read);
  }

  /** The first k bytes of the view, as they lie in the buffer. */
  lemma ViewPrefix(b: seq<char>, read: nat, k: nat)
    requires read <= |b| && k <= |b|
    ensures read + k <= |b| ==> ViewOf(b, read)[..k] == b[read..read + k]
    ensures read + k > |b| ==> var h := |b| - read;
      ViewOf(b, read)[..h] == b[read..|b|] && ViewOf(b, read)[h..k] == b[0..k - h]
      && ViewOf(b, read)[..k] == b[read..|b|] + b[0..k - h]
  {
    var v := ViewOf(b, read);
    if read + k <= |b| {
      ViewRun(b, read, 0, k);
    } else {
      var h := |b| - read;
      ViewRun(b, read, 0, h);
      ViewRun(b, read, h, k);
      assert v[..k] == v[0..h] + v[h..k];
    }
  }

  /** Advancing the read position rotates the view: the first r bytes go behind the others. */
  ghost function Rotate(v: seq<char>, r: nat): (w: seq<char>)
    requires r <= |v|
    ensures |w| == |v|
  {
    v[r..] + v[..r]
  }

  lemma RotateView(b: seq<char>, read: nat, n: nat, v: seq<char>)
    requires read < |b| && n <= |b| && v == ViewOf(b, read)
    ensures Wrap(|b|, read + n) <= |b|
    ensures ViewOf(b, Wrap(|b|, read + n)) == Rotate(v, n)
  {
    ViewPoints(b, read);
    ViewPoints(b, Wrap(|b|, read + n));
  }

  lemma Rotated(v: seq<char>, used: nat, r: nat)
    requires r <= used <= |v|
    ensures Rotate(v, r)[..used - r] == v[..used][r..]
    ensures r == 0 ==> Rotate(v, r) == v
    ensures r == used ==> v[..used][r..] == []
  {
  }

  lemma SpliceKeeps(s: seq<char>, off: nat, t: seq<char>, n: nat)
    requires n <= off && off + |t| <= |s|
    ensures Splice(s, off, t)[0..n] == s[0..n]
  {
    SplicePoints(s, off, t);
  }

  lemma SpliceTwice(s: seq<char>, off: nat, t: seq<char>, u: seq<char>)
    requires off + |t| + |u| <= |s|
    ensures Splice(Splice(s, off, t), off + |t|, u) == Splice(s, off, t + u)
  {
    SplicePoints(s, off, t);
    SplicePoints(Splice(s, off, t), off + |t|, u);
    SpliceIs(s, off, t + u, Splice(Splice(s, off, t), off + |t|, u));
  }

  lemma SpliceAtEnd(s: seq<char>, off: nat, t: seq<char>)
    requires off + |t| <= |s|
    ensures Splice(s, off, t)[..off + |t|] == s[..off] + t
    ensures Splice(s, off, t)[off + |t|..] == s[off + |t|..]
  {
    SplicePoints(s, off, t);
  }

  lemma SpliceNothing(s: seq<char>, off: nat)
    requires off <= |s|
    ensures Splice(s, off, []) == s
  {
  }

  /** p occurs in c at position k. */
  ghost predicate OccursAt(c: seq<char>, p: seq<char>, k: int) {
    0 <= k && k + |p| <= |c| && c[k..k + |p|] == p
  }

  ghost predicate Nowhere(c: seq<char>, p: seq<char>) {
    forall k :: !OccursAt(c, p, k)
  }

  /** k is where p first occurs in c. */
  ghost predicate FirstAt(c: seq<char>, p: seq<char>, k: int) {
    OccursAt(c, p, k) && forall j :: 0 <= j < k ==> !OccursAt(c, p, j)
  }

  lemma SliceOfSlice(b: seq<char>, lo: nat, hi: nat, i: nat, j: nat)
    requires lo <= hi <= |b| && i <= j <= hi - lo
    ensures b[lo..hi][i..j] == b[lo + i..lo + j]
  {
    var l, r := b[lo..hi][i..j], b[lo + i..lo + j];
    assert forall k :: 0 <= k < j - i ==> l[k] == r[k];
  }

  /** k is where the byte c first stands in s. */
  ghost predicate FirstByte(s: seq<char>, c: char, k: int) {
    0 <= k < |s| && s[k] == c && forall j :: 0 <= j < k ==> s[j] != c
  }

  lemma ByteInTail(s: seq<char>, c: char, h: nat, k: int)
    requires h <= |s| && c !in s[..h] && FirstByte(s[h..], c, k)
    ensures FirstByte(s, c, h + k)
  {
    forall j | 0 <= j < h + k ensures s[j] != c {
      if j < h { assert s[j] == s[..h][j]; } else { assert s[j] == s[h..][j - h]; }
    }
  }

  lemma FirstByteIsFirst(s: seq<char>, c: char, k: int)
    requires FirstByte(s, c, k)
    ensures FirstAt(s, [c], k)
  {
    forall j | 0 <= j < k ensures !OccursAt(s, [c], j) {
      assert s[j..j + 1][0] == s[j];
    }
  }

  lemma NoByteNowhere(s: seq<char>, c: char)
    requires c !in s
    ensures Nowhere(s, [c])
  {
    forall j | 0 <= j < |s| ensures !OccursAt(s, [c], j) {
      assert s[j..j + 1][0] == s[j];
    }
  }

  /** memchr: where c first stands in the stretch s = a[lo..hi]. */
  method Memchr(a: array<char>, lo: nat, hi: nat, c: char, ghost s: seq<char>) returns (found: bool, at: nat)
    requires lo <= hi <= a.Length && s == a[lo..hi]
    ensures !found ==> c !in s
    ensures found ==> FirstByte(s, c, at - lo)
  {
    at := lo;
    while at < hi
      invariant lo <= at <= hi
      invariant forall k :: 0 <= k < at - lo ==> s[k] != c
    {
      assert s[at - lo] == a[at];
      if a[at] == c {
        return true, at;
      }
      at := at + 1;
    }
    return false, 0;
  }

  lemma NotInEither(s: seq<char>, h: nat, c: char)
    requires h <= |s| && c !in s[..h] && c !in s[h..]
    ensures c !in s
  {
    assert s == s[..h] + s[h..];
  }

  /** The branch of rb_read_until_char_iov for a content that wraps. */
  method SearchByteAcross(a: array<char>, read: nat, used: nat, c: char, ghost all: seq<char>)
    returns (found: bool, k: nat)
    requires read < a.Length < read + used && used == |all| <= a.Length
    requires var h := a.Length - read; all[..h] == a[read..a.Length] && all[h..] == a[0..used - h]
    ensures !found ==> c !in all
    ensures found ==> FirstByte(all, c, k)
  {
    var h := a.Length - read;
    ghost var head, tail := all[..h], all[h..];
    found, k := Memchr(a, read, a.Length, c, head);
    if found {
      k := k - read;
      return;
    }
    found, k := Memchr(a, 0, used - h, c, tail);
    if found {
      ByteInTail(all, c, h, k);
      k := h + k;
      return;
    }
    NotInEither(all, h, c);
  }

  /** memmem.c: where p first occurs in the stretch s = a[lo..hi]. */
  method Memmem(a: array<char>, lo: nat, hi: nat, p: seq<char>, ghost s: seq<char>) returns (found: bool, at: nat)
    requires lo <= hi <= a.Length && s == a[lo..hi]
    ensures !found ==> p == [] || Nowhere(s, p)
    ensures found ==> p != [] && lo <= at <= hi && FirstAt(s, p, at - lo)
  {
    if hi == lo || |p| == 0 || hi - lo < |p| {
      return false, 0;
    }
    if |p| == 1 {
      assert p == [p[0]];
      found, at := Memchr(a, lo, hi, p[0], s);
      if found { FirstByteIsFirst(s, p[0], at - lo); } else { NoByteNowhere(s, p[0]); }
      return;
    }
    var cur := lo;
    var last := hi - |p|;
    while cur <= last
      invariant lo <= cur <= last + 1
      invariant forall k :: 0 <= k < cur - lo ==> !OccursAt(s, p, k)
    {
      SliceOfSlice(a[..], lo, hi, cur - lo, cur - lo + |p|);
      assert s[cur - lo..cur - lo + |p|] == a[cur..cur + |p|];
      if a[cur] == p[0] && a[cur..cur + |p|] == p {
        assert OccursAt(s, p, cur - lo);
        return true, cur;
      }
      assert a[cur] == a[cur..cur + |p|][0];
      cur := cur + 1;
    }
    return false, 0;
  }

  /** The test rb_read_until_mem_iov makes for position j of the content c, of which h bytes lie before
      the end of the buffer. Where p would straddle that end with its last i bytes behind it, those are
      compared with the i bytes found i bytes after the start of the pattern in memory, which may run
      past the pattern into the bytes that follow it there. */
  ghost predicate TestedMatch(c: seq<char>, p: seq<char>, beyond: seq<char>, h: nat, j: int)
    requires |beyond| >= |p|
  {
    && 0 <= j && j + |p| <= |c|
    && if j + |p| <= h || h <= j then
         OccursAt(c, p, j)
       else
         var i := j + |p| - h;
         c[j..h] == p[..|p| - i] && c[h..h + i] == (p + beyond)[i..2 * i]
  }

  ghost predicate FirstTested(c: seq<char>, p: seq<char>, beyond: seq<char>, h: nat, k: int)
    requires |beyond| >= |p|
  {
    TestedMatch(c, p, beyond, h, k) && NotBefore(c, p, beyond, h, k)
  }

  ghost predicate NeverTested(c: seq<char>, p: seq<char>, beyond: seq<char>, h: nat)
    requires |beyond| >= |p|
  {
    forall j :: !TestedMatch(c, p, beyond, h, j)
  }

  ghost predicate NotBefore(c: seq<char>, p: seq<char>, beyond: seq<char>, h: nat, n: int)
    requires |beyond| >= |p|
  {
    forall j :: 0 <= j < n ==> !TestedMatch(c, p, beyond, h, j)
  }

  /** Without a wrap the search is exact. */
  lemma StraightTests(c: seq<char>, p: seq<char>, beyond: seq<char>, h: nat)
    requires |beyond| >= |p| && |c| <= h
    ensures forall j :: TestedMatch(c, p, beyond, h, j) <==> OccursAt(c, p, j)
  {
  }

  lemma SingleByteTests(c: seq<char>, p: seq<char>, beyond: seq<char>, h: nat)
    requires |beyond| >= |p| == 1
    ensures forall k :: FirstByte(c, p[0], k) ==> FirstTested(c, p, beyond, h, k)
    ensures p[0] !in c ==> NeverTested(c, p, beyond, h)
  {
    forall j ensures TestedMatch(c, p, beyond, h, j) <==> 0 <= j < |c| && c[j] == p[0] {
      if 0 <= j < |c| { assert c[j..j + 1] == [c[j]]; }
    }
  }

  /** Positions wholly before the end of the buffer. */
  lemma HeadTests(c: seq<char>, p: seq<char>, beyond: seq<char>, h: nat, head: seq<char>)
    requires |beyond| >= |p| && h <= |c| && head == c[..h]
    ensures forall j :: j + |p| <= h ==> (TestedMatch(c, p, beyond, h, j) <==> OccursAt(head, p, j))
  {
    forall j | 0 <= j && j + |p| <= h ensures TestedMatch(c, p, beyond, h, j) <==> OccursAt(head, p, j) {
      assert head[j..j + |p|] == c[j..j + |p|];
    }
  }

  /** Positions wholly behind the end of the buffer. */
  lemma TailTests(c: seq<char>, p: seq<char>, beyond: seq<char>, h: nat, tail: seq<char>)
    requires |beyond| >= |p| && h <= |c| && tail == c[h..]
    ensures forall j :: h <= j ==> (TestedMatch(c, p, beyond, h, j) <==> OccursAt(tail, p, j - h))
    ensures forall k :: 0 <= k ==> (TestedMatch(c, p, beyond, h, h + k) <==> OccursAt(tail, p, k))
  {
    forall j | h <= j && j + |p| <= |c| ensures TestedMatch(c, p, beyond, h, j) <==> OccursAt(tail, p, j - h) {
      assert tail[j - h..j - h + |p|] == c[j..j + |p|];
    }
    forall k | 0 <= k ensures TestedMatch(c, p, beyond, h, h + k) <==> OccursAt(tail, p, k) {
      assert OccursAt(tail, p, h + k - h) <==> OccursAt(tail, p, k);
    }
  }

  lemma HeadFirst(c: seq<char>, p: seq<char>, beyond: seq<char>, h: nat, head: seq<char>, k: nat)
    requires |beyond| >= |p| && h <= |c| && head == c[..h] && FirstAt(head, p, k)
    ensures FirstTested(c, p, beyond, h, k)
  {
    HeadTests(c, p, beyond, h, head);
  }

  lemma HeadNever(c: seq<char>, p: seq<char>, beyond: seq<char>, h: nat, head: seq<char>)
    requires |beyond| >= |p| && h <= |c| && head == c[..h] && Nowhere(head, p)
    ensures NotBefore(c, p, beyond, h, h - |p| + 1)
  {
    HeadTests(c, p, beyond, h, head);
  }

  lemma TailFirst(c: seq<char>, p: seq<char>, beyond: seq<char>, h: nat, tail: seq<char>, k: nat)
    requires |beyond| >= |p| && h <= |c| && tail == c[h..]
    requires NotBefore(c, p, beyond, h, h) && FirstAt(tail, p, k)
    ensures FirstTested(c, p, beyond, h, h + k)
  {
    TailTests(c, p, beyond, h, tail);
  }

  lemma TailNever(c: seq<char>, p: seq<char>, beyond: seq<char>, h: nat, tail: seq<char>)
    requires |beyond| >= |p| && h <= |c| && tail == c[h..]
    requires NotBefore(c, p, beyond, h, h) && (|tail| < |p| || Nowhere(tail, p))
    ensures NeverTested(c, p, beyond, h)
  {
    TailTests(c, p, beyond, h, tail);
  }

  /** The bytes under a window that ends i bytes past the end of the buffer. */
  lemma WindowBytes(b: seq<char>, read: nat, all: seq<char>, j: nat, i: nat)
    requires read < |b| && |b| - read + i <= |all| <= |b| && j <= |b| - read
    requires all[..|b| - read] == b[read..|b|] && all[|b| - read..] == b[0..|all| - (|b| - read)]
    ensures b[read + j..|b|] == all[j..|b| - read]
    ensures b[0..i] == all[|b| - read..|b| - read + i]
  {
    var h := |b| - read;
    assert forall k :: j <= k < h ==> all[k] == all[..h][k] == b[read..|b|][k];
    assert forall k :: 0 <= k < i ==> all[h..][k] == b[k];
    assert forall k :: h <= k < h + i ==> all[k] == all[h..][k - h];
  }

  lemma TooShort(c: seq<char>, p: seq<char>, beyond: seq<char>, h: nat)
    requires |beyond| >= |p| > |c|
    ensures NeverTested(c, p, beyond, h)
  {
  }

  lemma EndOfContent(c: seq<char>, p: seq<char>, beyond: seq<char>, h: nat, n: int)
    requires |beyond| >= |p| && NotBefore(c, p, beyond, h, n) && |c| < n + |p|
    ensures NeverTested(c, p, beyond, h)
  {
  }

  lemma NextWindow(c: seq<char>, p: seq<char>, beyond: seq<char>, h: nat, n: int)
    requires |beyond| >= |p| && NotBefore(c, p, beyond, h, n) && !TestedMatch(c, p, beyond, h, n)
    ensures NotBefore(c, p, beyond, h, n + 1)
  {
  }

  /** One comparison of the moving window, whose two parts hold left and right. */
  lemma WindowTest(c: seq<char>, p: seq<char>, beyond: seq<char>, h: nat, j: int, i: nat, left: seq<char>,
                   right: seq<char>)
    requires |beyond| >= |p| && 1 <= i < |p| && 0 <= j == h - |p| + i && h + i <= |c|
    requires left == c[j..h] && right == c[h..h + i]
    ensures TestedMatch(c, p, beyond, h, j) <==> left == p[..|p| - i] && right == (p + beyond)[i..2 * i]
  {
  }

  /** The two comparisons in the loop of rb_read_until_mem_iov. */
  method CompareWindow(a: array<char>, read: nat, p: seq<char>, beyond: seq<char>, i: nat, base: nat,
                       ghost all: seq<char>)
    returns (same: bool)
    requires read < a.Length && |all| <= a.Length && |beyond| >= |p|
    requires 1 <= i < |p| && base == a.Length - |p| + i && read <= base && a.Length - read + i <= |all|
    requires var h := a.Length - read; all[..h] == a[read..a.Length] && all[h..] == a[0..|all| - h]
    ensures same <==> TestedMatch(all, p, beyond, a.Length - read, base - read)
  {
    ghost var b, h, j := a[..], a.Length - read, base - read;
    ghost var left, right := all[j..h], all[h..h + i];
    WindowBytes(b, read, all, j, i);
    WindowTest(all, p, beyond, h, j, i, left, right);
    assert base + |p| - i == a.Length && a[base..a.Length] == left && a[0..i] == right;
    same := a[base..base + |p| - i] == p[..|p| - i] && a[0..i] == (p + beyond)[i..2 * i];
  }

  /** The while loop of rb_read_until_mem_iov over the content all, of which the bytes before the end of the
      buffer start at read. It is left with i < |p| when it found p or met the end of the content. */
  method MoveWindow(a: array<char>, read: nat, used: nat, p: seq<char>, beyond: seq<char>, start: nat, first: nat,
                    ghost all: seq<char>)
    returns (found: bool, i: nat, base: nat)
    requires read < a.Length < read + used && used == |all| <= a.Length && 1 < |p| <= used && |beyond| >= |p|
    requires var h := a.Length - read; all[..h] == a[read..a.Length] && all[h..] == a[0..used - h]
    requires 1 <= start < |p| && first == a.Length - |p| + start && read <= first && a.Length - read + start <= used
    requires NotBefore(all, p, beyond, a.Length - read, first - read)
    ensures found ==> read <= base <= a.Length && FirstTested(all, p, beyond, a.Length - read, base - read)
    ensures !found && i < |p| ==> NeverTested(all, p, beyond, a.Length - read)
    ensures !found && i >= |p| ==> NotBefore(all, p, beyond, a.Length - read, a.Length - read)
  {
    hide TestedMatch;
    var h := a.Length - read;
    i, base := start, first;
    while i < |p|
      invariant start <= i <= |p| && base == a.Length - |p| + i && h + i <= used
      invariant NotBefore(all, p, beyond, h, base - read)
    {
      ghost var j := base - read;
      var same := CompareWindow(a, read, p, beyond, i, base, all);
      if same {
        return true, i, base;
      }
      NextWindow(all, p, beyond, h, j);
      if used == h + i {
        EndOfContent(all, p, beyond, h, j + 1);
        return false, i, base;
      }
      base, i := base + 1, i + 1;
    }
    found := false;
  }

  /** The branch of rb_read_until_mem_iov for a content that does not wrap. */
  method SearchStraight(a: array<char>, read: nat, used: nat, p: seq<char>, beyond: seq<char>, ghost all: seq<char>)
    returns (found: bool, k: nat)
    requires read + used <= a.Length && used == |all| && p != [] && |beyond| >= |p| && all == a[read..read + used]
    ensures !found ==> NeverTested(all, p, beyond, a.Length - read)
    ensures found ==> k <= used && FirstTested(all, p, beyond, a.Length - read, k)
  {
    StraightTests(all, p, beyond, a.Length - read);
    found, k := Memmem(a, read, read + used, p, all);
    k := if found then k - read else 0;
  }

  /** The branch of rb_read_until_mem_iov for a content that wraps: search the bytes before the end of the
      buffer, move a window over it, then search the bytes behind it. */
  method SearchAcross(a: array<char>, read: nat, used: nat, p: seq<char>, beyond: seq<char>, ghost all: seq<char>)
    returns (found: bool, k: nat)
    requires read < a.Length < read + used && used == |all| <= a.Length && 1 < |p| <= used && |beyond| >= |p|
    requires var h := a.Length - read; all[..h] == a[read..a.Length] && all[h..] == a[0..used - h]
    ensures !found ==> NeverTested(all, p, beyond, a.Length - read)
    ensures found ==> k <= used && FirstTested(all, p, beyond, a.Length - read, k)
  {
    hide TestedMatch, OccursAt;
    var h := a.Length - read;
    ghost var head, tail := all[..h], all[h..];
    var at;
    var i, base := 1, read + h - |p| + 1;
    if h >= |p| {
      found, at := Memmem(a, read, a.Length, p, head);
      if found {
        k := at - read;
        HeadFirst(all, p, beyond, h, head, k);
        return;
      }
      HeadNever(all, p, beyond, h, head);
    } else {
      i, base := |p| - h, read;
    }
    k := 0;
    found, i, base := MoveWindow(a, read, used, p, beyond, i, base, all);
    if found {
      k := base - read;
      return;
    }
    if i < |p| {
      return;
    }
    if used >= h + |p| {
      found, at := Memmem(a, 0, used - h, p, tail);
      if found {
        k := h + at;
        TailFirst(all, p, beyond, h, tail, at);
        return;
      }
    }
    TailNever(all, p, beyond, h, tail);
  }

  class RingBuffer {
    const buffer: array<char>
    const size: nat
    var used: nat
    var read: nat
    var write: nat

    /** rb_write_upd may leave write at size, rb_write_core never does: both are allowed. */
    ghost predicate Valid()
      reads this
    {
      && size == buffer.Length
      && used <= size
      && (read < size || read == size == 0)
      && write <= size
      && (write == read + used || write == read + used - size)
    }

    /** The content followed by the free bytes, in the order in which they will be filled. */
    ghost function View(): (v: seq<char>)
      requires size == buffer.Length && read <= size
      reads `read, buffer
      ensures |v| == size
    {
      ViewOf(buffer[..], read)
    }

    /** The bytes waiting to be read, oldest first. */
    ghost function Contents(): (c: seq<char>)
      requires Valid()
      reads this, buffer
      ensures |c| == used
    {
      View()[..used]
    }

    /** rb_init on a buffer of any size. */
    constructor (buf: array<char>)
      ensures Valid() && Contents() == [] && buffer == buf && size == buf.Length && read == write == 0
    {
      buffer := buf;
      size := buf.Length;
      used, read, write := 0, 0, 0;
    }

    /** rb_init again on the same buffer. */
    method Init()
      requires Valid()
      modifies this
      ensures Valid() && Contents() == [] && read == write == used == 0
    {
      used, read, write := 0, 0, 0;
    }

    /** Direct assignment of the write cursor and the count, as mixbuffer.c does. */
    method SetCursor(w: nat, u: nat)
      requires Valid() && u <= size && w == Wrap(size, read + u)
      modifies `write, `used
      ensures Valid() && write == w && used == u
    {
      write, used := w, u;
    }

    function Free(): nat
      requires Valid()
      reads this
    {
      size - used
    }

    /** rb_memcmp: 0 when the content starts with mem, 1 when it does not, -1 when there is too little. */
    method Memcmp(mem: seq<char>) returns (r: int)
      requires Valid()
      ensures r == if mem != [] && mem <= Contents() then 0
                   else if mem == [] || used < |mem| then -1
                   else 1
    {
      var len := |mem|;
      if used > 0 && len > 0 && used >= len {
        ghost var b, v := buffer[..], View();
        ViewPrefix(b, read, len);
        assert mem <= Contents() <==> mem == v[..len];
        if read + len > size {
          var tmp := size - read;
          assert mem == mem[..tmp] + mem[tmp..];
          if buffer[read..read + tmp] == mem[..tmp] {
            if buffer[0..len - tmp] == mem[tmp..] {
              return 0;
            }
          }
        } else {
          if buffer[read..read + len] == mem {
            return 0;
          }
        }
        return 1;
      }
      return -1;
    }

    /** rb_read_all_iov: the whole content. */
    method ReadAllIov() returns (l: IovList)
      requires Valid()
      ensures IovInside(l, size) && Gather(buffer[..], l) == Contents()
      ensures l.count == 0 <==> used == 0
    {
      l := NO_IOV;
      if used > 0 {
        ghost var all := Contents();
        PrefixGathers(all, buffer[..], used);
        assert all[..used] == all;
        if read + used > size {
          l := IovList(2, Iov(read, size - read), Iov(0, used - (size - read)));
        } else {
          l := IovList(1, Iov(read, used), Iov(0, 0));
        }
        assert Gather(buffer[..], l) == all;
      }
    }

    /** rb_read_n_iov: exactly the first len bytes, or nothing when there are fewer. */
    method ReadNIov(len: nat) returns (l: IovList)
      requires Valid()
      ensures IovInside(l, size)
      ensures l.count == 0 <==> used < len || len == 0
      ensures l.count > 0 ==> Gather(buffer[..], l) == Contents()[..len]
    {
      l := NO_IOV;
      if used < len {
        return;
      }
      if len > 0 {
        if read + len > size {
          l := IovList(2, Iov(read, size - read), Iov(0, len - (size - read)));
        } else {
          l := IovList(1, Iov(read, len), Iov(0, 0));
        }
        PrefixGathers(Contents(), buffer[..], len);
      }
    }

    /** The content is the bytes up to the end of the buffer and then those from its start. */
    lemma HeadAndTail(c: seq<char>, b: seq<char>)
      requires Valid() && c == Contents() && b == buffer[..]
      ensures read + used <= size ==> c == b[read..read + used]
      ensures read + used > size ==>
        var h := size - read; c[..h] == b[read..size] && c[h..] == b[0..used - h] && c == c[..h] + c[h..]
    {
      ViewPrefix(b, read, used);
    }

    /** The vectors for the first k bytes of the content. */
    lemma PrefixGathers(c: seq<char>, b: seq<char>, k: nat)
      requires Valid() && c == Contents() && b == buffer[..] && k <= used
      ensures read + k <= size ==> Gather(b, IovList(1, Iov(read, k), Iov(0, 0))) == c[..k]
      ensures read + k >= size ==>
        Gather(b, IovList(2, Iov(read, size - read), Iov(0, read + k - size))) == c[..k]
    {
      ViewPrefix(b, read, k);
      assert c[..k] == View()[..k];
      assert read + k == size ==> b[0..0] == [];
    }

    /** l describes the bytes before the first c. */
    ghost predicate StopsAtByte(l: IovList, c: char)
      requires Valid()
      reads this, buffer
    {
      && IovInside(l, size)
      && var g := Gather(buffer[..], l);
         FirstByte(Contents(), c, |g|) && g == Contents()[..|g|]
    }

    lemma StopsAt(l: IovList, c: char, k: nat, all: seq<char>)
      requires Valid() && all == Contents() && FirstByte(all, c, k)
      requires IovInside(l, size) && Gather(buffer[..], l) == all[..k]
      ensures StopsAtByte(l, c)
    {
      assert |Gather(buffer[..], l)| == k;
    }

    /** rb_read_until_char_iov: the bytes before the first c. */
    method ReadUntilChar(c: char) returns (l: IovList)
      requires Valid()
      ensures l.count == 0 ==> c !in Contents()
      ensures l.count > 0 ==> StopsAtByte(l, c)
    {
      l := NO_IOV;
      if used > 0 {
        var found, k;
        ghost var all := Contents();
        HeadAndTail(all, buffer[..]);
        if read + used > size {
          found, k := SearchByteAcross(buffer, read, used, c, all);
        } else {
          found, k := Memchr(buffer, read, read + used, c, all);
          k := if found then k - read else 0;
        }
        if found {
          l := Vectors(k, read + k < size);
          StopsAt(l, c, k, all);
        }
      }
    }

    /** The vectors for the first k bytes of the content. */
    method Vectors(k: nat, one: bool) returns (l: IovList)
      requires Valid() && k <= used
      requires if one then read + k <= size else read + k >= size
      ensures l.count > 0 && IovInside(l, size) && Gather(buffer[..], l) == Contents()[..k]
    {
      PrefixGathers(Contents(), buffer[..], k);
      if one {
        l := IovList(1, Iov(read, k), Iov(0, 0));
      } else {
        l := IovList(2, Iov(read, size - read), Iov(0, read + k - size));
      }
    }

    /** l describes the bytes before the first position at which the search for p succeeds. */
    ghost predicate StopsAtMem(l: IovList, p: seq<char>, beyond: seq<char>)
      requires Valid() && |beyond| >= |p|
      reads this, buffer
    {
      && IovInside(l, size)
      && var g := Gather(buffer[..], l);
         FirstTested(Contents(), p, beyond, size - read, |g|) && g == Contents()[..|g|]
    }

    lemma StopsAtTested(l: IovList, p: seq<char>, beyond: seq<char>, k: nat, all: seq<char>)
      requires Valid() && |beyond| >= |p| && all == Contents() && FirstTested(all, p, beyond, size - read, k)
      requires IovInside(l, size) && Gather(buffer[..], l) == all[..k]
      ensures StopsAtMem(l, p, beyond)
    {
      assert |Gather(buffer[..], l)| == k;
    }

    /** rb_read_until_mem_iov. The bytes that follow the pattern in memory take part in the comparison. */
    method ReadUntilMem(p: seq<char>, beyond: seq<char>) returns (l: IovList)
      requires Valid() && |beyond| >= |p|
      ensures l.count == 0 ==> p == [] || NeverTested(Contents(), p, beyond, size - read)
      ensures l.count > 0 ==> p != [] && StopsAtMem(l, p, beyond)
    {
      hide TestedMatch;
      if |p| == 1 {
        l := ReadUntilChar(p[0]);
        ByteAnswer(l, p, beyond);
        return;
      }
      l := NO_IOV;
      if used > 0 && |p| > 0 && used >= |p| {
        ghost var all := Contents();
        var found, k := Search(p, beyond, all);
        if found {
          l := Vectors(k, read + k <= size);
          StopsAtTested(l, p, beyond, k, all);
        }
      } else if p != [] {
        TooShort(Contents(), p, beyond, size - read);
      }
    }

    method Search(p: seq<char>, beyond: seq<char>, ghost all: seq<char>) returns (found: bool, k: nat)
      requires Valid() && all == Contents() && 1 < |p| <= used && |beyond| >= |p|
      ensures !found ==> NeverTested(all, p, beyond, size - read)
      ensures found ==> k <= used && FirstTested(all, p, beyond, size - read, k)
    {
      hide TestedMatch;
      HeadAndTail(all, buffer[..]);
      if read + used > size {
        found, k := SearchAcross(buffer, read, used, p, beyond, all);
      } else {
        found, k := SearchStraight(buffer, read, used, p, beyond, all);
      }
    }

    lemma ByteAnswer(l: IovList, p: seq<char>, beyond: seq<char>)
      requires Valid() && |beyond| >= |p| == 1
      requires l.count == 0 ==> p[0] !in Contents()
      requires l.count > 0 ==> StopsAtByte(l, p[0])
      ensures l.count == 0 ==> NeverTested(Contents(), p, beyond, size - read)
      ensures l.count > 0 ==> StopsAtMem(l, p, beyond)
    {
      SingleByteTests(Contents(), p, beyond, size - read);
    }

    /** rb_read_upd: drop the len oldest bytes. */
    method ReadUpd(len: nat) returns (r: nat)
      requires Valid()
      modifies `read, `write, `used
      ensures Valid() && r == Min(len, old(used))
      ensures Contents() == old(Contents())[r..]
      ensures used == 0 ==> Contents() == []
      ensures r > 0 && used == 0 ==> read == write == 0
      ensures old(write == Wrap(size, read + used)) ==> write == Wrap(size, read + used)
      ensures r == 0 || used > 0 ==>
        && write == old(write)
        && read == Wrap(size, old(read) + r)
        && View() == Rotate(old(View()), r)
    {
      hide ViewOf, Rotate;
      r := len;
      if used < r {
        r := used;
      }
      ghost var b, v, u := buffer[..], View(), used;
      Rotated(v, u, r);
      if r > 0 {
        RotateView(b, read, r, v);
        AdvanceRead(r);
        assert used > 0 ==> View() == Rotate(v, r);
      }
    }

    /** The cursor arithmetic of rb_read_upd. */
    method AdvanceRead(n: nat)
      requires Valid() && 0 < n <= used
      modifies `read, `write, `used
      ensures Valid() && used == old(used) - n
      ensures old(write == Wrap(size, read + used)) ==> write == Wrap(size, read + used)
      ensures if used == 0 then read == write == 0 else read == Wrap(size, old(read) + n) && write == old(write)
    {
      used := used - n;
      if used == 0 {
        read, write := 0, 0;
      } else {
        var s := read + n;
        if s >= size {
          read := s - size;
        } else {
          read := s;
        }
      }
    }

    /** rb_write_iov: exactly the free bytes, in the order in which they will be appended. */
    method WriteIov() returns (l: IovList)
      requires Valid()
      ensures IovInside(l, size) && Gather(buffer[..], l) == View()[used..]
      ensures l.count == 0 <==> used == size
      ensures l.count > 0 ==> l.v0.start == write && l.v0.len == Min(size - used, size - write) && l.v1.start == 0
    {
      l := NO_IOV;
      var free := Free();
      if free > 0 {
        ghost var b, v := buffer[..], View();
        ghost var dst := v[used..];
        CutRuns(b, read, used, write, free, v, dst);
        if write + free > size {
          l := IovList(2, Iov(write, size - write), Iov(0, free - (size - write)));
        } else {
          l := IovList(1, Iov(write, free), Iov(0, 0));
        }
        assert Gather(b, l) == dst;
      }
    }

    /** rb_write_upd: bytes already placed in the free vectors become content. */
    method WriteUpd(len: nat) returns (r: nat)
      requires Valid()
      modifies `write, `used
      ensures Valid() && r == Min(len, size - old(used))
      ensures used == old(used) + r && View() == old(View())
      ensures Contents() == old(Contents()) + old(View())[old(used)..old(used) + r]
    {
      r := len;
      var free := Free();
      if free < r {
        r := free;
      }
      ghost var v, u := View(), used;
      if r > 0 {
        var s := write + r;
        if s > size {
          write := s - size;
        } else {
          write := s;
        }
        used := used + r;
      }
      assert v[..u + r] == v[..u] + v[u..u + r];
    }

    /** The cursor arithmetic of rb_write_core. */
    method Advance(n: nat)
      requires Valid() && 0 < n <= size - used
      modifies `write, `used
      ensures Valid() && used == old(used) + n
      ensures old(write) == Wrap(size, read + old(used)) ==> write == Wrap(size, read + used)
    {
      var s := write + n;
      if s > size {
        write := s - size;
      } else if s == size {
        write := 0;
      } else {
        write := s;
      }
      used := used + n;
    }

    /** The body of rb_write_core, with its effect stated on the buffer. */
    method Put(data: seq<char>, m: WriteMethod) returns (r: nat)
      requires Valid()
      modifies `write, `used, buffer
      ensures Valid() && r == Min(|data|, size - old(used))
      ensures used == old(used) + r
      ensures old(write) == Wrap(size, read + old(used)) ==> write == Wrap(size, read + used)
      ensures buffer[..] == PutBytes(old(buffer[..]), old(write), m, data[..r])
    {
      hide Splice;
      r := |data|;
      var free := Free();
      if free < r {
        r := free;
      }
      ghost var b := buffer[..];
      if r > 0 {
        WriteBytes(m, buffer, write, data[..r]);
        ghost var b1 := buffer[..];
        Advance(r);
        assert buffer[..] == b1;
      } else {
        assert m(b[write..write], data[..r]) == [];
        SpliceNothing(b, write);
      }
    }

    /** rb_write_core: combine data with the bytes after the content and take them into it.
        A region that crosses the end of the buffer is combined in two pieces. */
    method WriteCore(data: seq<char>, m: WriteMethod) returns (r: nat)
      requires Valid()
      modifies `write, `used, buffer
      ensures Valid() && r == Min(|data|, size - old(used))
      ensures used == old(used) + r
      ensures old(write) == Wrap(size, read + old(used)) ==> write == Wrap(size, read + used)
      ensures View() == Overwritten(m, old(View()), old(used), data[..r], Min(r, size - old(write)))
    {
      hide PutBytes, Overwritten, ViewOf;
      ghost var b, v, u, w := buffer[..], View(), used, write;
      r := Put(data, m);
      ghost var src, b1, cut := data[..r], buffer[..], Min(r, size - w);
      PutBytesView(b, read, u, w, m, src, cut, v);
      assert b1 == PutBytes(b, w, m, src);
      assert View() == ViewOf(b1, read);
      assert View() == Overwritten(m, v, u, src, cut);
    }

    /** rb_write_core on data that fits. */
    method WriteAll(data: seq<char>, m: WriteMethod, ghost cut: nat) returns (r: nat)
      requires Valid() && used + |data| <= size && cut == Min(|data|, size - write)
      modifies `write, `used, buffer
      ensures Valid() && r == |data| && used == old(used) + |data|
      ensures old(write) == Wrap(size, read + old(used)) ==> write == Wrap(size, read + used)
      ensures View() == Overwritten(m, old(View()), old(used), data, cut)
    {
      hide PutBytes, Overwritten, ViewOf;
      ghost var b, v, u, w := buffer[..], View(), used, write;
      assert data[..|data|] == data;
      r := Put(data, m);
      ghost var b1 := buffer[..];
      PutBytesView(b, read, u, w, m, data, cut, v);
      assert data[..r] == data;
      assert b1 == PutBytes(b, w, m, data);
      assert View() == ViewOf(b1, read);
    }

    /** rb_write: a plain append. */
    method Write(data: seq<char>) returns (r: nat)
      requires Valid()
      modifies `write, `used, buffer
      ensures Valid() && r == Min(|data|, size - old(used))
      ensures used == old(used) + r
      ensures old(write) == Wrap(size, read + old(used)) ==> write == Wrap(size, read + used)
      ensures Contents() == old(Contents()) + data[..r]
    {
      hide Overwritten, ViewOf;
      ghost var v, u, w := View(), used, write;
      r := WriteCore(data, Memmove);
      ghost var v1, src, cut := View(), data[..r], Min(r, size - w);
      assert v1 == Overwritten(Memmove, v, u, src, cut);
      MemmoveAppends(v, u, src, cut, v1);
    }
  }

  lemma MemmoveAppends(v: seq<char>, off: nat, src: seq<char>, cut: nat, v1: seq<char>)
    requires off + |src| <= |v| && cut <= |src| && v1 == Overwritten(Memmove, v, off, src, cut)
    ensures v1[..off + |src|] == v[..off] + src
  {
    assert src == src[..cut] + src[cut..];
    SpliceAtEnd(v, off, src);
  }

  /** The one or two calls rb_write_core makes. */
  method WriteBytes(m: WriteMethod, a: array<char>, write: nat, src: seq<char>)
    requires write <= a.Length && |src| <= a.Length
    modifies a
    ensures a[..] == PutBytes(old(a[..]), write, m, src)
  {
    hide Splice;
    if write + |src| > a.Length {
      var k := a.Length - write;
      ghost var b := a[..];
      CallWriteMethod(m, a, write, src[..k]);
      ghost var b1 := a[..];
      SpliceKeeps(b, write, m(b[write..write + k], src[..k]), |src| - k);
      CallWriteMethod(m, a, 0, src[k..]);
    } else {
      CallWriteMethod(m, a, write, src);
    }
  }

  /** The buffer after the one or two calls made for src at write. */
  ghost function PutBytes(b: seq<char>, write: nat, m: WriteMethod, src: seq<char>): seq<char>
    requires write <= |b| && |src| <= |b|
  {
    if write + |src| <= |b| then
      Splice(b, write, m(b[write..write + |src|], src))
    else
      var k := |b| - write;
      Splice(Splice(b, write, m(b[write..write + k], src[..k])), 0, m(b[0..|src| - k], src[k..]))
  }

  lemma PutBytesView(b: seq<char>, read: nat, used: nat, write: nat, m: WriteMethod, src: seq<char>, cut: nat,
                     v: seq<char>)
    requires read < |b| || read == |b| == 0
    requires used + |src| <= |b| && write <= |b| && cut == Min(|src|, |b| - write)
    requires write == read + used || write == read + used - |b|
    requires v == ViewOf(b, read)
    ensures ViewOf(PutBytes(b, write, m, src), read) == Overwritten(m, v, used, src, cut)
  {
    hide ViewOf, Splice, WrittenAcross;
    var dst := v[used..used + |src|];
    if src == [] {
      PutNothing(b, used, write, m, v);
    } else {
      CutRuns(b, read, used, write, |src|, v, dst);
      if write + |src| <= |b| {
        PutStraight(b, read, used, write, m, src, v, dst);
      } else {
        PutAround(b, read, used, write, m, src, v, dst);
      }
    }
  }

  lemma PutNothing(b: seq<char>, used: nat, write: nat, m: WriteMethod, v: seq<char>)
    requires write <= |b| && used <= |v|
    ensures PutBytes(b, write, m, []) == b && Overwritten(m, v, used, [], 0) == v
  {
    hide Splice;
    assert m(b[write..write], []) == [] && WrittenAcross(m, v[used..used], [], 0) == [];
    SpliceNothing(b, write);
    SpliceNothing(v, used);
  }

  lemma PutStraight(b: seq<char>, read: nat, used: nat, write: nat, m: WriteMethod, src: seq<char>,
                    v: seq<char>, dst: seq<char>)
    requires read < |b| && src != [] && used + |src| <= |b| && write + |src| <= |b|
    requires write == Wrap(|b|, read + used)
    requires v == ViewOf(b, read) && dst == b[write..write + |src|]
    ensures ViewOf(Splice(b, write, m(dst, src)), read) ==
      Splice(v, used, WrittenAcross(m, dst, src, |src|))
  {
    SpliceView(b, read, used, m(dst, src));
    WrittenWhole(m, dst, src);
  }

  lemma PutAround(b: seq<char>, read: nat, used: nat, write: nat, m: WriteMethod, src: seq<char>,
                  v: seq<char>, dst: seq<char>)
    requires read < |b| && used + |src| <= |b| && write <= |b| < write + |src| && |dst| == |src|
    requires write == read + used || write == read + used - |b|
    requires v == ViewOf(b, read)
    requires var k := |b| - write; dst[..k] == b[write..write + k] && dst[k..] == b[0..|src| - k]
    ensures ViewOf(PutBytes(b, write, m, src), read) ==
      Splice(v, used, WrittenAcross(m, dst, src, |b| - write))
  {
    var k := |b| - write;
    WriteWrapped(b, read, used, write, m(dst[..k], src[..k]), m(dst[k..], src[k..]));
  }

  /** The stretch about to be written, as it lies in the buffer. */
  lemma CutRuns(b: seq<char>, read: nat, used: nat, write: nat, n: nat, v: seq<char>, dst: seq<char>)
    requires read < |b| && 0 < n && used + n <= |b| && write <= |b|
    requires write == read + used || write == read + used - |b|
    requires v == ViewOf(b, read) && dst == v[used..used + n]
    ensures write + n <= |b| ==> Wrap(|b|, read + used) == write && dst == b[write..write + n]
    ensures write + n > |b| ==> var k := |b| - write;
      dst[..k] == b[write..write + k] && dst[k..] == b[0..n - k] && dst == b[write..write + k] + b[0..n - k]
  {
    hide ViewOf;
    if write + n <= |b| {
      ViewRun(b, read, used, used + n);
    } else {
      AroundRun(b, read, used, write, n, v, dst, |b| - write);
    }
  }

  lemma AroundRun(b: seq<char>, read: nat, used: nat, write: nat, n: nat, v: seq<char>, dst: seq<char>, k: nat)
    requires read < |b| && used + n <= |b| && write <= |b| < write + n && k == |b| - write
    requires write == read + used || write == read + used - |b|
    requires v == ViewOf(b, read) && dst == v[used..used + n]
    ensures dst[..k] == b[write..write + k] && dst[k..] == b[0..n - k] && dst == b[write..write + k] + b[0..n - k]
  {
    hide ViewOf;
    var head, tail := v[used..used + k], v[used + k..used + n];
    CutInTwo(v, used, n, k, dst);
    assert head == b[write..write + k] by { ViewRun(b, read, used, used + k); }
    assert tail == b[0..n - k] by { ViewRun(b, read, used + k, used + n); }
  }

  /** A stretch is its two parts. */
  lemma CutInTwo(v: seq<char>, lo: nat, n: nat, k: nat, dst: seq<char>)
    requires lo + n <= |v| && k <= n && dst == v[lo..lo + n]
    ensures dst[..k] == v[lo..lo + k] && dst[k..] == v[lo + k..lo + n] && dst == dst[..k] + dst[k..]
  {
  }

  /** Two stretches, up to the end of the buffer and from its start, are one stretch of the view. */
  lemma WriteWrapped(b: seq<char>, read: nat, used: nat, write: nat, t: seq<char>, u: seq<char>)
    requires read < |b| && used + |t| + |u| <= |b|
    requires write == read + used || write == read + used - |b|
    requires write + |t| == |b|
    ensures ViewOf(Splice(Splice(b, write, t), 0, u), read) == Splice(ViewOf(b, read), used, t + u)
  {
    var b1 := Splice(b, write, t);
    if t != [] {
      SpliceView(b, read, used, t);
    } else {
      assert b1 == b;
      assert ViewOf(b1, read) == Splice(ViewOf(b, read), used, t);
    }
    if u != [] {
      SpliceView(b1, read, used + |t|, u);
    } else {
      assert Splice(b1, 0, u) == b1;
      assert ViewOf(b1, read) == Splice(ViewOf(b1, read), used + |t|, u);
    }
    SpliceTwice(ViewOf(b, read), used, t, u);
  }
}
