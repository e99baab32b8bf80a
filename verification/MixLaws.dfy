/** What the mixing buffer means. The methods of MixBuffer compute on a wrapped ring; here runs of them are
    compared with runs on one linear sequence that knows nothing of the ring. */
module MixLaws {
  import opened Samples
  import opened RingBuffer
  import opened MixBuffer

  /** The abstract value of a mixing buffer, together with where its ring is being read. */
  datatype Ring = Ring(size: nat, read: nat, content: seq<char>, offsets: seq<nat>)

  ghost predicate Proper(r: Ring) {
    && |r.content| <= r.size
    && (r.read < r.size || r.read == r.size == 0)
    && OffsetsWithin(r.offsets, |r.content|)
  }

  datatype Op = Attach | Detach(k: nat) | Write(k: nat, data: seq<char>) | Read(len: nat)

  ghost predicate Allowed(op: Op, n: nat) {
    match op
    case Attach => true
    case Detach(k) => k < n
    case Write(k, _) => k < n
    case Read(_) => true
  }

  ghost predicate OffsetsWithin(offsets: seq<nat>, n: nat) {
    forall i :: 0 <= i < |offsets| ==> offsets[i] <= n
  }

  function MoveBack(offsets: seq<nat>, len: nat): (r: seq<nat>)
    ensures |r| == |offsets| && forall i :: 0 <= i < |offsets| ==> r[i] == LessRead(offsets[i], len)
  {
    seq(|offsets|, i requires 0 <= i < |offsets| => LessRead(offsets[i], len))
  }

  ghost function NextOffsets(size: nat, offsets: seq<nat>, op: Op): seq<nat>
    requires Allowed(op, |offsets|) && OffsetsWithin(offsets, size)
  {
    match op
    case Attach => offsets + [0]
    case Detach(k) => offsets[..k] + offsets[k + 1..]
    case Write(k, data) => offsets[k := offsets[k] + |Fitting(size, offsets[k], data)|]
    case Read(len) => MoveBack(offsets, len)
  }

  lemma EvenDifference(a: int, b: int)
    requires a % 2 == 0 && b % 2 == 0
    ensures (a - b) % 2 == 0 && (a + b) % 2 == 0
  {
  }

  lemma CutEven(size: nat, read: nat, n: nat, u: nat, len: nat)
    requires u <= n <= size && (read < size || read == size == 0)
    requires size % 2 == 0 && read % 2 == 0 && u % 2 == 0 && n % 2 == 0 && len % 2 == 0
    ensures Cut(size, read, n, u, len) % 2 == 0
  {
    EvenDifference(n, u);
    EvenDifference(read, u);
    EvenDifference(read + u, size);
    EvenDifference(size, Wrap(size, read + u));
  }

  /** The content and the read position after one call, as the contracts of MixBuffer state them. */
  ghost function RingStep(add: Adder, r: Ring, op: Op): (r': Ring)
    requires Proper(r) && Allowed(op, |r.offsets|)
    ensures r'.size == r.size && r'.offsets == NextOffsets(r.size, r.offsets, op)
  {
    var offsets := NextOffsets(r.size, r.offsets, op);
    match op
    case Write(k, data) =>
      var u := r.offsets[k];
      var d := Fitting(r.size, u, data);
      r.(content := MixedAt(SumWith(add), r.content, u, d, Cut(r.size, r.read, |r.content|, u, |d|)),
         offsets := offsets)
    case Read(len) =>
      Ring(r.size, ReadAfter(r, len), r.content[Min(len, |r.content|)..], offsets)
    case _ => r.(offsets := offsets)
  }

  ghost function ReadAfter(r: Ring, len: nat): nat
    requires Proper(r)
  {
    var n := Min(len, |r.content|);
    if n == 0 then r.read else if n == |r.content| then 0 else Wrap(r.size, r.read + n)
  }

  /** The linear machine: one sequence, one offset per stream, and a bound on how long the sequence may grow. */
  datatype Line = Line(content: seq<char>, offsets: seq<nat>)

  ghost function LineStep(add: Adder, size: nat, l: Line, op: Op): Line
    requires |l.content| <= size && Allowed(op, |l.offsets|) && OffsetsWithin(l.offsets, |l.content|)
  {
    match op
    case Attach => l.(offsets := l.offsets + [0])
    case Detach(k) => l.(offsets := l.offsets[..k] + l.offsets[k + 1..])
    case Write(k, data) =>
      var d := data[..Min(|data|, size - l.offsets[k])];
      Line(MixedLine(add, l.content, l.offsets[k], d), l.offsets[k := l.offsets[k] + |d|])
    case Read(len) =>
      Line(l.content[Min(len, |l.content|)..],
           seq(|l.offsets|, i requires 0 <= i < |l.offsets| => if l.offsets[i] > len then l.offsets[i] - len else 0))
  }

  /** Add data to c from u on, sample by sample, and append what runs past its end. */
  ghost function MixedLine(add: Adder, c: seq<char>, u: nat, data: seq<char>): (r: seq<char>)
    requires u <= |c|
    ensures |r| == if u + |data| > |c| then u + |data| else |c|
  {
    var m := Min(|data|, |c| - u);
    c[..u] + Mix(add, c[u..u + m], data[..m]) + c[u + m..] + data[m..]
  }

  /** Cut between two samples, or not cut at all, the ring is invisible. */
  lemma CutBetweenSamples(add: Adder, c: seq<char>, u: nat, data: seq<char>, cut: nat)
    requires u <= |c| && cut <= Min(|data|, |c| - u)
    requires cut % 2 == 0 || cut == Min(|data|, |c| - u)
    ensures MixedAt(SumWith(add), c, u, data, cut) == MixedLine(add, c, u, data)
  {
    hide Mix;
    var m := Min(|data|, |c| - u);
    var dst, src := c[u..u + m], data[..m];
    MixSplit(add, dst, src, cut);
    assert WrittenAcross(SumWith(add), dst, src, cut) == Mix(add, dst, src);
  }

  function Uniform(x: char, n: nat): (r: seq<char>)
    ensures |r| == n
  {
    seq(n, _ => x)
  }

  /** An addition that keeps the later sample. */
  function Later(x: Sample, y: Sample): Sample { y }

  /** Cut inside a sample, the byte before the cut is left as it was. */
  lemma OddCutShows(n: nat, u: nat, len: nat, cut: nat)
    requires u <= n && cut % 2 == 1 && cut < Min(len, n - u)
    ensures MixedAt(SumWith(Later), Uniform('0', n), u, Uniform('1', len), cut)
         != MixedLine(Later, Uniform('0', n), u, Uniform('1', len))
  {
    hide MixAt, Mix, MixedAt, MixedLine, Uniform;
    var c, data, m := Uniform('0', n), Uniform('1', len), Min(len, n - u);
    var dst, src := c[u..u + m], data[..m];
    UniformAt('0', n, u, u + m, cut - 1);
    UniformAt('1', len, 0, m, cut - 1);
    assert data[0..m] == src;
    WholeAt(c, u, data, m, cut - 1);
    CutAt(c, u, data, m, cut);
    LaterSample(dst, src, cut - 1);
    OddByte(dst[..cut], src[..cut]);
  }

  lemma UniformAt(x: char, n: nat, lo: nat, hi: nat, i: nat)
    requires lo <= hi <= n && i < hi - lo
    ensures Uniform(x, n)[lo..hi][i] == x
  {
    assert Uniform(x, n)[lo + i] == x;
  }

  lemma WholeAt(c: seq<char>, u: nat, data: seq<char>, m: nat, i: nat)
    requires u <= |c| && m == Min(|data|, |c| - u) && i < m
    ensures MixedLine(Later, c, u, data)[u + i] == MixAt(Later, c[u..u + m], data[..m], i)
  {
    hide MixAt, Mix;
    var mix := Mix(Later, c[u..u + m], data[..m]);
    MixPoints(Later, c[u..u + m], data[..m]);
    assert MixedLine(Later, c, u, data)[u + i] == mix[i];
  }

  lemma CutAt(c: seq<char>, u: nat, data: seq<char>, m: nat, cut: nat)
    requires u <= |c| && m == Min(|data|, |c| - u) && 0 < cut <= m
    ensures MixedAt(SumWith(Later), c, u, data, cut)[u + cut - 1]
         == MixAt(Later, c[u..u + m][..cut], data[..m][..cut], cut - 1)
  {
    hide MixAt, Mix;
    var dst, src := c[u..u + m], data[..m];
    MixPoints(Later, dst[..cut], src[..cut]);
    assert WrittenAcross(SumWith(Later), dst, src, cut)[cut - 1] == Mix(Later, dst[..cut], src[..cut])[cut - 1];
  }

  lemma LaterSample(dst: seq<char>, src: seq<char>, i: nat)
    requires |dst| == |src| && i % 2 == 0 && i + 1 < |dst|
    ensures MixAt(Later, dst, src, i) == src[i]
  {
  }

  lemma OddByte(dst: seq<char>, src: seq<char>)
    requires |dst| == |src| && |dst| % 2 == 1
    ensures MixAt(Later, dst, src, |dst| - 1) == dst[|dst| - 1]
  {
  }

  /** The end of the buffer is invisible to every write, whatever is added to whatever, exactly when it does not
      cut a sample in two. */
  lemma CutIsInvisibleIff(n: nat, u: nat, len: nat, cut: nat)
    requires u <= n && cut <= Min(len, n - u)
    ensures (forall add: Adder, c: seq<char>, data: seq<char> :: |c| == n && |data| == len ==>
              MixedAt(SumWith(add), c, u, data, cut) == MixedLine(add, c, u, data))
        <==> cut % 2 == 0 || cut == Min(len, n - u)
  {
    if cut % 2 == 0 || cut == Min(len, n - u) {
      forall add: Adder, c: seq<char>, data: seq<char> | |c| == n && |data| == len
        ensures MixedAt(SumWith(add), c, u, data, cut) == MixedLine(add, c, u, data)
      {
        CutBetweenSamples(add, c, u, data, cut);
      }
    } else {
      OddCutShows(n, u, len, cut);
    }
  }

  ghost predicate EvenRing(r: Ring) {
    && r.size % 2 == 0 && r.read % 2 == 0 && |r.content| % 2 == 0
    && EvenOffsets(r.offsets)
  }

  ghost predicate EvenOffsets(offsets: seq<nat>) {
    forall i :: 0 <= i < |offsets| ==> offsets[i] % 2 == 0
  }

  predicate EvenOp(op: Op) {
    match op
    case Write(_, data) => |data| % 2 == 0
    case Read(len) => len % 2 == 0
    case _ => true
  }

  ghost function Project(r: Ring): Line {
    Line(r.content, r.offsets)
  }

  /** Every call leaves the content within the buffer and every offset within the content. */
  lemma StepKeepsProper(add: Adder, r: Ring, op: Op)
    requires Proper(r) && Allowed(op, |r.offsets|)
    ensures Proper(RingStep(add, r, op))
  {
    var r' := RingStep(add, r, op);
    forall i | 0 <= i < |r'.offsets| ensures r'.offsets[i] <= |r'.content| {
      if op.Write? && i == op.k {
        assert r'.offsets[i] == r.offsets[i] + |Fitting(r.size, r.offsets[i], op.data)|;
      } else if op.Detach? {
        assert r'.offsets[i] == r.offsets[if i < op.k then i else i + 1];
      }
    }
  }

  lemma FittingEven(size: nat, u: nat, data: seq<char>)
    requires u <= size && size % 2 == 0 && u % 2 == 0 && |data| % 2 == 0
    ensures |Fitting(size, u, data)| % 2 == 0 && (u + |Fitting(size, u, data)|) % 2 == 0
  {
    EvenDifference(size, u);
    EvenDifference(u, |Fitting(size, u, data)|);
  }

  lemma StepKeepsEven(add: Adder, r: Ring, op: Op)
    requires Proper(r) && Allowed(op, |r.offsets|) && EvenRing(r) && EvenOp(op)
    ensures EvenRing(RingStep(add, r, op))
  {
    OffsetsStayEven(r.size, r.offsets, op);
    match op {
      case Write(k, data) =>
        FittingEven(r.size, r.offsets[k], data);
        var len := |RingStep(add, r, op).content|;
        assert len == |r.content| || len == r.offsets[k] + |Fitting(r.size, r.offsets[k], data)|;
      case Read(len) =>
        ReadStaysEven(r, len);
      case _ =>
    }
  }

  lemma OffsetsStayEven(size: nat, offsets: seq<nat>, op: Op)
    requires Allowed(op, |offsets|) && OffsetsWithin(offsets, size) && size % 2 == 0
    requires EvenOffsets(offsets) && EvenOp(op)
    ensures EvenOffsets(NextOffsets(size, offsets, op))
  {
    match op {
      case Write(k, data) => FittingEven(size, offsets[k], data);
      case Read(len) =>
        forall i | 0 <= i < |offsets| ensures MoveBack(offsets, len)[i] % 2 == 0 {
          EvenDifference(offsets[i], len);
        }
      case Detach(k) =>
        var r := NextOffsets(size, offsets, op);
        assert forall i :: 0 <= i < |r| ==> r[i] == offsets[if i < k then i else i + 1];
      case _ =>
    }
  }

  lemma ReadStaysEven(r: Ring, len: nat)
    requires Proper(r) && EvenRing(r) && len % 2 == 0
    ensures (|r.content| - Min(len, |r.content|)) % 2 == 0 && ReadAfter(r, len) % 2 == 0
  {
    var n := Min(len, |r.content|);
    EvenDifference(|r.content|, n);
    EvenDifference(r.read, n);
    EvenDifference(r.read + n, r.size);
  }

  /** The offsets are those of the linear machine. */
  lemma OffsetsAreLinear(size: nat, offsets: seq<nat>, op: Op)
    requires Allowed(op, |offsets|) && OffsetsWithin(offsets, size)
    ensures op.Read? ==>
      NextOffsets(size, offsets, op)
      == seq(|offsets|, i requires 0 <= i < |offsets| => if offsets[i] > op.len then offsets[i] - op.len else 0)
    ensures op.Write? ==>
      Fitting(size, offsets[op.k], op.data) == op.data[..Min(|op.data|, size - offsets[op.k])]
  {
  }

  lemma EvenStepIsLinear(add: Adder, r: Ring, op: Op)
    requires Proper(r) && Allowed(op, |r.offsets|) && EvenRing(r) && EvenOp(op)
    ensures Project(RingStep(add, r, op)) == LineStep(add, r.size, Project(r), op)
  {
    hide MixedAt, MixedLine, Cut, LessRead;
    OffsetsAreLinear(r.size, r.offsets, op);
    if op.Write? {
      var u := r.offsets[op.k];
      var d := Fitting(r.size, u, op.data);
      FittingEven(r.size, u, op.data);
      CutEven(r.size, r.read, |r.content|, u, |d|);
      CutBetweenSamples(add, r.content, u, d, Cut(r.size, r.read, |r.content|, u, |d|));
    }
  }

  ghost predicate AllAllowed(ops: seq<Op>, n: nat) {
    ops == [] || (Allowed(ops[0], n) && AllAllowed(ops[1..], match ops[0]
      case Attach => n + 1
      case Detach(_) => if n > 0 then n - 1 else 0
      case _ => n))
  }

  ghost function RingRun(add: Adder, r: Ring, ops: seq<Op>): (r': Ring)
    requires Proper(r) && AllAllowed(ops, |r.offsets|)
    ensures Proper(r') && r'.size == r.size
    decreases |ops|
  {
    if ops == [] then r
    else
      StepKeepsProper(add, r, ops[0]);
      RingRun(add, RingStep(add, r, ops[0]), ops[1..])
  }

  ghost function LineRun(add: Adder, size: nat, l: Line, ops: seq<Op>): Line
    requires |l.content| <= size && AllAllowed(ops, |l.offsets|)
    requires OffsetsWithin(l.offsets, |l.content|)
    decreases |ops|
  {
    if ops == [] then l
    else
      LineKeepsProper(add, size, l, ops[0]);
      LineRun(add, size, LineStep(add, size, l, ops[0]), ops[1..])
  }

  lemma LineKeepsProper(add: Adder, size: nat, l: Line, op: Op)
    requires |l.content| <= size && Allowed(op, |l.offsets|) && OffsetsWithin(l.offsets, |l.content|)
    ensures var l' := LineStep(add, size, l, op); |l'.content| <= size && OffsetsWithin(l'.offsets, |l'.content|)
  {
    var l' := LineStep(add, size, l, op);
    forall i | 0 <= i < |l'.offsets| ensures l'.offsets[i] <= |l'.content| {
      if op.Write? && i == op.k {
        assert l'.offsets[i] == l.offsets[i] + |Fitting(size, l.offsets[i], op.data)|;
      } else if op.Detach? {
        assert l'.offsets[i] == l.offsets[if i < op.k then i else i + 1];
      }
    }
  }

  /** Every run of whole samples on the wrapped ring is the run on the linear sequence. */
  lemma {:induction false} RunIsLinear(add: Adder, r: Ring, ops: seq<Op>)
    requires Proper(r) && EvenRing(r) && AllAllowed(ops, |r.offsets|)
    requires forall i :: 0 <= i < |ops| ==> EvenOp(ops[i])
    ensures Project(RingRun(add, r, ops)) == LineRun(add, r.size, Project(r), ops)
    decreases |ops|
  {
    if ops != [] {
      StepKeepsProper(add, r, ops[0]);
      StepKeepsEven(add, r, ops[0]);
      EvenStepIsLinear(add, r, ops[0]);
      RunIsLinear(add, RingStep(add, r, ops[0]), ops[1..]);
    }
  }

  /** A stream may deliver its voice in pieces of whole samples: the result is that of one write. */
  lemma WriteInPieces(add: Adder, c: seq<char>, u: nat, d: seq<char>, e: seq<char>, k: nat)
    requires u <= |c| && |d| % 2 == 0 && k == u + |d|
    ensures MixedLine(add, MixedLine(add, c, u, d), k, e) == MixedLine(add, c, u, d + e)
  {
    if |d| <= |c| - u {
      var p, q := c[..u], c[u..];
      assert p + q == c && |p| == u;
      PiecesInside(add, p, q, u, d, e, k);
    } else {
      PiecesPast(add, c, u, d, e, k);
    }
  }

  lemma PiecesPast(add: Adder, c: seq<char>, u: nat, d: seq<char>, e: seq<char>, k: nat)
    requires u <= |c| && |d| > |c| - u && k == u + |d|
    ensures MixedLine(add, MixedLine(add, c, u, d), k, e) == MixedLine(add, c, u, d + e)
  {
    var c1, m := MixedLine(add, c, u, d), |c| - u;
    var none: seq<char> := [];
    assert c1[k..] == none && c1[..k] == c1 && e[..0] == none;
    assert MixedLine(add, c1, k, e) == c1 + e;
    assert (d + e)[..m] == d[..m] && (d + e)[m..] == d[m..] + e;
  }

  lemma PiecesInside(add: Adder, p: seq<char>, q: seq<char>, u: nat, d: seq<char>, e: seq<char>, k: nat)
    requires |d| <= |q| && |d| % 2 == 0 && u == |p| && k == u + |d|
    ensures MixedLine(add, MixedLine(add, p + q, u, d), k, e) == MixedLine(add, p + q, u, d + e)
  {
    var q2, m := q[|d|..], Min(|e|, |q| - |d|);
    var x, y, r, t := Mix(add, q[..|d|], d), Mix(add, q2[..m], e[..m]), q2[m..], e[m..];
    var c1 := MixedLine(add, p + q, u, d);
    MixedFirst(add, p, q, u, d);
    assert c1 == (p + x) + q2;
    MixedBehind(add, p + x, q2, e, k);
    var one, two := p + x + y + r + t, p + (x + y) + r + t;
    assert MixedLine(add, c1, k, e) == one;
    var n, de := Min(|d + e|, |q|), d + e;
    MixedBehind(add, p, q, de, u);
    MixJoin(add, q, d, e, m, n, de);
    assert MixedLine(add, p + q, u, de) == two;
    Regroup(p, x, y, r, t);
    assert one == two;
  }

  lemma Regroup(p: seq<char>, x: seq<char>, y: seq<char>, r: seq<char>, t: seq<char>)
    ensures p + x + y + r + t == p + (x + y) + r + t
  {
  }

  lemma MixedFirst(add: Adder, p: seq<char>, q: seq<char>, u: nat, d: seq<char>)
    requires |d| <= |q| && u == |p|
    ensures MixedLine(add, p + q, u, d) == p + Mix(add, q[..|d|], d) + q[|d|..]
  {
    MixedBehind(add, p, q, d, u);
    assert d[..|d|] == d && d[|d|..] == [];
  }

  lemma MixJoin(add: Adder, q: seq<char>, d: seq<char>, e: seq<char>, m: nat, n: nat, de: seq<char>)
    requires |d| % 2 == 0 && |d| <= |q| && m == Min(|e|, |q| - |d|) && de == d + e && n == Min(|de|, |q|)
    ensures Mix(add, q[..n], de[..n]) == Mix(add, q[..|d|], d) + Mix(add, q[|d|..][..m], e[..m])
    ensures q[n..] == q[|d|..][m..] && de[n..] == e[m..]
  {
    hide Mix;
    var y, z := q[..n], de[..n];
    MixSplit(add, y, z, |d|);
    PieceBounds(q, d, e, m, n, de);
  }

  lemma PieceBounds(q: seq<char>, d: seq<char>, e: seq<char>, m: nat, n: nat, de: seq<char>)
    requires |d| <= |q| && m == Min(|e|, |q| - |d|) && de == d + e && n == Min(|de|, |q|)
    ensures q[..n][..|d|] == q[..|d|] && de[..n][..|d|] == d
    ensures q[..n][|d|..] == q[|d|..][..m] && de[..n][|d|..] == e[..m]
    ensures q[n..] == q[|d|..][m..] && de[n..] == e[m..]
  {
  }

  /** MixedLine on a content given in two parts. */
  lemma MixedBehind(add: Adder, p: seq<char>, q: seq<char>, d: seq<char>, k: nat)
    requires k == |p|
    ensures var m := Min(|d|, |q|);
      MixedLine(add, p + q, k, d) == p + Mix(add, q[..m], d[..m]) + q[m..] + d[m..]
  {
    var c, m := p + q, Min(|d|, |q|);
    assert c[..|p|] == p && c[|p|..|p| + m] == q[..m] && c[|p| + m..] == q[m..];
  }
}
