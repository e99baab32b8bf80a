/** The parts of channel.c that move voice through the mixing buffer: channel_write and timing_write. */
module AudioPath {
  import opened Samples
  import opened RingBuffer
  import opened MixBuffer

  const FRAME_SIZE := 320

  /** The number of the oldest bytes that must go before len bytes fit behind offset u. */
  function Overflow(size: nat, u: nat, len: nat): nat
    requires u <= size
  {
    if size - u < len then len - (size - u) else 0
  }

  /** No more goes than must: the frame fits once k bytes are gone exactly when k is at least as many. */
  lemma LeastDrop(size: nat, u: nat, len: nat, k: nat)
    requires u <= size && len <= size
    ensures len <= size - (if k < u then u - k else 0) <==> Overflow(size, u, len) <= k
  {
  }

  /** The part of channel_write that puts a voice frame into the ring: make room by dropping the oldest bytes
      of all streams, then mix and append. A frame no longer than the ring is stored whole. */
  method ChannelWrite(mb: MixBuffer, s: MixStream, frame: seq<char>, add: Adder) returns (stored: nat)
    requires mb.Valid() && s in mb.streams
    modifies mb.rb`read, mb.rb`write, mb.rb`used, mb.rb.buffer, mb.streams
    ensures mb.Valid()
    ensures var c, u, size := old(mb.rb.Contents()), old(s.used), mb.rb.size;
      && u <= |c| <= size
      && var drop := Overflow(size, u, |frame|);
         var c1, u1 := c[Min(drop, |c|)..], LessRead(u, drop);
         var d := Fitting(size, u1, frame);
         && u1 <= |c1| && stored == |d| && s.used == u1 + stored
         && mb.rb.Contents() == MixedAt(SumWith(add), c1, u1, d, Cut(size, mb.rb.read, |c1|, u1, |d|))
         && (|frame| <= size ==> d == frame && |c1| == |c| - drop)
         && (|frame| > size ==> u1 == 0 && stored == size)
  {
    hide RingBuffer.View, ViewOf, MixedAt;
    ghost var c, u := mb.rb.Contents(), s.used;
    ghost var drop := Overflow(mb.rb.size, u, |frame|);
    assert mb.InStep(s);
    var k := mb.Position(s);
    var count := mb.FreeFor(s);
    if count < |frame| {
      var dropped := mb.ReadUpd(|frame| - count);
      assert mb.streams[k].used == LessRead(u, drop);
    } else {
      assert c[Min(drop, |c|)..] == c;
    }
    assert mb.InStep(s);
    assert mb.rb.Contents() == c[Min(drop, |c|)..] && s.used == LessRead(u, drop);
    stored := mb.Write(add, s, frame);
  }

  /** One of the vectors handed to writev: bytes of the ring, or part of the silent frame. */
  datatype Piece = FromRing(start: nat, len: nat) | Silence(len: nat)

  /** The silent frame's first n bytes. */
  function Silent(n: nat): (r: seq<char>)
    ensures |r| == n && forall i :: 0 <= i < n ==> r[i] == '\0'
  {
    seq(n, _ => '\0')
  }

  ghost function PieceBytes(b: seq<char>, p: Piece): seq<char>
    requires Inside(|b|, p)
  {
    match p
    case FromRing(start, len) => b[start..start + len]
    case Silence(len) => Silent(len)
  }

  ghost predicate Inside(size: nat, p: Piece) {
    p.FromRing? ==> p.start + p.len <= size
  }

  ghost predicate PiecesInside(size: nat, ps: seq<Piece>) {
    forall i :: 0 <= i < |ps| ==> Inside(size, ps[i])
  }

  /** What one writev of the pieces sends. */
  ghost function Sent(b: seq<char>, ps: seq<Piece>): seq<char>
    requires PiecesInside(|b|, ps)
  {
    if ps == [] then [] else PieceBytes(b, ps[0]) + Sent(b, ps[1..])
  }

  function Pieces(l: IovList): (ps: seq<Piece>)
    requires l.count <= 2
  {
    if l.count == 0 then []
    else if l.count == 1 then [FromRing(l.v0.start, l.v0.len)]
    else [FromRing(l.v0.start, l.v0.len), FromRing(l.v1.start, l.v1.len)]
  }

  lemma SentNone(b: seq<char>)
    ensures PiecesInside(|b|, []) && Sent(b, []) == []
  {
  }

  lemma SentOne(b: seq<char>, p: Piece)
    requires Inside(|b|, p)
    ensures PiecesInside(|b|, [p]) && Sent(b, [p]) == PieceBytes(b, p)
  {
    hide PieceBytes;
    assert [p][1..] == [];
    assert PieceBytes(b, p) + [] == PieceBytes(b, p);
  }

  lemma SentTwo(b: seq<char>, p: Piece, q: Piece)
    requires Inside(|b|, p) && Inside(|b|, q)
    ensures PiecesInside(|b|, [p, q])
    ensures Sent(b, [p, q]) == PieceBytes(b, p) + PieceBytes(b, q)
  {
    hide PieceBytes;
    SentOne(b, q);
    assert [p, q][1..] == [q];
  }

  lemma PiecesSend(b: seq<char>, l: IovList)
    requires IovInside(l, |b|)
    ensures PiecesInside(|b|, Pieces(l)) && Sent(b, Pieces(l)) == Gather(b, l)
  {
    hide Sent;
    if l.count == 0 {
      SentNone(b);
    } else if l.count == 1 {
      SentOne(b, FromRing(l.v0.start, l.v0.len));
    } else {
      SentTwo(b, FromRing(l.v0.start, l.v0.len), FromRing(l.v1.start, l.v1.len));
    }
  }

  lemma {:induction false} SentThen(b: seq<char>, ps: seq<Piece>, p: Piece)
    requires PiecesInside(|b|, ps) && p.Silence?
    ensures PiecesInside(|b|, ps + [p]) && Sent(b, ps + [p]) == Sent(b, ps) + PieceBytes(b, p)
  {
    if ps == [] {
      assert ps + [p] == [p] && [p][1..] == [];
      assert Sent(b, []) == [];
    } else {
      SentThen(b, ps[1..], p);
      assert (ps + [p])[1..] == ps[1..] + [p];
    }
  }

  /** What goes out for a content c: the oldest bytes, made up to a frame with silence. */
  function Frame(c: seq<char>): (f: seq<char>)
    ensures |f| == 320
    ensures forall i :: 0 <= i < FRAME_SIZE ==> f[i] == if i < |c| then c[i] else '\0'
  {
    if |c| >= FRAME_SIZE then c[..FRAME_SIZE] else c + Silent(FRAME_SIZE - |c|)
  }

  /** timing_write up to the call of iov_write: the vectors always describe exactly one frame, and the bytes
      they take from the ring leave it. */
  method TimingWrite(mb: MixBuffer) returns (out: seq<Piece>)
    requires mb.Valid()
    modifies mb.rb`read, mb.rb`write, mb.rb`used, mb.streams
    ensures mb.Valid() && PiecesInside(mb.rb.size, out)
    ensures Sent(mb.rb.buffer[..], out) == Frame(old(mb.rb.Contents()))
    ensures mb.rb.Contents() == old(mb.rb.Contents())[Min(FRAME_SIZE, old(mb.rb.used))..]
    ensures 1 <= |out| <= 3
  {
    hide RingBuffer.View, ViewOf, Sent;
    ghost var c, b := mb.rb.Contents(), mb.rb.buffer[..];
    var used := mb.rb.used;
    if used >= FRAME_SIZE {
      var l := mb.rb.ReadNIov(FRAME_SIZE);
      out := Pieces(l);
      PiecesSend(b, l);
      var n := mb.ReadUpd(FRAME_SIZE);
      assert Sent(b, out) == Frame(c);
    } else if used > 0 {
      var l := mb.rb.ReadAllIov();
      out := Pieces(l) + [Silence(FRAME_SIZE - used)];
      PiecesSend(b, l);
      SentThen(b, Pieces(l), Silence(FRAME_SIZE - used));
      var n := mb.ReadUpd(used);
      assert Sent(b, out) == Frame(c);
    } else {
      out := [Silence(FRAME_SIZE)];
      SentOne(b, out[0]);
      assert Sent(b, out) == Frame(c);
    }
    assert mb.rb.buffer[..] == b;
  }
}
