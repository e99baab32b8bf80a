/** mixbuffer.c and mixbuffer.h: several voice streams mixed into one ring. Each stream keeps its own write
    cursor. The abstract value is the ring's content, a plain sequence, with one offset into it per stream. */
module MixBuffer {
  import opened Lists
  import opened Samples
  import opened RingBuffer

  class MixStream {
    var used: nat
    var write: nat

    constructor ()
      ensures used == write == 0
    {
      used, write := 0, 0;
    }
  }

  /** saturated_sum as a write method. */
  function SumWith(add: Adder): WriteMethod {
    (dst: seq<char>, src: seq<char>) => if |dst| == |src| then Mix(add, dst, src) else dst
  }

  /** The linear meaning of a write at offset u of the content c: combine with the bytes already there, then
      append the rest. cut is where the combined part meets the end of the buffer. */
  ghost function MixedAt(f: WriteMethod, c: seq<char>, u: nat, data: seq<char>, cut: nat): (r: seq<char>)
    requires u <= |c| && cut <= Min(|data|, |c| - u)
    ensures |r| == if u + |data| > |c| then u + |data| else |c|
  {
    var m := Min(|data|, |c| - u);
    c[..u] + WrittenAcross(f, c[u..u + m], data[..m], cut) + c[u + m..] + data[m..]
  }

  lemma MixInside(f: WriteMethod, v: seq<char>, n: nat, u: nat, data: seq<char>, cut: nat, v1: seq<char>)
    requires u + |data| <= n <= |v| && cut <= |data| && v1 == Overwritten(f, v, u, data, cut)
    ensures v1[..n] == MixedAt(f, v[..n], u, data, cut)
  {
    var c, w := v[..n], WrittenAcross(f, v[u..u + |data|], data, cut);
    assert c[u..u + |data|] == v[u..u + |data|] && data[..|data|] == data;
    SplicePoints(v, u, w);
    assert v1[..n] == c[..u] + w + c[u + |data|..];
  }

  lemma MixThenAppend(f: WriteMethod, c: seq<char>, u: nat, data: seq<char>, m: nat, cut: nat)
    requires u <= |c| && m == |c| - u < |data| && cut <= m
    ensures MixedAt(f, c, u, data, cut) == MixedAt(f, c, u, data[..m], cut) + data[m..]
  {
    assert data[..m][..m] == data[..m];
  }

  lemma MixNothing(f: WriteMethod, c: seq<char>, u: nat, none: seq<char>, cut: nat)
    requires u <= |c| && none == [] && cut == 0
    ensures MixedAt(f, c, u, none, cut) == c
  {
    assert c[u..u] == none;
    assert WrittenAcross(f, none, none, cut) == none;
    assert c == c[..u] + c[u..];
  }

  /** How much of data a stream at offset u is given room for. */
  function Fitting(size: nat, u: nat, data: seq<char>): (d: seq<char>)
    requires u <= size
    ensures d <= data && u + |d| <= size
  {
    data[..Min(|data|, size - u)]
  }

  /** Where the mixed part of a write meets the end of the buffer. */
  function Cut(size: nat, read: nat, n: nat, u: nat, len: nat): (cut: nat)
    requires u <= n <= size && (read < size || read == size == 0)
    ensures cut <= Min(len, n - u)
  {
    Min(Min(len, n - u), size - Wrap(size, read + u))
  }

  /** The offset u after len bytes were dropped from the front. */
  function LessRead(u: nat, len: nat): nat {
    if u > len then u - len else 0
  }

  ghost predicate Distinct(l: seq<MixStream>) {
    forall i, j :: 0 <= i < j < |l| ==> l[i] != l[j]
  }

  lemma WithoutOnce(l: seq<MixStream>, s: MixStream, i: nat)
    requires i < |l| && l[i] == s && Distinct(l)
    ensures var r := l[..i] + l[i + 1..]; Distinct(r) && s !in r
  {
  }

  class MixBuffer {
    const rb: RingBuffer
    var streams: seq<MixStream>
    var attached: int

    /** The cursor of s agrees with the number of bytes it has in the ring. */
    ghost predicate InStep(s: MixStream)
      reads this, rb, s
    {
      s.used <= rb.used && s.write == Wrap(rb.size, rb.read + s.used)
    }

    /** The ring is only ever written by rb_write_core here, so its cursor is never at the buffer's end. */
    ghost predicate CursorsValid()
      reads this, rb
    {
      rb.Valid() && rb.write == Wrap(rb.size, rb.read + rb.used)
    }

    ghost predicate Valid()
      reads this, rb, streams
    {
      && CursorsValid()
      && attached == |streams|
      && Distinct(streams)
      && (forall i :: 0 <= i < |streams| ==> InStep(streams[i]))
    }

    /** mixb_init on a fresh structure. */
    constructor (buf: array<char>)
      ensures Valid() && fresh(rb) && rb.buffer == buf && streams == [] && rb.Contents() == []
    {
      rb := new RingBuffer(buf);
      streams := [];
      attached := 0;
    }

    /** mixb_attach: the stream starts at the oldest byte still in the ring. */
    method Attach(s: MixStream)
      requires Valid() && s !in streams
      modifies this, s
      ensures Valid() && streams == old(streams) + [s] && s.used == 0
    {
      s.used := 0;
      s.write := rb.read;
      streams := streams + [s];
      attached := attached + 1;
    }

    /** mixb_detach */
    method Detach(s: MixStream)
      requires Valid() && s in streams
      modifies this
      ensures Valid()
      ensures streams == Without(old(streams), s) && s !in streams
    {
      ghost var was := streams;
      var i := Position(s);
      WithoutAt(was, s, i);
      WithoutOnce(was, s, i);
      hide Without, Distinct;
      streams := streams[..i] + streams[i + 1..];
      attached := attached - 1;
      assert forall k :: 0 <= k < |streams| ==> streams[k] == was[if k < i then k else k + 1];
    }

    /** Where a stream stands in the list. */
    method Position(s: MixStream) returns (i: nat)
      requires s in streams
      ensures i < |streams| && streams[i] == s && forall j :: 0 <= j < i ==> streams[j] != s
    {
      i := 0;
      while streams[i] != s
        invariant 0 <= i < |streams| && forall j :: 0 <= j < i ==> streams[j] != s
        decreases |streams| - i
      {
        i := i + 1;
      }
    }

    function FreeFor(s: MixStream): int
      reads this, rb, s
    {
      rb.size - s.used
    }

    /** mixb_mix_write: put the stream's cursor in the place of the ring's, write, and put the ring's back. */
    method MixWrite(add: Adder, s: MixStream, data: seq<char>, ghost cut: nat) returns (r: nat)
      requires CursorsValid() && InStep(s) && s.used + |data| <= rb.used
      requires cut == Min(|data|, rb.size - s.write)
      modifies rb`write, rb`used, rb.buffer, s
      ensures CursorsValid() && InStep(s) && r == |data|
      ensures s.used == old(s.used) + |data|
      ensures rb.used == old(rb.used)
      ensures rb.View() == Overwritten(SumWith(add), old(rb.View()), old(s.used), data, cut)
    {
      ghost var v, u := rb.View(), s.used;
      var saveWrite, saveUsed := rb.write, rb.used;
      rb.SetCursor(s.write, s.used);
      assert rb.View() == v;
      r := rb.WriteAll(data, SumWith(add), cut);
      ghost var v1 := rb.View();
      assert v1 == Overwritten(SumWith(add), v, u, data, cut);
      s.write, s.used := rb.write, rb.used;
      rb.SetCursor(saveWrite, saveUsed);
      assert rb.View() == v1;
    }

    /** mixb_write: as much of data as the stream has room for, mixed with what the other streams have put
        there already and then appended. */
    method Write(add: Adder, s: MixStream, data: seq<char>) returns (len: nat)
      requires Valid() && s in streams
      modifies rb`write, rb`used, rb.buffer, s
      ensures Valid()
      ensures var c, u, d := old(rb.Contents()), old(s.used), Fitting(rb.size, old(s.used), data);
        && len == |d| && s.used == u + |d|
        && rb.Contents() == MixedAt(SumWith(add), c, u, d, Cut(rb.size, rb.read, |c|, u, |d|))
    {
      ghost var c, u, fit := rb.Contents(), s.used, Fitting(rb.size, s.used, data);
      len := |data|;
      if FreeFor(s) < len {
        len := FreeFor(s);
      }
      var d := data[..len];
      assert d == fit;
      ghost var cut := Cut(rb.size, rb.read, |c|, u, |fit|);
      if len > 0 {
        WriteFitting(add, s, d, cut);
      } else {
        MixNothing(SumWith(add), c, u, d, cut);
      }
    }

    /** The rest of mixb_write, for data that fits. */
    method WriteFitting(add: Adder, s: MixStream, d: seq<char>, ghost cut: nat)
      requires Valid() && s in streams && 0 < |d| <= rb.size - s.used
      requires s.used <= rb.used && cut == Cut(rb.size, rb.read, rb.used, s.used, |d|)
      modifies rb`write, rb`used, rb.buffer, s
      ensures Valid() && s.used == old(s.used) + |d|
      ensures rb.Contents() == MixedAt(SumWith(add), old(rb.Contents()), old(s.used), d, cut)
    {
      ghost var c, u, f := rb.Contents(), s.used, SumWith(add);
      assert InStep(s);
      var maxMix := rb.used - s.used;
      if |d| > maxMix {
        if maxMix != 0 {
          MixPart(add, s, d[..maxMix], cut);
        } else {
          MixNothing(f, c, u, d[..maxMix], cut);
        }
        assert rb.Contents() == MixedAt(f, c, u, d[..maxMix], cut);
        Append(s, d[maxMix..]);
        MixThenAppend(f, c, u, d, maxMix, cut);
      } else {
        MixPart(add, s, d, cut);
      }
      assert rb.Contents() == MixedAt(f, c, u, d, cut);
    }

    /** A mixb_mix_write inside the content. */
    method MixPart(add: Adder, s: MixStream, data: seq<char>, ghost cut: nat)
      requires Valid() && s in streams && s.used + |data| <= rb.used
      requires cut == Min(|data|, rb.size - s.write)
      modifies rb`write, rb`used, rb.buffer, s
      ensures Valid() && s.used == old(s.used) + |data| && rb.used == old(rb.used)
      ensures rb.Contents() == MixedAt(SumWith(add), old(rb.Contents()), old(s.used), data, cut)
    {
      hide Overwritten, MixedAt, RingBuffer.View, ViewOf, Distinct;
      ghost var v, n, u := rb.View(), rb.used, s.used;
      var r := MixWrite(add, s, data, cut);
      MixInside(SumWith(add), v, n, u, data, cut, rb.View());
    }

    /** The rb_write that follows the mixed part, after which the stream stands at the end of the ring. */
    method Append(s: MixStream, data: seq<char>)
      requires Valid() && s in streams && rb.used + |data| <= rb.size
      modifies rb`write, rb`used, rb.buffer, s
      ensures Valid() && s.used == rb.used == old(rb.used) + |data|
      ensures rb.Contents() == old(rb.Contents()) + data
    {
      var r := rb.Write(data);
      assert data[..r] == data;
      s.write, s.used := rb.write, rb.used;
    }

    /** The loop body of mixb_read_upd. */
    method MoveBack(s: MixStream, len: nat)
      requires CursorsValid() && LessRead(s.used, len) <= rb.used
      modifies s
      ensures InStep(s) && s.used == LessRead(old(s.used), len)
    {
      if s.used > len {
        s.used := s.used - len;
      } else {
        s.used := 0;
      }
      s.write := rb.read + s.used;
      if s.write >= rb.size {
        s.write := s.write - rb.size;
      }
    }

    /** mixb_read_upd: drop the oldest bytes and move every stream's offset back by as many. */
    method ReadUpd(len: nat) returns (r: nat)
      requires Valid()
      modifies rb`read, rb`write, rb`used, streams
      ensures Valid() && r == Min(len, old(rb.used)) && rb.Contents() == old(rb.Contents())[r..]
      ensures rb.read == if 0 < r == old(rb.used) then 0 else Wrap(rb.size, old(rb.read) + r)
      ensures forall i :: 0 <= i < |streams| ==> streams[i].used == LessRead(old(streams[i].used), len)
    {
      hide RingBuffer.Contents, RingBuffer.View, ViewOf, Rotate, Distinct;
      ghost var c := rb.Contents();
      r := rb.ReadUpd(len);
      ghost var c1 := rb.Contents();
      assert c1 == c[r..];
      assert CursorsValid();
      MoveAllBack(len);
      assert rb.Contents() == c1;
      assert CursorsValid();
    }

    /** The loop of mixb_read_upd. */
    method MoveAllBack(len: nat)
      requires CursorsValid() && Distinct(streams)
      requires forall i :: 0 <= i < |streams| ==> LessRead(streams[i].used, len) <= rb.used
      modifies streams
      ensures forall i :: 0 <= i < |streams| ==> InStep(streams[i])
      ensures forall i :: 0 <= i < |streams| ==> streams[i].used == LessRead(old(streams[i].used), len)
    {
      var i := 0;
      while i < |streams|
        invariant 0 <= i <= |streams|
        invariant forall j :: 0 <= j < i ==> InStep(streams[j])
        invariant forall j :: 0 <= j < i ==> streams[j].used == LessRead(old(streams[j].used), len)
        invariant forall j :: i <= j < |streams| ==> streams[j].used == old(streams[j].used)
      {
        MoveBack(streams[i], len);
        i := i + 1;
      }
    }
  }
}
