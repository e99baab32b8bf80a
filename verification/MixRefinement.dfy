/** Each operation of the mixing buffer performs the step of the abstract ring that MixLaws reasons about. */
module MixRefinement {
  import opened Lists
  import opened Samples
  import opened RingBuffer
  import opened MixBuffer
  import opened MixLaws

  ghost predicate Represents(mb: MixBuffer, r: Ring)
    reads mb, mb.rb, mb.rb.buffer, mb.streams
  {
    && mb.Valid()
    && r.size == mb.rb.size && r.read == mb.rb.read && r.content == mb.rb.Contents()
    && |r.offsets| == |mb.streams|
    && forall i :: 0 <= i < |r.offsets| ==> r.offsets[i] == mb.streams[i].used
  }

  lemma RepresentsProper(mb: MixBuffer, r: Ring)
    requires Represents(mb, r)
    ensures Proper(r)
  {
    forall i | 0 <= i < |r.offsets| ensures r.offsets[i] <= |r.content| {
      assert mb.InStep(mb.streams[i]);
    }
  }

  method Attach(mb: MixBuffer, s: MixStream, add: Adder, ghost r: Ring)
    requires Represents(mb, r) && s !in mb.streams
    modifies mb, s
    ensures Proper(r) && Represents(mb, RingStep(add, r, Op.Attach))
  {
    RepresentsProper(mb, r);
    mb.Attach(s);
  }

  method Detach(mb: MixBuffer, k: nat, add: Adder, ghost r: Ring)
    requires Represents(mb, r) && k < |mb.streams|
    modifies mb
    ensures Proper(r) && Represents(mb, RingStep(add, r, Op.Detach(k)))
  {
    hide RingBuffer.View, RingBuffer.Contents, ViewOf, Without;
    RepresentsProper(mb, r);
    ghost var was := mb.streams;
    mb.Detach(mb.streams[k]);
    WithoutAt(was, was[k], k);
    assert forall i :: 0 <= i < |mb.streams| ==> mb.streams[i] == was[if i < k then i else i + 1];
  }

  method Write(mb: MixBuffer, k: nat, data: seq<char>, add: Adder, ghost r: Ring) returns (len: nat)
    requires Represents(mb, r) && k < |mb.streams|
    modifies mb.rb`write, mb.rb`used, mb.rb.buffer, mb.streams[k]
    ensures Proper(r) && Represents(mb, RingStep(add, r, Op.Write(k, data)))
  {
    RepresentsProper(mb, r);
    var s := mb.streams[k];
    assert mb.InStep(s);
    len := mb.Write(add, s, data);
    ghost var u, d := r.offsets[k], Fitting(r.size, r.offsets[k], data);
    assert mb.rb.Contents() == MixedAt(SumWith(add), r.content, u, d, Cut(r.size, r.read, |r.content|, u, |d|));
  }

  method Read(mb: MixBuffer, len: nat, add: Adder, ghost r: Ring) returns (n: nat)
    requires Represents(mb, r)
    modifies mb.rb`read, mb.rb`write, mb.rb`used, mb.streams
    ensures Proper(r) && Represents(mb, RingStep(add, r, Op.Read(len)))
  {
    RepresentsProper(mb, r);
    n := mb.ReadUpd(len);
  }
}
