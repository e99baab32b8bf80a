/** The outer loop of the monitor: read, take the replies that have arrived whole, read again. */
module AtLoop {
  import opened RingBuffer
  import opened AtRead
  import opened AtResponses
  import opened AtMonitor
  import opened AtChunks

  /** What the reads bring, up to the first that fails. */
  function Chunks(input: seq<Arrival>): seq<seq<char>> {
    if input == [] || input[0].Failed? then []
    else [if input[0].Arrived? then input[0].bytes else []] + Chunks(input[1..])
  }

  /** Read after read has taken these replies, and the rest of the reads will complete them. */
  ghost predicate FeedsOn(all: Fed, done: seq<Taking>, line: bool, c: seq<char>, at: nat, h: nat,
                          chunks: seq<seq<char>>, size: nat, beyond: seq<char>)
    requires |beyond| >= 7 && |c| <= size
  {
    && Fits(line, c, at, h, chunks, size, beyond)
    && var rest := Feed(line, c, at, h, chunks, size, beyond);
       all == rest.(takings := done + rest.takings)
  }

  lemma FeedsStart(all: Fed, line: bool, c: seq<char>, at: nat, h: nat, chunks: seq<seq<char>>, size: nat,
                   beyond: seq<char>)
    requires |beyond| >= 7 && |c| <= size && Fits(line, c, at, h, chunks, size, beyond)
    requires all == Feed(line, c, at, h, chunks, size, beyond)
    ensures FeedsOn(all, [], line, c, at, h, chunks, size, beyond) && Replies([]) == []
  {
    hide Feed, Fits;
  }

  lemma FeedsEnd(all: Fed, done: seq<Taking>, line: bool, c: seq<char>, at: nat, h: nat, chunks: seq<seq<char>>,
                 size: nat, beyond: seq<char>)
    requires |beyond| >= 7 && |c| <= size && FeedsOn(all, done, line, c, at, h, chunks, size, beyond)
    requires chunks == [] || |c| == size
    ensures all == Fed(done, line, c)
  {
    assert done + [] == done;
  }

  lemma FeedsOnce(all: Fed, done: seq<Taking>, line: bool, c: seq<char>, at: nat, h: nat, chunks: seq<seq<char>>,
                  size: nat, beyond: seq<char>)
    requires |beyond| >= 7 && |c| < size && FeedsOn(all, done, line, c, at, h, chunks, size, beyond) && chunks != []
    ensures |c + chunks[0]| <= size
    ensures var now := c + chunks[0];
      var d := Drain(line, now, at, h, size, beyond);
      FeedsOn(all, done + d.takings, d.line, now[d.at - at..], d.at, d.h, chunks[1..], size, beyond)
  {
    hide Drain;
    var now := c + chunks[0];
    var d := Drain(line, now, at, h, size, beyond);
    var rest := Feed(d.line, now[d.at - at..], d.at, d.h, chunks[1..], size, beyond);
    assert done + (d.takings + rest.takings) == done + d.takings + rest.takings;
  }

  /** A read that succeeds brings the first of the chunks. */
  lemma FirstChunk(input: seq<Arrival>, i: nat)
    requires i < |input|
    ensures if input[i].Failed? then Chunks(input[i..]) == []
            else var chunks := Chunks(input[i..]);
              chunks != [] && chunks[1..] == Chunks(input[i + 1..])
              && chunks[0] == if input[i].Arrived? then input[i].bytes else []
  {
    assert input[i..][1..] == input[i + 1..];
  }

  /** Where the loop is: the replies so far, and what waits. */
  ghost predicate Under(fed: Fed, done: seq<Taking>, replies: seq<(seq<char>, Reply)>, line: bool, rb: RingBuffer,
                        pos: nat, chunks: seq<seq<char>>, beyond: seq<char>)
    requires rb.Valid() && |beyond| >= 7
    reads rb, rb.buffer
  {
    && replies == Replies(done)
    && FeedsOn(fed, done, line, rb.Contents(), pos, rb.size - rb.read, chunks, rb.size, beyond)
  }

  /** The monitor on what successive reads bring; a full ring or a failed read ends it. */
  method Monitor(rb: RingBuffer, line: bool, input: seq<Arrival>, beyond: seq<char>, ghost at: nat)
    returns (replies: seq<(seq<char>, Reply)>, lineAfter: bool, ghost fed: Fed)
    requires rb.Valid() && |beyond| >= 7
    requires Fits(line, rb.Contents(), at, rb.size - rb.read, Chunks(input), rb.size, beyond)
    modifies rb`read, rb`write, rb`used, rb.buffer
    ensures rb.Valid()
    ensures fed == Feed(line, old(rb.Contents()), at, old(rb.size - rb.read), Chunks(input), rb.size, beyond)
    ensures replies == Replies(fed.takings) && lineAfter == fed.line && rb.Contents() == fed.waiting
  {
    hide Feed, Fits, Drain, Replies, FeedsOn, Chunks, RingBuffer.Contents, RingBuffer.View;
    replies, lineAfter := [], line;
    fed := Feed(line, rb.Contents(), at, rb.size - rb.read, Chunks(input), rb.size, beyond);
    FeedsStart(fed, line, rb.Contents(), at, rb.size - rb.read, Chunks(input), rb.size, beyond);
    ghost var pos, done: seq<Taking> := at, [];
    var i, running := 0, true;
    assert input[0..] == input;
    while i < |input| && running
      invariant 0 <= i <= |input| && rb.Valid()
      invariant if running then Under(fed, done, replies, lineAfter, rb, pos, Chunks(input[i..]), beyond)
                else fed == Fed(done, lineAfter, rb.Contents()) && replies == Replies(done)
    {
      running, replies, lineAfter, pos, done :=
        ReadOnce(rb, lineAfter, input, i, beyond, replies, fed, pos, done);
      i := i + 1;
    }
    if running {
      NoChunks(input, i);
      FeedsEnd(fed, done, lineAfter, rb.Contents(), pos, rb.size - rb.read, Chunks(input[i..]), rb.size, beyond);
    }
  }

  /** One read and the replies it completes. */
  method ReadOnce(rb: RingBuffer, line: bool, input: seq<Arrival>, i: nat, beyond: seq<char>,
                  before: seq<(seq<char>, Reply)>, ghost fed: Fed, ghost pos: nat, ghost done: seq<Taking>)
    returns (running: bool, replies: seq<(seq<char>, Reply)>, lineAfter: bool, ghost posAfter: nat,
             ghost doneAfter: seq<Taking>)
    requires rb.Valid() && |beyond| >= 7 && i < |input|
    requires Under(fed, done, before, line, rb, pos, Chunks(input[i..]), beyond)
    modifies rb`read, rb`write, rb`used, rb.buffer
    ensures rb.Valid()
    ensures if running then Under(fed, doneAfter, replies, lineAfter, rb, posAfter, Chunks(input[i + 1..]), beyond)
            else fed == Fed(doneAfter, lineAfter, rb.Contents()) && replies == Replies(doneAfter)
  {
    hide Feed, Fits, Drain, Replies, FeedsOn, Chunks, RingBuffer.Contents, RingBuffer.View, Under;
    ghost var c, h, chunks := rb.Contents(), rb.size - rb.read, Chunks(input[i..]);
    UnderIs(fed, done, before, line, rb, pos, chunks, beyond);
    FirstChunk(input, i);
    replies, lineAfter, posAfter, doneAfter := before, line, pos, done;
    var n := Receive(rb, input[i]);
    running := n >= 0;
    if !running {
      FeedsEnd(fed, done, line, c, pos, h, chunks, rb.size, beyond);
      NothingAdded(c);
    } else {
      FeedsOnce(fed, done, line, c, pos, h, chunks, rb.size, beyond);
      WholeChunk(input[i], n, rb.size - |c|);
      replies, lineAfter, posAfter, doneAfter := TakeChunk(rb, line, beyond, before, fed, pos, done, c, chunks);
    }
  }

  lemma UnderIs(fed: Fed, done: seq<Taking>, replies: seq<(seq<char>, Reply)>, line: bool, rb: RingBuffer, pos: nat,
                chunks: seq<seq<char>>, beyond: seq<char>)
    requires rb.Valid() && |beyond| >= 7 && Under(fed, done, replies, line, rb, pos, chunks, beyond)
    ensures replies == Replies(done)
    ensures FeedsOn(fed, done, line, rb.Contents(), pos, rb.size - rb.read, chunks, rb.size, beyond)
  {
    hide Replies, FeedsOn;
  }

  /** The replies that the bytes read complete. */
  method TakeChunk(rb: RingBuffer, line: bool, beyond: seq<char>, before: seq<(seq<char>, Reply)>, ghost fed: Fed,
                   ghost pos: nat, ghost done: seq<Taking>, ghost c: seq<char>, ghost chunks: seq<seq<char>>)
    returns (replies: seq<(seq<char>, Reply)>, lineAfter: bool, ghost posAfter: nat, ghost doneAfter: seq<Taking>)
    requires rb.Valid() && |beyond| >= 7 && |c| < rb.size && chunks != [] && before == Replies(done)
    requires FeedsOn(fed, done, line, c, pos, rb.size - rb.read, chunks, rb.size, beyond)
    requires rb.Contents() == c + chunks[0]
    modifies rb`read, rb`write, rb`used
    ensures rb.Valid() && Under(fed, doneAfter, replies, lineAfter, rb, posAfter, chunks[1..], beyond)
  {
    hide Feed, Fits, Drain, Replies, FeedsOn, RingBuffer.Contents, RingBuffer.View, IsRest;
    ghost var now := rb.Contents();
    FeedsOnce(fed, done, line, c, pos, rb.size - rb.read, chunks, rb.size, beyond);
    var more;
    ghost var d;
    more, lineAfter, d := TakeReplies(rb, line, pos, beyond);
    RestIs(now, rb.Contents(), d.at - pos);
    RepliesOfBoth(done, d.takings);
    replies, doneAfter, posAfter := before + more, done + d.takings, d.at;
  }

  lemma RestIs(now: seq<char>, rest: seq<char>, k: nat)
    requires IsRest(rest, now) && |now| - |rest| == k
    ensures rest == now[k..]
  {
  }

  lemma NothingAdded(c: seq<char>)
    ensures c + [] == c
  {
  }

  lemma WholeChunk(arrival: Arrival, n: nat, room: nat)
    requires !arrival.Failed? && n == if arrival.Interrupted? then 0 else Min(|arrival.bytes|, room)
    requires arrival.Arrived? ==> |arrival.bytes| <= room
    ensures (if n > 0 then arrival.bytes[..n] else []) == if arrival.Arrived? then arrival.bytes else []
  {
  }

  lemma NoChunks(input: seq<Arrival>, i: nat)
    requires i == |input|
    ensures Chunks(input[i..]) == []
  {
  }
}
