/** The receiving thread: reads whatever the queue holds, and hands complete packages to the
    listener. */
module FmqReceiver {
  import opened Bytes
  import opened Framing

  /** The capacity of the receiver's ring buffer. */
  const RING_SIZE: nat := 0x10_0000

  /** The size test adds a signed size to an unsigned header size. */
  lemma SizeTest(n: nat, dataSize: int)
    requires HEADER_SIZE < n <= RING_SIZE && -0x8000_0000 <= dataSize <= MAX_INT
    ensures n < (HEADER_SIZE + dataSize) % TWO_32 <==> dataSize < -20 || n < HEADER_SIZE + dataSize
  {
    if dataSize < -20 {
      assert (HEADER_SIZE + dataSize) % TWO_32 == HEADER_SIZE + dataSize + TWO_32;
    }
  }

  lemma Skipping(b: seq<byte>)
    requires Look(b) == SkipWord
    ensures Drain(b) == Drain(b[4..])
  {
    assert Emitted(b) == [];
  }

  lemma EatingHeader(b: seq<byte>)
    requires Look(b) == EatHeader
    ensures Drain(b) == Drain(b[HEADER_SIZE..])
  {
    assert Emitted(b) == [];
  }

  lemma Delivering(b: seq<byte>, size: nat, calls: seq<seq<byte>>)
    requires Look(b) == Deliver(size)
    ensures calls + Drain(b).out == calls + [b[16..HEADER_SIZE + size]] + Drain(b[HEADER_SIZE + size..]).out
    ensures Drain(b).rest == Drain(b[HEADER_SIZE + size..]).rest
  {
    ConcatIsAssociative(calls, [b[16..HEADER_SIZE + size]], Drain(b[HEADER_SIZE + size..]).out);
  }

  /** Takes complete packages from the ring buffer, as long as there are any. */
  method Consume(ring: seq<byte>) returns (calls: seq<seq<byte>>, left: seq<byte>)
    requires |ring| <= RING_SIZE
    ensures calls == Drain(ring).out && left == Drain(ring).rest
  {
    calls, left := [], ring;
    while |left| > HEADER_SIZE
      invariant |left| <= RING_SIZE
      invariant Drain(ring).out == calls + Drain(left).out
      invariant Drain(ring).rest == Drain(left).rest
      decreases |left|
    {
      var sync, magic := PeekAsSocketWord(left), PeekAsSocketWord(left[8..]);
      if sync != START_FLAG && magic != MAGIC_FLAG {
        Skipping(left);
        left := left[4..];
        continue;
      }
      var dataSize := Signed(PeekAsSocketWord(left[12..]));
      SizeTest(|left|, dataSize);
      if |left| < (HEADER_SIZE + dataSize) % TWO_32 {
        assert Look(left) == NeedMore;
        break;
      }
      if dataSize < 0 {
        // No buffer of that size can be had: only the header is gone.
        EatingHeader(left);
        left := left[HEADER_SIZE..];
        continue;
      }
      Delivering(left, dataSize, calls);
      calls := calls + [left[16..HEADER_SIZE + dataSize]];
      left := left[HEADER_SIZE + dataSize..];
    }
  }

  // ---- The reading thread ----

  /** The pieces one after the other. */
  function Concat<T>(pieces: seq<seq<T>>): seq<T> {
    if pieces == [] then [] else Concat(pieces[..|pieces|-1]) + pieces[|pieces|-1]
  }

  /** Every arrival fits the space that the ring buffer has left then. */
  predicate Fits(arrivals: seq<seq<byte>>) {
    forall k :: 0 <= k < |arrivals| ==> |Drain(Concat(arrivals[..k])).rest| + |arrivals[k]| <= RING_SIZE
  }

  lemma ConcatStep<T>(pieces: seq<seq<T>>, k: nat)
    requires k < |pieces|
    ensures Concat(pieces[..k+1]) == Concat(pieces[..k]) + pieces[k]
  {
    assert pieces[..k+1][..k] == pieces[..k];
  }

  lemma ConcatAppend<T>(pieces: seq<seq<T>>, p: seq<T>)
    ensures Concat(pieces + [p]) == Concat(pieces) + p
  {
    assert (pieces + [p])[..|pieces|] == pieces;
  }

  /** The calls after some arrivals are what the decoder makes of their bytes. */
  ghost predicate InStep(arrivals: seq<seq<byte>>, calls: seq<seq<seq<byte>>>, k: nat)
    requires k <= |arrivals| && k <= |calls|
  {
    Concat(calls[..k]) == Drain(Concat(arrivals[..k])).out
  }

  /** The thread's loop, one pass for each arrival of bytes: `calls[k]` are the packages handed
      over in pass `k`.  After each pass, they are exactly what decoding all the bytes at once
      would have given. */
  method ReadLoop(arrivals: seq<seq<byte>>) returns (calls: seq<seq<seq<byte>>>)
    requires Fits(arrivals)
    ensures |calls| == |arrivals|
    ensures forall k :: 0 <= k <= |arrivals| ==> InStep(arrivals, calls, k)
  {
    calls := [];
    var ring: seq<byte> := [];
    for i := 0 to |arrivals|
      invariant |calls| == i
      invariant ring == Drain(Concat(arrivals[..i])).rest
      invariant forall k :: 0 <= k <= i ==> InStep(arrivals, calls, k)
    {
      ghost var before := calls;
      DrainInPieces(Concat(arrivals[..i]), arrivals[i]);
      ConcatStep(arrivals, i);
      var pass: seq<seq<byte>>;
      pass, ring := Consume(ring + arrivals[i]);
      calls := calls + [pass];
      NextInStep(arrivals, before, pass, i);
    }
  }

  lemma NextInStep(arrivals: seq<seq<byte>>, calls: seq<seq<seq<byte>>>, pass: seq<seq<byte>>, i: nat)
    requires |calls| == i < |arrivals|
    requires forall k :: 0 <= k <= i ==> InStep(arrivals, calls, k)
    requires pass == Drain(Drain(Concat(arrivals[..i])).rest + arrivals[i]).out
    ensures forall k :: 0 <= k <= i + 1 ==> InStep(arrivals, calls + [pass], k)
  {
    forall k | 0 <= k <= i + 1 ensures InStep(arrivals, calls + [pass], k) {
      if k <= i {
        assert InStep(arrivals, calls, k) && (calls + [pass])[..k] == calls[..k];
      } else {
        LastInStep(arrivals, calls, pass);
      }
    }
  }

  lemma LastInStep(arrivals: seq<seq<byte>>, calls: seq<seq<seq<byte>>>, pass: seq<seq<byte>>)
    requires |calls| < |arrivals| && InStep(arrivals, calls, |calls|)
    requires pass == Drain(Drain(Concat(arrivals[..|calls|])).rest + arrivals[|calls|]).out
    ensures InStep(arrivals, calls + [pass], |calls| + 1)
  {
    var i := |calls|;
    assert calls[..i] == calls && (calls + [pass])[..i + 1] == calls + [pass];
    ConcatAppend(calls, pass);
    ConcatStep(arrivals, i);
    DrainInPieces(Concat(arrivals[..i]), arrivals[i]);
  }

  lemma {:induction false} ConcatPrefix<T>(pieces: seq<seq<T>>, k: nat)
    requires k <= |pieces|
    ensures Concat(pieces[..k]) <= Concat(pieces)
  {
    if k == |pieces| {
      assert pieces[..k] == pieces;
    } else {
      var butLast := pieces[..|pieces|-1];
      ConcatPrefix(butLast, k);
      assert butLast[..k] == pieces[..k];
    }
  }

  /** However the frames are cut, each pass has handed over exactly the packages complete so
      far, in order; junk words in front are skipped. */
  lemma AnyFragmentation(j: seq<byte>, sessionId: int, ms: seq<Message>, arrivals: seq<seq<byte>>,
                         calls: seq<seq<seq<byte>>>, k: nat, arrived: seq<byte>)
    requires Junk(j) && Sendable(ms) && ms != [] && sessionId % TWO_32 != MAGIC_FLAG
    requires Concat(arrivals) <= j + Frames(sessionId, ms)
    requires k <= |arrivals| && k <= |calls| && InStep(arrivals, calls, k)
    requires arrived == Concat(arrivals[..k])
    ensures Concat(calls[..k]) == Deliveries(ms[..Complete(ms, |arrived| - |j|)])
  {
    ArrivedPrefix(j, sessionId, ms, arrivals, k);
    DrainedPrefix(j, sessionId, ms, arrived, Concat(calls[..k]));
  }

  lemma ArrivedPrefix(j: seq<byte>, sessionId: int, ms: seq<Message>, arrivals: seq<seq<byte>>, k: nat)
    requires k <= |arrivals| && Concat(arrivals) <= j + Frames(sessionId, ms)
    ensures Concat(arrivals[..k]) <= j + Frames(sessionId, ms)
  {
    ConcatPrefix(arrivals, k);
  }

  lemma DrainedPrefix(j: seq<byte>, sessionId: int, ms: seq<Message>, p: seq<byte>, out: seq<seq<byte>>)
    requires Junk(j) && Sendable(ms) && ms != [] && sessionId % TWO_32 != MAGIC_FLAG
    requires p <= j + Frames(sessionId, ms) && out == Drain(p).out
    ensures out == Deliveries(ms[..Complete(ms, |p| - |j|)])
  {
    DrainSkipsJunk(j, sessionId, ms, p);
  }

  /** Junk words in front of a stream are skipped when frames follow and the session id is not
      the second flag. */
  predicate Skippable(j: seq<byte>, sessionId: int, ms: seq<Message>) {
    j != [] ==> Junk(j) && ms != [] && sessionId % TWO_32 != MAGIC_FLAG
  }

  /** What is kept between passes is at most one frame, so arrivals that leave room for the
      longest frame always fit, also behind junk. */
  lemma FramesFit(j: seq<byte>, sessionId: int, ms: seq<Message>, arrivals: seq<seq<byte>>, longest: nat)
    requires Sendable(ms) && Skippable(j, sessionId, ms) && Concat(arrivals) <= j + Frames(sessionId, ms)
    requires forall i :: 0 <= i < |ms| ==> Needed(ms[i]) <= longest
    requires forall k :: 0 <= k < |arrivals| ==> longest + |arrivals[k]| <= RING_SIZE
    ensures Fits(arrivals)
  {
    forall k | 0 <= k < |arrivals|
      ensures |Drain(Concat(arrivals[..k])).rest| + |arrivals[k]| <= RING_SIZE
    {
      ConcatPrefix(arrivals, k);
      KeepsAtMostAFrame(j, sessionId, ms, Concat(arrivals[..k]), longest);
    }
  }

  lemma {:induction false} KeepsAtMostAFrame(j: seq<byte>, sessionId: int, ms: seq<Message>, p: seq<byte>, longest: nat)
    requires Sendable(ms) && Skippable(j, sessionId, ms) && p <= j + Frames(sessionId, ms)
    requires forall i :: 0 <= i < |ms| ==> Needed(ms[i]) <= longest
    ensures |Drain(p).rest| <= longest
    decreases |j|
  {
    if j == [] {
      assert [] + Frames(sessionId, ms) == Frames(sessionId, ms);
      KeepsLessThanAFrame(sessionId, ms, p, longest);
    } else if |p| <= HEADER_SIZE {
      assert Drain(p).rest == p && Needed(ms[0]) <= longest;
    } else {
      SkipsOneWord(j, sessionId, ms, p);
      assert Drain(p).rest == Drain(p[4..]).rest;
      KeepsAtMostAFrame(j[4..], sessionId, ms, p[4..], longest);
    }
  }

  lemma KeepsLessThanAFrame(sessionId: int, ms: seq<Message>, p: seq<byte>, longest: nat)
    requires Sendable(ms) && p <= Frames(sessionId, ms)
    requires forall i :: 0 <= i < |ms| ==> Needed(ms[i]) <= longest
    ensures |Drain(p).rest| <= longest
  {
    var k := Complete(ms, |p|);
    DrainPrefix(sessionId, ms, p);
    CompleteMeansComplete(sessionId, ms, |p|);
    if k < |ms| {
      assert Needed(ms[k]) <= longest;
    } else {
      assert ms[..k] == ms;
    }
  }

}
