/** The frames that carry subtitle messages between processes, and the incremental decoder as
    a function on the bytes received so far. */
module Framing {
  import opened Bytes

  const START_FLAG: nat := 0xF0D0C0B1
  const MAGIC_FLAG: nat := 0xCFFFFFFB
  const HEADER_SIZE: nat := 20
  /** A package type and its payload. */
  datatype Message = Message(pkgType: nat, payload: seq<byte>)

  predicate ValidMessage(m: Message) {
    m.pkgType < TWO_32 && |m.payload| <= MAX_INT
  }

  function HeaderValues(sessionId: int, m: Message): (vs: seq<int>)
    ensures |vs| == 5
  {
    [START_FLAG, sessionId, MAGIC_FLAG, |m.payload|, m.pkgType]
  }

  function Frame(sessionId: int, m: Message): (f: seq<byte>)
    ensures |f| == HEADER_SIZE + |m.payload|
  {
    Words(HeaderValues(sessionId, m)) + m.payload
  }

  function Frames(sessionId: int, ms: seq<Message>): seq<byte> {
    if ms == [] then [] else Frame(sessionId, ms[0]) + Frames(sessionId, ms[1..])
  }

  /** What the listener is given for a message: the type word and the payload. */
  function Delivery(m: Message): seq<byte> {
    Word(m.pkgType) + m.payload
  }

  function Deliveries(ms: seq<Message>): seq<seq<byte>> {
    if ms == [] then [] else [Delivery(ms[0])] + Deliveries(ms[1..])
  }

  // ---- The decoder ----

  datatype Verdict = NeedMore | SkipWord | EatHeader | Deliver(size: nat)

  /** A 32-bit word read as a signed int. */
  function Signed(w: nat): int {
    if w > MAX_INT then w - TWO_32 else w
  }

  /** What the decoder does with the bytes in front of it.  A negative size is compared as an
      unsigned sum: down to -20 it passes and no buffer can be allocated, below it never does. */
  function Look(b: seq<byte>): (v: Verdict)
    ensures v.Deliver? ==> HEADER_SIZE + v.size <= |b|
    ensures v != NeedMore ==> |b| > HEADER_SIZE
  {
    if |b| <= HEADER_SIZE then NeedMore
    else LookAtWords(|b|, PeekWord(b), PeekWord(b[8..]), PeekWord(b[12..]))
  }

  function LookAtWords(n: nat, sync: nat, magic: nat, sizeWord: nat): (v: Verdict)
    ensures v.Deliver? ==> HEADER_SIZE + v.size <= n
  {
    if sync != START_FLAG && magic != MAGIC_FLAG then SkipWord
    else
      var size := Signed(sizeWord);
      if size < 0 then (if size >= -20 then EatHeader else NeedMore)
      else if n < HEADER_SIZE + size then NeedMore
      else Deliver(size)
  }

  datatype Drained = Drained(out: seq<seq<byte>>, rest: seq<byte>)

  /** How many bytes the decoder takes from the front. */
  function Eaten(b: seq<byte>): (n: nat)
    ensures n <= |b| && (Look(b) != NeedMore ==> n > 0)
  {
    match Look(b)
    case NeedMore => 0
    case SkipWord => 4
    case EatHeader => HEADER_SIZE
    case Deliver(size) => HEADER_SIZE + size
  }

  /** What it delivers from them: the package type word and the payload. */
  function Emitted(b: seq<byte>): seq<seq<byte>> {
    match Look(b)
    case Deliver(size) => [b[16..HEADER_SIZE + size]]
    case _ => []
  }

  /** The inner loop of the receiver: deliveries, and the bytes that stay in the buffer. */
  function Drain(b: seq<byte>): Drained
    decreases |b|
  {
    if Look(b) == NeedMore then Drained([], b)
    else
      var d := Drain(b[Eaten(b)..]);
      Drained(Emitted(b) + d.out, d.rest)
  }

  /** One pass of the decoder over more than a header, in terms of the words in front: a word is
      skipped when neither flag is in its place; one flag is enough for a header; a header with a
      length a little below zero is dropped alone; and any other length is waited for. */
  lemma DecoderRule(b: seq<byte>)
    requires |b| > 20
    ensures var size := Signed(PeekWord(b[12..]));
            if PeekWord(b) != 0xF0D0C0B1 && PeekWord(b[8..]) != 0xCFFFFFFB then Drain(b) == Drain(b[4..])
            else if -20 <= size < 0 then Drain(b) == Drain(b[20..])
            else if 0 <= size <= |b| - 20 then
              && Drain(b).out == [b[16..20 + size]] + Drain(b[20 + size..]).out
              && Drain(b).rest == Drain(b[20 + size..]).rest
            else Drain(b) == Drained([], b)
  {
    var size := Signed(PeekWord(b[12..]));
    assert Look(b) == LookAtWords(|b|, PeekWord(b), PeekWord(b[8..]), PeekWord(b[12..]));
    match Look(b)
    case NeedMore =>
    case SkipWord => DrainsBehind(b, 4);
    case EatHeader => DrainsBehind(b, 20);
    case Deliver(n) => assert n == size;
  }

  lemma DrainsBehind(b: seq<byte>, n: nat)
    requires Look(b) != NeedMore && Emitted(b) == [] && Eaten(b) == n
    ensures n <= |b| && Drain(b) == Drain(b[n..])
  {
    var d := Drain(b[n..]);
    assert [] + d.out == d.out;
    assert Drain(b) == Drained(Emitted(b) + d.out, d.rest);
  }

  // ---- Draining in pieces is draining at once ----

  /** The words at a place that both byte strings have in common. */
  lemma PeekIn(p: seq<byte>, f: seq<byte>, i: nat)
    requires p <= f && i + 4 <= |p|
    ensures PeekWord(p[i..]) == PeekWord(f[i..])
  {
    assert p[i..][..4] == f[i..][..4];
  }

  lemma LookIsStable(a: seq<byte>, b: seq<byte>)
    requires Look(a) != NeedMore
    ensures Look(a + b) == Look(a)
  {
    assert a <= a + b;
    PeekIn(a, a + b, 0);
    PeekIn(a, a + b, 8);
    PeekIn(a, a + b, 12);
    assert a[0..] == a && (a + b)[0..] == a + b;
  }

  lemma StepIsStable(a: seq<byte>, b: seq<byte>)
    requires Look(a) != NeedMore
    ensures Look(a + b) == Look(a)
    ensures Eaten(a + b) == Eaten(a) && Emitted(a + b) == Emitted(a)
    ensures (a + b)[Eaten(a)..] == a[Eaten(a)..] + b
  {
    LookIsStable(a, b);
    match Look(a)
    case Deliver(size) => assert (a + b)[16..HEADER_SIZE + size] == a[16..HEADER_SIZE + size];
    case _ =>
  }

  /** More bytes never change what was delivered; they go on where the decoder stopped. */
  lemma {:induction false} DrainInPieces(a: seq<byte>, b: seq<byte>)
    ensures Drain(a + b).out == Drain(a).out + Drain(Drain(a).rest + b).out
    ensures Drain(a + b).rest == Drain(Drain(a).rest + b).rest
    decreases |a|
  {
    if Look(a) != NeedMore {
      StepIsStable(a, b);
      var tail := a[Eaten(a)..];
      DrainInPieces(tail, b);
      ConcatIsAssociative(Emitted(a), Drain(tail).out, Drain(Drain(tail).rest + b).out);
    }
  }

  /** A header whose length is below -20 is never got past, whatever comes behind it. */
  lemma BadLengthBlocks(b: seq<byte>, more: seq<byte>)
    requires |b| >= 20 && |b + more| > 20 && Signed(PeekWord(b[12..])) < -20
    requires PeekWord(b) == START_FLAG || PeekWord(b[8..]) == MAGIC_FLAG
    ensures Drain(b + more) == Drained([], b + more)
  {
    var all := b + more;
    PeekIn(b, all, 0);
    PeekIn(b, all, 8);
    PeekIn(b, all, 12);
    assert b[0..] == b && all[0..] == all;
    DecoderRule(all);
  }

  // ---- Frames are decoded exactly ----

  lemma HeaderWord(sessionId: int, m: Message, tail: seq<byte>, i: nat)
    requires i < 5
    ensures var b := (Frame(sessionId, m) + tail)[4 * i..];
            PeekWord(b) == HeaderValues(sessionId, m)[i] % TWO_32 && b[..4] == Word(HeaderValues(sessionId, m)[i])
  {
    WordAt(HeaderValues(sessionId, m), i, m.payload + tail);
    ConcatIsAssociative(Words(HeaderValues(sessionId, m)), m.payload, tail);
  }

  lemma HeaderSync(sessionId: int, m: Message, tail: seq<byte>)
    ensures PeekWord(Frame(sessionId, m) + tail) == START_FLAG
  {
    var b := Frame(sessionId, m) + tail;
    HeaderWord(sessionId, m, tail, 0);
    assert b[0..] == b;
  }

  lemma HeaderSize(sessionId: int, m: Message, tail: seq<byte>)
    requires ValidMessage(m)
    ensures PeekWord((Frame(sessionId, m) + tail)[12..]) == |m.payload|
  {
    HeaderWord(sessionId, m, tail, 3);
    assert HeaderValues(sessionId, m)[3] == |m.payload|;
  }

  /** The bytes that must be there before a frame is taken: the decoder wants more than a
      header, so a frame without payload waits for the first byte behind it. */
  function Needed(m: Message): nat {
    if m.payload == [] then HEADER_SIZE + 1 else HEADER_SIZE + |m.payload|
  }

  /** A complete frame is delivered. */
  lemma LookAtFrame(sessionId: int, m: Message, tail: seq<byte>)
    requires ValidMessage(m) && (m.payload != [] || tail != [])
    ensures Look(Frame(sessionId, m) + tail) == Deliver(|m.payload|)
  {
    var b := Frame(sessionId, m) + tail;
    HeaderSync(sessionId, m, tail);
    HeaderSize(sessionId, m, tail);
    assert LookAtWords(|b|, START_FLAG, PeekWord(b[8..]), |m.payload|) == Deliver(|m.payload|);
  }

  lemma DrainFrame(sessionId: int, m: Message, tail: seq<byte>)
    requires ValidMessage(m) && (m.payload != [] || tail != [])
    ensures Drain(Frame(sessionId, m) + tail).out == [Delivery(m)] + Drain(tail).out
    ensures Drain(Frame(sessionId, m) + tail).rest == Drain(tail).rest
  {
    var b := Frame(sessionId, m) + tail;
    LookAtFrame(sessionId, m, tail);
    HeaderWord(sessionId, m, tail, 4);
    assert b[HEADER_SIZE + |m.payload|..] == tail;
    assert b[16..HEADER_SIZE + |m.payload|] == b[16..][..4] + m.payload;
  }

  lemma IncompleteFrame(sessionId: int, m: Message, p: seq<byte>)
    requires ValidMessage(m) && p <= Frame(sessionId, m) && |p| < Needed(m)
    ensures Look(p) == NeedMore
  {
    if |p| > HEADER_SIZE {
      var f := Frame(sessionId, m);
      assert f + [] == f;
      HeaderSync(sessionId, m, []);
      HeaderSize(sessionId, m, []);
      PeekIn(p, f, 0);
      PeekIn(p, f, 12);
      assert p[0..] == p && f[0..] == f;
    }
  }

  /** A frame that is not complete delivers nothing and stays in the buffer. */
  lemma IncompleteFrameWaits(sessionId: int, m: Message, p: seq<byte>)
    requires ValidMessage(m) && p <= Frame(sessionId, m) && |p| < Needed(m)
    ensures Drain(p) == Drained([], p)
  {
    IncompleteFrame(sessionId, m, p);
  }

  predicate Sendable(ms: seq<Message>) {
    forall i :: 0 <= i < |ms| ==> ValidMessage(ms[i])
  }

  /** How many frames of the list are complete within the first `n` bytes of the stream. */
  function Complete(ms: seq<Message>, n: int): (k: nat)
    ensures k <= |ms|
  {
    if ms == [] || n < Needed(ms[0]) then 0
    else 1 + Complete(ms[1..], n - HEADER_SIZE - |ms[0].payload|)
  }

  /** The count is right: that many frames fit, and the next does not. */
  lemma {:induction false} CompleteMeansComplete(sessionId: int, ms: seq<Message>, n: nat)
    ensures var k := Complete(ms, n);
            && |Frames(sessionId, ms[..k])| <= n
            && (k < |ms| ==> n < |Frames(sessionId, ms[..k])| + Needed(ms[k]))
  {
    var k := Complete(ms, n);
    if k > 0 {
      CompleteMeansComplete(sessionId, ms[1..], n - HEADER_SIZE - |ms[0].payload|);
      assert ms[..k][1..] == ms[1..][..k-1];
    }
  }

  lemma PrefixOfConcat(f: seq<byte>, rest: seq<byte>, p: seq<byte>)
    requires p <= f + rest
    ensures |p| <= |f| ==> p <= f
    ensures |p| >= |f| ==> p == f + p[|f|..] && p[|f|..] <= rest
  {
    var s := f + rest;
    assert p == s[..|p|];
    if |p| <= |f| {
      assert s[..|p|] == f[..|p|];
    } else {
      assert s[..|p|] == f + rest[..|p|-|f|];
    }
  }

  /** From the first bytes of a stream of frames, the decoder delivers exactly the complete
      frames, in order, and keeps exactly the bytes behind them. */
  lemma {:induction false} DrainPrefix(sessionId: int, ms: seq<Message>, p: seq<byte>)
    requires Sendable(ms) && p <= Frames(sessionId, ms)
    ensures Drain(p).out == Deliveries(ms[..Complete(ms, |p|)])
    ensures p == Frames(sessionId, ms[..Complete(ms, |p|)]) + Drain(p).rest
    decreases |ms|
  {
    if ms == [] {
      assert p == [] && ms[..0] == [];
    } else {
      var f, rest := Frame(sessionId, ms[0]), Frames(sessionId, ms[1..]);
      PrefixOfConcat(f, rest, p);
      if |p| < Needed(ms[0]) {
        IncompleteFrameWaits(sessionId, ms[0], p);
        assert ms[..0] == [];
      } else {
        DrainPrefixStep(sessionId, ms, p, p[|f|..]);
      }
    }
  }

  lemma {:induction false} DrainPrefixStep(sessionId: int, ms: seq<Message>, p: seq<byte>, q: seq<byte>)
    requires ms != [] && Sendable(ms) && p == Frame(sessionId, ms[0]) + q && q <= Frames(sessionId, ms[1..])
    requires |p| >= Needed(ms[0])
    ensures Drain(p).out == Deliveries(ms[..Complete(ms, |p|)])
    ensures p == Frames(sessionId, ms[..Complete(ms, |p|)]) + Drain(p).rest
    decreases |ms|, 0
  {
    DrainPrefix(sessionId, ms[1..], q);
    DrainOneMore(sessionId, ms, q, Complete(ms[1..], |q|));
    assert Complete(ms, |p|) == 1 + Complete(ms[1..], |q|);
  }

  lemma DrainOneMore(sessionId: int, ms: seq<Message>, q: seq<byte>, k: nat)
    requires k < |ms| && ValidMessage(ms[0]) && (ms[0].payload != [] || q != [])
    requires Drain(q).out == Deliveries(ms[1..][..k]) && q == Frames(sessionId, ms[1..][..k]) + Drain(q).rest
    ensures Drain(Frame(sessionId, ms[0]) + q).out == Deliveries(ms[..1 + k])
    ensures Frame(sessionId, ms[0]) + q == Frames(sessionId, ms[..1 + k]) + Drain(Frame(sessionId, ms[0]) + q).rest
  {
    DrainFrame(sessionId, ms[0], q);
    FirstOfSome(sessionId, ms, k);
    ConcatIsAssociative(Frame(sessionId, ms[0]), Frames(sessionId, ms[1..][..k]), Drain(q).rest);
  }

  lemma FirstOfSome(sessionId: int, ms: seq<Message>, k: nat)
    requires k < |ms|
    ensures Deliveries(ms[..1 + k]) == [Delivery(ms[0])] + Deliveries(ms[1..][..k])
    ensures Frames(sessionId, ms[..1 + k]) == Frame(sessionId, ms[0]) + Frames(sessionId, ms[1..][..k])
  {
    assert ms[..1 + k][1..] == ms[1..][..k];
  }

  // ---- Resynchronisation ----

  /** A run of whole words, none of which is one of the two flags. */
  predicate Junk(j: seq<byte>) {
    j != [] ==> |j| >= 4 && PeekWord(j) != START_FLAG && PeekWord(j) != MAGIC_FLAG && Junk(j[4..])
  }

  /** The word eight bytes on is another junk word, or the first or second word of a frame. */
  lemma ThirdWord(j: seq<byte>, sessionId: int, m: Message, tail: seq<byte>)
    requires j != [] && Junk(j) && sessionId % TWO_32 != MAGIC_FLAG
    ensures var s := j + (Frame(sessionId, m) + tail);
            PeekWord(s[8..]) != MAGIC_FLAG
  {
    var f := Frame(sessionId, m) + tail;
    var s := j + f;
    assert Junk(j[4..]);
    if |j| == 4 {
      HeaderWord(sessionId, m, tail, 1);
      assert s[8..] == f[4..];
    } else if |j| == 8 {
      HeaderWord(sessionId, m, tail, 0);
      assert s[8..] == f[0..];
    } else {
      assert Junk(j[4..][4..]) && j[4..][4..] == j[8..];
      assert |j| >= 12 && PeekWord(j[8..]) != MAGIC_FLAG;
      PeekIn(j, s, 8);
    }
  }

  /** A leading run of junk words is skipped, and every complete frame behind it is delivered,
      whatever prefix of the stream has arrived. */
  lemma {:induction false} DrainSkipsJunk(j: seq<byte>, sessionId: int, ms: seq<Message>, p: seq<byte>)
    requires Junk(j) && ms != [] && Sendable(ms) && sessionId % TWO_32 != MAGIC_FLAG
    requires p <= j + Frames(sessionId, ms)
    ensures Drain(p).out == Deliveries(ms[..Complete(ms, |p| - |j|)])
    decreases |j|, 1
  {
    if j == [] {
      NoJunk(sessionId, ms, p);
    } else if |p| <= HEADER_SIZE {
      NothingYet(ms, |p| - |j|);
    } else {
      SkipsOneWord(j, sessionId, ms, p);
      DrainAfterSkip(p, p[4..]);
      DrainSkipsMore(j, j[4..], sessionId, ms, p, p[4..]);
    }
  }

  lemma {:induction false} DrainSkipsMore(j: seq<byte>, k: seq<byte>, sessionId: int, ms: seq<Message>, p: seq<byte>,
                                          q: seq<byte>)
    requires Junk(k) && ms != [] && Sendable(ms) && sessionId % TWO_32 != MAGIC_FLAG
    requires |j| == |k| + 4 && |p| == |q| + 4 && q <= k + Frames(sessionId, ms)
    ensures Drain(q).out == Deliveries(ms[..Complete(ms, |p| - |j|)])
    decreases |j|, 0
  {
    DrainSkipsJunk(k, sessionId, ms, q);
    assert |q| - |k| == |p| - |j|;
  }

  lemma NoJunk(sessionId: int, ms: seq<Message>, p: seq<byte>)
    requires Sendable(ms) && p <= [] + Frames(sessionId, ms)
    ensures Drain(p).out == Deliveries(ms[..Complete(ms, |p|)])
  {
    assert [] + Frames(sessionId, ms) == Frames(sessionId, ms);
    DrainPrefix(sessionId, ms, p);
  }

  lemma NothingYet(ms: seq<Message>, n: int)
    requires n < HEADER_SIZE
    ensures Deliveries(ms[..Complete(ms, n)]) == []
  {
    assert ms[..0] == [];
  }

  lemma DrainAfterSkip(p: seq<byte>, q: seq<byte>)
    requires Look(p) == SkipWord && q == p[4..]
    ensures Drain(p).out == Drain(q).out
  {
    assert Emitted(p) == [] && Eaten(p) == 4;
  }

  lemma SkipsOneWord(j: seq<byte>, sessionId: int, ms: seq<Message>, p: seq<byte>)
    requires j != [] && Junk(j) && ms != [] && sessionId % TWO_32 != MAGIC_FLAG
    requires p <= j + Frames(sessionId, ms) && |p| > HEADER_SIZE
    ensures Look(p) == SkipWord
    ensures p[4..] <= j[4..] + Frames(sessionId, ms)
  {
    var s := j + Frames(sessionId, ms);
    ThirdWord(j, sessionId, ms[0], Frames(sessionId, ms[1..]));
    PeekIn(p, s, 8);
    assert p[..4] == j[..4];
    assert s[4..] == j[4..] + Frames(sessionId, ms);
    assert p[4..] == s[4..|p|];
  }

  /** One junk word in front of a frame is skipped exactly when the session id, which the
      decoder then sees in the place of the second flag, is not that flag. */
  lemma JunkIsSkippedIff(j: seq<byte>, sessionId: int, m: Message)
    requires |j| == 4 && PeekWord(j) != START_FLAG
    ensures Look(j + Frame(sessionId, m)) == SkipWord <==> sessionId % TWO_32 != MAGIC_FLAG
  {
    var f := Frame(sessionId, m);
    assert f + [] == f;
    HeaderWord(sessionId, m, [], 1);
    assert (j + f)[8..] == f[4..] && (j + f)[..4] == j[..4];
  }

}
