/** The ring buffer that carries user-data packets from the driver thread to the reader: bytes in
    an array that wraps, each packet behind its length. */
module PacketRing {
  import opened Bytes

  // ---- Bytes in a ring ----

  /** The place `n` steps on, around the end of the array. */
  function Next(size: nat, at: nat, n: nat): (p: nat)
    requires at < size && n <= size
    ensures p < size
  {
    if at + n < size then at + n else at + n - size
  }

  /** `n` bytes from place `at` on. */
  function Around(d: seq<byte>, at: nat, n: nat): (b: seq<byte>)
    requires at < |d| && n <= |d|
    ensures |b| == n
    ensures forall i :: 0 <= i < n ==> b[i] == d[Next(|d|, at, i)]
  {
    if at + n <= |d| then d[at..at + n] else d[at..] + d[..at + n - |d|]
  }

  function Copied(d: seq<byte>, at: nat, src: seq<byte>): (e: seq<byte>)
    requires at + |src| <= |d|
    ensures |e| == |d|
  {
    d[..at] + src + d[at + |src|..]
  }

  /** The array after bytes were stored from place `at` on and, if they go past the end, to its start. */
  function Stored(d: seq<byte>, at: nat, b: seq<byte>): (e: seq<byte>)
    requires at < |d| && |b| <= |d|
    ensures |e| == |d|
  {
    if at + |b| <= |d| then Copied(d, at, b)
    else b[|d| - at..] + d[at + |b| - |d|..at] + b[..|d| - at]
  }

  lemma TwoCopies(d: seq<byte>, at: nat, b: seq<byte>)
    requires at < |d| && |b| <= |d| < at + |b|
    ensures Copied(Copied(d, at, b[..|d| - at]), 0, b[|d| - at..]) == Stored(d, at, b)
  {
  }

  lemma AroundSplit(d: seq<byte>, at: nat, m: nat, n: nat)
    requires at < |d| && m + n <= |d|
    ensures Around(d, at, m + n) == Around(d, at, m) + Around(d, Next(|d|, at, m), n)
  {
  }

  lemma StoredIsThere(d: seq<byte>, w: nat, b: seq<byte>)
    requires w < |d| && |b| <= |d|
    ensures Around(Stored(d, w, b), w, |b|) == b
  {
  }

  /** Storing changes no place outside. */
  lemma StoredElsewhere(d: seq<byte>, at: nat, b: seq<byte>, p: nat)
    requires at < |d| && |b| <= |d| && p < |d|
    requires if at + |b| <= |d| then p < at || p >= at + |b| else at + |b| - |d| <= p < at
    ensures Stored(d, at, b)[p] == d[p]
  {
  }

  lemma StoredKeeps(d: seq<byte>, r: nat, n: nat, b: seq<byte>)
    requires r < |d| && n + |b| <= |d|
    ensures Around(Stored(d, Next(|d|, r, n), b), r, n) == Around(d, r, n)
  {
    var e := Stored(d, Next(|d|, r, n), b);
    forall i | 0 <= i < n ensures Around(e, r, n)[i] == Around(d, r, n)[i] {
      StoredElsewhere(d, Next(|d|, r, n), b, Next(|d|, r, i));
    }
  }

  /** Storing behind `n` bytes keeps them and adds the new ones. */
  lemma StoredAround(d: seq<byte>, r: nat, n: nat, b: seq<byte>)
    requires r < |d| && n + |b| <= |d|
    ensures Around(Stored(d, Next(|d|, r, n), b), r, n + |b|) == Around(d, r, n) + b
  {
    AroundSplit(Stored(d, Next(|d|, r, n), b), r, n, |b|);
    StoredIsThere(d, Next(|d|, r, n), b);
    StoredKeeps(d, r, n, b);
  }

  lemma Modulo(p: nat, size: nat)
    requires p <= size && size > 0
    ensures p % size == if p == size then 0 else p
  {
  }

  class RingBuffer {
    const data: array<byte>
    var pread: nat
    var pwrite: nat

    predicate Valid()
      reads this
    {
      data.Length > 0 && pread < data.Length && pwrite < data.Length
    }

    /** The bytes written and not read, in order. */
    function Contents(): (b: seq<byte>)
      reads this, data
      requires Valid()
      ensures |b| == Avail()
    {
      Around(data[..], pread, Avail())
    }

    constructor (size: nat)
      requires size > 0
      ensures Valid() && fresh(data) && data.Length == size && Contents() == []
    {
      data := new byte[size](_ => 0);
      pread, pwrite := 0, 0;
    }

    /** One place is never used, so that a full ring differs from an empty one. */
    function Free(): (n: nat)
      reads this
      requires Valid()
      ensures n + Avail() == data.Length - 1
    {
      var free: int := pread - pwrite;
      (if free <= 0 then free + data.Length else free) - 1
    }

    function Avail(): (n: nat)
      reads this
      requires Valid()
      ensures n < data.Length
    {
      var avail: int := pwrite - pread;
      if avail < 0 then avail + data.Length else avail
    }

    /** `memcpy` into the array. */
    method Copy(at: nat, src: seq<byte>)
      requires at + |src| <= data.Length
      modifies data
      ensures data[..] == Copied(old(data[..]), at, src)
    {
      for i := 0 to |src|
        invariant data[..] == old(data[..at]) + src[..i] + old(data[at + i..])
      {
        data[at + i] := src[i];
      }
    }

    /** Takes bytes out, in two copies when they go past the end. */
    method Fetch(len: nat) returns (out: seq<byte>)
      requires Valid() && len < data.Length
      modifies this`pread
      ensures out == Around(data[..], old(pread), len)
      ensures pread == Next(data.Length, old(pread), len)
    {
      var todo := len;
      var split := if pread + len > data.Length then data.Length - pread else 0;
      out := [];
      if split > 0 {
        out := data[pread..pread + split];
        todo := todo - split;
        pread := 0;
      }
      out := out + data[pread..pread + todo];
      Advance(todo);
    }

    method Advance(n: nat)
      requires data.Length > 0 && pread + n <= data.Length
      modifies this`pread
      ensures pread == if old(pread) + n == data.Length then 0 else old(pread) + n
    {
      Modulo(pread + n, data.Length);
      pread := (pread + n) % data.Length;
    }

    method Read(len: nat) returns (out: seq<byte>)
      requires Valid() && len <= Avail()
      modifies this`pread
      ensures Valid() && old(Contents()) == out + Contents() && |out| == len
    {
      ghost var rest := Avail() - len;
      AroundSplit(data[..], pread, len, rest);
      out := Fetch(len);
      assert Avail() == rest;
    }

    /** Puts bytes in, in two copies when they go past the end. */
    method Store(buf: seq<byte>)
      requires Valid() && |buf| < data.Length
      modifies this`pwrite, data
      ensures data[..] == Stored(old(data[..]), old(pwrite), buf)
      ensures pwrite == Next(data.Length, old(pwrite), |buf|)
    {
      var todo := buf;
      var split := if pwrite + |buf| > data.Length then data.Length - pwrite else 0;
      if split > 0 {
        TwoCopies(data[..], pwrite, buf);
        Copy(pwrite, buf[..split]);
        todo := buf[split..];
        pwrite := 0;
      }
      Copy(pwrite, todo);
      Modulo(pwrite + |todo|, data.Length);
      pwrite := (pwrite + |todo|) % data.Length;
    }

    method Write(buf: seq<byte>)
      requires Valid() && |buf| <= Free()
      modifies this`pwrite, data
      ensures Valid() && Contents() == old(Contents()) + buf
    {
      ghost var filled := Avail();
      StoredAround(data[..], pread, filled, buf);
      Store(buf);
      assert Avail() == filled + |buf|;
    }
  }

  // ---- Packets in the bytes ----

  /** Packets one after the other, each behind its length. */
  function Encoded(ps: seq<seq<byte>>): seq<byte> {
    if ps == [] then [] else Word(|ps[0]|) + ps[0] + Encoded(ps[1..])
  }

  lemma {:induction false} EncodedAppend(ps: seq<seq<byte>>, p: seq<byte>)
    ensures Encoded(ps + [p]) == Encoded(ps) + (Word(|p|) + p)
  {
    if ps == [] {
      assert ps + [p] == [p] && [p][1..] == [];
      assert Encoded([p]) == Word(|p|) + p + Encoded([]);
    } else {
      assert (ps + [p])[1..] == ps[1..] + [p];
      EncodedAppend(ps[1..], p);
      assert Encoded(ps + [p]) == Word(|ps[0]|) + ps[0] + (Encoded(ps[1..]) + (Word(|p|) + p));
    }
  }

  predicate Short(ps: seq<seq<byte>>) {
    forall i :: 0 <= i < |ps| ==> |ps[i]| <= MAX_INT
  }

  /** The first four bytes are the length of the first packet, which is there in full. */
  lemma FirstPacket(ps: seq<seq<byte>>)
    requires ps != [] && Short(ps)
    ensures Encoded(ps)[..4] == Word(|ps[0]|) && PeekWord(Encoded(ps)) == |ps[0]|
    ensures Encoded(ps)[4..] == ps[0] + Encoded(ps[1..])
  {
    var n, tail := |ps[0]|, ps[0] + Encoded(ps[1..]);
    EncodedFirst(ps);
    WordInFront(Word(n), tail);
    WordRoundTrip(n, tail);
    assert n % TWO_32 == n;
  }

  lemma EncodedFirst(ps: seq<seq<byte>>)
    requires ps != []
    ensures Encoded(ps) == Word(|ps[0]|) + (ps[0] + Encoded(ps[1..]))
  {
    ConcatIsAssociative(Word(|ps[0]|), ps[0], Encoded(ps[1..]));
  }

  lemma WordInFront(w: seq<byte>, tail: seq<byte>)
    requires |w| == 4
    ensures (w + tail)[..4] == w && (w + tail)[4..] == tail
  {
  }

  /** The bytes tell the packets apart. */
  lemma {:induction false} EncodingIsInjective(ps: seq<seq<byte>>, qs: seq<seq<byte>>)
    requires Short(ps) && Short(qs) && Encoded(ps) == Encoded(qs)
    ensures ps == qs
  {
    if ps == [] || qs == [] {
      assert |Encoded(ps)| == 0 ==> ps == [];
      assert |Encoded(qs)| == 0 ==> qs == [];
    } else {
      FirstPacket(ps);
      FirstPacket(qs);
      var n := |ps[0]|;
      assert |qs[0]| == n;
      assert ps[0] == Encoded(ps)[4..][..n] && qs[0] == Encoded(qs)[4..][..n];
      assert Encoded(ps[1..]) == Encoded(ps)[4..][n..] && Encoded(qs[1..]) == Encoded(qs)[4..][n..];
      EncodingIsInjective(ps[1..], qs[1..]);
    }
  }

  // ---- The channel as a queue of packets ----

  datatype Op = Put(packet: seq<byte>) | Take(size: int)

  /** The packets waiting, all that were ever accepted and taken out, and what each read returned. */
  datatype Channel = Channel(pending: seq<seq<byte>>, accepted: seq<seq<byte>>, taken: seq<seq<byte>>,
                             outputs: seq<seq<byte>>)

  /** A packet is accepted when it fits with its length; with `size` places in the ring. */
  predicate Accepts(size: nat, c: Channel, p: seq<byte>) {
    |Encoded(c.pending)| + 4 + |p| < size
  }

  /** A packet can be taken when more than a length is there. */
  predicate Ready(c: Channel) {
    |Encoded(c.pending)| > 4
  }

  function Step(size: nat, c: Channel, op: Op): Channel {
    match op
    case Put(p) =>
      if Accepts(size, c, p) then c.(pending := c.pending + [p], accepted := c.accepted + [p]) else c
    case Take(n) =>
      var returned := c.outputs + [Returned(c, n)];
      if Ready(c) && c.pending != [] then
        Channel(c.pending[1..], c.accepted, c.taken + [c.pending[0]], returned)
      else c.(outputs := returned)
  }

  /** What a read returns: the first packet whole, or nothing when the caller's buffer is too
      small; that packet is gone then. */
  function Returned(c: Channel, size: int): seq<byte> {
    if Ready(c) && c.pending != [] && |c.pending[0]| <= size then c.pending[0] else []
  }

  function Run(size: nat, ops: seq<Op>): Channel {
    if ops == [] then Channel([], [], [], []) else Step(size, Run(size, ops[..|ops|-1]), ops[|ops|-1])
  }

  /** Over every run, the packets taken and those waiting are the packets accepted, in order, and
      the waiting ones fit the ring. */
  lemma {:induction false} RunIsFifo(size: nat, ops: seq<Op>)
    requires size > 0
    ensures var c := Run(size, ops);
            c.accepted == c.taken + c.pending && |Encoded(c.pending)| < size
  {
    if ops != [] {
      var c, op := Run(size, ops[..|ops|-1]), ops[|ops|-1];
      RunIsFifo(size, ops[..|ops|-1]);
      if op.Put? && Accepts(size, c, op.packet) {
        EncodedAppend(c.pending, op.packet);
      } else if op.Take? && Ready(c) && c.pending != [] {
        assert c.pending == [c.pending[0]] + c.pending[1..];
      }
    }
  }

  // ---- What the reader gets ----

  /** Packets without the empty ones, which a reader cannot tell from no packet. */
  function NonEmpty(ps: seq<seq<byte>>): seq<seq<byte>> {
    if ps == [] then []
    else NonEmpty(ps[..|ps|-1]) + (if ps[|ps|-1] == [] then [] else [ps[|ps|-1]])
  }

  lemma NonEmptyNext(ps: seq<seq<byte>>, p: seq<byte>)
    ensures NonEmpty(ps + [p]) == NonEmpty(ps) + (if p == [] then [] else [p])
  {
    assert (ps + [p])[..|ps|] == ps;
  }

  /** Every buffer that is read into is large enough for every packet put in. */
  predicate LargeBuffers(ops: seq<Op>) {
    forall i, j :: 0 <= i < |ops| && 0 <= j < |ops| && ops[i].Put? && ops[j].Take? ==> |ops[i].packet| <= ops[j].size
  }

  /** The packets accepted were put in. */
  lemma {:induction false} AcceptedWerePut(size: nat, ops: seq<Op>, p: seq<byte>)
    requires p in Run(size, ops).accepted
    ensures exists i :: 0 <= i < |ops| && ops[i] == Put(p)
  {
    var before, last := ops[..|ops|-1], ops[|ops|-1];
    if last != Put(p) {
      assert p in Run(size, before).accepted;
      AcceptedWerePut(size, before, p);
      var i :| 0 <= i < |before| && before[i] == Put(p);
      assert ops[i] == Put(p);
    }
  }

  /** With large enough buffers, the reader gets exactly the bytes of the packets taken, in order,
      and these are the first of those accepted. */
  lemma {:induction false} ReaderGetsThePackets(size: nat, ops: seq<Op>)
    requires size > 0 && LargeBuffers(ops)
    ensures var c := Run(size, ops);
            NonEmpty(c.outputs) == NonEmpty(c.taken) && c.taken <= c.accepted
  {
    RunIsFifo(size, ops);
    if ops != [] {
      var before, op := ops[..|ops|-1], ops[|ops|-1];
      ReaderGetsThePackets(size, before);
      if op.Take? {
        TakeGivesThePacket(size, ops);
      }
    }
  }

  lemma TakeGivesThePacket(size: nat, ops: seq<Op>)
    requires size > 0 && LargeBuffers(ops) && ops != [] && ops[|ops|-1].Take?
    requires var c := Run(size, ops[..|ops|-1]); NonEmpty(c.outputs) == NonEmpty(c.taken)
    ensures var c := Run(size, ops); NonEmpty(c.outputs) == NonEmpty(c.taken)
  {
    var before := ops[..|ops|-1];
    var b, c, n := Run(size, before), Run(size, ops), ops[|ops|-1].size;
    ReadyIff(b);
    RunIsFifo(size, before);
    var out := Returned(b, n);
    NonEmptyNext(b.outputs, out);
    if b.pending != [] && b.pending != [[]] {
      var p := b.pending[0];
      assert b.accepted[|b.taken|] == p;
      AcceptedWerePut(size, before, p);
      var i :| 0 <= i < |before| && before[i] == Put(p);
      assert ops[i].packet == p;
      NonEmptyNext(b.taken, p);
    }
  }

  /** A packet is accepted exactly when its bytes and the four of its length fit the free places,
      one fewer than the ring has; and then it waits behind the others. */
  lemma AcceptedIffFits(size: nat, c: Channel, p: seq<byte>)
    requires |Encoded(c.pending)| < size
    ensures var r, free := Step(size, c, Put(p)), size - 1 - |Encoded(c.pending)|;
            && (4 + |p| <= free ==> r.accepted == c.accepted + [p] && r.pending == c.pending + [p])
            && (4 + |p| > free ==> r == c)
            && r.taken == c.taken && r.outputs == c.outputs
  {
  }

  /** A packet can be taken exactly when one is waiting, unless the only one is empty. */
  lemma ReadyIff(c: Channel)
    ensures Ready(c) <==> c.pending != [] && c.pending != [[]]
  {
    if c.pending != [] {
      var tail := c.pending[1..];
      if tail != [] {
        assert |Encoded(tail)| >= 4;
      }
    }
  }

  class UserdataDevice {
    const ring: RingBuffer
    ghost var channel: Channel

    ghost predicate Valid()
      reads this, ring, ring.data
    {
      && ring.Valid() && ring.data.Length <= MAX_INT
      && ring.Contents() == Encoded(channel.pending)
      && Short(channel.pending)
    }

    constructor (size: nat)
      requires 0 < size <= MAX_INT
      ensures Valid() && ring.data.Length == size && channel == Channel([], [], [], [])
      ensures fresh(ring) && fresh(ring.data)
    {
      ring := new RingBuffer(size);
      channel := Channel([], [], [], []);
    }

    /** Accepts a packet whole, or rejects it without a change. */
    method PackageWrite(buf: seq<byte>) returns (ret: int)
      requires Valid() && |buf| + 4 <= MAX_INT
      modifies this, ring, ring.data
      ensures Valid() && channel == Step(ring.data.Length, old(channel), Put(buf))
      ensures ret == if Accepts(ring.data.Length, old(channel), buf) then |buf| else 0
    {
      var cnt := ring.Free();
      if cnt < |buf| + 4 {
        ret := 0;
      } else {
        EncodedAppend(channel.pending, buf);
        ConcatIsAssociative(ring.Contents(), Word(|buf|), buf);
        ring.Write(Word(|buf|));
        ring.Write(buf);
        channel := channel.(pending := channel.pending + [buf], accepted := channel.accepted + [buf]);
        ret := |buf|;
      }
    }

    method ReadUnusedData(len: nat)
      requires ring.Valid() && len <= ring.Avail()
      modifies ring
      ensures ring.Valid() && ring.Contents() == old(ring.Contents())[len..]
    {
      var unused := ring.Read(len);
    }

    /** Reads the length of the first packet; the packet is next. */
    method ReadLength() returns (udCnt: nat)
      requires Valid() && channel.pending != []
      modifies ring
      ensures ring.Valid() && udCnt == |channel.pending[0]|
      ensures ring.Contents() == channel.pending[0] + Encoded(channel.pending[1..])
    {
      FirstPacket(channel.pending);
      ghost var all := ring.Contents();
      var header := ring.Read(4);
      assert header == all[..4] && ring.Contents() == all[4..];
      assert header[..4] == all[..4];
      udCnt := PeekWord(header);
    }

    method PackageRead(size: int) returns (out: seq<byte>)
      requires Valid()
      modifies this, ring
      ensures Valid() && channel == Step(ring.data.Length, old(channel), Take(size))
      ensures channel.outputs == old(channel.outputs) + [out]
      ensures var first := if old(channel.pending) == [] then [] else old(channel.pending)[0];
              out == if old(channel.pending) != [] && |first| <= size then first else []
    {
      ghost var before := channel;
      ReadyIff(before);
      out := [];
      var cnt := ring.Avail();
      if cnt > 4 {
        ghost var first, rest := channel.pending[0], channel.pending[1..];
        var udCnt := ReadLength();
        cnt := ring.Avail();
        assert cnt == |first| + |Encoded(rest)|;
        if cnt < udCnt {
          // The packet behind a length is always there.
          assert false;
        } else if udCnt > size {
          ReadUnusedData(udCnt);
        } else if udCnt > 0 {
          out := ring.Read(udCnt);
          assert out == (first + Encoded(rest))[..udCnt];
        }
        assert ring.Contents() == (first + Encoded(rest))[udCnt..];
        channel := Channel(rest, channel.accepted, channel.taken + [first], channel.outputs + [out]);
      } else {
        channel := channel.(outputs := channel.outputs + [out]);
      }
    }
  }

}
