/** What a converted SCTE 20 packet says, bit by bit of the user data it came from. */
module ScteBits {
  import opened Bytes
  import opened Wrappers
  import opened Scte

  // ---- Records as bits ----

  /** Where record `i` begins: behind the count of five bits, 26 bits each. */
  function Start(i: nat): nat {
    5 + 26 * i
  }

  predicate IsThere(b: seq<bit>, i: nat) {
    Start(i + 1) <= |b|
  }

  /** Record `i` is for line 21 or 284: its five line bits are 11, to which 10 or 273 is added, and
      its field is not 0. */
  predicate OnCaptionLine(b: seq<bit>, i: nat)
    requires IsThere(b, i)
  {
    b[Start(i) + 4..Start(i) + 9] == [0, 1, 0, 1, 1] && (b[Start(i) + 2] == 1 || b[Start(i) + 3] == 1)
  }

  /** Line 21 is in the field that comes first: field 1, or 3, when that is the top field, and
      field 2 when it is not. */
  predicate OnLine21(b: seq<bit>, i: nat, topFirst: bool)
    requires IsThere(b, i)
  {
    OnCaptionLine(b, i) && (b[Start(i) + 3] == 1) == topFirst
  }

  /** How many of the first `n` records are on a caption line. */
  function Captions(b: seq<bit>, n: nat): (k: nat)
    requires Start(n) <= |b|
    ensures k <= n
  {
    if n == 0 then 0 else Captions(b, n - 1) + (if OnCaptionLine(b, n - 1) then 1 else 0)
  }

  /** The number that the first five bits make. */
  function Announced(b: seq<bit>): nat
    requires |b| >= 5
  {
    var b0: int, b1: int, b2: int, b3: int, b4: int := b[0], b[1], b[2], b[3], b[4];
    16 * b0 + 8 * b1 + 4 * b2 + 2 * b3 + b4
  }

  /** The character has eight bits of the section, the first of them lowest. */
  predicate IsChar(c: byte, b: seq<bit>, at: nat)
    requires at + 8 <= |b|
  {
    forall m :: 0 <= m < 8 ==> BitOf(c, m) == b[at + m]
  }

  /** The packet has a triple for record `i`, if it is on a caption line, behind those of the records
      before it: a byte for the line and the two characters, with their bits in the other order. */
  predicate HasRecord(packet: seq<byte>, b: seq<bit>, i: nat, topFirst: bool)
    requires IsThere(b, i)
  {
    OnCaptionLine(b, i) ==>
      var at := 7 + 3 * Captions(b, i);
      && at + 3 <= |packet|
      && packet[at] == (if OnLine21(b, i, topFirst) then 4 else 5)
      && IsChar(packet[at + 1], b, Start(i) + 9) && IsChar(packet[at + 2], b, Start(i) + 17)
  }

  /** The cc_data packet of a section: the identifier, the number of its captions, and their triples. */
  predicate Says(packet: seq<byte>, b: seq<bit>, n: nat, topFirst: bool)
    requires Start(n) <= |b|
  {
    && |packet| == 7 + 3 * Captions(b, n)
    && packet[..5] == [0x47, 0x41, 0x39, 0x34, 3] && packet[5] == 0x40 + Captions(b, n) && packet[6] == 0
    && forall i {:trigger HasRecord(packet, b, i, topFirst)} :: 0 <= i < n ==> HasRecord(packet, b, i, topFirst)
  }

  // ---- Bits of numbers ----

  lemma {:induction false} NumberIsInjective(a: seq<bit>, b: seq<bit>)
    requires |a| == |b| && Number(a) == Number(b)
    ensures a == b
  {
    if a != [] {
      var m, n := a[..|a|-1], b[..|b|-1];
      assert a == m + [a[|a|-1]] && b == n + [b[|b|-1]];
      NumberIsInjective(m, n);
    }
  }

  lemma FiveBits(a: seq<bit>)
    requires |a| == 5
    ensures Number(a) == Announced(a)
  {
    var b, c, d, e := a[..4], a[..3], a[..2], a[..1];
    assert b[..3] == c && c[..2] == d && d[..1] == e && e[..0] == [];
    assert Number(e) == a[0];
    assert Number(d) == 2 * Number(e) + a[1];
    assert Number(c) == 2 * Number(d) + a[2];
    assert Number(b) == 2 * Number(c) + a[3];
  }

  lemma LineBits(a: seq<bit>)
    requires |a| == 5
    ensures Number(a) == 11 <==> a == [0, 1, 0, 1, 1]
  {
    FiveBits(a);
    FiveBits([0, 1, 0, 1, 1]);
    if Number(a) == 11 {
      NumberIsInjective(a, [0, 1, 0, 1, 1]);
    }
  }

  lemma TwoBits(a: seq<bit>)
    requires |a| == 2
    ensures Number(a) == if a[0] == 1 then (if a[1] == 1 then 3 else 2) else a[1]
  {
    assert a[..1][..0] == [];
    assert Number(a[..1]) == a[0];
  }

  /** The reversed byte of eight bits has the first of them lowest. */
  lemma ReversedByte(b: seq<bit>, at: nat, c: byte)
    requires at + 8 <= |b| && Number(b[at..at + 8]) == c
    ensures IsChar(Reverse(c), b, at)
  {
    forall m | 0 <= m < 8 ensures BitOf(Reverse(c), m) == b[at + m] {
      ReverseMirrors(c, m);
      NumberHasBits(b[at..at + 8], 7 - m);
    }
  }

  // ---- Records ----

  /** The line of a record in terms of its bits. */
  lemma LineOfBits(p: seq<byte>, i: nat, topFirst: bool)
    requires Start(i + 1) <= 8 * |p|
    ensures var line, b := LineOf(RecordAt(p, Start(i)), topFirst), Bits(p);
            && (line == Some(21) <==> OnLine21(b, i, topFirst))
            && (line == Some(284) <==> OnCaptionLine(b, i) && !OnLine21(b, i, topFirst))
  {
    var b, at := Bits(p), Start(i);
    LineBits(b[at + 4..at + 9]);
    TwoBits(b[at + 2..at + 4]);
    FieldBounds(p, at + 4, 5);
  }

  /** The triple of a record, if it is on a caption line. */
  predicate IsTriple(t: Triple, b: seq<bit>, i: nat, topFirst: bool)
    requires IsThere(b, i)
  {
    && t.kind == (if OnLine21(b, i, topFirst) then 4 else 5)
    && IsChar(t.c1, b, Start(i) + 9) && IsChar(t.c2, b, Start(i) + 17)
  }

  lemma TripleOfBits(p: seq<byte>, i: nat, topFirst: bool)
    requires Start(i + 1) <= 8 * |p|
    ensures AreTriplesOfOne(TriplesOf(RecordAt(p, Start(i)), topFirst), Bits(p), i, topFirst)
  {
    LineOfBits(p, i, topFirst);
    var b, at, r := Bits(p), Start(i), RecordAt(p, Start(i));
    ReversedByte(b, at + 9, r.cc1);
    ReversedByte(b, at + 17, r.cc2);
  }

  /** Among the triples of the first `n` records is that of record `i`, at its place. */
  predicate HasTriple(ts: seq<Triple>, b: seq<bit>, i: nat, topFirst: bool)
    requires IsThere(b, i)
  {
    OnCaptionLine(b, i) ==> Captions(b, i) < |ts| && IsTriple(ts[Captions(b, i)], b, i, topFirst)
  }

  /** These are the triples of the first `n` records. */
  predicate AreTriples(ts: seq<Triple>, b: seq<bit>, n: nat, topFirst: bool) {
    && Start(n) <= |b| && |ts| == Captions(b, n)
    && forall i {:trigger HasTriple(ts, b, i, topFirst)} :: 0 <= i < n ==> HasTriple(ts, b, i, topFirst)
  }

  /** The records give what their bits say. */
  predicate Agree(rs: seq<Record>, b: seq<bit>, topFirst: bool) {
    && Start(|rs|) <= |b|
    && forall i {:trigger TriplesOf(rs[i], topFirst)} :: 0 <= i < |rs| ==>
         AreTriplesOfOne(TriplesOf(rs[i], topFirst), b, i, topFirst)
  }

  lemma RecordsAgree(p: seq<byte>, rs: seq<Record>, topFirst: bool)
    requires AreRecords(rs, p)
    ensures Agree(rs, Bits(p), topFirst)
  {
    forall i | 0 <= i < |rs| ensures AreTriplesOfOne(TriplesOf(rs[i], topFirst), Bits(p), i, topFirst) {
      assert RecordIs(rs, p, i);
      TripleOfBits(p, i, topFirst);
    }
  }

  lemma AgreeFront(rs: seq<Record>, b: seq<bit>, topFirst: bool)
    requires rs != [] && Agree(rs, b, topFirst)
    ensures Agree(rs[..|rs|-1], b, topFirst)
    ensures IsThere(b, |rs| - 1) && AreTriplesOfOne(TriplesOf(rs[|rs|-1], topFirst), b, |rs| - 1, topFirst)
  {
  }

  lemma {:induction false} TriplesOfBits(rs: seq<Record>, b: seq<bit>, topFirst: bool)
    requires Agree(rs, b, topFirst)
    ensures AreTriples(Triples(rs, topFirst), b, |rs|, topFirst)
  {
    if rs != [] {
      var front, last := rs[..|rs|-1], rs[|rs|-1];
      AgreeFront(rs, b, topFirst);
      TriplesOfBits(front, b, topFirst);
      MoreTriples(Triples(front, topFirst), TriplesOf(last, topFirst), b, |rs| - 1, topFirst);
    }
  }

  predicate AreTriplesOfOne(more: seq<Triple>, b: seq<bit>, n: nat, topFirst: bool)
    requires IsThere(b, n)
  {
    if OnCaptionLine(b, n) then |more| == 1 && IsTriple(more[0], b, n, topFirst) else more == []
  }

  lemma MoreTriples(ts: seq<Triple>, more: seq<Triple>, b: seq<bit>, n: nat, topFirst: bool)
    requires IsThere(b, n) && AreTriples(ts, b, n, topFirst) && AreTriplesOfOne(more, b, n, topFirst)
    ensures AreTriples(ts + more, b, n + 1, topFirst)
  {
    forall i | 0 <= i < n + 1 ensures HasTriple(ts + more, b, i, topFirst) {
      if i < n {
        assert HasTriple(ts, b, i, topFirst);
      }
    }
  }

  lemma {:induction false} FlatAt(ts: seq<Triple>, k: nat)
    requires k < |ts|
    ensures Flat(ts)[3 * k..3 * k + 3] == [ts[k].kind, ts[k].c1, ts[k].c2]
  {
    if k < |ts| - 1 {
      var front := ts[..|ts|-1];
      FlatAt(front, k);
      assert Flat(ts)[..3 * |front|] == Flat(front);
      assert Flat(ts)[3 * k..3 * k + 3] == Flat(front)[3 * k..3 * k + 3];
    }
  }

  lemma PacketAt(ts: seq<Triple>, k: nat)
    requires k < |ts| < 32
    ensures Packet(ts)[7 + 3 * k] == ts[k].kind
    ensures Packet(ts)[8 + 3 * k] == ts[k].c1 && Packet(ts)[9 + 3 * k] == ts[k].c2
  {
    FlatAt(ts, k);
    var f := Flat(ts)[3 * k..3 * k + 3];
    assert Packet(ts)[7..] == Flat(ts);
    assert f[0] == Packet(ts)[7 + 3 * k] && f[1] == Packet(ts)[8 + 3 * k] && f[2] == Packet(ts)[9 + 3 * k];
  }

  lemma PacketSays(ts: seq<Triple>, b: seq<bit>, n: nat, topFirst: bool)
    requires AreTriples(ts, b, n, topFirst) && |ts| < 32
    ensures Says(Packet(ts), b, n, topFirst)
  {
    forall i | 0 <= i < n ensures HasRecord(Packet(ts), b, i, topFirst) {
      assert HasTriple(ts, b, i, topFirst);
      PacketHasRecord(ts, Packet(ts), b, i, topFirst);
    }
    assert Packet(ts)[..5] == [0x47, 0x41, 0x39, 0x34, 3];
  }

  lemma PacketHasRecord(ts: seq<Triple>, packet: seq<byte>, b: seq<bit>, i: nat, topFirst: bool)
    requires IsThere(b, i) && HasTriple(ts, b, i, topFirst) && |ts| < 32 && packet == Packet(ts)
    ensures HasRecord(packet, b, i, topFirst)
  {
    if OnCaptionLine(b, i) {
      PacketAt(ts, Captions(b, i));
    }
  }

  // ---- The conversion ----

  /** The records that are read: those announced, as far as they are there in full. */
  function Readable(b: seq<bit>, leftBits: nat): (n: nat)
    requires 5 <= leftBits <= |b|
    ensures Start(n) <= leftBits && n <= Announced(b)
    ensures n < Announced(b) ==> Start(n + 1) > leftBits
  {
    Whole(leftBits, Announced(b))
  }

  /** The outcome in terms of the bits: nothing without a whole section that has captions, an
      overrun from 20 captions on, and else the packet of the section. */
  predicate Meaning(out: Outcome, b: seq<bit>, leftBits: nat, topFirst: bool)
    requires leftBits <= |b|
  {
    if leftBits < 5 then out == Nothing
    else
      var n := Readable(b, leftBits);
      match out
      case Overrun => Captions(b, n) > 19
      case Nothing => Captions(b, n) <= 19 && (n < Announced(b) || Captions(b, n) == 0)
      case Converted(packet) => n == Announced(b) && 0 < Captions(b, n) <= 19 && Says(packet, b, n, topFirst)
  }

  /** What a conversion gives, for any user data. */
  lemma ConversionMeans(p: seq<byte>, leftBits: nat, topFirst: bool)
    requires leftBits <= 8 * |p|
    ensures Meaning(Conversion(p, leftBits, topFirst), Bits(p), leftBits, topFirst)
  {
    if leftBits >= 5 {
      var b, rs := Bits(p), RecordsRead(p, leftBits);
      CountIsAnnounced(p);
      RecordsAgree(p, rs, topFirst);
      TriplesOfBits(rs, b, topFirst);
      OutcomeMeans(Triples(rs, topFirst), b, leftBits, topFirst);
    }
  }

  lemma CountIsAnnounced(p: seq<byte>)
    requires 5 <= 8 * |p|
    ensures Field(p, 0, 5) == Announced(Bits(p))
  {
    FiveBits(Bits(p)[0..5]);
  }

  lemma OutcomeMeans(ts: seq<Triple>, b: seq<bit>, leftBits: nat, topFirst: bool)
    requires 5 <= leftBits <= |b| && AreTriples(ts, b, Readable(b, leftBits), topFirst)
    ensures var out := if |ts| > MAX_TRIPLES then Overrun
                       else if Readable(b, leftBits) < Announced(b) || ts == [] then Nothing
                       else Converted(Packet(ts));
            Meaning(out, b, leftBits, topFirst)
  {
    if |ts| <= MAX_TRIPLES {
      PacketSays(ts, b, Readable(b, leftBits), topFirst);
    }
  }

}
