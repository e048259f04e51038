/** Conversion of SCTE 20 captions to a cc_data packet: bit fields out of the user data, one
    triple of bytes for each record on line 21 or 284. */
module Scte {
  import opened Bytes
  import opened Wrappers

  // ---- Bits ----

  type bit = x: int | x == 0 || x == 1

  function Shl(x: nat, n: nat): nat {
    if n == 0 then x else 2 * Shl(x, n - 1)
  }

  function Shr(x: nat, n: nat): nat {
    if n == 0 then x else Shr(x, n - 1) / 2
  }

  /** Bit `k` of a byte, 0 the lowest. */
  function BitOf(v: byte, k: nat): (b: bit) {
    Shr(v, k) % 2
  }

  /** The bits of a byte string, the highest bit of each byte first. */
  function Bits(p: seq<byte>): (b: seq<bit>)
    ensures |b| == 8 * |p|
  {
    seq(8 * |p|, i requires 0 <= i < 8 * |p| => BitOf(p[i / 8], 7 - i % 8))
  }

  /** The number that some bits make, most significant first. */
  function Number(b: seq<bit>): nat {
    if b == [] then 0 else 2 * Number(b[..|b|-1]) + b[|b|-1]
  }

  lemma {:induction false} NumberBound(b: seq<bit>)
    ensures Number(b) < Shl(1, |b|)
  {
    if b != [] {
      NumberBound(b[..|b|-1]);
    }
  }

  /** The field of `n` bits at a place. */
  function Field(p: seq<byte>, at: nat, n: nat): (v: nat)
    requires at + n <= 8 * |p|
  {
    Number(Bits(p)[at..at + n])
  }

  /** The `l` lowest bits of a number, as the mask `0xff >> (8 - l)` keeps them. */
  function LowBits(x: nat, l: nat): (r: nat) {
    if l == 0 then 0 else 2 * LowBits(x / 2, l - 1) + x % 2
  }

  /** `(v >> b) & (0xff >> (8 - l))` */
  function NstBits(v: byte, b: nat, l: nat): (r: nat) {
    LowBits(Shr(v, b), l)
  }

  lemma FieldBounds(p: seq<byte>, at: nat, n: nat)
    requires at + n <= 8 * |p|
    ensures n == 2 ==> Field(p, at, n) < 4
    ensures n == 5 ==> Field(p, at, n) < 32
    ensures n == 8 ==> Field(p, at, n) < 256
  {
    NumberBound(Bits(p)[at..at + n]);
    assert Shl(1, 2) == 4 && Shl(1, 5) == 32 && Shl(1, 8) == 256;
  }

  lemma FieldStep(p: seq<byte>, at: nat, n: nat)
    requires at + n <= 8 * |p| && 0 < n
    ensures Field(p, at, n) == 2 * Field(p, at, n - 1) + Bits(p)[at + n - 1]
  {
    assert Bits(p)[at..at + n][..n - 1] == Bits(p)[at..at + n - 1];
  }

  lemma BitAt(p: seq<byte>, j: nat, r: nat)
    requires j < |p| && r < 8
    ensures Bits(p)[8 * j + r] == BitOf(p[j], 7 - r)
  {
    assert (8 * j + r) / 8 == j && (8 * j + r) % 8 == r;
  }

  /** One more bit at the low end. */
  lemma NstBitsStep(v: byte, b: nat, l: nat)
    requires l > 0
    ensures NstBits(v, b, l) == 2 * NstBits(v, b + 1, l - 1) + BitOf(v, b)
  {
  }

  /** A field of `n` bits, `r` bits into a byte, that does not leave it. */
  lemma {:induction false} FieldInOneByte(p: seq<byte>, j: nat, r: nat, n: nat)
    requires r + n <= 8 && j < |p|
    ensures Field(p, 8 * j + r, n) == NstBits(p[j], 8 - r - n, n)
  {
    if n > 0 {
      FieldInOneByte(p, j, r, n - 1);
      NstBitsStep(p[j], 8 - r - n, n);
      FieldStep(p, 8 * j + r, n);
      BitAt(p, j, r + n - 1);
    }
  }

  /** Fields next to each other make the field of all their bits. */
  lemma {:induction false} FieldSplit(p: seq<byte>, at: nat, m: nat, n: nat)
    requires at + m + n <= 8 * |p|
    ensures Field(p, at, m + n) == Shl(Field(p, at, m), n) + Field(p, at + m, n)
  {
    if n > 0 {
      FieldSplit(p, at, m, n - 1);
      FieldStep(p, at, m + n);
      FieldStep(p, at + m, n);
    }
  }

  /** A field that ends in the next byte. */
  lemma FieldAcrossBytes(p: seq<byte>, j: nat, r: nat, n: nat)
    requires r < 8 && 8 < r + n && n <= 8 && 8 * j + r + n <= 8 * |p|
    ensures j + 1 < |p|
    ensures Field(p, 8 * j + r, n) == Shl(NstBits(p[j], 0, 8 - r), r + n - 8) + NstBits(p[j + 1], 16 - r - n, r + n - 8)
  {
    FieldSplit(p, 8 * j + r, 8 - r, r + n - 8);
    FieldInOneByte(p, j, r, 8 - r);
    FieldInOneByte(p, j + 1, 0, r + n - 8);
  }

  /** Reads `b` bits at the cursor; none when they are not all there. */
  method Get(p: seq<byte>, leftBits: nat, bits: nat, b: nat) returns (n: Option<nat>)
    requires 1 <= b <= 8 && leftBits <= 8 * |p|
    ensures n == if bits + b > leftBits then None else Some(Field(p, bits, b))
  {
    if bits + b > leftBits {
      return None;
    }
    var off, bs := bits / 8, bits % 8;
    if 8 - bs >= b {
      FieldInOneByte(p, off, bs, b);
      n := Some(NstBits(p[off], 8 - bs - b, b));
    } else {
      var b1 := 8 - bs;
      var b2 := b - b1;
      FieldAcrossBytes(p, off, bs, b);
      var n1 := NstBits(p[off], 0, b1);
      var n2 := NstBits(p[off + 1], 8 - b + b1, b - b1);
      // The bits of n2 are below those of the shifted n1.
      n := Some(Shl(n1, b2) + n2);
    }
  }

  // ---- Bit reversal ----

  /** The bits of a byte, the lowest first. */
  function LowFirst(v: byte): (b: seq<bit>)
    ensures |b| == 8
  {
    seq(8, i requires 0 <= i < 8 => BitOf(v, i))
  }

  /** The byte with the same bits in the other order. */
  function Reverse(v: byte): (r: byte) {
    NumberBound(LowFirst(v));
    assert Shl(1, 8) == 256;
    Number(LowFirst(v))
  }

  lemma {:induction false} ShrOfHalf(x: nat, n: nat)
    ensures Shr(x, n + 1) == Shr(x / 2, n)
  {
    if n > 0 {
      ShrOfHalf(x, n - 1);
    }
  }

  /** A number that bits make has those bits. */
  lemma {:induction false} NumberHasBits(b: seq<bit>, k: nat)
    requires k < |b|
    ensures Shr(Number(b), k) % 2 == b[|b| - 1 - k]
  {
    var c := b[..|b|-1];
    assert Number(b) / 2 == Number(c);
    if k > 0 {
      NumberHasBits(c, k - 1);
      ShrOfHalf(Number(b), k - 1);
    }
  }

  /** Reversal puts each bit at the mirrored place. */
  lemma ReverseMirrors(v: byte, k: nat)
    requires k < 8
    ensures BitOf(Reverse(v), k) == BitOf(v, 7 - k)
  {
    NumberHasBits(LowFirst(v), k);
  }

  lemma {:induction false} ShrBound(x: nat, n: nat, k: nat)
    requires x < Shl(1, n + k)
    ensures Shr(x, k) < Shl(1, n)
    decreases k
  {
    if k > 0 {
      ShrBound(x, n + 1, k - 1);
    }
  }

  /** Bytes with the same bits are the same. */
  lemma {:induction false} SameBits(v: byte, w: byte, k: nat)
    requires k <= 8 && forall i :: k <= i < 8 ==> BitOf(v, i) == BitOf(w, i)
    ensures Shr(v, k) == Shr(w, k)
    decreases 8 - k
  {
    if k == 8 {
      assert Shl(1, 8) == 256;
      ShrBound(v, 0, 8);
      ShrBound(w, 0, 8);
    } else {
      SameBits(v, w, k + 1);
      assert BitOf(v, k) == BitOf(w, k);
    }
  }

  /** Reversing twice changes nothing. */
  lemma ReverseTwice(v: byte)
    ensures Reverse(Reverse(v)) == v
  {
    forall k | 0 <= k < 8 ensures BitOf(Reverse(Reverse(v)), k) == BitOf(v, k) {
      ReverseMirrors(Reverse(v), k);
      ReverseMirrors(v, 7 - k);
    }
    SameBits(Reverse(Reverse(v)), v, 0);
  }

  function ReverseTable(): (t: seq<byte>)
    ensures |t| == 256 && forall i: byte :: t[i] == Reverse(i)
  {
    seq(256, i requires 0 <= i < 256 => Reverse(i))
  }

  /** A table of all bytes' reversals, filled at the first use; entry 1 tells whether it was. */
  class CharMap {
    const table: array<byte>

    predicate Valid()
      reads this, table
    {
      table.Length == 256 && (table[1] == 0 || table[..] == ReverseTable())
    }

    constructor ()
      ensures Valid() && fresh(table)
    {
      table := new byte[256](_ => 0);
    }

    method ReverseByte(v1: byte) returns (v2: nat)
      ensures v2 == Reverse(v1)
    {
      v2 := 0;
      ghost var bits := LowFirst(v1);
      for b := 0 to 8
        invariant v2 == Shl(Number(bits[..b]), 8 - b)
      {
        assert bits[..b + 1][..b] == bits[..b];
        ShiftIn(Number(bits[..b]), bits[b], 7 - b);
        if BitOf(v1, b) == 1 {
          v2 := v2 + Shl(1, 7 - b);
        }
      }
      assert bits[..8] == bits;
    }

    method Fill()
      requires Valid()
      modifies table
      ensures Valid() && table[1] != 0
    {
      for i: int := 0 to 256
        invariant forall j: byte :: j < i ==> table[j] == Reverse(j)
      {
        table[i] := ReverseByte(i);
      }
      ReverseOfOne();
    }

    method GetChar(c: byte) returns (r: byte)
      requires Valid()
      modifies table
      ensures Valid() && r == Reverse(c)
    {
      if table[1] == 0 {
        Fill();
      }
      r := table[c];
    }
  }

  lemma ReverseOfOne()
    ensures Reverse(1) != 0
  {
    ReverseMirrors(1, 7);
    assert BitOf(0, 7) == 0 && BitOf(1, 0) == 1;
  }

  /** Adding a bit below and shifting one place less. */
  lemma {:induction false} ShiftIn(high: nat, b: bit, n: nat)
    ensures Shl(high, n + 1) + (if b == 1 then Shl(1, n) else 0) == Shl(2 * high + b, n)
  {
    if n > 0 {
      ShiftIn(high, b, n - 1);
    }
  }

  // ---- Records ----

  /** A caption record; priority and mark are not used. */
  datatype Record = Record(field: nat, line: nat, cc1: byte, cc2: byte)

  const RECORD_BITS: nat := 26

  function RecordAt(p: seq<byte>, at: nat): (r: Record)
    requires at + RECORD_BITS <= 8 * |p|
    ensures r.field < 4 && r.line < 32
  {
    FieldBounds(p, at + 2, 2);
    FieldBounds(p, at + 4, 5);
    FieldBounds(p, at + 9, 8);
    FieldBounds(p, at + 17, 8);
    Record(Field(p, at + 2, 2), Field(p, at + 4, 5), Field(p, at + 9, 8), Field(p, at + 17, 8))
  }

  /** The line of the frame on which the caption is; field 0 has none. */
  function LineOf(r: Record, topFirst: bool): Option<int> {
    if r.field == 0 then None
    else if (r.field == 2) != topFirst then Some(r.line + 10)
    else Some(r.line + 273)
  }

  /** What cc_data holds for a record: a byte that tells the field, and two characters. */
  datatype Triple = Triple(kind: byte, c1: byte, c2: byte)

  /** The triple for a record, if it is on a caption line. */
  function TriplesOf(r: Record, topFirst: bool): (t: seq<Triple>)
    ensures |t| <= 1
  {
    match LineOf(r, topFirst)
    case Some(21) => [Triple(4, Reverse(r.cc1), Reverse(r.cc2))]
    case Some(284) => [Triple(5, Reverse(r.cc1), Reverse(r.cc2))]
    case _ => []
  }

  /** The first `n` records of a section. */
  function Records(p: seq<byte>, n: nat): (rs: seq<Record>)
    requires 5 + RECORD_BITS * n <= 8 * |p|
    ensures |rs| == n
  {
    seq(n, i requires 0 <= i < n => RecordAt(p, 5 + RECORD_BITS * i))
  }

  predicate RecordIs(rs: seq<Record>, p: seq<byte>, i: nat)
    requires i < |rs| && 5 + RECORD_BITS * |rs| <= 8 * |p|
  {
    rs[i] == RecordAt(p, 5 + RECORD_BITS * i)
  }

  /** The list has records of the section, from the first on. */
  predicate AreRecords(rs: seq<Record>, p: seq<byte>) {
    && 5 + RECORD_BITS * |rs| <= 8 * |p|
    && forall i {:trigger RecordIs(rs, p, i)} :: 0 <= i < |rs| ==> RecordIs(rs, p, i)
  }

  /** The triples for some records, in order. */
  function Triples(rs: seq<Record>, topFirst: bool): (t: seq<Triple>)
    ensures |t| <= |rs|
  {
    if rs == [] then [] else Triples(rs[..|rs|-1], topFirst) + TriplesOf(rs[|rs|-1], topFirst)
  }

  lemma TriplesStep(rs: seq<Record>, i: nat, topFirst: bool)
    requires i < |rs|
    ensures Triples(rs[..i+1], topFirst) == Triples(rs[..i], topFirst) + TriplesOf(rs[i], topFirst)
  {
    assert rs[..i+1][..i] == rs[..i];
  }

  function Flat(ts: seq<Triple>): (b: seq<byte>)
    ensures |b| == 3 * |ts|
  {
    if ts == [] then []
    else
      var t := ts[|ts|-1];
      Flat(ts[..|ts|-1]) + [t.kind, t.c1, t.c2]
  }

  lemma FlatAppend(ts: seq<Triple>, t: Triple)
    ensures Flat(ts + [t]) == Flat(ts) + [t.kind, t.c1, t.c2]
  {
    assert (ts + [t])[..|ts|] == ts;
  }

  /** The cc_data packet that has some triples. */
  function Packet(ts: seq<Triple>): seq<byte>
    requires |ts| < 32
  {
    [0x47, 0x41, 0x39, 0x34, 3, 0x40 + |ts|, 0] + Flat(ts)
  }

  /** How many of the records that a section announces are there in full. */
  function Whole(leftBits: nat, announced: nat): (n: nat)
    requires leftBits >= 5
    ensures n <= announced && 5 + RECORD_BITS * n <= leftBits
    ensures n < announced ==> 5 + RECORD_BITS * (n + 1) > leftBits
  {
    if 5 + RECORD_BITS * announced <= leftBits then announced else Whole(leftBits, announced - 1)
  }

  /** The records that are read of a section. */
  function RecordsRead(p: seq<byte>, leftBits: nat): (rs: seq<Record>)
    requires 5 <= leftBits <= 8 * |p|
    ensures AreRecords(rs, p) && |rs| == Whole(leftBits, Field(p, 0, 5))
  {
    Records(p, Whole(leftBits, Field(p, 0, 5)))
  }

  /** The triples that fit behind the identifier in the source's buffer of 64 bytes. */
  const MAX_TRIPLES: nat := 19

  /** No packet; the packet; or a write behind the end of the buffer. */
  datatype Outcome = Nothing | Converted(packet: seq<byte>) | Overrun

  /** What becomes of a section: the buffer is overrun by a caption record too many, nothing comes
      of one that is cut short or has no caption record, and any other gives its packet. */
  function Conversion(p: seq<byte>, leftBits: nat, topFirst: bool): Outcome
    requires leftBits <= 8 * |p|
  {
    if leftBits < 5 then Nothing
    else
      var ts := Triples(RecordsRead(p, leftBits), topFirst);
      if |ts| > MAX_TRIPLES then Overrun
      else if |RecordsRead(p, leftBits)| < Field(p, 0, 5) || ts == [] then Nothing
      else Converted(Packet(ts))
  }

  /** Records behind a caption record too many do not take it back. */
  lemma {:induction false} TriplesGrow(rs: seq<Record>, m: nat, topFirst: bool)
    requires m <= |rs|
    ensures |Triples(rs[..m], topFirst)| <= |Triples(rs, topFirst)|
  {
    if m < |rs| {
      TriplesGrow(rs[..|rs|-1], m, topFirst);
      assert rs[..|rs|-1][..m] == rs[..m];
    } else {
      assert rs[..m] == rs;
    }
  }

  method ReadRecord(p: seq<byte>, leftBits: nat, bits: nat) returns (r: Option<Record>)
    requires leftBits <= 8 * |p|
    ensures r == if bits + RECORD_BITS > leftBits then None else Some(RecordAt(p, bits))
  {
    r := None;
    var prio := Get(p, leftBits, bits, 2);
    if prio == None { return; }
    var field := Get(p, leftBits, bits + 2, 2);
    if field == None { return; }
    var line := Get(p, leftBits, bits + 4, 5);
    if line == None { return; }
    var cc1 := Get(p, leftBits, bits + 9, 8);
    if cc1 == None { return; }
    var cc2 := Get(p, leftBits, bits + 17, 8);
    if cc2 == None { return; }
    var mark := Get(p, leftBits, bits + 25, 1);
    if mark == None { return; }
    FieldBounds(p, bits + 9, 8);
    FieldBounds(p, bits + 17, 8);
    r := Some(Record(field.value, line.value, cc1.value, cc2.value));
  }

  /** Of `n` whole records, the one after the first `i` is there exactly if it is one of them. */
  predicate IsWhole(leftBits: nat, n: nat, i: nat) {
    i <= n && (i < n <==> 5 + RECORD_BITS * (i + 1) <= leftBits)
  }

  lemma WholeUpTo(leftBits: nat, announced: nat, i: nat)
    requires leftBits >= 5 && i < announced && i <= Whole(leftBits, announced)
    ensures IsWhole(leftBits, Whole(leftBits, announced), i)
  {
  }

  lemma AllOf<T>(s: seq<T>)
    ensures s[..|s|] == s
  {
  }

  /** How far the conversion of records has come. */
  datatype Progress = Going | Cut | Overran

  class Converter {
    const chars: CharMap

    ghost predicate Valid()
      reads this, chars, chars.table
    {
      chars.Valid()
    }

    constructor ()
      ensures Valid() && fresh(chars) && fresh(chars.table)
    {
      chars := new CharMap();
    }

    /** The line of a record, as the source computes it; -1 when there is none. */
    method Line(r: Record, topFirst: bool) returns (line: int)
      requires r.field < 4
      ensures LineOf(r, topFirst) == if line < 0 then None else Some(line)
    {
      var field := if r.field == 3 then 1 else r.field;
      if field == 1 {
        line := if topFirst then r.line + 10 else r.line + 273;
      } else if field == 2 {
        line := if topFirst then r.line + 273 else r.line + 10;
      } else {
        line := -1;
      }
    }

    /** Puts the triple of a record behind others, if it is on a caption line.  `fits` is false
        where the source writes behind its buffer. */
    method Append(ccData: array<byte>, position: nat, r: Record, topFirst: bool, ghost head: seq<byte>,
                  ghost ts: seq<Triple>)
      returns (fits: bool, next: nat)
      requires Valid() && r.field < 4 && ccData != chars.table
      requires |head| == 7 && ccData.Length == 64 && Holds(ccData[..], position, head, ts)
      modifies ccData, chars.table
      ensures Valid() && fits == (|ts| + |TriplesOf(r, topFirst)| <= MAX_TRIPLES)
      ensures fits ==> Holds(ccData[..], next, head, ts + TriplesOf(r, topFirst))
    {
      fits, next := true, position;
      var line := Line(r, topFirst);
      if line == 21 || line == 284 {
        if position + 3 > ccData.Length {
          return false, position;
        }
        ghost var t := Triple(if line == 21 then 4 else 5, Reverse(r.cc1), Reverse(r.cc2));
        HoldsMore(ccData[..], position, head, ts, t);
        ccData[position] := if line == 21 then 4 else 5;
        ccData[position + 1] := chars.GetChar(r.cc1);
        ccData[position + 2] := chars.GetChar(r.cc2);
        next := position + 3;
        assert TriplesOf(r, topFirst) == [t];
      } else {
        assert TriplesOf(r, topFirst) == [] && ts + [] == ts;
      }
    }

    /** Reads record `i`, if it is there. */
    method ReadNth(p: seq<byte>, leftBits: nat, i: nat, ghost rs: seq<Record>) returns (r: Option<Record>)
      requires leftBits <= 8 * |p| && AreRecords(rs, p) && IsWhole(leftBits, |rs|, i)
      ensures r == if i < |rs| then Some(rs[i]) else None
      ensures r.Some? ==> r.value.field < 4
    {
      r := ReadRecord(p, leftBits, 5 + RECORD_BITS * i);
      if i < |rs| {
        assert RecordIs(rs, p, i);
      }
    }

    /** Reads record `i` and converts it. */
    method ConvertOne(p: seq<byte>, leftBits: nat, topFirst: bool, i: nat, ccData: array<byte>, position: nat,
                      ghost head: seq<byte>, ghost rs: seq<Record>)
      returns (progress: Progress, next: nat)
      requires Valid() && ccData != chars.table && ccData.Length == 64 && |head| == 7
      requires leftBits <= 8 * |p| && AreRecords(rs, p) && IsWhole(leftBits, |rs|, i)
      requires Holds(ccData[..], position, head, Triples(rs[..i], topFirst))
      modifies ccData, chars.table
      ensures Valid() && (progress == Cut <==> i == |rs|)
      ensures progress == Overran ==> |Triples(rs, topFirst)| > MAX_TRIPLES
      ensures progress == Going ==> |Triples(rs[..i+1], topFirst)| <= MAX_TRIPLES
      ensures progress == Going ==> Holds(ccData[..], next, head, Triples(rs[..i+1], topFirst))
    {
      var r := ReadNth(p, leftBits, i, rs);
      if r == None {
        return Cut, position;
      }
      TriplesStep(rs, i, topFirst);
      TriplesGrow(rs, i + 1, topFirst);
      var fits: bool;
      fits, next := Append(ccData, position, r.value, topFirst, head, Triples(rs[..i], topFirst));
      progress := if fits then Going else Overran;
    }

    /** Converts the records of a section, as long as they are there and fit. */
    method ConvertRecords(p: seq<byte>, leftBits: nat, topFirst: bool, cnt: nat, ccData: array<byte>,
                          ghost head: seq<byte>, ghost rs: seq<Record>)
      returns (progress: Progress, position: nat)
      requires Valid() && ccData != chars.table && ccData.Length == 64 && head == ccData[..7]
      requires 5 <= leftBits <= 8 * |p| && AreRecords(rs, p) && |rs| == Whole(leftBits, cnt)
      modifies ccData, chars.table
      ensures Valid()
      ensures progress == Overran <==> |Triples(rs, topFirst)| > MAX_TRIPLES
      ensures progress == Cut ==> |rs| < cnt
      ensures progress == Going ==> |rs| == cnt && Holds(ccData[..], position, head, Triples(rs, topFirst))
    {
      position, progress := 7, Going;
      assert Holds(ccData[..], 7, head, Triples(rs[..0], topFirst));
      for i := 0 to cnt
        invariant Valid() && progress == Going && i <= |rs|
        invariant Holds(ccData[..], position, head, Triples(rs[..i], topFirst))
      {
        WholeUpTo(leftBits, cnt, i);
        progress, position := ConvertOne(p, leftBits, topFirst, i, ccData, position, head, rs);
        if progress == Cut {
          AllOf(rs);
          return;
        }
        if progress == Overran {
          return;
        }
      }
      AllOf(rs);
    }

    method MakeBuffer() returns (ccData: array<byte>)
      ensures fresh(ccData) && ccData.Length == 64 && ccData[..7] == HEAD
    {
      ccData := new byte[64](_ => 0);
      ccData[0], ccData[1], ccData[2], ccData[3], ccData[4] := 0x47, 0x41, 0x39, 0x34, 3;
    }

    method Finish(ccData: array<byte>, position: nat, ghost ts: seq<Triple>) returns (out: Outcome)
      requires Holds(ccData[..], position, HEAD, ts)
      modifies ccData
      ensures out == if ts == [] then Nothing else Converted(Packet(ts))
    {
      Finished(ccData[..], position, ts);
      ccData[5] := 0x40 + (position - 7) / 3;
      if position == 7 {
        return Nothing;
      }
      out := Converted(ccData[..position]);
    }

    /** The cc_data packet for the section at `p`, in a buffer that starts zeroed; it is overrun
        exactly when more than 19 of the records read are on a caption line. */
    method Convert(p: seq<byte>, leftBits: nat, topFirst: bool) returns (out: Outcome)
      requires Valid() && leftBits <= 8 * |p|
      modifies chars.table
      ensures Valid() && out == Conversion(p, leftBits, topFirst)
      ensures out == Overrun <==> leftBits >= 5 && |Triples(RecordsRead(p, leftBits), topFirst)| > MAX_TRIPLES
    {
      var cnt := Get(p, leftBits, 0, 5);
      if cnt == None {
        return Nothing;
      }
      ghost var rs := RecordsRead(p, leftBits);
      var ccData := MakeBuffer();
      var progress, position := ConvertRecords(p, leftBits, topFirst, cnt.value, ccData, HEAD, rs);
      if progress == Overran {
        return Overrun;
      }
      if progress == Cut {
        return Nothing;
      }
      out := Finish(ccData, position, Triples(rs, topFirst));
    }

    /** The first `len` bytes of the driver's buffer are user data.  The section starts two bytes
        behind its header; its length is counted from the header. */
    method ProcessScte(data: seq<byte>, len: nat, topBitValid: bool, topBitValue: bool)
      returns (head: nat, out: Outcome)
      requires Valid() && len + 2 <= |data|
      modifies chars.table
      ensures Valid()
      ensures forall k :: 0 <= k < head && k % 8 == 0 && k < len ==> !IsScte(data, k)
      ensures head + 8 > len ==> out == Nothing
      ensures head + 8 <= len ==>
                IsScte(data, head) && out == Conversion(data[head + 2..], 8 * (len - head), topBitValid ==> topBitValue)
    {
      head := FindHead(data, len);
      if len - head < 8 {
        return head, Nothing;
      }
      out := Convert(data[head + 2..], 8 * (len - head), topBitValid ==> topBitValue);
    }
  }

  /** The header of an SCTE 20 section. */
  predicate IsScte(data: seq<byte>, at: nat)
    requires at + 1 < |data|
  {
    data[at] == 3 && data[at + 1] % 0x80 == 1
  }

  /** Looks for the section header in the user data, every eight bytes. */
  method FindHead(data: seq<byte>, len: nat) returns (head: nat)
    requires len < |data|
    ensures head % 8 == 0 && (head < len ==> IsScte(data, head))
    ensures forall k :: 0 <= k < head && k % 8 == 0 && k < len ==> !IsScte(data, k)
  {
    head := 0;
    while head < len && !IsScte(data, head)
      invariant head % 8 == 0
      invariant forall k :: 0 <= k < head && k % 8 == 0 && k < len ==> !IsScte(data, k)
      decreases len - head
    {
      head := head + 8;
    }
  }

  /** The identifier of the packet, with the count still zero. */
  const HEAD: seq<byte> := [0x47, 0x41, 0x39, 0x34, 3, 0, 0]

  /** The buffer has a head and then some triples, up to a position. */
  ghost predicate Holds(cc: seq<byte>, position: nat, head: seq<byte>, ts: seq<Triple>) {
    && |cc| == 64 && position == 7 + 3 * |ts| <= 64
    && cc[..position] == head + Flat(ts)
  }

  lemma HoldsMore(cc: seq<byte>, position: nat, head: seq<byte>, ts: seq<Triple>, t: Triple)
    requires Holds(cc, position, head, ts) && |head| == 7 && |ts| < 19
    ensures Holds(cc[position := t.kind][position + 1 := t.c1][position + 2 := t.c2], position + 3, head, ts + [t])
  {
    var more := cc[position := t.kind][position + 1 := t.c1][position + 2 := t.c2];
    FlatAppend(ts, t);
    assert more[..position + 3] == cc[..position] + [t.kind, t.c1, t.c2];
  }

  lemma Finished(cc: seq<byte>, position: nat, ts: seq<Triple>)
    requires Holds(cc, position, HEAD, ts)
    ensures (position - 7) / 3 == |ts| <= 19
    ensures cc[5 := 0x40 + |ts|][..position] == Packet(ts)
  {
    var flat := Flat(ts);
    assert cc[5 := 0x40 + |ts|][..position] == cc[..position][5 := 0x40 + |ts|];
    assert (HEAD + flat)[5 := 0x40 + |ts|] == [0x47, 0x41, 0x39, 0x34, 3, 0x40 + |ts|, 0] + flat;
  }

}
