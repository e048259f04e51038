/** Bytes and the little-endian words of the wire formats. */
module Bytes {

  type byte = x: int | 0 <= x < 256

  const TWO_32: int := 0x1_0000_0000
  const TWO_64: int := 0x1_0000_0000_0000_0000

  const MAX_INT: nat := 0x7FFF_FFFF

  lemma ConcatIsAssociative<T>(x: seq<T>, y: seq<T>, z: seq<T>)
    ensures x + (y + z) == (x + y) + z
  {
  }

  function Pow256(n: nat): (p: nat)
    ensures p >= 1
  {
    if n == 0 then 1 else 256 * Pow256(n - 1)
  }

  /** The `n` lowest bytes of a value, lowest first. */
  function ToLE(v: nat, n: nat): (b: seq<byte>)
    ensures |b| == n
  {
    if n == 0 then [] else [v % 256] + ToLE(v / 256, n - 1)
  }

  function FromLE(b: seq<byte>): nat {
    if b == [] then 0 else b[0] + 256 * FromLE(b[1..])
  }

  /** Reading back the bytes of a value that fits them gives the value. */
  lemma {:induction false} LERoundTrip(v: nat, n: nat)
    requires v < Pow256(n)
    ensures FromLE(ToLE(v, n)) == v
  {
    if n > 0 {
      assert v / 256 < Pow256(n - 1);
      LERoundTrip(v / 256, n - 1);
      assert ToLE(v, n)[1..] == ToLE(v / 256, n - 1);
    }
  }

  /** The bytes of a 32-bit value; a negative value has its two's complement. */
  function Word(v: int): (b: seq<byte>)
    ensures |b| == 4
  {
    ToLE(v % TWO_32, 4)
  }

  /** The bytes of a 64-bit value. */
  function LongWord(v: int): (b: seq<byte>)
    ensures |b| == 8
  {
    ToLE(v % TWO_64, 8)
  }

  lemma {:induction false} FromLEBound(b: seq<byte>)
    ensures FromLE(b) < Pow256(|b|)
  {
    if b != [] {
      FromLEBound(b[1..]);
    }
  }

  /** The unsigned number in the first four bytes. */
  function PeekWord(b: seq<byte>): (w: nat)
    requires |b| >= 4
    ensures w < TWO_32
  {
    FromLEBound(b[..4]);
    Pow256Values();
    FromLE(b[..4])
  }

  /** The same word as the source puts it together, from the first four chars, unsigned. */
  function PeekAsSocketWord(b: seq<byte>): (w: nat)
    requires |b| >= 4
    ensures w == PeekWord(b)
  {
    PeekIsFromLE(b);
    var b0: int, b1: int, b2: int, b3: int := b[0], b[1], b[2], b[3];
    b0 + 0x100 * b1 + 0x1_0000 * b2 + 0x100_0000 * b3
  }

  lemma PeekIsFromLE(b: seq<byte>)
    requires |b| >= 4
    ensures FromLE(b[..4])
      == (b[0] as int) + 0x100 * (b[1] as int) + 0x1_0000 * (b[2] as int) + 0x100_0000 * (b[3] as int)
  {
    var c, d := b[..4], b[1..4];
    assert c[1..] == d && d[1..] == b[2..4] && b[2..4][1..] == b[3..4] && b[3..4][1..] == [];
    assert FromLE(b[3..4]) == b[3] + 256 * FromLE([]);
    assert FromLE(b[2..4]) == b[2] + 256 * FromLE(b[3..4]);
    assert FromLE(d) == b[1] + 256 * FromLE(b[2..4]);
  }

  lemma Pow256Values()
    ensures Pow256(4) == TWO_32
    ensures Pow256(8) == TWO_64
  {
    assert Pow256(2) == 0x1_0000;
    assert Pow256(5) == 256 * Pow256(4);
    assert Pow256(7) == 256 * (256 * Pow256(5));
  }

  /** A word written by `memcpy` is read back by the peek, modulo 2^32. */
  lemma WordRoundTrip(v: int, rest: seq<byte>)
    ensures PeekWord(Word(v) + rest) == v % TWO_32
  {
    Pow256Values();
    assert (Word(v) + rest)[..4] == Word(v);
    LERoundTrip(v % TWO_32, 4);
  }

  /** Bytes are the bytes of the number they stand for. */
  lemma {:induction false} BytesOfTheNumber(b: seq<byte>)
    ensures ToLE(FromLE(b), |b|) == b
  {
    if b != [] {
      BytesOfTheNumber(b[1..]);
      assert FromLE(b) % 256 == b[0] as int && FromLE(b) / 256 == FromLE(b[1..]);
    }
  }

  /** Words one after the other. */
  function Words(vs: seq<int>): (b: seq<byte>)
    ensures |b| == 4 * |vs|
  {
    if vs == [] then [] else Word(vs[0]) + Words(vs[1..])
  }

  lemma {:induction false} WordsAppend(a: seq<int>, b: seq<int>)
    ensures Words(a + b) == Words(a) + Words(b)
  {
    if a == [] {
      assert a + b == b;
    } else {
      assert (a + b)[1..] == a[1..] + b;
      WordsAppend(a[1..], b);
    }
  }

  /** The word at place `i` can be peeked, and its bytes are there. */
  lemma {:induction false} WordAt(vs: seq<int>, i: nat, tail: seq<byte>)
    requires i < |vs|
    ensures var b := (Words(vs) + tail)[4 * i..];
            PeekWord(b) == vs[i] % TWO_32 && b[..4] == Word(vs[i])
  {
    if i == 0 {
      assert (Words(vs) + tail)[0..] == Word(vs[0]) + (Words(vs[1..]) + tail);
      WordRoundTrip(vs[0], Words(vs[1..]) + tail);
    } else {
      WordAt(vs[1..], i - 1, tail);
      assert (Words(vs) + tail)[4 * i..] == (Words(vs[1..]) + tail)[4 * (i - 1)..];
    }
  }

  /** A longer little-endian number is its first word and, above it, the rest. */
  lemma FromLESplit(b: seq<byte>)
    requires |b| >= 4
    ensures FromLE(b) == PeekWord(b) + TWO_32 * FromLE(b[4..])
  {
    PeekIsFromLE(b);
    assert b[1..][1..] == b[2..] && b[2..][1..] == b[3..] && b[3..][1..] == b[4..];
    assert FromLE(b[3..]) == b[3] + 256 * FromLE(b[4..]);
    assert FromLE(b[2..]) == b[2] + 256 * FromLE(b[3..]);
    assert FromLE(b[1..]) == b[1] + 256 * FromLE(b[2..]);
  }

  /** Two words put together as high and low half give the 64-bit value back. */
  lemma LongWordRoundTrip(v: int, rest: seq<byte>)
    ensures var b := LongWord(v) + rest;
            PeekWord(b[4..]) * TWO_32 + PeekWord(b) == v % TWO_64
  {
    var b := LongWord(v) + rest;
    var w := LongWord(v);
    Pow256Values();
    FromLESplit(w);
    FromLESplit(w[4..]);
    assert w[4..][4..] == [];
    assert b[..4] == w[..4] && b[4..][..4] == w[4..][..4];
    LERoundTrip(v % TWO_64, 8);
  }

  /** The lower half of a 64-bit value in memory is the 32-bit word of the value. */
  lemma LowerHalf(v: int)
    ensures LongWord(v)[..4] == Word(v)
  {
    var w := LongWord(v);
    Pow256Values();
    FromLESplit(w);
    LERoundTrip(v % TWO_64, 8);
    LowerHalfOfANumber(v, PeekWord(w), FromLE(w[4..]));
    BytesOfTheNumber(w[..4]);
  }

  lemma LowerHalfOfANumber(v: int, low: int, high: int)
    requires 0 <= low < TWO_32 && v % TWO_64 == low + TWO_32 * high
    ensures low == v % TWO_32
  {
    LowWord(low, high + TWO_32 * (v / TWO_64));
  }

  lemma LowWord(low: int, q: int)
    requires 0 <= low < TWO_32
    ensures (low + TWO_32 * q) % TWO_32 == low
  {
    var r := (low + TWO_32 * q) % TWO_32;
    assert low + TWO_32 * q == TWO_32 * ((low + TWO_32 * q) / TWO_32) + r;
  }

}
