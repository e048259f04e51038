/** Integer arithmetic of the subtitle clock: C++ division, 64-bit unsigned comparison,
    and the conversions between the 90 kHz "DVB" time base and nanoseconds. */
module Clock {

  import opened Bytes

  /** Ticks per millisecond of the DVB time base. */
  const DVB_TIME_MULTI: int := 90

  const NS_PER_MS: int := 1_000_000

  /** C++ integer division by a positive divisor: truncates toward zero. */
  function TruncDiv(a: int, b: int): (q: int)
    requires b > 0
    ensures a >= 0 ==> q * b <= a < q * b + b
    ensures a <= 0 ==> q * b - b < a <= q * b
  {
    if a >= 0 then a / b else -((-a) / b)
  }

  /** Conversion of a signed 64-bit value to uint64_t. */
  function U64(x: int): (r: int)
    ensures 0 <= r < TWO_64
    ensures 0 <= x < TWO_64 ==> r == x
    ensures -TWO_64 <= x < 0 ==> r == x + TWO_64
  {
    x % TWO_64
  }

  function NsToMs(ns: int): int {
    TruncDiv(ns, NS_PER_MS)
  }

  function DvbToMs(dvb: int): int {
    TruncDiv(dvb, DVB_TIME_MULTI)
  }

  function DvbToNs(dvb: int): int {
    TruncDiv(dvb * NS_PER_MS, DVB_TIME_MULTI)
  }

  function NsToDvb(ns: int): int {
    NsToMs(ns) * DVB_TIME_MULTI
  }

  /** The bits above bit 31 of a 64-bit value are not all zero. */
  predicate MoreThan32Bits(x: int) {
    (x / TWO_32) % TWO_32 != 0
  }

  /** The value after "&= 0xFFFFFFFF". */
  function Mask32(x: int): (r: int)
    ensures 0 <= r < TWO_32
    ensures x >= 0 ==> r <= x
  {
    x % TWO_32
  }

  /** Clock readings and SPU times for which the C++ signed arithmetic is defined. */
  const TIMESTAMP_LIMIT: int := 100_000_000_000_000_000
  const DVB_LIMIT: int := 9_000_000_000_000

  predicate ClockInRange(ts: int) {
    -TIMESTAMP_LIMIT <= ts <= TIMESTAMP_LIMIT
  }

  /** Converting nanoseconds to ticks and back only drops the fraction of a millisecond. */
  lemma NsRoundTrip(ns: int)
    ensures DvbToNs(NsToDvb(ns)) == NsToMs(ns) * NS_PER_MS
    ensures ns >= 0 ==> ns - NS_PER_MS < DvbToNs(NsToDvb(ns)) <= ns
    ensures ns < 0 ==> ns <= DvbToNs(NsToDvb(ns)) < ns + NS_PER_MS
  {
    var ms := NsToMs(ns);
    assert ms * DVB_TIME_MULTI * NS_PER_MS == (ms * NS_PER_MS) * DVB_TIME_MULTI;
  }

  /** Tick-to-nanosecond conversion never reverses the order of two times. */
  lemma DvbToNsMonotone(a: int, b: int)
    requires a <= b
    ensures DvbToNs(a) <= DvbToNs(b)
  {
  }

}
