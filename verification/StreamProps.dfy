/** What the stream scheduler keeps over every run of arrivals, ticks, clock jumps and resets. */
module StreamProps {
  import opened Bytes
  import opened Clock
  import opened Wrappers
  import opened SpuList
  import opened StreamSpec

  const PTS_BOUND: int := DVB_LIMIT + 100_000
  const DELAY_BOUND: int := PTS_BOUND + SMALL_PTS_DELAY

  /** Times for which the tick-to-nanosecond conversion does not overflow 64 bits. */
  predicate Bounded(x: Spu) {
    -PTS_BOUND <= x.pts <= PTS_BOUND && -DELAY_BOUND <= x.delay <= DELAY_BOUND
  }

  predicate ArrivalInRange(x: Spu) {
    -DVB_LIMIT <= x.pts <= DVB_LIMIT && -DVB_LIMIT <= x.delay <= DVB_LIMIT
  }

  predicate MessageInRange(m: Message) {
    m.CheckSpu? ==> ClockInRange(m.ts) && (m.arrival.Some? ==> ArrivalInRange(m.arrival.value))
  }

  /** The waiting list is ordered by pts, at most one SPU fades, and it stays on the screen
      for a second or more. */
  ghost predicate Inv(s: Sched) {
    && Sorted(s.waiting)
    && |s.fading| <= 1
    && (forall x :: x in s.waiting ==> Bounded(x))
    && (forall x :: x in s.fading ==> Bounded(x) && x.delay - x.pts >= ONE_SECOND)
  }

  // ---- The order of the waiting list ----

  lemma ArriveKeepsInv(s: Sched, x: Spu, ts: int)
    requires Inv(s) && ArrivalInRange(x) && ClockInRange(ts)
    ensures Inv(Arrive(s, x, ts))
  {
    var x' := Rescue(x, ts);
    assert Bounded(x');
    var s1 := Enqueue(s, x', ts);
    SortAfterPush(s.waiting, x');
    InsertKeepsOrder(s.waiting, x');
    assert Inv(s1);
  }

  lemma {:induction false} DropStaleKeepsInv(s: Sched, ts: int)
    requires Inv(s)
    ensures Inv(DropStale(s, ts))
    ensures DropStale(s, ts).fading == s.fading
    decreases |s.waiting|
  {
    if s.waiting != [] && IsStale(s.waiting[0], ts) {
      var s' := s.(waiting := s.waiting[1..], retired := s.retired + Retire(s.waiting[..1], Stale));
      assert Inv(s');
      if s'.waiting != [] {
        DropStaleKeepsInv(s', ts);
      }
    }
  }

  /** The clock moves the front's pts: up to the clock when it has none, down when it is cut
      to 32 bits.  In the first case it is shown at once, in the second it stays in front. */
  lemma PreparedFront(x: Spu, ts: int)
    requires Bounded(x) && ClockInRange(ts)
    ensures Bounded(Prepare(x, ts))
    ensures ShowNow(Prepare(x, ts), ts) || Prepare(x, ts).pts <= x.pts
  {
    if DvbToMs(x.pts) <= 0 && !x.isImmediate {
      assert Prepare(x, ts).pts == NsToDvb(ts);
      AnchoredIsShown(Prepare(x, ts), ts);
    }
  }

  /** An SPU given the clock's own time passes the wrapping comparison, for every clock. */
  lemma AnchoredIsShown(x: Spu, ts: int)
    requires ClockInRange(ts) && x.pts == NsToDvb(ts)
    ensures ShowNow(x, ts)
  {
    NsRoundTrip(ts);
  }

  predicate NowInRange(now: int) {
    -DVB_LIMIT <= now <= DVB_LIMIT
  }

  lemma FixedEnd(x: Spu, now: int)
    requires Bounded(x) && NowInRange(now)
    ensures Bounded(FixEnd(x, now)) && FixEnd(x, now).delay - FixEnd(x, now).pts >= ONE_SECOND
  {
  }

  lemma PresentKeepsInv(s: Sched, x: Spu, now: int)
    requires Sorted(s.waiting) && s.waiting != [] && |s.fading| <= 1
    requires forall y :: y in s.waiting[1..] ==> Bounded(y)
    requires Bounded(x) && NowInRange(now)
    ensures Inv(Present(s, x, now))
  {
    var (s1, x1) := PopAndCombine(s, x);
    assert Sorted(s1.waiting) && forall y :: y in s1.waiting ==> Bounded(y) by {
      assert Sorted(s.waiting[1..]);
      assert s1.waiting == s.waiting[1..] || s1.waiting == s.waiting[1..][1..];
    }
    FixedEnd(x1, now);
    assert Present(s, x, now).fading == [FixEnd(x1, now)];
  }

  lemma PresentOnlyUsesTail(s: Sched, x: Spu, now: int)
    requires s.waiting != []
    ensures Present(WithFront(s, x, false), x, now) == Present(s, x, now)
  {
    assert WithFront(s, x, false).waiting[1..] == s.waiting[1..];
  }

  lemma DecideKeepsInv(s: Sched, x: Spu, now: int, v: Verdict, purged: bool)
    requires Inv(s) && s.waiting != [] && Bounded(x) && NowInRange(now)
    requires v == ShowIt || purged || x.pts <= s.waiting[0].pts
    ensures Inv(Decide(WithFront(s, x, purged), x, now, v))
  {
    PresentOnlyUsesTail(s, x, now);
    if v == ShowIt {
      PresentKeepsInv(s, x, now);
    }
  }

  lemma ShowPhaseKeepsInv(s: Sched, ts: int)
    requires Inv(s) && s.waiting != [] && ClockInRange(ts)
    ensures Inv(ShowPhase(s, ts).0)
  {
    DropStaleKeepsInv(s, ts);
    var s1 := DropStale(s, ts);
    PurgeKeepsOrder(s1.waiting, ts);
    var s2 := Purge(s1, ts);
    if s2.waiting != [] {
      var front := s1.waiting[0];
      var x := Prepare(front, ts);
      DecideKeepsInv(s2, x, NsToDvb(ts), Judge(x, ts), TooFarAhead(front, ts)) by {
        PreparedFront(front, ts);
        assert TooFarAhead(front, ts) || s2.waiting[0] == front;
      }
    }
  }

  lemma FadeKeepsInv(s: Sched, fades: bool)
    requires Inv(s) && s.fading != []
    ensures Inv(Fade(s, fades))
  {
  }

  lemma TickKeepsInv(s: Sched, arrival: Option<Spu>, ts: int)
    requires Inv(s) && ClockInRange(ts) && (arrival.Some? ==> ArrivalInRange(arrival.value))
    ensures Inv(Tick(s, arrival, ts))
  {
    var s1 := if arrival.Some? then Arrive(s, arrival.value, ts) else s;
    if arrival.Some? {
      ArriveKeepsInv(s, arrival.value, ts);
    }
    if s1.waiting != [] {
      ShowPhaseKeepsInv(s1, ts);
    }
    var s2 := if s1.waiting == [] then s1 else ShowPhase(s1, ts).0;
    if s2.fading != [] {
      FadeKeepsInv(s2, FadesNow(s2.fading[0], ts));
    }
  }

  lemma HandleKeepsInv(s: Sched, m: Message)
    requires Inv(s) && MessageInRange(m)
    ensures Inv(Handle(s, m))
  {
    if m.CheckSpu? {
      TickKeepsInv(s, m.arrival, m.ts);
    }
  }

  /** Over every run the waiting list stays ordered by pts, the fading list never holds more
      than one SPU, and that one ends a second or more after it starts. */
  lemma {:induction false} RunKeepsInv(ms: seq<Message>)
    requires forall m :: m in ms ==> MessageInRange(m)
    ensures Inv(Run(ms))
  {
    if ms != [] {
      RunKeepsInv(ms[..|ms|-1]);
      HandleKeepsInv(Run(ms[..|ms|-1]), ms[|ms|-1]);
    }
  }

  // ---- The timing tests mean what they intend ----

  /** The intended test on signed times. */
  predicate DueAt(x: Spu, ts: int) {
    DvbToNs(x.pts) <= ts + TOLERANCE
  }

  /** The two unsigned tests on a start time `p` and the clock `t`, as one signed comparison. */
  lemma UnsignedTests(p: int, t: int)
    requires -TWO_64 / 4 <= p <= TWO_64 / 4 && -TWO_64 / 4 <= t <= TWO_64 / 4
    requires p >= 0 || t - NS_PER_MS <= p + TOLERANCE <= t + NS_PER_MS
    ensures U64(p) <= U64(t) || U64(t - p) <= SHOW_DIFF_MAX <==> p <= t || (t < 0 && p >= 0)
  {
  }

  /** For a normal SPU whose time was checked against the clock, the wrapping tests together
      decide the signed comparison, and differ from it only when the clock is more than one
      frame before zero. */
  lemma ShowTestMeaning(x: Spu, ts: int)
    requires Bounded(x) && ClockInRange(ts) && !x.isImmediate
    ensures var y := Prepare(x, ts);
            ShowNow(y, ts) <==> DueAt(y, ts) || (ts < -TOLERANCE && y.pts >= 0)
  {
    NsRoundTrip(ts);
    var y := Prepare(x, ts);
    assert y.pts >= 0 || y.pts == NsToDvb(ts);
    UnsignedTests(DvbToNs(y.pts), ts + TOLERANCE);
  }

  /** The "difference too large, discard" branch is never taken: its first test already shows. */
  lemma DiscardBranchIsDead(x: Spu, ts: int)
    ensures Judge(x, ts) != DiscardIt
  {
  }

  /** An SPU that is not due is looked at again exactly when it starts, more than a frame
      from now. */
  lemma WakeAtStart(x: Spu, ts: int)
    requires Bounded(x) && ClockInRange(ts) && ts >= -TOLERANCE && !x.isImmediate && !x.isExt
    ensures var y := Prepare(x, ts);
            var ahead := DvbToNs(y.pts) - ts;
            Judge(y, ts) == if ahead <= TOLERANCE then ShowIt else WaitFor(ahead)
  {
    ShowTestMeaning(x, ts);
    PreparedFront(x, ts);
  }

  /** The two wrapping fade tests, read as signed comparisons, for every clock reading. */
  lemma FadeTestMeaning(x: Spu, ts: int)
    requires Bounded(x) && ClockInRange(ts)
    ensures var end := DvbToNs(x.delay);
            FadesNow(x, ts) <==>
              ts != 0 && (end < ts || end > ts + AheadTolerance(x) || (end == ts && ts > 0))
  {
    var end := DvbToNs(x.delay);
    assert -102_000_000_000_000_000 <= end <= 102_000_000_000_000_000;
    U64OfU64Minus(end, ts);
    U64Times5(end);
  }

  lemma U64OfU64Minus(a: int, b: int)
    ensures U64(U64(a) - b) == U64(a - b)
  {
    var q := a / TWO_64;
    assert U64(a) - b == (a - b) - q * TWO_64;
    ModShift(a - b, -q);
  }

  lemma U64Times5(a: int)
    ensures U64(U64(a) * 5) == U64(a * 5)
  {
    var q := a / TWO_64;
    assert U64(a) * 5 == a * 5 - (5 * q) * TWO_64;
    ModShift(a * 5, -5 * q);
  }

  lemma ModShift(a: int, k: int)
    ensures (a + k * TWO_64) % TWO_64 == a % TWO_64
  {
  }

  /** With the clock running, a fading SPU leaves exactly when its end has passed or lies more
      than 100 s (5 s for an external one) ahead. */
  lemma FadesIffEnded(x: Spu, ts: int)
    requires Bounded(x) && ClockInRange(ts) && ts > 0
    ensures var end := DvbToNs(x.delay);
            FadesNow(x, ts) <==> end <= ts || end > ts + AheadTolerance(x)
  {
    FadeTestMeaning(x, ts);
  }

}
