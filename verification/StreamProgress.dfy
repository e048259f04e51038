/** Progress and placement: what an arrival is turned into, which SPUs memory pressure drops,
    and that everything due reaches the screen. */
module StreamProgress {
  import opened Wrappers
  import opened Clock
  import opened SpuList
  import opened StreamSpec
  import opened StreamProps

  /** After arrival a stream SPU starts less than 200 s from the clock; a rescued one starts a
      second from now, give or take the millisecond the conversion drops, and lasts two. */
  lemma ArrivalIsNearClock(x: Spu, ts: int)
    requires ArrivalInRange(x) && ClockInRange(ts) && !x.isExt
    ensures var r := Rescue(x, ts);
            && -200 * 1000 * 1000 * 1000 < DvbToNs(r.pts) - ts < 200 * 1000 * 1000 * 1000
            && (r != x ==> r.delay - r.pts == DEFAULT_DELAY
                           && 0 <= ts + 1000 * 1000 * 1000 - DvbToNs(r.pts) + NS_PER_MS <= 2 * NS_PER_MS)
  {
    NsRoundTrip(ts + 1000 * 1000 * 1000);
  }

  /** A stream SPU is moved exactly when it is 200 s or more away from the clock, and an external
      one never. */
  lemma MovedIffFar(x: Spu, ts: int)
    requires ArrivalInRange(x) && ClockInRange(ts)
    ensures var ahead := DvbToNs(x.pts) - ts;
            Rescue(x, ts) != x <==>
              !x.isExt && (ahead >= 200 * 1000 * 1000 * 1000 || -ahead >= 200 * 1000 * 1000 * 1000)
  {
    NsRoundTrip(ts + 1000 * 1000 * 1000);
  }

  /** The first `gone` of the SPUs that wait are evicted, and nothing else changes. */
  predicate DropsFirst(s: Sched, r: Sched, gone: nat) {
    && gone <= |s.waiting|
    && r == s.(waiting := s.waiting[gone..], retired := s.retired + Retire(s.waiting[..gone], Evicted))
  }

  lemma EvictDropsFirst(s: Sched, x: Spu)
    ensures DropsFirst(s, Evict(s, x),
                       if |x.Bytes()| + QueuedMemory(s.waiting) >= 5 * 1920 * 1080 * 4 then |s.waiting| / 2 else 0)
  {
    assert s.waiting[0..] == s.waiting && s.retired + Retire(s.waiting[..0], Evicted) == s.retired;
  }

  /** After an arrival that is queued, in its place, the earlier half goes exactly when the bytes
      that waited and twice those of the arrival reach the limit. */
  lemma HalfGoesIffFull(s: Sched, x: Spu, ts: int)
    requires Sorted(s.waiting) && IsQueued(Rescue(x, ts), ts)
    ensures var w := InsertByPts(s.waiting, Rescue(x, ts));
            DropsFirst(s.(waiting := w), Arrive(s, x, ts),
                       if QueuedMemory(s.waiting) + 2 * |x.Bytes()| >= 5 * 1920 * 1080 * 4 then |w| / 2 else 0)
  {
    var y := Rescue(x, ts);
    SortAfterPush(s.waiting, y);
    InsertAddsMemory(s.waiting, y);
    EvictDropsFirst(s.(waiting := InsertByPts(s.waiting, y)), y);
  }

  /** With the clock at zero only captions and SPUs with pts zero are queued; any other is retired,
      and can still set off the eviction. */
  lemma NotQueuedIsRetired(s: Sched, x: Spu, ts: int)
    requires ClockInRange(ts)
    ensures IsQueued(x, ts) <==> !(ts == 0 && x.pts != 0 && x.kind != ClosedCaption)
    ensures !IsQueued(Rescue(x, ts), ts) ==>
              DropsFirst(s.(retired := s.retired + [Retirement(x.id, NotQueued)]), Arrive(s, x, ts),
                         if QueuedMemory(s.waiting) + |x.Bytes()| >= 5 * 1920 * 1080 * 4 then |s.waiting| / 2 else 0)
  {
    var y := Rescue(x, ts);
    assert Retire([y], NotQueued) == [Retirement(x.id, NotQueued)];
    EvictDropsFirst(s.(retired := s.retired + [Retirement(x.id, NotQueued)]), y);
  }

  /** Under memory pressure the earlier half goes: no dropped SPU is later than a kept one. */
  lemma EvictionDropsTheEarlier(s: Sched, x: Spu)
    requires Sorted(s.waiting)
    ensures var r := Evict(s, x);
            && exists k: nat :: k <= |s.waiting| / 2 && r.waiting == s.waiting[k..]
                 && (k > 0 ==>
                       forall i, j :: 0 <= i < k && 0 <= j < |r.waiting| ==> s.waiting[i].pts <= r.waiting[j].pts)
  {
    var k := if Evict(s, x) == s then 0 else |s.waiting| / 2;
    assert Evict(s, x).waiting == s.waiting[k..];
  }

  predicate Due(x: Spu, ts: int) {
    !x.isExt && (x.isImmediate || DueAt(x, ts))
  }

  lemma DueIsShown(x: Spu, ts: int)
    requires Bounded(x) && ClockInRange(ts) && ts >= -TOLERANCE && Due(x, ts)
    ensures !TooFarAhead(x, ts) && !IsStale(x, ts) && Judge(Prepare(x, ts), ts) == ShowIt
  {
    if !x.isImmediate {
      PreparedFront(x, ts);
      ShowTestMeaning(x, ts);
      DvbToNsMonotone(Prepare(x, ts).pts, if Prepare(x, ts).pts <= x.pts then x.pts else Prepare(x, ts).pts);
    }
  }

  lemma {:induction false} DueAreKept(s: seq<Spu>, ts: int)
    requires forall x :: x in s ==> !TooFarAhead(x, ts)
    ensures Kept(s, ts) == s
  {
    if s != [] {
      DueAreKept(s[1..], ts);
    }
  }

  /** The next SPU is joined to the front one, once that is prepared. */
  predicate Joins(w: seq<Spu>, ts: int) {
    |w| >= 2 && Combinable(Prepare(w[0], ts), w[1])
  }

  /** That is: both are plain texts of the stream, and start at the same time. */
  lemma JoinsMeaning(w: seq<Spu>, ts: int)
    requires |w| >= 2
    ensures Joins(w, ts) <==>
              && Prepare(w[0], ts).pts == w[1].pts
              && forall i :: 0 <= i < 2 ==> w[i].isSimpleText && !w[i].isExt && !w[i].isImmediate
  {
    assert Joins(w, ts) <==> Combinable(Prepare(w[0], ts), w[1]);
  }

  /** The SPU that is displayed: the prepared front, with the joined text if there is any. */
  function Displayed(w: seq<Spu>, ts: int): Spu
    requires w != []
  {
    var x := Prepare(w[0], ts);
    if Joins(w, ts) then x.(data := Some(CombinedText(x.Bytes(), w[1].Bytes()))) else x
  }

  function Behind(w: seq<Spu>, ts: int): seq<Spu>
    requires w != []
  {
    if Joins(w, ts) then w[2..] else w[1..]
  }

  /** The history only gets longer. */
  predicate Extends(before: Sched, after: Sched) {
    before.calls <= after.calls && before.retired <= after.retired
  }

  /** What a tick that shows its front SPU does to the list and to the history. */
  predicate ShowsFront(s: Sched, r: Sched, ts: int)
    requires s.waiting != []
  {
    && r.waiting == Behind(s.waiting, ts) && Extends(s, r)
    && s.calls + DisplayCalls(Displayed(s.waiting, ts), r.waiting) <= r.calls
    && (Joins(s.waiting, ts) ==> s.retired + Retire(s.waiting[1..2], Merged) <= r.retired)
  }

  /** A tick with everything due displays the front SPU and takes it off the list, together with
      the next one exactly when that was joined to it. */
  lemma TickShowsTheFront(s: Sched, ts: int)
    requires Inv(s) && ClockInRange(ts) && ts >= -TOLERANCE
    requires s.waiting != [] && forall x :: x in s.waiting ==> Due(x, ts)
    ensures ShowsFront(s, Tick(s, None, ts), ts)
  {
    forall x | x in s.waiting ensures !TooFarAhead(x, ts) {
      DueIsShown(x, ts);
    }
    var front := s.waiting[0];
    DueIsShown(front, ts);
    DueAreKept(s.waiting, ts);
    NoneArePurged(s.waiting, ts);
    ShowPhaseShows(s, Prepare(front, ts), ts);
  }

  lemma {:induction false} NoneArePurged(s: seq<Spu>, ts: int)
    requires forall x :: x in s ==> !TooFarAhead(x, ts)
    ensures Purged(s, ts) == []
  {
    if s != [] {
      NoneArePurged(s[1..], ts);
    }
  }

  lemma ShowPhaseShows(s: Sched, x: Spu, ts: int)
    requires s.waiting != [] && !IsStale(s.waiting[0], ts) && !TooFarAhead(s.waiting[0], ts)
    requires Kept(s.waiting, ts) == s.waiting && Purged(s.waiting, ts) == []
    requires x == Prepare(s.waiting[0], ts) && Judge(x, ts) == ShowIt
    ensures ShowsFront(s, Tick(s, None, ts), ts)
  {
    var s3 := WithFront(Purge(s, ts), x, false);
    ShowPhasePresents(s, x, ts);
    assert s3.waiting[1..] == s.waiting[1..] && s3.retired == s.retired;
    PresentShows(s, s3, x, ts);
    FadeExtends(Present(s3, x, NsToDvb(ts)), ts);
  }

  lemma ShowPhasePresents(s: Sched, x: Spu, ts: int)
    requires s.waiting != [] && !IsStale(s.waiting[0], ts) && !TooFarAhead(s.waiting[0], ts)
    requires Kept(s.waiting, ts) == s.waiting
    requires x == Prepare(s.waiting[0], ts) && Judge(x, ts) == ShowIt
    ensures ShowPhase(s, ts) == (Present(WithFront(Purge(s, ts), x, false), x, NsToDvb(ts)), false)
  {
    assert DropStale(s, ts) == s;
  }

  lemma FadeExtends(s: Sched, ts: int)
    ensures FadePhase(s, ts).waiting == s.waiting && Extends(s, FadePhase(s, ts))
  {
  }

  lemma PresentShows(s: Sched, s3: Sched, x: Spu, ts: int)
    requires s.waiting != [] && s3.waiting != [] && s3.waiting[1..] == s.waiting[1..]
    requires s3.calls == s.calls && s3.retired == s.retired && x == Prepare(s.waiting[0], ts)
    ensures ShowsFront(s, Present(s3, x, NsToDvb(ts)), ts)
  {
    var rest := s.waiting[1..];
    if |s.waiting| >= 2 {
      assert rest[0] == s.waiting[1] && rest[1..] == s.waiting[2..] && rest[..1] == s.waiting[1..2];
    }
  }

  predicate TickStep(states: seq<Sched>, ts: int, i: nat)
    requires i + 1 < |states|
  {
    states[i + 1] == Tick(states[i], None, ts)
  }

  /** The states of a run of ticks at one clock reading. */
  predicate AreTicks(states: seq<Sched>, ts: int) {
    states != [] && forall i {:trigger TickStep(states, ts, i)} :: 0 <= i < |states| - 1 ==> TickStep(states, ts, i)
  }

  /** Between two states the SPU was sent to the display, or joined to one that was. */
  predicate Handled(before: Sched, after: Sched, x: Spu) {
    || (exists i :: |before.calls| <= i < |after.calls| && after.calls[i].Show? && after.calls[i].spu.id == x.id)
    || (exists i :: |before.retired| <= i < |after.retired| && after.retired[i] == Retirement(x.id, Merged))
  }

  lemma ExtendsOn(a: Sched, b: Sched, c: Sched)
    requires Extends(a, b) && Extends(b, c)
    ensures Extends(a, c)
  {
  }

  lemma HandledLater(a: Sched, b: Sched, c: Sched, x: Spu)
    requires Extends(a, b) && Extends(b, c)
    ensures Handled(a, b, x) || Handled(b, c, x) ==> Handled(a, c, x)
  {
  }

  lemma FrontIsHandled(s: Sched, r: Sched, ts: int, x: Spu)
    requires s.waiting != [] && ShowsFront(s, r, ts) && x in s.waiting && x !in r.waiting && x.data.Some?
    ensures Handled(s, r, x)
  {
    var d := Displayed(s.waiting, ts);
    if x == s.waiting[0] {
      assert d.id == x.id && d.data.Some?;
      assert r.calls[|s.calls|] == Show(d);
    } else {
      assert Joins(s.waiting, ts) && x == s.waiting[1];
      assert r.retired[|s.retired|] == Retirement(x.id, Merged);
    }
  }

  /** So it was with every SPU that waited and has something to show. */
  predicate AllHandled(before: Sched, after: Sched) {
    forall x {:trigger Handled(before, after, x)} :: x in before.waiting && x.data.Some? ==> Handled(before, after, x)
  }

  predicate AllDue(s: Sched, ts: int) {
    forall x :: x in s.waiting ==> Due(x, ts)
  }

  /** When everything waiting is due, as many ticks as SPUs empty the list, and every SPU that has
      something to show was sent to the display, or joined to one that was. */
  lemma {:induction false} EverythingDueIsShown(states: seq<Sched>, ts: int, i: nat, end: Sched)
    requires ClockInRange(ts) && ts >= -TOLERANCE && AreTicks(states, ts) && end == states[|states|-1]
    requires i < |states| && Inv(states[i]) && AllDue(states[i], ts)
    requires |states| - 1 - i >= |states[i].waiting|
    ensures end.waiting == [] && Extends(states[i], end) && AllHandled(states[i], end)
    decreases |states| - i
  {
    if i < |states| - 1 {
      NextTick(states, ts, i);
      EverythingDueIsShown(states, ts, i + 1, end);
      HandledOneTickEarlier(states[i], states[i + 1], end, ts);
    }
  }

  lemma NextTick(states: seq<Sched>, ts: int, i: nat)
    requires ClockInRange(ts) && ts >= -TOLERANCE && AreTicks(states, ts)
    requires i + 1 < |states| && Inv(states[i]) && AllDue(states[i], ts)
    ensures Inv(states[i + 1]) && AllDue(states[i + 1], ts) && Extends(states[i], states[i + 1])
    ensures states[i + 1].waiting == [] || |states[i + 1].waiting| < |states[i].waiting|
    ensures ShowsNext(states[i], states[i + 1], ts)
  {
    assert TickStep(states, ts, i);
    TickLeavesFewer(states[i], ts);
    if states[i].waiting != [] {
      TickShowsTheFront(states[i], ts);
    }
  }

  predicate ShowsNext(s: Sched, r: Sched, ts: int) {
    s.waiting != [] ==> ShowsFront(s, r, ts)
  }

  lemma HandledOneTickEarlier(s: Sched, r: Sched, end: Sched, ts: int)
    requires ShowsNext(s, r, ts) && Extends(s, r) && Extends(r, end) && AllHandled(r, end)
    ensures Extends(s, end) && AllHandled(s, end)
  {
    ExtendsOn(s, r, end);
    forall x | x in s.waiting && x.data.Some? ensures Handled(s, end, x) {
      assert x in r.waiting ==> Handled(r, end, x);
      HandledLater(s, r, end, x);
      if x !in r.waiting {
        FrontIsHandled(s, r, ts, x);
      }
    }
  }

  lemma TickLeavesFewer(s: Sched, ts: int)
    requires Inv(s) && ClockInRange(ts) && ts >= -TOLERANCE
    requires forall x :: x in s.waiting ==> Due(x, ts)
    ensures var r := Tick(s, None, ts);
            Inv(r) && (forall x :: x in r.waiting ==> Due(x, ts)) && (r.waiting == [] || |r.waiting| < |s.waiting|)
    ensures Extends(s, Tick(s, None, ts))
  {
    TickKeepsInv(s, None, ts);
    if s.waiting == [] {
      FadeExtends(s, ts);
    } else {
      TickShowsTheFront(s, ts);
    }
  }

}
