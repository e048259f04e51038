/** Conservation: where each SPU taken from the parser is, and how often it is displayed. */
module StreamLedger {
  import opened Wrappers
  import opened Clock
  import opened SpuList
  import opened StreamSpec
  import opened StreamProps

  /** How often the SPU `id` was retired. */
  function RetiredCount(r: seq<Retirement>, id: nat): nat {
    if r == [] then 0 else RetiredCount(r[..|r|-1], id) + (if r[|r|-1].id == id then 1 else 0)
  }

  /** Retiring a list moves its SPUs into the history. */
  lemma {:induction false} RetireMore(r: seq<Retirement>, list: seq<Spu>, reason: Reason, id: nat)
    ensures RetiredCount(r + Retire(list, reason), id) == RetiredCount(r, id) + Count(list, id)
  {
    var all := r + Retire(list, reason);
    if list == [] {
      assert all == r;
    } else {
      var front := list[..|list|-1];
      assert all[..|all|-1] == r + Retire(front, reason);
      RetireMore(r, front, reason, id);
    }
  }

  /** How often the SPU `id` was sent to the display. */
  function ShownCount(calls: seq<Call>, id: nat): nat {
    if calls == [] then 0
    else
      var c := calls[|calls|-1];
      ShownCount(calls[..|calls|-1], id) + (if c.Show? && c.spu.id == id then 1 else 0)
  }

  lemma ShownOne(calls: seq<Call>, c: Call, id: nat)
    ensures ShownCount(calls + [c], id) == ShownCount(calls, id) + (if c.Show? && c.spu.id == id then 1 else 0)
  {
    assert (calls + [c])[..|calls|] == calls;
  }

  /** How often the SPU left the waiting list, for the screen or for good. */
  function Departed(s: Sched, id: nat): nat {
    Count(s.fading, id) + RetiredCount(s.retired, id)
  }

  /** How often the scheduler knows of the SPU, in all places together. */
  function Accounted(s: Sched, id: nat): nat {
    Count(s.waiting, id) + Departed(s, id)
  }

  /** Each new display of the SPU is matched by a departure from the waiting list. */
  predicate NoExtraShow(before: Sched, after: Sched, id: nat) {
    ShownCount(after.calls, id) - ShownCount(before.calls, id) <= Departed(after, id) - Departed(before, id)
  }

  /** A step that loses no SPU and displays none that it does not account for. */
  predicate Conserves(before: Sched, after: Sched, id: nat) {
    Accounted(after, id) == Accounted(before, id) && NoExtraShow(before, after, id)
  }

  function One(b: bool): nat {
    if b then 1 else 0
  }

  lemma EnqueueConserves(s: Sched, x: Spu, ts: int, id: nat)
    ensures Accounted(Enqueue(s, x, ts), id) == Accounted(s, id) + One(x.id == id)
    ensures NoExtraShow(s, Enqueue(s, x, ts), id)
  {
    CountFirst(x, [], id);
    assert [x] + [] == [x];
    if IsQueued(x, ts) {
      CountAppend(s.waiting, [x], id);
      SortCounts(s.waiting + [x], id);
    } else {
      RetireMore(s.retired, [x], NotQueued, id);
    }
  }

  lemma ArriveConserves(s: Sched, x: Spu, ts: int, id: nat)
    ensures Accounted(Arrive(s, x, ts), id) == Accounted(s, id) + One(x.id == id)
    ensures NoExtraShow(s, Arrive(s, x, ts), id)
  {
    var x' := Rescue(x, ts);
    EnqueueConserves(s, x', ts, id);
    var s1 := Enqueue(s, x', ts);
    var half := |s1.waiting| / 2;
    CountSplit(s1.waiting, half, id);
    RetireMore(s1.retired, s1.waiting[..half], Evicted, id);
  }

  lemma {:induction false} DropStaleConserves(s: Sched, ts: int, id: nat)
    ensures Conserves(s, DropStale(s, ts), id)
    decreases |s.waiting|
  {
    if s.waiting != [] && IsStale(s.waiting[0], ts) {
      var s' := s.(waiting := s.waiting[1..], retired := s.retired + Retire(s.waiting[..1], Stale));
      CountSplit(s.waiting, 1, id);
      RetireMore(s.retired, s.waiting[..1], Stale, id);
      if s'.waiting == [] {
        ShownOne(s'.calls, Wake(100 * NS_PER_MS), id);
      } else {
        DropStaleConserves(s', ts, id);
      }
    }
  }

  lemma PurgeConserves(s: Sched, ts: int, id: nat)
    ensures Conserves(s, Purge(s, ts), id)
  {
    PurgeSplits(s.waiting, ts, id);
    RetireMore(s.retired, Purged(s.waiting, ts), PurgedAhead, id);
  }

  lemma DisplayCallsShow(calls: seq<Call>, x: Spu, rest: seq<Spu>, id: nat)
    ensures ShownCount(calls + DisplayCalls(x, rest), id)
            == ShownCount(calls, id) + One(x.data.Some? && x.id == id)
  {
    var d := DisplayCalls(x, rest);
    if d == [] {
      assert calls + d == calls;
    } else {
      ShownOne(calls, d[0], id);
      assert d == [d[0]];
    }
  }

  lemma EnterSlotConserves(s: Sched, x: Spu, id: nat)
    ensures var r := EnterSlot(s, x);
            && Departed(r, id) == Departed(s, id) + One(x.id == id)
            && r.waiting == s.waiting
            && ShownCount(r.calls, id) == ShownCount(s.calls, id)
  {
    CountFirst(x, [], id);
    assert [x] + [] == [x];
    if s.fading != [] {
      CountSplit(s.fading, 1, id);
      CountAppend(s.fading[1..], [x], id);
      RetireMore(s.retired, s.fading[..1], Replaced, id);
      ShownOne(s.calls, Remove(s.fading[0].id), id);
    }
  }

  lemma PopAndCombineConserves(s: Sched, x: Spu, id: nat)
    requires s.waiting != [] && s.waiting[0].id == x.id
    ensures var (r, x1) := PopAndCombine(s, x);
            && Accounted(s, id) == Accounted(r, id) + One(x.id == id)
            && Departed(r, id) >= Departed(s, id)
            && r.calls == s.calls && x1.id == x.id
  {
    var rest := s.waiting[1..];
    assert s.waiting == [s.waiting[0]] + rest;
    CountFirst(s.waiting[0], rest, id);
    if rest != [] && Combinable(x, rest[0]) {
      CountSplit(rest, 1, id);
      RetireMore(s.retired, rest[..1], Merged, id);
    }
  }

  /** Showing moves the front SPU to the slot, provided it is the SPU that is shown. */
  lemma PresentConserves(s: Sched, x: Spu, now: int, id: nat)
    requires s.waiting != [] && s.waiting[0].id == x.id
    ensures Conserves(s, Present(s, x, now), id)
  {
    PopAndCombineConserves(s, x, id);
    var (s1, x1) := PopAndCombine(s, x);
    DisplayCallsShow(s1.calls, x1, s1.waiting, id);
    var s2 := s1.(calls := s1.calls + DisplayCalls(x1, s1.waiting));
    EnterSlotConserves(s2, FixEnd(x1, now), id);
  }

  /** Nothing that `remove_if` takes is shown in the same step, so `pop_front` always removes
      the SPU that is shown. */
  lemma PurgedIsNotShown(x: Spu, ts: int)
    requires Bounded(x) && ClockInRange(ts) && ts >= -TOLERANCE
    requires TooFarAhead(x, ts)
    ensures !ShowNow(Prepare(x, ts), ts)
  {
    ShowTestMeaning(x, ts);
    assert Anchor(x, ts) == x;
    assert BitSync(x, ts) == x;
  }

  lemma CallConserves(s: Sched, c: Call, id: nat)
    requires !c.Show?
    ensures Conserves(s, s.(calls := s.calls + [c]), id)
  {
    ShownOne(s.calls, c, id);
  }

  lemma DecideConserves(s: Sched, x: Spu, now: int, v: Verdict, id: nat)
    requires s.waiting != [] && v != DiscardIt
    requires v == ShowIt ==> s.waiting[0].id == x.id
    ensures Conserves(s, Decide(s, x, now, v), id)
  {
    if v == ShowIt {
      PresentConserves(s, x, now, id);
    } else {
      CallConserves(s, Wake(v.delayNs), id);
    }
  }

  /** Preparing the front SPU does not change who is in the list. */
  lemma WithFrontConserves(s: Sched, front: Spu, x: Spu, id: nat)
    requires s.waiting != [] && s.waiting[0] == front && x.id == front.id
    ensures Conserves(s, WithFront(s, x, false), id)
  {
    assert s.waiting == [front] + s.waiting[1..];
    CountFirst(front, s.waiting[1..], id);
    CountFirst(x, s.waiting[1..], id);
  }

  /** Dropping and purging leave the front in place unless it is purged itself. */
  lemma FrontSurvives(s: seq<Spu>, ts: int)
    requires s != [] && !TooFarAhead(s[0], ts)
    ensures Kept(s, ts) != [] && Kept(s, ts)[0] == s[0]
  {
  }

  lemma ShowPhaseConserves(s: Sched, ts: int, id: nat)
    requires Inv(s) && s.waiting != [] && ClockInRange(ts) && ts >= -TOLERANCE
    ensures Conserves(s, ShowPhase(s, ts).0, id)
  {
    DropStaleConserves(s, ts, id);
    DropStaleKeepsInv(s, ts);
    var s1 := DropStale(s, ts);
    PurgeConserves(s1, ts, id);
    var s2 := Purge(s1, ts);
    if s2.waiting != [] {
      var front := s1.waiting[0];
      var x := Prepare(front, ts);
      DecideFrontConserves(s2, front, x, NsToDvb(ts), Judge(x, ts), TooFarAhead(front, ts), id) by {
        PreparedKeepsId(front, ts);
        DiscardBranchIsDead(x, ts);
        if TooFarAhead(front, ts) {
          PurgedIsNotShown(front, ts);
        } else {
          FrontSurvives(s1.waiting, ts);
        }
      }
    }
  }

  lemma PreparedKeepsId(x: Spu, ts: int)
    ensures Prepare(x, ts).id == x.id
  {
  }

  lemma DecideFrontConserves(s: Sched, front: Spu, x: Spu, now: int, v: Verdict, purged: bool, id: nat)
    requires s.waiting != [] && x.id == front.id && v != DiscardIt
    requires if purged then v != ShowIt else s.waiting[0] == front
    ensures Conserves(s, Decide(WithFront(s, x, purged), x, now, v), id)
  {
    if !purged {
      WithFrontConserves(s, front, x, id);
    }
    DecideConserves(WithFront(s, x, purged), x, now, v, id);
  }

  lemma FadeOutConserves(s: Sched, id: nat)
    requires s.fading != []
    ensures Conserves(s, Fade(s, true), id)
  {
    var x := s.fading[0];
    CountSplit(s.fading, 1, id);
    RetireMore(s.retired, s.fading[..1], FadedOut, id);
    ShownTwo(s.calls, Hide(x.id), FadeWake(x), id);
  }

  lemma FadeLaterConserves(s: Sched, id: nat)
    requires s.fading != []
    ensures Conserves(s, Fade(s, false), id)
  {
    CallConserves(s, FadeWake(s.fading[0]), id);
  }

  lemma FadeConserves(s: Sched, fades: bool, id: nat)
    requires s.fading != []
    ensures Conserves(s, Fade(s, fades), id)
  {
    if fades {
      FadeOutConserves(s, id);
    } else {
      FadeLaterConserves(s, id);
    }
  }

  lemma ShownTwo(calls: seq<Call>, c: Call, d: Call, id: nat)
    requires !c.Show? && !d.Show?
    ensures ShownCount(calls + [c, d], id) == ShownCount(calls, id)
  {
    ShownOne(calls, c, id);
    ShownOne(calls + [c], d, id);
    assert calls + [c] + [d] == calls + [c, d];
  }

  lemma FadePhaseConserves(s: Sched, ts: int, id: nat)
    ensures Conserves(s, FadePhase(s, ts), id)
  {
    if s.fading != [] && !s.fading[0].isKeepShowing {
      FadeConserves(s, FadesNow(s.fading[0], ts), id);
    }
  }

  lemma TickConserves(s: Sched, arrival: Option<Spu>, ts: int, id: nat)
    requires Inv(s) && ClockInRange(ts) && ts >= -TOLERANCE
    requires arrival.Some? ==> ArrivalInRange(arrival.value)
    ensures Accounted(Tick(s, arrival, ts), id) == Accounted(s, id) + One(arrival.Some? && arrival.value.id == id)
    ensures NoExtraShow(s, Tick(s, arrival, ts), id)
  {
    var s1 := if arrival.Some? then Arrive(s, arrival.value, ts) else s;
    if arrival.Some? {
      ArriveKeepsInv(s, arrival.value, ts);
      ArriveConserves(s, arrival.value, ts, id);
    }
    if s1.waiting == [] {
      FadePhaseConserves(s1, ts, id);
    } else {
      ShowPhaseConserves(s1, ts, id);
      FadePhaseConserves(ShowPhase(s1, ts).0, ts, id);
    }
  }

  lemma ResetConserves(s: Sched, id: nat)
    ensures Conserves(s, Reset(s), id)
  {
    RetireMore(s.retired, s.waiting, ResetQueue, id);
    RetireMore(s.retired + Retire(s.waiting, ResetQueue), s.fading, ResetQueue, id);
    ShownOne(s.calls, ResetScreen, id);
  }

  // ---- Runs ----

  predicate ClockNotBehind(m: Message) {
    m.CheckSpu? ==> m.ts >= -TOLERANCE
  }

  /** How often the parser handed out the SPU `id` during a run. */
  function Taken(ms: seq<Message>, id: nat): nat {
    if ms == [] then 0
    else
      var m := ms[|ms|-1];
      Taken(ms[..|ms|-1], id) + One(m.CheckSpu? && m.arrival.Some? && m.arrival.value.id == id)
  }

  /** Over every run, the SPUs taken from the parser are exactly those waiting, fading and
      retired, and only those that left the waiting list were displayed. */
  lemma {:induction false} RunConserves(ms: seq<Message>, id: nat)
    requires forall m :: m in ms ==> MessageInRange(m) && ClockNotBehind(m)
    ensures Accounted(Run(ms), id) == Taken(ms, id)
    ensures ShownCount(Run(ms).calls, id) <= Departed(Run(ms), id)
  {
    if ms != [] {
      var before, m := ms[..|ms|-1], ms[|ms|-1];
      assert MessageInRange(m) && ClockNotBehind(m);
      RunConserves(before, id);
      RunKeepsInv(before);
      match m {
        case CheckSpu(arrival, ts) => TickConserves(Run(before), arrival, ts, id);
        case ResetMessage => ResetConserves(Run(before), id);
      }
    }
  }

  /** An SPU that the parser hands out once is in exactly one place, and it has been sent to
      the display at most once and only after it left the waiting list. */
  lemma EachSpuInOnePlace(ms: seq<Message>, id: nat)
    requires forall m :: m in ms ==> MessageInRange(m) && ClockNotBehind(m)
    requires Taken(ms, id) == 1
    ensures var s := Run(ms);
            && Count(s.waiting, id) + Count(s.fading, id) + RetiredCount(s.retired, id) == 1
            && ShownCount(s.calls, id) <= 1 - Count(s.waiting, id)
  {
    RunConserves(ms, id);
  }

  // ---- Exactly which clocks are safe ----

  /** A run with clocks in range, none of them more than one frame before time zero. */
  predicate Ordinary(ms: seq<Message>) {
    forall m :: m in ms ==> MessageInRange(m) && ClockNotBehind(m)
  }

  /** After every ordinary run, a tick at this clock still keeps account of every SPU. */
  ghost predicate SafeClock(ts: int) {
    forall ms, id :: Ordinary(ms) ==> Accounted(Run(ms + [CheckSpu(None, ts)]), id) == Taken(ms, id)
  }

  /** The clock of the example run: 500 seconds. */
  const START: int := 500 * 1000 * 1000 * 1000

  /** An SPU that starts at 600.001 s, and one for the same time that is shown at once. */
  function FarSpu(): Spu {
    Spu(0, OtherKind, 0, false, false, false, false, 90 * 600_001, 0, None)
  }

  function NextSpu(): Spu {
    FarSpu().(id := 1, isImmediate := true)
  }

  /** The first SPU once the scheduler has looked at it: it has got an end. */
  function WaitingSpu(): Spu {
    FarSpu().(delay := FarSpu().pts + NO_PTS_DELAY)
  }

  function Arrivals(): seq<Message> {
    [CheckSpu(Some(FarSpu()), START), CheckSpu(Some(NextSpu()), START)]
  }

  lemma FarSpuWaits(x: Spu)
    requires x == FarSpu() || x == WaitingSpu()
    ensures Prepare(x, START) == WaitingSpu() && !TooFarAhead(x, START) && !IsStale(x, START)
    ensures Judge(WaitingSpu(), START).WaitFor?
  {
  }

  lemma NextIsKept()
    ensures !TooFarAhead(NextSpu(), START)
  {
  }

  /** A tick of the example run, with the first SPU in front. */
  lemma WaitingTick(s: Sched, x: Spu)
    requires x == FarSpu() || x == WaitingSpu()
    requires s.waiting == [x] || s.waiting == [x, NextSpu()]
    requires s.fading == []
    ensures var r := Tick(s, None, START);
            r.waiting == [WaitingSpu()] + s.waiting[1..] && r.fading == [] && r.retired == s.retired
  {
    FarSpuWaits(x);
    NextIsKept();
    assert Kept(s.waiting[1..], START) == s.waiting[1..] && Purged(s.waiting[1..], START) == [] by {
      if |s.waiting| == 2 {
        assert s.waiting[1..] == [NextSpu()] && [NextSpu()][1..] == [];
      }
    }
    assert Kept(s.waiting, START) == s.waiting && Purged(s.waiting, START) == [];
    assert Purge(s, START).retired == s.retired;
  }

  lemma ArrivalTick(s: Sched, x: Spu, w: seq<Spu>)
    requires x == FarSpu() || x == NextSpu()
    requires Sorted(s.waiting) && InsertByPts(s.waiting, x) == w && QueuedMemory(w) == 0
    ensures Tick(s, Some(x), START) == Tick(s.(waiting := w), None, START)
  {
    SortAfterPush(s.waiting, x);
    assert Rescue(x, START) == x && IsQueued(x, START);
    assert Arrive(s, x, START) == s.(waiting := w);
  }

  lemma FirstWaits()
    ensures var r := Tick(EMPTY, Some(FarSpu()), START);
            r.waiting == [WaitingSpu()] && r.fading == [] && r.retired == []
  {
    var w := [FarSpu()];
    assert w[1..] == [];
    ArrivalTick(EMPTY, FarSpu(), w);
    WaitingTick(EMPTY.(waiting := w), FarSpu());
  }

  lemma SecondWaits(s: Sched)
    requires s.waiting == [WaitingSpu()] && s.fading == [] && s.retired == []
    ensures var r := Tick(s, Some(NextSpu()), START);
            r.waiting == [WaitingSpu(), NextSpu()] && r.fading == [] && r.retired == []
  {
    var w := [WaitingSpu(), NextSpu()];
    InsertPlace(s.waiting, NextSpu(), 1);
    assert s.waiting[..1] + [NextSpu()] + s.waiting[1..] == w;
    assert w[1..] == [NextSpu()] && [NextSpu()][1..] == [];
    ArrivalTick(s, NextSpu(), w);
    WaitingTick(s.(waiting := w), WaitingSpu());
  }

  lemma RunTwo(m: Message, n: Message)
    ensures Run([m, n]) == Handle(Handle(EMPTY, m), n)
  {
    assert [m, n][..1] == [m] && [m][..0] == [];
    assert Run([m]) == Handle(Run([]), m);
  }

  /** Both SPUs wait after they arrived, and nothing else has happened to them. */
  lemma BothWait()
    ensures var s := Run(Arrivals());
            s.waiting == [WaitingSpu(), NextSpu()] && s.fading == [] && s.retired == []
  {
    RunTwo(CheckSpu(Some(FarSpu()), START), CheckSpu(Some(NextSpu()), START));
    FirstWaits();
    SecondWaits(Tick(EMPTY, Some(FarSpu()), START));
  }

  /** Below -33 ms the first SPU is dropped as too far ahead, and shown all the same. */
  lemma FarSpuIsShown(ts: int)
    requires ClockInRange(ts) && ts < -TOLERANCE
    ensures var x := WaitingSpu();
            TooFarAhead(x, ts) && !TooFarAhead(NextSpu(), ts) && !IsStale(x, ts)
            && Prepare(x, ts) == x && Judge(x, ts) == ShowIt
  {
  }

  lemma PurgesTheFirst(s: Sched, ts: int)
    requires s.waiting == [WaitingSpu(), NextSpu()] && s.retired == [] && ClockInRange(ts) && ts < -TOLERANCE
    ensures Purge(s, ts).waiting == [NextSpu()] && Purge(s, ts).retired == [Retirement(0, PurgedAhead)]
  {
    FarSpuIsShown(ts);
    var w := s.waiting;
    assert w[1..] == [NextSpu()] && w[1..][1..] == [];
    assert Kept(w[1..], ts) == [NextSpu()] && Purged(w[1..], ts) == [];
    assert Purged(w, ts) == [w[0]];
  }

  lemma ShowsTheFirst(s: Sched, ts: int)
    requires s.waiting == [WaitingSpu(), NextSpu()] && s.fading == [] && s.retired == []
    requires ClockInRange(ts) && ts < -TOLERANCE
    ensures var r := ShowPhase(s, ts);
            !r.1 && r.0.waiting == [] && r.0.fading == [FixEnd(WaitingSpu(), NsToDvb(ts))]
            && r.0.retired == [Retirement(0, PurgedAhead)]
  {
    FarSpuIsShown(ts);
    PurgesTheFirst(s, ts);
    var s2 := Purge(s, ts);
    assert s2.waiting[1..] == [];
    assert Present(s2, WaitingSpu(), NsToDvb(ts)).waiting == [];
  }

  lemma OnlyTheFirst(r: Sched, x: Spu)
    requires r.waiting == [] && r.fading == [x] && x.id == 0 && r.retired == [Retirement(0, PurgedAhead)]
    ensures Accounted(r, 1) == 0
  {
    assert r.fading[..0] == [] && r.retired[..0] == [];
    assert Count(r.fading, 1) == 0 && RetiredCount(r.retired[..0], 1) == 0;
    assert RetiredCount(r.retired, 1) == 0 && Count(r.waiting, 1) == 0;
  }

  lemma LosesTheSecond(s: Sched, ts: int)
    requires s.waiting == [WaitingSpu(), NextSpu()] && s.fading == [] && s.retired == []
    requires ClockInRange(ts) && ts < -TOLERANCE
    ensures Accounted(Tick(s, None, ts), 1) == 0
  {
    var r := ShowPhase(s, ts).0;
    ShowsTheFirst(s, ts);
    OnlyTheFirst(r, FixEnd(WaitingSpu(), NsToDvb(ts)));
    FadePhaseConserves(r, ts, 1);
  }

  /** More than one frame before time zero, a tick after this ordinary run of two arrivals shows
      the SPU that was dropped as too far ahead, and pops the other in its place: it is nowhere. */
  lemma NegativeClockLosesAnSpu(ts: int)
    requires ClockInRange(ts) && ts < -TOLERANCE
    ensures Ordinary(Arrivals()) && Taken(Arrivals(), 1) == 1 && Accounted(Run(Arrivals()), 1) == 1
    ensures Accounted(Run(Arrivals() + [CheckSpu(None, ts)]), 1) == 0
  {
    BothWait();
    ArrivalsAreOrdinary();
    RunConserves(Arrivals(), 1);
    LosesTheSecond(Run(Arrivals()), ts);
    OneMoreMessage(Arrivals(), CheckSpu(None, ts));
  }

  lemma ArrivalsAreOrdinary()
    ensures Ordinary(Arrivals()) && Taken(Arrivals(), 1) == 1
  {
    var ms := Arrivals();
    assert ms[..1] == [ms[0]] && ms[..1][..0] == [];
    assert Taken(ms[..1], 1) == 0;
  }

  lemma OneMoreMessage(ms: seq<Message>, m: Message)
    ensures Run(ms + [m]) == Handle(Run(ms), m)
  {
    assert (ms + [m])[..|ms|] == ms;
  }

  /** Exactly the clocks not more than one frame before zero make `pop_front` safe. */
  lemma PopFrontIsRightIff(ts: int)
    requires ClockInRange(ts)
    ensures SafeClock(ts) <==> ts >= -TOLERANCE
  {
    if ts >= -TOLERANCE {
      forall ms, id | Ordinary(ms) ensures Accounted(Run(ms + [CheckSpu(None, ts)]), id) == Taken(ms, id) {
        RunConserves(ms, id);
        RunKeepsInv(ms);
        OneMoreMessage(ms, CheckSpu(None, ts));
        TickConserves(Run(ms), None, ts, id);
      }
    } else {
      NegativeClockLosesAnSpu(ts);
    }
  }

}
