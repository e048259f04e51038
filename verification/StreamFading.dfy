/** What a tick does with the front SPU and with the one on the screen: when it is shown, when it
    fades out, and what becomes of what waits, tick by tick and over whole runs. */
module StreamFading {
  import opened Bytes
  import opened Wrappers
  import opened Clock
  import opened SpuList
  import opened StreamSpec
  import opened StreamProps
  import opened StreamProgress

  const NS_PER_S: int := 1_000_000_000

  /** The end time is not after the clock, or 100 s or more behind it, 5 s for an external SPU; a
      clock at zero ends nothing, and one below zero nothing that ends at that very time. */
  predicate Ended(x: Spu, ts: int) {
    var end := DvbToNs(x.delay);
    ts != 0 && (end < ts || (end == ts && ts > 0) || end > ts + (if x.isExt then 5 else 100) * NS_PER_S)
  }

  /** With the clock running: the end was reached, or is too far away. */
  lemma EndedWhileRunning(x: Spu, ts: int)
    requires ts > 0
    ensures Ended(x, ts) <==> DvbToNs(x.delay) <= ts || DvbToNs(x.delay) > ts + AheadTolerance(x)
  {
  }

  /** The slot after a tick, given the state `b` at which the fade tests look. */
  predicate SlotRule(b: Sched, r: Sched, ts: int)
    requires b.fading != []
  {
    var x := b.fading[0];
    var wake := Wake((if x.kind == Pgs then 8 else 15) * NS_PER_MS);
    if x.isKeepShowing then r == b
    else if Ended(x, ts) then
      r == b.(fading := b.fading[1..],
              retired := b.retired + [Retirement(x.id, FadedOut)],
              calls := b.calls + [Hide(x.id), wake])
    else r == b.(calls := b.calls + [wake])
  }

  lemma FadePhaseRule(b: Sched, ts: int)
    requires b.fading != [] && Bounded(b.fading[0]) && ClockInRange(ts)
    ensures SlotRule(b, FadePhase(b, ts), ts)
  {
    var x := b.fading[0];
    FadeTestMeaning(x, ts);
    assert b.fading[..1] == [x];
    assert Retire([x], FadedOut) == [Retirement(x.id, FadedOut)];
  }

  /** With nothing waiting, the SPU on the screen is hidden and retired by the tick at which it
      has ended, unless it is to be kept; until then the tick leaves it, and asks for another. */
  lemma QuietTick(s: Sched, x: Spu, ts: int)
    requires s.waiting == [] && s.fading == [x] && Bounded(x) && ClockInRange(ts)
    ensures SlotRule(s, Tick(s, None, ts), ts)
    ensures Tick(s, None, ts).fading == [] <==> !x.isKeepShowing && Ended(x, ts)
    ensures Hide(x.id) in Tick(s, None, ts).calls[|s.calls|..] <==> !x.isKeepShowing && Ended(x, ts)
  {
    FadePhaseRule(s, ts);
  }

  /** The states of the scheduler at some ticks with no arrivals. */
  function Ticks(s: Sched, clocks: seq<int>): Sched {
    if clocks == [] then s else Tick(Ticks(s, clocks[..|clocks|-1]), None, clocks[|clocks|-1])
  }

  predicate NoEnd(x: Spu, clocks: seq<int>) {
    x.isKeepShowing || forall i :: 0 <= i < |clocks| ==> !Ended(x, clocks[i])
  }

  /** While nothing else comes, an SPU stays on the screen through any clock readings, backwards
      ones too, as long as it has not ended at one of them, and no longer. */
  lemma {:induction false} StaysUntilItEnds(s: Sched, x: Spu, clocks: seq<int>)
    requires s.waiting == [] && s.fading == [x] && Bounded(x)
    requires forall i :: 0 <= i < |clocks| ==> ClockInRange(clocks[i])
    ensures var r := Ticks(s, clocks);
            r.waiting == [] && r.fading == if NoEnd(x, clocks) then [x] else []
  {
    if clocks != [] {
      var before, last := clocks[..|clocks|-1], clocks[|clocks|-1];
      StaysUntilItEnds(s, x, before);
      assert clocks == before + [last];
      var r := Ticks(s, before);
      if r.fading == [x] {
        QuietTick(r, x, last);
      }
    }
  }

  // ---- Ticks with arrivals ----

  function Arrived(s: Sched, arrival: Option<Spu>, ts: int): Sched {
    if arrival.Some? then Arrive(s, arrival.value, ts) else s
  }

  /** What the fade tests look at: the state after arrival and showing. */
  function BeforeFading(s: Sched, arrival: Option<Spu>, ts: int): Sched {
    var s1 := Arrived(s, arrival, ts);
    if s1.waiting == [] then s1 else ShowPhase(s1, ts).0
  }

  /** A tick that drops everything that waited ends before it looks at the slot. */
  predicate DropsAll(s: Sched, arrival: Option<Spu>, ts: int) {
    var s1 := Arrived(s, arrival, ts);
    s1.waiting != [] && ShowPhase(s1, ts).1
  }

  lemma BeforeFadingKeepsInv(s: Sched, arrival: Option<Spu>, ts: int)
    requires Inv(s) && ClockInRange(ts) && (arrival.Some? ==> ArrivalInRange(arrival.value))
    ensures Inv(BeforeFading(s, arrival, ts))
  {
    if arrival.Some? {
      ArriveKeepsInv(s, arrival.value, ts);
    }
    var s1 := Arrived(s, arrival, ts);
    if s1.waiting != [] {
      ShowPhaseKeepsInv(s1, ts);
    }
  }

  /** Any tick: the slot, with what was shown in the same tick, follows the rule. */
  lemma AnyTick(s: Sched, arrival: Option<Spu>, ts: int)
    requires Inv(s) && ClockInRange(ts) && (arrival.Some? ==> ArrivalInRange(arrival.value))
    ensures var b, r := BeforeFading(s, arrival, ts), Tick(s, arrival, ts);
            if b.fading == [] || DropsAll(s, arrival, ts) then r == b else SlotRule(b, r, ts)
  {
    BeforeFadingKeepsInv(s, arrival, ts);
    var b := BeforeFading(s, arrival, ts);
    if b.fading != [] {
      assert b.fading[0] in b.fading;
      FadePhaseRule(b, ts);
    }
  }

  // ---- How the slot is filled ----

  /** The SPU in the slot is the one displayed.  It keeps its end when that is a second or more
      after its start; else it stays for 5 s, and without times of its own for 4 s from now. */
  predicate EndRule(shown: Spu, y: Spu, ts: int) {
    var lasts := shown.delay - shown.pts;
    && y == shown.(pts := y.pts, delay := y.delay)
    && if shown.isImmediate && (lasts == 0 || shown.delay == 0) then
         y.pts == NsToDvb(ts) && y.delay - y.pts == 4 * ONE_SECOND
       else if lasts >= ONE_SECOND && shown.delay != 0 then y == shown
       else y.pts == shown.pts && y.delay - y.pts == 5 * ONE_SECOND
  }

  /** What the renderer is asked for the SPU `d`: to show its picture; without one, to hide; and for
      PGS, to clear its object, unless the next SPU for that object, of those waiting, replaces it
      at the same time. */
  ghost predicate IsDisplay(calls: seq<Call>, d: Spu, waiting: seq<Spu>) {
    if d.data.Some? then calls == [Show(d)]
    else if d.kind != Pgs then calls == [Hide(d.id)]
    else if exists k :: 0 <= k < |waiting| && IsReplacement(waiting, d, k) then calls == []
    else calls == [HideObject(d.objectId)]
  }

  predicate IsReplacement(waiting: seq<Spu>, d: Spu, k: nat)
    requires k < |waiting|
  {
    && waiting[k].objectId == d.objectId && waiting[k].pts == d.pts
    && forall i :: 0 <= i < k ==> waiting[i].objectId != d.objectId
  }

  lemma DisplayCallsAreRight(d: Spu, waiting: seq<Spu>)
    ensures IsDisplay(DisplayCalls(d, waiting), d, waiting)
  {
    if NextObjectHasPts(waiting, d) {
      var k :| 0 <= k < |waiting| && IsNextForObject(waiting, d, k) && waiting[k].pts == d.pts;
      assert IsReplacement(waiting, d, k);
    } else {
      forall k | 0 <= k < |waiting| ensures !IsReplacement(waiting, d, k) {
        assert !IsNextForObject(waiting, d, k) || waiting[k].pts != d.pts;
      }
    }
  }

  /** The slot after the SPU `d` was displayed: the one that was there is removed and retired. */
  ghost predicate SlotFilled(s: Sched, b: Sched, d: Spu, ts: int) {
    && |b.fading| == 1 && EndRule(d, b.fading[0], ts)
    && |s.fading| <= 1
    && (exists display :: IsDisplay(display, d, b.waiting) &&
          b.calls == s.calls + display + (if s.fading == [] then [] else [Remove(s.fading[0].id)]))
    && (s.fading != [] ==> b.retired != [] && b.retired[|b.retired|-1] == Retirement(s.fading[0].id, Replaced))
  }

  /** With everything due, the front SPU goes from the list to the screen. */
  lemma ShownFillsTheSlot(s: Sched, ts: int)
    requires Inv(s) && ClockInRange(ts) && ts >= -TOLERANCE
    requires s.waiting != [] && forall x :: x in s.waiting ==> Due(x, ts)
    ensures SlotFilled(s, BeforeFading(s, None, ts), Displayed(s.waiting, ts), ts)
    ensures !DropsAll(s, None, ts)
  {
    forall x | x in s.waiting ensures !TooFarAhead(x, ts) {
      DueIsShown(x, ts);
    }
    var front := s.waiting[0];
    DueIsShown(front, ts);
    DueAreKept(s.waiting, ts);
    NoneArePurged(s.waiting, ts);
    ShowPhasePresents(s, Prepare(front, ts), ts);
    PresentFills(s, WithFront(Purge(s, ts), Prepare(front, ts), false), ts);
  }

  lemma PresentFills(s: Sched, s3: Sched, ts: int)
    requires s.waiting != [] && s3.waiting != [] && s3.waiting[1..] == s.waiting[1..] && |s.fading| <= 1
    requires s3.fading == s.fading && s3.calls == s.calls && s3.retired == s.retired
    ensures SlotFilled(s, Present(s3, Prepare(s.waiting[0], ts), NsToDvb(ts)), Displayed(s.waiting, ts), ts)
  {
    var x, d := Prepare(s.waiting[0], ts), Displayed(s.waiting, ts);
    PopDisplays(s, s3, ts);
    var s1 := PopAndCombine(s3, x).0;
    DisplayCallsAreRight(d, s1.waiting);
    SlotEntered(s, s1.(calls := s1.calls + DisplayCalls(d, s1.waiting)), d, DisplayCalls(d, s1.waiting), ts);
  }

  lemma PopDisplays(s: Sched, s3: Sched, ts: int)
    requires s.waiting != [] && s3.waiting != [] && s3.waiting[1..] == s.waiting[1..]
    ensures var (s1, x1) := PopAndCombine(s3, Prepare(s.waiting[0], ts));
            x1 == Displayed(s.waiting, ts) && s1.fading == s3.fading && s1.calls == s3.calls
  {
    var rest := s.waiting[1..];
    if |s.waiting| >= 2 {
      assert rest[0] == s.waiting[1];
    }
  }

  lemma SlotEntered(s: Sched, s2: Sched, d: Spu, display: seq<Call>, ts: int)
    requires |s.fading| <= 1 && s2.fading == s.fading && IsDisplay(display, d, s2.waiting)
    requires s2.calls == s.calls + display
    ensures SlotFilled(s, EnterSlot(s2, FixEnd(d, NsToDvb(ts))), d, ts)
  {
    var y := FixEnd(d, NsToDvb(ts));
    assert EndRule(d, y, ts);
    if s.fading == [] {
      assert s.calls + display + [] == s.calls + display;
    } else {
      assert s.fading[1..] + [y] == [y];
    }
  }

  // ---- The front SPU that is not due ----

  /** The times of the front SPU `y` after it was `x`.  A normal one without a pts starts now and
      lasts two seconds; one beyond 32 bits is cut to them when the clock is not; and one without
      an end lasts four seconds. */
  predicate TimesRule(x: Spu, y: Spu, ts: int) {
    var now := NsToDvb(ts);
    var anchored := !x.isImmediate && DvbToMs(x.pts) <= 0;
    var cut := !anchored && x.pts > 0 && now > 0 && MoreThan32Bits(x.pts) && !MoreThan32Bits(now);
    var end := if anchored then now + 2 * ONE_SECOND else if cut then Mask32(x.delay) else x.delay;
    && y == x.(pts := y.pts, delay := y.delay)
    && y.pts == (if anchored then now else if cut then Mask32(x.pts) else x.pts)
    && y.delay == if end > 0 then end else y.pts + 4 * ONE_SECOND
  }

  lemma PreparedTimes(x: Spu, ts: int)
    ensures TimesRule(x, Prepare(x, ts), ts)
  {
  }

  /** The front SPU waits, with its times settled, and a tick is asked for when it starts, or in
      100 ms for an external one; nothing else happens before the fade tests. */
  predicate Waits(s: Sched, b: Sched, ts: int)
    requires s.waiting != [] && b.waiting != []
  {
    var y := b.waiting[0];
    && TimesRule(s.waiting[0], y, ts) && b.waiting[1..] == s.waiting[1..]
    && b.fading == s.fading && b.retired == s.retired
    && b.calls == s.calls + [Wake(if y.isExt then 100 * NS_PER_MS else DvbToNs(y.pts) - ts)]
  }

  /** The first SPU is not shown before 33 ms to its start. */
  lemma NotDueWaits(s: Sched, ts: int)
    requires Inv(s) && ClockInRange(ts) && ts >= -TOLERANCE && s.waiting != []
    requires forall x :: x in s.waiting ==> !TooFarAhead(x, ts)
    requires !Over(s.waiting[0], ts) && !s.waiting[0].isImmediate
    requires DvbToNs(Prepare(s.waiting[0], ts).pts) - ts > TOLERANCE
    ensures var b := BeforeFading(s, None, ts); b.waiting != [] && Waits(s, b, ts)
  {
    var front := s.waiting[0];
    NotDueIsJudged(front, ts);
    PreparedTimes(front, ts);
    NothingDropped(s, ts);
    OnlyWakes(s, Prepare(front, ts), ts);
  }

  lemma NothingDropped(s: Sched, ts: int)
    requires s.waiting != [] && !Over(s.waiting[0], ts)
    requires forall x :: x in s.waiting ==> !TooFarAhead(x, ts)
    ensures DropStale(s, ts) == s && Purge(s, ts) == s
  {
    DueAreKept(s.waiting, ts);
    NoneArePurged(s.waiting, ts);
    assert Retire([], PurgedAhead) == [] && s.retired + [] == s.retired;
  }

  lemma OnlyWakes(s: Sched, y: Spu, ts: int)
    requires s.waiting != [] && DropStale(s, ts) == s && Purge(s, ts) == s && !TooFarAhead(s.waiting[0], ts)
    requires y == Prepare(s.waiting[0], ts) && Judge(y, ts).WaitFor?
    ensures BeforeFading(s, None, ts) ==
            s.(waiting := [y] + s.waiting[1..], calls := s.calls + [Wake(Judge(y, ts).delayNs)])
  {
  }

  lemma NotDueIsJudged(front: Spu, ts: int)
    requires Bounded(front) && ClockInRange(ts) && ts >= -TOLERANCE && !front.isImmediate
    requires DvbToNs(Prepare(front, ts).pts) - ts > TOLERANCE
    ensures var y := Prepare(front, ts);
            Judge(y, ts) == WaitFor(if y.isExt then 100 * NS_PER_MS else DvbToNs(y.pts) - ts)
  {
    ShowTestMeaning(front, ts);
    PreparedFront(front, ts);
  }

  // ---- What is dropped ----

  /** An external SPU whose end has passed. */
  predicate Over(x: Spu, ts: int) {
    x.isExt && x.delay > 0 && NsToMs(ts) >= DvbToMs(x.delay)
  }

  /** The first `k` SPUs were over and are dropped, and the next is not; when nothing is left, a
      tick is asked for in 100 ms. */
  predicate StaleRule(s: Sched, r: Sched, k: nat, ts: int) {
    && k <= |s.waiting| && (forall i :: 0 <= i < k ==> Over(s.waiting[i], ts))
    && (k < |s.waiting| ==> !Over(s.waiting[k], ts))
    && r.waiting == s.waiting[k..] && r.fading == s.fading
    && r.retired == s.retired + Retire(s.waiting[..k], Stale)
    && r.calls == s.calls + (if k == |s.waiting| then [Wake(100 * NS_PER_MS)] else [])
  }

  lemma RetireInTwo(list: seq<Spu>, k: nat, reason: Reason)
    requires 1 <= k <= |list|
    ensures Retire(list[..1], reason) + Retire(list[1..][..k-1], reason) == Retire(list[..k], reason)
  {
  }

  lemma OneMoreOver(w: seq<Spu>, k: nat, ts: int)
    requires w != [] && Over(w[0], ts) && k <= |w| - 1
    requires forall i :: 0 <= i < k ==> Over(w[1..][i], ts)
    ensures forall i :: 0 <= i < k + 1 ==> Over(w[i], ts)
    ensures w[1..][k..] == w[k + 1..]
  {
    forall i | 0 <= i < k + 1 ensures Over(w[i], ts) {
      if i > 0 {
        assert w[i] == w[1..][i - 1];
      }
    }
  }

  lemma OneMoreStale(s: Sched, t: Sched, r: Sched, k: nat, ts: int)
    requires s.waiting != [] && Over(s.waiting[0], ts) && StaleRule(t, r, k, ts)
    requires t == s.(waiting := s.waiting[1..], retired := s.retired + Retire(s.waiting[..1], Stale))
    ensures StaleRule(s, r, k + 1, ts)
  {
    RetireInTwo(s.waiting, k + 1, Stale);
    ConcatIsAssociative(s.retired, Retire(s.waiting[..1], Stale), Retire(s.waiting[1..][..k], Stale));
    OneMoreOver(s.waiting, k, ts);
  }

  /** External SPUs that are over are dropped from the front. */
  lemma {:induction false} StaleAreDropped(s: Sched, ts: int) returns (k: nat)
    requires s.waiting != []
    ensures StaleRule(s, DropStale(s, ts), k, ts)
    decreases |s.waiting|
  {
    if IsStale(s.waiting[0], ts) {
      var t := s.(waiting := s.waiting[1..], retired := s.retired + Retire(s.waiting[..1], Stale));
      if t.waiting == [] {
        assert s.waiting[..1] == s.waiting;
        return 1;
      }
      k := StaleAreDropped(t, ts);
      OneMoreStale(s, t, DropStale(s, ts), k, ts);
      k := k + 1;
    } else {
      k := 0;
      assert Retire(s.waiting[..0], Stale) == [];
    }
  }

  lemma {:induction false} AllTooFar(w: seq<Spu>, ts: int)
    requires forall x :: x in w ==> TooFarAhead(x, ts)
    ensures Kept(w, ts) == [] && Purged(w, ts) == w
  {
    if w != [] {
      AllTooFar(w[1..], ts);
      assert TooFarAhead(w[0], ts) && w == [w[0]] + w[1..];
    }
  }

  /** When everything waiting is too far ahead, the tick drops it and does nothing else: the slot is
      not looked at, and no other tick is asked for. */
  lemma NothingLeft(s: Sched, ts: int)
    requires s.waiting != [] && forall x :: x in s.waiting ==> TooFarAhead(x, ts) && !x.isExt
    ensures Tick(s, None, ts) ==
            s.(waiting := [], retired := s.retired + Retire(s.waiting, PurgedAhead))
  {
    AllTooFar(s.waiting, ts);
    assert s.waiting[0] in s.waiting;
    assert DropStale(s, ts) == s;
  }

  // ---- Runs ----

  /** How often the SPU `id` has faded out. */
  function FadedCount(r: seq<Retirement>, id: nat): nat {
    if r == [] then 0
    else FadedCount(r[..|r|-1], id) + (if r[|r|-1] == Retirement(id, FadedOut) then 1 else 0)
  }

  lemma {:induction false} OtherReason(r: seq<Retirement>, list: seq<Spu>, reason: Reason, id: nat)
    requires reason != FadedOut
    ensures FadedCount(r + Retire(list, reason), id) == FadedCount(r, id)
  {
    var all := r + Retire(list, reason);
    if list == [] {
      assert all == r;
    } else {
      var front := list[..|list|-1];
      assert all[..|all|-1] == r + Retire(front, reason);
      OtherReason(r, front, reason, id);
    }
  }

  lemma ArriveFadesNothing(s: Sched, x: Spu, ts: int, id: nat)
    ensures FadedCount(Arrive(s, x, ts).retired, id) == FadedCount(s.retired, id)
  {
    var x' := Rescue(x, ts);
    var s1 := Enqueue(s, x', ts);
    OtherReason(s.retired, [x'], NotQueued, id);
    OtherReason(s1.retired, s1.waiting[..|s1.waiting| / 2], Evicted, id);
  }

  lemma {:induction false} DropStaleFadesNothing(s: Sched, ts: int, id: nat)
    ensures FadedCount(DropStale(s, ts).retired, id) == FadedCount(s.retired, id)
    decreases |s.waiting|
  {
    if s.waiting != [] && IsStale(s.waiting[0], ts) {
      var s' := s.(waiting := s.waiting[1..], retired := s.retired + Retire(s.waiting[..1], Stale));
      OtherReason(s.retired, s.waiting[..1], Stale, id);
      if s'.waiting != [] {
        DropStaleFadesNothing(s', ts, id);
      }
    }
  }

  lemma PresentFadesNothing(s: Sched, x: Spu, now: int, id: nat)
    requires s.waiting != []
    ensures FadedCount(Present(s, x, now).retired, id) == FadedCount(s.retired, id)
  {
    var rest := s.waiting[1..];
    if rest != [] {
      OtherReason(s.retired, rest[..1], Merged, id);
    }
    var s1 := PopAndCombine(s, x).0;
    if s.fading != [] {
      OtherReason(s1.retired, s.fading[..1], Replaced, id);
    }
  }

  lemma DecideFadesNothing(s: Sched, x: Spu, now: int, v: Verdict, id: nat)
    requires s.waiting != []
    ensures FadedCount(Decide(s, x, now, v).retired, id) == FadedCount(s.retired, id)
  {
    PresentFadesNothing(s, x, now, id);
    OtherReason(s.retired, s.fading, Discarded, id);
  }

  lemma ShowPhaseFadesNothing(s: Sched, ts: int, id: nat)
    requires s.waiting != []
    ensures FadedCount(ShowPhase(s, ts).0.retired, id) == FadedCount(s.retired, id)
  {
    DropStaleFadesNothing(s, ts, id);
    var s1 := DropStale(s, ts);
    OtherReason(s1.retired, Purged(s1.waiting, ts), PurgedAhead, id);
    var s2 := Purge(s1, ts);
    if s2.waiting != [] {
      var front := s1.waiting[0];
      var x := Prepare(front, ts);
      DecideFadesNothing(WithFront(s2, x, TooFarAhead(front, ts)), x, NsToDvb(ts), Judge(x, ts), id);
    }
  }

  lemma BeforeFadingFadesNothing(s: Sched, arrival: Option<Spu>, ts: int, id: nat)
    ensures FadedCount(BeforeFading(s, arrival, ts).retired, id) == FadedCount(s.retired, id)
  {
    if arrival.Some? {
      ArriveFadesNothing(s, arrival.value, ts, id);
    }
    var s1 := Arrived(s, arrival, ts);
    if s1.waiting != [] {
      ShowPhaseFadesNothing(s1, ts, id);
    }
  }

  /** At this message the SPU `id` is on the screen, is not to be kept, and has ended. */
  predicate EndsAt(s: Sched, m: Message, id: nat) {
    m.CheckSpu? && !DropsAll(s, m.arrival, m.ts) &&
    var slot := BeforeFading(s, m.arrival, m.ts).fading;
    slot != [] && slot[0].id == id && !slot[0].isKeepShowing && Ended(slot[0], m.ts)
  }

  /** How many messages of a run find the SPU ended. */
  function Endings(ms: seq<Message>, id: nat): nat {
    if ms == [] then 0
    else Endings(ms[..|ms|-1], id) + (if EndsAt(Run(ms[..|ms|-1]), ms[|ms|-1], id) then 1 else 0)
  }

  lemma FadedNext(r: seq<Retirement>, e: Retirement, id: nat)
    ensures FadedCount(r + [e], id) == FadedCount(r, id) + (if e == Retirement(id, FadedOut) then 1 else 0)
  {
    assert (r + [e])[..|r|] == r;
  }

  lemma TickFadesIffEnded(s: Sched, m: Message, id: nat)
    requires Inv(s) && MessageInRange(m) && m.CheckSpu?
    ensures FadedCount(Handle(s, m).retired, id) == FadedCount(s.retired, id) + (if EndsAt(s, m, id) then 1 else 0)
  {
    AnyTick(s, m.arrival, m.ts);
    BeforeFadingFadesNothing(s, m.arrival, m.ts, id);
    var b := BeforeFading(s, m.arrival, m.ts);
    if b.fading != [] {
      FadedNext(b.retired, Retirement(b.fading[0].id, FadedOut), id);
    }
  }

  /** A reset leaves nothing waiting and nothing on the screen, and gives each SPU up once. */
  lemma ResetClearsAll(s: Sched)
    ensures var r := Reset(s);
            && r.waiting == [] && r.fading == [] && r.calls == s.calls + [ResetScreen]
            && s.retired <= r.retired && |r.retired| == |s.retired| + |s.waiting| + |s.fading|
            && forall i :: |s.retired| <= i < |r.retired| ==> r.retired[i].reason == ResetQueue
  {
  }

  lemma ResetFadesNothing(s: Sched, id: nat)
    ensures FadedCount(Reset(s).retired, id) == FadedCount(s.retired, id)
  {
    OtherReason(s.retired, s.waiting, ResetQueue, id);
    OtherReason(s.retired + Retire(s.waiting, ResetQueue), s.fading, ResetQueue, id);
  }

  /** Over every run, an SPU fades out at exactly the ticks that find it on the screen, not to be
      kept, and ended. */
  lemma {:induction false} FadesOnlyWhenEnded(ms: seq<Message>, id: nat)
    requires forall m :: m in ms ==> MessageInRange(m)
    ensures FadedCount(Run(ms).retired, id) == Endings(ms, id)
  {
    if ms != [] {
      var before, m := ms[..|ms|-1], ms[|ms|-1];
      assert MessageInRange(m);
      FadesOnlyWhenEnded(before, id);
      RunKeepsInv(before);
      if m.CheckSpu? {
        TickFadesIffEnded(Run(before), m, id);
      } else {
        ResetFadesNothing(Run(before), id);
      }
    }
  }

}
