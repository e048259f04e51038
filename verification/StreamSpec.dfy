/** One step of the stream-subtitle scheduler, as a function on values: what
    `handleStreamSub` makes of the waiting list, the fading slot and the clock. */
module StreamSpec {
  import opened Wrappers
  import opened Clock
  import opened SpuList

  const MAX_ALLOWED_QUEUED_MEM: int := 5 * 1920 * 1080 * 4

  const DEFAULT_DELAY: int := 2 * 1000 * DVB_TIME_MULTI
  const NO_PTS_DELAY: int := 4 * 1000 * DVB_TIME_MULTI
  const SMALL_PTS_DELAY: int := 5 * 1000 * DVB_TIME_MULTI
  const ONE_SECOND: int := 1000 * DVB_TIME_MULTI

  /** 33 ms, one video frame. */
  const TOLERANCE: int := 33 * 1000 * 1000
  const SHOW_DIFF_MAX: int := 2 * 1000 * 1000 * 1000

  /** Why an SPU left the scheduler. */
  datatype Reason = NotQueued | Evicted | Stale | PurgedAhead | Merged | Replaced | FadedOut | Discarded | ResetQueue

  datatype Retirement = Retirement(id: nat, reason: Reason)

  /** What the scheduler asks of the renderer and of its message loop. */
  datatype Call =
    | Show(spu: Spu)
    | Hide(id: nat)
    | Remove(id: nat)
    | HideObject(objectId: nat)
    | ResetScreen
    | Wake(delayNs: int)

  /** The waiting list, the fading slot, and the history of retirements and calls. */
  datatype Sched = Sched(waiting: seq<Spu>, fading: seq<Spu>, retired: seq<Retirement>, calls: seq<Call>)

  const EMPTY := Sched([], [], [], [])

  function Retire(list: seq<Spu>, reason: Reason): (r: seq<Retirement>)
    ensures |r| == |list|
    ensures forall i :: 0 <= i < |r| ==> r[i] == Retirement(list[i].id, reason)
  {
    seq(|list|, i requires 0 <= i < |list| => Retirement(list[i].id, reason))
  }

  // ---- Arrival ----

  /** An SPU 200 s or more away from the clock is shown one second from now instead. */
  function Rescue(x: Spu, ts: int): Spu {
    var pts := DvbToNs(x.pts);
    var diff := if pts > ts then pts - ts else ts - pts;
    if diff >= 200 * 1000 * 1000 * 1000 && !x.isExt then
      var p := NsToDvb(ts + 1000 * 1000 * 1000);
      x.(pts := p, delay := p + DEFAULT_DELAY)
    else x
  }

  predicate IsQueued(x: Spu, ts: int) {
    x.kind == ClosedCaption || ts != 0 || x.pts == 0
  }

  function Enqueue(s: Sched, x: Spu, ts: int): Sched {
    if IsQueued(x, ts) then s.(waiting := SortByPts(s.waiting + [x]))
    else s.(retired := s.retired + Retire([x], NotQueued))
  }

  /** Over the memory limit, the earlier half of the list is dropped. */
  function Evict(s: Sched, x: Spu): Sched {
    var half := |s.waiting| / 2;
    if |x.Bytes()| + QueuedMemory(s.waiting) >= MAX_ALLOWED_QUEUED_MEM then
      s.(waiting := s.waiting[half..], retired := s.retired + Retire(s.waiting[..half], Evicted))
    else s
  }

  function Arrive(s: Sched, x: Spu, ts: int): Sched {
    var x' := Rescue(x, ts);
    Evict(Enqueue(s, x', ts), x')
  }

  // ---- Showing ----

  predicate IsStale(x: Spu, ts: int) {
    x.isExt && x.delay > 0 && NsToMs(ts) >= DvbToMs(x.delay)
  }

  /** Drops out-of-date external SPUs from the front. */
  function DropStale(s: Sched, ts: int): (r: Sched)
    decreases |s.waiting|
  {
    if s.waiting != [] && IsStale(s.waiting[0], ts) then
      var s' := s.(waiting := s.waiting[1..], retired := s.retired + Retire(s.waiting[..1], Stale));
      if s'.waiting == [] then s'.(calls := s'.calls + [Wake(100 * NS_PER_MS)])
      else DropStale(s', ts)
    else s
  }

  function Purge(s: Sched, ts: int): Sched {
    s.(waiting := Kept(s.waiting, ts), retired := s.retired + Retire(Purged(s.waiting, ts), PurgedAhead))
  }

  /** A normal SPU without a time takes the clock's. */
  function Anchor(x: Spu, ts: int): Spu {
    if DvbToMs(x.pts) <= 0 && !x.isImmediate then
      x.(pts := NsToDvb(ts), delay := NsToDvb(ts) + DEFAULT_DELAY)
    else x
  }

  predicate NeedsMask(x: Spu, videoPts: int) {
    x.pts > 0 && videoPts > 0 && MoreThan32Bits(x.pts) && !MoreThan32Bits(videoPts)
  }

  /** Against a 32-bit clock source, an SPU's times are cut to 32 bits. */
  function BitSync(x: Spu, ts: int): Spu {
    if NeedsMask(x, NsToDvb(ts)) then x.(pts := Mask32(x.pts), delay := Mask32(x.delay)) else x
  }

  function DefaultEnd(x: Spu): Spu {
    if x.delay <= 0 then x.(delay := x.pts + NO_PTS_DELAY) else x
  }

  /** What the front SPU looks like when the clock is compared with it. */
  function Prepare(x: Spu, ts: int): Spu {
    DefaultEnd(BitSync(Anchor(x, ts), ts))
  }

  function ShowDiff(x: Spu, ts: int): int {
    U64(ts + TOLERANCE - DvbToNs(x.pts))
  }

  /** The comparison is made on uint64_t values. */
  predicate NotLaterThanClock(x: Spu, ts: int) {
    U64(DvbToNs(x.pts)) <= U64(ts + TOLERANCE)
  }

  predicate ShowNow(x: Spu, ts: int) {
    || x.isImmediate
    || NotLaterThanClock(x, ts)
    || 0 <= ShowDiff(x, ts) <= SHOW_DIFF_MAX
  }

  predicate DiscardNow(x: Spu, ts: int) {
    NotLaterThanClock(x, ts) && ShowDiff(x, ts) > SHOW_DIFF_MAX
  }

  /** The next SPU for the same object, if any, has the same pts. */
  predicate NextObjectHasPts(list: seq<Spu>, x: Spu) {
    exists k :: 0 <= k < |list| && IsNextForObject(list, x, k) && list[k].pts == x.pts
  }

  predicate IsNextForObject(list: seq<Spu>, x: Spu, k: nat)
    requires k < |list|
  {
    list[k].objectId == x.objectId && forall j :: 0 <= j < k ==> list[j].objectId != x.objectId
  }

  function DisplayCalls(x: Spu, rest: seq<Spu>): seq<Call> {
    if x.data.Some? then [Show(x)]
    else if x.kind != Pgs then [Hide(x.id)]
    else if NextObjectHasPts(rest, x) then []
    else [HideObject(x.objectId)]
  }

  /** The end time an SPU carries into the fading slot; `now` is the clock in ticks. */
  function FixEnd(x: Spu, now: int): Spu {
    if x.isImmediate && (x.delay == 0 || x.delay == x.pts) then
      x.(pts := now, delay := now + NO_PTS_DELAY)
    else if x.delay == 0 || x.delay < x.pts || x.delay - x.pts < ONE_SECOND then
      x.(delay := x.pts + SMALL_PTS_DELAY)
    else x
  }

  /** `pop_front`, then the next SPU joins a text SPU of the same pts. */
  function PopAndCombine(s: Sched, x: Spu): (r: (Sched, Spu))
    requires s.waiting != []
  {
    var rest := s.waiting[1..];
    if rest != [] && Combinable(x, rest[0]) then
      (s.(waiting := rest[1..], retired := s.retired + Retire(rest[..1], Merged)),
       x.(data := Some(CombinedText(x.Bytes(), rest[0].Bytes()))))
    else (s.(waiting := rest), x)
  }

  /** The one fading SPU makes room for `x`. */
  function EnterSlot(s: Sched, x: Spu): Sched {
    if s.fading == [] then s.(fading := [x])
    else s.(fading := s.fading[1..] + [x],
            retired := s.retired + Retire(s.fading[..1], Replaced),
            calls := s.calls + [Remove(s.fading[0].id)])
  }

  function Present(s: Sched, x: Spu, now: int): Sched
    requires s.waiting != []
  {
    var (s1, x1) := PopAndCombine(s, x);
    var s2 := s1.(calls := s1.calls + DisplayCalls(x1, s1.waiting));
    EnterSlot(s2, FixEnd(x1, now))
  }

  datatype Verdict = ShowIt | DiscardIt | WaitFor(delayNs: int)

  /** The comparison of the prepared front SPU with the clock. */
  function Judge(x: Spu, ts: int): Verdict {
    if ShowNow(x, ts) then ShowIt
    else if DiscardNow(x, ts) then DiscardIt
    else WaitFor(if x.isExt then 100 * NS_PER_MS else U64(DvbToNs(x.pts) - ts))
  }

  /** What follows from the verdict on the prepared front SPU `x`. */
  function Decide(s: Sched, x: Spu, now: int, v: Verdict): Sched
    requires s.waiting != []
  {
    match v
    case ShowIt => Present(s, x, now)
    case DiscardIt =>
      s.(fading := [], retired := s.retired + Retire(s.fading, Discarded), calls := s.calls + [ResetScreen])
    case WaitFor(delayNs) => s.(calls := s.calls + [Wake(delayNs)])
  }

  /** The list after the front SPU was prepared.  The object held in the local variable is the
      list's front unless it was purged. */
  function WithFront(s: Sched, x: Spu, purged: bool): Sched
    requires s.waiting != []
  {
    if purged then s else s.(waiting := [x] + s.waiting[1..])
  }

  /** The showing part; the flag says that the step ends here because nothing is left. */
  function ShowPhase(s: Sched, ts: int): (Sched, bool)
    requires s.waiting != []
  {
    var s1 := DropStale(s, ts);
    var s2 := Purge(s1, ts);
    if s2.waiting == [] then (s2, true)
    else
      var front := s1.waiting[0];
      var x := Prepare(front, ts);
      var s3 := WithFront(s2, x, TooFarAhead(front, ts));
      (Decide(s3, x, NsToDvb(ts), Judge(x, ts)), false)
  }

  // ---- Fading ----

  function AheadTolerance(x: Spu): int {
    (if x.isExt then 5 else 100) * 1000 * 1000 * 1000
  }

  /** Both tests of the fading code, on uint64_t values. */
  predicate EndReached(x: Spu, ts: int) {
    var delayed := U64(DvbToNs(x.delay));
    delayed <= U64(ts) && U64(delayed * 5) > U64(ts)
  }

  predicate EndFarAway(x: Spu, ts: int) {
    ts != 0 && U64(U64(DvbToNs(x.delay)) - ts) > AheadTolerance(x)
  }

  predicate FadesNow(x: Spu, ts: int) {
    EndReached(x, ts) || EndFarAway(x, ts)
  }

  function FadeWake(x: Spu): Call {
    Wake((if x.kind == Pgs then 8 else 15) * NS_PER_MS)
  }

  /** The slot after the fade tests gave `fades`; the scheduler asks to be woken again. */
  function Fade(s: Sched, fades: bool): Sched
    requires s.fading != []
  {
    var x := s.fading[0];
    if fades then
      s.(fading := s.fading[1..],
         retired := s.retired + Retire(s.fading[..1], FadedOut),
         calls := s.calls + [Hide(x.id), FadeWake(x)])
    else s.(calls := s.calls + [FadeWake(x)])
  }

  function FadePhase(s: Sched, ts: int): Sched {
    if s.fading == [] || s.fading[0].isKeepShowing then s
    else Fade(s, FadesNow(s.fading[0], ts))
  }

  // ---- Steps and runs ----

  /** MSG_PTS_TIME_CHECK_SPU with what the parser hands over, at one clock reading. */
  function Tick(s: Sched, arrival: Option<Spu>, ts: int): Sched {
    var s1 := if arrival.Some? then Arrive(s, arrival.value, ts) else s;
    if s1.waiting == [] then FadePhase(s1, ts)
    else
      var (s2, done) := ShowPhase(s1, ts);
      if done then s2 else FadePhase(s2, ts)
  }

  /** MSG_RESET_MESSAGE_QUEUE. */
  function Reset(s: Sched): Sched {
    Sched([], [], s.retired + Retire(s.waiting, ResetQueue) + Retire(s.fading, ResetQueue), s.calls + [ResetScreen])
  }

  datatype Message = CheckSpu(arrival: Option<Spu>, ts: int) | ResetMessage

  function Handle(s: Sched, m: Message): Sched {
    match m
    case CheckSpu(arrival, ts) => Tick(s, arrival, ts)
    case ResetMessage => Reset(s)
  }

  function Run(ms: seq<Message>): Sched {
    if ms == [] then EMPTY else Handle(Run(ms[..|ms|-1]), ms[|ms|-1])
  }

}
