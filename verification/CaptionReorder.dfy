/** That the reorder list reorders: when an arrival writes nothing, why anything is written, and in
    which order payloads come out. */
module CaptionReorder {
  import opened Wrappers
  import opened CaptionSpec
  import opened CaptionProps

  // ---- Adding ----

  /** The frame is more than 30 pictures behind the first one pending. */
  predicate JumpsBack(e: Entry, pending: seq<Entry>) {
    pending != [] && e.poc < pending[0].poc - 30
  }

  /** The list `b` is `a` with `e` in it: behind all that are not later, before one that is. */
  predicate PutAt(a: seq<Entry>, b: seq<Entry>, e: Entry, k: nat) {
    && k <= |a| && b == a[..k] + [e] + a[k..]
    && (forall i :: 0 <= i < k ==> a[i].pts < e.pts || (a[i].pts == e.pts && a[i].poc <= e.poc))
    && (k < |a| ==> a[k].pts > e.pts || (a[k].pts == e.pts && a[k].poc > e.poc))
  }

  lemma {:induction false} InsertPuts(list: seq<Entry>, e: Entry) returns (k: nat)
    ensures PutAt(list, Insert(list, e), e, k)
  {
    if list == [] || ComesBefore(e, list[0]) {
      k := 0;
      assert list[..0] == [] && list[0..] == list;
    } else {
      k := InsertPuts(list[1..], e);
      assert list[..k + 1] == [list[0]] + list[1..][..k] && list[1..][k..] == list[k + 1..];
      assert forall i :: 0 < i <= k ==> list[i] == list[1..][i - 1];
      k := k + 1;
    }
  }

  /** Below the cap a frame that does not jump back is put in its place, and nothing is written. */
  lemma AddKeepsPending(s: Ud, e: Entry) returns (k: nat)
    requires s.ccNum < 64 && !JumpsBack(e, s.list)
    ensures var r := Add(s, e);
            r == s.(list := r.list, ccNum := s.ccNum + 1) && PutAt(s.list, r.list, e, k)
  {
    k := InsertPuts(s.list, e);
  }

  /** From place `from` on, these payloads were sent in order, for this cause. */
  predicate SentInOrder(log: seq<Event>, from: nat, es: seq<Entry>, cause: Cause) {
    from + |es| <= |log| &&
    forall i :: from <= i < from + |es| ==>
      log[i].Sent? && log[i].entry == es[i - from] && log[i].cause == cause
  }

  lemma {:induction false} WriteAllInOrder(s: Ud, es: seq<Entry>, cause: Cause)
    ensures var r := WriteAll(s, es, cause);
            s.log <= r.log && |r.log| == |s.log| + |es| && SentInOrder(r.log, |s.log|, es, cause)
  {
    if es != [] {
      WriteAllInOrder(s, es[..|es|-1], cause);
    }
  }

  /** The first that happened is that everything pending was written in order, by a flush. */
  predicate FlushedFirst(s: Ud, log: seq<Event>) {
    && s.log <= log && |log| > |s.log| + |s.list|
    && SentInOrder(log, |s.log|, s.list, Flushed) && log[|s.log| + |s.list|] == FlushDone
  }

  /** And nothing else happened. */
  predicate AllFlushed(s: Ud, log: seq<Event>) {
    FlushedFirst(s, log) && |log| == |s.log| + |s.list| + 1
  }

  lemma FlushWritesAll(s: Ud)
    ensures var r := Flush(s);
            AllFlushed(s, r.log) && r.list == [] && r.ccNum == 0 && r.currPoc == -1
  {
    WriteAllInOrder(s, s.list, Flushed);
    var w := WriteAll(s, s.list, Flushed);
    assert (w.log + [FlushDone])[..|w.log|] == w.log;
  }

  /** A frame that jumps back writes everything pending, and then waits alone. */
  lemma AddFlushesOnJump(s: Ud, e: Entry)
    requires s.ccNum < 64 && JumpsBack(e, s.list)
    ensures var r := Add(s, e);
            AllFlushed(s, r.log) && r.list == [e] && r.ccNum == 1 && r.currPoc == -1
  {
    FlushWritesAll(s);
    assert Insert([], e) == [e];
  }

  /** The state after the first pending payload was written to make room. */
  predicate HeadEvicted(s: Ud, t: Ud) {
    && s.list != [] && t.list == s.list[1..] && t.ccNum == s.ccNum - 1 && t.currPoc == s.currPoc
    && |t.log| == |s.log| + 1 && s.log <= t.log && SentInOrder(t.log, |s.log|, [s.list[0]], Evicted)
  }

  /** At the cap the first payload makes room, and the frame is then added below the cap. */
  lemma AddAtTheCap(s: Ud, e: Entry) returns (t: Ud)
    requires s.ccNum == 64 && s.list != []
    ensures HeadEvicted(s, t) && t.ccNum < 64 && Add(s, e) == Add(t, e)
  {
    t := EvictHead(s);
  }

  // ---- Why something is written ----

  /** What pends when a frame is put in: at the cap the first payload is gone. */
  function PendingFor(s: Ud): seq<Entry> {
    if s.ccNum >= 64 && s.list != [] then s.list[1..] else s.list
  }

  /** Some clock reading of the call is past the pts. */
  ghost predicate Past(clock: nat -> int, pts: int) {
    exists n: nat :: clock(n) > pts
  }

  ghost predicate NotYet(clock: nat -> int, pts: int) {
    exists n: nat :: clock(n) <= pts
  }

  /** Why a payload is written when the H.264 or AVS frame `e` comes. */
  ghost predicate H264Reason(s: Ud, e: Entry, clock: nat -> int, x: Entry, cause: Cause) {
    match cause
    case Released => Past(clock, x.pts)
    case Evicted => s.ccNum == 64 && |s.list| == 64 && x == s.list[0] && e.poc != 0
    case Flushed => x in s.list && (e.poc == 0 || JumpsBack(e, PendingFor(s)))
    case _ => false
  }

  /** All payloads written between two states were written for such a reason. */
  ghost predicate H264Written(s: Ud, e: Entry, clock: nat -> int, r: Ud) {
    && s.log <= r.log
    && forall i {:trigger r.log[i]} :: |s.log| <= i < |r.log| && r.log[i].Sent? ==>
         H264Reason(s, e, clock, r.log[i].entry, r.log[i].cause)
  }

  lemma {:induction false} ReleaseWritesPast(s: Ud, k: nat, clock: nat -> int, n: nat)
    requires k <= |s.list|
    ensures var r := Release(s, k, clock, n);
            && s.log <= r.log
            && (forall i {:trigger r.log[i]} :: |s.log| <= i < |r.log| ==>
                  r.log[i].Sent? && r.log[i].cause == Released && Past(clock, r.log[i].entry.pts))
            && r.currPoc == if |r.log| == |s.log| then s.currPoc else r.log[|r.log|-1].entry.poc
    decreases |s.list|, |s.list| - k
  {
    if k < |s.list| {
      if clock(n) > s.list[k].pts {
        var t := Unlink(s, k);
        ReleaseWritesPast(t, 0, clock, n + 1);
        var r := Release(t, 0, clock, n + 1);
        assert r.log[|s.log|] == t.log[|s.log|];
      } else {
        ReleaseWritesPast(s, k + 1, clock, n + 1);
      }
    }
  }

  /** What stays pending was found not to be due by the last scan. */
  lemma {:induction false} ReleaseLeavesTheRest(s: Ud, k: nat, clock: nat -> int, n: nat)
    requires k <= |s.list| && forall i :: 0 <= i < k ==> NotYet(clock, s.list[i].pts)
    ensures forall x :: x in Release(s, k, clock, n).list ==> NotYet(clock, x.pts)
    decreases |s.list|, |s.list| - k
  {
    if k < |s.list| {
      if clock(n) > s.list[k].pts {
        ReleaseLeavesTheRest(Unlink(s, k), 0, clock, n + 1);
      } else {
        ReleaseLeavesTheRest(s, k + 1, clock, n + 1);
      }
    }
  }

  /** Reasons of later events add to those of the earlier ones. */
  lemma WrittenFurther(s: Ud, e: Entry, clock: nat -> int, t: Ud, r: Ud)
    requires H264Written(s, e, clock, t) && t.log <= r.log
    requires forall i {:trigger r.log[i]} :: |t.log| <= i < |r.log| && r.log[i].Sent? ==>
               H264Reason(s, e, clock, r.log[i].entry, r.log[i].cause)
    ensures H264Written(s, e, clock, r)
  {
    assert forall i :: |s.log| <= i < |t.log| ==> r.log[i] == t.log[i];
  }

  /** From a state in which the frame can be put in without an eviction. */
  lemma AddHasReasons(s: Ud, e: Entry, clock: nat -> int, t: Ud)
    requires H264Written(s, e, clock, t) && t.ccNum < 64 && e.poc != 0
    requires t.list == PendingFor(s) && forall x :: x in t.list ==> x in s.list
    ensures H264Written(s, e, clock, Add(t, e))
  {
    if JumpsBack(e, t.list) {
      AddFlushesOnJump(t, e);
      var r := Add(t, e);
      forall i {:trigger r.log[i]} | |t.log| <= i < |r.log| && r.log[i].Sent?
        ensures H264Reason(s, e, clock, r.log[i].entry, r.log[i].cause)
      {
        assert r.log[i].entry == t.list[i - |t.log|];
      }
      WrittenFurther(s, e, clock, t, r);
    } else {
      var k := AddKeepsPending(t, e);
    }
  }

  lemma PutInHasReasons(s: Ud, e: Entry, clock: nat -> int)
    requires InvH264(s) && e.poc != 0
    ensures CanAdd(s) && H264Written(s, e, clock, Add(s, e))
  {
    if s.ccNum == 64 {
      var t := AddAtTheCap(s, e);
      assert t.log[|s.log|].entry == s.list[0];
      AddHasReasons(s, e, clock, t);
    } else {
      AddHasReasons(s, e, clock, s);
    }
  }

  lemma FlushedAtZero(s: Ud, e: Entry, clock: nat -> int)
    requires InvH264(s) && e.poc == 0
    ensures H264Written(s, e, clock, Add(Flush(s), e))
  {
    FlushWritesAll(s);
    var f := Flush(s);
    forall i {:trigger f.log[i]} | |s.log| <= i < |f.log| && f.log[i].Sent?
      ensures H264Reason(s, e, clock, f.log[i].entry, f.log[i].cause)
    {
      assert f.log[i].entry == s.list[i - |s.log|];
    }
    var k := AddKeepsPending(f, e);
  }

  /** Whatever an H.264 or AVS frame writes is released past its pts, is the first of 64 pending
      payloads, or is flushed by a picture order of 0 or a jump back of more than 30; and whatever
      stays pending was not due at the last look. */
  lemma H264WritesForAReason(s: Ud, e: Entry, clock: nat -> int)
    requires InvH264(s)
    ensures var r := H264(s, e, clock);
            && r.Some? && H264Written(s, e, clock, r.value)
            && forall x :: x in r.value.list ==> NotYet(clock, x.pts)
  {
    H264KeepsH264(s, e, clock);
    if e.poc == 0 {
      FlushedAtZero(s, e, clock);
    } else {
      PutInHasReasons(s, e, clock);
    }
    var a := Add(if e.poc == 0 then Flush(s) else s, e);
    var r := Release(a, 0, clock, 0);
    ReleaseWritesPast(a, 0, clock, 0);
    ReleaseLeavesTheRest(a, 0, clock, 0);
    WrittenFurther(s, e, clock, a, r);
  }

  lemma PrefixRuns(start: Ud, ops: seq<Op>, k: nat)
    requires k < |ops| && Run(start, ops[..k]).Some?
    ensures Run(start, ops[..k + 1]) == Step(Run(start, ops[..k]).value, ops[k])
  {
    assert ops[..k + 1][..k] == ops[..k];
  }

  /** So it is at every frame of every run. */
  lemma RunWritesForAReason(start: Ud, ops: seq<Op>, k: nat)
    requires start == Opened(start.currPts, start.currDuration) && k < |ops|
    requires forall op :: op in ops ==> op.H264Frame?
    ensures Run(start, ops[..k]).Some? && Run(start, ops[..k + 1]).Some?
    ensures H264Written(Run(start, ops[..k]).value, ops[k].entry, ops[k].clock, Run(start, ops[..k + 1]).value)
    ensures forall x :: x in Run(start, ops[..k + 1]).value.list ==> NotYet(ops[k].clock, x.pts)
  {
    H264RunKeepsOrder(start, ops[..k]);
    assert ops[k] in ops;
    PrefixRuns(start, ops, k);
    H264WritesForAReason(Run(start, ops[..k]).value, ops[k].entry, ops[k].clock);
  }

  // ---- The order in which payloads come out ----

  /** Frames of one group: the picture order is never 0, and none is more than 30 behind another. */
  predicate OneGroup(es: seq<Entry>) {
    forall i, j :: 0 <= i < |es| && 0 <= j < |es| ==> es[i].poc != 0 && es[i].poc >= es[j].poc - 30
  }

  function Frames(es: seq<Entry>, clocks: seq<nat -> int>): (ops: seq<Op>)
    requires |es| == |clocks|
    ensures |ops| == |es|
  {
    seq(|es|, i requires 0 <= i < |es| => H264Frame(es[i], clocks[i]))
  }

  /** None of the clock readings is past any of the payloads. */
  ghost predicate BeforeAll(es: seq<Entry>, clocks: seq<nat -> int>) {
    forall i, j, n: nat :: 0 <= i < |clocks| && 0 <= j < |es| ==> clocks[i](n) <= es[j].pts
  }

  lemma {:induction false} NothingDue(s: Ud, k: nat, clock: nat -> int, n: nat)
    requires k <= |s.list|
    requires forall i, m: nat :: 0 <= i < |s.list| ==> clock(m) <= s.list[i].pts
    ensures Release(s, k, clock, n) == s
    decreases |s.list| - k
  {
    if k < |s.list| {
      NothingDue(s, k + 1, clock, n + 1);
    }
  }

  lemma {:induction false} InsertPermutes(list: seq<Entry>, e: Entry)
    ensures multiset(Insert(list, e)) == multiset(list) + multiset{e}
  {
    if list != [] {
      assert list == [list[0]] + list[1..];
      if !ComesBefore(e, list[0]) {
        InsertPermutes(list[1..], e);
      }
    }
  }

  /** One more frame of a group, with nothing due. */
  lemma OneMoreWaits(s: Ud, es: seq<Entry>, e: Entry, clock: nat -> int)
    requires InvH264(s) && |s.list| < 64 && multiset(s.list) == multiset(es) && OneGroup(es + [e])
    requires forall j, n: nat :: 0 <= j < |es + [e]| ==> clock(n) <= (es + [e])[j].pts
    ensures H264(s, e, clock) == Some(Add(s, e))
    ensures Add(s, e) == s.(list := Insert(s.list, e), ccNum := s.ccNum + 1)
    ensures multiset(Add(s, e).list) == multiset(es + [e])
  {
    var all := es + [e];
    assert all[|es|] == e && e.poc != 0;
    if s.list != [] {
      assert s.list[0] in multiset(es);
      var j :| 0 <= j < |es| && es[j] == s.list[0];
      assert all[j] == s.list[0];
    }
    InsertPermutes(s.list, e);
    InsertMembers(s.list, e);
    var a := Add(s, e);
    forall i, m: nat | 0 <= i < |a.list| ensures clock(m) <= a.list[i].pts {
      assert a.list[i] in multiset(all);
      var j :| 0 <= j < |all| && all[j] == a.list[i];
    }
    NothingDue(a, 0, clock, 0);
  }

  /** Up to 64 frames of one group that are not due wait, in any order of arrival, sorted by
      (pts, poc), and nothing is written. */
  lemma {:induction false} GroupWaits(start: Ud, es: seq<Entry>, clocks: seq<nat -> int>)
    requires start == Opened(start.currPts, start.currDuration)
    requires |es| == |clocks| <= 64 && OneGroup(es) && BeforeAll(es, clocks)
    ensures var r := Run(start, Frames(es, clocks));
            && r.Some? && r.value == start.(list := r.value.list, ccNum := |es|)
            && SortedList(r.value.list) && multiset(r.value.list) == multiset(es)
  {
    if es != [] {
      var n := |es| - 1;
      var front, e, before := es[..n], es[n], clocks[..n];
      assert es == front + [e];
      GroupWaits(start, front, before);
      assert Frames(es, clocks)[..n] == Frames(front, before);
      var s := Run(start, Frames(front, before)).value;
      assert |s.list| == |multiset(s.list)| == |multiset(front)| == n;
      OneMoreWaits(s, front, e, clocks[n]);
      InsertKeepsOrder(s.list, e);
    }
  }

  /** The pictures of a group come out in the order of their pts: when a group of at most 63 waits
      and one more frame comes at a clock that stands at `c`, exactly the payloads before `c` are
      written, in the order of (pts, poc), whatever the order of arrival was. */
  lemma GroupComesOutInOrder(start: Ud, es: seq<Entry>, clocks: seq<nat -> int>, e: Entry, clock: nat -> int, c: int)
    returns (sorted: seq<Entry>)
    requires start == Opened(start.currPts, start.currDuration)
    requires |es| == |clocks| < 64 && OneGroup(es + [e]) && BeforeAll(es, clocks)
    requires forall n: nat :: clock(n) == c
    ensures SortedList(sorted) && multiset(sorted) == multiset(es + [e])
    ensures var r := Run(start, Frames(es + [e], clocks + [clock]));
            && r.Some? && sorted == Earlier(sorted, c) + r.value.list
            && |r.value.log| == |Earlier(sorted, c)| && SentInOrder(r.value.log, 0, Earlier(sorted, c), Released)
  {
    GroupWaitsBefore(es, e);
    GroupWaits(start, es, clocks);
    var s := Run(start, Frames(es, clocks)).value;
    LastFrame(start, es, clocks, e, clock);
    var k := AddInGroup(s, es, e);
    var a := Add(s, e);
    sorted := a.list;
    InsertKeepsOrder(s.list, e);
    InsertPermutes(s.list, e);
    assert multiset(es + [e]) == multiset(es) + multiset{e};
    ReleaseAtFixedClock(a, 0, clock, 0, c);
    EarlierIsPrefix(a.list, c);
    WriteAllInOrder(a, Earlier(a.list, c), Released);
  }

  lemma GroupWaitsBefore(es: seq<Entry>, e: Entry)
    requires OneGroup(es + [e])
    ensures OneGroup(es)
  {
    forall i, j | 0 <= i < |es| && 0 <= j < |es| ensures es[i].poc != 0 && es[i].poc >= es[j].poc - 30 {
      assert (es + [e])[i] == es[i] && (es + [e])[j] == es[j];
    }
  }

  lemma LastFrame(start: Ud, es: seq<Entry>, clocks: seq<nat -> int>, e: Entry, clock: nat -> int)
    requires |es| == |clocks| && Run(start, Frames(es, clocks)).Some?
    ensures Run(start, Frames(es + [e], clocks + [clock])) == H264(Run(start, Frames(es, clocks)).value, e, clock)
  {
    assert Frames(es + [e], clocks + [clock])[..|es|] == Frames(es, clocks);
  }

  lemma AddInGroup(s: Ud, es: seq<Entry>, e: Entry) returns (k: nat)
    requires s.ccNum < 64 && multiset(s.list) == multiset(es) && OneGroup(es + [e])
    ensures e.poc != 0 && Add(s, e) == s.(list := Insert(s.list, e), ccNum := s.ccNum + 1)
    ensures PutAt(s.list, Add(s, e).list, e, k)
  {
    assert (es + [e])[|es|] == e;
    if s.list != [] {
      assert s.list[0] in multiset(es);
      var j :| 0 <= j < |es| && es[j] == s.list[0];
      assert (es + [e])[j] == s.list[0];
    }
    k := InsertPuts(s.list, e);
  }

  // ---- The MPEG path ----

  /** Why a payload is written when the MPEG frame `e` comes. */
  predicate MpegReason(s: Ud, e: Entry, isIFrame: bool, x: Entry, cause: Cause) {
    match cause
    case Direct => x == e && (if isIFrame then -1 else s.currPoc) <= e.poc <= (if isIFrame then 0 else s.currPoc + 1)
    case Drained => x in s.list && !isIFrame
    case Evicted => s.ccNum == 64 && s.list != [] && x == s.list[0] && !isIFrame
    case Flushed => x in s.list && (isIFrame || JumpsBack(e, PendingFor(s)))
    case Released => false
  }

  predicate MpegWritten(s: Ud, e: Entry, isIFrame: bool, r: Ud) {
    && s.log <= r.log
    && forall i {:trigger r.log[i]} :: |s.log| <= i < |r.log| && r.log[i].Sent? ==>
         MpegReason(s, e, isIFrame, r.log[i].entry, r.log[i].cause)
  }

  lemma MpegWrittenFurther(s: Ud, e: Entry, isIFrame: bool, t: Ud, r: Ud)
    requires MpegWritten(s, e, isIFrame, t) && t.log <= r.log
    requires forall i {:trigger r.log[i]} :: |t.log| <= i < |r.log| && r.log[i].Sent? ==>
               MpegReason(s, e, isIFrame, r.log[i].entry, r.log[i].cause)
    ensures MpegWritten(s, e, isIFrame, r)
  {
    assert forall i :: |s.log| <= i < |t.log| ==> r.log[i] == t.log[i];
  }

  /** The drain takes payloads off the front, whose references go on by one each time, and stops
      at the first gap. */
  lemma {:induction false} DrainTakesTheNext(s: Ud) returns (k: nat)
    ensures var r := Drain(s);
            && k <= |s.list| && r.list == s.list[k..] && r.ccNum == s.ccNum
            && (forall i :: 0 <= i < k ==> s.list[i].poc == s.currPoc + 1 + i)
            && (k < |s.list| ==> s.list[k].poc != s.currPoc + 1 + k)
            && s.log <= r.log && |r.log| == |s.log| + k && SentInOrder(r.log, |s.log|, s.list[..k], Drained)
            && r.currPoc == s.currPoc + k
    decreases |s.list|
  {
    k := 0;
    if s.list != [] && s.list[0].poc == s.currPoc + 1 {
      var t := DrainOne(s);
      k := DrainTakesTheNext(t);
      OneMoreDrained(s, t, Drain(s), k);
      k := k + 1;
    }
  }

  lemma OneMoreDrained(s: Ud, t: Ud, r: Ud, k: nat)
    requires s.list != [] && t.list == s.list[1..] && k <= |t.list|
    requires |t.log| == |s.log| + 1 && s.log <= t.log <= r.log && |r.log| == |t.log| + k
    requires t.log[|s.log|].Sent? && t.log[|s.log|].entry == s.list[0] && t.log[|s.log|].cause == Drained
    requires SentInOrder(r.log, |t.log|, t.list[..k], Drained)
    ensures SentInOrder(r.log, |s.log|, s.list[..k + 1], Drained) && t.list[k..] == s.list[k + 1..]
  {
    assert r.log[|s.log|] == t.log[|s.log|];
    forall i | |s.log| <= i < |s.log| + k + 1
      ensures r.log[i].Sent? && r.log[i].entry == s.list[..k + 1][i - |s.log|] && r.log[i].cause == Drained
    {
      if i > |s.log| {
        assert t.list[..k][i - |t.log|] == s.list[i - |s.log|];
      }
    }
  }

  /** The frame was sent at this place, and then what continues it was drained, up to a gap. */
  predicate SentDirectly(log: seq<Event>, at: nat, e: Entry, pending: seq<Entry>, left: seq<Entry>) {
    && at < |log| && log[at].Sent? && log[at].entry == e && log[at].cause == Direct
    && |left| <= |pending|
    && var k := |pending| - |left|;
       && left == pending[k..] && |log| == at + 1 + k
       && (forall i :: 0 <= i < k ==> pending[i].poc == e.poc + 1 + i)
       && (left != [] ==> left[0].poc != e.poc + 1 + k)
  }

  /** Sending a frame and draining: what is in the log behind it are payloads that waited. */
  lemma DirectAndDrain(t: Ud, e: Entry)
    ensures var r := Drain(Write(t, e, Direct).(currPoc := e.poc));
            && t.log <= r.log && SentDirectly(r.log, |t.log|, e, t.list, r.list)
            && forall i {:trigger r.log[i]} :: |t.log| < i < |r.log| ==>
                 r.log[i].Sent? && r.log[i].cause == Drained && r.log[i].entry in t.list
  {
    var w := Write(t, e, Direct).(currPoc := e.poc);
    var k := DrainTakesTheNext(w);
    var r := Drain(w);
    assert r.log[|t.log|] == w.log[|t.log|];
    forall i {:trigger r.log[i]} | |t.log| < i < |r.log|
      ensures r.log[i].Sent? && r.log[i].cause == Drained && r.log[i].entry in t.list
    {
      assert r.log[i].entry == w.list[..k][i - |w.log|];
    }
  }

  lemma DirectHasReasons(s: Ud, e: Entry, isIFrame: bool, t: Ud)
    requires MpegWritten(s, e, isIFrame, t)
    requires if isIFrame then t.list == [] && t.currPoc == -1 else t == s
    requires e.poc == t.currPoc + 1 || e.poc == t.currPoc
    ensures var r := Drain(Write(t, e, Direct).(currPoc := e.poc));
            && MpegWritten(s, e, isIFrame, r) && t.log <= r.log
            && SentDirectly(r.log, |t.log|, e, t.list, r.list)
  {
    DirectAndDrain(t, e);
    DrainedHaveReasons(s, e, isIFrame, t, Drain(Write(t, e, Direct).(currPoc := e.poc)));
  }

  lemma DrainedHaveReasons(s: Ud, e: Entry, isIFrame: bool, t: Ud, r: Ud)
    requires MpegWritten(s, e, isIFrame, t)
    requires if isIFrame then t.list == [] && t.currPoc == -1 else t == s
    requires e.poc == t.currPoc + 1 || e.poc == t.currPoc
    requires t.log <= r.log && SentDirectly(r.log, |t.log|, e, t.list, r.list)
    requires forall i {:trigger r.log[i]} :: |t.log| < i < |r.log| ==>
               r.log[i].Sent? && r.log[i].cause == Drained && r.log[i].entry in t.list
    ensures MpegWritten(s, e, isIFrame, r)
  {
    forall i {:trigger r.log[i]} | |t.log| <= i < |r.log| && r.log[i].Sent?
      ensures MpegReason(s, e, isIFrame, r.log[i].entry, r.log[i].cause)
    {
      assert i > |t.log| ==> r.log[i].cause == Drained;
    }
    MpegWrittenFurther(s, e, isIFrame, t, r);
  }

  lemma QueuedHasReasons(s: Ud, e: Entry, isIFrame: bool, t: Ud)
    requires MpegWritten(s, e, isIFrame, t) && t.ccNum < 64
    requires if isIFrame then t.list == [] else t.list == PendingFor(s) && forall x :: x in t.list ==> x in s.list
    ensures MpegWritten(s, e, isIFrame, Add(t, e)) && t.log <= Add(t, e).log
    ensures t.list == [] ==> Add(t, e).list == [e]
  {
    if JumpsBack(e, t.list) {
      AddFlushesOnJump(t, e);
      var r := Add(t, e);
      forall i {:trigger r.log[i]} | |t.log| <= i < |r.log| && r.log[i].Sent?
        ensures MpegReason(s, e, isIFrame, r.log[i].entry, r.log[i].cause)
      {
        assert r.log[i].entry == t.list[i - |t.log|];
      }
      MpegWrittenFurther(s, e, isIFrame, t, r);
    } else {
      var k := AddKeepsPending(t, e);
    }
  }

  lemma IFrameFlushes(s: Ud, e: Entry)
    ensures var f := Flush(s);
            && f.list == [] && f.ccNum == 0 && f.currPoc == -1
            && AllFlushed(s, f.log) && MpegWritten(s, e, true, f)
  {
    FlushWritesAll(s);
    var f := Flush(s);
    forall i {:trigger f.log[i]} | |s.log| <= i < |f.log| && f.log[i].Sent?
      ensures MpegReason(s, e, true, f.log[i].entry, f.log[i].cause)
    {
      assert f.log[i].entry == s.list[i - |s.log|];
    }
  }

  lemma EvictHasReason(s: Ud, e: Entry)
    requires s.ccNum == 64 && s.list != []
    ensures MpegWritten(s, e, false, EvictHead(s))
  {
  }

  /** The frame repeats the last reference or continues it; an I frame starts again at 0. */
  predicate Continues(s: Ud, e: Entry, isIFrame: bool) {
    var last := if isIFrame then -1 else s.currPoc;
    e.poc == last || e.poc == last + 1
  }

  /** Whatever an MPEG frame writes is the frame itself, when it continues the references, or is
      drained behind it, or is the first of a full list, or is flushed by an I frame or a jump back
      of more than 30.  A frame that continues the references is sent at once, any other waits, and
      an I frame leaves nothing pending but itself. */
  lemma MpegWritesForAReason(s: Ud, e: Entry, isIFrame: bool)
    requires InvCount(s) && IsCaption(e.payload) && Mpeg(s, e, isIFrame).Some?
    ensures var r := Mpeg(s, e, isIFrame).value;
            && MpegWritten(s, e, isIFrame, r)
            && (isIFrame ==> FlushedFirst(s, r.log) && forall x :: x in r.list ==> x == e)
            && if Continues(s, e, isIFrame) then
                 if isIFrame then SentDirectly(r.log, |s.log| + |s.list| + 1, e, [], r.list)
                 else SentDirectly(r.log, |s.log|, e, s.list, r.list)
               else e in r.list
  {
    var t := if isIFrame then Flush(s) else s;
    if isIFrame {
      IFrameFlushes(s, e);
    }
    if Continues(s, e, isIFrame) {
      DirectHasReasons(s, e, isIFrame, t);
    } else {
      WaitingHasReasons(s, e, isIFrame, t);
    }
  }

  lemma WaitingHasReasons(s: Ud, e: Entry, isIFrame: bool, t: Ud)
    requires InvCount(s) && CanAdd(t) && MpegWritten(s, e, isIFrame, t)
    requires if isIFrame then t.list == [] && t.ccNum == 0 else t == s
    ensures MpegWritten(s, e, isIFrame, Add(t, e)) && t.log <= Add(t, e).log && e in Add(t, e).list
    ensures t.list == [] ==> Add(t, e).list == [e]
  {
    InsertMembers(CaptionSpec.FlushOnReset(MakeRoom(t), e.poc).list, e);
    if t.ccNum == 64 {
      EvictHasReason(s, e);
      QueuedHasReasons(s, e, isIFrame, EvictHead(s));
      assert Add(s, e) == Add(EvictHead(s), e);
    } else {
      QueuedHasReasons(s, e, isIFrame, t);
    }
  }

  /** The SCTE 20 path queues what was converted, after the same flush by an I frame, and never
      writes directly. */
  lemma ScteWritesForAReason(s: Ud, e: Entry, isIFrame: bool)
    requires InvCount(s) && Scte(s, Some(e), isIFrame).Some?
    ensures var r := Scte(s, Some(e), isIFrame).value;
            && MpegWritten(s, e, isIFrame, r) && e in r.list
            && (isIFrame ==> FlushedFirst(s, r.log) && r.list == [e])
  {
    if isIFrame {
      IFrameFlushes(s, e);
    }
    WaitingHasReasons(s, e, isIFrame, if isIFrame then Flush(s) else s);
  }

}
