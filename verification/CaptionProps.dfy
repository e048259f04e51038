/** What the caption reorder list keeps: order, count, conservation of payloads, and the order
    of the temporal references on the MPEG path. */
module CaptionProps {
  import opened Bytes
  import opened Wrappers
  import opened CaptionSpec

  // ---- Order ----

  predicate LexLe(a: Entry, b: Entry) {
    a.pts < b.pts || (a.pts == b.pts && a.poc <= b.poc)
  }

  ghost predicate SortedList(list: seq<Entry>) {
    forall i, j :: 0 <= i < j < |list| ==> LexLe(list[i], list[j])
  }

  lemma {:induction false} InsertMembers(list: seq<Entry>, e: Entry)
    ensures |Insert(list, e)| == |list| + 1
    ensures forall x :: x in Insert(list, e) <==> x in list || x == e
  {
    if list != [] && !ComesBefore(e, list[0]) {
      InsertMembers(list[1..], e);
      assert list == [list[0]] + list[1..];
    }
  }

  lemma {:induction false} InsertKeepsOrder(list: seq<Entry>, e: Entry)
    requires SortedList(list)
    ensures SortedList(Insert(list, e))
  {
    if list != [] && !ComesBefore(e, list[0]) {
      InsertKeepsOrder(list[1..], e);
      InsertMembers(list[1..], e);
      var r := Insert(list[1..], e);
      forall i | 0 <= i < |r| ensures LexLe(list[0], r[i]) {
        assert r[i] in list[1..] || r[i] == e;
      }
    }
  }

  /** The list is ordered by (pts, poc), and the count is its length and at most 64. */
  ghost predicate InvH264(s: Ud) {
    SortedList(s.list) && s.ccNum == |s.list| <= MAX_CC_NUM
  }

  /** On every path the count is an upper bound of the length. */
  predicate InvCount(s: Ud) {
    |s.list| <= s.ccNum <= MAX_CC_NUM
  }

  lemma AddKeepsH264(s: Ud, e: Entry)
    requires InvH264(s)
    ensures CanAdd(s) && InvH264(Add(s, e))
  {
    var s2 := FlushOnReset(MakeRoom(s), e.poc);
    assert SortedList(s2.list) && s2.ccNum == |s2.list| < MAX_CC_NUM;
    InsertKeepsOrder(s2.list, e);
    InsertMembers(s2.list, e);
  }

  lemma {:induction false} ReleaseKeepsH264(s: Ud, k: nat, clock: nat -> int, n: nat)
    requires InvH264(s) && k <= |s.list|
    ensures InvH264(Release(s, k, clock, n))
    decreases |s.list|, |s.list| - k
  {
    if k < |s.list| {
      if clock(n) > s.list[k].pts {
        ReleaseKeepsH264(Unlink(s, k), 0, clock, n + 1);
      } else {
        ReleaseKeepsH264(s, k + 1, clock, n + 1);
      }
    }
  }

  lemma H264KeepsH264(s: Ud, e: Entry, clock: nat -> int)
    requires InvH264(s)
    ensures H264(s, e, clock).Some? && InvH264(H264(s, e, clock).value)
  {
    var s1 := if e.poc == 0 then Flush(s) else s;
    AddKeepsH264(s1, e);
    ReleaseKeepsH264(Add(s1, e), 0, clock, 0);
  }

  /** Over every run of H.264/AVS frames, for any clock readings, no step is undefined, the
      list stays ordered by (pts, poc), and the count is its length and at most 64. */
  lemma {:induction false} H264RunKeepsOrder(start: Ud, ops: seq<Op>)
    requires start == Opened(start.currPts, start.currDuration)
    requires forall op :: op in ops ==> op.H264Frame?
    ensures Run(start, ops).Some? && InvH264(Run(start, ops).value)
  {
    if ops != [] {
      var op := ops[|ops|-1];
      assert op in ops;
      H264RunKeepsOrder(start, ops[..|ops|-1]);
      H264KeepsH264(Run(start, ops[..|ops|-1]).value, op.entry, op.clock);
    }
  }

  // ---- The release loop ----

  function Earlier(list: seq<Entry>, c: int): seq<Entry> {
    if list == [] then []
    else (if list[0].pts < c then [list[0]] else []) + Earlier(list[1..], c)
  }

  function Later(list: seq<Entry>, c: int): seq<Entry> {
    if list == [] then []
    else (if list[0].pts < c then [] else [list[0]]) + Later(list[1..], c)
  }

  lemma {:induction false} SplitAt(list: seq<Entry>, k: nat, c: int)
    requires k < |list| && list[k].pts < c
    requires forall i :: 0 <= i < k ==> list[i].pts >= c
    ensures Earlier(list, c) == [list[k]] + Earlier(list[..k] + list[k+1..], c)
    ensures Later(list, c) == Later(list[..k] + list[k+1..], c)
  {
    if k == 0 {
      assert list[..0] + list[1..] == list[1..];
    } else {
      assert (list[..k] + list[k+1..])[1..] == list[1..][..k-1] + list[1..][k..];
      SplitAt(list[1..], k - 1, c);
    }
  }

  lemma {:induction false} NoneEarlier(list: seq<Entry>, c: int)
    requires forall i :: 0 <= i < |list| ==> list[i].pts >= c
    ensures Earlier(list, c) == [] && Later(list, c) == list
  {
    if list != [] {
      NoneEarlier(list[1..], c);
    }
  }

  /** What a write changes: the log and the running pts, whatever the list and the count are. */
  lemma {:induction false} WriteAllFirst(s: Ud, e: Entry, es: seq<Entry>, cause: Cause)
    ensures WriteAll(s, [e] + es, cause) == WriteAll(Write(s, e, cause), es, cause)
  {
    if es == [] {
      assert [e] + es == [e] && [e][..0] == [];
      assert WriteAll(s, [], cause) == s;
    } else {
      assert ([e] + es)[..|es|] == [e] + es[..|es|-1];
      WriteAllFirst(s, e, es[..|es|-1], cause);
    }
  }

  lemma {:induction false} WriteAllFrame(s: Ud, t: Ud, es: seq<Entry>, cause: Cause)
    requires s.log == t.log && s.currPts == t.currPts && s.currDuration == t.currDuration
    ensures WriteAll(s, es, cause).log == WriteAll(t, es, cause).log
    ensures WriteAll(s, es, cause).currPts == WriteAll(t, es, cause).currPts
    ensures WriteAll(s, es, cause).currDuration == WriteAll(t, es, cause).currDuration
  {
    if es != [] {
      WriteAllFrame(s, t, es[..|es|-1], cause);
    }
  }

  /** With the clock fixed during the call, the release loop writes exactly the entries earlier
      than the clock, in list order, and keeps exactly the others. */
  lemma {:induction false} ReleaseAtFixedClock(s: Ud, k: nat, clock: nat -> int, n: nat, c: int)
    requires k <= |s.list| && forall m :: clock(m) == c
    requires forall i :: 0 <= i < k ==> s.list[i].pts >= c
    ensures var r := Release(s, k, clock, n);
            && r.list == Later(s.list, c)
            && r.log == WriteAll(s, Earlier(s.list, c), Released).log
            && r.ccNum == s.ccNum - |Earlier(s.list, c)|
    decreases |s.list|, |s.list| - k
  {
    if k == |s.list| {
      NoneEarlier(s.list, c);
    } else if clock(n) > s.list[k].pts {
      var t := Unlink(s, k);
      SplitAt(s.list, k, c);
      ReleaseAtFixedClock(t, 0, clock, n + 1, c);
      WriteAllFirst(s, s.list[k], Earlier(t.list, c), Released);
      WriteAllFrame(Write(s, s.list[k], Released), t, Earlier(t.list, c), Released);
    } else {
      ReleaseAtFixedClock(s, k + 1, clock, n + 1, c);
    }
  }

  /** On an ordered list the released entries are its first ones. */
  lemma {:induction false} EarlierIsPrefix(list: seq<Entry>, c: int)
    requires SortedList(list)
    ensures list == Earlier(list, c) + Later(list, c)
  {
    if list != [] {
      EarlierIsPrefix(list[1..], c);
      if list[0].pts >= c {
        NoneEarlier(list, c);
      }
    }
  }

  // ---- Conservation ----

  function One(b: bool): nat {
    if b then 1 else 0
  }

  function Pending(list: seq<Entry>, f: Entry -> bool): nat {
    if list == [] then 0 else Pending(list[..|list|-1], f) + One(f(list[|list|-1]))
  }

  function SentCount(log: seq<Event>, f: Entry -> bool): nat {
    if log == [] then 0
    else
      var e := log[|log|-1];
      SentCount(log[..|log|-1], f) + One(e.Sent? && f(e.entry))
  }

  /** How many of the payloads that `f` picks are pending or were written. */
  function Accounted(s: Ud, f: Entry -> bool): nat {
    Pending(s.list, f) + SentCount(s.log, f)
  }

  lemma {:induction false} PendingAppend(a: seq<Entry>, b: seq<Entry>, f: Entry -> bool)
    ensures Pending(a + b, f) == Pending(a, f) + Pending(b, f)
  {
    if b == [] {
      assert a + b == a;
    } else {
      assert (a + b)[..|a + b|-1] == a + b[..|b|-1];
      PendingAppend(a, b[..|b|-1], f);
    }
  }

  lemma PendingOne(e: Entry, f: Entry -> bool)
    ensures Pending([e], f) == One(f(e))
  {
    assert [e][..0] == [];
  }

  lemma SentOne(log: seq<Event>, e: Event, f: Entry -> bool)
    ensures SentCount(log + [e], f) == SentCount(log, f) + One(e.Sent? && f(e.entry))
  {
    assert (log + [e])[..|log|] == log;
  }

  lemma WriteSends(s: Ud, e: Entry, cause: Cause, f: Entry -> bool)
    ensures SentCount(Write(s, e, cause).log, f) == SentCount(s.log, f) + One(f(e))
  {
    SentOne(s.log, Write(s, e, cause).log[|s.log|], f);
  }

  lemma {:induction false} WriteAllSends(s: Ud, es: seq<Entry>, cause: Cause, f: Entry -> bool)
    ensures SentCount(WriteAll(s, es, cause).log, f) == SentCount(s.log, f) + Pending(es, f)
  {
    if es != [] {
      WriteAllSends(s, es[..|es|-1], cause, f);
      WriteSends(WriteAll(s, es[..|es|-1], cause), es[|es|-1], cause, f);
    }
  }

  lemma {:induction false} InsertPends(list: seq<Entry>, e: Entry, f: Entry -> bool)
    ensures Pending(Insert(list, e), f) == Pending(list, f) + One(f(e))
  {
    PendingOne(e, f);
    if list == [] || ComesBefore(e, list[0]) {
      PendingAppend([e], list, f);
    } else {
      InsertPends(list[1..], e, f);
      PendingAppend([list[0]], list[1..], f);
      assert list == [list[0]] + list[1..];
      PendingAppend([list[0]], Insert(list[1..], e), f);
    }
  }

  lemma FlushConserves(s: Ud, f: Entry -> bool)
    ensures Accounted(Flush(s), f) == Accounted(s, f)
  {
    WriteAllSends(s, s.list, Flushed, f);
    SentOne(WriteAll(s, s.list, Flushed).log, FlushDone, f);
  }

  lemma EvictConserves(s: Ud, f: Entry -> bool)
    requires s.list != []
    ensures Accounted(EvictHead(s), f) == Accounted(s, f)
  {
    WriteSends(s, s.list[0], Evicted, f);
    assert s.list == [s.list[0]] + s.list[1..];
    PendingAppend([s.list[0]], s.list[1..], f);
    PendingOne(s.list[0], f);
  }

  lemma AddConserves(s: Ud, e: Entry, f: Entry -> bool)
    requires CanAdd(s)
    ensures Accounted(Add(s, e), f) == Accounted(s, f) + One(f(e))
  {
    if s.ccNum >= MAX_CC_NUM {
      EvictConserves(s, f);
    }
    var s1 := MakeRoom(s);
    FlushConserves(s1, f);
    InsertPends(FlushOnReset(s1, e.poc).list, e, f);
  }

  lemma UnlinkConserves(s: Ud, k: nat, f: Entry -> bool)
    requires k < |s.list|
    ensures Accounted(Unlink(s, k), f) == Accounted(s, f)
  {
    WriteSends(s, s.list[k], Released, f);
    assert s.list == s.list[..k] + [s.list[k]] + s.list[k+1..];
    PendingAppend(s.list[..k] + [s.list[k]], s.list[k+1..], f);
    PendingAppend(s.list[..k], [s.list[k]], f);
    PendingAppend(s.list[..k], s.list[k+1..], f);
    PendingOne(s.list[k], f);
  }

  lemma {:induction false} ReleaseConserves(s: Ud, k: nat, clock: nat -> int, n: nat, f: Entry -> bool)
    requires k <= |s.list|
    ensures Accounted(Release(s, k, clock, n), f) == Accounted(s, f)
    decreases |s.list|, |s.list| - k
  {
    if k < |s.list| {
      if clock(n) > s.list[k].pts {
        UnlinkConserves(s, k, f);
        ReleaseConserves(Unlink(s, k), 0, clock, n + 1, f);
      } else {
        ReleaseConserves(s, k + 1, clock, n + 1, f);
      }
    }
  }

  lemma DrainOneConserves(s: Ud, f: Entry -> bool)
    requires s.list != []
    ensures Accounted(DrainOne(s), f) == Accounted(s, f)
  {
    WriteSends(s, s.list[0], Drained, f);
    assert s.list == [s.list[0]] + s.list[1..];
    PendingAppend([s.list[0]], s.list[1..], f);
    PendingOne(s.list[0], f);
  }

  lemma {:induction false} DrainConserves(s: Ud, f: Entry -> bool)
    ensures Accounted(Drain(s), f) == Accounted(s, f)
    decreases |s.list|
  {
    if s.list != [] && s.list[0].poc == s.currPoc + 1 {
      DrainOneConserves(s, f);
      DrainConserves(DrainOne(s), f);
    }
  }

  /** Whether a step takes in a payload that `f` picks: the MPEG path ignores what is not a caption. */
  predicate Takes(op: Op, f: Entry -> bool) {
    match op
    case H264Frame(e, _) => f(e)
    case MpegFrame(e, _) => IsCaption(e.payload) && f(e)
    case ScteFrame(e, _) => e.Some? && f(e.value)
  }

  lemma H264Conserves(s: Ud, e: Entry, clock: nat -> int, f: Entry -> bool)
    requires H264(s, e, clock).Some?
    ensures Accounted(H264(s, e, clock).value, f) == Accounted(s, f) + One(f(e))
  {
    FlushConserves(s, f);
    var s1 := if e.poc == 0 then Flush(s) else s;
    AddConserves(s1, e, f);
    ReleaseConserves(Add(s1, e), 0, clock, 0, f);
  }

  lemma MpegConserves(s: Ud, e: Entry, isIFrame: bool, f: Entry -> bool)
    requires Mpeg(s, e, isIFrame).Some? && IsCaption(e.payload)
    ensures Accounted(Mpeg(s, e, isIFrame).value, f) == Accounted(s, f) + One(f(e))
  {
    FlushConserves(s, f);
    var s1 := if isIFrame then Flush(s) else s;
    if e.poc == s1.currPoc + 1 || e.poc == s1.currPoc {
      WriteSends(s1, e, Direct, f);
      DrainConserves(Write(s1, e, Direct).(currPoc := e.poc), f);
    } else {
      AddConserves(s1, e, f);
    }
  }

  lemma StepConserves(s: Ud, op: Op, f: Entry -> bool)
    requires Step(s, op).Some?
    ensures Accounted(Step(s, op).value, f) == Accounted(s, f) + One(Takes(op, f))
  {
    match op {
      case H264Frame(e, clock) => H264Conserves(s, e, clock, f);
      case MpegFrame(e, isIFrame) =>
        if IsCaption(e.payload) {
          MpegConserves(s, e, isIFrame, f);
        }
      case ScteFrame(e, isIFrame) =>
        FlushConserves(s, f);
        if e.Some? {
          AddConserves(if isIFrame then Flush(s) else s, e.value, f);
        }
    }
  }

  function TakenCount(ops: seq<Op>, f: Entry -> bool): nat {
    if ops == [] then 0 else TakenCount(ops[..|ops|-1], f) + One(Takes(ops[|ops|-1], f))
  }

  /** Over every run on any mix of paths, whatever payloads are picked, those taken in are
      pending or were written, each once. */
  lemma {:induction false} RunConserves(start: Ud, ops: seq<Op>, f: Entry -> bool)
    requires start == Opened(start.currPts, start.currDuration)
    requires Run(start, ops).Some?
    ensures Accounted(Run(start, ops).value, f) == TakenCount(ops, f)
  {
    if ops != [] {
      RunConserves(start, ops[..|ops|-1], f);
      StepConserves(Run(start, ops[..|ops|-1]).value, ops[|ops|-1], f);
    }
  }

  // ---- The count on every path ----

  lemma {:induction false} DrainKeepsCount(s: Ud)
    requires InvCount(s)
    ensures InvCount(Drain(s)) && Drain(s).ccNum == s.ccNum
    decreases |s.list|
  {
    if s.list != [] && s.list[0].poc == s.currPoc + 1 {
      DrainKeepsCount(DrainOne(s));
    }
  }

  lemma {:induction false} ReleaseKeepsCount(s: Ud, k: nat, clock: nat -> int, n: nat)
    requires InvCount(s) && k <= |s.list|
    ensures InvCount(Release(s, k, clock, n))
    decreases |s.list|, |s.list| - k
  {
    if k < |s.list| {
      if clock(n) > s.list[k].pts {
        ReleaseKeepsCount(Unlink(s, k), 0, clock, n + 1);
      } else {
        ReleaseKeepsCount(s, k + 1, clock, n + 1);
      }
    }
  }

  lemma AddKeepsCount(s: Ud, e: Entry)
    requires InvCount(s) && CanAdd(s)
    ensures InvCount(Add(s, e))
  {
    InsertMembers(FlushOnReset(MakeRoom(s), e.poc).list, e);
  }

  lemma StepKeepsCount(s: Ud, op: Op)
    requires InvCount(s) && Step(s, op).Some?
    ensures InvCount(Step(s, op).value)
  {
    match op {
      case H264Frame(e, clock) =>
        var s1 := if e.poc == 0 then Flush(s) else s;
        AddKeepsCount(s1, e);
        ReleaseKeepsCount(Add(s1, e), 0, clock, 0);
      case MpegFrame(e, isIFrame) =>
        if IsCaption(e.payload) {
          var s1 := if isIFrame then Flush(s) else s;
          if e.poc == s1.currPoc + 1 || e.poc == s1.currPoc {
            DrainKeepsCount(Write(s1, e, Direct).(currPoc := e.poc));
          } else {
            AddKeepsCount(s1, e);
          }
        }
      case ScteFrame(e, isIFrame) =>
        if e.Some? {
          AddKeepsCount(if isIFrame then Flush(s) else s, e.value);
        }
    }
  }

  /** Over every run on any mix of paths the list never holds more than 64 payloads. */
  lemma {:induction false} RunKeepsCount(start: Ud, ops: seq<Op>)
    requires start == Opened(start.currPts, start.currDuration)
    requires Run(start, ops).Some?
    ensures InvCount(Run(start, ops).value)
  {
    if ops != [] {
      RunKeepsCount(start, ops[..|ops|-1]);
      StepKeepsCount(Run(start, ops[..|ops|-1]).value, ops[|ops|-1]);
    }
  }

  // ---- Temporal references on the MPEG path ----

  /** The temporal references written directly or drained since the last flush. */
  function References(log: seq<Event>): seq<int> {
    if log == [] then []
    else
      var before, e := log[..|log|-1], log[|log|-1];
      match e
      case FlushDone => []
      case Sent(entry, _, cause, _) =>
        if cause == Direct || cause == Drained then References(before) + [entry.poc] else References(before)
  }

  /** A run from 0 whose steps are each 0 or 1. */
  ghost predicate Consecutive(refs: seq<int>) {
    && (refs != [] ==> refs[0] == 0)
    && forall i :: 0 < i < |refs| ==> refs[i] == refs[i-1] || refs[i] == refs[i-1] + 1
  }

  /** The current reference is the last one written, or -1 when none was. */
  ghost predicate InvMpeg(s: Ud) {
    var refs := References(s.log);
    Consecutive(refs) && s.currPoc == if refs == [] then -1 else refs[|refs|-1]
  }

  lemma WriteReferences(s: Ud, e: Entry, cause: Cause)
    ensures References(Write(s, e, cause).log) ==
            References(s.log) + (if cause == Direct || cause == Drained then [e.poc] else [])
  {
    var w := Write(s, e, cause);
    assert w.log[..|w.log|-1] == s.log;
  }

  lemma FlushResets(s: Ud)
    ensures References(Flush(s).log) == [] && InvMpeg(Flush(s))
  {
  }

  lemma NextReference(s: Ud, e: Entry, cause: Cause)
    requires InvMpeg(s) && (cause == Direct || cause == Drained)
    requires e.poc >= 0 && (e.poc == s.currPoc || e.poc == s.currPoc + 1)
    ensures InvMpeg(Write(s, e, cause).(currPoc := e.poc))
  {
    WriteReferences(s, e, cause);
  }

  lemma {:induction false} DrainKeepsMpeg(s: Ud)
    requires InvMpeg(s) && forall e :: e in s.list ==> e.poc >= 0
    ensures InvMpeg(Drain(s)) && forall e :: e in Drain(s).list ==> e in s.list
    decreases |s.list|
  {
    if s.list != [] && s.list[0].poc == s.currPoc + 1 {
      NextReference(s, s.list[0], Drained);
      DrainKeepsMpeg(DrainOne(s));
    }
  }

  lemma AddKeepsMpeg(s: Ud, e: Entry)
    requires InvMpeg(s) && CanAdd(s)
    ensures InvMpeg(Add(s, e))
    ensures forall x :: x in Add(s, e).list ==> x in s.list || x == e
  {
    if s.ccNum >= MAX_CC_NUM {
      WriteReferences(s, s.list[0], Evicted);
    }
    FlushResets(MakeRoom(s));
    InsertMembers(FlushOnReset(MakeRoom(s), e.poc).list, e);
  }

  /** A frame of the MPEG or SCTE path with a temporal reference, which is not negative. */
  predicate MpegOp(op: Op) {
    match op
    case H264Frame(_, _) => false
    case MpegFrame(e, _) => e.poc >= 0
    case ScteFrame(e, _) => e.Some? ==> e.value.poc >= 0
  }

  ghost predicate InvMpegList(s: Ud) {
    InvMpeg(s) && forall e :: e in s.list ==> e.poc >= 0
  }

  lemma StepKeepsMpeg(s: Ud, op: Op)
    requires InvMpegList(s) && MpegOp(op) && Step(s, op).Some?
    ensures InvMpegList(Step(s, op).value)
  {
    FlushResets(s);
    match op {
      case MpegFrame(e, isIFrame) =>
        if IsCaption(e.payload) {
          var s1 := if isIFrame then Flush(s) else s;
          if e.poc == s1.currPoc + 1 || e.poc == s1.currPoc {
            NextReference(s1, e, Direct);
            DrainKeepsMpeg(Write(s1, e, Direct).(currPoc := e.poc));
          } else {
            AddKeepsMpeg(s1, e);
          }
        }
      case ScteFrame(e, isIFrame) =>
        if e.Some? {
          AddKeepsMpeg(if isIFrame then Flush(s) else s, e.value);
        }
    }
  }

  /** Over every run of MPEG and SCTE frames, the temporal references written since the last
      flush, apart from cap evictions, run from 0 in steps of 0 or 1. */
  lemma {:induction false} MpegRunIsConsecutive(start: Ud, ops: seq<Op>)
    requires start == Opened(start.currPts, start.currDuration)
    requires forall op :: op in ops ==> MpegOp(op)
    requires Run(start, ops).Some?
    ensures InvMpegList(Run(start, ops).value)
  {
    if ops != [] {
      assert ops[|ops|-1] in ops;
      MpegRunIsConsecutive(start, ops[..|ops|-1]);
      StepKeepsMpeg(Run(start, ops[..|ops|-1]).value, ops[|ops|-1]);
    }
  }

  // ---- Exactly when a step is undefined ----

  /** A step is undefined exactly when it has to add a payload while the count says full and
      the list is empty. */
  lemma StepUndefinedIff(s: Ud, op: Op)
    ensures Step(s, op).None? <==>
              && s.ccNum >= MAX_CC_NUM && s.list == []
              && match op
                 case H264Frame(e, _) => e.poc != 0
                 case MpegFrame(e, isI) => IsCaption(e.payload) && !isI && e.poc != s.currPoc && e.poc != s.currPoc + 1
                 case ScteFrame(e, isI) => e.Some? && !isI
  {
  }

  function P(id: nat, poc: int): Op {
    MpegFrame(Entry(id, poc, 0, true, 0, [0, 0, 0, 0, 3]), false)
  }

  /** Two P frames per round: reference 2n+1 waits, reference 2n is written and drains it. */
  function SwappedPairs(n: nat): seq<Op> {
    if n == 0 then [] else SwappedPairs(n - 1) + [P(2 * n - 1, 2 * n - 1), P(2 * n - 2, 2 * n - 2)]
  }

  /** One swapped pair on an empty list. */
  lemma SwappedPair(s: Ud, a: Entry, b: Entry)
    requires s.list == [] && s.ccNum < MAX_CC_NUM
    requires IsCaption(a.payload) && IsCaption(b.payload)
    requires b.poc == s.currPoc + 1 && a.poc == s.currPoc + 2
    ensures var s1 := Mpeg(s, a, false);
            s1.Some? &&
            var s2 := Mpeg(s1.value, b, false);
            s2.Some? && s2.value.list == [] && s2.value.ccNum == s.ccNum + 1 && s2.value.currPoc == s.currPoc + 2
  {
    var s1 := Mpeg(s, a, false).value;
    assert s1 == s.(list := [a], ccNum := s.ccNum + 1);
    var w := Write(s1, b, Direct).(currPoc := b.poc);
    assert Drain(w) == Drain(DrainOne(w)) == DrainOne(w);
  }

  /** Each swapped pair leaves the list empty and the count one higher. */
  lemma {:induction false} SwappedPairLeaks(start: Ud, n: nat)
    requires start == Opened(start.currPts, start.currDuration) && n <= MAX_CC_NUM
    ensures var r := Run(start, SwappedPairs(n));
            r.Some? && r.value.list == [] && r.value.ccNum == n && r.value.currPoc == 2 * n - 1
  {
    if n > 0 {
      SwappedPairLeaks(start, n - 1);
      var ops, a, b := SwappedPairs(n - 1), P(2 * n - 1, 2 * n - 1), P(2 * n - 2, 2 * n - 2);
      assert (ops + [a, b])[..|ops|+1] == ops + [a];
      assert (ops + [a])[..|ops|] == ops;
      SwappedPair(Run(start, ops).value, a.entry, b.entry);
    }
  }

  /** The drain does not lower the count, so 64 swapped pairs and one more early frame make the
      MPEG path read through an empty list. */
  lemma MpegPathCanFail(start: Ud)
    requires start == Opened(start.currPts, start.currDuration)
    ensures Run(start, SwappedPairs(MAX_CC_NUM) + [P(0, 300)]).None?
  {
    SwappedPairLeaks(start, MAX_CC_NUM);
    OneMoreFails(start, SwappedPairs(MAX_CC_NUM));
  }

  lemma OneMoreFails(start: Ud, ops: seq<Op>)
    requires Run(start, ops).Some? && Run(start, ops).value.list == []
    requires MAX_CC_NUM <= Run(start, ops).value.ccNum && Run(start, ops).value.currPoc < 299
    ensures Run(start, ops + [P(0, 300)]).None?
  {
    assert (ops + [P(0, 300)])[..|ops|] == ops;
    StepUndefinedIff(Run(start, ops).value, P(0, 300));
  }

}
