/** The demux filter device as a state machine: one data thread that calls filter callbacks
    outside the device lock, and any number of client threads whose calls are atomic under it.
    Every interleaving is a sequence of labels. */
module DemuxProtocol {
  import opened Wrappers

  const FILTER_COUNT: nat := 32

  /** Thread 0 is the data thread; it calls the interface from inside a callback only. */
  const DATA_THREAD: nat := 0

  datatype Filter = Filter(used: bool, enable: bool, hasCb: bool)

  /** Where the data thread is. */
  datatype Pc =
    | Polling
    | Scan(id: nat, mask: set<nat>)
    | WantLock(id: nat, mask: set<nat>)
    | HaveCb(id: nat, mask: set<nat>)
    | InCb(id: nat, mask: set<nat>)

  datatype Dev = Dev(filters: seq<Filter>, runCb: bool, pc: Pc, syncing: set<nat>)

  datatype ReadResult = Data | Timeout | Failed

  /** One atomic action.  Driver results are parameters: 0 is success. */
  datatype Label =
    | Poll(mask: set<nat>)
    | Look
    | Take(read: ReadResult)
    | Call
    | Return
    | EndPass
    | Allocate(t: nat, drv: int)
    | SetCallback(t: nat, f: int, hasCb: bool)
    | SetParams(t: nat, f: int, drv: int)
    | Start(t: nat, f: int, drv: int)
    | Stop(t: nat, f: int, drv: int)
    | Free(t: nat, f: int, drvStop: int, drvFree: int)
    | SyncEnter(t: nat)
    | SyncReturn(t: nat)

  predicate InUse(s: Dev, f: int)
    requires |s.filters| == FILTER_COUNT
  {
    0 <= f < FILTER_COUNT && s.filters[f].used
  }

  predicate MayCall(s: Dev, t: nat) {
    t == DATA_THREAD ==> s.pc.InCb?
  }

  predicate Enabled(s: Dev, l: Label)
    requires |s.filters| == FILTER_COUNT
  {
    match l
    case Poll(mask) => s.pc == Polling && mask != {}
    case Look => s.pc.Scan? && s.pc.id < FILTER_COUNT
    case Take(_) => s.pc.WantLock? && s.pc.id < FILTER_COUNT
    case Call => s.pc.HaveCb?
    case Return => s.pc.InCb?
    case EndPass => s.pc.Scan? && s.pc.id >= FILTER_COUNT
    case Allocate(t, _) => MayCall(s, t)
    case SetCallback(t, _, _) => MayCall(s, t)
    case SetParams(t, _, _) => MayCall(s, t)
    // Starting a handle that is not allocated dereferences a null filter.
    case Start(t, f, _) => MayCall(s, t) && InUse(s, f)
    case Stop(t, _, _) => MayCall(s, t)
    case Free(t, _, _, _) => MayCall(s, t)
    case SyncEnter(t) => MayCall(s, t) && t !in s.syncing
    case SyncReturn(t) => t in s.syncing && (t == DATA_THREAD || !s.runCb)
  }

  function FirstFree(fs: seq<Filter>): (k: nat)
    ensures k <= |fs| && (k < |fs| ==> !fs[k].used)
    ensures forall i :: 0 <= i < k ==> fs[i].used
  {
    if fs == [] || !fs[0].used then 0 else 1 + FirstFree(fs[1..])
  }

  /** Disabling: a driver refusal, a negative result, leaves the filter enabled. */
  function Disabled(x: Filter, drv: int): Filter {
    if x.used && x.enable && drv >= 0 then x.(enable := false) else x
  }

  predicate DisableOk(x: Filter, drv: int) {
    !x.used || !x.enable || drv == 0
  }

  function Freed(x: Filter, drvStop: int, drvFree: int): Filter {
    var y := Disabled(x, drvStop);
    if DisableOk(x, drvStop) && drvFree == 0 then y.(used := false) else y
  }

  function Apply(s: Dev, l: Label): (r: Dev)
    requires |s.filters| == FILTER_COUNT && Enabled(s, l)
    ensures |r.filters| == FILTER_COUNT
  {
    match l
    case Poll(mask) => s.(runCb := true, pc := Scan(0, mask))
    case Look =>
      var id := s.pc.id;
      if id in s.pc.mask && s.filters[id].enable && s.filters[id].used then s.(pc := WantLock(id, s.pc.mask))
      else s.(pc := Scan(id + 1, s.pc.mask))
    case Take(read) =>
      var id, x := s.pc.id, s.filters[s.pc.id];
      if x.enable && x.used && read != Failed && x.hasCb then s.(pc := HaveCb(id, s.pc.mask))
      else s.(pc := Scan(id + 1, s.pc.mask))
    case Call => s.(pc := InCb(s.pc.id, s.pc.mask))
    case Return => s.(pc := Scan(s.pc.id + 1, s.pc.mask))
    case EndPass => s.(runCb := false, pc := Polling)
    case Allocate(_, drv) =>
      var k := FirstFree(s.filters);
      if k < FILTER_COUNT && drv == 0 then s.(filters := s.filters[k := s.filters[k].(used := true)]) else s
    case SetCallback(_, f, hasCb) =>
      if InUse(s, f) then s.(filters := s.filters[f := s.filters[f].(hasCb := hasCb)]) else s
    case SetParams(_, f, drv) =>
      if InUse(s, f) then s.(filters := s.filters[f := Disabled(s.filters[f], drv)]) else s
    case Start(_, f, drv) =>
      if !s.filters[f].enable && drv == 0 then s.(filters := s.filters[f := s.filters[f].(enable := true)]) else s
    case Stop(_, f, drv) =>
      if InUse(s, f) then s.(filters := s.filters[f := Disabled(s.filters[f], drv)]) else s
    case Free(_, f, drvStop, drvFree) =>
      if InUse(s, f) then s.(filters := s.filters[f := Freed(s.filters[f], drvStop, drvFree)]) else s
    case SyncEnter(t) => s.(syncing := s.syncing + {t})
    case SyncReturn(t) => s.(syncing := s.syncing - {t})
  }

  /** The call returns AM_SUCCESS after making sure that the filter is not enabled. */
  predicate Stops(s: Dev, l: Label, f: nat)
    requires |s.filters| == FILTER_COUNT
  {
    && InUse(s, f)
    && match l
       case Stop(_, g, drv) => g == f && DisableOk(s.filters[f], drv)
       case Free(_, g, drvStop, drvFree) => g == f && DisableOk(s.filters[f], drvStop) && drvFree == 0
       case _ => false
  }

  function AllFree(): (fs: seq<Filter>)
    ensures |fs| == FILTER_COUNT && forall i :: 0 <= i < |fs| ==> fs[i] == Filter(false, false, false)
  {
    seq(FILTER_COUNT, _ => Filter(false, false, false))
  }

  const OPENED: Dev := Dev(AllFree(), false, Polling, {})

  function Exec(s: Dev, ls: seq<Label>): (r: Option<Dev>)
    requires |s.filters| == FILTER_COUNT
    ensures r.Some? ==> |r.value.filters| == FILTER_COUNT
  {
    if ls == [] then Some(s)
    else
      var before := Exec(s, ls[..|ls|-1]);
      if before.Some? && Enabled(before.value, ls[|ls|-1]) then Some(Apply(before.value, ls[|ls|-1])) else None
  }

  // ---- What every step keeps ----

  predicate Holds(pc: Pc, f: nat) {
    (pc.HaveCb? || pc.InCb?) && pc.id == f
  }

  /** The flag is set exactly while the data thread is in a pass over the filters; a filter that
      is not allocated is not enabled. */
  predicate Inv(s: Dev) {
    && |s.filters| == FILTER_COUNT
    && (s.runCb <==> s.pc != Polling)
    && (!s.pc.Polling? && !s.pc.Scan? ==> s.pc.id < FILTER_COUNT)
    && (s.pc.Scan? ==> s.pc.id <= FILTER_COUNT)
    && forall f :: 0 <= f < FILTER_COUNT && !s.filters[f].used ==> !s.filters[f].enable
  }

  lemma StepKeepsInv(s: Dev, l: Label)
    requires Inv(s) && Enabled(s, l)
    ensures Inv(Apply(s, l))
  {
  }

  lemma {:induction false} RunKeepsInv(ls: seq<Label>)
    requires Exec(OPENED, ls).Some?
    ensures Inv(Exec(OPENED, ls).value)
  {
    if ls != [] {
      RunKeepsInv(ls[..|ls|-1]);
      StepKeepsInv(Exec(OPENED, ls[..|ls|-1]).value, ls[|ls|-1]);
    }
  }

  /** A prefix of a run is a run. */
  lemma {:induction false} PrefixRuns(s: Dev, ls: seq<Label>, k: nat)
    requires |s.filters| == FILTER_COUNT && k <= |ls| && Exec(s, ls).Some?
    ensures Exec(s, ls[..k]).Some?
  {
    if k < |ls| {
      assert ls[..|ls|-1][..k] == ls[..k];
      PrefixRuns(s, ls[..|ls|-1], k);
    } else {
      assert ls[..k] == ls;
    }
  }

  /** No label from `i` to `k` starts the filter. */
  predicate NotStarted(ls: seq<Label>, f: nat, i: nat, k: nat)
    requires i <= k <= |ls|
  {
    forall j :: i <= j < k ==> !(ls[j].Start? && ls[j].f == f)
  }

  lemma StopDisables(s: Dev, l: Label, f: nat)
    requires Inv(s) && Enabled(s, l) && Stops(s, l, f)
    ensures !Apply(s, l).filters[f].enable
  {
  }

  /** Only starting a filter enables it. */
  lemma StaysDisabled(s: Dev, l: Label, f: nat)
    requires Inv(s) && Enabled(s, l) && f < FILTER_COUNT && !s.filters[f].enable
    requires !(l.Start? && l.f == f)
    ensures !Apply(s, l).filters[f].enable
  {
  }

  lemma {:induction false} DisabledSince(ls: seq<Label>, f: nat, i: nat)
    requires Exec(OPENED, ls).Some? && i < |ls|
    requires Exec(OPENED, ls[..i]).Some? && Stops(Exec(OPENED, ls[..i]).value, ls[i], f)
    requires NotStarted(ls, f, i + 1, |ls|)
    ensures f < FILTER_COUNT && !Exec(OPENED, ls).value.filters[f].enable
    decreases |ls|
  {
    var before := ls[..|ls|-1];
    RunKeepsInv(before);
    if i == |ls| - 1 {
      StopDisables(Exec(OPENED, before).value, ls[i], f);
    } else {
      assert before[..i] == ls[..i];
      DisabledSince(before, f, i);
      StaysDisabled(Exec(OPENED, before).value, ls[|ls|-1], f);
    }
  }

  /** A waiting thread other than the data thread returns only between two passes. */
  lemma SyncSeesNoPass(s: Dev, l: Label, t: nat)
    requires Inv(s) && Enabled(s, l) && l == SyncReturn(t) && t != DATA_THREAD
    ensures Apply(s, l).pc == Polling
  {
  }

  /** The data thread takes the callback of an enabled filter only. */
  lemma TakesEnabledOnly(s: Dev, l: Label, f: nat)
    requires Inv(s) && Enabled(s, l) && f < FILTER_COUNT && !s.filters[f].enable
    requires !Holds(s.pc, f)
    ensures !Holds(Apply(s, l).pc, f) && (l.Call? ==> s.pc.id != f)
  {
  }

  /** The last label of a run that had quiescence before it. */
  lemma {:induction false} QuietSince(ls: seq<Label>, f: nat, i: nat, k: nat)
    requires i < k < |ls| && Exec(OPENED, ls).Some?
    requires Exec(OPENED, ls[..i]).Some? && Stops(Exec(OPENED, ls[..i]).value, ls[i], f)
    requires ls[k].SyncReturn? && ls[k].t != DATA_THREAD
    requires NotStarted(ls, f, i + 1, |ls|)
    ensures !Holds(Exec(OPENED, ls).value.pc, f)
    decreases |ls|
  {
    var before := ls[..|ls|-1];
    var s, l := Exec(OPENED, before).value, ls[|ls|-1];
    RunKeepsInv(before);
    if k == |ls| - 1 {
      SyncSeesNoPass(s, l, l.t);
    } else {
      assert before[..i] == ls[..i];
      QuietSince(before, f, i, k);
      DisabledSince(before, f, i);
      TakesEnabledOnly(s, l, f);
    }
  }

  /** Quiescence over all interleavings: once stopping or freeing a filter succeeded at step `i`
      and then a DemuxSync returned at step `k` on a thread other than the data thread, at every
      later step `m` the filter's callback is neither running nor about to run, and no call of
      it begins, until the filter is started again. */
  lemma Quiescence(ls: seq<Label>, f: nat, i: nat, k: nat, m: nat)
    requires i < k < m <= |ls| && Exec(OPENED, ls).Some?
    requires Exec(OPENED, ls[..i]).Some? && Stops(Exec(OPENED, ls[..i]).value, ls[i], f)
    requires ls[k].SyncReturn? && ls[k].t != DATA_THREAD
    requires NotStarted(ls, f, i + 1, m)
    ensures Exec(OPENED, ls[..m]).Some?
    ensures !Holds(Exec(OPENED, ls[..m]).value.pc, f)
    ensures m < |ls| && ls[m].Call? ==> Exec(OPENED, ls[..m]).value.pc.HaveCb? && Exec(OPENED, ls[..m]).value.pc.id != f
  {
    PrefixRuns(OPENED, ls, m);
    assert ls[..m][..i] == ls[..i];
    QuietSince(ls[..m], f, i, k);
    if m < |ls| {
      NextIsEnabled(ls, m);
    }
  }

  lemma NextIsEnabled(ls: seq<Label>, m: nat)
    requires m < |ls| && Exec(OPENED, ls).Some?
    ensures Exec(OPENED, ls[..m]).Some? && Enabled(Exec(OPENED, ls[..m]).value, ls[m])
  {
    PrefixRuns(OPENED, ls, m + 1);
    assert ls[..m+1][..m] == ls[..m];
  }

  // ---- Both parts are needed ----

  lemma ExecMore(s: Dev, ls: seq<Label>, l: Label)
    requires |s.filters| == FILTER_COUNT && Exec(s, ls).Some? && Enabled(Exec(s, ls).value, l)
    ensures Exec(s, ls + [l]) == Some(Apply(Exec(s, ls).value, l))
  {
    assert (ls + [l])[..|ls|] == ls;
  }

  const PRELUDE: seq<Label> :=
    [Allocate(1, 0), SetCallback(1, 0, true), Start(1, 0, 0), Poll({0}), Look, Take(Data), Call]

  /** A run that ends inside the callback of filter 0, which is enabled. */
  lemma PreludeRuns()
    ensures Exec(OPENED, PRELUDE) ==
            Some(Dev(OPENED.filters[0 := Filter(true, true, true)], true, InCb(0, {0}), {}))
  {
    var p := PRELUDE;
    var f1 := OPENED.filters[0 := Filter(true, false, false)];
    var f2 := f1[0 := Filter(true, false, true)];
    var f3 := f2[0 := Filter(true, true, true)];
    assert f3 == OPENED.filters[0 := Filter(true, true, true)];
    assert FirstFree(OPENED.filters) == 0;
    assert p[..0] == [] && p[..1] == [] + [p[0]] && p[..2] == p[..1] + [p[1]] && p[..3] == p[..2] + [p[2]];
    ExecMore(OPENED, p[..0], p[0]);
    assert Exec(OPENED, p[..1]) == Some(Dev(f1, false, Polling, {}));
    ExecMore(OPENED, p[..1], p[1]);
    assert Exec(OPENED, p[..2]) == Some(Dev(f2, false, Polling, {}));
    ExecMore(OPENED, p[..2], p[2]);
    assert p[..4] == p[..3] + [p[3]] && p[..5] == p[..4] + [p[4]] && p[..6] == p[..5] + [p[5]];
    ExecMore(OPENED, p[..3], p[3]);
    ExecMore(OPENED, p[..4], p[4]);
    ExecMore(OPENED, p[..5], p[5]);
    assert p == p[..6] + [p[6]];
    ExecMore(OPENED, p[..6], p[6]);
  }

  /** Stopping alone does not wait: after it the callback taken before can still be running, and
      a DemuxSync called from inside that callback returns at once and changes nothing. */
  lemma StopAndOwnSyncAreNotEnough()
    ensures var ls := PRELUDE + [Stop(1, 0, 0)] + [SyncEnter(DATA_THREAD)] + [SyncReturn(DATA_THREAD)];
            && Exec(OPENED, PRELUDE).Some? && Stops(Exec(OPENED, PRELUDE).value, ls[7], 0)
            && Exec(OPENED, ls).Some? && Exec(OPENED, ls).value.pc == InCb(0, {0})
  {
    PreludeRuns();
    var a := PRELUDE + [Stop(1, 0, 0)];
    var b := a + [SyncEnter(DATA_THREAD)];
    ExecMore(OPENED, PRELUDE, Stop(1, 0, 0));
    ExecMore(OPENED, a, SyncEnter(DATA_THREAD));
    ExecMore(OPENED, b, SyncReturn(DATA_THREAD));
  }

  // ---- A waiting thread is never stuck ----

  /** The data thread's next action when its reads fail and its callbacks return. */
  function NextAction(pc: Pc): Label
    requires pc != Polling
  {
    match pc
    case Scan(id, _) => if id < FILTER_COUNT then Look else EndPass
    case WantLock(_, _) => Take(Failed)
    case HaveCb(_, _) => Call
    case InCb(_, _) => Return
  }

  function Distance(pc: Pc): nat {
    match pc
    case Polling => 0
    case Scan(id, _) => if id < FILTER_COUNT then 4 * (FILTER_COUNT - id) + 1 else 1
    case WantLock(id, _) => if id < FILTER_COUNT then 4 * (FILTER_COUNT - id) else 0
    case HaveCb(id, _) => if id < FILTER_COUNT then 4 * (FILTER_COUNT - id) - 1 else 0
    case InCb(id, _) => if id < FILTER_COUNT then 4 * (FILTER_COUNT - id) - 2 else 0
  }

  /** From every reachable state the data thread alone brings its pass to an end, after which
      every waiting DemuxSync can return: the protocol has no deadlock. */
  lemma {:induction false} PassEnds(s: Dev) returns (ls: seq<Label>, r: Dev)
    requires Inv(s)
    ensures Exec(s, ls) == Some(r) && Inv(r) && r.pc == Polling && r.syncing == s.syncing
    ensures forall t :: t in s.syncing ==> Enabled(r, SyncReturn(t))
    decreases Distance(s.pc)
  {
    if s.pc == Polling {
      return [], s;
    }
    var l := NextAction(s.pc);
    StepKeepsInv(s, l);
    var rest;
    rest, r := PassEnds(Apply(s, l));
    ls := [l] + rest;
    ExecFirst(s, l, rest);
  }

  lemma {:induction false} ExecFirst(s: Dev, l: Label, rest: seq<Label>)
    requires |s.filters| == FILTER_COUNT && Enabled(s, l)
    ensures Exec(s, [l] + rest) == Exec(Apply(s, l), rest)
  {
    if rest == [] {
      assert [l] + rest == [l] && [l][..0] == [];
    } else {
      assert ([l] + rest)[..|rest|] == [l] + rest[..|rest|-1];
      ExecFirst(s, l, rest[..|rest|-1]);
    }
  }

}
