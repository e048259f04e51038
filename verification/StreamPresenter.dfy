/** The stream scheduler in place: shared SPU objects whose times and text are rewritten, in
    two lists that one message handler owns.  Each method is proved against StreamSpec. */
module StreamPresenter {
  import opened Bytes
  import opened Clock
  import opened Wrappers
  import opened SpuList
  import opened StreamSpec
  import opened StreamProps

  /** One SPU on the heap; only its times and its text change. */
  class SpuObject {
    const id: nat
    const kind: Kind
    const objectId: nat
    const isImmediate: bool
    const isExt: bool
    const isKeepShowing: bool
    const isSimpleText: bool
    var pts: int
    var delay: int
    var data: Option<seq<byte>>

    constructor (x: Spu)
      ensures Val() == x
    {
      id, kind, objectId := x.id, x.kind, x.objectId;
      isImmediate, isExt, isKeepShowing, isSimpleText := x.isImmediate, x.isExt, x.isKeepShowing, x.isSimpleText;
      pts, delay, data := x.pts, x.delay, x.data;
    }

    function Val(): Spu
      reads this
    {
      Spu(id, kind, objectId, isImmediate, isExt, isKeepShowing, isSimpleText, pts, delay, data)
    }

    /** The cut to 32 bits, when the clock source has only those. */
    method CompareBitAndSyncPts(videoPts: int) returns (changed: bool)
      modifies this
      ensures changed == NeedsMask(old(Val()), videoPts)
      ensures Val() == if changed then old(Val()).(pts := Mask32(old(pts)), delay := Mask32(old(delay))) else old(Val())
    {
      changed := false;
      if pts <= 0 || videoPts <= 0 {
        return;
      }
      if MoreThan32Bits(pts) && !MoreThan32Bits(videoPts) {
        pts := Mask32(pts);
        delay := Mask32(delay);
        changed := true;
      }
    }

    /** Joins the next SPU's text to this one's when both start together. */
    method CombineSamePts(second: SpuObject) returns (combined: bool)
      requires second != this
      modifies this
      ensures combined == Combinable(old(Val()), old(second.Val()))
      ensures Val() == if combined then
                         old(Val()).(data := Some(CombinedText(old(Val()).Bytes(), old(second.Val()).Bytes())))
                       else old(Val())
    {
      if isExt || isImmediate || !isSimpleText || second.isExt || second.isImmediate || !second.isSimpleText {
        return false;
      }
      if pts != second.pts {
        return false;
      }
      data := Some(CombinedText(Val().Bytes(), second.Val().Bytes()));
      return true;
    }
  }

  ghost function Vals(s: seq<SpuObject>): (v: seq<Spu>)
    reads s
    ensures |v| == |s|
    ensures forall i :: 0 <= i < |s| ==> v[i] == s[i].Val()
  {
    seq(|s|, i requires 0 <= i < |s| reads s => s[i].Val())
  }

  ghost function Objects(s: seq<SpuObject>): set<SpuObject> {
    set y | y in s
  }

  lemma ValsDrop(s: seq<SpuObject>, k: nat)
    requires k <= |s|
    ensures Vals(s[k..]) == Vals(s)[k..]
  {
  }

  lemma ValsAppend(s: seq<SpuObject>, t: seq<SpuObject>)
    ensures Vals(s + t) == Vals(s) + Vals(t)
  {
  }

  lemma InsertKeepsDistinct(s: seq<SpuObject>, x: SpuObject, k: nat)
    requires k <= |s| && Distinct(s) && x !in s
    ensures Distinct(s[..k] + [x] + s[k..])
    ensures Vals(s[..k] + [x] + s[k..]) == Vals(s)[..k] + [x.Val()] + Vals(s)[k..]
    ensures forall y :: y in s[..k] + [x] + s[k..] <==> y in s || y == x
  {
    forall y ensures y in s[..k] + [x] + s[k..] <==> y in s || y == x {
      assert s == s[..k] + s[k..];
    }
  }

  ghost predicate Distinct(s: seq<SpuObject>) {
    forall i, j :: 0 <= i < j < |s| ==> s[i] != s[j]
  }

  /** `kept` holds the objects of `all` that are not too far ahead, in the same order. */
  ghost predicate IsNear(kept: seq<SpuObject>, all: seq<SpuObject>, ts: int)
    reads kept, all
  {
    && Distinct(kept)
    && (forall y :: y in kept ==> y in all)
    && Vals(kept) == Kept(Vals(all), ts)
    && (all != [] ==> (all[0] in kept <==> !TooFarAhead(all[0].Val(), ts)))
    && (kept != [] && all[0] in kept ==> kept[0] == all[0])
  }

  lemma {:induction false} KeptAppend(v: seq<Spu>, x: Spu, ts: int)
    ensures Kept(v + [x], ts) == Kept(v, ts) + (if TooFarAhead(x, ts) then [] else [x])
  {
    if v == [] {
      assert [x][1..] == [];
      assert v + [x] == [x];
    } else {
      assert (v + [x])[1..] == v[1..] + [x];
      KeptAppend(v[1..], x, ts);
    }
  }

  lemma NearStep(kept: seq<SpuObject>, all: seq<SpuObject>, x: SpuObject, far: bool, ts: int)
    requires IsNear(kept, all, ts) && x !in all && far == TooFarAhead(x.Val(), ts)
    ensures IsNear(if far then kept else kept + [x], all + [x], ts)
  {
    KeptAppend(Vals(all), x.Val(), ts);
    ValsAppend(all, [x]);
    ValsAppend(kept, [x]);
    assert Vals([x]) == [x.Val()];
  }

  lemma NearNext(kept: seq<SpuObject>, all: seq<SpuObject>, i: nat, ts: int)
    requires i < |all| && Distinct(all) && IsNear(kept, all[..i], ts)
    ensures IsNear(if TooFarAhead(all[i].Val(), ts) then kept else kept + [all[i]], all[..i+1], ts)
  {
    assert all[i] !in all[..i];
    assert all[..i+1] == all[..i] + [all[i]];
    NearStep(kept, all[..i], all[i], TooFarAhead(all[i].Val(), ts), ts);
  }

  class Presenter {
    var waiting: seq<SpuObject>
    var fading: seq<SpuObject>
    /** What was asked of the renderer and the message loop, in order. */
    var calls: seq<Call>
    ghost var retired: seq<Retirement>

    ghost predicate Valid()
      reads this
    {
      Distinct(waiting) && Distinct(fading) && forall x :: x in waiting ==> x !in fading
    }

    ghost function View(): Sched
      reads this, waiting, fading
    {
      Sched(Vals(waiting), Vals(fading), retired, calls)
    }

    constructor ()
      ensures Valid() && View() == EMPTY
    {
      waiting, fading, calls, retired := [], [], [], [];
    }

    /** Where a stable sort puts a new last element of an ordered list. */
    method PlaceFor(x: SpuObject) returns (k: nat)
      requires Sorted(Vals(waiting))
      ensures k <= |waiting|
      ensures SortByPts(Vals(waiting) + [x.Val()]) == Vals(waiting)[..k] + [x.Val()] + Vals(waiting)[k..]
    {
      ghost var v := Vals(waiting);
      k := |waiting|;
      while k > 0 && waiting[k-1].pts > x.pts
        invariant 0 <= k <= |waiting|
        invariant forall i :: k <= i < |v| ==> v[i].pts > x.pts
      {
        k := k - 1;
      }
      SortAfterPush(v, x.Val());
      InsertPlace(v, x.Val(), k);
    }

    method InsertAt(x: SpuObject, k: nat)
      requires Valid() && x !in waiting && x !in fading && k <= |waiting|
      modifies this`waiting
      ensures Valid()
      ensures forall y :: y in waiting <==> y in old(waiting) || y == x
      ensures View() == old(View()).(waiting := old(Vals(waiting))[..k] + [x.Val()] + old(Vals(waiting))[k..])
    {
      InsertKeepsDistinct(waiting, x, k);
      waiting := waiting[..k] + [x] + waiting[k..];
    }

    /** push_back and sort: the list is in order, so only the new element moves. */
    method PushSorted(x: SpuObject)
      requires Valid() && x !in waiting && x !in fading && Sorted(Vals(waiting))
      modifies this`waiting
      ensures Valid()
      ensures forall y :: y in waiting <==> y in old(waiting) || y == x
      ensures View() == old(View()).(waiting := SortByPts(old(View()).waiting + [x.Val()]))
    {
      var k := PlaceFor(x);
      InsertAt(x, k);
    }

    method Rescue(x: SpuObject, ts: int)
      modifies x
      ensures x.Val() == StreamSpec.Rescue(old(x.Val()), ts)
    {
      var pts := DvbToNs(x.pts);
      var diff := if pts > ts then pts - ts else ts - pts;
      if diff >= 200 * 1000 * 1000 * 1000 && !x.isExt {
        x.pts := NsToDvb(ts + 1000 * 1000 * 1000);
        x.delay := x.pts + DEFAULT_DELAY;
      }
    }

    /** Repeated `pop_front`. */
    method RetireFront(n: nat, reason: Reason)
      requires n <= |waiting|
      modifies this`waiting, this`retired
      ensures waiting == old(waiting)[n..]
      ensures View() == old(View()).(waiting := old(View()).waiting[n..],
                                     retired := old(retired) + Retire(old(View()).waiting[..n], reason))
    {
      ValsDrop(waiting, n);
      retired := retired + Retire(Vals(waiting)[..n], reason);
      waiting := waiting[n..];
    }

    method Evict(x: SpuObject)
      requires Valid()
      modifies this
      ensures Valid() && fading == old(fading)
      ensures exists k: nat :: k <= |old(waiting)| && waiting == old(waiting)[k..]
      ensures View() == StreamSpec.Evict(old(View()), x.Val())
    {
      var memory := TotalQueuedMemory();
      if |x.Val().Bytes()| + memory >= MAX_ALLOWED_QUEUED_MEM {
        RetireFront(|waiting| / 2, Evicted);
      } else {
        assert waiting == waiting[0..];
      }
    }

    method Arrive(x: SpuObject, ts: int)
      requires Valid() && x !in waiting && x !in fading && Sorted(Vals(waiting))
      modifies this, x
      ensures Valid() && fading == old(fading)
      ensures forall y :: y in waiting ==> y in old(waiting) || y == x
      ensures View() == StreamSpec.Arrive(old(View()), old(x.Val()), ts)
    {
      Rescue(x, ts);
      assert View() == old(View());
      ghost var arrived := x.Val();
      if x.kind == ClosedCaption || ts != 0 || x.pts == 0 {
        PushSorted(x);
      } else {
        retired := retired + Retire([arrived], NotQueued);
      }
      assert View() == Enqueue(old(View()), arrived, ts);
      assert x.Val() == arrived;
      Evict(x);
    }

    method TotalQueuedMemory() returns (size: nat)
      ensures size == QueuedMemory(Vals(waiting))
    {
      size := 0;
      ghost var v := Vals(waiting);
      for i := 0 to |waiting|
        invariant size + QueuedMemory(v[i..]) == QueuedMemory(v)
      {
        assert v[i..][1..] == v[i+1..];
        size := size + |waiting[i].Val().Bytes()|;
      }
    }

    /** Pops out-of-date external SPUs; `front` is the SPU the handler goes on with. */
    method DropStale(ts: int) returns (front: SpuObject?)
      requires Valid() && waiting != []
      modifies this
      ensures Valid() && fading == old(fading)
      ensures exists k: nat :: k <= |old(waiting)| && waiting == old(waiting)[k..]
      ensures View() == StreamSpec.DropStale(old(View()), ts)
      ensures front == if waiting == [] then null else waiting[0]
    {
      front := waiting[0];
      ghost var k: nat := 0;
      ghost var goal := StreamSpec.DropStale(View(), ts);
      while front != null && IsStale(front.Val(), ts)
        invariant fading == old(fading)
        invariant k <= |old(waiting)| && waiting == old(waiting)[k..]
        invariant front == if waiting == [] then null else waiting[0]
        invariant waiting == [] ==> View() == goal
        invariant waiting != [] ==> StreamSpec.DropStale(View(), ts) == goal
        decreases |waiting|
      {
        RetireFront(1, Stale);
        k := k + 1;
        if waiting == [] {
          front := null;
          calls := calls + [Wake(100 * NS_PER_MS)];
        } else {
          front := waiting[0];
        }
      }
    }

    /** The scan of `remove_if`: the objects that stay, in order. */
    method Near(ts: int) returns (kept: seq<SpuObject>)
      requires Valid()
      ensures IsNear(kept, waiting, ts)
    {
      kept := [];
      assert waiting[..0] == [];
      for i := 0 to |waiting|
        invariant IsNear(kept, waiting[..i], ts)
      {
        var x := waiting[i];
        NearNext(kept, waiting, i, ts);
        if !TooFarAhead(x.Val(), ts) {
          kept := kept + [x];
        }
      }
      assert waiting[..|waiting|] == waiting;
    }

    /** `remove_if` over the list. */
    method RemoveTooFarAhead(ts: int)
      requires Valid()
      modifies this`waiting, this`retired
      ensures Valid()
      ensures IsNear(waiting, old(waiting), ts)
      ensures View() == Purge(old(View()), ts)
    {
      var kept := Near(ts);
      retired := retired + Retire(Purged(Vals(waiting), ts), PurgedAhead);
      waiting := kept;
    }

    /** Rewrites the times of the front SPU in place before the clock is compared with it. */
    method PrepareFront(x: SpuObject, ts: int)
      modifies x
      ensures x.Val() == Prepare(old(x.Val()), ts)
    {
      if DvbToMs(x.pts) <= 0 && !x.isImmediate {
        x.pts := NsToDvb(ts);
        x.delay := x.pts + DEFAULT_DELAY;
      }
      assert x.Val() == Anchor(old(x.Val()), ts);
      var synced := x.CompareBitAndSyncPts(NsToDvb(ts));
      assert x.Val() == BitSync(Anchor(old(x.Val()), ts), ts);
      if x.delay <= 0 {
        x.delay := x.pts + NO_PTS_DELAY;
      }
    }

    /** `pop_front`, and the next SPU joins `x` when both start together. */
    method PopAndCombine(x: SpuObject)
      requires Valid() && waiting != [] && x !in fading && x !in waiting[1..]
      modifies this`waiting, this`retired, x
      ensures Valid() && x !in waiting
      ensures (View(), x.Val()) == StreamSpec.PopAndCombine(old(View()), old(x.Val()))
      ensures exists k: nat :: k <= |old(waiting)| && waiting == old(waiting)[k..]
    {
      ValsDrop(waiting, 1);
      ghost var v, out := Vals(waiting), Vals(fading);
      waiting := waiting[1..];
      if |waiting| > 0 {
        ValsDrop(waiting, 1);
        ghost var tail := Vals(waiting);
        var second := waiting[0];
        assert second in waiting;
        var combined := x.CombineSamePts(second);
        assert Vals(waiting) == tail && Vals(fading) == out;
        if combined {
          RetireFront(1, Merged);
          assert waiting == old(waiting)[2..];
        }
      }
    }

    method FixEnd(x: SpuObject, now: int)
      modifies x
      ensures x.Val() == StreamSpec.FixEnd(old(x.Val()), now)
    {
      if x.isImmediate && (x.delay == 0 || x.delay == x.pts) {
        x.pts := now;
        x.delay := x.pts + NO_PTS_DELAY;
      } else if x.delay == 0 || x.delay < x.pts || x.delay - x.pts < ONE_SECOND {
        x.delay := x.pts + SMALL_PTS_DELAY;
      }
    }

    /** `x` replaces the SPU in the fading slot. */
    method EnterSlot(x: SpuObject)
      requires Valid() && x !in waiting && x !in fading
      modifies this`fading, this`calls, this`retired
      ensures Valid()
      ensures View() == StreamSpec.EnterSlot(old(View()), x.Val())
      ensures forall y :: y in fading ==> y in old(fading) || y == x
    {
      ghost var v := Vals(fading);
      if fading != [] {
        calls := calls + [Remove(fading[0].id)];
        retired := retired + Retire(v[..1], Replaced);
        fading := fading[1..];
        assert Vals(fading) == v[1..];
      }
      ghost var rest := Vals(fading);
      fading := fading + [x];
      assert Vals(fading) == rest + [x.Val()];
      assert old(fading) == [] ==> rest + [x.Val()] == [x.Val()];
    }

    /** Shows `x` and moves it to the fading slot. */
    method Present(x: SpuObject, now: int)
      requires Valid() && waiting != [] && x !in fading && x !in waiting[1..]
      modifies this, x
      ensures Valid()
      ensures View() == StreamSpec.Present(old(View()), old(x.Val()), now)
      ensures forall y :: y in waiting ==> y in old(waiting)
      ensures forall y :: y in fading ==> y in old(fading) || y == x
    {
      PopAndCombine(x);
      RequestDisplay(x);
      ghost var s2 := View();
      FixEnd(x, now);
      assert View() == s2;
      EnterSlot(x);
    }

    method RequestDisplay(x: SpuObject)
      modifies this`calls
      ensures calls == old(calls) + DisplayCalls(x.Val(), Vals(waiting))
    {
      if x.data.Some? {
        calls := calls + [Show(x.Val())];
      } else if x.kind == Pgs {
        var found := false;
        var k := 0;
        while k < |waiting| && waiting[k].objectId != x.objectId
          invariant 0 <= k <= |waiting|
          invariant forall j :: 0 <= j < k ==> waiting[j].objectId != x.objectId
        {
          k := k + 1;
        }
        if k < |waiting| {
          assert IsNextForObject(Vals(waiting), x.Val(), k);
          found := waiting[k].pts == x.pts;
        }
        assert found == NextObjectHasPts(Vals(waiting), x.Val());
        if !found {
          calls := calls + [HideObject(x.objectId)];
        } else {
          assert calls + [] == calls;
        }
      } else {
        calls := calls + [Hide(x.id)];
      }
    }

    /** Acts on the verdict about the front SPU. */
    method Decide(x: SpuObject, now: int, v: Verdict)
      requires Valid() && waiting != [] && x !in fading && x !in waiting[1..]
      modifies this, x
      ensures Valid()
      ensures View() == StreamSpec.Decide(old(View()), old(x.Val()), now, v)
      ensures forall y :: y in waiting || y in fading ==> y in old(waiting) || y in old(fading) || y == x
    {
      if v == ShowIt {
        Present(x, now);
      } else if v == DiscardIt {
        retired := retired + Retire(Vals(fading), Discarded);
        fading := [];
        calls := calls + [ResetScreen];
      } else {
        calls := calls + [Wake(v.delayNs)];
      }
    }

    /** The front SPU, purged or not, is prepared in place; so the list sees it only when it is
        still in it. */
    method PrepareInList(front: SpuObject, ts: int)
      requires Valid() && waiting != [] && front !in fading
      requires front !in waiting[1..]
      modifies front
      ensures Valid() && front.Val() == Prepare(old(front.Val()), ts)
      ensures View() == WithFront(old(View()), front.Val(), front !in waiting)
    {
      ghost var tail := Vals(waiting[1..]);
      ghost var all := Vals(waiting);
      ghost var out := Vals(fading);
      assert tail == all[1..];
      PrepareFront(front, ts);
      assert Vals(fading) == out;
      assert Vals(waiting[1..]) == tail;
      if front in waiting {
        assert waiting[0] == front;
        assert Vals(waiting) == [front.Val()] + tail;
      } else {
        assert Vals(waiting) == all;
      }
    }

    /** The showing part; returns whether the step ends here. */
    method ShowPhase(ts: int) returns (done: bool)
      requires Valid() && waiting != []
      modifies this, Objects(waiting)
      ensures Valid()
      ensures (View(), done) == StreamSpec.ShowPhase(old(View()), ts)
      ensures forall y :: y in waiting || y in fading ==> y in old(waiting) || y in old(fading)
    {
      var front := DropStale(ts);
      ghost var s1 := View();
      assert front != null ==> front in waiting && front in old(waiting) && s1.waiting[0] == front.Val();
      ghost var w1 := waiting;
      RemoveTooFarAhead(ts);
      if |waiting| == 0 {
        return true;
      }
      assert front !in waiting[1..] && TooFarAhead(front.Val(), ts) == (front !in waiting);
      PrepareInList(front, ts);
      var verdict := Judge(front.Val(), ts);
      Decide(front, NsToDvb(ts), verdict);
      return false;
    }

    method FadePhase(ts: int)
      requires Valid()
      modifies this
      ensures Valid() && waiting == old(waiting)
      ensures View() == StreamSpec.FadePhase(old(View()), ts)
      ensures forall y :: y in fading ==> y in old(fading)
    {
      if |fading| > 0 && !fading[0].isKeepShowing {
        var x := fading[0];
        ghost var v := Vals(fading);
        assert v[0] == x.Val();
        if FadesNow(x.Val(), ts) {
          retired := retired + Retire(v[..1], FadedOut);
          fading := fading[1..];
          assert Vals(fading) == v[1..];
          calls := calls + [Hide(x.id), FadeWake(x.Val())];
        } else {
          calls := calls + [FadeWake(x.Val())];
        }
      }
    }

    /** Showing and fading, after an arrival was queued. */
    method ShowAndFade(ts: int)
      requires Valid()
      modifies this, Objects(waiting)
      ensures Valid() && View() == Tick(old(View()), None, ts)
    {
      if |waiting| > 0 {
        var done := ShowPhase(ts);
        if done {
          return;
        }
      }
      FadePhase(ts);
    }

    method ArriveAndShow(x: SpuObject, ts: int)
      requires Valid() && x !in waiting && x !in fading && Sorted(Vals(waiting))
      modifies this, Objects(waiting), x
      ensures Valid() && View() == Tick(old(View()), Some(old(x.Val())), ts)
    {
      Arrive(x, ts);
      assert forall y :: y in waiting ==> y in old(waiting) || y == x;
      ShowAndFade(ts);
    }

    /** MSG_PTS_TIME_CHECK_SPU. */
    method CheckSpu(arrival: SpuObject?, ts: int)
      requires Valid() && Inv(View()) && ClockInRange(ts)
      requires arrival != null ==> arrival !in waiting && arrival !in fading && ArrivalInRange(arrival.Val())
      modifies this, Objects(waiting), arrival
      ensures Valid() && Inv(View())
      ensures View() == Tick(old(View()), if arrival == null then None else Some(old(arrival.Val())), ts)
    {
      ghost var incoming := if arrival == null then None else Some(arrival.Val());
      TickKeepsInv(View(), incoming, ts);
      if arrival == null {
        ShowAndFade(ts);
      } else {
        ArriveAndShow(arrival, ts);
      }
    }

    /** MSG_RESET_MESSAGE_QUEUE. */
    method ResetQueue()
      requires Valid()
      modifies this
      ensures Valid() && View() == Reset(old(View()))
    {
      retired := retired + Retire(Vals(waiting), StreamSpec.ResetQueue) + Retire(Vals(fading), StreamSpec.ResetQueue);
      waiting := [];
      fading := [];
      calls := calls + [ResetScreen];
    }
  }

}
