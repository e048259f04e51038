/** External subtitles: all cues are known in advance, and the cues on the screen are found by
    a scan of the ordered list that stops early. */
module ExternalCues {
  import opened Clock
  import opened SpuList

  const MIN_CUE: int := 500 * DVB_TIME_MULTI
  const NO_END_DELAY: int := 4 * 1000 * DVB_TIME_MULTI

  /** The end time a cue gets when it is queued: every cue lasts more than half a second, and
      an end that already does is kept. */
  function FixSpuDelay(pts: int, delay: int): (end: int)
    ensures end > pts + MIN_CUE
    ensures delay > 0 && delay > pts + MIN_CUE ==> end == delay
  {
    if delay <= 0 || delay <= pts + MIN_CUE then pts + NO_END_DELAY else delay
  }

  predicate Active(x: Spu, ts: int) {
    DvbToNs(x.pts) <= ts <= DvbToNs(x.delay)
  }

  /** The reference: all cues of the list that are active. */
  function ActiveCues(list: seq<Spu>, ts: int): (r: seq<Spu>)
    ensures forall x :: x in r <==> x in list && Active(x, ts)
  {
    if list == [] then []
    else (if Active(list[0], ts) then [list[0]] else []) + ActiveCues(list[1..], ts)
  }

  /** Where the scan stops: after the first cue that ends later than the clock. */
  function ScanEnd(list: seq<Spu>, ts: int): (k: nat)
    ensures k <= |list|
    ensures forall i :: 0 <= i < k - 1 ==> DvbToNs(list[i].delay) <= ts
    ensures k < |list| ==> k > 0 && DvbToNs(list[k-1].delay) > ts
  {
    if list == [] then 0
    else if DvbToNs(list[0].delay) > ts then 1
    else 1 + ScanEnd(list[1..], ts)
  }

  /** The scan with its early exit: it returns the active cues up to where it stops. */
  method ComputeShowing(list: seq<Spu>, ts: int) returns (showing: seq<Spu>)
    ensures showing == ActiveCues(list[..ScanEnd(list, ts)], ts)
    ensures forall x :: x in showing ==> x in list && Active(x, ts)
  {
    showing := [];
    var i := 0;
    ghost var k := ScanEnd(list, ts);
    assert list[..0] == [] && list[0..] == list;
    while i < |list|
      invariant 0 <= i <= k
      invariant i < |list| ==> ScanEnd(list[i..], ts) == k - i
      invariant showing == ActiveCues(list[..i], ts)
      invariant i == |list| ==> k == |list|
    {
      var pts := DvbToNs(list[i].pts);
      var ptsEnd := DvbToNs(list[i].delay);
      ScanStep(list, i, ts);
      if ts >= pts && ts <= ptsEnd {
        showing := showing + [list[i]];
      }
      i := i + 1;
      if ptsEnd > ts {
        break;
      }
    }
  }

  lemma ScanStep(list: seq<Spu>, i: nat, ts: int)
    requires i < |list|
    ensures ActiveCues(list[..i+1], ts) == ActiveCues(list[..i], ts) + (if Active(list[i], ts) then [list[i]] else [])
    ensures ScanEnd(list[i..], ts) == if DvbToNs(list[i].delay) > ts then 1 else 1 + ScanEnd(list[i+1..], ts)
  {
    ActiveAppend(list[..i], list[i], ts);
    assert list[..i+1] == list[..i] + [list[i]];
    assert list[i..][1..] == list[i+1..];
  }

  lemma {:induction false} ActiveAppend(a: seq<Spu>, x: Spu, ts: int)
    ensures ActiveCues(a + [x], ts) == ActiveCues(a, ts) + (if Active(x, ts) then [x] else [])
  {
    if a == [] {
      assert a + [x] == [x] && [x][1..] == [];
    } else {
      assert (a + [x])[1..] == a[1..] + [x];
      ActiveAppend(a[1..], x, ts);
    }
  }

  /** What the early-exit scan returns, as a function of the list. */
  function Showing(list: seq<Spu>, ts: int): seq<Spu> {
    ActiveCues(list[..ScanEnd(list, ts)], ts)
  }

  lemma {:induction false} ActiveSplit(a: seq<Spu>, b: seq<Spu>, ts: int)
    ensures ActiveCues(a + b, ts) == ActiveCues(a, ts) + ActiveCues(b, ts)
  {
    if a == [] {
      assert a + b == b;
    } else {
      assert (a + b)[1..] == a[1..] + b;
      ActiveSplit(a[1..], b, ts);
    }
  }

  /** No cue starts before an earlier one ends, on the clock's own scale. */
  ghost predicate NonOverlapping(list: seq<Spu>) {
    forall i, j :: 0 <= i < j < |list| ==> DvbToNs(list[i].delay) <= DvbToNs(list[j].pts)
  }

  /** The scan gives the active cues at every time. */
  ghost predicate ScanIsExact(list: seq<Spu>) {
    forall ts :: Showing(list, ts) == ActiveCues(list, ts)
  }

  lemma {:induction false} NoneActive(list: seq<Spu>, ts: int)
    requires forall i :: 0 <= i < |list| ==> DvbToNs(list[i].pts) > ts
    ensures ActiveCues(list, ts) == []
  {
    if list != [] {
      NoneActive(list[1..], ts);
    }
  }

  lemma NonOverlappingIsExact(list: seq<Spu>, ts: int)
    requires NonOverlapping(list)
    ensures Showing(list, ts) == ActiveCues(list, ts)
  {
    var k := ScanEnd(list, ts);
    assert list == list[..k] + list[k..];
    ActiveSplit(list[..k], list[k..], ts);
    NoneActive(list[k..], ts);
  }

  /** Without overlap each cue is on the screen from its start to its end, both included, and at no
      other time. */
  lemma CueIsShown(list: seq<Spu>, i: nat, ts: int)
    requires NonOverlapping(list) && i < |list|
    ensures list[i] in Showing(list, ts) <==> DvbToNs(list[i].pts) <= ts && ts <= DvbToNs(list[i].delay)
  {
    NonOverlappingIsExact(list, ts);
    assert list[i] in list;
  }

  /** For cues that last a while, the early exit is right at every time exactly when no two
      cues overlap. */
  lemma ScanIsExactIff(list: seq<Spu>)
    requires forall x :: x in list ==> x.pts <= x.delay
    ensures ScanIsExact(list) <==> NonOverlapping(list)
  {
    if NonOverlapping(list) {
      forall ts ensures Showing(list, ts) == ActiveCues(list, ts) {
        NonOverlappingIsExact(list, ts);
      }
    } else {
      var i, j :| 0 <= i < j < |list| && DvbToNs(list[i].delay) > DvbToNs(list[j].pts);
      OverlapIsMissed(list, i, j);
    }
  }

  /** A cue that starts while an earlier one lasts is not found at its own start. */
  lemma OverlapIsMissed(list: seq<Spu>, i: nat, j: nat)
    requires i < j < |list| && DvbToNs(list[i].delay) > DvbToNs(list[j].pts)
    requires list[j].pts <= list[j].delay
    ensures Showing(list, DvbToNs(list[j].pts)) != ActiveCues(list, DvbToNs(list[j].pts))
  {
    var ts := DvbToNs(list[j].pts);
    DvbToNsMonotone(list[j].pts, list[j].delay);
    var k := ScanEnd(list, ts);
    assert k <= i + 1;
    assert list == list[..k] + list[k..];
    ActiveSplit(list[..k], list[k..], ts);
    assert list[j] in list[k..] by {
      assert list[k..][j-k] == list[j];
    }
    assert list[j] in ActiveCues(list[k..], ts);
  }

  /** Cues whose tick times do not overlap keep that property in nanoseconds. */
  lemma TicksSuffice(list: seq<Spu>)
    requires forall i, j :: 0 <= i < j < |list| ==> list[i].delay <= list[j].pts
    ensures NonOverlapping(list)
  {
    forall i, j | 0 <= i < j < |list| ensures DvbToNs(list[i].delay) <= DvbToNs(list[j].pts) {
      DvbToNsMonotone(list[i].delay, list[j].pts);
    }
  }

}
