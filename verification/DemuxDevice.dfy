/** The sections of the demux driver that run under the device lock, on the device's filter
    array in place.  Each is one label of DemuxProtocol; drivers are result parameters. */
module DemuxDevice {
  import opened DemuxProtocol

  const AM_SUCCESS: int := 0
  const NOT_ALLOCATED: int := -1
  const NO_FREE_FILTER: int := -2
  const AM_FAILURE: int := -3

  class Device {
    const filters: array<Filter>
    var runCb: bool

    ghost predicate Valid()
      reads this
    {
      filters.Length == FILTER_COUNT
    }

    /** The device as the protocol sees it; the data thread and the waiting threads are not
        part of the object. */
    ghost function View(pc: Pc, syncing: set<nat>): Dev
      reads this, filters
    {
      Dev(filters[..], runCb, pc, syncing)
    }

    constructor ()
      ensures Valid() && fresh(filters) && View(Polling, {}) == OPENED
    {
      filters := new Filter[FILTER_COUNT](_ => Filter(false, false, false));
      runCb := false;
    }

    /** The first filter that is not in use, or FILTER_COUNT. */
    method FindFree() returns (k: nat)
      requires Valid()
      ensures k == FirstFree(filters[..])
    {
      k := 0;
      assert filters[..][0..] == filters[..];
      while k < FILTER_COUNT && filters[k].used
        invariant k <= FILTER_COUNT
        invariant FirstFree(filters[..]) == k + FirstFree(filters[..][k..])
      {
        assert filters[..][k..][1..] == filters[..][k+1..];
        k := k + 1;
      }
    }

    method AllocateFilter(t: nat, drv: int, ghost pc: Pc, ghost syncing: set<nat>) returns (ret: int, fhandle: int)
      requires Valid() && Enabled(View(pc, syncing), Allocate(t, drv))
      modifies filters
      ensures View(pc, syncing) == Apply(old(View(pc, syncing)), Allocate(t, drv))
      ensures ret == AM_SUCCESS ==> 0 <= fhandle < FILTER_COUNT && !old(filters[fhandle].used) && filters[fhandle].used
    {
      fhandle := -1;
      var k := FindFree();
      if k >= FILTER_COUNT {
        return NO_FREE_FILTER, -1;
      }
      if drv != 0 {
        return drv, -1;
      }
      filters[k] := filters[k].(used := true);
      return AM_SUCCESS, k;
    }

    method StopLocked(f: nat, drv: int) returns (ret: int)
      requires Valid() && f < FILTER_COUNT
      modifies filters
      ensures filters[..] == old(filters[..])[f := Disabled(old(filters[f]), drv)]
      ensures ret == AM_SUCCESS <==> DisableOk(old(filters[f]), drv)
    {
      if !filters[f].used || !filters[f].enable {
        assert filters[..] == filters[..][f := filters[f]];
        return AM_SUCCESS;
      }
      if drv >= 0 {
        filters[f] := filters[f].(enable := false);
      } else {
        assert filters[..] == filters[..][f := filters[f]];
      }
      return drv;
    }

    method StartFilter(t: nat, f: int, drv: int, pollExit: int, ghost pc: Pc, ghost syncing: set<nat>)
      returns (ret: int)
      requires Valid() && Enabled(View(pc, syncing), Start(t, f, drv))
      modifies filters
      ensures View(pc, syncing) == Apply(old(View(pc, syncing)), Start(t, f, drv))
      ensures ret == AM_SUCCESS ==> filters[f].enable
    {
      ret := AM_SUCCESS;
      if !filters[f].enable {
        ret := drv;
        if ret == AM_SUCCESS {
          filters[f] := filters[f].(enable := true);
          ret := pollExit;
        }
      }
    }

    method StopFilter(t: nat, f: int, drv: int, ghost pc: Pc, ghost syncing: set<nat>) returns (ret: int)
      requires Valid() && Enabled(View(pc, syncing), Stop(t, f, drv))
      modifies filters
      ensures View(pc, syncing) == Apply(old(View(pc, syncing)), Stop(t, f, drv))
      ensures ret == AM_SUCCESS <==> 0 <= f && Stops(old(View(pc, syncing)), Stop(t, f, drv), f)
    {
      if f < 0 || f >= FILTER_COUNT || !filters[f].used {
        return NOT_ALLOCATED;
      }
      if !filters[f].enable {
        assert filters[..] == filters[..][f := filters[f]];
        return AM_SUCCESS;
      }
      ret := StopLocked(f, drv);
    }

    method FreeFilter(t: nat, f: int, drvStop: int, drvFree: int, ghost pc: Pc, ghost syncing: set<nat>)
      returns (ret: int)
      requires Valid() && Enabled(View(pc, syncing), Free(t, f, drvStop, drvFree))
      modifies filters
      ensures View(pc, syncing) == Apply(old(View(pc, syncing)), Free(t, f, drvStop, drvFree))
      ensures ret == AM_SUCCESS <==> 0 <= f && Stops(old(View(pc, syncing)), Free(t, f, drvStop, drvFree), f)
    {
      if f < 0 || f >= FILTER_COUNT || !filters[f].used {
        return NOT_ALLOCATED;
      }
      ret := StopLocked(f, drvStop);
      if ret == AM_SUCCESS {
        ret := drvFree;
      }
      if ret == AM_SUCCESS {
        filters[f] := filters[f].(used := false);
      }
    }

    /** What the data thread does under the lock for one filter; true means that the callback
        was fetched and is called next. */
    method TakeCallback(id: nat, read: ReadResult, ghost mask: set<nat>, ghost syncing: set<nat>) returns (call: bool)
      requires Valid() && id < FILTER_COUNT
      ensures View(if call then HaveCb(id, mask) else Scan(id + 1, mask), syncing)
              == Apply(View(WantLock(id, mask), syncing), Take(read))
    {
      if !filters[id].enable || !filters[id].used {
        return false;
      }
      if read == Failed {
        return false;
      }
      return filters[id].hasCb;
    }
  }

}
