/** The closed-caption reorder list of the user-data driver, as functions on values. */
module CaptionSpec {
  import opened Bytes
  import opened Wrappers

  const MAX_CC_NUM: int := 64
  const POC_RESET_GAP: int := 30
  const MAX_CC_DATA_LEN: int := 1024 * 5 + 4

  /** The caption bytes of one frame, as many as the packet buffer holds behind the pts. */
  type CcBytes = p: seq<byte> | |p| + 4 <= MAX_CC_DATA_LEN

  /** One caption payload; `id` tells payloads apart that are equal otherwise. */
  datatype Entry = Entry(id: nat, poc: int, pts: int, ptsValid: bool, duration: int, payload: CcBytes)

  /** Why a payload was written. */
  datatype Cause = Direct | Drained | Evicted | Flushed | Released

  /** What happened at the output: a payload went out with a pts, as these bytes, or a flush. */
  datatype Event = Sent(entry: Entry, pts: int, cause: Cause, packet: seq<byte>) | FlushDone

  datatype Ud = Ud(list: seq<Entry>, ccNum: int, currPoc: int, currPts: int, currDuration: int, log: seq<Event>)

  /** The bytes of one caption packet: the lower half of the pts, and the payload behind it. */
  function Packet(pts: int, payload: seq<byte>): seq<byte> {
    Word(pts) + payload
  }

  function Write(s: Ud, e: Entry, cause: Cause): Ud {
    var pts := if e.ptsValid then e.pts else s.currPts + s.currDuration;
    s.(log := s.log + [Sent(e, pts, cause, Packet(pts, e.payload))], currPts := pts, currDuration := e.duration)
  }

  /** Writes a list of payloads in order. */
  function WriteAll(s: Ud, es: seq<Entry>, cause: Cause): (r: Ud)
    ensures r.list == s.list && r.ccNum == s.ccNum && r.currPoc == s.currPoc
  {
    if es == [] then s else Write(WriteAll(s, es[..|es|-1], cause), es[|es|-1], cause)
  }

  function Flush(s: Ud): Ud {
    var w := WriteAll(s, s.list, Flushed);
    w.(list := [], ccNum := 0, currPoc := -1, log := w.log + [FlushDone])
  }

  /** The place of `e`: before the first entry that is later in pts, or in poc at the same pts. */
  predicate ComesBefore(e: Entry, h: Entry) {
    if h.pts == e.pts then h.poc > e.poc else h.pts > e.pts
  }

  function Insert(list: seq<Entry>, e: Entry): seq<Entry> {
    if list == [] || ComesBefore(e, list[0]) then [e] + list
    else [list[0]] + Insert(list[1..], e)
  }

  /** Where the walk over the list stops is where the entry goes. */
  lemma {:induction false} InsertPlace(list: seq<Entry>, e: Entry, k: nat)
    requires k <= |list|
    requires forall i :: 0 <= i < k ==> !ComesBefore(e, list[i])
    requires k < |list| ==> ComesBefore(e, list[k])
    ensures Insert(list, e) == list[..k] + [e] + list[k..]
  {
    if k > 0 {
      InsertPlace(list[1..], e, k - 1);
      assert list[..k] == [list[0]] + list[1..][..k-1];
      assert list[1..][k-1..] == list[k..];
    }
  }

  function EvictHead(s: Ud): Ud
    requires s.list != []
  {
    Write(s, s.list[0], Evicted).(list := s.list[1..], ccNum := s.ccNum - 1)
  }

  /** Adding is undefined, a null dereference, when the count says full and the list is empty. */
  predicate CanAdd(s: Ud) {
    s.ccNum >= MAX_CC_NUM ==> s.list != []
  }

  function MakeRoom(s: Ud): Ud
    requires CanAdd(s)
  {
    if s.ccNum >= MAX_CC_NUM then EvictHead(s) else s
  }

  function FlushOnReset(s: Ud, poc: int): Ud {
    if s.list != [] && poc < s.list[0].poc - POC_RESET_GAP then Flush(s) else s
  }

  function Add(s: Ud, e: Entry): Ud
    requires CanAdd(s)
  {
    var s2 := FlushOnReset(MakeRoom(s), e.poc);
    s2.(list := Insert(s2.list, e), ccNum := s2.ccNum + 1)
  }

  /** Unlinks the entry at `k`, after it was written. */
  function Unlink(s: Ud, k: nat): Ud
    requires k < |s.list|
  {
    var e := s.list[k];
    Write(s, e, Released).(list := s.list[..k] + s.list[k+1..], ccNum := s.ccNum - 1, currPoc := e.poc)
  }

  /** The release loop: entries earlier than the video clock are written and the scan starts
      again.  `clock(n)` is the n-th clock reading, `k` the scan position. */
  function Release(s: Ud, k: nat, clock: nat -> int, n: nat): Ud
    requires k <= |s.list|
    decreases |s.list|, |s.list| - k
  {
    if k == |s.list| then s
    else if clock(n) > s.list[k].pts then Release(Unlink(s, k), 0, clock, n + 1)
    else Release(s, k + 1, clock, n + 1)
  }

  /** The H.264/AVS path: a frame with poc 0 flushes, the payload is added, then the clock
      releases. */
  function H264(s: Ud, e: Entry, clock: nat -> int): Option<Ud> {
    var s1 := if e.poc == 0 then Flush(s) else s;
    if CanAdd(s1) then Some(Release(Add(s1, e), 0, clock, 0)) else None
  }

  function DrainOne(s: Ud): Ud
    requires s.list != []
  {
    Write(s, s.list[0], Drained).(list := s.list[1..], currPoc := s.currPoc + 1)
  }

  /** Writes the entries that continue the temporal references; the count is left alone. */
  function Drain(s: Ud): Ud
    decreases |s.list|
  {
    if s.list != [] && s.list[0].poc == s.currPoc + 1 then Drain(DrainOne(s)) else s
  }

  predicate IsCaption(payload: seq<byte>) {
    |payload| >= 5 && payload[4] == 3
  }

  /** The MPEG path. */
  function Mpeg(s: Ud, e: Entry, isIFrame: bool): Option<Ud> {
    if !IsCaption(e.payload) then Some(s)
    else
      var s1 := if isIFrame then Flush(s) else s;
      if e.poc == s1.currPoc + 1 || e.poc == s1.currPoc then
        Some(Drain(Write(s1, e, Direct).(currPoc := e.poc)))
      else if CanAdd(s1) then Some(Add(s1, e))
      else None
  }

  /** The SCTE-20 path: an I frame flushes, and the converted payload, if any, is added. */
  function Scte(s: Ud, e: Option<Entry>, isIFrame: bool): Option<Ud> {
    var s1 := if isIFrame then Flush(s) else s;
    if e.None? then Some(s1)
    else if CanAdd(s1) then Some(Add(s1, e.value))
    else None
  }

  datatype Op =
    | H264Frame(entry: Entry, clock: nat -> int)
    | MpegFrame(entry: Entry, isIFrame: bool)
    | ScteFrame(converted: Option<Entry>, isIFrame: bool)

  function Step(s: Ud, op: Op): Option<Ud> {
    match op
    case H264Frame(e, clock) => H264(s, e, clock)
    case MpegFrame(e, isIFrame) => Mpeg(s, e, isIFrame)
    case ScteFrame(e, isIFrame) => Scte(s, e, isIFrame)
  }

  /** The state after `aml_open`; the first pts and duration are whatever memory holds. */
  function Opened(currPts: int, currDuration: int): Ud {
    Ud([], 0, -1, currPts, currDuration, [])
  }

  /** A run from opening the device; None once a step is undefined. */
  function Run(start: Ud, ops: seq<Op>): Option<Ud> {
    if ops == [] then Some(start)
    else
      var before := Run(start, ops[..|ops|-1]);
      if before.None? then None else Step(before.value, ops[|ops|-1])
  }

}
