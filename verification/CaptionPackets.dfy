/** The packets that leave the user-data driver over whole runs: which pts each one carries, and
    that every payload taken in is in exactly one of them or still pending. */
module CaptionPackets {
  import opened Bytes
  import opened Wrappers
  import opened CaptionSpec
  import opened CaptionProps

  /** A packet fits its buffer and is read back as the pts, modulo 2^32, and the payload. */
  lemma PacketReadsBack(pts: int, payload: CcBytes)
    ensures var p := Packet(pts, payload);
            4 <= |p| <= MAX_CC_DATA_LEN && PeekWord(p) == pts % TWO_32 && p[4..] == payload
  {
    WordRoundTrip(pts, payload);
  }

  // ---- The pts of each packet ----

  /** When the frame after those sent starts: the end of the last one sent. */
  function NextPts(start: Ud, log: seq<Event>): int {
    if log == [] then start.currPts + start.currDuration
    else
      match log[|log|-1]
      case Sent(entry, pts, _, _) => pts + entry.duration
      case FlushDone => NextPts(start, log[..|log|-1])
  }

  /** The pts that a payload goes out under after these events: its own, or, without one, the
      end of the payload sent before it. */
  function Stamp(start: Ud, before: seq<Event>, e: Entry): int {
    if e.ptsValid then e.pts else NextPts(start, before)
  }

  /** The bytes of each packet are the low word of the stamp and the payload. */
  ghost predicate Stamped(start: Ud, log: seq<Event>) {
    forall k {:trigger log[k]} :: 0 <= k < |log| && log[k].Sent? ==> IsStamped(start, log[..k], log[k])
  }

  predicate IsStamped(start: Ud, before: seq<Event>, e: Event)
    requires e.Sent?
  {
    && e.pts == Stamp(start, before, e.entry)
    && e.packet == Word(e.pts) + e.entry.payload
  }

  ghost predicate InvStamped(start: Ud, s: Ud) {
    Stamped(start, s.log) && s.currPts + s.currDuration == NextPts(start, s.log)
  }

  lemma StampedNext(start: Ud, log: seq<Event>, e: Event)
    requires Stamped(start, log) && (e.Sent? ==> IsStamped(start, log, e))
    ensures Stamped(start, log + [e])
  {
    var r := log + [e];
    forall k {:trigger r[k]} | 0 <= k < |r| && r[k].Sent? ensures IsStamped(start, r[..k], r[k]) {
      assert r[..k] == log[..k];
      if k < |log| {
        assert r[k] == log[k];
      } else {
        assert log[..k] == log;
      }
    }
  }

  lemma WriteStamps(start: Ud, s: Ud, e: Entry, cause: Cause)
    requires InvStamped(start, s)
    ensures InvStamped(start, Write(s, e, cause))
  {
    var w := Write(s, e, cause);
    StampedNext(start, s.log, w.log[|s.log|]);
  }

  lemma {:induction false} WriteAllStamps(start: Ud, s: Ud, es: seq<Entry>, cause: Cause)
    requires InvStamped(start, s)
    ensures InvStamped(start, WriteAll(s, es, cause))
  {
    if es != [] {
      WriteAllStamps(start, s, es[..|es|-1], cause);
      WriteStamps(start, WriteAll(s, es[..|es|-1], cause), es[|es|-1], cause);
    }
  }

  lemma FlushStamps(start: Ud, s: Ud)
    requires InvStamped(start, s)
    ensures InvStamped(start, Flush(s))
  {
    WriteAllStamps(start, s, s.list, Flushed);
    var w := WriteAll(s, s.list, Flushed);
    StampedNext(start, w.log, FlushDone);
    assert (w.log + [FlushDone])[..|w.log|] == w.log;
  }

  lemma AddStamps(start: Ud, s: Ud, e: Entry)
    requires InvStamped(start, s) && CanAdd(s)
    ensures InvStamped(start, Add(s, e))
  {
    if s.ccNum >= MAX_CC_NUM {
      WriteStamps(start, s, s.list[0], Evicted);
    }
    FlushStamps(start, MakeRoom(s));
  }

  lemma {:induction false} ReleaseStamps(start: Ud, s: Ud, k: nat, clock: nat -> int, n: nat)
    requires InvStamped(start, s) && k <= |s.list|
    ensures InvStamped(start, Release(s, k, clock, n))
    decreases |s.list|, |s.list| - k
  {
    if k < |s.list| {
      if clock(n) > s.list[k].pts {
        WriteStamps(start, s, s.list[k], Released);
        ReleaseStamps(start, Unlink(s, k), 0, clock, n + 1);
      } else {
        ReleaseStamps(start, s, k + 1, clock, n + 1);
      }
    }
  }

  lemma {:induction false} DrainStamps(start: Ud, s: Ud)
    requires InvStamped(start, s)
    ensures InvStamped(start, Drain(s))
    decreases |s.list|
  {
    if s.list != [] && s.list[0].poc == s.currPoc + 1 {
      WriteStamps(start, s, s.list[0], Drained);
      DrainStamps(start, DrainOne(s));
    }
  }

  lemma StepStamps(start: Ud, s: Ud, op: Op)
    requires InvStamped(start, s) && Step(s, op).Some?
    ensures InvStamped(start, Step(s, op).value)
  {
    FlushStamps(start, s);
    match op {
      case H264Frame(e, clock) =>
        var s1 := if e.poc == 0 then Flush(s) else s;
        AddStamps(start, s1, e);
        ReleaseStamps(start, Add(s1, e), 0, clock, 0);
      case MpegFrame(e, isIFrame) =>
        if IsCaption(e.payload) {
          var s1 := if isIFrame then Flush(s) else s;
          if e.poc == s1.currPoc + 1 || e.poc == s1.currPoc {
            WriteStamps(start, s1, e, Direct);
            DrainStamps(start, Write(s1, e, Direct).(currPoc := e.poc));
          } else {
            AddStamps(start, s1, e);
          }
        }
      case ScteFrame(e, isIFrame) =>
        if e.Some? {
          AddStamps(start, if isIFrame then Flush(s) else s, e.value);
        }
    }
  }

  /** Over every run on any mix of paths, each payload is sent under its own pts; one without a
      pts is sent where the payload sent before it ends. */
  lemma {:induction false} RunStamps(start: Ud, ops: seq<Op>)
    requires start == Opened(start.currPts, start.currDuration)
    requires Run(start, ops).Some?
    ensures InvStamped(start, Run(start, ops).value)
  {
    if ops != [] {
      RunStamps(start, ops[..|ops|-1]);
      StepStamps(start, Run(start, ops[..|ops|-1]).value, ops[|ops|-1]);
    }
  }

  // ---- The payload of each packet ----

  /** The packets sent, in order. */
  function Packets(log: seq<Event>): seq<seq<byte>> {
    if log == [] then []
    else
      var e := log[|log|-1];
      Packets(log[..|log|-1]) + (if e.Sent? then [e.packet] else [])
  }

  function Carries(payload: seq<byte>): Entry -> bool {
    (e: Entry) => e.payload == payload
  }

  /** How many packets have these bytes behind the pts. */
  function PacketsWith(packets: seq<seq<byte>>, payload: seq<byte>): nat {
    if packets == [] then 0
    else
      var p := packets[|packets|-1];
      PacketsWith(packets[..|packets|-1], payload) + One(|p| >= 4 && p[4..] == payload)
  }

  lemma PacketsWithNext(packets: seq<seq<byte>>, p: seq<byte>, payload: seq<byte>)
    ensures PacketsWith(packets + [p], payload) == PacketsWith(packets, payload) + One(|p| >= 4 && p[4..] == payload)
  {
    assert (packets + [p])[..|packets|] == packets;
  }

  lemma StampedBefore(start: Ud, log: seq<Event>)
    requires Stamped(start, log) && log != []
    ensures Stamped(start, log[..|log|-1])
    ensures log[|log|-1].Sent? ==> IsStamped(start, log[..|log|-1], log[|log|-1])
  {
    var front := log[..|log|-1];
    forall k {:trigger front[k]} | 0 <= k < |front| && front[k].Sent? ensures IsStamped(start, front[..k], front[k]) {
      assert front[..k] == log[..k] && front[k] == log[k];
    }
  }

  lemma {:induction false} PacketsCarryWhatWasSent(start: Ud, log: seq<Event>, payload: seq<byte>)
    requires Stamped(start, log)
    ensures PacketsWith(Packets(log), payload) == SentCount(log, Carries(payload))
  {
    if log != [] {
      var e, sent := log[|log|-1], Packets(log[..|log|-1]);
      StampedBefore(start, log);
      PacketsCarryWhatWasSent(start, log[..|log|-1], payload);
      assert !e.Sent? ==> Packets(log) == sent;
      if e.Sent? {
        PacketReadsBack(e.pts, e.entry.payload);
        PacketsWithNext(sent, e.packet, payload);
      }
    }
  }

  /** Over every run on any mix of paths, for all payload bytes: the frames taken in with these
      bytes are as many as the packets with them and the pending ones. */
  lemma RunDelivers(start: Ud, ops: seq<Op>, payload: seq<byte>)
    requires start == Opened(start.currPts, start.currDuration)
    requires Run(start, ops).Some?
    ensures var r := Run(start, ops).value;
            PacketsWith(Packets(r.log), payload) + Pending(r.list, Carries(payload))
            == TakenCount(ops, Carries(payload))
  {
    RunStamps(start, ops);
    RunConserves(start, ops, Carries(payload));
    PacketsCarryWhatWasSent(start, Run(start, ops).value.log, payload);
  }

}
