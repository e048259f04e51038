/** The external data source: one thread hears packages and queues their data as buffer items,
    another reads the queued bytes, waiting for more when there are none. */
module ExternalSource {
  import opened Bytes
  import opened Framing
  import opened SubtitleReport
  import opened SourceSpec

  class BufferItem {
    const buffer: seq<byte>
    var ptr: nat
    var remain: nat

    ghost predicate Valid()
      reads this
    {
      ptr + remain == |buffer|
    }

    function Unread(): (u: seq<byte>)
      reads this
    {
      if ptr <= |buffer| then buffer[ptr..] else []
    }

    constructor (buf: seq<byte>)
      ensures Valid() && buffer == buf && ptr == 0
    {
      buffer, ptr, remain := buf, 0, |buf|;
    }

    /** Reads at most `size` bytes, from where the last read stopped. */
    method ReadL(size: nat) returns (out: seq<byte>)
      requires Valid()
      modifies this
      ensures Valid() && old(Unread()) == out + Unread()
      ensures |out| == if size < old(remain) then size else old(remain)
    {
      if size == 0 || remain == 0 {
        return [];
      }
      var needRead := if size > remain then remain else size;
      out := buffer[ptr..ptr + needRead];
      ptr, remain := ptr + needRead, remain - needRead;
    }
  }

  /** The bytes of the items in a list. */
  function Contents(items: seq<BufferItem>): (b: seq<byte>)
  {
    if items == [] then [] else items[0].buffer + Contents(items[1..])
  }

  lemma {:induction false} ContentsAppend(items: seq<BufferItem>, item: BufferItem)
    ensures Contents(items + [item]) == Contents(items) + item.buffer
  {
    if items == [] {
      assert items + [item] == [item] && [item][1..] == [];
      assert Contents([item]) == item.buffer + Contents([]);
    } else {
      assert (items + [item])[1..] == items[1..] + [item];
      ContentsAppend(items[1..], item);
    }
  }

  lemma CounterAdds(x: int, y: int)
    ensures (x % TWO_64 + y) % TWO_64 == (x + y) % TWO_64
    ensures (x % TWO_64 - y) % TWO_64 == (x - y) % TWO_64
  {
  }

  /** A sum of two counts that is small comes through the counters. */
  lemma SmallSum(n: nat, r: nat)
    requires n + r <= MAX_INT
    ensures Signed((n % TWO_64 + r) % TWO_32) == n + r
  {
  }

  class BufferSegment {
    var items: seq<BufferItem>
    /** A counter of 64 bits. */
    var available: nat
    var enabled: bool

    /** Nothing has been read from the queued items, and the counter has their bytes. */
    ghost predicate Valid()
      reads this, items
    {
      && (forall i :: 0 <= i < |items| ==> items[i].Valid() && items[i].ptr == 0 && items[i].buffer != [])
      && (forall i, j :: 0 <= i < j < |items| ==> items[i] != items[j])
      && available < TWO_64
      && (enabled ==> available == |Contents(items)| % TWO_64)
    }

    constructor ()
      ensures Valid() && items == [] && enabled
    {
      items, available, enabled := [], 0, true;
    }

    /** An empty buffer is not queued. */
    method Push(buf: seq<byte>) returns (item: BufferItem?)
      requires Valid()
      modifies this
      ensures Valid() && enabled == old(enabled)
      ensures buf == [] ==> item == null && items == old(items)
      ensures buf != [] ==> item != null && fresh(item) && item.buffer == buf && items == old(items) + [item]
    {
      if |buf| <= 0 {
        return null;
      }
      item := new BufferItem(buf);
      ContentsAppend(items, item);
      CounterAdds(|Contents(items)|, |buf|);
      items := items + [item];
      available := (available + |buf|) % TWO_64;
    }

    /** The end of `pop`, when an item is there. */
    method TakeFront() returns (item: BufferItem)
      requires Valid() && items != []
      modifies this
      ensures Valid() && enabled == old(enabled)
      ensures old(items) == [item] + items
      ensures item.Valid() && item.Unread() == item.buffer && forall i :: 0 <= i < |items| ==> items[i] != item
      ensures old(Contents(items)) == item.Unread() + Contents(items)
    {
      item := items[0];
      assert item.buffer[0..] == item.buffer;
      CounterAdds(|Contents(items)|, |item.buffer|);
      items := items[1..];
      available := (available - |item.buffer|) % TWO_64;
    }

    method NotifyExit()
      requires Valid()
      modifies this
      ensures Valid() && items == old(items) && !enabled
    {
      enabled := false;
      available := 0;
    }
  }

  datatype State = Init | Started | Stopped

  /** What other threads may do between two steps of a read: hand over a package, or stop the
      source. */
  datatype Event = Quiet | Heard(buf: seq<byte>) | StopCalled

  predicate CanHappen(env: seq<Event>) {
    forall i {:trigger env[i]} :: 0 <= i < |env| ==> env[i].Heard? ==> Readable(env[i].buf)
  }

  function HeardFrom(e: Event): seq<Package>
    requires e.Heard? ==> Readable(e.buf)
  {
    if e.Heard? then [Parse(e.buf)] else []
  }

  /** The packages handed over in the first `n` events. */
  function HeardIn(env: seq<Event>, n: nat): seq<Package>
    requires n <= |env| && CanHappen(env)
  {
    if n == 0 then [] else HeardIn(env, n - 1) + HeardFrom(env[n - 1])
  }

  /** What was heard before a call, and the packages of the first events of its schedule. */
  ghost predicate HeardBy(heard: seq<Package>, base: seq<Package>, env: seq<Event>, n: nat) {
    n <= |env| && CanHappen(env) && heard == base + HeardIn(env, n)
  }

  lemma OneMoreEvent(heard: seq<Package>, base: seq<Package>, env: seq<Event>, n: nat)
    requires n < |env| && HeardBy(heard, base, env, n)
    ensures HeardBy(heard + HeardFrom(env[n]), base, env, n + 1)
  {
    ConcatIsAssociative(base, HeardIn(env, n), HeardFrom(env[n]));
  }

  class ExternalDataSource {
    var info: Info
    const segment: BufferSegment
    var current: BufferItem?
    var state: State
    /** All packages heard, with their effects, all bytes queued, all bytes returned by reads, and
        all items made. */
    ghost var story: Story
    ghost var queued: seq<byte>
    ghost var delivered: seq<byte>
    ghost var nodes: set<BufferItem>

    function Rest(): (u: seq<byte>)
      reads this`current, current
    {
      if current == null then [] else current.Unread()
    }

    /** The bytes queued and not read yet. */
    ghost function Unread(): (u: seq<byte>)
      reads this`current, segment, current
    {
      Rest() + Contents(segment.items)
    }

    /** The current item is no longer in the queue, and every byte queued so far was either
        returned by a read, in order, or is still to be read. */
    ghost predicate InOrder()
      reads this`current, this`queued, this`delivered, this`nodes, segment, segment.items, current
    {
      && segment.Valid()
      && (forall i :: 0 <= i < |segment.items| ==> segment.items[i] in nodes && segment.items[i] != current)
      && (current != null ==> current in nodes && current.Valid())
      && queued == delivered + Unread()
    }

    /** The source knows and has queued what the packages heard so far told it to. */
    ghost predicate Informed()
      reads this`info, this`story, this`queued
    {
      TrueStory(story) && info == story.infos[|story.heard|] && queued == story.queues[|story.heard|]
    }

    ghost predicate Valid()
      reads this, segment, segment.items, current
    {
      Informed() && InOrder()
    }

    /** What that is, in terms of the packages. */
    lemma KnowsWhatItHeard()
      requires Valid()
      ensures info == InfoAfter(story.heard)
      ensures queued == delivered + Unread() == QueuedFrom(story.heard)
    {
      StoryEnds(story, |story.heard|);
      assert story.heard[..|story.heard|] == story.heard;
    }

    constructor ()
      ensures Valid() && story == NEW_STORY && delivered == [] && nodes == {} && state == Init
      ensures fresh(segment) && segment.enabled
    {
      segment := new BufferSegment();
      info, current, state := UNKNOWN, null, Init;
      story, queued, delivered, nodes := NEW_STORY, [], [], {};
    }

    /** Reads a package by its type word. */
    method Interpret(buf: seq<byte>) returns (p: Package)
      requires Readable(buf)
      ensures p == Parse(buf)
    {
      var t := PeekAsSocketWord(buf);
      if t == SUBTITLE_RENDER_TIME {
        p := TimePackage(PeekAsSocketWord(buf[8..]) * TWO_32 + PeekAsSocketWord(buf[4..]));
      } else if t == SUBTITLE_TOTAL_TRACK {
        p := TotalPackage(Signed(PeekAsSocketWord(buf[4..])));
      } else if t == SUBTITLE_START_PTS {
        p := StartPackage(PeekAsSocketWord(buf[8..]) * TWO_32 + PeekAsSocketWord(buf[4..]));
      } else if t == SUBTITLE_SUB_TYPE {
        p := TypePackage(Signed(PeekAsSocketWord(buf[4..])));
      } else if t == SUBTITLE_SUB_DATA {
        p := DataPackage(buf[4..]);
      } else if t == SUBTITLE_LANG_STRING {
        p := LanguagePackage(UpToNul(buf[4..]));
      } else if t == SUBTITLE_TYPE_STRING || t == SUBTITLE_RESET_SERVER || t == SUBTITLE_EXIT_SERVER {
        p := IgnoredPackage;
      } else {
        p := UnknownPackage(buf);
      }
    }

    /** Queues bytes behind all the others. */
    method Push(push: seq<byte>)
      requires InOrder()
      modifies this`nodes, this`queued, segment
      ensures InOrder() && queued == old(queued) + push
      ensures nodes >= old(nodes) && fresh(nodes - old(nodes))
      ensures segment.enabled == old(segment.enabled) && |segment.items| >= old(|segment.items|)
    {
      ghost var items := segment.items;
      var item := segment.Push(push);
      if item != null {
        nodes := nodes + {item};
        ContentsAppend(items, item);
      }
      ConcatIsAssociative(Rest(), Contents(items), push);
      ConcatIsAssociative(delivered, Rest() + Contents(items), push);
      queued := queued + push;
    }

    /** Learns from a package, and queues its data. */
    method OnData(buf: seq<byte>)
      requires Valid() && Readable(buf)
      modifies this`info, this`nodes, this`story, this`queued, segment
      ensures Valid() && story == Told(old(story), Parse(buf))
      ensures nodes >= old(nodes) && fresh(nodes - old(nodes))
    {
      var p := Interpret(buf);
      ToldIsTrue(story, p);
      Handle(p);
      story := Told(story, p);
    }

    method Handle(p: Package)
      requires InOrder()
      modifies this`info, this`nodes, this`queued, segment
      ensures InOrder() && queued == old(queued) + Queued(old(info), p)
      ensures info == Learn(old(info), p)
      ensures nodes >= old(nodes) && fresh(nodes - old(nodes))
    {
      match p
      case TotalPackage(n) => info := info.(total := n);
      case TypePackage(k) => info := info.(kind := k);
      case TimePackage(t) => info := info.(renderTimeUs := t);
      case StartPackage(s) => info := info.(startPts := s);
      case LanguagePackage(l) => info := info.(language := l);
      case DataPackage(d) =>
        if info.total != -1 || info.kind != -1 {
          Push(d);
        }
      case UnknownPackage(b) => Push(b);
      case IgnoredPackage =>
    }

    method Start()
      requires InOrder()
      modifies this`state
      ensures InOrder() && state == Started
    {
      state := Started;
    }

    method Stop()
      requires InOrder()
      modifies this`state, segment
      ensures InOrder() && state == Stopped && segment.items == old(segment.items) && !segment.enabled
    {
      state := Stopped;
      segment.NotifyExit();
    }

    /** The count of unread bytes, as a signed 32-bit sum. */
    method AvailableDataSize() returns (size: int)
      requires InOrder()
      ensures segment.enabled && |Unread()| <= MAX_INT ==> size == |Unread()|
    {
      if segment.enabled && |Unread()| <= MAX_INT {
        SmallSum(|Contents(segment.items)|, |Rest()|);
      }
      size := segment.available;
      if current != null {
        size := size + current.remain;
      }
      size := Signed(size % TWO_32);
    }

    /** The other threads take the next step of the given ones. */
    method Meanwhile(env: seq<Event>, at: nat, ghost base: seq<Package>)
      requires Valid() && at < |env| && HeardBy(story.heard, base, env, at)
      modifies this`info, this`nodes, this`story, this`queued, this`state, segment
      ensures Valid() && HeardBy(story.heard, base, env, at + 1)
      ensures nodes >= old(nodes) && fresh(nodes - old(nodes))
      ensures state == old(state) || state == Stopped
    {
      OneMoreEvent(story.heard, base, env, at);
      match env[at]
      case Heard(buf) => OnData(buf);
      case StopCalled => Stop();
      case Quiet => assert story.heard + [] == story.heard;
    }

    /** Waits until an item can be taken or the segment is shut; meanwhile the other threads act
        as `env` tells, from event `at` on.  `waiting` means that the events end before the wait
        does. */
    method WaitForItem(env: seq<Event>, at: nat, ghost base: seq<Package>) returns (next: nat, waiting: bool)
      requires Valid() && HeardBy(story.heard, base, env, at)
      modifies this`info, this`nodes, this`story, this`queued, this`state, segment
      ensures Valid() && at <= next && HeardBy(story.heard, base, env, next)
      ensures nodes >= old(nodes) && fresh(nodes - old(nodes))
      ensures state == old(state) || state == Stopped
      ensures if waiting then next == |env| && segment.items == [] else segment.items != [] || !segment.enabled
    {
      next := at;
      while |segment.items| == 0 && segment.enabled && next < |env|
        invariant Valid() && at <= next && HeardBy(story.heard, base, env, next)
        invariant nodes >= old(nodes) && fresh(nodes - old(nodes))
        invariant state == old(state) || state == Stopped
        decreases |env| - next
      {
        Meanwhile(env, next, base);
        next := next + 1;
      }
      waiting := |segment.items| == 0 && segment.enabled;
    }

    /** The other threads may act before the lock is taken, and then while there is nothing. */
    method LockAndWait(env: seq<Event>, at: nat, ghost base: seq<Package>) returns (next: nat, waiting: bool)
      requires Valid() && HeardBy(story.heard, base, env, at)
      modifies this`info, this`nodes, this`story, this`queued, this`state, segment
      ensures Valid() && at <= next && HeardBy(story.heard, base, env, next)
      ensures nodes >= old(nodes) && fresh(nodes - old(nodes))
      ensures state == old(state) || (state == Stopped && next > at)
      ensures next == at ==> at == |env| && segment.items == old(segment.items)
      ensures waiting ==> next == |env| && segment.items == []
    {
      if at < |env| {
        Meanwhile(env, at, base);
        next, waiting := WaitForItem(env, at + 1, base);
      } else {
        next, waiting := at, |segment.items| == 0 && segment.enabled;
      }
    }

    /** `mCurrentItem = pop()`: an item from the queue, or none once the segment is shut. */
    method PopNext(env: seq<Event>, at: nat, ghost base: seq<Package>) returns (next: nat, waiting: bool)
      requires Valid() && at <= |env| && HeardBy(story.heard, base, env, at) && Rest() == []
      modifies this`info, this`nodes, this`story, this`queued, this`state, this`current, segment
      ensures Valid() && at <= next <= |env| && HeardBy(story.heard, base, env, next)
      ensures nodes >= old(nodes) && fresh(nodes - old(nodes))
      ensures state == old(state) || (state == Stopped && next > at)
      ensures next == at ==> at == |env|
      ensures waiting ==> next == |env| && Unread() == []
      ensures !waiting && current == null ==> Unread() == []
      ensures !waiting && current != null && next == at ==> |segment.items| < old(|segment.items|)
    {
      next, waiting := LockAndWait(env, at, base);
      if !waiting {
        TakeOrNone();
      }
    }

    method TakeOrNone()
      requires InOrder() && Rest() == []
      modifies this`current, segment
      ensures InOrder()
      ensures current == null ==> Unread() == []
      ensures current != null ==> |segment.items| < old(|segment.items|)
    {
      if |segment.items| == 0 {
        current := null;
      } else {
        TakeNext();
      }
    }

    method TakeNext()
      requires InOrder() && Rest() == [] && segment.items != []
      modifies this`current, segment
      ensures InOrder() && current != null
      ensures |segment.items| < old(|segment.items|)
    {
      assert Unread() == Contents(segment.items);
      current := segment.TakeFront();
      assert Unread() == old(Unread());
    }

    method ReadCurrent(size: nat) returns (out: seq<byte>)
      requires InOrder() && size > 0 && current != null && current.remain != 0
      modifies this`delivered, current
      ensures InOrder() && 0 < |out| <= size && delivered == old(delivered) + out
    {
      out := current.ReadL(size);
      ConcatIsAssociative(out, current.Unread(), Contents(segment.items));
      ConcatIsAssociative(delivered, out, Unread());
      delivered := delivered + out;
    }

    /** Reads from the current item; unless that was all, the other threads may act. */
    method ReadSome(size: nat, env: seq<Event>, at: nat, ghost base: seq<Package>) returns (out: seq<byte>, next: nat)
      requires Valid() && size > 0 && current != null && current.remain != 0
      requires HeardBy(story.heard, base, env, at)
      modifies this`info, this`nodes, this`story, this`queued, this`state, this`delivered, segment, current
      ensures Valid() && 0 < |out| <= size && delivered == old(delivered) + out
      ensures at <= next && HeardBy(story.heard, base, env, next)
      ensures nodes >= old(nodes) && fresh(nodes - old(nodes))
      ensures |out| == size ==> state == old(state)
    {
      out := ReadCurrent(size);
      next := at;
      if |out| < size {
        next := LetOthersAct(env, at, base);
      }
    }

    method LetOthersAct(env: seq<Event>, at: nat, ghost base: seq<Package>) returns (next: nat)
      requires Valid() && HeardBy(story.heard, base, env, at)
      modifies this`info, this`nodes, this`story, this`queued, this`state, segment
      ensures Valid() && at <= next && HeardBy(story.heard, base, env, next)
      ensures nodes >= old(nodes) && fresh(nodes - old(nodes))
      ensures state == old(state) || state == Stopped
    {
      next := at;
      if at < |env| {
        Meanwhile(env, at, base);
        next := at + 1;
      }
    }

    /** Reads until the size asked for is reached or the source is stopped.  A read that returns
        while the source is started has exactly that size. */
    method Read(size: nat, env: seq<Event>) returns (out: seq<byte>, next: nat, waiting: bool)
      requires Valid() && CanHappen(env)
      modifies this, segment, nodes
      ensures Valid() && delivered == old(delivered) + out
      ensures HeardBy(story.heard, old(story.heard), env, next)
      ensures |out| <= size
      ensures !waiting && state == Started ==> |out| == size
      ensures waiting ==> next == |env| && Unread() == []
    {
      out, next, waiting := [], 0, false;
      ghost var base := story.heard;
      assert HeardBy(story.heard, base, env, 0);
      while |out| != size && state == Started
        invariant Valid() && delivered == old(delivered) + out && |out| <= size
        invariant HeardBy(story.heard, base, env, next)
        invariant nodes >= old(nodes) && fresh(nodes - old(nodes))
        decreases |env| - next, size - |out|, |segment.items|
      {
        if current != null && current.remain != 0 {
          var got: seq<byte>;
          got, next := ReadSome(size - |out|, env, next, base);
          ConcatIsAssociative(old(delivered), out, got);
          out := out + got;
        } else {
          next, waiting := PopNext(env, next, base);
          // When the segment was shut and the source started again, the loop spins instead.
          waiting := waiting || (current == null && state == Started && next == |env|);
          if waiting {
            return;
          }
        }
      }
    }
  }

  /** From client to reader, for every cut of the stream and every interleaving: once a source has
      heard what was delivered from some part of the stream, it knows what the complete reports
      said last; what it queued are the data sent while a total or a type was known; and what its
      reads returned, whenever they were made, is a prefix of all such data. */
  lemma EndToEnd(source: ExternalDataSource, j: seq<byte>, sessionId: int, rs: seq<Report>, p: seq<byte>, k: nat)
    requires AllWellformed(rs) && rs != [] && Junk(j) && sessionId % TWO_32 != MAGIC_FLAG
    requires p <= j + Frames(sessionId, Messages(rs)) && k == Complete(Messages(rs), |p| - |j|)
    requires source.Valid() && SourceSpec.AllReadable(Drain(p).out) && source.story.heard == ParseAll(Drain(p).out)
    ensures source.info == Info(LastTotal(rs[..k]), LastType(rs[..k]), LastRenderTime(rs[..k]) % TWO_64,
                                LastStartPts(rs[..k]) % TWO_64, LastLanguage(rs[..k]))
    ensures source.delivered + source.Unread() == KeptData(rs[..k])
    ensures source.delivered <= KeptData(rs)
  {
    source.KnowsWhatItHeard();
    StreamArrives(j, sessionId, rs, p, k);
    InfoIsTheLastReported(rs[..k]);
    QueuedIsKeptData(rs[..k]);
    KeptDataGrows(rs, k);
  }

}
