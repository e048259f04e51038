/** Subtitle picture units (SPUs) as values, and the operations that the presentation
    scheduler applies to lists of them. */
module SpuList {
  import opened Bytes
  import opened Clock
  import opened Wrappers

  datatype Kind = Pgs | ClosedCaption | OtherKind

  /** One SPU as the scheduler sees it.  `id` stands for the identity of the shared object;
      `pts` and `delay` (the end time) are in 90 kHz ticks. */
  datatype Spu = Spu(
    id: nat,
    kind: Kind,
    objectId: nat,
    isImmediate: bool,
    isExt: bool,
    isKeepShowing: bool,
    isSimpleText: bool,
    pts: int,
    delay: int,
    data: Option<seq<byte>>)
  {
    function Bytes(): seq<byte> {
      if data.Some? then data.value else []
    }
  }

  ghost predicate Sorted(s: seq<Spu>) {
    forall i, j :: 0 <= i < j < |s| ==> s[i].pts <= s[j].pts
  }

  /** How often the SPU `id` is in a list. */
  function Count(s: seq<Spu>, id: nat): nat {
    if s == [] then 0 else Count(s[..|s|-1], id) + (if s[|s|-1].id == id then 1 else 0)
  }

  lemma {:induction false} CountAppend(a: seq<Spu>, b: seq<Spu>, id: nat)
    ensures Count(a + b, id) == Count(a, id) + Count(b, id)
  {
    if b == [] {
      assert a + b == a;
    } else {
      assert (a + b)[..|a + b|-1] == a + b[..|b|-1];
      CountAppend(a, b[..|b|-1], id);
    }
  }

  lemma CountSplit(s: seq<Spu>, k: nat, id: nat)
    requires k <= |s|
    ensures Count(s, id) == Count(s[..k], id) + Count(s[k..], id)
  {
    assert s == s[..k] + s[k..];
    CountAppend(s[..k], s[k..], id);
  }

  lemma CountFirst(x: Spu, rest: seq<Spu>, id: nat)
    ensures Count([x] + rest, id) == (if x.id == id then 1 else 0) + Count(rest, id)
  {
    CountAppend([x], rest, id);
    assert Count([x][..0], id) == 0;
  }

  /** Insertion after every element that is not larger: the place a stable sort gives it. */
  function InsertByPts(s: seq<Spu>, x: Spu): seq<Spu> {
    if s == [] then [x]
    else if s[|s|-1].pts <= x.pts then s + [x]
    else InsertByPts(s[..|s|-1], x) + [s[|s|-1]]
  }

  /** std::list::sort with the "earlier pts" order: a stable sort. */
  function SortByPts(s: seq<Spu>): seq<Spu> {
    if s == [] then [] else InsertByPts(SortByPts(s[..|s|-1]), s[|s|-1])
  }

  lemma {:induction false} InsertPermutes(s: seq<Spu>, x: Spu)
    ensures multiset(InsertByPts(s, x)) == multiset(s) + multiset{x}
  {
    if s != [] && s[|s|-1].pts > x.pts {
      InsertPermutes(s[..|s|-1], x);
      assert s == s[..|s|-1] + [s[|s|-1]];
    }
  }

  lemma {:induction false} InsertCounts(s: seq<Spu>, x: Spu, id: nat)
    ensures Count(InsertByPts(s, x), id) == Count(s, id) + (if x.id == id then 1 else 0)
  {
    if s == [] {
      assert Count([x][..0], id) == 0;
    } else if s[|s|-1].pts <= x.pts {
      assert (s + [x])[..|s|] == s;
    } else {
      var front, last := s[..|s|-1], s[|s|-1];
      InsertCounts(front, x, id);
      assert (InsertByPts(front, x) + [last])[..|InsertByPts(front, x)|] == InsertByPts(front, x);
    }
  }

  lemma {:induction false} SortCounts(s: seq<Spu>, id: nat)
    ensures Count(SortByPts(s), id) == Count(s, id)
  {
    if s != [] {
      SortCounts(s[..|s|-1], id);
      InsertCounts(SortByPts(s[..|s|-1]), s[|s|-1], id);
    }
  }

  lemma {:induction false} InsertKeepsOrder(s: seq<Spu>, x: Spu)
    requires Sorted(s)
    ensures Sorted(InsertByPts(s, x))
    ensures forall y :: y in InsertByPts(s, x) <==> y in s || y == x
  {
    if s == [] {
    } else if s[|s|-1].pts <= x.pts {
    } else {
      var front, last := s[..|s|-1], s[|s|-1];
      InsertKeepsOrder(front, x);
      assert s == front + [last];
      var r := InsertByPts(front, x);
      forall i | 0 <= i < |r| ensures r[i].pts <= last.pts {
        assert r[i] in front || r[i] == x;
      }
    }
  }

  /** What `sort` promises: an ordered permutation. */
  lemma {:induction false} SortSorts(s: seq<Spu>)
    ensures Sorted(SortByPts(s))
    ensures multiset(SortByPts(s)) == multiset(s)
  {
    if s != [] {
      var front, last := s[..|s|-1], s[|s|-1];
      assert s == front + [last];
      SortSorts(front);
      InsertKeepsOrder(SortByPts(front), last);
      InsertPermutes(SortByPts(front), last);
    }
  }

  /** Sorting an ordered list changes nothing, so one arrival is placed by one insertion. */
  lemma {:induction false} SortAfterPush(s: seq<Spu>, x: Spu)
    requires Sorted(s)
    ensures SortByPts(s) == s
    ensures SortByPts(s + [x]) == InsertByPts(s, x)
  {
    assert (s + [x])[..|s|] == s;
    if s != [] {
      var front, last := s[..|s|-1], s[|s|-1];
      assert s == front + [last];
      SortAfterPush(front, last);
      assert front == [] || front[|front|-1].pts <= last.pts;
    }
  }

  /** The place an insertion gives `x` in an ordered list, found from the end. */
  lemma {:induction false} InsertPlace(s: seq<Spu>, x: Spu, k: nat)
    requires k <= |s|
    requires k > 0 ==> s[k-1].pts <= x.pts
    requires forall i :: k <= i < |s| ==> s[i].pts > x.pts
    ensures InsertByPts(s, x) == s[..k] + [x] + s[k..]
  {
    if k == |s| {
      assert s[..k] == s && s[k..] == [];
    } else {
      var front, last := s[..|s|-1], s[|s|-1];
      InsertPlace(front, x, k);
      assert front[..k] == s[..k];
      assert front[k..] + [last] == s[k..];
    }
  }

  /** Sum of the buffer sizes of the queued SPUs. */
  function QueuedMemory(s: seq<Spu>): nat {
    if s == [] then 0 else |s[0].Bytes()| + QueuedMemory(s[1..])
  }

  lemma {:induction false} MemoryOfBoth(a: seq<Spu>, b: seq<Spu>)
    ensures QueuedMemory(a + b) == QueuedMemory(a) + QueuedMemory(b)
  {
    if a == [] {
      assert a + b == b;
    } else {
      MemoryOfBoth(a[1..], b);
      assert (a + b)[1..] == a[1..] + b;
    }
  }

  /** Queueing an SPU adds its bytes. */
  lemma {:induction false} InsertAddsMemory(s: seq<Spu>, x: Spu)
    ensures QueuedMemory(InsertByPts(s, x)) == QueuedMemory(s) + |x.Bytes()|
  {
    MemoryOfOne(x);
    if s != [] {
      var front, last := s[..|s|-1], s[|s|-1];
      assert s == front + [last];
      MemoryOfOne(last);
      MemoryOfBoth(front, [last]);
      MemoryOfBoth(s, [x]);
      InsertAddsMemory(front, x);
      MemoryOfBoth(InsertByPts(front, x), [last]);
    }
  }

  lemma MemoryOfOne(x: Spu)
    ensures QueuedMemory([x]) == |x.Bytes()|
  {
    assert [x][1..] == [];
    assert QueuedMemory([]) == 0;
  }

  /** The predicate that `remove_if` uses: ten minutes or more ahead of the clock, unless the
      clock source is limited to 32 bits and the SPU is not. */
  predicate TooFarAhead(x: Spu, ts: int) {
    && NsToMs(ts) + 10 * 60 * 1000 <= DvbToMs(x.pts)
    && !x.isImmediate
    && !(MoreThan32Bits(x.pts) && !MoreThan32Bits(NsToDvb(ts)))
  }

  function Kept(s: seq<Spu>, ts: int): (r: seq<Spu>)
    ensures |r| <= |s|
    ensures forall x :: x in r <==> x in s && !TooFarAhead(x, ts)
  {
    if s == [] then []
    else if TooFarAhead(s[0], ts) then Kept(s[1..], ts)
    else [s[0]] + Kept(s[1..], ts)
  }

  function Purged(s: seq<Spu>, ts: int): (r: seq<Spu>)
    ensures forall x :: x in r <==> x in s && TooFarAhead(x, ts)
  {
    if s == [] then []
    else if TooFarAhead(s[0], ts) then [s[0]] + Purged(s[1..], ts)
    else Purged(s[1..], ts)
  }

  lemma {:induction false} PurgeSplits(s: seq<Spu>, ts: int, id: nat)
    ensures Count(Kept(s, ts), id) + Count(Purged(s, ts), id) == Count(s, id)
  {
    if s != [] {
      PurgeSplits(s[1..], ts, id);
      assert s == [s[0]] + s[1..];
      CountFirst(s[0], s[1..], id);
      CountFirst(s[0], Kept(s[1..], ts), id);
      CountFirst(s[0], Purged(s[1..], ts), id);
    }
  }

  lemma {:induction false} PurgeKeepsOrder(s: seq<Spu>, ts: int)
    requires Sorted(s)
    ensures Sorted(Kept(s, ts))
  {
    if s != [] {
      PurgeKeepsOrder(s[1..], ts);
      var r := Kept(s[1..], ts);
      forall i | 0 <= i < |r| ensures s[0].pts <= r[i].pts {
        assert r[i] in s[1..];
      }
    }
  }

  /** The bytes of a C string: up to the first NUL. */
  function CString(s: seq<byte>): (r: seq<byte>)
    ensures 0 !in r && r <= s
    ensures |r| < |s| ==> s[|r|] == 0
  {
    if s == [] || s[0] == 0 then [] else [s[0]] + CString(s[1..])
  }

  function Zeros(n: nat): (z: seq<byte>)
    ensures |z| == n && forall i :: 0 <= i < n ==> z[i] == 0
  {
    seq(n, _ => 0)
  }

  /** The buffer that `strncpy`, `strncat("\n")`, `strncat` leave: both texts, one per line,
      in a zero-filled buffer of the two sizes plus two. */
  function CombinedText(a: seq<byte>, b: seq<byte>): (r: seq<byte>)
    ensures |r| == |a| + 1 + |b| + 1
  {
    var text := CString(a) + [10] + CString(b);
    text + Zeros(|a| + |b| + 2 - |text|)
  }

  /** Read back as a C string, the combined buffer is both texts separated by a newline. */
  lemma CombinedTextReadsBack(a: seq<byte>, b: seq<byte>)
    ensures CString(CombinedText(a, b)) == CString(a) + [10] + CString(b)
  {
    CStringOfPadded(CString(a) + [10] + CString(b), |a| + |b| + 2 - |CString(a) + [10] + CString(b)|);
  }

  lemma {:induction false} CStringOfPadded(text: seq<byte>, n: nat)
    requires 0 !in text
    ensures CString(text + Zeros(n)) == text
  {
    if text == [] {
    } else {
      assert (text + Zeros(n))[1..] == text[1..] + Zeros(n);
      CStringOfPadded(text[1..], n);
    }
  }

  /** Two adjacent SPUs that one picture shows together. */
  predicate Combinable(a: Spu, b: Spu) {
    && !(a.isExt || a.isImmediate || !a.isSimpleText)
    && !(b.isExt || b.isImmediate || !b.isSimpleText)
    && a.pts == b.pts
  }

}
