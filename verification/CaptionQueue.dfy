/** The reorder list in place: heap nodes on two singly linked chains, the caption list and the
    free list.  Each method is proved against CaptionSpec. */
module CaptionQueue {
  import opened Bytes
  import opened Wrappers
  import opened CaptionSpec

  class CcNode {
    var next: CcNode?
    /** The allocated buffer; the payload is its first `size` bytes. */
    var buf: CcBytes
    var size: nat
    var poc: int
    var pts: int
    var ptsValid: bool
    var duration: int
    /** Tells payloads apart; set when the payload is added. */
    var id: nat

    constructor ()
      ensures next == null && buf == [] && size == 0 && poc == 0
    {
      next, buf, size, poc := null, [], 0, 0;
    }

    /** The payload that the node carries. */
    function Payload(): CcBytes
      reads this`buf, this`size
    {
      if size <= |buf| then buf[..size] else buf
    }

    function Value(): Entry
      reads this`id, this`poc, this`pts, this`ptsValid, this`duration, this`buf, this`size
    {
      Entry(id, poc, pts, ptsValid, duration, Payload())
    }
  }

  ghost predicate Distinct(s: seq<CcNode>) {
    forall i, j :: 0 <= i < j < |s| ==> s[i] != s[j]
  }

  ghost function Without(s: seq<CcNode>, k: nat): seq<CcNode>
    requires k < |s|
  {
    s[..k] + s[k+1..]
  }

  /** Two lists of distinct nodes of a set, without a common node. */
  ghost predicate Apart(s: seq<CcNode>, t: seq<CcNode>, nodes: set<CcNode>) {
    && Distinct(s) && Distinct(t)
    && (forall i, j :: 0 <= i < |s| && 0 <= j < |t| ==> s[i] != t[j])
    && (forall i :: 0 <= i < |s| ==> s[i] in nodes)
    && (forall j :: 0 <= j < |t| ==> t[j] in nodes)
  }

  lemma ApartAfterMove(s: seq<CcNode>, t: seq<CcNode>, k: nat, nodes: set<CcNode>)
    requires Apart(s, t, nodes) && k < |s|
    ensures Apart(Without(s, k), [s[k]] + t, nodes)
  {
  }

  ghost function With(s: seq<CcNode>, k: nat, n: CcNode): seq<CcNode>
    requires k <= |s|
  {
    s[..k] + [n] + s[k..]
  }

  lemma ApartAfterInsert(s: seq<CcNode>, t: seq<CcNode>, k: nat, n: CcNode, nodes: set<CcNode>)
    requires Apart(s, t, nodes) && k <= |s| && n in nodes
    requires (forall i :: 0 <= i < |s| ==> s[i] != n) && (forall j :: 0 <= j < |t| ==> t[j] != n)
    ensures Apart(With(s, k, n), t, nodes)
  {
  }

  /** `s` lists the nodes of the chain that starts at `head`. */
  ghost predicate Chain(head: CcNode?, s: seq<CcNode>)
    reads s`next
  {
    && head == At(s, 0)
    && forall i {:trigger s[i].next} :: 0 <= i < |s| ==> s[i].next == At(s, i + 1)
  }

  /** The node at a place of the chain; null behind its end. */
  ghost function At(s: seq<CcNode>, i: nat): CcNode? {
    if i < |s| then s[i] else null
  }

  /** The nodes carry these payloads. */
  ghost predicate Carry(s: seq<CcNode>, list: seq<Entry>)
    reads s`id, s`poc, s`pts, s`ptsValid, s`duration, s`buf, s`size
  {
    |s| == |list| && forall i {:trigger s[i].Value()} :: 0 <= i < |s| ==> s[i].Value() == list[i]
  }

  lemma CarryWith(s: seq<CcNode>, list: seq<Entry>, k: nat, n: CcNode)
    requires Carry(s, list) && k <= |s|
    ensures Carry(With(s, k, n), list[..k] + [n.Value()] + list[k..])
  {
  }

  lemma CarryWithout(s: seq<CcNode>, list: seq<Entry>, k: nat)
    requires Carry(s, list) && k < |s|
    ensures Carry(Without(s, k), list[..k] + list[k+1..])
  {
  }

  ghost function NodeSet(s: seq<CcNode>): set<CcNode> {
    set i | 0 <= i < |s| :: s[i]
  }

  lemma {:induction false} DistinctSize(s: seq<CcNode>)
    requires Distinct(s)
    ensures |NodeSet(s)| == |s|
  {
    if s != [] {
      var front, last := s[..|s|-1], s[|s|-1];
      DistinctSize(front);
      assert last !in NodeSet(front);
      assert NodeSet(s) == NodeSet(front) + {last};
    }
  }

  lemma {:induction false} SameSize<T>(a: set<T>, b: set<T>)
    requires a <= b && |a| == |b|
    ensures a == b
  {
    if a != {} {
      var x :| x in a;
      SameSize(a - {x}, b - {x});
    }
  }

  /** Puts a packet together on the stack: all eight bytes of the pts are stored, and the payload
      then goes over the upper four. */
  method Assemble(pts: int, payload: CcBytes) returns (packet: seq<byte>)
    ensures packet == Packet(pts, payload)
  {
    var buffer := new byte[MAX_CC_DATA_LEN];
    var stored := LongWord(pts);
    forall i | 0 <= i < 8 {
      buffer[i] := stored[i];
    }
    forall i | 0 <= i < |payload| {
      buffer[4 + i] := payload[i];
    }
    packet := buffer[..|payload| + 4];
    LowerHalf(pts);
    assert packet[..4] == stored[..4];
    assert packet == packet[..4] + packet[4..];
  }

  class Queue {
    var ccList: CcNode?
    var freeList: CcNode?
    var ccNum: int
    var currPoc: int
    var currPts: int
    var currDuration: int
    /** The calls of `write_package` with their bytes, in order, and the flushes between them. */
    var log: seq<Event>
    /** The payloads of the caption list, and the nodes of both lists, in order. */
    ghost var list: seq<Entry>
    ghost var cc: seq<CcNode>
    ghost var free: seq<CcNode>
    /** The nodes allocated so far, and how many. */
    ghost var nodes: set<CcNode>
    ghost var mallocs: nat

    /** The two chains are acyclic and disjoint, and together they hold as many nodes as were
        allocated: all of them. */
    ghost predicate Shape()
      reads this, cc`next, free`next
    {
      && Chain(ccList, cc) && Chain(freeList, free)
      && Apart(cc, free, nodes)
      && |cc| + |free| == mallocs == |nodes|
    }

    /** Every allocated node is on exactly one of the two chains. */
    lemma ChainsHoldAllNodes()
      requires Shape()
      ensures nodes == NodeSet(cc) + NodeSet(free) && NodeSet(cc) * NodeSet(free) == {}
    {
      DistinctSize(cc);
      DistinctSize(free);
      var linked := NodeSet(cc) + NodeSet(free);
      assert NodeSet(cc) * NodeSet(free) == {};
      assert |linked| == |nodes|;
      SameSize(linked, nodes);
    }

    ghost predicate Valid()
      reads this, cc, free
    {
      Shape() && Carry(cc, list)
    }

    ghost function View(): Ud
      reads this
    {
      Ud(list, ccNum, currPoc, currPts, currDuration, log)
    }

    constructor ()
      ensures Valid() && View() == Opened(currPts, currDuration) && nodes == {}
    {
      ccList, freeList, ccNum, currPoc, log := null, null, 0, -1, [];
      list, cc, free, nodes, mallocs := [], [], [], {}, 0;
    }

    /** Sends a payload behind its pts, or behind the running one when it has none. */
    method WriteUserdata(entry: Entry, cause: Cause)
      modifies this`log, this`currPts, this`currDuration
      ensures View() == Write(old(View()), entry, cause)
    {
      var pts := if entry.ptsValid then entry.pts else currPts + currDuration;
      var packet := Assemble(pts, entry.payload);
      log := log + [Sent(entry, pts, cause, packet)];
      currPts := pts;
      currDuration := entry.duration;
    }

    /** Takes the node at `k`, found behind `prev`, out of the caption list. */
    method Unlink(prev: CcNode?, node: CcNode, ghost k: nat)
      requires Chain(ccList, cc) && Distinct(cc)
      requires k < |cc| && cc[k] == node
      requires if k == 0 then prev == null else prev == cc[k-1]
      modifies this`ccList, (if prev == null then {} else {prev})`next
      ensures Chain(ccList, Without(cc, k))
    {
      if prev == null {
        ccList := node.next;
      } else {
        prev.next := node.next;
      }
    }

    /** Puts a node that left the caption list in front of the free list. */
    method PushFree(node: CcNode)
      requires Chain(freeList, free) && forall i :: 0 <= i < |free| ==> free[i] != node
      modifies this`freeList, node`next
      ensures Chain(freeList, [node] + free)
    {
      node.next := freeList;
      freeList := node;
    }

    method Relink(prev: CcNode?, node: CcNode, ghost k: nat)
      requires Shape() && k < |cc| && cc[k] == node
      requires if k == 0 then prev == null else prev == cc[k-1]
      modifies this`ccList, this`freeList, nodes`next
      ensures Chain(ccList, Without(cc, k)) && Chain(freeList, [node] + free)
    {
      Unlink(prev, node, k);
      PushFree(node);
    }

    /** Moves the node at `k` from the caption list to the free list. */
    method Recycle(prev: CcNode?, node: CcNode, ghost k: nat)
      requires Valid() && k < |cc| && cc[k] == node
      requires if k == 0 then prev == null else prev == cc[k-1]
      modifies this`ccList, this`freeList, this`cc, this`free, this`list, nodes`next
      ensures Valid()
      ensures cc == Without(old(cc), k)
      ensures list == old(list)[..k] + old(list)[k+1..]
    {
      ApartAfterMove(cc, free, k, nodes);
      CarryWithout(cc, list, k);
      Relink(prev, node, k);
      cc, free := Without(cc, k), [node] + free;
      list := list[..k] + list[k+1..];
    }

    method RecycleHead(node: CcNode)
      requires Valid() && node == ccList && |cc| > 0
      modifies this`ccList, this`freeList, this`cc, this`free, this`list, nodes`next
      ensures Valid()
      ensures list == old(list)[1..]
    {
      Recycle(null, node, 0);
      assert old(list)[..0] + old(list)[0+1..] == old(list)[1..];
    }

    /** Writes the head of the caption list and gives its node to the free list. */
    method TakeHead(node: CcNode, cause: Cause)
      requires Valid() && node == ccList
      modifies this, nodes`next
      ensures Valid() && nodes == old(nodes) && mallocs == old(mallocs)
      ensures old(list) != []
      ensures View() == Write(old(View()), old(list)[0], cause).(list := old(list)[1..])
    {
      WriteUserdata(node.Value(), cause);
      RecycleHead(node);
    }

    /** One pass of the flush loop: writes the node at `i` and gives it to the free list. */
    method FlushOne(node: CcNode, ghost c0: seq<CcNode>, ghost i: nat) returns (next: CcNode?)
      requires i < |c0| && node == c0[i] && Distinct(c0)
      requires forall j {:trigger c0[j].next} :: i <= j < |c0| ==> c0[j].next == At(c0, j + 1)
      requires Chain(freeList, free) && Apart(free, c0[i..], nodes)
      modifies this`log, this`currPts, this`currDuration, this`freeList, this`free, node`next
      ensures next == At(c0, i + 1)
      ensures forall j {:trigger c0[j].next} :: i < j < |c0| ==> c0[j].next == At(c0, j + 1)
      ensures free == [node] + old(free)
      ensures Chain(freeList, free) && Apart(free, c0[i+1..], nodes)
      ensures View() == Write(old(View()), node.Value(), Flushed)
    {
      next := node.next;
      WriteUserdata(node.Value(), Flushed);
      PushFree(node);
      free := [node] + free;
    }

    method FlushAll()
      requires Valid()
      modifies this, nodes`next
      ensures Chain(freeList, free) && Apart([], free, nodes) && |free| == mallocs == |nodes|
      ensures nodes == old(nodes) && mallocs == old(mallocs)
      ensures View() == WriteAll(old(View()), old(list), Flushed)
    {
      ghost var v0, c0 := View(), cc;
      var node := ccList;
      ghost var i: nat := 0;
      assert v0.list[..0] == [];
      while node != null
        invariant i <= |c0| && node == At(c0, i)
        invariant forall j {:trigger c0[j].next} :: i <= j < |c0| ==> c0[j].next == At(c0, j + 1)
        invariant Chain(freeList, free) && Apart(free, c0[i..], nodes) && |free| + |c0| - i == mallocs == |nodes|
        invariant nodes == old(nodes) && mallocs == old(mallocs) && cc == c0
        invariant Carry(c0, v0.list)
        invariant View() == WriteAll(v0, v0.list[..i], Flushed)
        decreases |c0| - i
      {
        assert v0.list[..i+1][..i] == v0.list[..i];
        node := FlushOne(node, c0, i);
        i := i + 1;
      }
      assert v0.list[..|c0|] == v0.list;
    }

    /** Writes every pending payload and gives all nodes to the free list. */
    method Flush()
      requires Valid()
      modifies this, nodes`next
      ensures Valid() && nodes == old(nodes) && mallocs == old(mallocs)
      ensures View() == CaptionSpec.Flush(old(View()))
    {
      FlushAll();
      ccList := null;
      ccNum := 0;
      currPoc := -1;
      cc, list := [], [];
      log := log + [FlushDone];
    }

    /** Walks to the place of a payload: behind `prev`, or first when that is null. */
    method FindPlace(e: Entry) returns (prev: CcNode?, ghost k: nat)
      requires Valid()
      ensures k <= |cc| && if k == 0 then prev == null else prev == cc[k-1]
      ensures Insert(list, e) == list[..k] + [e] + list[k..]
    {
      prev, k := null, 0;
      var node := ccList;
      while node != null && !ComesBefore(e, node.Value())
        invariant k <= |cc| && node == At(cc, k)
        invariant if k == 0 then prev == null else prev == cc[k-1]
        invariant forall i :: 0 <= i < k ==> !ComesBefore(e, list[i])
        decreases |cc| - k
      {
        prev := node;
        node := node.next;
        k := k + 1;
      }
      InsertPlace(list, e, k);
    }

    /** A node from the free list, or a new one; it belongs to neither list for now. */
    method TakeNode() returns (node: CcNode)
      requires Valid()
      modifies this`freeList, this`free, this`nodes, this`mallocs
      ensures Chain(ccList, cc) && Chain(freeList, free) && Apart(cc, free, nodes)
      ensures |cc| + |free| + 1 == mallocs == |nodes|
      ensures node in nodes && nodes >= old(nodes) && fresh(nodes - old(nodes))
      ensures forall i :: 0 <= i < |cc| ==> cc[i] != node
      ensures forall i :: 0 <= i < |free| ==> free[i] != node
    {
      if freeList != null {
        node := freeList;
        freeList := node.next;
        free := free[1..];
      } else {
        node := new CcNode();
        nodes := nodes + {node};
        mallocs := mallocs + 1;
      }
    }

    /** Copies a payload into a node; the buffer grows when it is too small. */
    method Fill(node: CcNode, e: Entry)
      modifies node
      ensures node.Value() == e && node.next == old(node.next)
    {
      if |node.buf| < |e.payload| {
        node.buf := e.payload;
      } else {
        node.buf := e.payload + node.buf[|e.payload|..];
      }
      node.size := |e.payload|;
      assert node.buf[..node.size] == e.payload;
      node.id, node.poc, node.pts := e.id, e.poc, e.pts;
      node.ptsValid, node.duration := e.ptsValid, e.duration;
    }

    /** Links a node behind `prev`. */
    method Link(prev: CcNode?, node: CcNode, ghost k: nat)
      requires Chain(ccList, cc) && Distinct(cc)
      requires forall i :: 0 <= i < |cc| ==> cc[i] != node
      requires k <= |cc| && if k == 0 then prev == null else prev == cc[k-1]
      modifies this`ccList, node`next, (if prev == null then {} else {prev})`next
      ensures Chain(ccList, With(cc, k, node))
    {
      if prev == null {
        node.next := ccList;
        ccList := node;
      } else {
        node.next := prev.next;
        prev.next := node;
      }
    }

    /** Links a node behind `prev`; the free list is not touched. */
    method LinkApart(prev: CcNode?, node: CcNode, ghost k: nat)
      requires Chain(ccList, cc) && Chain(freeList, free) && Apart(cc, free, nodes)
      requires forall i :: 0 <= i < |cc| ==> cc[i] != node
      requires forall i :: 0 <= i < |free| ==> free[i] != node
      requires k <= |cc| && (if k == 0 then prev == null else prev == cc[k-1]) && node in nodes
      modifies this`ccList, nodes`next
      ensures Chain(ccList, With(cc, k, node)) && Chain(freeList, free)
    {
      Link(prev, node, k);
    }

    /** A node that carries the payload; it belongs to neither list for now. */
    method NewNode(e: Entry) returns (node: CcNode)
      requires Valid()
      modifies this`freeList, this`free, this`nodes, this`mallocs, nodes
      ensures Chain(ccList, cc) && Chain(freeList, free) && Apart(cc, free, nodes) && Carry(cc, list)
      ensures |cc| + |free| + 1 == mallocs == |nodes|
      ensures node in nodes && nodes >= old(nodes) && fresh(nodes - old(nodes))
      ensures forall i :: 0 <= i < |cc| ==> cc[i] != node
      ensures forall i :: 0 <= i < |free| ==> free[i] != node
      ensures node.Value() == e
    {
      node := TakeNode();
      Fill(node, e);
    }

    /** Links a node that carries the payload into the list at place `k`. */
    method LinkNode(prev: CcNode?, node: CcNode, e: Entry, ghost k: nat)
      requires Chain(ccList, cc) && Chain(freeList, free) && Apart(cc, free, nodes) && Carry(cc, list)
      requires |cc| + |free| + 1 == mallocs == |nodes| && node in nodes && node.Value() == e
      requires forall i :: 0 <= i < |cc| ==> cc[i] != node
      requires forall i :: 0 <= i < |free| ==> free[i] != node
      requires k <= |cc| && if k == 0 then prev == null else prev == cc[k-1]
      modifies this`ccList, this`cc, this`list, nodes`next
      ensures Valid() && list == old(list)[..k] + [e] + old(list)[k..]
    {
      ApartAfterInsert(cc, free, k, node, nodes);
      CarryWith(cc, list, k, node);
      LinkApart(prev, node, k);
      cc := With(cc, k, node);
      list := list[..k] + [e] + list[k..];
    }

    /** Puts a payload into the list at its place. */
    method InsertSorted(e: Entry)
      requires Valid()
      modifies this, nodes
      ensures Valid() && nodes >= old(nodes) && fresh(nodes - old(nodes))
      ensures View() == old(View()).(list := Insert(old(list), e))
    {
      var prev;
      ghost var k;
      prev, k := FindPlace(e);
      var node := NewNode(e);
      LinkNode(prev, node, e, k);
    }

    /** Full: the head is written and dropped. */
    method MakeRoom()
      requires Valid() && CanAdd(View())
      modifies this, nodes`next
      ensures Valid() && nodes == old(nodes)
      ensures View() == CaptionSpec.MakeRoom(old(View()))
    {
      if ccNum >= MAX_CC_NUM {
        TakeHead(ccList, Evicted);
        ccNum := ccNum - 1;
      }
    }

    /** A jump back by more than 30 in the picture order flushes first. */
    method FlushOnReset(poc: int)
      requires Valid()
      modifies this, nodes`next
      ensures Valid() && nodes == old(nodes)
      ensures View() == CaptionSpec.FlushOnReset(old(View()), poc)
    {
      assert ccList != null ==> ccList.Value() == list[0];
      if ccList != null && poc < ccList.poc - POC_RESET_GAP {
        Flush();
      }
    }

    method AddCcData(e: Entry)
      requires Valid() && CanAdd(View())
      modifies this, nodes
      ensures Valid() && nodes >= old(nodes) && fresh(nodes - old(nodes))
      ensures View() == Add(old(View()), e)
    {
      MakeRoom();
      FlushOnReset(e.poc);
      InsertSorted(e);
      ccNum := ccNum + 1;
    }

    /** Finds the node in front of the one at `k` by walking from the head. */
    method Predecessor(node: CcNode, ghost k: nat) returns (prev: CcNode?)
      requires Valid() && k < |cc| && cc[k] == node
      ensures if k == 0 then prev == null else prev == cc[k-1]
    {
      if node == ccList {
        return null;
      }
      prev := ccList;
      ghost var i: nat := 0;
      while prev.next != node
        invariant i < k && prev == cc[i]
        decreases k - i
      {
        prev := prev.next;
        i := i + 1;
      }
    }

    method RecycleAt(node: CcNode, ghost k: nat)
      requires Valid() && k < |cc| && cc[k] == node
      modifies this`ccList, this`freeList, this`cc, this`free, this`list, nodes`next
      ensures Valid() && list == old(list)[..k] + old(list)[k+1..]
    {
      var prev := Predecessor(node, k);
      Recycle(prev, node, k);
    }

    /** Writes and removes the node at `k`. */
    method ReleaseNode(node: CcNode, ghost k: nat)
      requires Valid() && k < |cc| && cc[k] == node
      modifies this, nodes`next
      ensures Valid() && nodes == old(nodes)
      ensures View() == CaptionSpec.Unlink(old(View()), k)
    {
      WriteUserdata(node.Value(), Released);
      currPoc := node.poc;
      RecycleAt(node, k);
      ccNum := ccNum - 1;
    }

    /** The release loop, with one clock reading per look at a node. */
    method ReleaseDue(clock: nat -> int)
      requires Valid()
      modifies this, nodes`next
      ensures Valid() && nodes == old(nodes)
      ensures View() == Release(old(View()), 0, clock, 0)
    {
      var node := ccList;
      var n: nat := 0;
      ghost var k: nat := 0;
      while node != null
        invariant Valid() && nodes == old(nodes)
        invariant k <= |cc| && node == At(cc, k)
        invariant Release(View(), k, clock, n) == Release(old(View()), 0, clock, 0)
        decreases |cc|, |cc| - k
      {
        assert node.Value() == list[k];
        if clock(n) > node.pts {
          ReleaseNode(node, k);
          node := ccList;
          k := 0;
        } else {
          node := node.next;
          k := k + 1;
        }
        n := n + 1;
      }
    }

    method H264Frame(e: Entry, clock: nat -> int)
      requires Valid() && H264(View(), e, clock).Some?
      modifies this, nodes
      ensures Valid() && Some(View()) == H264(old(View()), e, clock)
    {
      if e.poc == 0 {
        Flush();
      }
      AddCcData(e);
      ReleaseDue(clock);
    }

    /** Writes the entries that continue the temporal references. */
    method DrainNext()
      requires Valid()
      modifies this, nodes`next
      ensures Valid() && View() == Drain(old(View()))
    {
      while ccList != null && currPoc + 1 == ccList.poc
        invariant Valid() && nodes == old(nodes)
        invariant Drain(View()) == Drain(old(View()))
        decreases |cc|
      {
        assert ccList.Value() == list[0];
        TakeHead(ccList, Drained);
        currPoc := currPoc + 1;
      }
      assert ccList != null ==> ccList.Value() == list[0];
    }

    method MpegFrame(e: Entry, isIFrame: bool)
      requires Valid() && Mpeg(View(), e, isIFrame).Some?
      modifies this, nodes
      ensures Valid() && Some(View()) == Mpeg(old(View()), e, isIFrame)
    {
      if |e.payload| < 5 || e.payload[4] != 3 {
        return;
      }
      if isIFrame {
        Flush();
      }
      if e.poc == currPoc + 1 || e.poc == currPoc {
        WriteUserdata(e, Direct);
        currPoc := e.poc;
        DrainNext();
        return;
      }
      AddCcData(e);
    }
  }

}
