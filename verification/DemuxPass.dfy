/** What one pass of the data thread does: it calls every filter that has data, once and in
    order, whatever the client threads do meanwhile. */
module DemuxPass {
  import opened Wrappers
  import opened DemuxProtocol

  // ---- Runs as the states they go through ----

  predicate Stepped(states: seq<Dev>, ls: seq<Label>, j: nat)
    requires j < |ls| && |states| == |ls| + 1
  {
    |states[j].filters| == FILTER_COUNT && Enabled(states[j], ls[j]) && states[j + 1] == Apply(states[j], ls[j])
  }

  /** The states before and after each step, from opening the device on. */
  ghost predicate IsRun(states: seq<Dev>, ls: seq<Label>) {
    && |states| == |ls| + 1 && states[0] == OPENED
    && forall j {:trigger Stepped(states, ls, j)} :: 0 <= j < |ls| ==> Stepped(states, ls, j)
  }

  /** Every execution goes through such states. */
  lemma {:induction false} EveryRunHasStates(ls: seq<Label>) returns (states: seq<Dev>)
    requires Exec(OPENED, ls).Some?
    ensures IsRun(states, ls) && states[|ls|] == Exec(OPENED, ls).value
  {
    states := [OPENED];
    if ls != [] {
      var front := ls[..|ls|-1];
      var before := EveryRunHasStates(front);
      states := before + [Exec(OPENED, ls).value];
      LastStep(before, front, states, ls);
    }
  }

  lemma LastStep(before: seq<Dev>, front: seq<Label>, states: seq<Dev>, ls: seq<Label>)
    requires IsRun(before, front) && |ls| == |front| + 1 && ls[..|front|] == front
    requires |states| == |before| + 1 && states[..|before|] == before
    requires Stepped(states, ls, |front|)
    ensures IsRun(states, ls)
  {
    forall j | 0 <= j < |ls| ensures Stepped(states, ls, j) {
      if j < |front| {
        assert Stepped(before, front, j);
        assert states[j] == before[j] && states[j + 1] == before[j + 1] && ls[j] == front[j];
      }
    }
  }

  lemma {:induction false} InvAt(states: seq<Dev>, ls: seq<Label>, j: nat)
    requires IsRun(states, ls) && j <= |ls|
    ensures Inv(states[j])
  {
    if j > 0 {
      InvAt(states, ls, j - 1);
      assert Stepped(states, ls, j - 1);
      StepKeepsInv(states[j - 1], ls[j - 1]);
    }
  }

  // ---- During a pass ----

  /** The filter whose callback a step calls. */
  function CallOf(s: Dev, l: Label): seq<nat> {
    if l.Call? && s.pc.HaveCb? then [s.pc.id] else []
  }

  /** The filters whose callbacks are called from step `i` up to step `k`, in order. */
  function CalledIn(states: seq<Dev>, ls: seq<Label>, i: nat, k: nat): seq<nat>
    requires k <= |ls| < |states|
  {
    if k <= i then [] else CalledIn(states, ls, i, k - 1) + CallOf(states[k - 1], ls[k - 1])
  }

  predicate Increasing(c: seq<nat>) {
    forall a, b :: 0 <= a < b < |c| ==> c[a] < c[b]
  }

  lemma IncreasingNext(c: seq<nat>, x: nat)
    requires Increasing(c) && forall y :: y in c ==> y < x
    ensures Increasing(c + [x])
  {
    forall a, b | 0 <= a < b < |c| + 1 ensures (c + [x])[a] < (c + [x])[b] {
      assert c[a] in c;
    }
  }

  /** The filters below this one were dealt with. */
  function Limit(pc: Pc): nat
    requires pc != Polling
  {
    if pc.InCb? then pc.id + 1 else pc.id
  }

  /** In a pass over `mask`, in which the filters `c` were called so far. */
  predicate InPass(s: Dev, mask: set<nat>, c: seq<nat>) {
    && s.pc != Polling && s.pc.mask == mask && Increasing(c)
    && (forall x :: x in c ==> x in mask && x < Limit(s.pc))
    && (!s.pc.Scan? ==> s.pc.id in mask)
  }

  /** The filter is started and has a callback, and the step does not fail to read it. */
  predicate ReadyAt(s: Dev, l: Label, f: nat) {
    && f < |s.filters| && s.filters[f].used && s.filters[f].enable && s.filters[f].hasCb
    && !(l == Take(Failed) && s.pc.WantLock? && s.pc.id == f)
  }

  predicate Served(s: Dev, c: seq<nat>, f: nat)
    requires s.pc != Polling
  {
    f < Limit(s.pc) ==> f in c
  }

  lemma PassStep(s: Dev, l: Label, mask: set<nat>, c: seq<nat>)
    requires Inv(s) && Enabled(s, l) && l != EndPass && InPass(s, mask, c)
    ensures InPass(Apply(s, l), mask, c + CallOf(s, l))
  {
    if l.Call? {
      IncreasingNext(c, s.pc.id);
    } else {
      assert c + [] == c;
    }
  }

  lemma ServedStep(s: Dev, l: Label, mask: set<nat>, c: seq<nat>, f: nat)
    requires Inv(s) && Enabled(s, l) && l != EndPass && InPass(s, mask, c)
    requires f in mask && ReadyAt(s, l, f) && Served(s, c, f)
    ensures Apply(s, l).pc != Polling && Served(Apply(s, l), c + CallOf(s, l), f)
  {
  }

  /** Steps `i` to `k` of the run are one pass: a poll that found data for `mask`, and its end. */
  predicate IsPass(ls: seq<Label>, i: nat, k: nat, mask: set<nat>) {
    && i < k < |ls| && ls[i] == Poll(mask) && ls[k] == EndPass
    && forall j :: i < j < k ==> ls[j] != EndPass
  }

  lemma {:induction false} DuringPass(states: seq<Dev>, ls: seq<Label>, i: nat, k: nat, mask: set<nat>, j: nat)
    requires IsRun(states, ls) && IsPass(ls, i, k, mask) && i < j <= k
    ensures InPass(states[j], mask, CalledIn(states, ls, i, j))
  {
    assert Stepped(states, ls, j - 1);
    if j == i + 1 {
      assert CalledIn(states, ls, i, i) == [];
    } else {
      DuringPass(states, ls, i, k, mask, j - 1);
      InvAt(states, ls, j - 1);
      PassStep(states[j - 1], ls[j - 1], mask, CalledIn(states, ls, i, j - 1));
    }
  }

  /** So it is at every step of the pass. */
  predicate ReadyThroughout(states: seq<Dev>, ls: seq<Label>, i: nat, k: nat, f: nat)
    requires k <= |ls| < |states|
  {
    forall j :: i < j < k ==> ReadyAt(states[j], ls[j], f)
  }

  lemma {:induction false} ServedDuringPass(states: seq<Dev>, ls: seq<Label>, i: nat, k: nat, mask: set<nat>,
                                            f: nat, j: nat)
    requires IsRun(states, ls) && IsPass(ls, i, k, mask) && i < j <= k
    requires f in mask && ReadyThroughout(states, ls, i, k, f)
    ensures states[j].pc != Polling && Served(states[j], CalledIn(states, ls, i, j), f)
  {
    assert Stepped(states, ls, j - 1);
    if j > i + 1 {
      DuringPass(states, ls, i, k, mask, j - 1);
      ServedDuringPass(states, ls, i, k, mask, f, j - 1);
      InvAt(states, ls, j - 1);
      ServedStep(states[j - 1], ls[j - 1], mask, CalledIn(states, ls, i, j - 1), f);
    }
  }

  /** A pass calls each filter at most once, in the order of their numbers, and only those for
      which there was data. */
  lemma PassCallsInOrder(states: seq<Dev>, ls: seq<Label>, i: nat, k: nat, mask: set<nat>)
    requires IsRun(states, ls) && IsPass(ls, i, k, mask)
    ensures Increasing(CalledIn(states, ls, i, k)) && forall x :: x in CalledIn(states, ls, i, k) ==> x in mask
  {
    DuringPass(states, ls, i, k, mask, k);
  }

  /** A pass calls every filter for which there is data and which stays ready, whatever the other
      filters and the client threads do. */
  lemma PassServesAll(states: seq<Dev>, ls: seq<Label>, i: nat, k: nat, mask: set<nat>, f: nat)
    requires IsRun(states, ls) && IsPass(ls, i, k, mask)
    requires f in mask && f < FILTER_COUNT && ReadyThroughout(states, ls, i, k, f)
    ensures f in CalledIn(states, ls, i, k)
  {
    ServedDuringPass(states, ls, i, k, mask, f, k);
    assert Stepped(states, ls, k);
  }

}
