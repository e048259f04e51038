/** The registry of display clients: a map from cookies to clients, where a scan with the
    subscript operator adds the cookies it looks at, and a dead client leaves an empty entry. */
module Registry {
  import opened Wrappers

  /** A client is known by its identity. */
  type Client = nat
  type Entries = map<nat, Option<Client>>

  /** The client that the entry of a cookie holds, if any. */
  function At(m: Entries, k: nat): Option<Client> {
    if k in m then m[k] else None
  }

  /** The registrations that are in force. */
  function Live(m: Entries): (l: map<nat, Client>)
    ensures forall k :: k in l <==> At(m, k).Some?
    ensures forall k :: k in l ==> l[k] == At(m, k).value
  {
    map k | k in m && m[k].Some? :: m[k].value
  }

  /** The cookies below `n`. */
  function Below(n: nat): (s: set<nat>)
    ensures forall k: nat :: k in s <==> k < n
    ensures |s| == n
  {
    if n == 0 then {} else Below(n - 1) + {n - 1}
  }

  lemma {:induction false} SubsetIsSmaller<T>(a: set<T>, b: set<T>)
    requires a <= b
    ensures |a| <= |b|
    ensures |a| == |b| ==> a == b
  {
    if a != {} {
      var x :| x in a;
      SubsetIsSmaller(a - {x}, b - {x});
      assert a == (a - {x}) + {x} && b == (b - {x}) + {x};
    }
  }

  /** If all cookies below `n` are in a map that is no larger, it has no others. */
  lemma Pigeonhole(m: Entries, n: nat)
    requires |m| <= n && forall k: nat :: k < n ==> k in m
    ensures forall k :: k in m ==> k < n
  {
    var below, keys := Below(n), m.Keys;
    assert below <= keys;
    SubsetIsSmaller(below, keys);
    assert |keys| == |m|;
    assert below == keys;
  }

  /** A live registration at every cookie below `k`, and none at `k`. */
  ghost predicate IsFirstFree(l: map<nat, Client>, k: nat) {
    k !in l && forall i :: 0 <= i < k ==> i in l
  }

  /** The first free cookie is at most the number of registrations in force. */
  lemma FirstFreeIsSmall(l: map<nat, Client>, k: nat)
    requires IsFirstFree(l, k)
    ensures k <= |l|
  {
    assert Below(k) <= l.Keys;
    SubsetIsSmaller(Below(k), l.Keys);
    assert |l.Keys| == |l|;
  }

  /** The first cookie at which a client is registered. */
  ghost predicate IsFirstOf(l: map<nat, Client>, c: Client, k: nat) {
    k in l && l[k] == c && forall i :: 0 <= i < k && i in l ==> l[i] != c
  }

  predicate IsLeast(s: set<nat>, k: nat) {
    k in s && forall j :: j in s ==> k <= j
  }

  lemma {:induction false} LeastExists(s: set<nat>)
    requires s != {}
    ensures exists k :: IsLeast(s, k)
  {
    var x :| x in s;
    var t := s - {x};
    assert forall j :: j in s ==> j == x || j in t;
    if t == {} {
      assert IsLeast(s, x);
    } else {
      LeastExists(t);
      var y :| IsLeast(t, y);
      assert IsLeast(s, if x < y then x else y);
    }
  }

  ghost predicate Before(a: set<nat>, b: set<nat>) {
    forall j, k :: j in a && k in b ==> j < k
  }

  lemma BeforeNext(keys: set<nat>, left: set<nat>, k: nat)
    requires left <= keys && IsLeast(left, k) && Before(keys - left, left)
    ensures Before(keys - (left - {k}), left - {k})
  {
    forall i, j | i in keys - (left - {k}) && j in left - {k} ensures i < j {
      assert i == k || i in keys - left;
    }
  }

  ghost predicate Bounds(s: set<nat>, b: nat) {
    forall k :: k in s ==> k < b
  }

  lemma {:induction false} BoundExists(s: set<nat>)
    ensures exists b :: Bounds(s, b)
  {
    if s == {} {
      assert Bounds(s, 0);
    } else {
      var x :| x in s;
      var t := s - {x};
      BoundExists(t);
      var b: nat :| Bounds(t, b);
      assert forall j :: j in s ==> j == x || j in t;
      assert Bounds(s, if x < b then b else x + 1);
    }
  }

  class SubtitleServer {
    var clients: Entries
    var fallback: Option<Client>
    var fallbackStarted: bool

    constructor ()
      ensures clients == map[] && fallback == None && !fallbackStarted
    {
      clients, fallback, fallbackStarted := map[], None, false;
    }

    /** The subscript operator adds an empty entry for a cookie that has none. */
    method Subscript(k: nat) returns (c: Option<Client>)
      modifies this`clients
      ensures c == old(At(clients, k))
      ensures clients == if k in old(clients) then old(clients) else old(clients)[k := None]
      ensures Live(clients) == old(Live(clients))
    {
      if k !in clients {
        clients := clients[k := None];
      }
      c := clients[k];
    }

    /** A new client gets the first free cookie; no live registration is overwritten. */
    method SetCallback(callback: Option<Client>) returns (cookie: int)
      modifies this`clients
      ensures callback == None ==> clients == old(clients) && cookie == -1
      ensures callback.Some? ==> cookie >= 0 && IsFirstFree(old(Live(clients)), cookie)
      ensures callback.Some? ==> Live(clients) == old(Live(clients))[cookie := callback.value]
    {
      cookie := -1;
      if callback == None {
        return;
      }
      var clientSize := |clients|;
      for i := 0 to clientSize
        invariant clients == old(clients)
        invariant forall k: nat :: k < i ==> k in clients && clients[k].Some?
        invariant cookie == -1
      {
        var c := Subscript(i);
        if c == None {
          cookie := i;
          clients := clients[i := callback];
          break;
        }
      }
      if cookie < 0 {
        Pigeonhole(clients, clientSize);
        cookie := clientSize;
        clients := clients[clientSize := callback];
      }
    }

    method SetFallbackCallback(callback: Option<Client>)
      modifies this`fallback
      ensures fallback == callback
    {
      fallback := callback;
    }

    /** Looks for a client's entry, in the order of the cookies. */
    method Find(callback: Client) returns (found: Option<nat>)
      ensures found == None ==> callback !in Live(clients).Values
      ensures found.Some? ==> IsFirstOf(Live(clients), callback, found.value)
    {
      var left := clients.Keys;
      while left != {}
        invariant left <= clients.Keys
        invariant Before(clients.Keys - left, left)
        invariant forall k :: k in clients.Keys - left ==> clients[k] != Some(callback)
        decreases |left|
      {
        LeastExists(left);
        var k :| IsLeast(left, k);
        if clients[k] == Some(callback) {
          return Some(k);
        }
        BeforeNext(clients.Keys, left, k);
        left := left - {k};
      }
      return None;
    }

    /** The first registration of the client is erased, and it is no longer the fallback. */
    method RemoveCallback(callback: Option<Client>)
      modifies this`clients, this`fallback
      ensures fallback == if callback.Some? && old(fallback) == callback then None else old(fallback)
      ensures callback == None || callback.value !in old(Live(clients)).Values ==> clients == old(clients)
      ensures callback.Some? && callback.value in old(Live(clients)).Values ==>
                exists k :: IsFirstOf(old(Live(clients)), callback.value, k) && clients == old(clients) - {k}
    {
      if callback == None {
        return;
      }
      if fallback == callback {
        fallback := None;
      }
      var found := Find(callback.value);
      if found.Some? {
        clients := clients - {found.value};
      }
    }

    /** The death notice of a registration in force empties its entry. */
    method HandleServiceDeath(cookie: nat)
      requires At(clients, cookie).Some?
      modifies this`clients
      ensures clients == old(clients)[cookie := None]
      ensures Live(clients) == old(Live(clients)) - {cookie}
    {
      clients := clients[cookie := None];
    }

    /** The cookies whose clients are called, in order. */
    method SendSubtitleDisplayNotify() returns (called: seq<nat>, toFallback: bool)
      modifies this`clients
      ensures toFallback == (fallbackStarted && fallback.Some?)
      ensures toFallback ==> called == [] && clients == old(clients)
      ensures Live(clients) == old(Live(clients))
      ensures !toFallback ==> EachOnce(called, Live(clients))
    {
      called := [];
      toFallback := fallbackStarted && fallback.Some?;
      if toFallback {
        return;
      }
      var i := 0;
      BoundExists(clients.Keys);
      ghost var bound: nat :| Bounds(clients.Keys, bound);
      while i < |clients|
        invariant Live(clients) == old(Live(clients))
        invariant forall k: nat :: k < i ==> k in clients
        invariant Bounds(clients.Keys, bound)
        invariant forall a, b :: 0 <= a < b < |called| ==> called[a] < called[b]
        invariant forall a :: 0 <= a < |called| ==> called[a] < i
        invariant forall k :: k in called <==> k < i && k in Live(clients)
        decreases bound - i
      {
        SomeKeyAhead(clients, i);
        var c := Subscript(i);
        if c.Some? {
          called := called + [i];
        }
        i := i + 1;
      }
      Pigeonhole(clients, i);
    }
  }

  /** The list has the live cookies, each at one place, in order. */
  ghost predicate EachOnce(called: seq<nat>, l: map<nat, Client>) {
    && (forall k :: k in called <==> k in l)
    && (forall a, b :: 0 <= a < b < |called| ==> called[a] < called[b])
  }

  /** While the scan has not reached the size, a cookie lies ahead. */
  lemma SomeKeyAhead(m: Entries, i: nat)
    requires i < |m|
    ensures exists k :: k in m && k >= i
  {
    var keys, below := m.Keys, Below(i);
    SubsetIsSmaller(keys * below, below);
    assert |keys| == |m|;
    assert keys == keys * below + (keys - below);
    assert keys - below != {};
    var k :| k in keys - below;
    assert k in m && k >= i;
  }

  // ---- Runs ----

  datatype Op = Register(client: Client) | Remove(client: Client) | Death(cookie: nat) | Notify

  /** What each operation does to the registrations in force, as the methods above ensure. */
  ghost predicate Step(l: map<nat, Client>, op: Op, m: map<nat, Client>) {
    match op
    case Register(c) => exists k :: IsFirstFree(l, k) && m == l[k := c]
    case Remove(c) => if c in l.Values then exists k :: IsFirstOf(l, c, k) && m == l - {k} else m == l
    case Death(k) => k in l && m == l - {k}
    case Notify => m == l
  }

  ghost predicate IsRun(ls: seq<map<nat, Client>>, ops: seq<Op>) {
    && |ls| == |ops| + 1
    && forall i :: 0 <= i < |ops| ==> Step(ls[i], ops[i], ls[i+1])
  }

  /** Over every run, a registration stays in force, under its cookie and with its client, until
      the client is removed or its death is noticed. */
  lemma {:induction false} StaysRegistered(ls: seq<map<nat, Client>>, ops: seq<Op>, i: nat, j: nat, k: nat)
    requires IsRun(ls, ops) && i <= j <= |ops| && k in ls[i]
    requires forall n :: i <= n < j ==> ops[n] != Death(k) && ops[n] != Remove(ls[i][k])
    ensures k in ls[j] && ls[j][k] == ls[i][k]
  {
    if i < j {
      StaysRegistered(ls, ops, i, j - 1, k);
      assert Step(ls[j-1], ops[j-1], ls[j]);
    }
  }

  /** The operations that took a registration out of force. */
  function Departures(ls: seq<map<nat, Client>>, ops: seq<Op>, n: nat): nat
    requires n <= |ops| && |ls| == |ops| + 1
  {
    if n == 0 then 0
    else Departures(ls, ops, n - 1) + if |ls[n]| < |ls[n-1]| then 1 else 0
  }

  function Registrations(ops: seq<Op>, n: nat): nat
    requires n <= |ops|
  {
    if n == 0 then 0 else Registrations(ops, n - 1) + if ops[n-1].Register? then 1 else 0
  }

  lemma OneLess(l: map<nat, Client>, k: nat)
    requires k in l
    ensures |l - {k}| == |l| - 1
  {
    assert l == (l - {k})[k := l[k]];
  }

  /** Over every run from the start, every registration made is in force or was taken out by one
      removal or one death. */
  lemma {:induction false} RegistrationsAreConserved(ls: seq<map<nat, Client>>, ops: seq<Op>, n: nat)
    requires IsRun(ls, ops) && n <= |ops| && ls[0] == map[]
    ensures |ls[n]| + Departures(ls, ops, n) == Registrations(ops, n)
  {
    if n > 0 {
      RegistrationsAreConserved(ls, ops, n - 1);
      var l, m := ls[n-1], ls[n];
      assert Step(l, ops[n-1], m);
      match ops[n-1]
      case Register(c) =>
      case Remove(c) =>
        if c in l.Values {
          var k :| IsFirstOf(l, c, k) && m == l - {k};
          OneLess(l, k);
        }
      case Death(k) => OneLess(l, k);
      case Notify =>
    }
  }

}
