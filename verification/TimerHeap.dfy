/**
  The heap of timers: four children to a node, entries with a cached time, and in every
  watcher the index of its entry.  Index `i` here is array index `i + HEAP0` of the event
  loop, which leaves the first three cells unused.
 */
module TimerHeap {
  import opened Names

  const DHEAP := 4
  const HEAP0 := 3

  /** A heap element: a watcher's identity and its cached time. */
  datatype Entry = Entry(w: nat, at: real)

  /** What a timer watcher holds; `active` is 0 or its array index in the heap, `pending` 0 or its place in a queue. */
  datatype Watcher = Watcher(at: real, repeat: real, active: nat, pending: nat, pri: nat)

  /** The parent of an entry other than the root. */
  function Parent(i: nat): nat
    requires i > 0
  {
    (i - 1) / DHEAP
  }

  ghost predicate EdgeOk(h: seq<Entry>, i: nat)
    requires i < |h|
  {
    i == 0 || h[Parent(i)].at <= h[i].at
  }

  /** The first `n` entries are in heap order. */
  ghost predicate Ordered(h: seq<Entry>, n: nat) {
    n <= |h| && forall i {:trigger EdgeOk(h, i)} :: 0 <= i < n ==> EdgeOk(h, i)
  }

  /** Every entry but the ones next to `k` is in order, and going past `k` is in order too. */
  ghost predicate OrderedAround(h: seq<Entry>, n: nat, k: nat, up: bool, down: bool) {
    && k < n <= |h|
    && (forall i {:trigger EdgeOk(h, i)} :: 0 <= i < n && (up || i != k) && (down || i == 0 || Parent(i) != k) ==>
         EdgeOk(h, i))
    && (forall i {:trigger PastOk(h, k, i)} :: 0 < i < n && Parent(i) == k ==> PastOk(h, k, i))
  }

  ghost predicate PastOk(h: seq<Entry>, k: nat, i: nat)
    requires k < |h| && i < |h|
  {
    k == 0 || h[Parent(k)].at <= h[i].at
  }

  /** No two entries are of the same watcher. */
  ghost predicate OneEach(h: seq<Entry>) {
    forall i, j :: 0 <= i < j < |h| ==> h[i].w != h[j].w
  }

  /** The first `n` entries but the `k`-th are where their watchers say. */
  ghost predicate Linked(h: seq<Entry>, ws: seq<Watcher>, n: nat, k: int) {
    n <= |h| && forall i :: 0 <= i < n && i != k ==> h[i].w < |ws| && ws[h[i].w].active == i + HEAP0
  }

  ghost function Owners(h: seq<Entry>, n: nat): set<nat>
    requires n <= |h|
  {
    set i | 0 <= i < n :: h[i].w
  }

  /** Only the `active` fields of the watchers in `s` may differ. */
  ghost predicate OnlyMoved(ws: seq<Watcher>, ws': seq<Watcher>, s: set<nat>) {
    |ws'| == |ws| && forall x :: 0 <= x < |ws| ==> ws'[x] == if x in s then ws[x].(active := ws'[x].active) else ws[x]
  }

  function Swap(h: seq<Entry>, a: nat, b: nat): seq<Entry>
    requires a < |h| && b < |h|
  {
    h[a := h[b]][b := h[a]]
  }

  lemma SwapIsPermutation(h: seq<Entry>, a: nat, b: nat)
    requires a < |h| && b < |h|
    ensures multiset(Swap(h, a, b)) == multiset(h)
  {
  }

  lemma SwapOneEach(h: seq<Entry>, a: nat, b: nat)
    requires a < |h| && b < |h| && OneEach(h)
    ensures OneEach(Swap(h, a, b))
  {
  }

  /** Moving an entry up past a later parent. */
  lemma SwapUp(h: seq<Entry>, n: nat, k: nat)
    requires OrderedAround(h, n, k, false, true) && k > 0 && h[Parent(k)].at > h[k].at
    ensures OrderedAround(Swap(h, k, Parent(k)), n, Parent(k), false, true)
  {
    var p := Parent(k);
    var g := Swap(h, k, p);
    forall i | 0 <= i < n && i != p ensures EdgeOk(g, i) {
      assert i != k ==> EdgeOk(h, i);
      if 0 < i && Parent(i) == k { assert PastOk(h, k, i); }
    }
    forall i | 0 < i < n && Parent(i) == p ensures PastOk(g, p, i) {
      assert p != k && EdgeOk(h, p);
      assert i != k ==> EdgeOk(h, i);
    }
  }

  /** Moving an entry down past its earliest child. */
  lemma SwapDown(h: seq<Entry>, n: nat, k: nat, m: nat)
    requires OrderedAround(h, n, k, true, false) && 0 < m < n && Parent(m) == k && h[m].at < h[k].at
    requires forall i :: 0 < i < n && Parent(i) == k ==> h[m].at <= h[i].at
    ensures OrderedAround(Swap(h, k, m), n, m, true, false)
  {
    var g := Swap(h, k, m);
    forall i | 0 <= i < n && (i == 0 || Parent(i) != m) ensures EdgeOk(g, i) {
      if i == 0 || Parent(i) != k { assert EdgeOk(h, i); }
      if i == k { assert PastOk(h, k, m); }
    }
    forall i | 0 < i < n && Parent(i) == m ensures PastOk(g, m, i) {
      assert EdgeOk(h, i);
    }
  }

  /** An entry that is no earlier than its parent is in place. */
  lemma UpDone(h: seq<Entry>, n: nat, k: nat)
    requires OrderedAround(h, n, k, false, true) && (k == 0 || h[Parent(k)].at <= h[k].at)
    ensures Ordered(h, n)
  {
    forall i | 0 <= i < n ensures EdgeOk(h, i) {
      if i == k { assert k == 0 || h[Parent(k)].at <= h[k].at; }
    }
  }

  /** An entry that is no later than its children is in place. */
  lemma DownDone(h: seq<Entry>, n: nat, k: nat)
    requires OrderedAround(h, n, k, true, false) && forall i :: 0 < i < n && Parent(i) == k ==> h[k].at <= h[i].at
    ensures Ordered(h, n)
  {
    forall i | 0 <= i < n ensures EdgeOk(h, i) {
      if i > 0 && Parent(i) == k { assert h[k].at <= h[i].at; }
    }
  }

  /** In a heap the root is the earliest. */
  lemma {:induction false} RootIsEarliest(h: seq<Entry>, n: nat, i: nat)
    requires Ordered(h, n) && i < n
    ensures h[0].at <= h[i].at
    decreases i
  {
    if i != 0 {
      assert EdgeOk(h, i);
      RootIsEarliest(h, n, Parent(i));
    }
  }

  /** The children of `k` are the indices 4k + 1 to 4k + 4. */
  lemma ChildrenOf(k: nat, i: nat)
    requires i > 0
    ensures Parent(i) == k <==> DHEAP * k + 1 <= i <= DHEAP * k + DHEAP
  {
  }

  /** The search for the earliest child: on the fast path all four exist. */
  method EarliestChild(h: seq<Entry>, n: nat, k: nat) returns (m: nat)
    requires k < n <= |h|
    ensures EarliestOf(h, n, k, m)
  {
    forall i | 0 < i < n ensures Parent(i) == k <==> DHEAP * k + 1 <= i <= DHEAP * k + DHEAP { ChildrenOf(k, i); }
    var pos := DHEAP * k + 1;
    if pos + DHEAP - 1 < n {
      m := pos;
      if h[pos + 1].at < h[m].at { m := pos + 1; }
      if h[pos + 2].at < h[m].at { m := pos + 2; }
      if h[pos + 3].at < h[m].at { m := pos + 3; }
    } else if pos < n {
      m := pos;
      if pos + 1 < n && h[pos + 1].at < h[m].at { m := pos + 1; }
      if pos + 2 < n && h[pos + 2].at < h[m].at { m := pos + 2; }
      // a fourth child is only there on the fast path
    } else {
      m := 0;
    }
  }

  // ---- Moving the hole ---------------------------------------------------------------------

  /** `h'` and `ws'` come from `h` and `ws` by moving entries among the first `n`, which are now in order and linked. */
  ghost predicate Settled(h: seq<Entry>, ws: seq<Watcher>, n: nat, h': seq<Entry>, ws': seq<Watcher>)
    requires n <= |h|
  {
    && |h'| == |h| && multiset(h') == multiset(h) && h'[n..] == h[n..] && OneEach(h')
    && Ordered(h', n) && Linked(h', ws', n, -1) && OnlyMoved(ws, ws', Owners(h, n))
  }

  /**
    The hole is at `k` and `he` is what goes there in the end: `v`, the heap with the hole filled, has only
    moved entries among the first `n`, and all but the `k`-th are linked.
   */
  ghost predicate Moving(h: seq<Entry>, ws: seq<Watcher>, n: nat, v: seq<Entry>, ws': seq<Watcher>, k: nat)
    requires n <= |h|
  {
    && k < n && |v| == |h| && multiset(v) == multiset(h) && v[n..] == h[n..] && OneEach(v)
    && Linked(v, ws', n, k) && OnlyMoved(ws, ws', Owners(h, n))
    && (forall i :: 0 <= i < n ==> v[i].w in Owners(h, n) && v[i].w < |ws|)
  }

  /** The entry at `from` moves into the hole, and the hole moves there. */
  lemma MoveHole(h: seq<Entry>, ws: seq<Watcher>, n: nat, v: seq<Entry>, ws': seq<Watcher>, k: nat, from: nat)
    requires n <= |h| && Moving(h, ws, n, v, ws', k) && from < n && from != k && |ws'| == |ws|
    ensures v[from].w < |ws'|
    ensures Moving(h, ws, n, Swap(v, k, from), ws'[v[from].w := ws'[v[from].w].(active := k + HEAP0)], from)
  {
    SwapIsPermutation(v, k, from);
    SwapOneEach(v, k, from);
    assert Swap(v, k, from)[n..] == v[n..];
  }

  /** Filling the hole. */
  lemma FillHole(h: seq<Entry>, ws: seq<Watcher>, n: nat, v: seq<Entry>, ws': seq<Watcher>, k: nat)
    requires n <= |h| && Moving(h, ws, n, v, ws', k) && Ordered(v, n) && |ws'| == |ws|
    ensures v[k].w < |ws'|
    ensures Settled(h, ws, n, v, ws'[v[k].w := ws'[v[k].w].(active := k + HEAP0)])
  {
  }

  lemma StartMoving(h: seq<Entry>, ws: seq<Watcher>, n: nat, k: nat)
    requires k < n <= |h| && OneEach(h) && Linked(h, ws, n, k) && h[k].w < |ws|
    ensures Moving(h, ws, n, h, ws, k)
  {
  }

  /** A loop of moves: `he` is to go into the hole at `k`, towards the root if `up`. */
  ghost predicate Hole(h: seq<Entry>, ws: seq<Watcher>, n: nat, t: seq<Entry>, ws': seq<Watcher>, he: Entry, k: nat,
                       up: bool) {
    && n <= |h| && k < n && |t| == |h| && |ws'| == |ws|
    && Moving(h, ws, n, t[k := he], ws', k) && OrderedAround(t[k := he], n, k, !up, up)
  }

  lemma HoleStart(h: seq<Entry>, ws: seq<Watcher>, n: nat, k: nat, up: bool)
    requires OrderedAround(h, n, k, !up, up) && OneEach(h) && Linked(h, ws, n, k) && h[k].w < |ws|
    ensures Hole(h, ws, n, h, ws, h[k], k, up)
  {
    assert h[k := h[k]] == h;
    StartMoving(h, ws, n, k);
  }

  /** The heap with the hole filled, before and after the entry at `from` has moved into it. */
  lemma SwapAsMove(t: seq<Entry>, he: Entry, k: nat, from: nat)
    requires k < |t| && from < |t| && k != from
    ensures Swap(t[k := he], k, from) == t[k := t[from]][from := he] && t[k := he][from] == t[from]
  {
  }

  lemma HoleUp(h: seq<Entry>, ws: seq<Watcher>, n: nat, t: seq<Entry>, ws': seq<Watcher>, he: Entry, k: nat)
    requires Hole(h, ws, n, t, ws', he, k, true) && k > 0 && t[Parent(k)].at > he.at
    ensures t[Parent(k)].w < |ws'|
    ensures Hole(h, ws, n, t[k := t[Parent(k)]], Repoint(ws', t[Parent(k)].w, k), he, Parent(k), true)
  {
    var p := Parent(k);
    SwapAsMove(t, he, k, p);
    SwapUp(t[k := he], n, k);
    MoveHole(h, ws, n, t[k := he], ws', k, p);
  }

  lemma HoleDown(h: seq<Entry>, ws: seq<Watcher>, n: nat, t: seq<Entry>, ws': seq<Watcher>, he: Entry, k: nat, m: nat)
    requires Hole(h, ws, n, t, ws', he, k, false) && EarliestOf(t, n, k, m) && m != 0 && t[m].at < he.at
    ensures m > k && t[m].w < |ws'|
    ensures Hole(h, ws, n, t[k := t[m]], Repoint(ws', t[m].w, k), he, m, false)
  {
    ChildrenOf(k, m);
    SwapAsMove(t, he, k, m);
    EarliestAround(t, he, n, k, m);
    SwapDown(t[k := he], n, k, m);
    MoveHole(h, ws, n, t[k := he], ws', k, m);
  }

  /** What is in the hole does not matter for which child is earliest. */
  lemma EarliestAround(t: seq<Entry>, he: Entry, n: nat, k: nat, m: nat)
    requires k < n <= |t| && EarliestOf(t, n, k, m)
    ensures EarliestOf(t[k := he], n, k, m)
  {
    forall i | 0 < i < n && Parent(i) == k ensures i != k { ChildrenOf(k, i); }
    if m != 0 { ChildrenOf(k, m); }
  }

  lemma HoleDone(h: seq<Entry>, ws: seq<Watcher>, n: nat, t: seq<Entry>, ws': seq<Watcher>, he: Entry, k: nat, up: bool)
    requires Hole(h, ws, n, t, ws', he, k, up) && Ordered(t[k := he], n)
    ensures he.w < |ws'| && Settled(h, ws, n, t[k := he], Repoint(ws', he.w, k))
  {
    FillHole(h, ws, n, t[k := he], ws', k);
  }

  /** A watcher's back-pointer set to heap index `k`. */
  function Repoint(ws: seq<Watcher>, w: nat, k: nat): seq<Watcher>
    requires w < |ws|
  {
    ws[w := ws[w].(active := k + HEAP0)]
  }

  /** A place in a queue of events to deliver; a cleared one belongs to no watcher. */
  datatype Pending = Pending(w: Option<nat>, events: set<nat>)

  class EventLoop {
    var timers: seq<Entry>
    var ws: seq<Watcher>
    var now: real
    /** One queue for each priority. */
    var pendings: seq<seq<Pending>>
    var rfeeds: seq<nat>

    /** No timer is active, and nothing is pending. */
    constructor (ws: seq<Watcher>, now: real, priorities: nat)
      requires forall x :: 0 <= x < |ws| ==> ws[x].active == 0 && ws[x].pending == 0 && ws[x].pri < priorities
      ensures timers == [] && this.ws == ws && this.now == now && rfeeds == []
      ensures |pendings| == priorities && forall p :: 0 <= p < priorities ==> pendings[p] == []
    {
      this.ws, this.now := ws, now;
      timers, rfeeds := [], [];
      pendings := seq(priorities, _ => []);
    }

    /** `upheap`: towards the root. */
    method UpHeap(start: nat, ghost n: nat)
      requires OrderedAround(timers, n, start, false, true) && Linked(timers, ws, n, start) && OneEach(timers)
      requires timers[start].w < |ws|
      modifies this`timers, this`ws
      ensures Settled(old(timers), old(ws), n, timers, ws)
    {
      var k: nat, he := start, timers[start];
      HoleStart(timers, ws, n, k, true);
      while k > 0 && timers[Parent(k)].at > he.at
        invariant 0 <= k && Hole(old(timers), old(ws), n, timers, ws, he, k, true)
      {
        HoleUp(old(timers), old(ws), n, timers, ws, he, k);
        ws := Repoint(ws, timers[Parent(k)].w, k);
        timers := timers[k := timers[Parent(k)]];
        k := Parent(k);
      }
      UpDone(timers[k := he], n, k);
      HoleDone(old(timers), old(ws), n, timers, ws, he, k, true);
      timers := timers[k := he];
      ws := Repoint(ws, he.w, k);
    }

    /** `downheap`: away from the root. */
    method DownHeap(n: nat, start: nat)
      requires OrderedAround(timers, n, start, true, false) && Linked(timers, ws, n, start) && OneEach(timers)
      requires timers[start].w < |ws|
      modifies this`timers, this`ws
      ensures Settled(old(timers), old(ws), n, timers, ws)
    {
      var k: nat, he := start, timers[start];
      HoleStart(timers, ws, n, k, false);
      var m: nat := EarliestChild(timers, n, k);
      while m != 0 && he.at > timers[m].at
        invariant 0 <= k && 0 <= m && Hole(old(timers), old(ws), n, timers, ws, he, k, false)
        invariant EarliestOf(timers, n, k, m)
        decreases n - k
      {
        HoleDown(old(timers), old(ws), n, timers, ws, he, k, m);
        ws := Repoint(ws, timers[m].w, k);
        timers := timers[k := timers[m]];
        k := m;
        m := EarliestChild(timers, n, k);
      }
      EarliestAround(timers, he, n, k, m);
      DownDone(timers[k := he], n, k);
      HoleDone(old(timers), old(ws), n, timers, ws, he, k, false);
      timers := timers[k := he];
      ws := Repoint(ws, he.w, k);
    }

    /** `adjustheap`: an entry whose time has changed goes to where it belongs. */
    method AdjustHeap(n: nat, k: nat)
      requires OrderedAround(timers, n, k, false, false) && Linked(timers, ws, n, k) && OneEach(timers)
      requires timers[k].w < |ws|
      modifies this`timers, this`ws
      ensures Settled(old(timers), old(ws), n, timers, ws)
    {
      EitherWay(timers, n, k);
      if k > 0 && timers[k].at <= timers[Parent(k)].at {
        UpHeap(k, n);
      } else {
        DownHeap(n, k);
      }
    }

    /** `reheap`: whatever order the entries are in, a heap of the same entries, with all back-pointers right. */
    method ReHeap()
      requires OneEach(timers) && forall i :: 0 <= i < |timers| ==> timers[i].w < |ws|
      modifies this`timers, this`ws
      ensures Settled(old(timers), old(ws), |old(timers)|, timers, ws)
    {
      var i := 0;
      var n := |timers|;
      while i < n
        invariant 0 <= i <= n == |timers| && multiset(timers) == multiset(old(timers)) && OneEach(timers)
        invariant Ordered(timers, i) && Linked(timers, ws, i, -1) && OnlyMoved(old(ws), ws, Owners(old(timers), n))
      {
        ghost var was, wasWs := timers, ws;
        OneMoreEntry(timers, ws, i);
        InHeap(old(timers), timers, i);
        UpHeap(i, i + 1);
        MovedOn(old(timers), old(ws), was, wasWs, ws, i + 1);
        i := i + 1;
      }
      assert timers[n..] == old(timers)[n..];
    }
  }

  /** Entries of a heap with the same entries are entries of it. */
  lemma InHeap(h: seq<Entry>, g: seq<Entry>, i: nat)
    requires multiset(g) == multiset(h) && i < |g|
    ensures exists j :: 0 <= j < |h| && h[j] == g[i]
  {
    assert g[i] in multiset(g);
    assert g[i] in multiset(h);
    assert g[i] in h;
  }

  lemma OneMoreEntry(h: seq<Entry>, ws: seq<Watcher>, i: nat)
    requires i < |h| && Ordered(h, i) && Linked(h, ws, i, -1)
    ensures OrderedAround(h, i + 1, i, false, true) && Linked(h, ws, i + 1, i)
  {
    forall c | 0 < c < i + 1 ensures Parent(c) != i {}
  }

  lemma MovedOn(h: seq<Entry>, ws: seq<Watcher>, g: seq<Entry>, ws1: seq<Watcher>, ws2: seq<Watcher>, n: nat)
    requires multiset(g) == multiset(h) && |g| == |h| && n <= |g|
    requires OnlyMoved(ws, ws1, Owners(h, |h|)) && OnlyMoved(ws1, ws2, Owners(g, n))
    ensures OnlyMoved(ws, ws2, Owners(h, |h|))
  {
    forall x | x in Owners(g, n) ensures x in Owners(h, |h|) {
      var i :| 0 <= i < n && g[i].w == x;
      InHeap(h, g, i);
    }
  }

  /** Where only the order next to `k` is in doubt, comparing with the parent decides which way to go. */
  lemma EitherWay(h: seq<Entry>, n: nat, k: nat)
    requires OrderedAround(h, n, k, false, false)
    ensures k > 0 && h[k].at <= h[Parent(k)].at ==> OrderedAround(h, n, k, false, true)
    ensures !(k > 0 && h[k].at <= h[Parent(k)].at) ==> OrderedAround(h, n, k, true, false)
  {
    if k > 0 && h[k].at <= h[Parent(k)].at {
      forall i | 0 <= i < n && i != k ensures EdgeOk(h, i) {
        if i > 0 && Parent(i) == k { assert PastOk(h, k, i); }
      }
    } else {
      forall i | 0 <= i < n && (i == 0 || Parent(i) != k) ensures EdgeOk(h, i) {
      }
    }
  }

  /** `m` is the earliest child of `k`, or 0 if it has none. */
  ghost predicate EarliestOf(h: seq<Entry>, n: nat, k: nat, m: nat)
    requires k < n <= |h|
  {
    if m == 0 then forall i :: 0 < i < n ==> Parent(i) != k
    else m < n && Parent(m) == k && forall i :: 0 < i < n && Parent(i) == k ==> h[m].at <= h[i].at
  }
}
