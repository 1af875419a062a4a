/**
  Timers: starting, stopping and restarting them, and delivering the ones whose time has
  come.  Times are exact numbers.
 */
module Timers {
  import opened Names
  import opened TimerHeap

  // ---- What always holds ---------------------------------------------------------------------

  /** Every cached time is its watcher's time. */
  ghost predicate Cached(h: seq<Entry>, ws: seq<Watcher>) {
    forall i :: 0 <= i < |h| ==> h[i].w < |ws| && h[i].at == ws[h[i].w].at
  }

  /** The watchers in the heap are the active ones; nothing is said of `except`. */
  ghost predicate Accounted(h: seq<Entry>, ws: seq<Watcher>, except: int) {
    forall x {:trigger ws[x].active} :: 0 <= x < |ws| && x != except ==> (ws[x].active > 0 <==> x in Owners(h, |h|))
  }

  ghost predicate HeapOk(h: seq<Entry>, ws: seq<Watcher>) {
    OneEach(h) && Ordered(h, |h|) && Linked(h, ws, |h|, -1) && Cached(h, ws)
  }

  /** A watcher's `pending` is its place in its priority's queue, and every place is its watcher's. */
  ghost predicate QueuesOk(qs: seq<seq<Pending>>, ws: seq<Watcher>) {
    && (forall x {:trigger PlaceOk(qs, ws, x)} :: 0 <= x < |ws| ==> PlaceOk(qs, ws, x))
    && (forall p, i {:trigger qs[p][i]} :: 0 <= p < |qs| && 0 <= i < |qs[p]| && qs[p][i].w.Some? ==>
          qs[p][i].w.value < |ws| && ws[qs[p][i].w.value].pri == p && ws[qs[p][i].w.value].pending == i + 1)
  }

  ghost predicate PlaceOk(qs: seq<seq<Pending>>, ws: seq<Watcher>, x: nat)
    requires x < |ws|
  {
    ws[x].pri < |qs| && ws[x].pending <= |qs[ws[x].pri]| &&
    (ws[x].pending > 0 ==> qs[ws[x].pri][ws[x].pending - 1].w == Some(x))
  }

  ghost predicate RepeatsOk(ws: seq<Watcher>) {
    forall x :: 0 <= x < |ws| ==> ws[x].repeat >= 0.0
  }

  ghost predicate Valid(l: EventLoop)
    reads l
  {
    HeapOk(l.timers, l.ws) && Accounted(l.timers, l.ws, -1) && QueuesOk(l.pendings, l.ws) && RepeatsOk(l.ws)
  }

  /** A new event loop, with nothing active or pending, is valid. */
  method NewLoop(ws: seq<Watcher>, now: real, priorities: nat) returns (l: EventLoop)
    requires forall x :: 0 <= x < |ws| ==> ws[x].active == 0 && ws[x].pending == 0 && ws[x].pri < priorities
    requires RepeatsOk(ws)
    ensures fresh(l) && Valid(l) && l.ws == ws && l.now == now && l.timers == [] && l.rfeeds == []
  {
    l := new EventLoop(ws, now, priorities);
  }

  /** All watchers but `w` are as they were, but for where in the heap they are. */
  ghost predicate OthersKept(ws: seq<Watcher>, ws': seq<Watcher>, w: int) {
    |ws'| == |ws| && forall x {:trigger ws'[x]} :: 0 <= x < |ws| && x != w ==>
      ws'[x] == ws[x].(active := ws'[x].active) && (ws'[x].active > 0 <==> ws[x].active > 0)
  }

  lemma SameOwners(h: seq<Entry>, h': seq<Entry>)
    requires multiset(h) == multiset(h')
    ensures Owners(h, |h|) == Owners(h', |h'|)
  {
    forall x | x in Owners(h, |h|) ensures x in Owners(h', |h'|) {
      var i :| 0 <= i < |h| && h[i].w == x;
      InHeap(h', h, i);
    }
    forall x | x in Owners(h', |h'|) ensures x in Owners(h, |h|) {
      var i :| 0 <= i < |h'| && h'[i].w == x;
      InHeap(h, h', i);
    }
  }

  /** Once entries have settled everything that always holds does. */
  lemma SettledOk(h: seq<Entry>, ws: seq<Watcher>, h': seq<Entry>, ws': seq<Watcher>, except: int)
    requires Settled(h, ws, |h|, h', ws') && Cached(h, ws) && Accounted(h, ws, except) && except !in Owners(h, |h|)
    ensures HeapOk(h', ws') && Accounted(h', ws', except) && Owners(h', |h'|) == Owners(h, |h|)
    ensures OthersKept(ws, ws', except) && (0 <= except < |ws| ==> ws'[except] == ws[except])
  {
    SameOwners(h, h');
    forall i | 0 <= i < |h'| ensures h'[i].w < |ws'| && h'[i].at == ws'[h'[i].w].at {
      InHeap(h, h', i);
    }
    forall x | 0 <= x < |ws| && x in Owners(h, |h|) ensures ws'[x].active > 0 {
      var j :| 0 <= j < |h'| && h'[j].w == x;
    }
  }

  lemma QueuesKept(qs: seq<seq<Pending>>, ws: seq<Watcher>, ws': seq<Watcher>)
    requires QueuesOk(qs, ws) && |ws'| == |ws|
    requires forall x :: 0 <= x < |ws| ==> ws'[x].pri == ws[x].pri && ws'[x].pending == ws[x].pending
    ensures QueuesOk(qs, ws')
  {
    forall x | 0 <= x < |ws'| ensures PlaceOk(qs, ws', x) {
      assert PlaceOk(qs, ws, x);
    }
  }

  // ---- Starting ------------------------------------------------------------------------------

  /** `ev_timer_start`: nothing, for an active timer; else it enters the heap, its time now counted from now. */
  method TimerStart(l: EventLoop, w: nat)
    requires Valid(l) && w < |l.ws|
    modifies l`timers, l`ws
    ensures Valid(l) && OthersKept(old(l.ws), l.ws, w)
    ensures old(l.ws)[w].active > 0 ==> l.timers == old(l.timers) && l.ws == old(l.ws)
    ensures old(l.ws)[w].active == 0 ==>
              l.ws[w] == old(l.ws)[w].(at := old(l.ws)[w].at + l.now, active := l.ws[w].active) && l.ws[w].active > 0
  {
    if l.ws[w].active == 0 {
      Enter(l, w);
    }
  }

  /** An inactive timer enters the heap. */
  method Enter(l: EventLoop, w: nat)
    requires Valid(l) && w < |l.ws| && l.ws[w].active == 0
    modifies l`timers, l`ws
    ensures Valid(l) && OthersKept(old(l.ws), l.ws, w) && l.ws[w].active > 0
    ensures l.ws[w] == old(l.ws)[w].(at := old(l.ws)[w].at + l.now, active := l.ws[w].active)
  {
    ghost var h0, ws0 := l.timers, l.ws;
    var k := |l.timers|;
    l.ws := l.ws[w := l.ws[w].(at := l.ws[w].at + l.now, active := k + HEAP0)];
    l.timers := l.timers + [Entry(w, l.ws[w].at)];
    ghost var h1, ws1 := l.timers, l.ws;
    Entered(h0, ws0, h1, ws1, w, ws1[w].at);
    l.UpHeap(k, k + 1);
    SettledOk(h1, ws1, l.timers, l.ws, -1);
    StartedKept(l.pendings, ws0, ws1, l.ws, w, ws1[w].at, k);
  }

  /** One watcher became active, then entries were moved. */
  lemma StartedKept(qs: seq<seq<Pending>>, ws: seq<Watcher>, ws1: seq<Watcher>, ws2: seq<Watcher>, w: nat, at: real,
                    k: nat)
    requires w < |ws| && ws1 == ws[w := ws[w].(at := at, active := k + HEAP0)] && OthersKept(ws1, ws2, -1)
    requires QueuesOk(qs, ws) && RepeatsOk(ws)
    ensures QueuesOk(qs, ws2) && RepeatsOk(ws2) && OthersKept(ws, ws2, w)
    ensures ws2[w] == ws[w].(at := at, active := ws2[w].active) && ws2[w].active > 0
  {
    forall x | 0 <= x < |ws|
      ensures ws2[x].pri == ws[x].pri && ws2[x].pending == ws[x].pending && ws2[x].repeat == ws[x].repeat {
      assert ws2[x] == ws1[x].(active := ws2[x].active);
    }
    QueuesKept(qs, ws, ws2);
  }

  /** A watcher put at the end of the heap, before it has settled. */
  lemma Entered(h: seq<Entry>, ws: seq<Watcher>, h': seq<Entry>, ws': seq<Watcher>, w: nat, at: real)
    requires HeapOk(h, ws) && Accounted(h, ws, -1) && w < |ws| && ws[w].active == 0
    requires ws' == ws[w := ws[w].(at := at, active := |h| + HEAP0)] && h' == h + [Entry(w, at)]
    ensures OneEach(h') && Cached(h', ws') && Accounted(h', ws', -1)
    ensures OrderedAround(h', |h'|, |h|, false, true) && Linked(h', ws', |h'|, |h|)
    ensures Owners(h', |h'|) == Owners(h, |h|) + {w}
  {
    assert w !in Owners(h, |h|);
    forall i | 0 <= i < |h| ensures h'[i] == h[i] && h[i].w != w {
      assert h[i].w in Owners(h, |h|);
    }
    assert Owners(h', |h'|) == Owners(h, |h|) + {w} by {
      forall x | x in Owners(h, |h|) + {w} ensures x in Owners(h', |h'|) {
        if x == w {
          assert h'[|h|].w == w;
        } else {
          var i :| 0 <= i < |h| && h[i].w == x;
          assert h'[i].w == x;
        }
      }
    }
    forall i | 0 <= i < |h'| && i != |h| ensures EdgeOk(h', i) {
      assert EdgeOk(h, i);
    }
    forall i | 0 < i < |h'| ensures Parent(i) != |h| {}
  }

  // ---- Stopping ------------------------------------------------------------------------------

  /** `clear_pending`: a pending watcher's place in its queue is left to no one. */
  method ClearPending(l: EventLoop, w: nat)
    requires w < |l.ws| && QueuesOk(l.pendings, l.ws)
    modifies l`pendings, l`ws
    ensures QueuesOk(l.pendings, l.ws) && l.ws == old(l.ws)[w := old(l.ws)[w].(pending := 0)]
    ensures l.pendings == Cleared(old(l.pendings), old(l.ws), w)
  {
    assert PlaceOk(l.pendings, l.ws, w);
    assert l.ws[w := l.ws[w].(pending := l.ws[w].pending)] == l.ws;
    if l.ws[w].pending > 0 {
      ghost var qs, ws := l.pendings, l.ws;
      var p, i := l.ws[w].pri, l.ws[w].pending - 1;
      l.pendings := l.pendings[p := l.pendings[p][i := l.pendings[p][i].(w := None)]];
      l.ws := l.ws[w := l.ws[w].(pending := 0)];
      ClearedOk(qs, ws, w);
    }
  }

  ghost function Cleared(qs: seq<seq<Pending>>, ws: seq<Watcher>, w: nat): seq<seq<Pending>>
    requires w < |ws| && PlaceOk(qs, ws, w)
  {
    if ws[w].pending == 0 then qs
    else
      var p, i := ws[w].pri, ws[w].pending - 1;
      qs[p := qs[p][i := qs[p][i].(w := None)]]
  }

  lemma ClearedOk(qs: seq<seq<Pending>>, ws: seq<Watcher>, w: nat)
    requires w < |ws| && QueuesOk(qs, ws) && PlaceOk(qs, ws, w)
    ensures QueuesOk(Cleared(qs, ws, w), ws[w := ws[w].(pending := 0)])
  {
    var qs', ws' := Cleared(qs, ws, w), ws[w := ws[w].(pending := 0)];
    forall x | 0 <= x < |ws'| ensures PlaceOk(qs', ws', x) {
      assert PlaceOk(qs, ws, x);
    }
    forall p, i | 0 <= p < |qs'| && 0 <= i < |qs'[p]| && qs'[p][i].w.Some?
      ensures qs'[p][i].w.value < |ws'| && ws'[qs'[p][i].w.value].pri == p && ws'[qs'[p][i].w.value].pending == i + 1 {
      assert qs[p][i] == qs'[p][i];
    }
  }

  /** `ev_timer_stop`: the timer leaves the queue and the heap, its time counted from now again. */
  method TimerStop(l: EventLoop, w: nat)
    requires Valid(l) && w < |l.ws|
    modifies l`timers, l`ws, l`pendings
    ensures Valid(l) && OthersKept(old(l.ws), l.ws, w) && PlaceOk(old(l.pendings), old(l.ws), w)
    ensures l.pendings == Cleared(old(l.pendings), old(l.ws), w)
    ensures old(l.ws)[w].active == 0 ==> l.timers == old(l.timers) && l.ws[w] == old(l.ws)[w].(pending := 0)
    ensures old(l.ws)[w].active > 0 ==>
              l.ws[w] == old(l.ws)[w].(at := old(l.ws)[w].at - l.now, active := 0, pending := 0)
  {
    assert PlaceOk(l.pendings, l.ws, w);
    ghost var ws0 := l.ws;
    ClearPending(l, w);
    Unqueued(l.timers, ws0, l.ws, w);
    if l.ws[w].active == 0 {
      return;
    }
    ghost var ws1 := l.ws;
    RemoveEntry(l, w);
    ghost var ws2 := l.ws;
    l.ws := l.ws[w := l.ws[w].(at := l.ws[w].at - l.now, active := 0)];
    Retired(l.timers, ws2, l.ws, w);
    QueuesKept(l.pendings, ws1, l.ws);
  }

  /** Clearing `pending` does not touch the heap. */
  lemma Unqueued(h: seq<Entry>, ws: seq<Watcher>, ws': seq<Watcher>, w: nat)
    requires w < |ws| && HeapOk(h, ws) && Accounted(h, ws, -1) && RepeatsOk(ws) && ws' == ws[w := ws[w].(pending := 0)]
    ensures HeapOk(h, ws') && Accounted(h, ws', -1) && RepeatsOk(ws') && OthersKept(ws, ws', w)
  {
    forall x | 0 <= x < |ws'| ensures ws'[x].active == ws[x].active {}
  }

  /** The heap no longer has `w`, and now `w` does not claim to be in it. */
  lemma Retired(h: seq<Entry>, ws: seq<Watcher>, ws': seq<Watcher>, w: nat)
    requires w < |ws| && HeapOk(h, ws) && Accounted(h, ws, w) && w !in Owners(h, |h|)
    requires |ws'| == |ws| && ws' == ws[w := ws'[w]] && ws'[w].active == 0
    ensures HeapOk(h, ws') && Accounted(h, ws', -1)
  {
    forall i | 0 <= i < |h| ensures h[i].w != w {
      assert h[i].w in Owners(h, |h|);
    }
    forall x | 0 <= x < |ws'| ensures ws'[x].active > 0 <==> x in Owners(h, |h|) {
      assert x != w ==> ws'[x].active == ws[x].active;
    }
  }

  /** The last entry takes the place of the one removed, and goes to where it belongs. */
  method RemoveEntry(l: EventLoop, w: nat)
    requires w < |l.ws| && HeapOk(l.timers, l.ws) && Accounted(l.timers, l.ws, -1) && l.ws[w].active > 0
    modifies l`timers, l`ws
    ensures HeapOk(l.timers, l.ws) && Accounted(l.timers, l.ws, w) && OthersKept(old(l.ws), l.ws, w)
    ensures l.ws[w] == old(l.ws)[w] && Owners(l.timers, |l.timers|) == Owners(old(l.timers), |old(l.timers)|) - {w}
  {
    ghost var h0, ws0 := l.timers, l.ws;
    AtItsPlace(h0, ws0, w);
    var i, n: nat := l.ws[w].active - HEAP0, |l.timers| - 1;
    var last := l.timers[n];
    l.timers := l.timers[..n];
    if i < n {
      l.timers := l.timers[i := last];
      Replaced(h0, ws0, l.timers, w, i);
      ghost var h1 := l.timers;
      l.AdjustHeap(n, i);
      SettledOk(h1, ws0, l.timers, l.ws, w);
    } else {
      LastRemoved(h0, ws0, l.timers, w);
    }
  }

  lemma AtItsPlace(h: seq<Entry>, ws: seq<Watcher>, w: nat)
    requires w < |ws| && HeapOk(h, ws) && Accounted(h, ws, -1) && ws[w].active > 0
    ensures HEAP0 <= ws[w].active < |h| + HEAP0 && h[ws[w].active - HEAP0].w == w
  {
    assert w in Owners(h, |h|);
    var i :| 0 <= i < |h| && h[i].w == w;
  }

  lemma LastRemoved(h: seq<Entry>, ws: seq<Watcher>, h': seq<Entry>, w: nat)
    requires w < |ws| && HeapOk(h, ws) && Accounted(h, ws, -1) && h != [] && h' == h[..|h| - 1] && h[|h| - 1].w == w
    ensures HeapOk(h', ws) && Accounted(h', ws, w) && Owners(h', |h'|) == Owners(h, |h|) - {w}
  {
    forall i | 0 <= i < |h'| ensures EdgeOk(h', i) {
      assert EdgeOk(h, i);
    }
    OwnersLess(h, h', w, |h| - 1);
  }

  /** The heap without the entry at `k`, which may be another one's place now. */
  lemma OwnersLess(h: seq<Entry>, h': seq<Entry>, w: nat, k: nat)
    requires OneEach(h) && k < |h| && h[k].w == w && |h'| == |h| - 1
    requires forall i :: 0 <= i < |h'| ==> h'[i] == if i == k then h[|h| - 1] else h[i]
    ensures Owners(h', |h'|) == Owners(h, |h|) - {w}
  {
    forall x | x in Owners(h, |h|) - {w} ensures x in Owners(h', |h'|) {
      var i :| 0 <= i < |h| && h[i].w == x;
      assert i == |h| - 1 ==> h'[k].w == x;
      assert i < |h| - 1 ==> h'[i].w == x;
    }
    forall x | x in Owners(h', |h'|) ensures x in Owners(h, |h|) - {w} {
      var i :| 0 <= i < |h'| && h'[i].w == x;
    }
  }

  lemma Replaced(h: seq<Entry>, ws: seq<Watcher>, h': seq<Entry>, w: nat, k: nat)
    requires w < |ws| && HeapOk(h, ws) && Accounted(h, ws, -1) && k < |h| - 1 && h[k].w == w
    requires h' == h[..|h| - 1][k := h[|h| - 1]]
    ensures OneEach(h') && Cached(h', ws) && Accounted(h', ws, w) && w !in Owners(h', |h'|)
    ensures OrderedAround(h', |h'|, k, false, false) && Linked(h', ws, |h'|, k)
    ensures Owners(h', |h'|) == Owners(h, |h|) - {w}
  {
    var n := |h| - 1;
    OwnersLess(h, h', w, k);
    forall i | 0 <= i < n && i != k && (i == 0 || Parent(i) != k) ensures EdgeOk(h', i) {
      assert EdgeOk(h, i);
    }
    forall i | 0 < i < n && Parent(i) == k ensures PastOk(h', k, i) {
      ChildrenOf(k, i);
      assert EdgeOk(h, i) && EdgeOk(h, k);
    }
  }

  // ---- Restarting ----------------------------------------------------------------------------

  /** `ev_timer_again`: a repeating timer is set off anew; an active one that does not repeat is stopped. */
  method TimerAgain(l: EventLoop, w: nat)
    requires Valid(l) && w < |l.ws|
    modifies l`timers, l`ws, l`pendings
    ensures Valid(l) && OthersKept(old(l.ws), l.ws, w)
    ensures old(l.ws)[w].repeat > 0.0 ==>
              l.ws[w] == old(l.ws)[w].(at := l.now + old(l.ws)[w].repeat, active := l.ws[w].active) &&
                l.ws[w].active > 0
    ensures old(l.ws)[w].repeat > 0.0 ==> l.pendings == old(l.pendings)
    ensures old(l.ws)[w].repeat == 0.0 && old(l.ws)[w].active > 0 ==>
              && l.ws[w] == old(l.ws)[w].(at := old(l.ws)[w].at - l.now, active := 0, pending := 0)
              && PlaceOk(old(l.pendings), old(l.ws), w) && l.pendings == Cleared(old(l.pendings), old(l.ws), w)
    ensures old(l.ws)[w].repeat == 0.0 && old(l.ws)[w].active == 0 ==>
              l.ws == old(l.ws) && l.timers == old(l.timers) && l.pendings == old(l.pendings)
  {
    if l.ws[w].active > 0 {
      if l.ws[w].repeat != 0.0 {
        Retime(l, w, l.now + l.ws[w].repeat);
      } else {
        TimerStop(l, w);
      }
    } else if l.ws[w].repeat != 0.0 {
      ghost var ws0 := l.ws;
      l.ws := l.ws[w := l.ws[w].(at := l.ws[w].repeat)];
      Idle(l.timers, ws0, l.ws, w);
      QueuesKept(l.pendings, ws0, l.ws);
      TimerStart(l, w);
    }
  }

  /** An inactive watcher's time is not the heap's business. */
  lemma Idle(h: seq<Entry>, ws: seq<Watcher>, ws': seq<Watcher>, w: nat)
    requires w < |ws| && HeapOk(h, ws) && Accounted(h, ws, -1) && RepeatsOk(ws) && ws[w].active == 0
    requires |ws'| == |ws| && ws' == ws[w := ws[w].(at := ws'[w].at)]
    ensures HeapOk(h, ws') && Accounted(h, ws', -1) && RepeatsOk(ws')
  {
    assert w !in Owners(h, |h|);
    forall i | 0 <= i < |h| ensures h[i].w != w {
      assert h[i].w in Owners(h, |h|);
    }
    forall x | 0 <= x < |ws'| ensures ws'[x].active == ws[x].active {}
  }

  /** An active timer gets another time, and its entry goes to where it belongs. */
  method Retime(l: EventLoop, w: nat, at: real)
    requires Valid(l) && w < |l.ws| && l.ws[w].active > 0
    modifies l`timers, l`ws
    ensures Valid(l) && OthersKept(old(l.ws), l.ws, w) && l.ws[w].active > 0
    ensures l.ws[w] == old(l.ws)[w].(at := at, active := l.ws[w].active)
    ensures Owners(l.timers, |l.timers|) == Owners(old(l.timers), |old(l.timers)|)
  {
    ghost var h0, ws0 := l.timers, l.ws;
    AtItsPlace(h0, ws0, w);
    var k: nat := l.ws[w].active - HEAP0;
    l.ws := l.ws[w := l.ws[w].(at := at)];
    l.timers := l.timers[k := l.timers[k].(at := at)];
    ghost var h1, ws1 := l.timers, l.ws;
    Retimed(h0, ws0, h1, ws1, w, k, at);
    l.AdjustHeap(|l.timers|, k);
    SettledOk(h1, ws1, l.timers, l.ws, -1);
    KeptAcross(l.pendings, ws0, ws1, l.ws, w, at);
  }

  /** One watcher got a time, then entries were moved. */
  lemma KeptAcross(qs: seq<seq<Pending>>, ws: seq<Watcher>, ws1: seq<Watcher>, ws2: seq<Watcher>, w: nat, at: real)
    requires w < |ws| && ws1 == ws[w := ws[w].(at := at)] && OthersKept(ws1, ws2, -1) && QueuesOk(qs, ws)
    requires RepeatsOk(ws)
    ensures QueuesOk(qs, ws2) && RepeatsOk(ws2) && OthersKept(ws, ws2, w)
    ensures ws2[w] == ws[w].(at := at, active := ws2[w].active) && (ws2[w].active > 0 <==> ws[w].active > 0)
  {
    forall x | 0 <= x < |ws|
      ensures ws2[x].pri == ws[x].pri && ws2[x].pending == ws[x].pending && ws2[x].repeat == ws[x].repeat {
      assert ws2[x] == ws1[x].(active := ws2[x].active);
    }
    QueuesKept(qs, ws, ws2);
  }

  lemma Retimed(h: seq<Entry>, ws: seq<Watcher>, h': seq<Entry>, ws': seq<Watcher>, w: nat, k: nat, at: real)
    requires w < |ws| && HeapOk(h, ws) && Accounted(h, ws, -1) && k < |h| && h[k].w == w && ws[w].active > 0
    requires ws' == ws[w := ws[w].(at := at)] && h' == h[k := h[k].(at := at)]
    ensures OneEach(h') && Cached(h', ws') && Accounted(h', ws', -1) && Owners(h', |h'|) == Owners(h, |h|)
    ensures OrderedAround(h', |h'|, k, false, false) && Linked(h', ws', |h'|, k)
  {
    forall i | 0 <= i < |h| ensures h'[i].w == h[i].w && (i != k ==> h'[i] == h[i] && h[i].w != w) {}
    forall x | 0 <= x < |ws'| ensures ws'[x].active == ws[x].active {}
    SameOwnersAt(h, h');
    RetimedOrder(h, h', k, at);
  }

  lemma SameOwnersAt(h: seq<Entry>, h': seq<Entry>)
    requires |h'| == |h| && forall i :: 0 <= i < |h| ==> h'[i].w == h[i].w
    ensures Owners(h', |h'|) == Owners(h, |h|)
  {
    forall x | x in Owners(h, |h|) ensures x in Owners(h', |h'|) {
      var i :| 0 <= i < |h| && h[i].w == x;
      assert h'[i].w == x;
    }
  }

  lemma RetimedOrder(h: seq<Entry>, h': seq<Entry>, k: nat, at: real)
    requires Ordered(h, |h|) && k < |h| && h' == h[k := h[k].(at := at)]
    ensures OrderedAround(h', |h'|, k, false, false)
  {
    forall i | 0 <= i < |h'| && i != k && (i == 0 || Parent(i) != k) ensures EdgeOk(h', i) {
      assert EdgeOk(h, i);
    }
    forall i | 0 < i < |h'| && Parent(i) == k ensures PastOk(h', k, i) {
      ChildrenOf(k, i);
      assert EdgeOk(h, i) && EdgeOk(h, k);
    }
  }
}
