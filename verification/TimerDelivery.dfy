/**
  Delivering timers: the ones whose time has come are taken off the heap in the order of
  their times, queued in reverse, and the queues are emptied from the end.
 */
module TimerDelivery {
  import opened Names
  import opened TimerHeap
  import opened Timers

  const EV_TIMER := 0x100

  // ---- Queues ----------------------------------------------------------------------------------

  /** Whose places a queue holds. */
  function Whose(q: seq<Pending>): seq<Option<nat>> {
    seq(|q|, i requires 0 <= i < |q| => q[i].w)
  }

  /** `ws'` differs from `ws` in the `pending` field of `w` only. */
  ghost predicate OnlyPending(ws: seq<Watcher>, ws': seq<Watcher>, w: nat) {
    w < |ws| == |ws'| && ws' == ws[w := ws[w].(pending := ws'[w].pending)]
  }

  ghost function Fed(qs: seq<seq<Pending>>, ws: seq<Watcher>, w: nat, events: set<nat>): seq<seq<Pending>>
    requires w < |ws| && PlaceOk(qs, ws, w)
  {
    var p := ws[w].pri;
    if ws[w].pending > 0 then
      var i := ws[w].pending - 1;
      qs[p := qs[p][i := qs[p][i].(events := qs[p][i].events + events)]]
    else qs[p := qs[p] + [Pending(Some(w), events)]]
  }

  /** `ev_feed_event`: a pending watcher gets one more event; another one a place at its queue's end. */
  method FeedEvent(l: EventLoop, w: nat, events: set<nat>)
    requires w < |l.ws| && QueuesOk(l.pendings, l.ws)
    modifies l`pendings, l`ws
    ensures QueuesOk(l.pendings, l.ws) && PlaceOk(old(l.pendings), old(l.ws), w)
    ensures l.pendings == Fed(old(l.pendings), old(l.ws), w, events)
    ensures OnlyPending(old(l.ws), l.ws, w) && l.ws[w].pending > 0
  {
    assert PlaceOk(l.pendings, l.ws, w);
    ghost var qs, ws := l.pendings, l.ws;
    assert ws == ws[w := ws[w].(pending := ws[w].pending)];
    var p := l.ws[w].pri;
    if l.ws[w].pending > 0 {
      var i := l.ws[w].pending - 1;
      l.pendings := l.pendings[p := l.pendings[p][i := l.pendings[p][i].(events := l.pendings[p][i].events + events)]];
    } else {
      l.pendings := l.pendings[p := l.pendings[p] + [Pending(Some(w), events)]];
      l.ws := l.ws[w := l.ws[w].(pending := |l.pendings[p]|)];
    }
    FedOk(qs, ws, l.pendings, l.ws, w, events);
  }

  lemma FedOk(qs: seq<seq<Pending>>, ws: seq<Watcher>, qs': seq<seq<Pending>>, ws': seq<Watcher>, w: nat,
              events: set<nat>)
    requires w < |ws| && QueuesOk(qs, ws) && PlaceOk(qs, ws, w) && qs' == Fed(qs, ws, w, events)
    requires ws' == if ws[w].pending > 0 then ws else ws[w := ws[w].(pending := |qs[ws[w].pri]| + 1)]
    ensures QueuesOk(qs', ws')
  {
    forall x | 0 <= x < |ws'| ensures PlaceOk(qs', ws', x) {
      assert PlaceOk(qs, ws, x);
    }
    forall p, i | 0 <= p < |qs'| && 0 <= i < |qs'[p]| && qs'[p][i].w.Some?
      ensures qs'[p][i].w.value < |ws'| && ws'[qs'[p][i].w.value].pri == p && ws'[qs'[p][i].w.value].pending == i + 1 {
      if i < |qs[p]| {
        assert qs'[p][i].w == qs[p][i].w;
      }
    }
  }

  // ---- Feeding in reverse ------------------------------------------------------------------------

  /**
    Of watchers fed from the last to the first, the ones that get a new place in queue `p`, in the order they
    get it.
   */
  ghost function Added(f: seq<nat>, ws: seq<Watcher>, p: nat): seq<nat> {
    if f == [] then []
    else
      var x := f[|f| - 1];
      (if x < |ws| && ws[x].pri == p && ws[x].pending == 0 then [x] else []) + Added(f[..|f| - 1], ws, p)
  }

  ghost predicate NoRepeats(f: seq<nat>) {
    forall i, j :: 0 <= i < j < |f| ==> f[i] != f[j]
  }

  function Somes(f: seq<nat>): seq<Option<nat>> {
    seq(|f|, i requires 0 <= i < |f| => Some(f[i]))
  }

  /** What is added depends only on the watchers fed. */
  lemma {:induction false} AddedSame(f: seq<nat>, ws: seq<Watcher>, ws': seq<Watcher>, p: nat)
    requires |ws| == |ws'| && forall i :: 0 <= i < |f| && f[i] < |ws| ==> ws'[f[i]] == ws[f[i]]
    ensures Added(f, ws', p) == Added(f, ws, p)
  {
    if f != [] { AddedSame(f[..|f| - 1], ws, ws', p); }
  }

  /** What queue `p` will hold after feeding. */
  ghost function QueueAfter(qs: seq<seq<Pending>>, ws: seq<Watcher>, f: seq<nat>, p: nat): seq<Option<nat>>
    requires p < |qs|
  {
    Whose(qs[p]) + Somes(Added(f, ws, p))
  }

  ghost predicate SameAfter(qs: seq<seq<Pending>>, ws: seq<Watcher>, f: seq<nat>,
                            qs': seq<seq<Pending>>, ws': seq<Watcher>, f': seq<nat>) {
    |qs'| == |qs| && forall p {:trigger QueueAfter(qs', ws', f', p)} :: 0 <= p < |qs| ==>
      QueueAfter(qs', ws', f', p) == QueueAfter(qs, ws, f, p)
  }

  lemma FedNames(qs: seq<seq<Pending>>, ws: seq<Watcher>, w: nat, events: set<nat>, p: nat)
    requires w < |ws| && PlaceOk(qs, ws, w) && p < |qs|
    ensures |Fed(qs, ws, w, events)| == |qs|
    ensures Whose(Fed(qs, ws, w, events)[p]) ==
              Whose(qs[p]) + if ws[w].pri == p && ws[w].pending == 0 then [Some(w)] else []
  {
  }

  /** Feeding the last leaves the others to feed. */
  lemma FedThen(qs: seq<seq<Pending>>, ws: seq<Watcher>, f: seq<nat>, events: set<nat>, qs': seq<seq<Pending>>,
                ws': seq<Watcher>)
    requires f != [] && NoRepeats(f) && f[|f| - 1] < |ws| && PlaceOk(qs, ws, f[|f| - 1])
    requires qs' == Fed(qs, ws, f[|f| - 1], events) && OnlyPending(ws, ws', f[|f| - 1])
    ensures SameAfter(qs, ws, f, qs', ws', f[..|f| - 1])
  {
    forall p: nat | p < |qs|
      ensures |qs'| == |qs| && QueueAfter(qs', ws', f[..|f| - 1], p) == QueueAfter(qs, ws, f, p) {
      FedNames(qs, ws, f[|f| - 1], events, p);
      AddedSame(f[..|f| - 1], ws, ws', p);
      OneThenRest(Whose(qs[p]), Whose(qs'[p]), f, ws, p);
    }
  }

  lemma OneThenRest(q: seq<Option<nat>>, q': seq<Option<nat>>, f: seq<nat>, ws: seq<Watcher>, p: nat)
    requires f != [] && f[|f| - 1] < |ws|
    requires q' == q + if ws[f[|f| - 1]].pri == p && ws[f[|f| - 1]].pending == 0 then [Some(f[|f| - 1])] else []
    ensures q' + Somes(Added(f[..|f| - 1], ws, p)) == q + Somes(Added(f, ws, p))
  {
    var x := f[|f| - 1];
    var one := if ws[x].pri == p && ws[x].pending == 0 then [x] else [];
    SomesAppend(one, Added(f[..|f| - 1], ws, p));
    assert q' == q + Somes(one);
  }

  lemma SomesAppend(a: seq<nat>, b: seq<nat>)
    ensures Somes(a + b) == Somes(a) + Somes(b)
  {
  }

  /** The watchers of `f` from the `n`-th on, and only they, may have become pending, and now they are. */
  ghost predicate PendingFrom(ws: seq<Watcher>, ws': seq<Watcher>, f: seq<nat>, n: nat) {
    && |ws'| == |ws| && n <= |f|
    && (forall x {:trigger ws'[x]} :: 0 <= x < |ws| ==>
         ws'[x] == ws[x].(pending := ws'[x].pending) && (x !in f[n..] ==> ws'[x] == ws[x]))
    && (forall i :: n <= i < |f| ==> f[i] < |ws| && ws'[f[i]].pending > 0)
  }

  lemma OneMorePending(ws: seq<Watcher>, ws1: seq<Watcher>, ws2: seq<Watcher>, f: seq<nat>, n: nat)
    requires n < |f| && PendingFrom(ws, ws1, f, n + 1) && NoRepeats(f) && OnlyPending(ws1, ws2, f[n])
    requires ws2[f[n]].pending > 0
    ensures PendingFrom(ws, ws2, f, n)
  {
    assert f[n..] == [f[n]] + f[n + 1..];
  }

  /** The events at every place: the watchers of `f` got `events` in addition, and new places have just them. */
  ghost predicate EventsFed(qs: seq<seq<Pending>>, f: seq<nat>, events: set<nat>, qs': seq<seq<Pending>>) {
    && |qs'| == |qs| && (forall p :: 0 <= p < |qs| ==> |qs[p]| <= |qs'[p]|)
    && forall p, i {:trigger qs'[p][i]} :: 0 <= p < |qs| && 0 <= i < |qs'[p]| ==>
         qs'[p][i].events == if i < |qs[p]| then EventsAt(qs[p][i], f, events) else events
  }

  ghost function EventsAt(q: Pending, f: seq<nat>, events: set<nat>): set<nat> {
    if q.w.Some? && q.w.value in f then q.events + events else q.events
  }

  lemma EventsOneMore(qs0: seq<seq<Pending>>, f: seq<nat>, n: nat, events: set<nat>, qs: seq<seq<Pending>>,
                      ws: seq<Watcher>, qs': seq<seq<Pending>>)
    requires n < |f| && f[n] < |ws| && QueuesOk(qs, ws) && PlaceOk(qs, ws, f[n]) && qs' == Fed(qs, ws, f[n], events)
    requires EventsFed(qs0, f[n + 1..], events, qs) && SamePlaces(qs0, qs)
    ensures EventsFed(qs0, f[n..], events, qs') && SamePlaces(qs0, qs')
  {
    assert f[n..] == [f[n]] + f[n + 1..];
    forall p, i | 0 <= p < |qs0| && 0 <= i < |qs'[p]|
      ensures qs'[p][i].events == if i < |qs0[p]| then EventsAt(qs0[p][i], f[n..], events) else events {
      if i < |qs[p]| {
        assert qs'[p][i].w == qs[p][i].w;
        assert qs[p][i].w == Some(f[n]) <==> ws[f[n]].pri == p && ws[f[n]].pending == i + 1;
      }
    }
  }

  /** No one has lost a place. */
  ghost predicate SamePlaces(qs: seq<seq<Pending>>, qs': seq<seq<Pending>>) {
    && |qs'| == |qs| && (forall p :: 0 <= p < |qs| ==> |qs[p]| <= |qs'[p]|)
    && forall p, i {:trigger qs'[p][i]} :: 0 <= p < |qs| && 0 <= i < |qs[p]| ==> qs'[p][i].w == qs[p][i].w
  }

  lemma NoEventsYet(qs: seq<seq<Pending>>, events: set<nat>)
    ensures EventsFed(qs, [], events, qs) && SamePlaces(qs, qs)
  {
  }

  /** `feed_reverse_done`: from the last fed to the first. */
  method FeedReverseDone(l: EventLoop, events: set<nat>)
    requires QueuesOk(l.pendings, l.ws) && NoRepeats(l.rfeeds)
    requires forall i :: 0 <= i < |l.rfeeds| ==> l.rfeeds[i] < |l.ws|
    modifies l`pendings, l`ws, l`rfeeds
    ensures l.rfeeds == [] && QueuesOk(l.pendings, l.ws) && PendingFrom(old(l.ws), l.ws, old(l.rfeeds), 0)
    ensures SameAfter(old(l.pendings), old(l.ws), old(l.rfeeds), l.pendings, l.ws, [])
    ensures EventsFed(old(l.pendings), old(l.rfeeds), events, l.pendings)
  {
    ghost var f, qs0, ws0 := l.rfeeds, l.pendings, l.ws;
    assert l.rfeeds == f[..|f|] && f[|f|..] == [] && f[0..] == f;
    NoEventsYet(qs0, events);
    while |l.rfeeds| > 0
      invariant |l.rfeeds| <= |f| && l.rfeeds == f[..|l.rfeeds|] && QueuesOk(l.pendings, l.ws)
      invariant PendingFrom(ws0, l.ws, f, |l.rfeeds|)
      invariant SameAfter(qs0, ws0, f, l.pendings, l.ws, l.rfeeds)
      invariant EventsFed(qs0, f[|l.rfeeds|..], events, l.pendings) && SamePlaces(qs0, l.pendings)
    {
      var n := |l.rfeeds| - 1;
      var x := l.rfeeds[n];
      ghost var g, qs, ws := l.rfeeds, l.pendings, l.ws;
      l.rfeeds := l.rfeeds[..n];
      FeedEvent(l, x, events);
      FedThen(qs, ws, g, events, l.pendings, l.ws);
      EventsOneMore(qs0, f, n, events, qs, ws, l.pendings);
      OneMorePending(ws0, ws, l.ws, f, n);
      assert f[..n + 1][..n] == f[..n];
    }
  }

  // ---- Taking expired timers off the heap ----------------------------------------------------------

  ghost predicate IsLate(ws: seq<Watcher>, now: real, x: nat) {
    x < |ws| && ws[x].active > 0 && ws[x].at < now
  }

  /** The active timers whose time has come. */
  ghost function Late(ws: seq<Watcher>, now: real): set<nat> {
    set x | 0 <= x < |ws| && IsLate(ws, now, x)
  }

  /** If the heap's root is not late no timer is; if it is, none is later than it. */
  lemma RootDecides(h: seq<Entry>, ws: seq<Watcher>, now: real)
    requires HeapOk(h, ws) && Accounted(h, ws, -1)
    ensures h == [] || h[0].at >= now ==> Late(ws, now) == {}
    ensures h != [] && h[0].at < now ==> h[0].w in Late(ws, now)
    ensures h != [] ==> forall x :: x in Late(ws, now) ==> h[0].at <= ws[x].at
  {
    forall x | x in Late(ws, now) ensures h != [] && h[0].at <= ws[x].at {
      AtItsPlace(h, ws, x);
      RootIsEarliest(h, |h|, ws[x].active - HEAP0);
    }
    if h != [] && h[0].at < now {
      assert ws[h[0].w].active > 0;
    }
  }

  /** What becomes of a timer that has been taken: one that repeats is set off again, never for the past. */
  ghost predicate TakenAs(was: Watcher, after: Watcher, now: real) {
    if was.repeat > 0.0 then
      after == was.(at := Later(was.at + was.repeat, now), active := after.active) && after.active > 0
    else
      after == was.(at := was.at - now, active := 0, pending := 0)
  }

  function Later(a: real, b: real): real { if a < b then b else a }

  /** One turn of the loop in `timers_reify`: the root is rescheduled or stopped. */
  method TakeRoot(l: EventLoop) returns (w: nat)
    requires Valid(l) && l.timers != [] && l.timers[0].at < l.now
    modifies l`timers, l`ws, l`pendings
    ensures Valid(l) && w == old(l.timers)[0].w && w < |l.ws| && OthersKept(old(l.ws), l.ws, w)
    ensures TakenAs(old(l.ws)[w], l.ws[w], l.now)
    ensures PlaceOk(old(l.pendings), old(l.ws), w)
    ensures l.pendings == if old(l.ws)[w].repeat > 0.0 then old(l.pendings) else Cleared(old(l.pendings), old(l.ws), w)
  {
    w := l.timers[0].w;
    RootActive(l.timers, l.ws);
    assert PlaceOk(l.pendings, l.ws, w);
    if l.ws[w].repeat != 0.0 {
      Reschedule(l, w);
    } else {
      TimerStop(l, w);
    }
  }

  lemma RootActive(h: seq<Entry>, ws: seq<Watcher>)
    requires HeapOk(h, ws) && h != []
    ensures h[0].w < |ws| && ws[h[0].w].active == HEAP0 && ws[h[0].w].at == h[0].at
  {
  }

  method Reschedule(l: EventLoop, w: nat)
    requires Valid(l) && l.timers != [] && w == l.timers[0].w && w < |l.ws| && l.ws[w].active > 0
    modifies l`timers, l`ws
    ensures Valid(l) && OthersKept(old(l.ws), l.ws, w) && l.ws[w].active > 0
    ensures l.ws[w] == old(l.ws)[w].(at := Later(old(l.ws)[w].at + old(l.ws)[w].repeat, l.now),
              active := l.ws[w].active)
  {
    ghost var h0, ws0 := l.timers, l.ws;
    var at := l.ws[w].at + l.ws[w].repeat;
    if at < l.now {
      at := l.now;
    }
    l.ws := l.ws[w := l.ws[w].(at := at)];
    l.timers := l.timers[0 := l.timers[0].(at := at)];
    ghost var h1, ws1 := l.timers, l.ws;
    Retimed(h0, ws0, h1, ws1, w, 0, at);
    EitherWay(h1, |h1|, 0);
    l.DownHeap(|l.timers|, 0);
    SettledOk(h1, ws1, l.timers, l.ws, -1);
    KeptAcross(l.pendings, ws0, ws1, l.ws, w, at);
  }

  /** The timers taken so far: all different, late when the loop began, in the order of their times. */
  ghost predicate Taken(ws0: seq<Watcher>, now: real, ws: seq<Watcher>, fed: seq<nat>) {
    && |ws| == |ws0| && NoRepeats(fed)
    && (forall i :: 0 <= i < |fed| ==> IsLate(ws0, now, fed[i]) && TakenAs(ws0[fed[i]], ws[fed[i]], now))
    && (forall x {:trigger ws[x]} :: 0 <= x < |ws| && x !in fed ==>
         ws[x] == ws0[x].(active := ws[x].active) && (ws[x].active > 0 <==> ws0[x].active > 0))
    && (forall i, j :: 0 <= i < j < |fed| ==> ws0[fed[i]].at <= ws0[fed[j]].at)
    && (forall i, x :: 0 <= i < |fed| && x in Late(ws, now) ==> ws0[fed[i]].at <= ws[x].at)
  }

  /** What is late now is what was late then and has not been taken. */
  lemma LateLeft(ws0: seq<Watcher>, now: real, ws: seq<Watcher>, fed: seq<nat>, x: nat)
    requires Taken(ws0, now, ws, fed)
    ensures x in Late(ws, now) <==> x in Late(ws0, now) && x !in fed
  {
    if x in fed {
      var i :| 0 <= i < |fed| && fed[i] == x;
      assert TakenAs(ws0[x], ws[x], now);
    }
  }

  lemma TakeOne(ws0: seq<Watcher>, now: real, ws: seq<Watcher>, fed: seq<nat>, ws': seq<Watcher>, w: nat)
    requires Taken(ws0, now, ws, fed) && w in Late(ws, now) && OthersKept(ws, ws', w) && TakenAs(ws[w], ws'[w], now)
    requires forall x :: x in Late(ws, now) ==> ws[w].at <= ws[x].at
    ensures Taken(ws0, now, ws', fed + [w])
    ensures Late(ws', now) == Late(ws, now) - {w}
  {
    LateLeft(ws0, now, ws, fed, w);
    var fed' := fed + [w];
    forall i | 0 <= i < |fed'| ensures IsLate(ws0, now, fed'[i]) && TakenAs(ws0[fed'[i]], ws'[fed'[i]], now) {
      if i < |fed| { StillTaken(ws0[fed[i]], ws[fed[i]], ws'[fed[i]], now); }
    }
    forall x | 0 <= x < |ws| ensures x in Late(ws', now) <==> x in Late(ws, now) && x != w {
      assert x != w ==> ws'[x] == ws[x].(active := ws'[x].active);
    }
  }

  lemma StillTaken(was: Watcher, after: Watcher, after': Watcher, now: real)
    requires TakenAs(was, after, now) && after' == after.(active := after'.active)
    requires (after'.active > 0 <==> after.active > 0)
    ensures TakenAs(was, after', now)
  {
  }

  /** `pending` fields are not the heap's business. */
  lemma HeapKept(h: seq<Entry>, ws: seq<Watcher>, ws': seq<Watcher>)
    requires HeapOk(h, ws) && Accounted(h, ws, -1) && RepeatsOk(ws) && |ws'| == |ws|
    requires forall x {:trigger ws'[x]} :: 0 <= x < |ws| ==> ws'[x] == ws[x].(pending := ws'[x].pending)
    ensures HeapOk(h, ws') && Accounted(h, ws', -1) && RepeatsOk(ws')
  {
    forall x | 0 <= x < |ws'|
      ensures ws'[x].active == ws[x].active && ws'[x].repeat == ws[x].repeat && ws'[x].at == ws[x].at {}
  }

  lemma LateKept(ws: seq<Watcher>, ws': seq<Watcher>, now: real)
    requires |ws'| == |ws| && forall x {:trigger ws'[x]} :: 0 <= x < |ws| ==>
              ws'[x] == ws[x].(pending := ws'[x].pending)
    ensures Late(ws', now) == Late(ws, now)
  {
    forall x | 0 <= x < |ws| ensures IsLate(ws', now, x) <==> IsLate(ws, now, x) {}
  }

  /** A place of the queues after the timers of `fed` have been taken: one that was stopped has lost its place. */
  ghost function PlaceTaken(q: Pending, ws: seq<Watcher>, fed: seq<nat>): Pending {
    if q.w.Some? && q.w.value in fed && q.w.value < |ws| && ws[q.w.value].repeat == 0.0 then q.(w := None) else q
  }

  ghost predicate QueuesTaken(qs: seq<seq<Pending>>, ws: seq<Watcher>, fed: seq<nat>, qs': seq<seq<Pending>>) {
    && |qs'| == |qs| && (forall p :: 0 <= p < |qs| ==> |qs'[p]| == |qs[p]|)
    && forall p, i {:trigger qs'[p][i]} :: 0 <= p < |qs| && 0 <= i < |qs[p]| ==>
         qs'[p][i] == PlaceTaken(qs[p][i], ws, fed)
  }

  /** One timer more has been taken. */
  lemma QueuesTakeOne(qs0: seq<seq<Pending>>, ws0: seq<Watcher>, fed: seq<nat>, qs: seq<seq<Pending>>,
                      ws: seq<Watcher>, w: nat, qs': seq<seq<Pending>>)
    requires QueuesTaken(qs0, ws0, fed, qs) && QueuesOk(qs, ws) && |ws| == |ws0| && w < |ws| && PlaceOk(qs, ws, w)
    requires ws[w].repeat == ws0[w].repeat >= 0.0
    requires qs' == if ws[w].repeat > 0.0 then qs else Cleared(qs, ws, w)
    ensures QueuesTaken(qs0, ws0, fed + [w], qs')
  {
    forall p, i | 0 <= p < |qs0| && 0 <= i < |qs0[p]| ensures qs'[p][i] == PlaceTaken(qs0[p][i], ws0, fed + [w]) {
      assert qs[p][i] == PlaceTaken(qs0[p][i], ws0, fed);
      assert qs[p][i].w == Some(w) ==> ws[w].pri == p && ws[w].pending == i + 1;
    }
  }

  lemma NoneTakenYet(qs: seq<seq<Pending>>, ws: seq<Watcher>)
    ensures QueuesTaken(qs, ws, [], qs)
  {
  }

  /** The loop of `timers_reify`: expired timers leave the heap, earliest first, and are noted for feeding. */
  method TakeExpired(l: EventLoop)
    requires Valid(l) && l.rfeeds == []
    modifies l`timers, l`ws, l`pendings, l`rfeeds
    ensures Valid(l) && Taken(old(l.ws), l.now, l.ws, l.rfeeds) && Late(l.ws, l.now) == {}
    ensures QueuesTaken(old(l.pendings), old(l.ws), l.rfeeds, l.pendings)
  {
    ghost var ws0 := l.ws;
    RootDecides(l.timers, l.ws, l.now);
    NoneTakenYet(l.pendings, l.ws);
    while l.timers != [] && l.timers[0].at < l.now
      invariant Valid(l) && Taken(ws0, l.now, l.ws, l.rfeeds) && QueuesTaken(old(l.pendings), ws0, l.rfeeds, l.pendings)
      invariant l.timers == [] || l.timers[0].at >= l.now ==> Late(l.ws, l.now) == {}
      decreases Late(l.ws, l.now)
    {
      ghost var ws, qs := l.ws, l.pendings;
      RootActive(l.timers, l.ws);
      RootDecides(l.timers, l.ws, l.now);
      var w := TakeRoot(l);
      SameRepeat(ws0, l.now, ws, l.rfeeds, w);
      QueuesTakeOne(old(l.pendings), ws0, l.rfeeds, qs, ws, w, l.pendings);
      TakeOne(ws0, l.now, ws, l.rfeeds, l.ws, w);
      l.rfeeds := l.rfeeds + [w];
      RootDecides(l.timers, l.ws, l.now);
    }
  }

  lemma SameRepeat(ws0: seq<Watcher>, now: real, ws: seq<Watcher>, fed: seq<nat>, w: nat)
    requires Taken(ws0, now, ws, fed) && w < |ws|
    ensures ws[w].repeat == ws0[w].repeat
  {
    if w in fed {
      var i :| 0 <= i < |fed| && fed[i] == w;
      assert TakenAs(ws0[fed[i]], ws[fed[i]], now);
    }
  }

  /**
    `timers_reify`: exactly the expired timers are queued, once each; none is left expired.  `fed` lists
    them in the order of their times, `mid` is the loop's state before feeding.
   */
  method TimersReify(l: EventLoop)
    returns (ghost fed: seq<nat>, ghost midQueues: seq<seq<Pending>>, ghost mid: seq<Watcher>)
    requires Valid(l) && l.rfeeds == []
    modifies l`timers, l`ws, l`pendings, l`rfeeds
    ensures Valid(l) && l.rfeeds == [] && Late(l.ws, l.now) == {}
    ensures Taken(old(l.ws), l.now, mid, fed) && forall x :: x in fed <==> x in Late(old(l.ws), l.now)
    ensures PendingFrom(mid, l.ws, fed, 0) && QueuesTaken(old(l.pendings), old(l.ws), fed, midQueues)
    ensures SameAfter(midQueues, mid, fed, l.pendings, l.ws, []) && EventsFed(midQueues, fed, {EV_TIMER}, l.pendings)
  {
    TakeExpired(l);
    fed, midQueues, mid := l.rfeeds, l.pendings, l.ws;
    forall x: nat ensures x in fed <==> x in Late(old(l.ws), l.now) {
      LateLeft(old(l.ws), l.now, mid, fed, x);
      if x in fed { assert IsLate(old(l.ws), l.now, x); }
    }
    NoEventsYet(l.pendings, {EV_TIMER});
    if l.rfeeds != [] {
      FeedReverseDone(l, {EV_TIMER});
    }
    HeapKept(l.timers, mid, l.ws);
    LateKept(mid, l.ws, l.now);
  }

  // ---- Emptying the queues ---------------------------------------------------------------------------

  function Reversed<T>(s: seq<T>): seq<T> {
    if s == [] then [] else [s[|s| - 1]] + Reversed(s[..|s| - 1])
  }

  /** The order in which the queues are emptied: highest priority first, each from its end. */
  ghost function Drained(qs: seq<seq<Pending>>): seq<Option<nat>> {
    if qs == [] then [] else Reversed(Whose(qs[|qs| - 1])) + Drained(qs[..|qs| - 1])
  }

  /** The last place of queue `p` is given up. */
  ghost predicate Popped(qs: seq<seq<Pending>>, ws: seq<Watcher>, p: nat, qs': seq<seq<Pending>>, ws': seq<Watcher>) {
    && p < |qs| && qs[p] != [] && qs' == qs[p := qs[p][..|qs[p]| - 1]]
    && ws' == match qs[p][|qs[p]| - 1].w
              case None => ws
              case Some(x) => if x < |ws| then ws[x := ws[x].(pending := 0)] else ws
  }

  lemma PoppedOk(qs: seq<seq<Pending>>, ws: seq<Watcher>, p: nat, qs': seq<seq<Pending>>, ws': seq<Watcher>)
    requires QueuesOk(qs, ws) && Popped(qs, ws, p, qs', ws')
    ensures QueuesOk(qs', ws')
  {
    forall x | 0 <= x < |ws'| ensures PlaceOk(qs', ws', x) {
      assert PlaceOk(qs, ws, x);
    }
    forall q, i | 0 <= q < |qs'| && 0 <= i < |qs'[q]| && qs'[q][i].w.Some?
      ensures qs'[q][i].w.value < |ws'| && ws'[qs'[q][i].w.value].pri == q && ws'[qs'[q][i].w.value].pending == i + 1 {
      assert qs'[q][i] == qs[q][i];
    }
  }

  /** `ev_invoke_pending`, for callbacks that queue nothing: the order in which watchers are called. */
  method InvokePending(l: EventLoop) returns (called: seq<Option<nat>>)
    requires QueuesOk(l.pendings, l.ws)
    modifies l`pendings, l`ws
    ensures called == Drained(old(l.pendings)) && QueuesOk(l.pendings, l.ws)
    ensures |l.pendings| == |old(l.pendings)| && forall p :: 0 <= p < |l.pendings| ==> l.pendings[p] == []
  {
    called := [];
    ghost var qs0 := l.pendings;
    var pri := |l.pendings|;
    assert qs0[..pri] == qs0;
    while pri > 0
      invariant 0 <= pri && QueuesOk(l.pendings, l.ws) && EmptyFrom(qs0, l.pendings, pri)
      invariant called + Drained(qs0[..pri]) == Drained(qs0)
    {
      pri := pri - 1;
      ghost var qs, was := l.pendings, called;
      called := DrainOne(l, pri, called);
      DrainedStep(qs0, qs, l.pendings, pri, was, called);
    }
  }

  /** The queues from `pri` on are empty, the others are as they were. */
  ghost predicate EmptyFrom(qs0: seq<seq<Pending>>, qs: seq<seq<Pending>>, pri: nat) {
    pri <= |qs| == |qs0| && forall p :: 0 <= p < |qs| ==> qs[p] == if p < pri then qs0[p] else []
  }

  lemma DrainedStep(qs0: seq<seq<Pending>>, qs: seq<seq<Pending>>, qs': seq<seq<Pending>>, pri: nat,
                    was: seq<Option<nat>>, called: seq<Option<nat>>)
    requires EmptyFrom(qs0, qs, pri + 1) && qs' == qs[pri := []] && called == was + Reversed(Whose(qs[pri]))
    ensures EmptyFrom(qs0, qs', pri) && called + Drained(qs0[..pri]) == was + Drained(qs0[..pri + 1])
  {
    assert qs0[..pri + 1][..pri] == qs0[..pri];
  }

  /** One queue. */
  method DrainOne(l: EventLoop, pri: nat, before: seq<Option<nat>>) returns (called: seq<Option<nat>>)
    requires QueuesOk(l.pendings, l.ws) && pri < |l.pendings|
    modifies l`pendings, l`ws
    ensures QueuesOk(l.pendings, l.ws) && l.pendings == old(l.pendings)[pri := []]
    ensures called == before + Reversed(Whose(old(l.pendings)[pri]))
  {
    called := before;
    ghost var qs0 := l.pendings;
    while l.pendings[pri] != []
      invariant |l.pendings| == |qs0| && QueuesOk(l.pendings, l.ws) && l.pendings == qs0[pri := l.pendings[pri]]
      invariant called + Reversed(Whose(l.pendings[pri])) == before + Reversed(Whose(qs0[pri]))
      decreases |l.pendings[pri]|
    {
      ghost var qs, ws := l.pendings, l.ws;
      var q := l.pendings[pri];
      var last := q[|q| - 1];
      l.pendings := l.pendings[pri := q[..|q| - 1]];
      if last.w.Some? && last.w.value < |l.ws| {
        l.ws := l.ws[last.w.value := l.ws[last.w.value].(pending := 0)];
      }
      PoppedOk(qs, ws, pri, l.pendings, l.ws);
      assert Whose(q)[..|q| - 1] == Whose(q[..|q| - 1]);
      called := called + [last.w];
    }
  }

  // ---- In the order of their times ---------------------------------------------------------------------

  lemma {:induction false} AddedFrom(f: seq<nat>, ws: seq<Watcher>, p: nat, i: nat)
    requires i < |Added(f, ws, p)|
    ensures Added(f, ws, p)[i] in f
  {
    var n := |f| - 1;
    var one := if f[n] < |ws| && ws[f[n]].pri == p && ws[f[n]].pending == 0 then 1 else 0;
    if i >= one { AddedFrom(f[..n], ws, p, i - one); }
  }

  /** Fed in reverse, later timers get their places first. */
  lemma {:induction false} AddedDescends(ws0: seq<Watcher>, f: seq<nat>, ws: seq<Watcher>, p: nat, i: nat, j: nat)
    requires forall a :: 0 <= a < |f| ==> f[a] < |ws0|
    requires forall a, b :: 0 <= a < b < |f| ==> ws0[f[a]].at <= ws0[f[b]].at
    requires i < j < |Added(f, ws, p)|
    ensures Added(f, ws, p)[i] < |ws0| && Added(f, ws, p)[j] < |ws0|
    ensures ws0[Added(f, ws, p)[j]].at <= ws0[Added(f, ws, p)[i]].at
  {
    var n := |f| - 1;
    var one := if f[n] < |ws| && ws[f[n]].pri == p && ws[f[n]].pending == 0 then 1 else 0;
    AddedFrom(f, ws, p, i);
    AddedFrom(f, ws, p, j);
    if i >= one {
      AddedDescends(ws0, f[..n], ws, p, i - one, j - one);
    } else {
      AddedFrom(f[..n], ws, p, j - 1);
    }
  }

  lemma {:induction false} ReversedAt<T>(s: seq<T>, i: nat)
    requires i < |s|
    ensures |Reversed(s)| == |s| && Reversed(s)[i] == s[|s| - 1 - i]
    decreases |s|
  {
    var n := |s| - 1;
    if n > 0 { ReversedAt(s[..n], if i > 0 then i - 1 else 0); }
  }

  // ---- A turn of the loop ------------------------------------------------------------------------------

  /** The timer is expired, and has no place in a queue that it keeps. */
  ghost predicate NewlyLate(ws: seq<Watcher>, now: real, x: nat) {
    IsLate(ws, now, x) && (ws[x].pending == 0 || ws[x].repeat == 0.0)
  }

  /** One watcher is called before another. */
  ghost predicate CalledBefore(called: seq<Option<nat>>, x: nat, y: nat) {
    exists a, b :: 0 <= a < b < |called| && called[a] == Some(x) && called[b] == Some(y)
  }

  /**
    The timers' part of a turn of the event loop: every expired timer is called, and of those of one priority
    that were not waiting already, an earlier one before a later one.
   */
  method RunTimers(l: EventLoop) returns (called: seq<Option<nat>>)
    requires Valid(l) && l.rfeeds == []
    modifies l`timers, l`ws, l`pendings, l`rfeeds
    ensures AllCalled(old(l.ws), l.now, called) && CalledByTime(old(l.ws), l.now, called)
    ensures QueuesOk(l.pendings, l.ws) && forall p :: 0 <= p < |l.pendings| ==> l.pendings[p] == []
  {
    ghost var ws0 := l.ws;
    ghost var fed, midQueues, mid := TimersReify(l);
    ghost var qs, ws := l.pendings, l.ws;
    called := InvokePending(l);
    ReifiedCalled(ws0, l.now, mid, fed, midQueues, qs, ws);
  }

  ghost predicate AllCalled(ws: seq<Watcher>, now: real, called: seq<Option<nat>>) {
    forall x :: x in Late(ws, now) ==> Some(x) in called
  }

  ghost predicate CalledByTime(ws: seq<Watcher>, now: real, called: seq<Option<nat>>) {
    forall x: nat, y: nat :: Precedes(ws, now, x, y) ==> CalledBefore(called, x, y)
  }

  /** Both have just expired, at the same priority, one earlier. */
  ghost predicate Precedes(ws: seq<Watcher>, now: real, x: nat, y: nat) {
    NewlyLate(ws, now, x) && NewlyLate(ws, now, y) && ws[x].pri == ws[y].pri && ws[x].at < ws[y].at
  }

  lemma ReifiedCalled(ws0: seq<Watcher>, now: real, mid: seq<Watcher>, fed: seq<nat>, midQueues: seq<seq<Pending>>,
                      qs: seq<seq<Pending>>, ws: seq<Watcher>)
    requires Taken(ws0, now, mid, fed) && forall x :: x in fed <==> x in Late(ws0, now)
    requires PendingFrom(mid, ws, fed, 0) && QueuesOk(qs, ws) && SameAfter(midQueues, mid, fed, qs, ws, [])
    ensures AllCalled(ws0, now, Drained(qs)) && CalledByTime(ws0, now, Drained(qs))
  {
    forall x | x in Late(ws0, now) ensures Some(x) in Drained(qs) {
      LateIsCalled(mid, ws, fed, qs, x);
    }
    forall x: nat, y: nat | Precedes(ws0, now, x, y) ensures CalledBefore(Drained(qs), x, y) {
      assert x in Late(ws0, now) && y in Late(ws0, now);
      LateInOrder(ws0, now, mid, fed, midQueues, qs, ws, x, y);
    }
  }

  /** A queue's watchers are called one after the other, the last first. */
  lemma {:induction false} DrainedPart(qs: seq<seq<Pending>>, p: nat) returns (o: nat)
    requires p < |qs|
    ensures o + |qs[p]| <= |Drained(qs)|
    ensures forall i {:trigger qs[p][i]} :: 0 <= i < |qs[p]| ==> Drained(qs)[o + (|qs[p]| - 1 - i)] == qs[p][i].w
    decreases |qs|
  {
    var n := |qs| - 1;
    var last := Whose(qs[n]);
    ReversedLength(last);
    if p == n {
      o := 0;
      forall i | 0 <= i < |qs[p]| ensures Drained(qs)[o + (|qs[p]| - 1 - i)] == qs[p][i].w {
        ReversedAt(last, |last| - 1 - i);
      }
    } else {
      var o' := DrainedPart(qs[..n], p);
      o := |last| + o';
      assert Drained(qs) == Reversed(last) + Drained(qs[..n]) && qs[..n][p] == qs[p];
    }
  }

  lemma {:induction false} ReversedLength<T>(s: seq<T>)
    ensures |Reversed(s)| == |s|
  {
    if s != [] { ReversedLength(s[..|s| - 1]); }
  }

  lemma LateIsCalled(mid: seq<Watcher>, ws: seq<Watcher>, fed: seq<nat>, qs: seq<seq<Pending>>, x: nat)
    requires PendingFrom(mid, ws, fed, 0) && QueuesOk(qs, ws) && x in fed
    ensures Some(x) in Drained(qs)
  {
    var i :| 0 <= i < |fed| && fed[i] == x;
    assert PlaceOk(qs, ws, x) && ws[fed[i]].pending > 0;
    var o := DrainedPart(qs, ws[x].pri);
    assert qs[ws[x].pri][ws[x].pending - 1].w == Some(x);
  }

  /** A watcher without a place gets one. */
  lemma {:induction false} AddedHas(f: seq<nat>, ws: seq<Watcher>, x: nat) returns (i: nat)
    requires x in f && x < |ws| && ws[x].pending == 0
    ensures i < |Added(f, ws, ws[x].pri)| && Added(f, ws, ws[x].pri)[i] == x
    decreases |f|
  {
    var n, p := |f| - 1, ws[x].pri;
    if f[n] == x {
      i := 0;
    } else {
      assert f == f[..n] + [f[n]];
      i := AddedHas(f[..n], ws, x);
      i := i + if f[n] < |ws| && ws[f[n]].pri == p && ws[f[n]].pending == 0 then 1 else 0;
    }
  }

  lemma NoPlaceKept(ws0: seq<Watcher>, now: real, mid: seq<Watcher>, fed: seq<nat>, x: nat)
    requires Taken(ws0, now, mid, fed) && x in fed && NewlyLate(ws0, now, x)
    ensures mid[x].pending == 0 && mid[x].pri == ws0[x].pri
  {
    var i :| 0 <= i < |fed| && fed[i] == x;
    assert TakenAs(ws0[fed[i]], mid[fed[i]], now);
  }

  lemma LateInOrder(ws0: seq<Watcher>, now: real, mid: seq<Watcher>, fed: seq<nat>, midQueues: seq<seq<Pending>>,
                    qs: seq<seq<Pending>>, ws: seq<Watcher>, x: nat, y: nat)
    requires Taken(ws0, now, mid, fed) && x in fed && y in fed && Precedes(ws0, now, x, y)
    requires PendingFrom(mid, ws, fed, 0) && QueuesOk(qs, ws) && SameAfter(midQueues, mid, fed, qs, ws, [])
    ensures CalledBefore(Drained(qs), x, y)
  {
    var p := ws0[x].pri;
    NoPlaceKept(ws0, now, mid, fed, x);
    NoPlaceKept(ws0, now, mid, fed, y);
    assert PlaceOk(qs, ws, x) && ws[x].pri == p;
    var i, j := AddedInOrder(ws0, now, mid, fed, x, y, p);
    assert QueueAfter(qs, ws, [], p) == QueueAfter(midQueues, mid, fed, p);
    PlacesAre(qs[p], Whose(midQueues[p]), Added(fed, mid, p));
    BeforeByPlace(qs, p, |midQueues[p]| + i, |midQueues[p]| + j, x, y);
  }

  /** The later timer gets its place first. */
  lemma AddedInOrder(ws0: seq<Watcher>, now: real, mid: seq<Watcher>, fed: seq<nat>, x: nat, y: nat, p: nat)
    returns (i: nat, j: nat)
    requires Taken(ws0, now, mid, fed) && x in fed && y in fed && x < |ws0| && y < |ws0| && ws0[x].at < ws0[y].at
    requires mid[x].pending == 0 && mid[y].pending == 0 && mid[x].pri == p == mid[y].pri
    ensures j < i < |Added(fed, mid, p)| && Added(fed, mid, p)[i] == x && Added(fed, mid, p)[j] == y
  {
    i := AddedHas(fed, mid, x);
    j := AddedHas(fed, mid, y);
    if i < j { AddedDescends(ws0, fed, mid, p, i, j); }
  }

  lemma BeforeByPlace(qs: seq<seq<Pending>>, p: nat, a: nat, b: nat, x: nat, y: nat)
    requires p < |qs| && b < a < |qs[p]| && qs[p][a].w == Some(x) && qs[p][b].w == Some(y)
    ensures CalledBefore(Drained(qs), x, y)
  {
    var o := DrainedPart(qs, p);
    var m, n := o + (|qs[p]| - 1 - a), o + (|qs[p]| - 1 - b);
    assert Drained(qs)[m] == Some(x) && Drained(qs)[n] == Some(y);
  }

  lemma PlacesAre(q: seq<Pending>, base: seq<Option<nat>>, added: seq<nat>)
    requires Whose(q) + Somes([]) == base + Somes(added)
    ensures |q| == |base| + |added| && forall k {:trigger added[k]} :: 0 <= k < |added| ==>
              q[|base| + k].w == Some(added[k])
  {
    assert Whose(q) == base + Somes(added);
    forall k | 0 <= k < |added| ensures q[|base| + k].w == Some(added[k]) {
      assert Whose(q)[|base| + k] == Somes(added)[k];
    }
  }
}
