/**
  The additional section while it is built apart from the packet: records whose owner
  names point into the packet, grouped in address rrsets that can be unwound.
 */
module Additional {
  import opened Names
  import opened Decoder
  import opened Compression
  import opened Message
  import opened Sections

  /**
    The addresses of one node: `id` identifies the rrset; `v4` and `v6` are the addresses, for a dynamic
    rrset the ones its plugin returned; the limits are in effect, that is already adjusted to the counts.
   */
  datatype AddrSet = AddrSet(id: nat, ttl: Bytes, v4: seq<Bytes>, v6: seq<Bytes>, limitV4: nat, limitV6: nat)

  ghost predicate AddrSetLegal(a: AddrSet) {
    |a.ttl| == 4 && a.limitV4 <= |a.v4| && a.limitV6 <= |a.v6| &&
    (forall i :: 0 <= i < |a.v4| ==> |a.v4[i]| == 4) && (forall i :: 0 <= i < |a.v6| ==> |a.v6[i]| == 16)
  }

  /** A limit in effect, for `n` addresses. */
  function LimitFor(limit: nat, n: nat): nat { if limit == 0 || limit > n then n else limit }

  function InEffect(a: AddrSet): AddrSet {
    a.(limitV4 := LimitFor(a.limitV4, |a.v4|), limitV6 := LimitFor(a.limitV6, |a.v6|))
  }

  /**
    `fix_addr_limits`: no limit, or one beyond the number of addresses, becomes that number.  A limit in
    effect is 0 only for no addresses.
   */
  method FixAddrLimits(a: AddrSet) returns (r: AddrSet)
    ensures r == InEffect(a)
    ensures r == a.(limitV4 := r.limitV4, limitV6 := r.limitV6) && r.limitV4 <= |a.v4| && r.limitV6 <= |a.v6|
    ensures (r.limitV4 == 0 <==> a.v4 == []) && (r.limitV6 == 0 <==> a.v6 == [])
    ensures (0 < a.limitV4 <= |a.v4| ==> r.limitV4 == a.limitV4) && (0 < a.limitV6 <= |a.v6| ==> r.limitV6 == a.limitV6)
  {
    r := a;
    if r.limitV4 == 0 || r.limitV4 > |r.v4| {
      r := r.(limitV4 := |r.v4|);
    }
    if r.limitV6 == 0 || r.limitV6 > |r.v6| {
      r := r.(limitV6 := |r.v6|);
    }
  }

  const TYPE_CLASS_A: Bytes := [0, 1, 0, 1]
  const TYPE_CLASS_AAAA: Bytes := [0, 28, 0, 1]

  // ---- One address family ---------------------------------------------------------------

  function LimitOf(a: AddrSet, v6: bool): nat { if v6 then a.limitV6 else a.limitV4 }

  function AddrsOf(a: AddrSet, v6: bool): seq<Bytes> { if v6 then a.v6 else a.v4 }

  function FixedOf(a: AddrSet, v6: bool): Bytes { (if v6 then TYPE_CLASS_AAAA else TYPE_CLASS_A) + a.ttl }

  /** Where an additional rrset began, for unwinding. */
  datatype Unwind = Unwind(rrset: AddrSet, prevOffset: nat, prevArcount: nat)

  /** An address record in the store: where it starts, where its owner name ends, and what it is to say. */
  datatype Extra = Extra(at: nat, body: nat, name: Name, fixed: Bytes, addr: Bytes)

  function EndOf(x: Extra): nat { x.body + 10 + |x.addr| }

  // ---- The records ------------------------------------------------------------------------

  /** The fixed fields, the data length and the address are in the store. */
  ghost predicate ExtraIn(a: Bytes, x: Extra) {
    && x.at < x.body && EndOf(x) <= |a| && |x.fixed| == 8 && a[x.body..x.body + 8] == x.fixed
    && U16Value(a[x.body + 8], a[x.body + 9]) == |x.addr| && a[x.body + 10..EndOf(x)] == x.addr
  }

  /** The owner name in the store, read with pointers into the packet. */
  ghost predicate OwnerReads(packet: Bytes, a: Bytes, x: Extra) {
    && x.at + 1 < |a|
    && ((a[x.at] == 0 && x.name == [] && x.body == x.at + 1)
    || (a[x.at] >= 0xC0 && x.body == x.at + 2 &&
        var t := PointerValue(a[x.at], a[x.at + 1]);
        HEADER <= t && StartsLabel(packet, t) && Denotes(packet, t, x.name)))
  }

  ghost predicate ExtrasIn(a: Bytes, xs: seq<Extra>) {
    forall k {:trigger ExtraIn(a, xs[k])} :: 0 <= k < |xs| ==> ExtraIn(a, xs[k])
  }

  ghost predicate OwnersRead(packet: Bytes, a: Bytes, xs: seq<Extra>) {
    forall k {:trigger OwnerReads(packet, a, xs[k])} :: 0 <= k < |xs| ==> OwnerReads(packet, a, xs[k])
  }

  /** The records fill the store from its start to `end` without a gap. */
  ghost predicate Packed(xs: seq<Extra>, end: nat) {
    if xs == [] then end == 0
    else EndOf(xs[|xs| - 1]) == end && Packed(xs[..|xs| - 1], xs[|xs| - 1].at)
  }

  /** Where the `k`-th record starts; `end` for the one after the last. */
  function StartOf(xs: seq<Extra>, k: nat, end: nat): nat
    requires k <= |xs|
  {
    if k < |xs| then xs[k].at else end
  }

  lemma {:induction false} PackedPrefix(xs: seq<Extra>, end: nat, k: nat)
    requires Packed(xs, end) && k <= |xs|
    ensures Packed(xs[..k], StartOf(xs, k, end))
    decreases |xs|
  {
    if k < |xs| {
      var n := |xs| - 1;
      PackedPrefix(xs[..n], xs[n].at, k);
      assert xs[..n][..k] == xs[..k];
    } else {
      assert xs[..k] == xs;
    }
  }

  /** Records do not overlap. */
  lemma {:induction false} PackedOrder(xs: seq<Extra>, end: nat, i: nat, k: nat)
    requires Packed(xs, end) && i < k <= |xs| && forall j :: 0 <= j < |xs| ==> xs[j].at <= EndOf(xs[j])
    ensures EndOf(xs[i]) <= StartOf(xs, k, end) <= end
    decreases |xs|
  {
    var n := |xs| - 1;
    if k <= n {
      PackedOrder(xs[..n], xs[n].at, i, k);
    } else if i < n {
      PackedOrder(xs[..n], xs[n].at, i, n);
    }
  }

  // ---- The rrsets -------------------------------------------------------------------------

  /** Where the `i`-th rrset begins; the store's end for the one after the last. */
  function Begins(a: Bytes, us: seq<Unwind>, i: nat): nat
    requires i <= |us|
  {
    if i < |us| then us[i].prevOffset else |a|
  }

  /** How many records precede the `i`-th rrset. */
  function CountBefore(xs: seq<Extra>, us: seq<Unwind>, i: nat): nat
    requires i <= |us|
  {
    if i < |us| then us[i].prevArcount else |xs|
  }

  /** The unwind entry's offset and record count belong together. */
  ghost predicate Aligned(a: Bytes, us: seq<Unwind>, xs: seq<Extra>, i: nat)
    requires i <= |us|
  {
    CountBefore(xs, us, i) <= |xs| && Begins(a, us, i) == StartOf(xs, CountBefore(xs, us, i), |a|)
  }

  /** The unwind list cuts the store into consecutive runs of whole records, one per rrset, all different. */
  ghost predicate Unwindable(a: Bytes, us: seq<Unwind>, xs: seq<Extra>) {
    && Begins(a, us, 0) == 0 && CountBefore(xs, us, 0) == 0
    && (forall i :: 0 <= i <= |us| ==> Aligned(a, us, xs, i))
    && (forall i, j :: 0 <= i <= j <= |us| ==> CountBefore(xs, us, i) <= CountBefore(xs, us, j))
    && (forall i, j :: 0 <= i < j < |us| ==> us[i].rrset != us[j].rrset)
  }

  /**
    What the additional store promises.  An owner stored beyond a pointer's reach is outside the promise;
    `strayed` says there was one, which needs a packet longer than 16384 bytes.
   */
  ghost predicate AddtlOk(packet: Bytes, a: Bytes, us: seq<Unwind>, xs: seq<Extra>, strayed: bool) {
    && (strayed ==> |packet| > POINTER_SPAN)
    && Unwindable(a, us, xs) && Packed(xs, |a|) && ExtrasIn(a, xs)
    && (!strayed ==> OwnersRead(packet, a, xs))
  }

  lemma AddtlStart(packet: Bytes)
    ensures AddtlOk(packet, [], [], [], false)
  {
    assert Aligned([], [], [], 0);
  }

  lemma AddtlExtend(packet: Bytes, e: Bytes, a: Bytes, us: seq<Unwind>, xs: seq<Extra>, strayed: bool)
    requires AddtlOk(packet, a, us, xs, strayed)
    ensures AddtlOk(packet + e, a, us, xs, strayed)
  {
    if !strayed {
      forall k | 0 <= k < |xs| ensures OwnerReads(packet + e, a, xs[k]) {
        assert OwnerReads(packet, a, xs[k]);
        OwnerExtend(packet, e, a, xs[k]);
      }
    }
  }

  lemma OwnerExtend(packet: Bytes, e: Bytes, a: Bytes, x: Extra)
    requires OwnerReads(packet, a, x)
    ensures OwnerReads(packet + e, a, x)
  {
    if a[x.at] != 0 {
      var t := PointerValue(a[x.at], a[x.at + 1]);
      assert (packet + e)[t] == packet[t];
      ReadsExtend(packet, e, t, t, t, x.name);
    }
  }

  /** Starting an rrset: remember where it begins. */
  lemma AddtlTrack(packet: Bytes, a: Bytes, us: seq<Unwind>, xs: seq<Extra>, strayed: bool, rrset: AddrSet)
    requires AddtlOk(packet, a, us, xs, strayed)
    requires forall i :: 0 <= i < |us| ==> us[i].rrset != rrset
    ensures AddtlOk(packet, a, us + [Unwind(rrset, |a|, |xs|)], xs, strayed)
  {
    var us' := us + [Unwind(rrset, |a|, |xs|)];
    forall i | 0 <= i <= |us'| ensures Aligned(a, us', xs, i)
      ensures CountBefore(xs, us', i) == CountBefore(xs, us, if i <= |us| then i else |us|) {
      assert Aligned(a, us, xs, if i <= |us| then i else |us|);
    }
    assert Begins(a, us', 0) == Begins(a, us, 0);
  }

  /** A record at the store's end: `owner` and the rest of it. */
  ghost function PutExtra(a: Bytes, owner: Bytes, fixed: Bytes, addr: Bytes): Bytes {
    a + (owner + (fixed + U16(|addr|) + addr))
  }

  lemma {:induction false} PutExtraIn(a: Bytes, owner: Bytes, name: Name, fixed: Bytes, addr: Bytes)
    requires |owner| > 0 && |fixed| == 8 && |addr| < 0x10000
    ensures ExtraIn(PutExtra(a, owner, fixed, addr), Extra(|a|, |a| + |owner|, name, fixed, addr))
    ensures |PutExtra(a, owner, fixed, addr)| == |a| + |owner| + 10 + |addr|
    ensures a <= PutExtra(a, owner, fixed, addr)
  {
    var rest := fixed + U16(|addr|) + addr;
    var a', n := a + (owner + rest), |a| + |owner|;
    assert a' == (a + owner) + rest;
    assert a'[n..] == rest;
    assert a'[n..n + 8] == rest[..8] == fixed;
    assert a'[n + 8] == rest[8] && a'[n + 9] == rest[9];
    assert a'[n + 10..n + 10 + |addr|] == rest[10..] == addr;
    U16RoundTrip(|addr|);
  }

  lemma ExtraStays(a: Bytes, a': Bytes, x: Extra)
    requires ExtraIn(a, x) && a <= a'
    ensures ExtraIn(a', x)
  {
    assert a'[x.body..x.body + 8] == a[x.body..x.body + 8] && a'[x.body + 10..EndOf(x)] == a[x.body + 10..EndOf(x)];
  }

  lemma ExtrasPut(a: Bytes, a': Bytes, xs: seq<Extra>, x: Extra)
    requires ExtrasIn(a, xs) && a <= a' && ExtraIn(a', x)
    ensures ExtrasIn(a', xs + [x])
  {
    var xs' := xs + [x];
    forall k | 0 <= k < |xs'| ensures ExtraIn(a', xs'[k]) {
      if k < |xs| { ExtraStays(a, a', xs[k]); }
    }
  }

  /** The rrsets are where they were after a record has been added to the last one. */
  lemma UnwindPut(a: Bytes, a': Bytes, us: seq<Unwind>, xs: seq<Extra>, x: Extra)
    requires Unwindable(a, us, xs) && us != [] && x.at == |a|
    ensures Unwindable(a', us, xs + [x])
  {
    var xs' := xs + [x];
    forall i | 0 <= i <= |us| ensures Aligned(a', us, xs', i) {
      assert Aligned(a, us, xs, i);
    }
    forall i, j | 0 <= i <= j <= |us| ensures CountBefore(xs', us, i) <= CountBefore(xs', us, j) {
      assert CountBefore(xs, us, i) <= CountBefore(xs, us, j);
      assert Aligned(a, us, xs, i);
    }
    assert Begins(a, us, 0) == Begins(a', us, 0) && CountBefore(xs, us, 0) == CountBefore(xs', us, 0);
  }

  /** Adding one record to the rrset being written; `within` says its owner is in a pointer's reach. */
  lemma AddtlPut(packet: Bytes, a: Bytes, us: seq<Unwind>, xs: seq<Extra>, strayed: bool, owner: Bytes, at: nat,
                 fixed: Bytes, addr: Bytes, name: Name, within: bool)
    requires AddtlOk(packet, a, us, xs, strayed) && us != [] && |fixed| == 8 && |addr| < 0x10000 && |owner| > 0
    requires within ==> Repeatable(packet, at) && Denotes(packet, at, name) && owner == RepeatBytes(packet, at)
    requires !within ==> |packet| > POINTER_SPAN
    ensures AddtlOk(packet, PutExtra(a, owner, fixed, addr), us, xs + [Extra(|a|, |a| + |owner|, name, fixed, addr)],
                    strayed || !within)
  {
    var a', x := PutExtra(a, owner, fixed, addr), Extra(|a|, |a| + |owner|, name, fixed, addr);
    PutExtraIn(a, owner, name, fixed, addr);
    ExtrasPut(a, a', xs, x);
    UnwindPut(a, a', us, xs, x);
    assert (xs + [x])[..|xs|] == xs;
    if !strayed && within {
      OwnersPut(packet, a, a', xs, x, at);
    }
  }

  lemma OwnersPut(packet: Bytes, a: Bytes, a': Bytes, xs: seq<Extra>, x: Extra, at: nat)
    requires ExtrasIn(a, xs) && OwnersRead(packet, a, xs) && a <= a' && ExtraIn(a', x)
    requires Repeatable(packet, at) && Denotes(packet, at, x.name)
    requires x.at == |a| && x.body == |a| + |RepeatBytes(packet, at)| && RepeatBytes(packet, at) <= a'[|a|..]
    ensures OwnersRead(packet, a', xs + [x])
  {
    OwnerPut(packet, a, a', x, at);
    var xs' := xs + [x];
    forall k | 0 <= k < |xs'| ensures OwnerReads(packet, a', xs'[k]) {
      if k < |xs| { assert OwnerReads(packet, a, xs[k]); }
    }
  }

  lemma OwnerPut(packet: Bytes, a: Bytes, a': Bytes, x: Extra, at: nat)
    requires a <= a' && ExtraIn(a', x) && Repeatable(packet, at) && Denotes(packet, at, x.name)
    requires x.at == |a| && x.body == |a| + |RepeatBytes(packet, at)| && RepeatBytes(packet, at) <= a'[|a|..]
    ensures OwnerReads(packet, a', x)
  {
    var owner := RepeatBytes(packet, at);
    assert a'[|a|] == owner[0];
    if packet[at] >= 0x40 {
      assert a'[|a| + 1] == owner[1];
      var t := PointerValue(packet[at], packet[at + 1]);
      assert Denotes(packet, t, x.name);
    } else if packet[at] != 0 {
      assert a'[|a| + 1] == owner[1];
      PointerRoundTrip(at);
    }
  }

  // ---- What an rrset's records are ----------------------------------------------------------

  /** The `j`-th index of a round over `n` that starts at `start`. */
  function Turn(n: nat, start: nat, j: nat): nat
    requires start < n && j < n
  {
    if start + j < n then start + j else start + j - n
  }

  /** The step of the round at which index `i` comes up. */
  function TurnOf(n: nat, start: nat, i: nat): nat
    requires start < n && i < n
  {
    if i >= start then i - start else i + n - start
  }

  /** Such a round visits different indices, and all of them. */
  lemma TurnIsRound(n: nat, start: nat)
    requires start < n
    ensures forall i, j :: 0 <= i < j < n ==> Turn(n, start, i) != Turn(n, start, j)
    ensures forall i {:trigger TurnOf(n, start, i)} ::
              0 <= i < n ==> TurnOf(n, start, i) < n && Turn(n, start, TurnOf(n, start, i)) == i
  {
  }

  /** The records from the `lo`-th on are `limit` of the addresses, taken in a round from `start`. */
  ghost predicate Drawn(xs: seq<Extra>, lo: nat, fixed: Bytes, name: Name, addrs: seq<Bytes>, start: nat, limit: nat) {
    && limit <= |addrs| && (addrs != [] ==> start < |addrs|) && lo + limit <= |xs|
    && forall k :: lo <= k < lo + limit ==>
         xs[k].fixed == fixed && xs[k].name == name && xs[k].addr == addrs[Turn(|addrs|, start, k - lo)]
  }

  ghost predicate OneExtraMore(xs: seq<Extra>, xs': seq<Extra>, fixed: Bytes, name: Name, addr: Bytes) {
    && |xs'| == |xs| + 1 && xs <= xs'
    && xs'[|xs|].name == name && xs'[|xs|].fixed == fixed && xs'[|xs|].addr == addr
  }

  lemma DrawnStep(xs: seq<Extra>, xs': seq<Extra>, lo: nat, fixed: Bytes, name: Name, addrs: seq<Bytes>, start: nat,
                  count: nat)
    requires count < |addrs| && Drawn(xs, lo, fixed, name, addrs, start, count) && |xs| == lo + count
    requires OneExtraMore(xs, xs', fixed, name, addrs[Turn(|addrs|, start, count)])
    ensures Drawn(xs', lo, fixed, name, addrs, start, count + 1)
  {
  }

  /** The records from the `lo`-th up to the `hi`-th are an rrset's, both families, under `name`. */
  ghost predicate Carries(xs: seq<Extra>, lo: nat, hi: nat, a: AddrSet, name: Name) {
    lo + a.limitV4 + a.limitV6 == hi && exists s4, s6 :: BothDrawn(xs, lo, a, name, s4, s6)
  }

  ghost predicate BothDrawn(xs: seq<Extra>, lo: nat, a: AddrSet, name: Name, s4: nat, s6: nat) {
    && Drawn(xs, lo, FixedOf(a, false), name, AddrsOf(a, false), s4, LimitOf(a, false))
    && Drawn(xs, lo + a.limitV4, FixedOf(a, true), name, AddrsOf(a, true), s6, LimitOf(a, true))
  }

  /** All rrsets are complete under their owner's name, but for the answer's, of which only the other family is here. */
  ghost predicate Carried(us: seq<Unwind>, xs: seq<Extra>, owners: seq<Name>, answer: Option<AddrSet>) {
    |owners| == |us| &&
    forall i {:trigger CarriedAt(us, xs, owners, answer, i)} :: 0 <= i < |us| ==> CarriedAt(us, xs, owners, answer, i)
  }

  ghost predicate CarriedAt(us: seq<Unwind>, xs: seq<Extra>, owners: seq<Name>, answer: Option<AddrSet>, i: nat)
    requires i < |us| == |owners|
  {
    Some(us[i].rrset) != answer ==>
      Carries(xs, CountBefore(xs, us, i), CountBefore(xs, us, i + 1), us[i].rrset, owners[i])
  }

  lemma DrawnStays(xs: seq<Extra>, xs': seq<Extra>, lo: nat, fixed: Bytes, name: Name, addrs: seq<Bytes>, start: nat,
                   limit: nat)
    requires Drawn(xs, lo, fixed, name, addrs, start, limit)
    requires lo + limit <= |xs'| && forall k :: lo <= k < lo + limit ==> xs'[k] == xs[k]
    ensures Drawn(xs', lo, fixed, name, addrs, start, limit)
  {
  }

  lemma DrawnGrows(xs: seq<Extra>, xs': seq<Extra>, lo: nat, fixed: Bytes, name: Name, addrs: seq<Bytes>, start: nat,
                   limit: nat)
    requires Drawn(xs, lo, fixed, name, addrs, start, limit) && xs <= xs'
    ensures Drawn(xs', lo, fixed, name, addrs, start, limit)
  {
  }

  lemma CarriesStays(xs: seq<Extra>, xs': seq<Extra>, lo: nat, hi: nat, a: AddrSet, name: Name)
    requires Carries(xs, lo, hi, a, name) && hi <= |xs'| && xs'[..hi] == xs[..hi]
    ensures Carries(xs', lo, hi, a, name)
  {
    var s4: nat, s6: nat :| BothDrawn(xs, lo, a, name, s4, s6);
    forall k | 0 <= k < hi ensures xs'[k] == xs[k] { assert xs'[k] == xs'[..hi][k]; }
    DrawnStays(xs, xs', lo, FixedOf(a, false), name, AddrsOf(a, false), s4, LimitOf(a, false));
    DrawnStays(xs, xs', lo + a.limitV4, FixedOf(a, true), name, AddrsOf(a, true), s6, LimitOf(a, true));
    assert BothDrawn(xs', lo, a, name, s4, s6);
  }

  /** One family after the other makes an rrset. */
  lemma BothFamilies(mid: seq<Extra>, xs: seq<Extra>, lo: nat, a: AddrSet, name: Name, s4: nat, s6: nat)
    requires mid <= xs && |mid| == lo + LimitOf(a, false) && |xs| == |mid| + LimitOf(a, true)
    requires Drawn(mid, lo, FixedOf(a, false), name, AddrsOf(a, false), s4, LimitOf(a, false))
    requires Drawn(xs, |mid|, FixedOf(a, true), name, AddrsOf(a, true), s6, LimitOf(a, true))
    ensures Carries(xs, lo, |xs|, a, name)
  {
    DrawnGrows(mid, xs, lo, FixedOf(a, false), name, AddrsOf(a, false), s4, LimitOf(a, false));
    assert BothDrawn(xs, lo, a, name, s4, s6);
  }

  lemma CarriedNone(xs: seq<Extra>, answer: Option<AddrSet>)
    ensures Carried([], xs, [], answer)
  {
  }

  /** Writing out one more whole rrset. */
  lemma CarriedOneMore(us: seq<Unwind>, xs: seq<Extra>, owners: seq<Name>, xs': seq<Extra>, u: Unwind, name: Name,
                       answer: Option<AddrSet>)
    requires Carried(us, xs, owners, answer) && xs <= xs' && u.prevArcount == |xs|
    requires forall i :: 0 <= i <= |us| ==> CountBefore(xs, us, i) <= |xs|
    requires Carries(xs', |xs|, |xs'|, u.rrset, name)
    ensures Carried(us + [u], xs', owners + [name], answer)
  {
    var us', owners' := us + [u], owners + [name];
    forall i | 0 <= i < |us'| ensures CarriedAt(us', xs', owners', answer, i) {
      if i < |us| && Some(us[i].rrset) != answer {
        assert CarriedAt(us, xs, owners, answer, i);
        assert us'[i] == us[i] && CountBefore(xs, us, i + 1) <= |xs|;
        assert CountBefore(xs', us', i + 1) == CountBefore(xs, us, i + 1);
        CarriesStays(xs, xs', CountBefore(xs, us, i), CountBefore(xs, us, i + 1), us[i].rrset, owners[i]);
      }
    }
  }

  // ---- Unwinding, and putting it at the end of the packet --------------------------------------

  /** The store after unwinding to the first `n` rrsets. */
  ghost predicate UnwoundTo(a: Bytes, us: seq<Unwind>, xs: seq<Extra>, n: nat, a': Bytes, us': seq<Unwind>,
                            xs': seq<Extra>) {
    && n <= |us| && us' == us[..n] && CountBefore(xs, us, n) <= |xs| && xs' == xs[..CountBefore(xs, us, n)]
    && Begins(a, us, n) <= |a| && a' == a[..Begins(a, us, n)]
  }

  lemma UnwindCounts(a: Bytes, us: seq<Unwind>, xs: seq<Extra>, n: nat, a': Bytes, us': seq<Unwind>, xs': seq<Extra>)
    requires Unwindable(a, us, xs) && UnwoundTo(a, us, xs, n, a', us', xs')
    ensures Unwindable(a', us', xs')
  {
    forall i | 0 <= i <= n
      ensures Begins(a', us', i) == Begins(a, us, i) && CountBefore(xs', us', i) == CountBefore(xs, us, i) {}
    assert Aligned(a, us, xs, n);
    forall i | 0 <= i <= n ensures Aligned(a', us', xs', i) {
      assert Aligned(a, us, xs, i) && CountBefore(xs, us, i) <= CountBefore(xs, us, n);
    }
  }

  lemma UnwindExtras(a: Bytes, xs: seq<Extra>, k: nat, a': Bytes)
    requires Packed(xs, |a|) && ExtrasIn(a, xs) && k <= |xs| && a' <= a && |a'| == StartOf(xs, k, |a|)
    ensures Packed(xs[..k], |a'|) && ExtrasIn(a', xs[..k])
  {
    PackedPrefix(xs, |a|, k);
    assert forall j :: 0 <= j < |xs| ==> ExtraIn(a, xs[j]) ==> xs[j].at <= EndOf(xs[j]);
    forall i | 0 <= i < k ensures ExtraIn(a', xs[i]) {
      assert ExtraIn(a, xs[i]);
      PackedOrder(xs, |a|, i, k);
      ExtraCut(a, a', xs[i]);
    }
  }

  lemma ExtraCut(a: Bytes, a': Bytes, x: Extra)
    requires ExtraIn(a, x) && a' <= a && EndOf(x) <= |a'|
    ensures ExtraIn(a', x)
  {
    assert a'[x.body..x.body + 8] == a[x.body..x.body + 8] && a'[x.body + 10..EndOf(x)] == a[x.body + 10..EndOf(x)];
  }

  /** Unwinding to the first `n` rrsets leaves a store that promises as much. */
  lemma UnwindTo(packet: Bytes, a: Bytes, us: seq<Unwind>, xs: seq<Extra>, strayed: bool, n: nat)
    requires AddtlOk(packet, a, us, xs, strayed) && n <= |us|
    ensures Begins(a, us, n) <= |a| && CountBefore(xs, us, n) <= |xs|
    ensures AddtlOk(packet, a[..Begins(a, us, n)], us[..n], xs[..CountBefore(xs, us, n)], strayed)
  {
    var k := CountBefore(xs, us, n);
    assert Aligned(a, us, xs, n);
    if k < |xs| {
      assert ExtraIn(a, xs[k]);
    }
    var a' := a[..Begins(a, us, n)];
    UnwindCounts(a, us, xs, n, a', us[..n], xs[..k]);
    UnwindExtras(a, xs, k, a');
    if !strayed {
      forall i | 0 <= i < k ensures OwnerReads(packet, a', xs[i]) {
        assert ExtraIn(a', xs[..k][i]) && OwnerReads(packet, a, xs[i]);
      }
    }
  }

  /** The rrsets kept are as complete as they were. */
  lemma UnwindCarried(us: seq<Unwind>, xs: seq<Extra>, owners: seq<Name>, answer: Option<AddrSet>, n: nat)
    requires Carried(us, xs, owners, answer) && n <= |us| && CountBefore(xs, us, n) <= |xs|
    requires forall i, j :: 0 <= i <= j <= |us| ==> CountBefore(xs, us, i) <= CountBefore(xs, us, j)
    ensures Carried(us[..n], xs[..CountBefore(xs, us, n)], owners[..n], answer)
  {
    var us', xs', owners' := us[..n], xs[..CountBefore(xs, us, n)], owners[..n];
    forall i | 0 <= i < |us'| ensures CarriedAt(us', xs', owners', answer, i) {
      assert CarriedAt(us, xs, owners, answer, i);
      var hi := CountBefore(xs, us, i + 1);
      assert us'[i] == us[i] && hi <= CountBefore(xs, us, n) && CountBefore(xs', us', i + 1) == hi;
      assert xs'[..hi] == xs[..hi];
      if Some(us[i].rrset) != answer { CarriesStays(xs, xs', CountBefore(xs, us, i), hi, us[i].rrset, owners[i]); }
    }
  }

  /** A reader finds the record at `base` past its place in the store. */
  ghost predicate ExtraReads(p: Bytes, base: nat, x: Extra) {
    && SkipName(p, base + x.at) == Some(base + x.body) && Denotes(p, base + x.at, x.name)
    && base + EndOf(x) <= |p| && p[base + x.body..base + x.body + 8] == x.fixed
    && U16Value(p[base + x.body + 8], p[base + x.body + 9]) == |x.addr|
    && p[base + x.body + 10..base + EndOf(x)] == x.addr
  }

  /** Once copied behind the packet, every additional record is read there, owner name included. */
  lemma CopiedExtra(packet: Bytes, a: Bytes, x: Extra)
    requires ExtraIn(a, x) && OwnerReads(packet, a, x)
    ensures ExtraReads(packet + a, |packet|, x)
  {
    var r, b := packet + a, |packet|;
    assert r[b + x.at] == a[x.at] && r[b + x.at + 1] == a[x.at + 1];
    if a[x.at] != 0 {
      var t := PointerValue(a[x.at], a[x.at + 1]);
      assert r[t] == packet[t];
      ReadsExtend(packet, a, t, t, t, x.name);
    }
    assert r[b + x.body..b + x.body + 8] == a[x.body..x.body + 8];
    assert r[b + x.body + 8] == a[x.body + 8] && r[b + x.body + 9] == a[x.body + 9];
    assert r[b + x.body + 10..b + EndOf(x)] == a[x.body + 10..EndOf(x)];
  }

  ghost predicate ExtrasRead(p: Bytes, base: nat, xs: seq<Extra>) {
    forall k {:trigger ExtraReads(p, base, xs[k])} :: 0 <= k < |xs| ==> ExtraReads(p, base, xs[k])
  }

  lemma OneExtra(p: Bytes, base: nat, x: Extra, o: nat, end: nat)
    requires ExtraReads(p, base, x) && o == base + x.at && end == base + EndOf(x)
    ensures SkipRecords(p, o, 1) == Some(end)
  {
    assert SkipRecord(p, o) == Some(end);
    assert SkipRecords(p, end, 0) == Some(end);
  }

  lemma {:induction false} ExtrasSkip(p: Bytes, base: nat, xs: seq<Extra>, end: nat)
    requires Packed(xs, end) && ExtrasRead(p, base, xs)
    ensures SkipRecords(p, base, |xs|) == Some(base + end)
    decreases |xs|
  {
    if xs != [] {
      var n := |xs| - 1;
      assert ExtraReads(p, base, xs[n]);
      ExtrasSkip(p, base, xs[..n], xs[n].at);
      OneExtra(p, base, xs[n], base + xs[n].at, base + end);
      SkipRecordsAdd(p, base, n, 1);
    }
  }

  /** The copied section is exactly its records. */
  lemma CopiedHolds(packet: Bytes, a: Bytes, us: seq<Unwind>, xs: seq<Extra>)
    requires AddtlOk(packet, a, us, xs, false)
    ensures SkipRecords(packet + a, |packet|, |xs|) == Some(|packet + a|)
    ensures ExtrasRead(packet + a, |packet|, xs)
  {
    forall k | 0 <= k < |xs| ensures ExtraReads(packet + a, |packet|, xs[k]) {
      assert ExtraIn(a, xs[k]) && OwnerReads(packet, a, xs[k]);
      CopiedExtra(packet, a, xs[k]);
    }
    ExtrasSkip(packet + a, |packet|, xs, |a|);
  }
}
