/**
  Answering a query from the database: the search, the CNAME chain, the record sets of
  the answer, authority and additional sections, truncation and trimming.
 */
module Response {
  import opened Names
  import opened Decoder
  import opened Compression
  import opened Message
  import opened Sections
  import opened Records
  import opened Additional
  import opened Encoder
  import opened LookupRule
  import opened LabelTree

  const TYPE_A := 1
  const TYPE_NS := 2
  const TYPE_CNAME := 5
  const TYPE_SOA := 6
  const TYPE_PTR := 12
  const TYPE_AAAA := 28
  const TYPE_ANY := 255

  /** A record set at a node.  A dynamic CNAME carries the target its plugin gave for this query. */
  datatype Rrset =
    | AddrRrset(addrs: AddrSet)
    | CnameRrset(target: Bytes, ttl: Bytes, isStatic: bool)
    | PlainRrset(rtype: nat, rrs: seq<RrData>)

  ghost predicate RrsetLegal(r: Rrset) {
    match r
    case AddrRrset(a) => AddrSetLegal(a)
    case CnameRrset(t, ttl, _) => IsDname(t) && |ttl| == 4
    case PlainRrset(_, rrs) => RrsLegal(rrs)
  }

  ghost predicate NodeLegal(rrsets: seq<Rrset>) {
    forall i {:trigger RrsetLegal(rrsets[i])} :: 0 <= i < |rrsets| ==> RrsetLegal(rrsets[i])
  }

  predicate HasType(rrsets: seq<Rrset>, rtype: nat) {
    exists i :: 0 <= i < |rrsets| && rrsets[i].PlainRrset? && rrsets[i].rtype == rtype
  }

  /** The names that record owners repeat are where the context says. */
  ghost predicate NamesAt(c: Context, q: Name, z: Name)
    reads c`packet, c`qnameComp, c`authComp
  {
    NamesIn(c.packet, c.qnameComp, c.authComp, q, z)
  }

  ghost predicate NamesIn(p: Bytes, qnameComp: nat, authComp: nat, q: Name, z: Name) {
    && HEADER <= qnameComp < POINTER_SPAN && Denotes(p, qnameComp, q)
    && HEADER <= authComp < POINTER_SPAN && Denotes(p, authComp, z)
  }

  lemma NamesKept(p: Bytes, p': Bytes, qnameComp: nat, authComp: nat, q: Name, z: Name)
    requires NamesIn(p, qnameComp, authComp, q, z) && p <= p'
    ensures NamesIn(p', qnameComp, authComp, q, z)
  {
    StillThere(p, p', qnameComp, q);
    StillThere(p, p', authComp, z);
  }

  /** The response so far is as promised, and its counts are right. */
  ghost predicate Ok(c: Context)
    reads c`packet, c`targets, c`log, c`qend, c`records, c`addtlStore, c`addtlRrsets, c`extras, c`addtlOwners, c`strayed
    reads c`answerAddr, c`cnameAncount, c`ancount, c`nscount, c`arcount
  {
    c.Sane() && c.Complete() && |c.records| == c.cnameAncount + c.ancount + c.nscount
  }

  lemma RestLegal(rrsets: seq<Rrset>)
    requires rrsets != []
    ensures NodeLegal(rrsets) ==> RrsetLegal(rrsets[0]) && NodeLegal(rrsets[1..])
  {
    if NodeLegal(rrsets) {
      forall i | 0 <= i < |rrsets[1..]| ensures RrsetLegal(rrsets[1..][i]) {
        assert rrsets[1..][i] == rrsets[i + 1] && RrsetLegal(rrsets[i + 1]);
      }
    }
  }

  /** The node's plain record set of a type. */
  function FirstOf(rrsets: seq<Rrset>, rtype: nat): (rrs: seq<RrData>)
    ensures NodeLegal(rrsets) ==> RrsLegal(rrs)
  {
    if rrsets == [] then []
    else
      assert NodeLegal(rrsets) ==> RrsetLegal(rrsets[0]) && NodeLegal(rrsets[1..]) by { RestLegal(rrsets); }
      if rrsets[0].PlainRrset? && rrsets[0].rtype == rtype then rrsets[0].rrs
      else FirstOf(rrsets[1..], rtype)
  }

  /** `ltree_node_get_rrset_ns` and the like; the server asks only where validation has seen to it. */
  method GetRrset(rrsets: seq<Rrset>, rtype: nat) returns (rrs: seq<RrData>)
    requires HasType(rrsets, rtype)
    ensures rrs == FirstOf(rrsets, rtype)
  {
    var i := 0;
    assert rrsets[0..] == rrsets;
    while !(rrsets[i].PlainRrset? && rrsets[i].rtype == rtype)
      invariant 0 <= i < |rrsets|
      invariant forall j :: 0 <= j < i ==> !(rrsets[j].PlainRrset? && rrsets[j].rtype == rtype)
      invariant FirstOf(rrsets[i..], rtype) == FirstOf(rrsets, rtype)
      decreases |rrsets| - i
    {
      assert rrsets[i..][1..] == rrsets[i + 1..];
      i := i + 1;
    }
    rrs := rrsets[i].rrs;
  }

  /**
    The additional section is what the records `shown` call for: but for the first `t` rrsets, which are the
    answer's own, each is one that a record leads to, and all are there unless the list is full.
   */
  ghost predicate AddtlShown(x: Extras, shown: seq<RrData>, max: nat, t: nat) {
    && RrsLegal(shown) && |x.owners| == |x.rrsets| <= |shown| + t && t <= 1
    && (t == 1 ==> x.rrsets != [] && x.answer == Some(x.rrsets[0].rrset))
    && (forall k {:trigger LedTo(x, shown, k)} :: t <= k < |x.rrsets| ==> LedTo(x, shown, k))
    && (|shown| + t <= max || |x.rrsets| != max ==> AllPresent(shown, x.answer, x.rrsets))
    && (x.glue <==> AnyGlue(shown))
  }

  lemma NothingShown(x: Extras, max: nat)
    requires x.rrsets == [] && x.owners == [] && !x.glue
    ensures AddtlShown(x, [], max, 0)
  {
  }

  lemma RrsJoin(a: seq<RrData>, b: seq<RrData>)
    requires RrsLegal(a) && RrsLegal(b)
    ensures RrsLegal(a + b)
  {
    forall i | 0 <= i < |a + b| ensures RrDataLegal((a + b)[i]) {
      if i < |a| { assert RrDataLegal(a[i]); } else { assert RrDataLegal(b[i - |a|]); }
    }
  }

  lemma LedToStill(x: Extras, rrs: seq<RrData>, x': Extras, all: seq<RrData>, k: nat)
    requires RrsLegal(rrs) && RrsLegal(all) && k < |x.rrsets| == |x.owners| && k < |x'.rrsets| == |x'.owners|
    requires LedTo(x, rrs, k) && x'.rrsets[k] == x.rrsets[k] && x'.owners[k] == x.owners[k] && x'.answer == x.answer
    requires forall i :: 0 <= i < |rrs| ==> rrs[i] in all
    ensures LedTo(x', all, k)
  {
    var i :| 0 <= i < |rrs| && LedToBy(x.rrsets[k].rrset, x.owners[k], rrs[i]);
    var j :| 0 <= j < |all| && all[j] == rrs[i];
    assert LedToBy(x'.rrsets[k].rrset, x'.owners[k], all[j]);
  }

  /** One more set shown. */
  lemma AddtlMore(x: Extras, x': Extras, shown: seq<RrData>, rrs: seq<RrData>, max: nat, t: nat)
    requires AddtlShown(x, shown, max, t) && GrewBy(x, x', rrs, max)
    ensures AddtlShown(x', shown + rrs, max, t)
  {
    RrsJoin(shown, rrs);
    var all := shown + rrs;
    forall k | t <= k < |x'.rrsets| ensures LedTo(x', all, k) {
      if k < |x.rrsets| {
        assert LedTo(x, shown, k);
        LedToStill(x, shown, x', all, k);
      } else {
        assert LedTo(x', rrs, k);
        LedToStill(x', rrs, x', all, k);
      }
    }
    GlueJoin(shown, rrs);
    if |all| + t <= max || |x'.rrsets| != max { AllPresentJoin(x, x', shown, rrs); }
  }

  lemma GlueJoin(a: seq<RrData>, b: seq<RrData>)
    ensures AnyGlue(a + b) <==> AnyGlue(a) || AnyGlue(b)
  {
    if i: nat :| GluedAt(a, i) { assert GluedAt(a + b, i); }
    if i: nat :| GluedAt(b, i) { assert GluedAt(a + b, |a| + i); }
    if i: nat :| GluedAt(a + b, i) { assert if i < |a| then GluedAt(a, i) else GluedAt(b, i - |a|); }
  }

  lemma AllPresentJoin(x: Extras, x': Extras, a: seq<RrData>, b: seq<RrData>)
    requires x.rrsets <= x'.rrsets && x'.answer == x.answer
    requires AllPresent(a, x.answer, x.rrsets) && AllPresent(b, x'.answer, x'.rrsets)
    ensures AllPresent(a + b, x'.answer, x'.rrsets)
  {
    forall i | 0 <= i < |a + b| ensures AdPresent((a + b)[i], x'.answer, x'.rrsets) {
      if i < |a| {
        assert AdPresent(a[i], x.answer, x.rrsets);
        StillPresent(a[i], x.answer, x.rrsets, x'.rrsets);
      } else {
        assert AdPresent(b[i - |a|], x'.answer, x'.rrsets);
      }
    }
  }

  lemma StillPresent(d: RrData, answer: Option<AddrSet>, us: seq<Unwind>, us': seq<Unwind>)
    requires AdPresent(d, answer, us) && us <= us'
    ensures AdPresent(d, answer, us')
  {
    if d.ad.Some? && answer != d.ad {
      var i :| 0 <= i < |us| && us[i].rrset == d.ad.value;
      assert us'[i].rrset == d.ad.value;
    }
  }

  /** The owner of a plain set's records: NS and SOA records are the zone's. */
  function OwnerOf(rtype: nat, qnameComp: nat, authComp: nat): nat {
    if rtype == TYPE_NS || rtype == TYPE_SOA then authComp else qnameComp
  }

  /** A plain set, name servers and pointers from a random record on. */
  method EncodePlain(c: Context, rtype: nat, rrs: seq<RrData>, answer: bool, ghost q: Name, ghost z: Name)
    requires Ok(c) && NamesAt(c, q, z) && RrsLegal(rrs)
    modifies c`packet, c`targets, c`log, c`records, c`addtlStore, c`extras, c`strayed, c`addtlRrsets, c`addtlOwners,
             c`arcount, c`addtlHasGlue, c`ancount, c`nscount
    ensures Ok(c) && NamesAt(c, q, z) && old(c.packet) <= c.packet
    ensures c.ancount == old(c.ancount) + (if answer then |rrs| else 0)
    ensures c.nscount == old(c.nscount) + (if answer then 0 else |rrs|)
    ensures PlainPut(old(c.records), c.records, OwnerOf(rtype, c.qnameComp, c.authComp), rrs)
    ensures GrewBy(old(ExtrasOf(c)), ExtrasOf(c), rrs, c.maxAddtl)
  {
    PutPlain(c, rtype, rrs, q, z);
    CountSet(c, answer, |rrs|);
  }

  /** The set is all that has been put after the records `rs`. */
  ghost predicate PlainPut(rs: seq<Item>, rs': seq<Item>, owner: nat, rrs: seq<RrData>) {
    rs <= rs' && |rs'| == |rs| + |rrs| && PlainShown(rs', |rs|, owner, rrs)
  }

  method PutPlain(c: Context, rtype: nat, rrs: seq<RrData>, ghost q: Name, ghost z: Name)
    requires Ok(c) && NamesAt(c, q, z) && RrsLegal(rrs)
    modifies c`packet, c`targets, c`log, c`records, c`addtlStore, c`extras, c`strayed, c`addtlRrsets, c`addtlOwners,
             c`arcount, c`addtlHasGlue
    ensures c.Sane() && c.Complete() && NamesAt(c, q, z) && old(c.packet) <= c.packet
    ensures PlainPut(old(c.records), c.records, OwnerOf(rtype, c.qnameComp, c.authComp), rrs)
    ensures GrewBy(old(ExtrasOf(c)), ExtrasOf(c), rrs, c.maxAddtl)
  {
    ghost var was := c.packet;
    var start := FirstRecord(rtype, |rrs|);
    c.EncodeRrset(OwnerOf(rtype, c.qnameComp, c.authComp), rrs, start);
    RoundShown(old(c.records), c.records, OwnerOf(rtype, c.qnameComp, c.authComp), rrs, start);
    NamesKept(was, c.packet, c.qnameComp, c.authComp, q, z);
  }

  /** The records just put are of the answer, or of the authority section. */
  method CountSet(c: Context, answer: bool, n: nat)
    requires c.Sane() && c.Complete() && |c.records| == c.cnameAncount + c.ancount + c.nscount + n
    modifies c`ancount, c`nscount
    ensures Ok(c)
    ensures c.ancount == old(c.ancount) + (if answer then n else 0)
    ensures c.nscount == old(c.nscount) + (if answer then 0 else n)
  {
    if answer {
      c.ancount := c.ancount + n;
    } else {
      c.nscount := c.nscount + n;
    }
  }

  /** Name servers and pointers start at a random record. */
  method FirstRecord(rtype: nat, n: nat) returns (start: nat)
    ensures n > 0 ==> start < n
  {
    start := 0;
    if n > 0 && (rtype == TYPE_NS || rtype == TYPE_PTR) {
      start :| start < n;
    }
  }

  function CnameRr(owner: nat, target: Bytes, ttl: Bytes): Rr
    requires target != []
  {
    Rr(owner, TYPE_CLASS_CNAME + ttl, [Compressed(target[1..])])
  }

  /** `encode_rr_cname`: as an answer, or as a step of a chain, after which the target is the current name. */
  method EncodeCname(c: Context, target: Bytes, ttl: Bytes, answer: bool, ghost q: Name)
    requires Ok(c) && IsDname(target) && |ttl| == 4 && |c.packet| <= POINTER_SPAN - 267
    requires HEADER <= c.qnameComp < POINTER_SPAN && Denotes(c.packet, c.qnameComp, q)
    modifies c`packet, c`targets, c`log, c`records, c`ancount, c`cnameAncount, c`qnameComp
    ensures Ok(c) && old(c.packet) <= c.packet && |c.packet| <= |old(c.packet)| + 267
    ensures OneMore(old(c.records), c.records, CnameRr(old(c.qnameComp), target, ttl))
    ensures c.ancount == old(c.ancount) + (if answer then 1 else 0)
    ensures c.cnameAncount == old(c.cnameAncount) + (if answer then 0 else 1)
    ensures HEADER <= c.qnameComp < POINTER_SPAN && (answer ==> c.qnameComp == old(c.qnameComp))
    ensures Denotes(c.packet, c.qnameComp, if answer then q else LabelsAt(target[1..], 0))
  {
    ghost var was := c.packet;
    var at := PutCname(c, target, ttl);
    if answer {
      c.ancount := c.ancount + 1;
      StillThere(was, c.packet, c.qnameComp, q);
    } else {
      c.qnameComp := at;
      c.cnameAncount := c.cnameAncount + 1;
    }
  }

  /** The record alone; `at` is where the target is. */
  method PutCname(c: Context, target: Bytes, ttl: Bytes) returns (at: nat)
    requires c.Sane() && IsDname(target) && |ttl| == 4 && |c.packet| <= POINTER_SPAN - 267
    requires Repeatable(c.packet, c.qnameComp)
    modifies c`packet, c`targets, c`log, c`records
    ensures c.Sane() && old(c.packet) <= c.packet && |c.packet| <= |old(c.packet)| + 267
    ensures OneMore(old(c.records), c.records, CnameRr(c.qnameComp, target, ttl))
    ensures HEADER <= at < POINTER_SPAN && Denotes(c.packet, at, LabelsAt(target[1..], 0))
  {
    var rr := CnameRr(c.qnameComp, target, ttl);
    OnePart(rr.parts);
    at := c.PutRr(rr);
    SkipInside(c.packet, at);
  }

  lemma SkipInside(p: Bytes, at: nat)
    requires SkipName(p, at).Some?
    ensures at < |p|
  {
  }

  lemma OnePart(parts: seq<Part>)
    requires |parts| == 1
    ensures PartsSize(parts) == PartSize(parts[0])
  {
    assert parts[1..] == [];
  }

  // ---- Which records answer ----------------------------------------------------------------

  /** How many records a set contributes to an answer of both families. */
  function SetSize(r: Rrset): nat {
    match r
    case AddrRrset(a) => a.limitV4 + a.limitV6
    case CnameRrset(_, _, _) => 0
    case PlainRrset(_, rrs) => |rrs|
  }

  /** From the `lo`-th record on, the plain set is there, whole, in a round. */
  ghost predicate PlainShown(rs: seq<Item>, lo: nat, owner: nat, rrs: seq<RrData>) {
    rrs == [] || exists start :: PlainShownAt(rs, lo, owner, rrs, start)
  }

  ghost predicate PlainShownAt(rs: seq<Item>, lo: nat, owner: nat, rrs: seq<RrData>, start: nat) {
    && lo + |rrs| <= |rs| && start < |rrs|
    && forall k :: lo <= k < lo + |rrs| ==> rs[k].rr == RrOf(owner, rrs[Turn(|rrs|, start, k - lo)])
  }

  /** Likewise as many of an address family as its limit says. */
  ghost predicate FamilyShown(rs: seq<Item>, lo: nat, owner: nat, a: AddrSet, v6: bool) {
    LimitOf(a, v6) == 0 || exists start :: FamilyShownAt(rs, lo, owner, a, v6, start)
  }

  ghost predicate FamilyShownAt(rs: seq<Item>, lo: nat, owner: nat, a: AddrSet, v6: bool, start: nat) {
    var addrs := AddrsOf(a, v6);
    && lo + LimitOf(a, v6) <= |rs| && start < |addrs| && LimitOf(a, v6) <= |addrs|
    && forall k :: lo <= k < lo + LimitOf(a, v6) ==>
         rs[k].rr == AddrRr(owner, FixedOf(a, v6), addrs[Turn(|addrs|, start, k - lo)])
  }

  /** A set is there from the `lo`-th record on: both families of addresses one after the other, or a plain set. */
  ghost predicate Shown(rs: seq<Item>, lo: nat, r: Rrset, qnameComp: nat, authComp: nat) {
    match r
    case AddrRrset(a) => FamilyShown(rs, lo, qnameComp, a, false) && FamilyShown(rs, lo + a.limitV4, qnameComp, a, true)
    case CnameRrset(_, _, _) => true
    case PlainRrset(t, rrs) => PlainShown(rs, lo, OwnerOf(t, qnameComp, authComp), rrs)
  }

  lemma RoundShown(rs: seq<Item>, rs': seq<Item>, owner: nat, rrs: seq<RrData>, start: nat)
    requires (rrs != [] ==> start < |rrs|) && RoundOf(rs, rs', owner, rrs, start, |rrs|)
    ensures PlainPut(rs, rs', owner, rrs)
  {
    if rrs != [] { assert PlainShownAt(rs', |rs|, owner, rrs, start); }
  }

  lemma DrawnShown(rs: seq<Item>, rs': seq<Item>, owner: nat, a: AddrSet, v6: bool, start: nat)
    requires DrawnItems(rs, rs', owner, FixedOf(a, v6), AddrsOf(a, v6), start, LimitOf(a, v6))
    ensures FamilyShown(rs', |rs|, owner, a, v6)
  {
    if LimitOf(a, v6) != 0 { assert FamilyShownAt(rs', |rs|, owner, a, v6, start); }
  }

  lemma PlainStaysShown(rs: seq<Item>, rs': seq<Item>, lo: nat, owner: nat, rrs: seq<RrData>)
    requires rs <= rs' && PlainShown(rs, lo, owner, rrs)
    ensures PlainShown(rs', lo, owner, rrs)
  {
    if rrs != [] {
      var start: nat :| PlainShownAt(rs, lo, owner, rrs, start);
      assert PlainShownAt(rs', lo, owner, rrs, start);
    }
  }

  lemma FamilyStaysShown(rs: seq<Item>, rs': seq<Item>, lo: nat, owner: nat, a: AddrSet, v6: bool)
    requires rs <= rs' && FamilyShown(rs, lo, owner, a, v6)
    ensures FamilyShown(rs', lo, owner, a, v6)
  {
    if LimitOf(a, v6) != 0 {
      var start: nat :| FamilyShownAt(rs, lo, owner, a, v6, start);
      assert FamilyShownAt(rs', lo, owner, a, v6, start);
    }
  }

  lemma StaysShown(rs: seq<Item>, rs': seq<Item>, lo: nat, r: Rrset, qnameComp: nat, authComp: nat)
    requires rs <= rs' && Shown(rs, lo, r, qnameComp, authComp)
    ensures Shown(rs', lo, r, qnameComp, authComp)
  {
    match r
    case AddrRrset(a) =>
      FamilyStaysShown(rs, rs', lo, qnameComp, a, false);
      FamilyStaysShown(rs, rs', lo + a.limitV4, qnameComp, a, true);
    case CnameRrset(_, _, _) =>
    case PlainRrset(t, rrs) => PlainStaysShown(rs, rs', lo, OwnerOf(t, qnameComp, authComp), rrs);
  }

  /** The first `i` sets that pass `addr` (are, or are not, addresses) are shown, one after the other from `lo` on. */
  ghost predicate ShownUpTo(rs: seq<Item>, lo: nat, res: seq<Rrset>, i: nat, addr: bool, qnameComp: nat,
                            authComp: nat) {
    i <= |res| && forall j {:trigger ShownInTurn(rs, lo, res, j, addr, qnameComp, authComp)} ::
      0 <= j < i ==> ShownInTurn(rs, lo, res, j, addr, qnameComp, authComp)
  }

  ghost predicate ShownInTurn(rs: seq<Item>, lo: nat, res: seq<Rrset>, j: nat, addr: bool, qnameComp: nat,
                              authComp: nat)
    requires j < |res|
  {
    res[j].AddrRrset? == addr ==> Shown(rs, lo + SizeUpTo(res, j, addr), res[j], qnameComp, authComp)
  }

  /** How many records the first `i` such sets have. */
  function SizeUpTo(res: seq<Rrset>, i: nat, addr: bool): nat
    requires i <= |res|
  {
    if i == 0 then 0 else SizeUpTo(res, i - 1, addr) + if res[i - 1].AddrRrset? == addr then SetSize(res[i - 1]) else 0
  }

  lemma ShownStep(rs: seq<Item>, rs': seq<Item>, lo: nat, res: seq<Rrset>, i: nat, addr: bool, qnameComp: nat,
                  authComp: nat)
    requires i < |res| && rs <= rs' && ShownUpTo(rs, lo, res, i, addr, qnameComp, authComp)
    requires ShownInTurn(rs', lo, res, i, addr, qnameComp, authComp)
    ensures ShownUpTo(rs', lo, res, i + 1, addr, qnameComp, authComp)
  {
    ShownGrows(rs, rs', lo, res, i, addr, qnameComp, authComp);
  }

  lemma ShownGrows(rs: seq<Item>, rs': seq<Item>, lo: nat, res: seq<Rrset>, i: nat, addr: bool, qnameComp: nat,
                   authComp: nat)
    requires rs <= rs' && ShownUpTo(rs, lo, res, i, addr, qnameComp, authComp)
    ensures ShownUpTo(rs', lo, res, i, addr, qnameComp, authComp)
  {
    forall j | 0 <= j < i ensures ShownInTurn(rs', lo, res, j, addr, qnameComp, authComp) {
      assert ShownInTurn(rs, lo, res, j, addr, qnameComp, authComp);
      if res[j].AddrRrset? == addr {
        StaysShown(rs, rs', lo + SizeUpTo(res, j, addr), res[j], qnameComp, authComp);
      }
    }
  }

  /** The records of the plain sets among a node's first `i` sets. */
  function PlainRecords(res: seq<Rrset>, i: nat): seq<RrData>
    requires i <= |res|
  {
    if i == 0 then [] else PlainRecords(res, i - 1) + if res[i - 1].PlainRrset? then res[i - 1].rrs else []
  }

  /** Everything at the node is shown, and nothing else: all addresses, then all other sets, one after the other. */
  ghost predicate AllShown(rs: seq<Item>, from: nat, res: seq<Rrset>, qnameComp: nat, authComp: nat) {
    && ShownUpTo(rs, from, res, |res|, true, qnameComp, authComp)
    && ShownUpTo(rs, from + SizeUpTo(res, |res|, true), res, |res|, false, qnameComp, authComp)
    && |rs| == from + SizeUpTo(res, |res|, true) + SizeUpTo(res, |res|, false)
  }

  /** The addresses that are remembered as the answer's: the last of a node's first `i` sets. */
  function LastAddr(res: seq<Rrset>, i: nat): Option<AddrSet>
    requires i <= |res|
  {
    if i == 0 then None else if res[i - 1].AddrRrset? then Some(res[i - 1].addrs) else LastAddr(res, i - 1)
  }

  /** The additional section once the first `i` sets of a node have been shown in answer to a query for all. */
  ghost predicate AnyExtras(x: Extras, res: seq<Rrset>, i: nat, max: nat)
    requires i <= |res|
  {
    AddtlShown(x, PlainRecords(res, i), max, 0) && x.answer == LastAddr(res, |res|)
  }

  /** `encode_rrs_any`: addresses first, so that no other set repeats them as additional data, then the rest. */
  method EncodeAny(c: Context, res: seq<Rrset>, ghost q: Name, ghost z: Name)
    requires Ok(c) && NamesAt(c, q, z) && NodeLegal(res) && forall i :: 0 <= i < |res| ==> !res[i].CnameRrset?
    requires NoExtras(c) && c.ancount == 0 && c.nscount == 0
    modifies c`packet, c`targets, c`log, c`records, c`addtlStore, c`extras, c`strayed, c`addtlRrsets, c`addtlOwners,
             c`arcount, c`addtlHasGlue, c`ancount, c`nscount, c`answerAddr, c`cnameAncount, c`qnameComp
    ensures Ok(c) && NamesAt(c, q, z) && old(c.packet) <= c.packet && c.qnameComp == old(c.qnameComp)
    ensures c.nscount == 0 && c.cnameAncount == old(c.cnameAncount) && c.ancount == |c.records| - |old(c.records)|
    ensures AllShown(c.records, |old(c.records)|, res, c.qnameComp, c.authComp) && old(c.records) <= c.records
    ensures AnyExtras(ExtrasOf(c), res, |res|, c.maxAddtl)
  {
    EncodeAnyAddrs(c, res, q, z);
    EncodeAnyRest(c, res, |old(c.records)|, q, z);
  }

  /** Nothing has been put in the additional section. */
  ghost predicate NoExtras(c: Context)
    reads c`addtlRrsets, c`answerAddr, c`addtlHasGlue
  {
    c.addtlRrsets == [] && c.answerAddr == None && !c.addtlHasGlue
  }

  method EncodeAnyAddrs(c: Context, res: seq<Rrset>, ghost q: Name, ghost z: Name)
    requires Ok(c) && NamesAt(c, q, z) && NodeLegal(res) && c.addtlRrsets == [] && c.answerAddr == None
    modifies c`packet, c`targets, c`log, c`records, c`answerAddr, c`ancount
    ensures Ok(c) && NamesAt(c, q, z) && old(c.packet) <= c.packet && old(c.records) <= c.records
    ensures ShownUpTo(c.records, |old(c.records)|, res, |res|, true, c.qnameComp, c.authComp)
    ensures |c.records| == |old(c.records)| + SizeUpTo(res, |res|, true) && c.answerAddr == LastAddr(res, |res|)
  {
    var i := 0;
    while i < |res|
      invariant 0 <= i <= |res| && Ok(c) && NamesAt(c, q, z) && old(c.packet) <= c.packet && old(c.records) <= c.records
      invariant ShownUpTo(c.records, |old(c.records)|, res, i, true, c.qnameComp, c.authComp)
      invariant |c.records| == |old(c.records)| + SizeUpTo(res, i, true) && c.answerAddr == LastAddr(res, i)
    {
      ghost var rs := c.records;
      if res[i].AddrRrset? {
        assert RrsetLegal(res[i]);
        EncodeBothFamilies(c, res[i].addrs, q, z);
      }
      ShownStep(rs, c.records, |old(c.records)|, res, i, true, c.qnameComp, c.authComp);
      i := i + 1;
    }
  }

  method EncodeBothFamilies(c: Context, a: AddrSet, ghost q: Name, ghost z: Name)
    requires Ok(c) && NamesAt(c, q, z) && AddrSetLegal(a) && c.addtlRrsets == []
    modifies c`packet, c`targets, c`log, c`records, c`answerAddr, c`ancount
    ensures Ok(c) && NamesAt(c, q, z) && old(c.packet) <= c.packet && old(c.records) <= c.records
    ensures Shown(c.records, |old(c.records)|, AddrRrset(a), c.qnameComp, c.authComp) && c.answerAddr == Some(a)
    ensures |c.records| == |old(c.records)| + a.limitV4 + a.limitV6
  {
    ghost var was := c.packet;
    var s4, s6, mid := c.EncodeAnyAddr(a);
    DrawnShown(old(c.records), mid, c.qnameComp, a, false, s4);
    DrawnShown(mid, c.records, c.qnameComp, a, true, s6);
    FamilyStaysShown(mid, c.records, |old(c.records)|, c.qnameComp, a, false);
    NamesKept(was, c.packet, c.qnameComp, c.authComp, q, z);
  }

  method EncodeAnyRest(c: Context, res: seq<Rrset>, ghost from: nat, ghost q: Name, ghost z: Name)
    requires Ok(c) && NamesAt(c, q, z) && NodeLegal(res) && forall i :: 0 <= i < |res| ==> !res[i].CnameRrset?
    requires c.nscount == 0 && c.ancount == |c.records| - from && from == c.cnameAncount
    requires from + SizeUpTo(res, |res|, true) == |c.records|
    requires ShownUpTo(c.records, from, res, |res|, true, c.qnameComp, c.authComp)
    requires c.addtlRrsets == [] && !c.addtlHasGlue && c.answerAddr == LastAddr(res, |res|)
    modifies c`packet, c`targets, c`log, c`records, c`addtlStore, c`extras, c`strayed, c`addtlRrsets, c`addtlOwners,
             c`arcount, c`addtlHasGlue, c`ancount, c`nscount
    ensures Ok(c) && NamesAt(c, q, z) && old(c.packet) <= c.packet
    ensures c.nscount == 0 && c.ancount == |c.records| - from
    ensures AllShown(c.records, from, res, c.qnameComp, c.authComp) && old(c.records) <= c.records
    ensures AnyExtras(ExtrasOf(c), res, |res|, c.maxAddtl)
  {
    var i := 0;
    NothingShown(ExtrasOf(c), c.maxAddtl);
    while i < |res|
      invariant 0 <= i <= |res| && Ok(c) && NamesAt(c, q, z) && old(c.records) <= c.records
      invariant old(c.packet) <= c.packet && c.nscount == 0 && c.ancount == |c.records| - from
      invariant RestShown(|old(c.records)|, c.records, res, i, c.qnameComp, c.authComp)
      invariant AnyExtras(ExtrasOf(c), res, i, c.maxAddtl)
    {
      EncodeRest(c, res, i, |old(c.records)|, q, z);
      i := i + 1;
    }
    ShownGrows(old(c.records), c.records, from, res, |res|, true, c.qnameComp, c.authComp);
  }

  ghost predicate RestShown(lo: nat, rs: seq<Item>, res: seq<Rrset>, i: nat, qnameComp: nat, authComp: nat) {
    ShownUpTo(rs, lo, res, i, false, qnameComp, authComp) && |rs| == lo + SizeUpTo(res, i, false)
  }

  /** One set that is not addresses; the others had their turn. */
  method EncodeRest(c: Context, res: seq<Rrset>, i: nat, ghost lo: nat, ghost q: Name, ghost z: Name)
    requires Ok(c) && NamesAt(c, q, z) && NodeLegal(res) && i < |res|
    requires !res[i].CnameRrset? && RestShown(lo, c.records, res, i, c.qnameComp, c.authComp)
    requires AnyExtras(ExtrasOf(c), res, i, c.maxAddtl)
    modifies c`packet, c`targets, c`log, c`records, c`addtlStore, c`extras, c`strayed, c`addtlRrsets, c`addtlOwners,
             c`arcount, c`addtlHasGlue, c`ancount, c`nscount
    ensures Ok(c) && NamesAt(c, q, z) && old(c.packet) <= c.packet && old(c.records) <= c.records
    ensures c.nscount == old(c.nscount) && c.ancount - old(c.ancount) == |c.records| - |old(c.records)|
    ensures RestShown(lo, c.records, res, i + 1, c.qnameComp, c.authComp)
    ensures AnyExtras(ExtrasOf(c), res, i + 1, c.maxAddtl)
  {
    ghost var rs, x := c.records, ExtrasOf(c);
    assert RrsetLegal(res[i]);
    if res[i].PlainRrset? {
      EncodeWhole(c, res[i].rtype, res[i].rrs, q, z);
      AddtlMore(x, ExtrasOf(c), PlainRecords(res, i), res[i].rrs, c.maxAddtl, 0);
    } else {
      assert PlainRecords(res, i) + [] == PlainRecords(res, i);
    }
    ShownStep(rs, c.records, lo, res, i, false, c.qnameComp, c.authComp);
  }

  method EncodeWhole(c: Context, rtype: nat, rrs: seq<RrData>, ghost q: Name, ghost z: Name)
    requires Ok(c) && NamesAt(c, q, z) && RrsetLegal(PlainRrset(rtype, rrs))
    modifies c`packet, c`targets, c`log, c`records, c`addtlStore, c`extras, c`strayed, c`addtlRrsets, c`addtlOwners,
             c`arcount, c`addtlHasGlue, c`ancount, c`nscount
    ensures Ok(c) && NamesAt(c, q, z) && old(c.packet) <= c.packet && old(c.records) <= c.records
    ensures c.ancount == old(c.ancount) + |rrs| && c.nscount == old(c.nscount)
    ensures |c.records| == |old(c.records)| + |rrs|
    ensures Shown(c.records, |old(c.records)|, PlainRrset(rtype, rrs), c.qnameComp, c.authComp)
    ensures GrewBy(old(ExtrasOf(c)), ExtrasOf(c), rrs, c.maxAddtl)
  {
    EncodePlain(c, rtype, rrs, true, q, z);
  }

  /** The record set asked for: addresses are stored under type A for both families. */
  predicate Matches(r: Rrset, qtype: nat) {
    match r
    case AddrRrset(_) => qtype == TYPE_A || qtype == TYPE_AAAA
    case CnameRrset(_, _, _) => qtype == TYPE_CNAME
    case PlainRrset(t, _) => t == qtype && qtype != TYPE_A && qtype != TYPE_AAAA && qtype != TYPE_CNAME
  }

  /** The first set of a node that matches, if any. */
  function Asked(res: seq<Rrset>, qtype: nat): Option<Rrset> {
    if res == [] then None else if Matches(res[0], qtype) then Some(res[0]) else Asked(res[1..], qtype)
  }

  method FindAsked(res: seq<Rrset>, qtype: nat) returns (r: Option<Rrset>)
    ensures r == Asked(res, qtype)
    ensures r.Some? ==> Matches(r.value, qtype) && (NodeLegal(res) ==> RrsetLegal(r.value))
  {
    var i := 0;
    assert res[0..] == res;
    while i < |res|
      invariant 0 <= i <= |res| && Asked(res[i..], qtype) == Asked(res, qtype)
    {
      if Matches(res[i], qtype) {
        return Some(res[i]);
      }
      assert res[i..][1..] == res[i + 1..];
      i := i + 1;
    }
    r := None;
  }

  /** The records from the `from`-th on are the answer: the set asked for, and nothing else. */
  ghost predicate AnswerShown(rs: seq<Item>, from: nat, qtype: nat, asked: Option<Rrset>, qnameComp: nat,
                              authComp: nat) {
    match asked
    case None => |rs| == from
    case Some(AddrRrset(a)) =>
      FamilyShown(rs, from, qnameComp, a, qtype == TYPE_AAAA) && |rs| == from + LimitOf(a, qtype == TYPE_AAAA)
    case Some(CnameRrset(t, ttl, _)) => |rs| == from + 1 && t != [] && rs[from].rr == CnameRr(qnameComp, t, ttl)
    case Some(PlainRrset(t, rrs)) =>
      PlainShown(rs, from, OwnerOf(t, qnameComp, authComp), rrs) && |rs| == from + |rrs|
  }

  /** The answer to a query of one type. */
  method EncodeAsked(c: Context, qtype: nat, res: seq<Rrset>, ghost q: Name, ghost z: Name) returns (ghost t: nat)
    requires Ok(c) && NamesAt(c, q, z) && NodeLegal(res) && NoExtras(c) && c.ancount == 0 && c.nscount == 0
    requires |c.packet| <= POINTER_SPAN - 267
    modifies c`packet, c`targets, c`log, c`records, c`addtlStore, c`extras, c`strayed, c`addtlRrsets, c`addtlOwners,
             c`arcount, c`addtlHasGlue, c`ancount, c`nscount, c`answerAddr, c`cnameAncount, c`qnameComp
    ensures Ok(c) && NamesAt(c, q, z) && old(c.packet) <= c.packet && c.qnameComp == old(c.qnameComp)
    ensures c.nscount == 0 && c.cnameAncount == old(c.cnameAncount) && c.ancount == |c.records| - |old(c.records)|
    ensures AnswerShown(c.records, |old(c.records)|, qtype, Asked(res, qtype), c.qnameComp, c.authComp)
    ensures old(c.records) <= c.records
    ensures AnswerExtras(ExtrasOf(c), qtype, Asked(res, qtype), q, c.maxAddtl, t)
  {
    t := 0;
    NothingShown(ExtrasOf(c), c.maxAddtl);
    var asked := FindAsked(res, qtype);
    if asked.Some? {
      t := EncodeSet(c, qtype, asked.value, q, z);
    }
  }

  /** The set that was found. */
  method EncodeSet(c: Context, qtype: nat, r: Rrset, ghost q: Name, ghost z: Name) returns (ghost t: nat)
    requires Ok(c) && NamesAt(c, q, z) && RrsetLegal(r) && NoExtras(c) && c.ancount == 0 && c.nscount == 0
    requires |c.packet| <= POINTER_SPAN - 267
    modifies c`packet, c`targets, c`log, c`records, c`addtlStore, c`extras, c`strayed, c`addtlRrsets, c`addtlOwners,
             c`arcount, c`addtlHasGlue, c`ancount, c`nscount, c`answerAddr, c`cnameAncount, c`qnameComp
    ensures Ok(c) && NamesAt(c, q, z) && old(c.packet) <= c.packet && c.qnameComp == old(c.qnameComp)
    ensures c.nscount == 0 && c.cnameAncount == old(c.cnameAncount) && c.ancount == |c.records| - |old(c.records)|
    ensures AnswerShown(c.records, |old(c.records)|, qtype, Some(r), c.qnameComp, c.authComp)
    ensures old(c.records) <= c.records
    ensures AnswerExtras(ExtrasOf(c), qtype, Some(r), q, c.maxAddtl, t)
  {
    t := 0;
    if r.AddrRrset? {
      t := EncodeAskedFamily(c, r.addrs, qtype == TYPE_AAAA, q, z);
    } else {
      EncodeOther(c, qtype, r, q, z);
    }
  }

  /** One that is not addresses. */
  method EncodeOther(c: Context, qtype: nat, r: Rrset, ghost q: Name, ghost z: Name)
    requires Ok(c) && NamesAt(c, q, z) && RrsetLegal(r) && NoExtras(c) && c.ancount == 0 && c.nscount == 0
    requires |c.packet| <= POINTER_SPAN - 267 && !r.AddrRrset?
    modifies c`packet, c`targets, c`log, c`records, c`addtlStore, c`extras, c`strayed, c`addtlRrsets, c`addtlOwners,
             c`arcount, c`addtlHasGlue, c`ancount, c`nscount, c`answerAddr, c`cnameAncount, c`qnameComp
    ensures Ok(c) && NamesAt(c, q, z) && old(c.packet) <= c.packet && c.qnameComp == old(c.qnameComp)
    ensures c.nscount == 0 && c.cnameAncount == old(c.cnameAncount) && c.ancount == |c.records| - |old(c.records)|
    ensures AnswerShown(c.records, |old(c.records)|, qtype, Some(r), c.qnameComp, c.authComp)
    ensures old(c.records) <= c.records
    ensures AnswerExtras(ExtrasOf(c), qtype, Some(r), q, c.maxAddtl, 0)
  {
    if r.CnameRrset? {
      NothingShown(ExtrasOf(c), c.maxAddtl);
      EncodeOneCname(c, r.target, r.ttl, q, z);
    } else {
      EncodeOnly(c, r.rtype, r.rrs, q, z);
    }
  }

  /** A CNAME as the whole answer. */
  method EncodeOneCname(c: Context, target: Bytes, ttl: Bytes, ghost q: Name, ghost z: Name)
    requires Ok(c) && NamesAt(c, q, z) && IsDname(target) && |ttl| == 4 && |c.packet| <= POINTER_SPAN - 267
    modifies c`packet, c`targets, c`log, c`records, c`ancount, c`cnameAncount, c`qnameComp
    ensures Ok(c) && NamesAt(c, q, z) && old(c.packet) <= c.packet && c.qnameComp == old(c.qnameComp)
    ensures OneMore(old(c.records), c.records, CnameRr(c.qnameComp, target, ttl))
    ensures c.ancount == old(c.ancount) + 1 && c.cnameAncount == old(c.cnameAncount)
  {
    ghost var was := c.packet;
    EncodeCname(c, target, ttl, true, q);
    StillThere(was, c.packet, c.authComp, z);
  }

  /** A plain set as the whole answer. */
  method EncodeOnly(c: Context, rtype: nat, rrs: seq<RrData>, ghost q: Name, ghost z: Name)
    requires Ok(c) && NamesAt(c, q, z) && RrsLegal(rrs) && NoExtras(c)
    modifies c`packet, c`targets, c`log, c`records, c`addtlStore, c`extras, c`strayed, c`addtlRrsets, c`addtlOwners,
             c`arcount, c`addtlHasGlue, c`ancount, c`nscount
    ensures Ok(c) && NamesAt(c, q, z) && old(c.packet) <= c.packet && old(c.records) <= c.records
    ensures c.ancount == old(c.ancount) + |rrs| && c.nscount == old(c.nscount)
    ensures |c.records| == |old(c.records)| + |rrs|
    ensures PlainShown(c.records, |old(c.records)|, OwnerOf(rtype, c.qnameComp, c.authComp), rrs)
    ensures AddtlShown(ExtrasOf(c), rrs, c.maxAddtl, 0) && c.answerAddr == None
  {
    ghost var x := ExtrasOf(c);
    NothingShown(x, c.maxAddtl);
    EncodeWhole(c, rtype, rrs, q, z);
    AddtlMore(x, ExtrasOf(c), [], rrs, c.maxAddtl, 0);
    assert [] + rrs == rrs;
  }

  /** The additional section after an answer of one type: the other family of addresses, or what the set leads to. */
  ghost predicate AnswerExtras(x: Extras, qtype: nat, asked: Option<Rrset>, q: Name, max: nat, t: nat) {
    AddtlShown(x, AskedRecords(asked), max, t) && OwnExtras(x, qtype, asked, q, t)
  }

  /** Of addresses asked for, the other family, if there is any of it, is the first additional rrset. */
  ghost predicate OwnExtras(x: Extras, qtype: nat, asked: Option<Rrset>, q: Name, t: nat) {
    if asked.Some? && asked.value.AddrRrset? then
      x.answer == Some(asked.value.addrs) && OtherFirst(x, asked.value.addrs, qtype != TYPE_AAAA, q, t)
    else x.answer == None && t == 0
  }

  function AskedRecords(asked: Option<Rrset>): seq<RrData> {
    if asked.Some? && asked.value.PlainRrset? then asked.value.rrs else []
  }

  /** The first additional rrset is one family of the answer's addresses, under the answer's name. */
  ghost predicate OtherFirst(x: Extras, a: AddrSet, v6: bool, name: Name, t: nat) {
    if AddrsOf(a, v6) == [] then t == 0
    else
      && t == 1 && x.rrsets != [] && CountBefore(x.records, x.rrsets, 1) == LimitOf(a, v6)
      && exists start :: Drawn(x.records, 0, FixedOf(a, v6), name, AddrsOf(a, v6), start, LimitOf(a, v6))
  }

  lemma OwnStays(x: Extras, x': Extras, qtype: nat, asked: Option<Rrset>, q: Name, t: nat)
    requires OwnExtras(x, qtype, asked, q, t) && x.records <= x'.records && x.rrsets <= x'.rrsets
    requires x'.answer == x.answer
    requires Appended(x, x')
    ensures OwnExtras(x', qtype, asked, q, t)
  {
    if asked.Some? && asked.value.AddrRrset? && t == 1 {
      var a, v6 := asked.value.addrs, qtype != TYPE_AAAA;
      var start: nat :| Drawn(x.records, 0, FixedOf(a, v6), q, AddrsOf(a, v6), start, LimitOf(a, v6));
      DrawnGrows(x.records, x'.records, 0, FixedOf(a, v6), q, AddrsOf(a, v6), start, LimitOf(a, v6));
    }
  }

  method EncodeAskedFamily(c: Context, a: AddrSet, v6: bool, ghost q: Name, ghost z: Name) returns (ghost t: nat)
    requires Ok(c) && NamesAt(c, q, z) && AddrSetLegal(a) && NoExtras(c)
    modifies c`packet, c`targets, c`log, c`records, c`answerAddr, c`ancount,
             c`addtlStore, c`extras, c`strayed, c`addtlRrsets, c`addtlOwners, c`arcount
    ensures Ok(c) && NamesAt(c, q, z) && old(c.packet) <= c.packet && old(c.records) <= c.records
    ensures c.ancount == old(c.ancount) + LimitOf(a, v6) && |c.records| == |old(c.records)| + LimitOf(a, v6)
    ensures FamilyShown(c.records, |old(c.records)|, c.qnameComp, a, v6)
    ensures FamilyExtras(ExtrasOf(c), a, !v6, q, c.maxAddtl, t)
  {
    ghost var was := c.packet;
    t := PutFamily(c, a, v6, q);
    NamesKept(was, c.packet, c.qnameComp, c.authComp, q, z);
  }

  method PutFamily(c: Context, a: AddrSet, v6: bool, ghost q: Name) returns (ghost t: nat)
    requires Ok(c) && HEADER <= c.qnameComp < POINTER_SPAN && Denotes(c.packet, c.qnameComp, q)
    requires AddrSetLegal(a) && NoExtras(c)
    modifies c`packet, c`targets, c`log, c`records, c`answerAddr, c`ancount,
             c`addtlStore, c`extras, c`strayed, c`addtlRrsets, c`addtlOwners, c`arcount
    ensures Ok(c) && old(c.packet) <= c.packet && old(c.records) <= c.records
    ensures c.ancount == old(c.ancount) + LimitOf(a, v6) && |c.records| == |old(c.records)| + LimitOf(a, v6)
    ensures FamilyShown(c.records, |old(c.records)|, c.qnameComp, a, v6)
    ensures FamilyExtras(ExtrasOf(c), a, !v6, q, c.maxAddtl, t)
  {
    ghost var rs := c.records;
    NoneTracked(c.View(), c.qend, c.records, c.addtlStore, c.addtlRrsets, c.extras, c.strayed);
    var start := c.EncodeOneFamily(a, v6, q);
    t := |c.addtlRrsets|;
    DrawnShown(rs, c.records, c.qnameComp, a, v6, start);
    OtherExtras(ExtrasOf(c), a, !v6, q, c.maxAddtl);
  }

  /** The additional section after addresses of one family. */
  ghost predicate FamilyExtras(x: Extras, a: AddrSet, v6: bool, name: Name, max: nat, t: nat) {
    AddtlShown(x, [], max, t) && x.answer == Some(a) && OtherFirst(x, a, v6, name, t)
  }

  lemma OtherExtras(x: Extras, a: AddrSet, v6: bool, name: Name, max: nat)
    requires |x.owners| == |x.rrsets| && x.answer == Some(a) && OtherDrawn(x.records, a, v6, name) && !x.glue
    requires if AddrsOf(a, v6) == [] then x.rrsets == [] else |x.rrsets| == 1 && x.rrsets[0].rrset == a
    ensures FamilyExtras(x, a, v6, name, max, |x.rrsets|)
  {
  }

  lemma NoneTracked(m: Msg, qend: nat, items: seq<Item>, a: Bytes, us: seq<Unwind>, xs: seq<Extra>, strayed: bool)
    requires Promised(m, qend, items, a, us, xs, strayed) && us == []
    ensures xs == []
  {
  }

  /** Name servers are added to a positive answer if the server is told to and they are not the answer itself. */
  predicate AddsNs(qtype: nat, optionalNs: bool, sameNode: bool) {
    optionalNs && qtype != TYPE_NS && (qtype != TYPE_ANY || !sameNode)
  }

  /**
    `construct_normal_response`: the answer; with none, the zone's SOA as authority; with one, optionally the
    zone's name servers.
   */
  method ConstructNormal(c: Context, qtype: nat, res: seq<Rrset>, auth: seq<Rrset>, sameNode: bool, optionalNs: bool,
                         ghost q: Name, ghost z: Name) returns (ghost answered: seq<Item>, ghost t: nat)
    requires Ok(c) && NamesAt(c, q, z) && NodeLegal(res) && NodeLegal(auth)
    requires HasType(auth, TYPE_SOA) && HasType(auth, TYPE_NS)
    requires NoExtras(c) && |c.packet| <= POINTER_SPAN - 267 && c.ancount == 0 && c.nscount == 0
    requires qtype == TYPE_ANY ==> forall i :: 0 <= i < |res| ==> !res[i].CnameRrset?
    modifies c`packet, c`targets, c`log, c`records, c`addtlStore, c`extras, c`strayed, c`addtlRrsets, c`addtlOwners,
             c`arcount, c`addtlHasGlue, c`ancount, c`nscount, c`answerAddr, c`cnameAncount, c`qnameComp
    ensures Ok(c) && NamesAt(c, q, z) && old(c.packet) <= c.packet && c.qnameComp == old(c.qnameComp)
    ensures c.cnameAncount == old(c.cnameAncount)
    ensures old(c.records) <= answered <= c.records && c.ancount == |answered| - |old(c.records)|
    ensures NormalShown(answered, |old(c.records)|, qtype, res, c.qnameComp, c.authComp)
    ensures AuthorityPut(answered, c.records, ExtrasOf(c), c.ancount, qtype, res, auth,
                         AddsNs(qtype, optionalNs, sameNode), q, c.authComp, c.maxAddtl, t)
  {
    ghost var rs := c.records;
    t := EncodeAnswer(c, qtype, res, q, z);
    answered := c.records;
    assert NormalShown(answered, |rs|, qtype, res, c.qnameComp, c.authComp) && rs <= answered;
    AddAuthority(c, auth, AddsNs(qtype, optionalNs, sameNode), qtype, res, q, z, t);
  }

  /** The authority section after the records `answered`, and the additional section with it. */
  ghost predicate AuthorityPut(answered: seq<Item>, rs: seq<Item>, x: Extras, ancount: nat, qtype: nat, res: seq<Rrset>,
                               auth: seq<Rrset>, ns: bool, q: Name, authComp: nat, max: nat, t: nat) {
    && AuthorityShown(answered, rs, ancount, auth, ns, authComp)
    && NormalExtras(x, qtype, res, q, max, t, AuthorityRecords(ancount, auth, ns))
  }

  method AddAuthority(c: Context, auth: seq<Rrset>, ns: bool, ghost qtype: nat, ghost res: seq<Rrset>,
                      ghost q: Name, ghost z: Name, ghost t: nat)
    requires Ok(c) && NamesAt(c, q, z) && NodeLegal(auth) && HasType(auth, TYPE_SOA) && HasType(auth, TYPE_NS)
    requires NormalExtras(ExtrasOf(c), qtype, res, q, c.maxAddtl, t, [])
    modifies c`packet, c`targets, c`log, c`records, c`addtlStore, c`extras, c`strayed, c`addtlRrsets, c`addtlOwners,
             c`arcount, c`addtlHasGlue, c`ancount, c`nscount
    ensures Ok(c) && NamesAt(c, q, z) && old(c.packet) <= c.packet && old(c.records) <= c.records
    ensures c.ancount == old(c.ancount)
    ensures AuthorityPut(old(c.records), c.records, ExtrasOf(c), c.ancount, qtype, res, auth, ns, q, c.authComp,
                         c.maxAddtl, t)
  {
    if c.ancount == 0 || ns {
      EncodeAuthority(c, if c.ancount == 0 then TYPE_SOA else TYPE_NS, auth, qtype, res, q, z, t);
    }
  }

  /** The answer section: everything at the node, or the set asked for. */
  ghost predicate NormalShown(rs: seq<Item>, from: nat, qtype: nat, res: seq<Rrset>, qnameComp: nat, authComp: nat) {
    if qtype == TYPE_ANY then AllShown(rs, from, res, qnameComp, authComp)
    else AnswerShown(rs, from, qtype, Asked(res, qtype), qnameComp, authComp)
  }

  method EncodeAnswer(c: Context, qtype: nat, res: seq<Rrset>, ghost q: Name, ghost z: Name) returns (ghost t: nat)
    requires Ok(c) && NamesAt(c, q, z) && NodeLegal(res)
    requires NoExtras(c) && |c.packet| <= POINTER_SPAN - 267 && c.ancount == 0 && c.nscount == 0
    requires qtype == TYPE_ANY ==> forall i :: 0 <= i < |res| ==> !res[i].CnameRrset?
    modifies c`packet, c`targets, c`log, c`records, c`addtlStore, c`extras, c`strayed, c`addtlRrsets, c`addtlOwners,
             c`arcount, c`addtlHasGlue, c`ancount, c`nscount, c`answerAddr, c`cnameAncount, c`qnameComp
    ensures Ok(c) && NamesAt(c, q, z) && old(c.packet) <= c.packet && c.qnameComp == old(c.qnameComp)
    ensures c.nscount == 0 && c.cnameAncount == old(c.cnameAncount) && c.ancount == |c.records| - |old(c.records)|
    ensures NormalShown(c.records, |old(c.records)|, qtype, res, c.qnameComp, c.authComp) && old(c.records) <= c.records
    ensures NormalExtras(ExtrasOf(c), qtype, res, q, c.maxAddtl, t, [])
  {
    t := 0;
    if qtype == TYPE_ANY {
      EncodeAny(c, res, q, z);
    } else {
      t := EncodeAsked(c, qtype, res, q, z);
    }
    NoAuthorityYet(ExtrasOf(c), qtype, res, q, c.maxAddtl, t);
  }

  /** The zone's SOA or its name servers as authority. */
  method EncodeAuthority(c: Context, rtype: nat, auth: seq<Rrset>, ghost qtype: nat, ghost res: seq<Rrset>,
                         ghost q: Name, ghost z: Name, ghost t: nat)
    requires Ok(c) && NamesAt(c, q, z) && NodeLegal(auth) && HasType(auth, rtype)
    requires (rtype == TYPE_SOA || rtype == TYPE_NS)
    requires NormalExtras(ExtrasOf(c), qtype, res, q, c.maxAddtl, t, [])
    modifies c`packet, c`targets, c`log, c`records, c`addtlStore, c`extras, c`strayed, c`addtlRrsets, c`addtlOwners,
             c`arcount, c`addtlHasGlue, c`ancount, c`nscount
    ensures Ok(c) && NamesAt(c, q, z) && old(c.packet) <= c.packet && old(c.records) <= c.records
    ensures c.ancount == old(c.ancount)
    ensures PlainShown(c.records, |old(c.records)|, c.authComp, FirstOf(auth, rtype))
    ensures |c.records| == |old(c.records)| + |FirstOf(auth, rtype)|
    ensures NormalExtras(ExtrasOf(c), qtype, res, q, c.maxAddtl, t, FirstOf(auth, rtype))
  {
    ghost var x := ExtrasOf(c);
    var rrs := GetRrset(auth, rtype);
    EncodePlain(c, rtype, rrs, false, q, z);
    AuthorityExtras(x, ExtrasOf(c), qtype, res, q, c.maxAddtl, t, rrs);
  }

  /** The records of the answer that may lead to addresses. */
  function AnswerRecords(qtype: nat, res: seq<Rrset>): seq<RrData> {
    if qtype == TYPE_ANY then PlainRecords(res, |res|) else AskedRecords(Asked(res, qtype))
  }

  /** The records of the authority section. */
  function AuthorityRecords(ancount: nat, auth: seq<Rrset>, ns: bool): seq<RrData> {
    if ancount == 0 then FirstOf(auth, TYPE_SOA) else if ns then FirstOf(auth, TYPE_NS) else []
  }

  /** The additional section of an authoritative response. */
  ghost predicate NormalExtras(x: Extras, qtype: nat, res: seq<Rrset>, q: Name, max: nat, t: nat,
                               authority: seq<RrData>) {
    AddtlShown(x, AnswerRecords(qtype, res) + authority, max, t) && NormalOwn(x, qtype, res, q, t)
  }

  ghost predicate NormalOwn(x: Extras, qtype: nat, res: seq<Rrset>, q: Name, t: nat) {
    if qtype == TYPE_ANY then x.answer == LastAddr(res, |res|) && t == 0
    else OwnExtras(x, qtype, Asked(res, qtype), q, t)
  }

  lemma NoAuthorityYet(x: Extras, qtype: nat, res: seq<Rrset>, q: Name, max: nat, t: nat)
    requires if qtype == TYPE_ANY then AnyExtras(x, res, |res|, max) && t == 0
             else AnswerExtras(x, qtype, Asked(res, qtype), q, max, t)
    ensures NormalExtras(x, qtype, res, q, max, t, [])
  {
    assert AnswerRecords(qtype, res) + [] == AnswerRecords(qtype, res);
  }

  lemma AuthorityExtras(x: Extras, x': Extras, qtype: nat, res: seq<Rrset>, q: Name, max: nat, t: nat, rrs: seq<RrData>)
    requires NormalExtras(x, qtype, res, q, max, t, []) && GrewBy(x, x', rrs, max)
    ensures NormalExtras(x', qtype, res, q, max, t, rrs)
  {
    assert AnswerRecords(qtype, res) + [] == AnswerRecords(qtype, res);
    AddtlMore(x, x', AnswerRecords(qtype, res), rrs, max, t);
    if qtype != TYPE_ANY { OwnStays(x, x', qtype, Asked(res, qtype), q, t); }
  }

  /** The authority section: the zone's SOA for a negative answer, its name servers if asked for, or nothing. */
  ghost predicate AuthorityShown(answered: seq<Item>, rs: seq<Item>, ancount: nat, auth: seq<Rrset>, ns: bool,
                                 authComp: nat) {
    if ancount == 0 then
      PlainShown(rs, |answered|, authComp, FirstOf(auth, TYPE_SOA)) && |rs| == |answered| + |FirstOf(auth, TYPE_SOA)|
    else if ns then
      PlainShown(rs, |answered|, authComp, FirstOf(auth, TYPE_NS)) && |rs| == |answered| + |FirstOf(auth, TYPE_NS)|
    else rs == answered
  }

  // ---- From the question to the last record --------------------------------------------

  /** The packet holds the wire form `w` literally at offset 12, up to letter case. */
  ghost predicate QuestionLiteral(p: Bytes, w: Bytes) {
    && IsWire(w) && HEADER + |w| <= |p|
    && SameLabel(p[HEADER..HEADER + (|w| - 1)], w[..|w| - 1]) && p[HEADER + (|w| - 1)] == 0
  }

  /** In the question, which is literal, the name's suffix at a label boundary is that far into it. */
  lemma QuestionSuffix(p: Bytes, w: Bytes, d: nat, at: nat)
    requires QuestionLiteral(p, w) && WireAt(w, d) && Boundary(w, 0, d) && at == HEADER + d
    ensures Denotes(p, at, LabelsAt(w, d))
  {
    LastLabel(p, HEADER, w);
    BoundaryWire(w, 0, d);
    EndByte(w, d);
    if d == |w| - 1 {
      ReadsRaise(p, at, HEADER, at, LabelsAt(w, d));
    } else {
      BoundaryOrder(w, 0, d, |w| - 1);
      LiteralReads(p, HEADER, w, d, |w| - 1, at);
    }
  }

  /** Where the search for the current name stands. */
  datatype Found = Found(status: Status, node: Option<nat>, zone: Option<nat>)

  /** The search result is the rule's answer for `name`, and the context points at the zone's name. */
  ghost predicate Current(c: Context, v: LookupRule.View, name: Name, f: Found, cut: nat)
    requires ViewOk(v)
    reads c`packet, c`qnameComp, c`authComp
  {
    CurrentIn(c.packet, c.qnameComp, c.authComp, v, name, f, cut)
  }

  ghost predicate CurrentIn(p: Bytes, qnameComp: nat, authComp: nat, v: LookupRule.View, name: Name, f: Found, cut: nat)
    requires ViewOk(v)
  {
    && RunAnswer(v, name, f.status, f.node, f.zone, cut)
    && HEADER <= qnameComp < POINTER_SPAN && Denotes(p, qnameComp, name)
    && (f.status != NoAuth ==> cut <= |name| && NamesIn(p, qnameComp, authComp, name, name[|name| - cut..]))
  }

  /** The first search, where the current name is the question itself. */
  method SearchQuestion(c: Context, tree: LTree, qname: Bytes) returns (f: Found, ghost cut: nat)
    requires tree.Valid() && !tree.loading && IsDname(qname) && QuestionLiteral(c.packet, qname[1..])
    modifies c`authComp, c`qnameComp
    ensures Current(c, tree.View(), LabelsAt(qname[1..], 0), f, cut)
  {
    var status, node, zone, depth, crossed;
    status, node, zone, depth, crossed, cut := tree.SearchLtree(qname, None);
    f := Found(status, node, zone);
    c.qnameComp := HEADER;
    c.authComp := c.qnameComp + depth;
    QuestionCurrent(c.packet, qname[1..], depth, c.qnameComp, c.authComp, tree.View(), f, cut);
  }

  /** The question's name is in the question itself, and so is its zone's. */
  lemma QuestionCurrent(p: Bytes, w: Bytes, depth: nat, qnameComp: nat, authComp: nat, v: LookupRule.View, f: Found,
                        cut: nat)
    requires QuestionLiteral(p, w) && ViewOk(v) && RunAnswer(v, LabelsAt(w, 0), f.status, f.node, f.zone, cut)
    requires qnameComp == HEADER && authComp == HEADER + depth
    requires f.status != NoAuth ==> SuffixStarts(w, depth, cut)
    ensures CurrentIn(p, qnameComp, authComp, v, LabelsAt(w, 0), f, cut)
  {
    QuestionSuffix(p, w, 0, qnameComp);
    if f.status != NoAuth {
      BoundaryWire(w, 0, depth);
      QuestionSuffix(p, w, depth, authComp);
    }
  }

  /** The search for a chain's next name, and the chase to where its zone's name is. */
  method SearchTarget(c: Context, tree: LTree, target: Bytes, zone: nat)
    returns (f: Found, crossed: bool, ghost cut: nat)
    requires tree.Valid() && !tree.loading && IsDname(target)
    requires |c.packet| <= POINTER_SPAN - 512
    requires HEADER <= c.qnameComp < POINTER_SPAN && Denotes(c.packet, c.qnameComp, LabelsAt(target[1..], 0))
    modifies c`authComp
    ensures crossed == Crosses(tree.View(), LabelsAt(target[1..], 0), zone)
    ensures crossed && f.status != NoAuth ==> Current(c, tree.View(), LabelsAt(target[1..], 0), f, cut)
    ensures RunAnswer(tree.View(), LabelsAt(target[1..], 0), f.status, f.node, f.zone, cut)
  {
    var w := target[1..];
    var status, node, auth, depth;
    status, node, auth, depth, crossed, cut := tree.SearchLtree(target, Some(zone));
    f := Found(status, node, auth);
    if crossed && status != NoAuth {
      BoundaryWire(w, 0, depth);
      c.authComp := ChaseAuthPtr(c.packet, c.qnameComp, depth, w);
      DecodeInside(c.packet, c.qnameComp, c.qnameComp);
    }
  }

  lemma DecodeInside(p: Bytes, o: nat, limit: nat)
    requires DecodeBelow(p, o, limit).Some?
    ensures o < |p|
  {
  }
}
