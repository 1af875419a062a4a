/**
  The response under construction: what the server keeps in its per-thread packet
  context, and the operations that extend it.  `packet` is the part of the packet
  buffer written so far, so the offset the server passes around is its length.
 */
module Encoder {
  import opened Names
  import opened Decoder
  import opened Compression
  import opened Message
  import opened Sections
  import opened Records
  import opened Additional

  const TYPE_CLASS_CNAME: Bytes := [0, 5, 0, 1]

  /** The walk of one candidate in `store_dname`'s search, as the server's loop. */
  method WalkCandidate(w: Bytes, t: Target, best: nat) returns (r: Option<(nat, nat)>)
    requires WireAt(w, 0) && w[0] != 0 && WireAt(t.name, 0) && t.name[0] != 0
    ensures r == Walk(w, 0, t.name, 0, t.literalTo, best)
  {
    var c := t.name;
    var p, q := 0, 0;
    while true
      invariant 0 <= p && WireAt(w, p) && w[p] != 0 && 0 <= q && WireAt(c, q) && c[q] != 0
      invariant Walk(w, p, c, q, t.literalTo, best) == Walk(w, 0, c, 0, t.literalTo, best)
      decreases |w| - p + |c| - q
    {
      var wRest, cRest := |w| - 1 - p, |c| - 1 - q;
      if wRest == cRest && w[p..|w| - 1] == c[q..|c| - 1] {
        return Some((p, q));
      }
      if wRest >= cRest {
        p := Next(w, p);
        if p >= best || p == |w| - 1 { return None; }
      }
      if wRest <= cRest {
        q := Next(c, q);
        if q >= t.literalTo || q == |c| - 1 { return None; }
      }
    }
  }

  /** `store_dname`'s search over all targets. */
  method FindBest(ts: seq<Target>, w: Bytes) returns (m: Match)
    requires IsWire(w) && w[0] != 0 && TargetsLegal(ts)
    ensures m == BestMatch(ts, w)
  {
    m := NO_MATCH;
    var i := 0;
    while i < |ts|
      invariant 0 <= i <= |ts|
      invariant SearchFrom(ts, i, w, m) == BestMatch(ts, w)
    {
      var r := WalkCandidate(w, ts[i], m.pos);
      if r.Some? {
        m := Match(r.value.0, ts[i].storedAt + r.value.1);
      }
      if m.pos == 0 { return; }
      i := i + 1;
    }
  }

  /**
    `chase_auth_ptr`: from the place where a name is stored, follow labels and pointers to the place where
    its suffix `depth` bytes further on is stored.  `w` is the name's wire form.
   */
  method ChaseAuthPtr(packet: Bytes, offset: nat, depth: nat, ghost w: Bytes) returns (r: nat)
    requires WireAt(w, 0) && HEADER <= offset && Denotes(packet, offset, LabelsAt(w, 0))
    requires Boundary(w, 0, depth) && WireAt(w, depth)
    ensures Denotes(packet, r, LabelsAt(w, depth)) && HEADER <= r <= offset + depth
  {
    r := offset;
    var left: nat := depth;
    ghost var limit: nat, at: nat := offset, 0;
    while left > 0
      invariant Chasing(packet, w, depth, r, left, limit, at) && r <= offset + at
      decreases left, limit
    {
      r, left, limit, at := ChaseOne(packet, r, left, w, depth, limit, at);
    }
    ReadsRaise(packet, r, limit, r, LabelsAt(w, at));
  }

  /** At `r`, `left` bytes before the wanted suffix, the name's suffix at `at` is read below `limit`. */
  ghost predicate Chasing(packet: Bytes, w: Bytes, depth: nat, r: nat, left: nat, limit: nat, at: nat) {
    && at + left == depth && limit <= r && HEADER <= r
    && WireAt(w, depth) && WireAt(w, at) && Boundary(w, at, depth) && Reads(packet, r, limit, LabelsAt(w, at))
  }

  /** One step of the chase: through a pointer, or past a label. */
  method ChaseOne(packet: Bytes, r: nat, left: nat, ghost w: Bytes, ghost depth: nat, ghost limit: nat, ghost at: nat)
    returns (r': nat, left': nat, ghost limit': nat, ghost at': nat)
    requires Chasing(packet, w, depth, r, left, limit, at) && left > 0
    ensures Chasing(packet, w, depth, r', left', limit', at') && r' <= r + (at' - at)
    ensures left' < left || (left' == left && limit' < limit)
  {
    var llen := packet[r];
    if llen >= 0x40 {
      ReadsThrough(packet, r, limit, LabelsAt(w, at));
      r' := PointerValue(llen, packet[r + 1]);
      left', limit', at' := left, r', at;
    } else {
      LabelPast(packet, r, limit, w, at, depth);
      r' := r + (llen + 1);
      left', limit', at' := left - (llen + 1), limit, Next(w, at);
    }
  }

  lemma LabelPast(p: Bytes, o: nat, limit: nat, w: Bytes, at: nat, depth: nat)
    requires WireAt(w, at) && Boundary(w, at, depth) && WireAt(w, depth) && at < depth
    requires Reads(p, o, limit, LabelsAt(w, at)) && p[o] <= MAX_LABEL
    ensures w[at] != 0 && p[o] == w[at] && Next(w, at) <= depth && WireAt(w, Next(w, at))
    ensures Boundary(w, Next(w, at), depth)
    ensures Reads(p, Next(p, o), limit, LabelsAt(w, Next(w, at)))
  {
    ReadsPast(p, o, limit, w, at);
    BoundaryWire(w, Next(w, at), depth);
  }

  /** A pointer where a name is read leads to the name, further back. */
  lemma ReadsThrough(p: Bytes, o: nat, limit: nat, n: Name)
    requires Reads(p, o, limit, n) && p[o] >= 0x40
    ensures p[o] >= 0xC0 && o + 1 < |p|
    ensures var t := PointerValue(p[o], p[o + 1]); HEADER <= t < limit && Reads(p, t, t, n)
  {
  }

  /**
    The message holds `items` after the question, the store `a` holds the records `xs` in the rrsets `us`,
    and every promise about names holds.
   */
  ghost predicate Promised(m: Msg, qend: nat, items: seq<Item>, a: Bytes, us: seq<Unwind>, xs: seq<Extra>,
                           strayed: bool) {
    Inv(m) && HEADER <= qend <= |m.bytes| && Listed(m.bytes, qend, items) && AddtlOk(m.bytes, a, us, xs, strayed)
  }

  lemma PromiseRecord(m: Msg, qend: nat, items: seq<Item>, a: Bytes, us: seq<Unwind>, xs: seq<Extra>, strayed: bool,
                      rr: Rr)
    requires Promised(m, qend, items, a, us, xs, strayed) && RrLegal(rr) && Repeatable(m.bytes, rr.owner)
    ensures var r := PutRecord(m, rr);
            && Promised(r, qend, items + [ItemOf(m, rr)], a, us, xs, strayed)
            && m.bytes <= r.bytes && |r.bytes| <= |m.bytes| + 12 + PartsSize(rr.parts)
  {
    PutRecordOk(m, rr);
    PutRecordReads(m, rr);
    var r := PutRecord(m, rr);
    var e := r.bytes[|m.bytes|..];
    assert m.bytes + e == r.bytes;
    ListedOneMore(m.bytes, e, qend, items, ItemOf(m, rr));
    AddtlExtend(m.bytes, e, a, us, xs, strayed);
  }

  lemma PromiseExtra(m: Msg, qend: nat, items: seq<Item>, a: Bytes, us: seq<Unwind>, xs: seq<Extra>, strayed: bool,
                     owner: Bytes, at: nat, fixed: Bytes, addr: Bytes, name: Name, within: bool)
    requires Promised(m, qend, items, a, us, xs, strayed) && us != []
    requires |fixed| == 8 && |addr| < 0x10000 && |owner| > 0
    requires within ==> Repeatable(m.bytes, at) && Denotes(m.bytes, at, name) && owner == RepeatBytes(m.bytes, at)
    requires !within ==> |m.bytes| > POINTER_SPAN
    ensures Promised(m, qend, items, a + (owner + (fixed + U16(|addr|) + addr)), us,
                     xs + [Extra(|a|, |a| + |owner|, name, fixed, addr)], strayed || !within)
  {
    AddtlPut(m.bytes, a, us, xs, strayed, owner, at, fixed, addr, name, within);
  }

  lemma PromiseTrack(m: Msg, qend: nat, items: seq<Item>, a: Bytes, us: seq<Unwind>, xs: seq<Extra>, strayed: bool,
                     rrset: AddrSet)
    requires Promised(m, qend, items, a, us, xs, strayed) && forall i :: 0 <= i < |us| ==> us[i].rrset != rrset
    ensures Promised(m, qend, items, a, us + [Unwind(rrset, |a|, |xs|)], xs, strayed)
  {
    AddtlTrack(m.bytes, a, us, xs, strayed, rrset);
  }

  /** A name is stored at `at`; within a pointer's reach it can be read there. */
  ghost predicate NameThere(p: Bytes, at: nat, name: Name) {
    HEADER <= at && SkipName(p, at).Some? && (at <= POINTER_SPAN ==> Denotes(p, at, name))
  }

  lemma EndingName(m: Msg, at: nat, name: Name)
    requires Inv(m) && NameEnds(m.bytes, m.log, at, name)
    ensures NameThere(m.bytes, at, name)
  {
    assert DenotesAt(m.bytes, m.log[|m.log| - 1]);
  }

  class Context {
    var packet: Bytes
    var targets: seq<Target>
    var addtlStore: Bytes
    var addtlRrsets: seq<Unwind>
    var answerAddr: Option<AddrSet>
    var addtlHasGlue: bool
    var ancount: nat
    var nscount: nat
    var arcount: nat
    var cnameAncount: nat
    var qnameComp: nat
    var authComp: nat
    /** `max_addtl_rrsets` */
    const maxAddtl: nat
    ghost var log: seq<Written>
    /** Where the question ends. */
    ghost var qend: nat
    /** The records of the packet and of the additional store. */
    ghost var records: seq<Item>
    ghost var extras: seq<Extra>
    /** Under which name each additional rrset is. */
    ghost var addtlOwners: seq<Name>
    ghost var strayed: bool

    constructor (maxAddtl: nat)
      ensures this.maxAddtl == maxAddtl && packet == [] && addtlRrsets == []
    {
      this.maxAddtl := maxAddtl;
      packet, targets, addtlStore, addtlRrsets := [], [], [], [];
      answerAddr, addtlHasGlue := None, false;
      ancount, nscount, arcount, cnameAncount, qnameComp, authComp := 0, 0, 0, 0, 0, 0;
      log, qend, records, extras, addtlOwners, strayed := [], 0, [], [], [], false;
    }

    ghost function View(): Msg
      reads this`packet, this`targets, this`log
    {
      Msg(packet, targets, log)
    }

    /** `store_dname`: a name, compressed as far as an earlier name allows. */
    method StoreDname(w: Bytes)
      requires Legal(View()) && IsWire(w)
      modifies this`packet, this`targets, this`log
      ensures View() == PutPart(old(View()), Compressed(w))
    {
      ghost var at := |packet|;
      log := log + [Written(at, LabelsAt(w, 0), Reachable(targets, w))];
      // the root is never compressed, nor compressed against
      if w[0] == 0 {
        packet := packet + [0];
        return;
      }
      var m := FindBest(targets, w);
      SearchFinds(targets, 0, w, NO_MATCH);
      var offset := |packet|;
      if m.offset != 0 {
        packet := packet + (w[..m.pos] + Pointer(m.offset));
      } else {
        packet := packet + w;
      }
      if m.pos != 0 && offset < POINTER_SPAN && |targets| < MAX_TARGETS {
        targets := targets + [Target(w, offset, m.pos)];
      }
    }

    /** `store_dname_nocomp`: a name in full. */
    method StoreWhole(w: Bytes)
      requires Legal(View()) && IsWire(w)
      modifies this`packet, this`targets, this`log
      ensures View() == PutPart(old(View()), Literal(w))
    {
      log := log + [Written(|packet|, LabelsAt(w, 0), true)];
      if w[0] != 0 && |packet| < POINTER_SPAN && |targets| < MAX_TARGETS {
        targets := targets + [Target(w, |packet|, WHOLE)];
      }
      packet := packet + w;
    }

    /** `repeat_name` into the main sections. */
    method RepeatName(at: nat)
      requires Legal(View()) && Repeatable(packet, at)
      modifies this`packet, this`log
      ensures View() == Step(old(View()), Op.RepeatName(at))
    {
      log := log + [Written(|packet|, Decode(packet, at).value, true)];
      if packet[at] == 0 {
        packet := packet + [0];
      } else if packet[at] >= 0x40 {
        packet := packet + [packet[at], packet[at + 1]];
      } else {
        packet := packet + Pointer(at);
      }
    }

    /** The pattern all encoders follow: owner, fixed fields, data, and the data length patched in afterwards. */
    method EncodeRecord(rr: Rr) returns (lastAt: nat)
      requires Legal(View()) && RrLegal(rr) && Repeatable(packet, rr.owner)
      modifies this`packet, this`targets, this`log
      ensures View() == PutRecord(old(View()), rr)
      ensures EndsWithName(rr.parts) ==> NameEnds(packet, log, lastAt, LastName(rr.parts))
    {
      ghost var m := View();
      RepeatName(rr.owner);
      packet := packet + rr.fixed;
      var lenAt := |packet|;
      packet := packet + [0, 0];
      var dataAt := |packet|;
      ghost var draft := RecordHead(m, rr, [0, 0]);
      assert View() == draft && Legal(draft) by { RecordHeadOk(m, rr, [0, 0]); }
      lastAt := EncodeParts(rr.parts);
      assert draft.bytes <= packet by { PutPartsProperties(draft, draft, rr.parts); }
      ghost var d := View();
      var len := U16(|packet| - dataAt);
      packet := packet[..lenAt] + len + packet[dataAt..];
      PatchedRecord(m, rr, draft, d, View());
      if EndsWithName(rr.parts) {
        SamePast(d.bytes, packet, lenAt, dataAt, lastAt, len);
        SkipNameSuffix(d.bytes, packet, lastAt);
      }
    }

    method EncodeParts(parts: seq<Part>) returns (lastAt: nat)
      requires Legal(View()) && PartsLegal(parts)
      modifies this`packet, this`targets, this`log
      ensures View() == PutParts(old(View()), parts)
      ensures |old(packet)| <= lastAt <= |packet|
      ensures EndsWithName(parts) ==> NameEnds(packet, log, lastAt, LastName(parts))
    {
      var i := 0;
      lastAt := |packet|;
      while i < |parts|
        invariant 0 <= i <= |parts|
        invariant Legal(View()) && PutParts(View(), parts[i..]) == PutParts(old(View()), parts)
        invariant |old(packet)| <= lastAt <= |packet|
        invariant 0 < i && !parts[i - 1].Raw? ==> NameEnds(packet, log, lastAt, LabelsAt(parts[i - 1].name, 0))
      {
        assert parts[i..][1..] == parts[i + 1..];
        lastAt := |packet|;
        EncodePart(parts[i]);
        i := i + 1;
      }
    }

    method EncodePart(part: Part)
      requires Legal(View()) && PartLegal(part)
      modifies this`packet, this`targets, this`log
      ensures View() == PutPart(old(View()), part) && Legal(View()) && old(packet) <= packet
      ensures !part.Raw? ==> NameEnds(packet, log, |old(packet)|, LabelsAt(part.name, 0))
    {
      PutPartIsStep(View(), part);
      match part {
        case Raw(b) =>
          packet := packet + b;
          assert log + [] == log;
        case Compressed(w) =>
          SkipStored(packet, targets, w);
          StoreDname(w);
        case Literal(w) =>
          SkipWhole(packet, w);
          StoreWhole(w);
      }
    }

    /** The packet holds `records` after the question, the store holds `extras`, and every promise holds. */
    ghost predicate Sane()
      reads this`packet, this`targets, this`log, this`qend, this`records
      reads this`addtlStore, this`addtlRrsets, this`extras, this`strayed
    {
      Promised(View(), qend, records, addtlStore, addtlRrsets, extras, strayed)
    }

    /** Every additional rrset is complete. */
    ghost predicate Complete()
      reads this`addtlRrsets, this`extras, this`addtlOwners, this`answerAddr, this`arcount
    {
      Carried(addtlRrsets, extras, addtlOwners, answerAddr) && arcount == |extras|
    }

    method PutRr(rr: Rr) returns (lastAt: nat)
      requires Sane() && RrLegal(rr) && Repeatable(packet, rr.owner)
      modifies this`packet, this`targets, this`log, this`records
      ensures Sane() && old(packet) <= packet && |packet| <= |old(packet)| + 12 + PartsSize(rr.parts)
      ensures OneMore(old(records), records, rr)
      ensures EndsWithName(rr.parts) ==> NameThere(packet, lastAt, LastName(rr.parts))
    {
      ghost var it := ItemOf(View(), rr);
      PromiseRecord(View(), qend, records, addtlStore, addtlRrsets, extras, strayed, rr);
      lastAt := EncodeRecord(rr);
      records := records + [it];
      if EndsWithName(rr.parts) {
        EndingName(View(), lastAt, LastName(rr.parts));
      }
    }

    /** Addresses in the answer section, from a random one on, as many as the limit says. */
    method EncodeAddrs(addrs: seq<Bytes>, limit: nat, fixed: Bytes, nameptr: nat) returns (start: nat)
      requires Sane() && limit <= |addrs| && |fixed| == 8 && Repeatable(packet, nameptr) && ShortAddrs(addrs)
      modifies this`packet, this`targets, this`log, this`records
      ensures Sane() && old(packet) <= packet && Repeatable(packet, nameptr)
      ensures DrawnItems(old(records), records, nameptr, fixed, addrs, start, limit)
    {
      start := 0;
      if |addrs| == 0 {
        return;
      }
      start :| start < |addrs|;
      var i, count := start, 0;
      while count < limit
        invariant 0 <= count <= limit
        invariant i == (if start + count < |addrs| then start + count else start + count - |addrs|)
        invariant Sane() && old(packet) <= packet && Repeatable(packet, nameptr)
        invariant DrawnItems(old(records), records, nameptr, fixed, addrs, start, count)
      {
        ghost var rs := records;
        EncodeAddr(addrs[i], fixed, nameptr);
        DrawnItemsStep(old(records), rs, records, nameptr, fixed, addrs, start, count);
        i := i + 1;
        if i == |addrs| { i := 0; }
        count := count + 1;
      }
    }

    method EncodeAddr(addr: Bytes, fixed: Bytes, nameptr: nat)
      requires Sane() && |fixed| == 8 && Repeatable(packet, nameptr) && |addr| <= 16
      modifies this`packet, this`targets, this`log, this`records
      ensures Sane() && old(packet) <= packet && Repeatable(packet, nameptr)
      ensures OneMore(old(records), records, AddrRr(nameptr, fixed, addr))
    {
      var rr := AddrRr(nameptr, fixed, addr);
      assert PartsSize(rr.parts) == |addr| + PartsSize(rr.parts[1..]);
      ghost var was := packet;
      var _ := PutRr(rr);
      RepeatableExtend(was, packet, nameptr);
    }

    /** The owner name of an additional record; beyond a pointer's reach its bytes are left open. */
    method OwnerBytes(nameptr: nat, ghost name: Name) returns (b: Bytes)
      requires NameThere(packet, nameptr, name)
      ensures |b| > 0 && (InReach(packet, nameptr) ==> Repeatable(packet, nameptr) && b == RepeatBytes(packet, nameptr))
    {
      if packet[nameptr] == 0 {
        b := [0];
      } else if packet[nameptr] >= 0x40 {
        b := [packet[nameptr], packet[nameptr + 1]];
      } else if nameptr < POINTER_SPAN {
        b := Pointer(nameptr);
      } else {
        b :| |b| > 0;
      }
    }

    method AddtlRecord(addr: Bytes, fixed: Bytes, nameptr: nat, ghost name: Name)
      requires Sane() && |fixed| == 8 && |addr| <= 16 && addtlRrsets != []
      requires NameThere(packet, nameptr, name)
      modifies this`addtlStore, this`extras, this`strayed
      ensures Sane() && OneExtraMore(old(extras), extras, fixed, name, addr)
    {
      var owner := OwnerBytes(nameptr, name);
      ghost var was, within := addtlStore, InReach(packet, nameptr);
      if !within {
        SkipNameExtend(packet, [], nameptr);
        SkipNameForward(packet, nameptr);
      }
      PromiseExtra(View(), qend, records, addtlStore, addtlRrsets, extras, strayed, owner, nameptr, fixed, addr, name,
        within);
      addtlStore := addtlStore + (owner + (fixed + U16(|addr|) + addr));
      extras := extras + [Extra(|was|, |was| + |owner|, name, fixed, addr)];
      strayed := strayed || !within;
    }

    /** Addresses in the additional store, likewise from a random one on. */
    method AddtlAddrs(addrs: seq<Bytes>, limit: nat, fixed: Bytes, nameptr: nat, ghost name: Name) returns (start: nat)
      requires Sane() && limit <= |addrs| && |fixed| == 8 && addtlRrsets != []
      requires ShortAddrs(addrs)
      requires NameThere(packet, nameptr, name)
      modifies this`addtlStore, this`extras, this`strayed
      ensures Sane() && |extras| == |old(extras)| + limit && old(extras) <= extras
      ensures Drawn(extras, |old(extras)|, fixed, name, addrs, start, limit)
    {
      start := 0;
      if |addrs| == 0 {
        return;
      }
      start :| start < |addrs|;
      var i, count := start, 0;
      while count < limit
        invariant 0 <= count <= limit
        invariant i == (if start + count < |addrs| then start + count else start + count - |addrs|)
        invariant Sane() && |extras| == |old(extras)| + count && old(extras) <= extras
        invariant Drawn(extras, |old(extras)|, fixed, name, addrs, start, count)
      {
        ghost var xs := extras;
        AddtlRecord(addrs[i], fixed, nameptr, name);
        DrawnStep(xs, extras, |old(extras)|, fixed, name, addrs, start, count);
        i := i + 1;
        if i == |addrs| { i := 0; }
        count := count + 1;
      }
    }

    /**
      `add_addtl_rrset`: the addresses of a name just stored at `nameptr`, unless they are the answer, are
      there already, or the list is full.
     */
    method AddAddtlRrset(a: AddrSet, nameptr: nat, ghost name: Name)
      requires Sane() && Complete() && AddrSetLegal(a)
      requires NameThere(packet, nameptr, name)
      modifies this`addtlStore, this`extras, this`strayed, this`addtlRrsets, this`addtlOwners, this`arcount
      ensures Sane() && Complete() && old(extras) <= extras
      ensures answerAddr == Some(a) || |old(addtlRrsets)| == maxAddtl ==>
                addtlRrsets == old(addtlRrsets) && addtlOwners == old(addtlOwners)
      ensures Tracked(old(addtlRrsets), old(addtlOwners), addtlRrsets, addtlOwners, a, name)
      ensures answerAddr == Some(a) || |old(addtlRrsets)| == maxAddtl || HasRrset(addtlRrsets, a)
      ensures Appended(old(ExtrasOf(this)), ExtrasOf(this))
    {
      if answerAddr == Some(a) || |addtlRrsets| == maxAddtl {
        return;
      }
      var i := 0;
      while i < |addtlRrsets|
        invariant 0 <= i <= |addtlRrsets|
        invariant forall j :: 0 <= j < i ==> addtlRrsets[j].rrset != a
      {
        if addtlRrsets[i].rrset == a {
          return;
        }
        i := i + 1;
      }
      AppendRrset(a, nameptr, name);
    }

    method AppendRrset(a: AddrSet, nameptr: nat, ghost name: Name)
      requires Sane() && Complete() && AddrSetLegal(a)
      requires NameThere(packet, nameptr, name)
      requires forall j :: 0 <= j < |addtlRrsets| ==> addtlRrsets[j].rrset != a
      modifies this`addtlStore, this`extras, this`strayed, this`addtlRrsets, this`addtlOwners, this`arcount
      ensures Sane() && Complete() && old(extras) <= extras
      ensures Tracked(old(addtlRrsets), old(addtlOwners), addtlRrsets, addtlOwners, a, name)
      ensures HasRrset(addtlRrsets, a) && Appended(old(ExtrasOf(this)), ExtrasOf(this))
    {
      ghost var us, xs := addtlRrsets, extras;
      CountsBounded(packet, addtlStore, us, xs, strayed);
      PromiseTrack(View(), qend, records, addtlStore, addtlRrsets, extras, strayed, a);
      var u := Unwind(a, |addtlStore|, arcount);
      addtlRrsets := addtlRrsets + [u];
      assert addtlRrsets[|addtlRrsets| - 1].rrset == a;
      WriteRrset(a, nameptr, name);
      CarriedOneMore(us, xs, addtlOwners, extras, u, name, answerAddr);
      addtlOwners := addtlOwners + [name];
    }

    /** Both families of an rrset. */
    method WriteRrset(a: AddrSet, nameptr: nat, ghost name: Name)
      requires Sane() && AddrSetLegal(a) && addtlRrsets != [] && NameThere(packet, nameptr, name) && arcount == |extras|
      modifies this`addtlStore, this`extras, this`strayed, this`arcount
      ensures Sane() && old(extras) <= extras && Carries(extras, |old(extras)|, |extras|, a, name)
      ensures arcount == |extras|
    {
      ghost var lo := |extras|;
      var s4 := AddtlAddrs(AddrsOf(a, false), LimitOf(a, false), FixedOf(a, false), nameptr, name);
      arcount := arcount + a.limitV4;
      ghost var mid := extras;
      var s6 := AddtlAddrs(AddrsOf(a, true), LimitOf(a, true), FixedOf(a, true), nameptr, name);
      arcount := arcount + a.limitV6;
      BothFamilies(mid, extras, lo, a, name, s4, s6);
    }

    /**
      The loop all record types but addresses follow: each record of the set, from `start` on and round, with
      the addresses of the name it ends with.  Name servers and pointers rotate; the rest start at 0.
     */
    method EncodeRrset(owner: nat, rrs: seq<RrData>, start: nat)
      requires Sane() && Complete() && Repeatable(packet, owner) && (rrs != [] ==> start < |rrs|)
      requires RrsLegal(rrs)
      modifies this`packet, this`targets, this`log, this`records, this`addtlStore, this`extras, this`strayed,
               this`addtlRrsets, this`addtlOwners, this`arcount, this`addtlHasGlue
      ensures Sane() && Complete() && old(packet) <= packet
      ensures RoundOf(old(records), records, owner, rrs, start, |rrs|)
      ensures GrewBy(old(ExtrasOf(this)), ExtrasOf(this), rrs, maxAddtl)
    {
      if rrs == [] {
        return;
      }
      ghost var rs, x := records, ExtrasOf(this);
      var i, count := start, 0;
      while count < |rrs|
        invariant 0 <= count <= |rrs| && i == (if start + count < |rrs| then start + count else start + count - |rrs|)
        invariant Sane() && Complete() && old(packet) <= packet && Repeatable(packet, owner)
        invariant Encoding(rs, x, records, ExtrasOf(this), owner, rrs, start, count, maxAddtl)
      {
        EncodeTurn(owner, rrs, start, count, i, rs, x);
        i := i + 1;
        if i == |rrs| { i := 0; }
        count := count + 1;
      }
      GrownFull(x, ExtrasOf(this), rrs, start, maxAddtl);
    }

    /** The next record of a round that began with the records `rs` and the additional rrsets `x`. */
    method EncodeTurn(owner: nat, rrs: seq<RrData>, ghost start: nat, ghost count: nat, i: nat,
                      ghost rs: seq<Item>, ghost x: Extras)
      requires Sane() && Complete() && Repeatable(packet, owner) && RrsLegal(rrs)
      requires start < |rrs| && count < |rrs| && i == Turn(|rrs|, start, count)
      requires Encoding(rs, x, records, ExtrasOf(this), owner, rrs, start, count, maxAddtl)
      modifies this`packet, this`targets, this`log, this`records, this`addtlStore, this`extras, this`strayed,
               this`addtlRrsets, this`addtlOwners, this`arcount, this`addtlHasGlue
      ensures Sane() && Complete() && old(packet) <= packet && Repeatable(packet, owner)
      ensures Encoding(rs, x, records, ExtrasOf(this), owner, rrs, start, count + 1, maxAddtl)
    {
      ghost var rs', x' := records, ExtrasOf(this);
      assert RrDataLegal(rrs[i]);
      EncodeOne(owner, rrs[i]);
      EncodeStep(rs, x, rs', x', records, ExtrasOf(this), owner, rrs, start, count, i, maxAddtl);
    }

    /** One record of a set and the addresses of its name. */
    method EncodeOne(owner: nat, d: RrData)
      requires Sane() && Complete() && Repeatable(packet, owner) && RrDataLegal(d)
      modifies this`packet, this`targets, this`log, this`records, this`addtlStore, this`extras, this`strayed,
               this`addtlRrsets, this`addtlOwners, this`arcount, this`addtlHasGlue
      ensures Sane() && Complete() && old(packet) <= packet && Repeatable(packet, owner)
      ensures OneMore(old(records), records, RrOf(owner, d))
      ensures GrewByOne(old(ExtrasOf(this)), ExtrasOf(this), d, maxAddtl)
    {
      ghost var was := packet;
      var at := PutRr(RrOf(owner, d));
      RepeatableExtend(was, packet, owner);
      if d.ad.Some? {
        if d.glue {
          addtlHasGlue := true;
        }
        AddAddtlRrset(d.ad.value, at, LastName(d.parts));
      }
    }

    /** `encode_rrs_anyaddr` in the answer section: both address families, remembered as the answer. */
    method EncodeAnyAddr(a: AddrSet) returns (s4: nat, s6: nat, ghost mid: seq<Item>)
      requires Sane() && Complete() && AddrSetLegal(a) && Repeatable(packet, qnameComp) && addtlRrsets == []
      modifies this`packet, this`targets, this`log, this`records, this`answerAddr, this`ancount
      ensures Sane() && Complete() && old(packet) <= packet
      ensures DrawnItems(old(records), mid, qnameComp, FixedOf(a, false), AddrsOf(a, false), s4, a.limitV4)
      ensures DrawnItems(mid, records, qnameComp, FixedOf(a, true), AddrsOf(a, true), s6, a.limitV6)
      ensures ancount == old(ancount) + a.limitV4 + a.limitV6 && answerAddr == Some(a)
    {
      answerAddr := Some(a);
      CarriedNone(extras, answerAddr);
      s4 := EncodeFamily(a, false);
      mid := records;
      s6 := EncodeFamily(a, true);
    }

    /** One address family as answer. */
    method EncodeFamily(a: AddrSet, v6: bool) returns (start: nat)
      requires Sane() && AddrSetLegal(a) && Repeatable(packet, qnameComp)
      modifies this`packet, this`targets, this`log, this`records, this`ancount
      ensures Sane() && old(packet) <= packet && Repeatable(packet, qnameComp)
      ensures DrawnItems(old(records), records, qnameComp, FixedOf(a, v6), AddrsOf(a, v6), start, LimitOf(a, v6))
      ensures ancount == old(ancount) + LimitOf(a, v6)
    {
      start := EncodeAddrs(AddrsOf(a, v6), LimitOf(a, v6), FixedOf(a, v6), qnameComp);
      ancount := ancount + LimitOf(a, v6);
    }

    /**
      `encode_rrs_a` and `encode_rrs_aaaa`: the asked-for family is the answer, the other one goes to the
      additional section, if there is any of it.
     */
    method EncodeOneFamily(a: AddrSet, v6: bool, ghost name: Name) returns (start: nat)
      requires Sane() && Complete() && AddrSetLegal(a) && addtlRrsets == [] && extras == []
      requires Repeatable(packet, qnameComp) && Denotes(packet, qnameComp, name) && qnameComp < POINTER_SPAN
      modifies this`packet, this`targets, this`log, this`records, this`answerAddr, this`ancount,
               this`addtlStore, this`extras, this`strayed, this`addtlRrsets, this`addtlOwners, this`arcount
      ensures Sane() && Complete() && old(packet) <= packet && answerAddr == Some(a)
      ensures ancount == old(ancount) + LimitOf(a, v6)
      ensures DrawnItems(old(records), records, qnameComp, FixedOf(a, v6), AddrsOf(a, v6), start, LimitOf(a, v6))
      ensures OtherDrawn(extras, a, !v6, name)
      ensures if AddrsOf(a, !v6) == [] then addtlRrsets == [] else |addtlRrsets| == 1 && addtlRrsets[0].rrset == a
    {
      answerAddr := Some(a);
      CarriedNone(extras, answerAddr);
      ghost var was := packet;
      start := EncodeFamily(a, v6);
      StillThere(was, packet, qnameComp, name);
      TrackOther(a, !v6, name);
    }

    method TrackOther(a: AddrSet, v6: bool, ghost name: Name)
      requires Sane() && Complete() && addtlRrsets == [] && extras == [] && AddrSetLegal(a) && answerAddr == Some(a)
      requires HEADER <= qnameComp && Denotes(packet, qnameComp, name)
      modifies this`addtlStore, this`extras, this`strayed, this`addtlRrsets, this`addtlOwners, this`arcount
      ensures Sane() && Complete() && OtherDrawn(extras, a, v6, name)
      ensures if AddrsOf(a, v6) == [] then addtlRrsets == [] else |addtlRrsets| == 1 && addtlRrsets[0].rrset == a
    {
      if AddrsOf(a, v6) == [] {
        assert Drawn(extras, 0, FixedOf(a, v6), name, AddrsOf(a, v6), 0, LimitOf(a, v6));
        return;
      }
      DecodeSkips(packet, qnameComp, qnameComp);
      PromiseTrack(View(), qend, records, addtlStore, addtlRrsets, extras, strayed, a);
      addtlRrsets := addtlRrsets + [Unwind(a, |addtlStore|, arcount)];
      addtlOwners := addtlOwners + [name];
      var start := AddtlAddrs(AddrsOf(a, v6), LimitOf(a, v6), FixedOf(a, v6), qnameComp, name);
      arcount := arcount + LimitOf(a, v6);
      assert Drawn(extras, 0, FixedOf(a, v6), name, AddrsOf(a, v6), start, LimitOf(a, v6));
    }
  }

  /** The additional records are one family of the answer's addresses, under the answer's name. */
  ghost predicate OtherDrawn(xs: seq<Extra>, a: AddrSet, v6: bool, name: Name) {
    |xs| == LimitOf(a, v6) && exists start :: Drawn(xs, 0, FixedOf(a, v6), name, AddrsOf(a, v6), start, LimitOf(a, v6))
  }

  // ---- Which records were put -------------------------------------------------------------

  /** `rs'` adds to `rs` records for the first `count` addresses of a round from `start`. */
  ghost predicate DrawnItems(rs: seq<Item>, rs': seq<Item>, owner: nat, fixed: Bytes, addrs: seq<Bytes>, start: nat,
                             count: nat) {
    && count <= |addrs| && (addrs != [] ==> start < |addrs|) && rs <= rs' && |rs'| == |rs| + count
    && forall k :: |rs| <= k < |rs'| ==> rs'[k].rr == AddrRr(owner, fixed, addrs[Turn(|addrs|, start, k - |rs|)])
  }

  function AddrRr(owner: nat, fixed: Bytes, addr: Bytes): Rr { Rr(owner, fixed, [Raw(addr)]) }

  lemma DrawnItemsStep(base: seq<Item>, rs: seq<Item>, rs': seq<Item>, owner: nat, fixed: Bytes, addrs: seq<Bytes>,
                       start: nat, count: nat)
    requires count < |addrs| && DrawnItems(base, rs, owner, fixed, addrs, start, count)
    requires OneMore(rs, rs', AddrRr(owner, fixed, addrs[Turn(|addrs|, start, count)]))
    ensures DrawnItems(base, rs', owner, fixed, addrs, start, count + 1)
  {
  }

  ghost predicate ShortAddrs(addrs: seq<Bytes>) {
    forall i :: 0 <= i < |addrs| ==> |addrs[i]| <= 16
  }

  function RrOf(owner: nat, d: RrData): Rr { Rr(owner, d.fixed, d.parts) }

  ghost predicate OneMore(rs: seq<Item>, rs': seq<Item>, rr: Rr) {
    |rs'| == |rs| + 1 && rs <= rs' && rs'[|rs|].rr == rr
  }

  /** `rs'` adds to `rs` the first `count` records of a round over the set. */
  ghost predicate RoundOf(rs: seq<Item>, rs': seq<Item>, owner: nat, rrs: seq<RrData>, start: nat, count: nat)
    requires count <= |rrs| && (rrs != [] ==> start < |rrs|)
  {
    && rs <= rs' && |rs'| == |rs| + count
    && forall k :: |rs| <= k < |rs'| ==> rs'[k].rr == RrOf(owner, rrs[Turn(|rrs|, start, k - |rs|)])
  }

  lemma RoundStep(base: seq<Item>, rs: seq<Item>, rs': seq<Item>, owner: nat, rrs: seq<RrData>, start: nat, count: nat)
    requires start < |rrs| && count < |rrs| && RoundOf(base, rs, owner, rrs, start, count)
    requires OneMore(rs, rs', RrOf(owner, rrs[Turn(|rrs|, start, count)]))
    ensures RoundOf(base, rs', owner, rrs, start, count + 1)
  {
  }

  lemma CountsBounded(packet: Bytes, a: Bytes, us: seq<Unwind>, xs: seq<Extra>, strayed: bool)
    requires AddtlOk(packet, a, us, xs, strayed)
    ensures forall i :: 0 <= i <= |us| ==> CountBefore(xs, us, i) <= |xs|
  {
    forall i | 0 <= i <= |us| ensures CountBefore(xs, us, i) <= |xs| {
      assert Aligned(a, us, xs, i);
    }
  }

  lemma StillThere(p: Bytes, p': Bytes, at: nat, name: Name)
    requires Denotes(p, at, name) && p <= p'
    ensures Denotes(p', at, name)
  {
    ReadsExtend(p, p'[|p|..], at, at, at, name);
    assert p + p'[|p|..] == p';
  }

  /** What decodes can be stepped over. */
  lemma {:induction false} DecodeSkips(p: Bytes, o: nat, limit: nat)
    requires DecodeBelow(p, o, limit).Some?
    ensures SkipName(p, o).Some?
    decreases |p| - o
  {
    if 0 < p[o] <= MAX_LABEL {
      DecodeSkips(p, Next(p, o), limit);
    }
  }

  /** Record data with the address rrset its name leads to, if any, and whether that is glue. */
  datatype RrData = RrData(fixed: Bytes, parts: seq<Part>, ad: Option<AddrSet>, glue: bool)

  ghost predicate RrsLegal(rrs: seq<RrData>) {
    forall i {:trigger RrDataLegal(rrs[i])} :: 0 <= i < |rrs| ==> RrDataLegal(rrs[i])
  }

  ghost predicate RrDataLegal(d: RrData) {
    && |d.fixed| == 8 && PartsLegal(d.parts) && PartsSize(d.parts) < 0x10000
    && (d.ad.Some? ==> AddrSetLegal(d.ad.value) && EndsWithName(d.parts))
  }

  /** A name at `at` can be repeated in the additional store by the ordinary means. */
  predicate InReach(p: Bytes, at: nat) {
    at <= POINTER_SPAN && (at == POINTER_SPAN ==> !StartsLabel(p, at))
  }

  ghost predicate GluedAt(rrs: seq<RrData>, i: nat) {
    i < |rrs| && rrs[i].ad.Some? && rrs[i].glue
  }

  ghost predicate AnyGlue(rrs: seq<RrData>) { exists i :: GluedAt(rrs, i) }

  // ---- What the additional section gains ------------------------------------------------------

  /**
    The additional section as far as it has been put together: the rrsets, their records and owners, the
    answer's addresses, and whether some of it is glue.
   */
  datatype Extras =
    Extras(rrsets: seq<Unwind>, records: seq<Extra>, owners: seq<Name>, answer: Option<AddrSet>, glue: bool)

  ghost function ExtrasOf(c: Context): Extras
    reads c`addtlRrsets, c`extras, c`addtlOwners, c`answerAddr, c`addtlHasGlue
  {
    Extras(c.addtlRrsets, c.extras, c.addtlOwners, c.answerAddr, c.addtlHasGlue)
  }

  /** The list is as it was, or has gained `a`, under `name`. */
  ghost predicate Tracked(us: seq<Unwind>, owners: seq<Name>, us': seq<Unwind>, owners': seq<Name>, a: AddrSet,
                          name: Name) {
    || (us' == us && owners' == owners)
    || (|us'| == |us| + 1 && us <= us' && us'[|us|].rrset == a && owners' == owners + [name])
  }

  /** The addresses a record leads to, under the name it ends with; not the answer's, and none if the list is full. */
  ghost predicate TrackedFor(x: Extras, x': Extras, d: RrData, max: nat)
    requires RrDataLegal(d)
  {
    if d.ad.None? || d.ad == x.answer || |x.rrsets| == max then x'.rrsets == x.rrsets && x'.owners == x.owners
    else Tracked(x.rrsets, x.owners, x'.rrsets, x'.owners, d.ad.value, LastName(d.parts))
  }

  /** What was there is followed by the first of what was added, if anything was. */
  ghost predicate Appended(x: Extras, x': Extras) {
    |x.rrsets| <= |x'.rrsets| && CountBefore(x'.records, x'.rrsets, |x.rrsets|) == |x.records|
  }

  /** What one record does to the additional section. */
  ghost predicate GrewByOne(x: Extras, x': Extras, d: RrData, max: nat)
    requires RrDataLegal(d)
  {
    && x'.answer == x.answer && x.records <= x'.records && TrackedFor(x, x', d, max) && Appended(x, x')
    && (|x.rrsets| == max || AdPresent(d, x.answer, x'.rrsets)) && x'.glue == (x.glue || (d.ad.Some? && d.glue))
  }

  /**
    The `k`-th additional rrset is one that a record of the set leads to, under that record's name, and not
    the answer's.
   */
  ghost predicate LedTo(x: Extras, rrs: seq<RrData>, k: nat)
    requires k < |x.rrsets| == |x.owners| && RrsLegal(rrs)
  {
    x.answer != Some(x.rrsets[k].rrset) &&
    exists i :: 0 <= i < |rrs| && LedToBy(x.rrsets[k].rrset, x.owners[k], rrs[i])
  }

  ghost predicate LedToBy(a: AddrSet, name: Name, d: RrData) {
    RrDataLegal(d) && d.ad == Some(a) && name == LastName(d.parts)
  }

  /** At most `count` rrsets were added, none to a full list, and each is one that a record of the set leads to. */
  ghost predicate AddedFor(x: Extras, x': Extras, rrs: seq<RrData>, count: nat, max: nat)
    requires RrsLegal(rrs)
  {
    && x'.answer == x.answer && x.records <= x'.records && x.rrsets <= x'.rrsets && x.owners <= x'.owners
    && |x'.rrsets| <= |x.rrsets| + count && |x.owners| == |x.rrsets| && |x'.owners| == |x'.rrsets| && Appended(x, x')
    && (|x.rrsets| == max ==> x'.rrsets == x.rrsets)
    && forall k {:trigger LedTo(x', rrs, k)} :: |x.rrsets| <= k < |x'.rrsets| ==> LedTo(x', rrs, k)
  }

  lemma AddedOneMore(x: Extras, x1: Extras, x2: Extras, rrs: seq<RrData>, i: nat, count: nat, max: nat)
    requires RrsLegal(rrs) && i < |rrs| && RrDataLegal(rrs[i]) && AddedFor(x, x1, rrs, count, max)
    requires GrewByOne(x1, x2, rrs[i], max)
    ensures AddedFor(x, x2, rrs, count + 1, max)
  {
    forall k | |x.rrsets| <= k < |x2.rrsets| ensures |x2.owners| == |x2.rrsets| && LedTo(x2, rrs, k) {
      if k < |x1.rrsets| {
        assert LedTo(x1, rrs, k);
        assert x2.rrsets[k] == x1.rrsets[k] && x2.owners[k] == x1.owners[k];
      } else {
        assert LedToBy(x2.rrsets[k].rrset, x2.owners[k], rrs[i]);
      }
    }
  }

  /**
    A set's records added the rrsets they lead to: all of them if there was room, and in any case until the
    list was full.
   */
  ghost predicate GrewBy(x: Extras, x': Extras, rrs: seq<RrData>, max: nat) {
    && RrsLegal(rrs) && AddedFor(x, x', rrs, |rrs|, max)
    && (|x.rrsets| + |rrs| <= max || |x'.rrsets| != max ==> AllPresent(rrs, x'.answer, x'.rrsets))
    && x'.glue == (x.glue || AnyGlue(rrs))
  }

  /** The same for the first `count` records of a round. */
  ghost predicate GrowingBy(x: Extras, x': Extras, rrs: seq<RrData>, start: nat, count: nat, max: nat)
    requires count <= |rrs| && (rrs != [] ==> start < |rrs|)
  {
    && RrsLegal(rrs) && AddedFor(x, x', rrs, count, max)
    && (|x.rrsets| + |rrs| <= max || |x'.rrsets| != max ==> PresentSoFar(rrs, start, count, x'.answer, x'.rrsets))
    && x'.glue == (x.glue || GluedSoFar(rrs, start, count))
  }

  lemma GrowStep(x: Extras, x1: Extras, x2: Extras, rrs: seq<RrData>, start: nat, count: nat, i: nat, max: nat)
    requires start < |rrs| && count < |rrs| && GrowingBy(x, x1, rrs, start, count, max)
    requires i == Turn(|rrs|, start, count) && RrDataLegal(rrs[i]) && GrewByOne(x1, x2, rrs[i], max)
    ensures GrowingBy(x, x2, rrs, start, count + 1, max)
  {
    AddedOneMore(x, x1, x2, rrs, i, count, max);
    PresentStep(rrs, start, count, x1.answer, x1.rrsets, x2.rrsets);
    GluedStep(rrs, start, count);
  }

  /** What the first `count` records of a round have done to the packet's records and to the additional section. */
  ghost predicate Encoding(rs0: seq<Item>, x0: Extras, rs: seq<Item>, x: Extras, owner: nat, rrs: seq<RrData>,
                           start: nat, count: nat, max: nat)
    requires count <= |rrs| && (rrs != [] ==> start < |rrs|)
  {
    RoundOf(rs0, rs, owner, rrs, start, count) && GrowingBy(x0, x, rrs, start, count, max)
  }

  lemma EncodeStep(rs0: seq<Item>, x0: Extras, rs: seq<Item>, x: Extras, rs': seq<Item>, x': Extras, owner: nat,
                   rrs: seq<RrData>, start: nat, count: nat, i: nat, max: nat)
    requires start < |rrs| && count < |rrs| && Encoding(rs0, x0, rs, x, owner, rrs, start, count, max)
    requires i == Turn(|rrs|, start, count) && OneMore(rs, rs', RrOf(owner, rrs[i]))
    requires RrDataLegal(rrs[i]) && GrewByOne(x, x', rrs[i], max)
    ensures Encoding(rs0, x0, rs', x', owner, rrs, start, count + 1, max)
  {
    RoundStep(rs0, rs, rs', owner, rrs, start, count);
    GrowStep(x0, x, x', rrs, start, count, i, max);
  }

  lemma GrownFull(x: Extras, x': Extras, rrs: seq<RrData>, start: nat, max: nat)
    requires start < |rrs| && GrowingBy(x, x', rrs, start, |rrs|, max)
    ensures GrewBy(x, x', rrs, max)
  {
    FullRound(rrs, start, x'.answer, x'.rrsets);
  }

  /** The addresses a record leads to, if any, are in the response: as its answer or as an additional rrset. */
  ghost predicate AdPresent(d: RrData, answer: Option<AddrSet>, us: seq<Unwind>) {
    d.ad.Some? ==> answer == Some(d.ad.value) || HasRrset(us, d.ad.value)
  }

  ghost predicate AllPresent(rrs: seq<RrData>, answer: Option<AddrSet>, us: seq<Unwind>) {
    forall i {:trigger AdPresent(rrs[i], answer, us)} :: 0 <= i < |rrs| ==> AdPresent(rrs[i], answer, us)
  }

  ghost predicate PresentSoFar(rrs: seq<RrData>, start: nat, count: nat, answer: Option<AddrSet>, us: seq<Unwind>)
    requires count <= |rrs| && (rrs != [] ==> start < |rrs|)
  {
    forall j :: 0 <= j < count ==> AdPresent(rrs[Turn(|rrs|, start, j)], answer, us)
  }

  ghost predicate GluedSoFar(rrs: seq<RrData>, start: nat, count: nat)
    requires count <= |rrs| && (rrs != [] ==> start < |rrs|)
  {
    exists j :: 0 <= j < count && GluedAt(rrs, Turn(|rrs|, start, j))
  }

  lemma PresentStep(rrs: seq<RrData>, start: nat, count: nat, answer: Option<AddrSet>, us: seq<Unwind>,
                    us': seq<Unwind>)
    requires start < |rrs| && count < |rrs| && us <= us'
    ensures PresentSoFar(rrs, start, count, answer, us) && AdPresent(rrs[Turn(|rrs|, start, count)], answer, us') ==>
              PresentSoFar(rrs, start, count + 1, answer, us')
  {
    forall a | HasRrset(us, a) ensures HasRrset(us', a) {
      var i :| 0 <= i < |us| && us[i].rrset == a;
      assert us'[i].rrset == a;
    }
  }

  lemma GluedStep(rrs: seq<RrData>, start: nat, count: nat)
    requires start < |rrs| && count < |rrs|
    ensures GluedSoFar(rrs, start, count + 1) <==>
              GluedSoFar(rrs, start, count) || GluedAt(rrs, Turn(|rrs|, start, count))
  {
    if GluedAt(rrs, Turn(|rrs|, start, count)) {
      assert GluedSoFar(rrs, start, count + 1);
    }
  }

  lemma FullRound(rrs: seq<RrData>, start: nat, answer: Option<AddrSet>, us: seq<Unwind>)
    requires start < |rrs|
    ensures GluedSoFar(rrs, start, |rrs|) <==> AnyGlue(rrs)
    ensures PresentSoFar(rrs, start, |rrs|, answer, us) ==> AllPresent(rrs, answer, us)
  {
    TurnIsRound(|rrs|, start);
    if i :| GluedAt(rrs, i) {
      assert GluedAt(rrs, Turn(|rrs|, start, TurnOf(|rrs|, start, i)));
    }
    if PresentSoFar(rrs, start, |rrs|, answer, us) {
      forall i | 0 <= i < |rrs| ensures AdPresent(rrs[i], answer, us) {
        assert Turn(|rrs|, start, TurnOf(|rrs|, start, i)) == i;
      }
    }
  }

  ghost predicate HasRrset(us: seq<Unwind>, a: AddrSet) {
    exists i :: 0 <= i < |us| && us[i].rrset == a
  }

  ghost predicate EndsWithName(parts: seq<Part>) {
    parts != [] && !parts[|parts| - 1].Raw?
  }

  ghost function LastName(parts: seq<Part>): Name
    requires EndsWithName(parts) && PartsLegal(parts)
  {
    LabelsAt(parts[|parts| - 1].name, 0)
  }

  /** The message ends with a name stored at `at`, which was the last one logged. */
  ghost predicate NameEnds(p: Bytes, log: seq<Written>, at: nat, name: Name) {
    HEADER <= at && SkipName(p, at) == Some(|p|) && log != [] && log[|log| - 1].at == at && log[|log| - 1].name == name
  }

  lemma SamePast(d: Bytes, r: Bytes, lenAt: nat, dataAt: nat, at: nat, len: Bytes)
    requires lenAt + 2 == dataAt <= at <= |d| && |len| == 2 && r == d[..lenAt] + len + d[dataAt..]
    ensures |r| == |d| && r[at..] == d[at..]
  {
    assert r[dataAt..] == d[dataAt..];
    assert r[at..] == r[dataAt..][at - dataAt..] && d[at..] == d[dataAt..][at - dataAt..];
  }

  /** Patching the length into a draft gives the record itself. */
  lemma PatchedRecord(m: Msg, rr: Rr, draft: Msg, d: Msg, r: Msg)
    requires Legal(m) && RrLegal(rr) && Repeatable(m.bytes, rr.owner)
    requires draft == RecordHead(m, rr, [0, 0]) && Legal(draft) && d == PutParts(draft, rr.parts)
    requires 2 <= |draft.bytes| <= |d.bytes|
    requires r == d.(bytes := d.bytes[..|draft.bytes| - 2] + U16(|d.bytes| - |draft.bytes|) + d.bytes[|draft.bytes|..])
    ensures r == PutRecord(m, rr)
  {
    var len := U16(DataLen(m, rr));
    var head := RecordHead(m, rr, len);
    RecordHeadOk(m, rr, [0, 0]);
    RecordHeadOk(m, rr, len);
    PutPartsProperties(draft, head, rr.parts);
    PatchedBytes(draft, d, head, PutParts(head, rr.parts), m.bytes + RepeatBytes(m.bytes, rr.owner) + rr.fixed, len, r);
  }

  lemma PatchedBytes(draft: Msg, d: Msg, head: Msg, whole: Msg, stem: Bytes, len: Bytes, r: Msg)
    requires SameGrowth(draft, d, head, whole) && draft.log == head.log && |len| == 2
    requires draft.bytes == stem + [0, 0] && head.bytes == stem + len
    requires r == d.(bytes := d.bytes[..|draft.bytes| - 2] + len + d.bytes[|draft.bytes|..])
    ensures r == whole
  {
    StemOf(stem, [0, 0], d.bytes);
    SameTail(draft, d, head, whole, stem, len, r);
  }

  lemma SameTail(draft: Msg, d: Msg, head: Msg, whole: Msg, stem: Bytes, len: Bytes, r: Msg)
    requires SameGrowth(draft, d, head, whole) && draft.log == head.log && head.bytes == stem + len
    requires r == d.(bytes := stem + len + d.bytes[|draft.bytes|..])
    ensures r == whole
  {
    TailSplit(head.bytes, whole.bytes);
    TailSplit(head.log, whole.log);
    TailSplit(draft.log, d.log);
  }

  lemma StemOf(stem: Bytes, two: Bytes, whole: Bytes)
    requires |two| == 2 && stem + two <= whole
    ensures whole[..|stem + two| - 2] == stem
  {
    assert whole[..|stem|] == (stem + two)[..|stem|] == stem;
  }
}
