/**
  Loading: zones are set up, then records are added one by one.  Whatever is added in
  whatever order, the tree and the record sets fit together.
 */
module Loading {
  import opened Names
  import opened Sections
  import opened Records
  import opened Additional
  import opened Encoder
  import opened LookupRule
  import opened LabelTree
  import opened CnameChain
  import opened Validation
  import opened Response
  import opened Answering

  // ---- Record sets while they are put together ------------------------------------------------

  /** A set as loaded: address limits are as configured, and take effect in post-processing. */
  ghost predicate RawLegal(r: Rrset) {
    match r
    case AddrRrset(a) => AddrSetLegal(InEffect(a))
    case CnameRrset(_, _, _) => RrsetLegal(r)
    case PlainRrset(_, _) => RrsetLegal(r)
  }

  ghost predicate AllRaw(rrsets: seq<Rrset>) {
    forall i {:trigger RawLegal(rrsets[i])} :: 0 <= i < |rrsets| ==> RawLegal(rrsets[i])
  }

  /** What the add functions see to at a node. */
  ghost predicate AddedAt(f: Flags, rrsets: seq<Rrset>, i: nat) {
    && AllRaw(rrsets) && (CnameOf(rrsets).Some? ==> f != NO_FLAGS) && (IsDeleg(f) ==> HasType(rrsets, TYPE_NS))
    && (f.zroot ==> CnameOf(rrsets).None?) && AllNsShaped(FirstOf(rrsets, TYPE_NS))
    && (AddrOf(rrsets).Some? ==> AddrOf(rrsets).value.id == i)
  }

  /** And in the whole tree, but for an address that node `but` is still to get. */
  ghost predicate AddedBut(v: LookupRule.View, paths: seq<Name>, data: seq<seq<Rrset>>, but: int) {
    && ViewOk(v) && |data| == |v.flags| == |paths| && FlagsInZones(v, paths) && OozFull(v, data, but)
    && forall i {:trigger AddedAt(v.flags[i], data[i], i)} :: 0 <= i < |data| ==> AddedAt(v.flags[i], data[i], i)
  }

  /** Nodes for glue from outside have addresses. */
  ghost predicate OozFull(v: LookupRule.View, data: seq<seq<Rrset>>, but: int)
    requires ViewOk(v) && |data| == |v.kids|
  {
    forall z, w {:trigger OozNode(v, z, w)} :: 0 <= z < |v.kids| && OozNode(v, z, w).Some? ==>
      OozNode(v, z, w).value == but || AddrOf(data[OozNode(v, z, w).value]).Some?
  }

  ghost predicate Added(v: LookupRule.View, paths: seq<Name>, data: seq<seq<Rrset>>) { AddedBut(v, paths, data, -1) }

  /** A record added to its type's set, which is made if it is not there; its TTL is the set's. */
  function WithRecord(rrsets: seq<Rrset>, rtype: nat, d: RrData): seq<Rrset> {
    if rrsets == [] then [PlainRrset(rtype, [d])]
    else if rrsets[0].PlainRrset? && rrsets[0].rtype == rtype then
      [PlainRrset(rtype, rrsets[0].rrs + [LikeFirst(rrsets[0].rrs, d)])] + rrsets[1..]
    else [rrsets[0]] + WithRecord(rrsets[1..], rtype, d)
  }

  function LikeFirst(rrs: seq<RrData>, d: RrData): RrData {
    if rrs == [] || |rrs[0].fixed| != 8 || |d.fixed| != 8 then d
    else d.(fixed := d.fixed[..4] + rrs[0].fixed[4..])
  }

  /** An address added to the node's address set, likewise; `limit` is its family's limit from now on. */
  function WithAddr(rrsets: seq<Rrset>, i: nat, v6: bool, addr: Bytes, ttl: Bytes, limit: nat): seq<Rrset> {
    if rrsets == [] then
      var a := AddrSet(i, ttl, [], [], 0, 0);
      [AddrRrset(OneMoreAddr(a, v6, addr, limit))]
    else if rrsets[0].AddrRrset? then [AddrRrset(OneMoreAddr(rrsets[0].addrs, v6, addr, limit))] + rrsets[1..]
    else [rrsets[0]] + WithAddr(rrsets[1..], i, v6, addr, ttl, limit)
  }

  function OneMoreAddr(a: AddrSet, v6: bool, addr: Bytes, limit: nat): AddrSet {
    if v6 then a.(v6 := a.v6 + [addr], limitV6 := limit) else a.(v4 := a.v4 + [addr], limitV4 := limit)
  }

  lemma RawRest(rrsets: seq<Rrset>)
    requires AllRaw(rrsets) && rrsets != []
    ensures RawLegal(rrsets[0]) && AllRaw(rrsets[1..])
  {
    forall i | 0 <= i < |rrsets[1..]| ensures RawLegal(rrsets[1..][i]) {
      assert RawLegal(rrsets[i + 1]);
    }
  }

  lemma RawFront(r: Rrset, rest: seq<Rrset>)
    requires RawLegal(r) && AllRaw(rest)
    ensures AllRaw([r] + rest)
  {
    var all := [r] + rest;
    forall i | 0 <= i < |all| ensures RawLegal(all[i]) {
      if i > 0 { assert RawLegal(rest[i - 1]); }
    }
  }

  /** Adding a record leaves everything else at the node as it was. */
  lemma {:induction false} WithRecordKeeps(rrsets: seq<Rrset>, rtype: nat, d: RrData)
    requires AllRaw(rrsets) && RrDataLegal(d)
    ensures AllRaw(WithRecord(rrsets, rtype, d)) && CnameOf(WithRecord(rrsets, rtype, d)) == CnameOf(rrsets)
    ensures AddrOf(WithRecord(rrsets, rtype, d)) == AddrOf(rrsets)
    ensures FirstOf(WithRecord(rrsets, rtype, d), rtype) ==
              FirstOf(rrsets, rtype) + [LikeFirst(FirstOf(rrsets, rtype), d)]
    ensures forall t :: t != rtype ==> FirstOf(WithRecord(rrsets, rtype, d), t) == FirstOf(rrsets, t)
  {
    if rrsets == [] {
      RrsOne([], d);
      RawFront(PlainRrset(rtype, [d]), []);
      assert [PlainRrset(rtype, [d])][1..] == [];
    } else {
      RawRest(rrsets);
      var rest := rrsets[1..];
      if rrsets[0].PlainRrset? && rrsets[0].rtype == rtype {
        var r := PlainRrset(rtype, rrsets[0].rrs + [LikeFirst(rrsets[0].rrs, d)]);
        LikeLegal(rrsets[0].rrs, d);
        RrsOne(rrsets[0].rrs, LikeFirst(rrsets[0].rrs, d));
        RawFront(r, rest);
        assert ([r] + rest)[1..] == rest;
      } else {
        WithRecordKeeps(rest, rtype, d);
        RawFront(rrsets[0], WithRecord(rest, rtype, d));
        assert ([rrsets[0]] + WithRecord(rest, rtype, d))[1..] == WithRecord(rest, rtype, d);
      }
    }
  }

  lemma LikeLegal(rrs: seq<RrData>, d: RrData)
    requires RrsLegal(rrs) && RrDataLegal(d)
    ensures RrDataLegal(LikeFirst(rrs, d))
  {
    if rrs != [] { assert RrDataLegal(rrs[0]); }
  }

  lemma RrsOne(rrs: seq<RrData>, d: RrData)
    requires RrsLegal(rrs) && RrDataLegal(d)
    ensures RrsLegal(rrs + [d])
  {
    assert RrsLegal([d]);
    RrsJoin(rrs, [d]);
  }

  /** Likewise for an address. */
  lemma {:induction false} WithAddrKeeps(rrsets: seq<Rrset>, i: nat, v6: bool, addr: Bytes, ttl: Bytes, limit: nat)
    requires AllRaw(rrsets) && |addr| == (if v6 then 16 else 4) && |ttl| == 4
    ensures AllRaw(WithAddr(rrsets, i, v6, addr, ttl, limit))
    ensures CnameOf(WithAddr(rrsets, i, v6, addr, ttl, limit)) == CnameOf(rrsets)
    ensures forall t :: FirstOf(WithAddr(rrsets, i, v6, addr, ttl, limit), t) == FirstOf(rrsets, t)
    ensures AddrOf(WithAddr(rrsets, i, v6, addr, ttl, limit)) ==
              Some(OneMoreAddr(if AddrOf(rrsets).Some? then AddrOf(rrsets).value else AddrSet(i, ttl, [], [], 0, 0),
                               v6, addr, limit))
  {
    if rrsets == [] {
      var r := AddrRrset(OneMoreAddr(AddrSet(i, ttl, [], [], 0, 0), v6, addr, limit));
      RawFront(r, []);
      assert [r][1..] == [] && [r] + [] == [r];
    } else {
      RawRest(rrsets);
      var rest := rrsets[1..];
      if rrsets[0].AddrRrset? {
        var r := AddrRrset(OneMoreAddr(rrsets[0].addrs, v6, addr, limit));
        RawFront(r, rest);
        assert ([r] + rest)[1..] == rest;
      } else {
        WithAddrKeeps(rest, i, v6, addr, ttl, limit);
        RawFront(rrsets[0], WithAddr(rest, i, v6, addr, ttl, limit));
        assert ([rrsets[0]] + WithAddr(rest, i, v6, addr, ttl, limit))[1..] == WithAddr(rest, i, v6, addr, ttl, limit);
      }
    }
  }

  lemma {:induction false} CnameAppended(rrsets: seq<Rrset>, r: Rrset)
    requires AllRaw(rrsets) && CnameOf(rrsets).None? && r.CnameRrset? && RrsetLegal(r)
    ensures AllRaw(rrsets + [r]) && CnameOf(rrsets + [r]) == Some(r) && AddrOf(rrsets + [r]) == AddrOf(rrsets)
    ensures forall t :: FirstOf(rrsets + [r], t) == FirstOf(rrsets, t)
  {
    var all := rrsets + [r];
    if rrsets == [] {
      RawFront(r, []);
      assert all == [r] + [] && all[1..] == [];
    } else {
      RawRest(rrsets);
      CnameAppended(rrsets[1..], r);
      RawFront(rrsets[0], rrsets[1..] + [r]);
      assert all == [rrsets[0]] + (rrsets[1..] + [r]) && all[1..] == rrsets[1..] + [r];
    }
  }

  /** A new address set, for a plugin's addresses. */
  lemma {:induction false} AddrAppended(rrsets: seq<Rrset>, a: AddrSet)
    requires AllRaw(rrsets) && AddrOf(rrsets).None? && AddrSetLegal(InEffect(a))
    ensures AllRaw(rrsets + [AddrRrset(a)]) && CnameOf(rrsets + [AddrRrset(a)]) == CnameOf(rrsets)
    ensures AddrOf(rrsets + [AddrRrset(a)]) == Some(a)
    ensures forall t :: FirstOf(rrsets + [AddrRrset(a)], t) == FirstOf(rrsets, t)
  {
    var r := AddrRrset(a);
    var all := rrsets + [r];
    if rrsets == [] {
      RawFront(r, []);
      assert all == [r] + [] && all[1..] == [];
    } else {
      RawRest(rrsets);
      AddrAppended(rrsets[1..], a);
      RawFront(rrsets[0], rrsets[1..] + [r]);
      assert all == [rrsets[0]] + (rrsets[1..] + [r]) && all[1..] == rrsets[1..] + [r];
    }
  }

  lemma {:induction false} FirstThere(rrsets: seq<Rrset>, rtype: nat)
    ensures FirstOf(rrsets, rtype) != [] ==> HasType(rrsets, rtype)
  {
    if rrsets != [] && !(rrsets[0].PlainRrset? && rrsets[0].rtype == rtype) {
      FirstThere(rrsets[1..], rtype);
      if i :| 0 <= i < |rrsets[1..]| && rrsets[1..][i].PlainRrset? && rrsets[1..][i].rtype == rtype {
        assert rrsets[i + 1] == rrsets[1..][i];
      }
    }
  }

  // ---- Nodes -------------------------------------------------------------------------------------

  /** The record sets of as many nodes, the new ones with none. */
  function Grown(data: seq<seq<Rrset>>, n: nat): (r: seq<seq<Rrset>>)
    ensures |data| <= n ==> |r| == n && data <= r && forall i :: |data| <= i < n ==> r[i] == []
  {
    if n <= |data| then data else data + seq(n - |data|, _ => [])
  }

  lemma ParentIs(kids: seq<map<Label, nat>>, paths: seq<Name>, i: nat, l: Label, j: nat)
    requires Shape(kids, paths) && i < |paths| && j < |paths| && paths[j] == paths[i] + [l]
    ensures l in kids[i] && kids[i][l] == j
  {
    assert j != 0 && IsChildSomewhere(kids, paths, j);
    var a :| 0 <= a < j && IsChildOf(kids, paths, a, j);
    assert paths[a] == paths[j][..|paths[j]| - 1] == paths[i];
    assert a == i;
  }

  /** Where glue from outside is kept. */
  lemma OozPath(v: LookupRule.View, paths: seq<Name>, z: nat, w: Bytes)
    requires ViewOk(v) && Shape(v.kids, paths) && z < |v.kids| && OozNode(v, z, w).Some?
    ensures var g, n := v.kids[z][OOZ_GLUE], OozNode(v, z, w).value;
            z < g < n < |paths| && paths[g] == paths[z] + [OOZ_GLUE] && paths[n] == paths[z] + [OOZ_GLUE] + [w]
  {
  }

  /** New nodes on the way to a name are not among those. */
  lemma OozBefore(v0: LookupRule.View, paths0: seq<Name>, v: LookupRule.View, paths: seq<Name>, p: Name, z: nat,
                  w: Bytes)
    requires ViewOk(v0) && Shape(v0.kids, paths0) && ViewOk(v) && Shape(v.kids, paths) && paths0 <= paths
    requires (forall j :: |paths0| <= j < |paths| ==> paths[j] <= p) && OOZ_GLUE !in p
    requires z < |v.kids| && OozNode(v, z, w).Some?
    ensures z < |v0.kids| && OozNode(v0, z, w) == OozNode(v, z, w)
  {
    OozPath(v, paths, z, w);
    var g, n := v.kids[z][OOZ_GLUE], OozNode(v, z, w).value;
    assert paths[n][|paths[z]|] == OOZ_GLUE && paths[g][|paths[z]|] == OOZ_GLUE;
    assert n < |paths0| && g < |paths0|;
    ParentIs(v0.kids, paths0, z, OOZ_GLUE, g);
    ParentIs(v0.kids, paths0, g, w, n);
  }

  ghost predicate FlagsGrew(f: Flags, f': Flags) {
    f' == f.(auth := f'.auth) && (f.auth ==> f'.auth)
  }

  /** Nodes on the way to a name are added without records, and flags are set inside zones only. */
  lemma DescentKeeps(nodes0: seq<Node>, kids0: seq<map<Label, nat>>, paths0: seq<Name>, data: seq<seq<Rrset>>,
                     nodes: seq<Node>, kids: seq<map<Label, nat>>, paths: seq<Name>, p: Name)
    requires |nodes0| == |kids0| && Shape(kids0, paths0) && |nodes| == |kids| && Shape(kids, paths)
    requires Descended(nodes0, paths0, nodes, paths, p) && OOZ_GLUE !in p && Added(ViewOf(nodes0, kids0), paths0, data)
    ensures Added(ViewOf(nodes, kids), paths, Grown(data, |nodes|))
  {
    var v0, v, data' := ViewOf(nodes0, kids0), ViewOf(nodes, kids), Grown(data, |nodes|);
    forall i | 0 <= i < |nodes| ensures FlagsGrew(FlagsBefore(nodes0, i), v.flags[i]) {
      assert FlagsAsExpected(nodes0, paths0, nodes, paths, p, i);
    }
    forall i | 0 <= i < |data'| ensures AddedAt(v.flags[i], data'[i], i) {
      assert FlagsGrew(FlagsBefore(nodes0, i), v.flags[i]);
      if i < |data| { assert AddedAt(v0.flags[i], data[i], i); }
    }
    DescentInZones(nodes0, paths0, nodes, paths, p, v0, v);
    forall z, w | 0 <= z < |v.kids| && OozNode(v, z, w).Some? ensures AddrOf(data'[OozNode(v, z, w).value]).Some? {
      OozBefore(v0, paths0, v, paths, p, z, w);
      assert AddrOf(data[OozNode(v0, z, w).value]).Some?;
    }
  }

  lemma DescentInZones(nodes0: seq<Node>, paths0: seq<Name>, nodes: seq<Node>, paths: seq<Name>, p: Name,
                       v0: LookupRule.View, v: LookupRule.View)
    requires |nodes0| == |paths0| && |nodes| == |paths| && Descended(nodes0, paths0, nodes, paths, p)
    requires |v0.flags| == |nodes0| && (forall i :: 0 <= i < |nodes0| ==> v0.flags[i] == nodes0[i].flags)
    requires |v.flags| == |nodes| && (forall i :: 0 <= i < |nodes| ==> v.flags[i] == nodes[i].flags)
    requires FlagsInZones(v0, paths0)
    ensures FlagsInZones(v, paths)
  {
    forall j | 0 <= j < |paths| && v.flags[j] != NO_FLAGS ensures InSomeZone(v, paths, j) {
      assert FlagsAsExpected(nodes0, paths0, nodes, paths, p, j);
      if FlagsBefore(nodes0, j) != NO_FLAGS {
        assert InSomeZone(v0, paths0, j);
        var z :| 0 <= z < |paths0| && v0.flags[z].zroot && paths0[z] <= paths0[j];
        assert FlagsAsExpected(nodes0, paths0, nodes, paths, p, z);
      } else {
        var z :| 0 <= z < |nodes0| && paths0[z] < paths[j] && nodes0[z].flags.zroot;
        assert FlagsAsExpected(nodes0, paths0, nodes, paths, p, z);
      }
    }
  }

  /** One node's record sets, and its flags inside a zone, have been replaced by as good ones. */
  lemma NodeSet(v: LookupRule.View, paths: seq<Name>, data: seq<seq<Rrset>>, but: int, r: nat, f: Flags,
                sets: seq<Rrset>)
    requires AddedBut(v, paths, data, but) && r < |data| && AddedAt(f, sets, r)
    requires v.flags[r].zroot ==> f.zroot
    requires f != NO_FLAGS ==> f.zroot || InSomeZone(v, paths, r)
    requires AddrOf(sets).Some? || (AddrOf(data[r]).None? && but != r)
    ensures AddedBut(v.(flags := v.flags[r := f]), paths, data[r := sets], if but == r then -1 else but)
  {
    var v', data' := v.(flags := v.flags[r := f]), data[r := sets];
    forall i | 0 <= i < |data'| ensures AddedAt(v'.flags[i], data'[i], i) {
      if i != r { assert AddedAt(v.flags[i], data[i], i); }
    }
    FlagsSet(v, paths, r, f);
    OozSet(v, v', data, but, r, sets);
  }

  lemma FlagsSet(v: LookupRule.View, paths: seq<Name>, r: nat, f: Flags)
    requires |v.flags| == |paths| && r < |paths| && FlagsInZones(v, paths) && (v.flags[r].zroot ==> f.zroot)
    requires f != NO_FLAGS ==> f.zroot || InSomeZone(v, paths, r)
    ensures FlagsInZones(v.(flags := v.flags[r := f]), paths)
  {
    var v' := v.(flags := v.flags[r := f]);
    forall j | 0 <= j < |paths| && v'.flags[j] != NO_FLAGS ensures InSomeZone(v', paths, j) {
      if j == r && f.zroot {
        assert paths[r] <= paths[j];
      } else {
        assert InSomeZone(v, paths, j);
        var z :| 0 <= z < |paths| && v.flags[z].zroot && paths[z] <= paths[j];
        assert v'.flags[z].zroot;
      }
    }
  }

  lemma OozSet(v: LookupRule.View, v': LookupRule.View, data: seq<seq<Rrset>>, but: int, r: nat, sets: seq<Rrset>)
    requires ViewOk(v) && ViewOk(v') && v'.kids == v.kids && |data| == |v.kids| && OozFull(v, data, but) && r < |data|
    requires AddrOf(sets).Some? || (AddrOf(data[r]).None? && but != r)
    ensures OozFull(v', data[r := sets], if but == r then -1 else but)
  {
    var data' := data[r := sets];
    forall z, w | 0 <= z < |v'.kids| && OozNode(v', z, w).Some?
      ensures OozNode(v', z, w).value == (if but == r then -1 else but) ||
                AddrOf(data'[OozNode(v', z, w).value]).Some? {
      assert OozNode(v', z, w) == OozNode(v, z, w);
    }
  }

  /** Under a zone's root a child may be added for glue from outside, and under that a node for a name. */
  lemma ChildKeeps(nodes0: seq<Node>, kids0: seq<map<Label, nat>>, paths0: seq<Name>, data: seq<seq<Rrset>>,
                   nodes: seq<Node>, kids: seq<map<Label, nat>>, paths: seq<Name>, i: nat, key: Label, r: nat)
    requires |nodes0| == |kids0| && Shape(kids0, paths0) && |nodes| == |kids| && Shape(kids, paths) && i < |nodes0|
    requires ChildFound(nodes0, kids0, paths0, nodes, kids, paths, i, key, r)
    requires Added(ViewOf(nodes0, kids0), paths0, data)
    ensures AddedBut(ViewOf(nodes, kids), paths, Grown(data, |nodes|), r)
  {
    var v0, v := ViewOf(nodes0, kids0), ViewOf(nodes, kids);
    NoFlagsAtChild(nodes0, nodes, v0, v);
    ChildAdded(v0, v, data);
    ZonesKeep(v0, paths0, v, paths);
    ChildOozFull(kids0, kids, i, key, r, v0, v, data);
  }

  lemma NoFlagsAtChild(nodes0: seq<Node>, nodes: seq<Node>, v0: LookupRule.View, v: LookupRule.View)
    requires |nodes0| <= |nodes| && |v0.flags| == |nodes0| && |v.flags| == |nodes|
    requires (forall j :: 0 <= j < |nodes0| ==> v0.flags[j] == nodes0[j].flags == nodes[j].flags)
    requires forall j :: 0 <= j < |nodes| ==> v.flags[j] == nodes[j].flags
    requires forall j :: |nodes0| <= j < |nodes| ==> nodes[j].flags == NO_FLAGS
    ensures GainedPlain(v0, v)
  {
  }

  /** Nodes have been added without flags. */
  ghost predicate GainedPlain(v0: LookupRule.View, v: LookupRule.View) {
    && |v0.flags| <= |v.flags|
    && forall j :: 0 <= j < |v.flags| ==> v.flags[j] == if j < |v0.flags| then v0.flags[j] else NO_FLAGS
  }

  lemma ChildAdded(v0: LookupRule.View, v: LookupRule.View, data: seq<seq<Rrset>>)
    requires GainedPlain(v0, v) && |data| == |v0.flags|
    requires forall j {:trigger AddedAt(v0.flags[j], data[j], j)} :: 0 <= j < |data| ==>
              AddedAt(v0.flags[j], data[j], j)
    ensures var data' := Grown(data, |v.flags|);
            forall j {:trigger AddedAt(v.flags[j], data'[j], j)} :: 0 <= j < |data'| ==>
              AddedAt(v.flags[j], data'[j], j)
  {
    var data' := Grown(data, |v.flags|);
    forall j | 0 <= j < |data'| ensures AddedAt(v.flags[j], data'[j], j) {
      if j < |data| { assert AddedAt(v0.flags[j], data[j], j); }
    }
  }

  lemma ChildOozFull(kids0: seq<map<Label, nat>>, kids: seq<map<Label, nat>>, i: nat, key: Label, r: nat,
                     v0: LookupRule.View, v: LookupRule.View, data: seq<seq<Rrset>>)
    requires ViewOk(v0) && v0.kids == kids0 && ViewOk(v) && v.kids == kids && i < |kids0| == |data|
    requires kids == kids0 || (r == |kids0| && kids == kids0[i := WithKid(kids0[i], key, r)] + [map[]])
    requires OozFull(v0, data, -1)
    ensures OozFull(v, Grown(data, |kids|), r)
  {
    forall z, w | 0 <= z < |v.kids| && OozNode(v, z, w).Some?
      ensures OozNode(v, z, w).value == r || AddrOf(Grown(data, |kids|)[OozNode(v, z, w).value]).Some? {
      ChildOoz(kids0, kids, i, key, r, v0, v, z, w);
    }
  }

  lemma ZonesKeep(v0: LookupRule.View, paths0: seq<Name>, v: LookupRule.View, paths: seq<Name>)
    requires |v0.flags| == |paths0| && |v.flags| == |paths| && paths0 <= paths && FlagsInZones(v0, paths0)
    requires GainedPlain(v0, v)
    ensures FlagsInZones(v, paths)
  {
    forall j | 0 <= j < |paths| && v.flags[j] != NO_FLAGS ensures InSomeZone(v, paths, j) {
      assert v0.flags[j] != NO_FLAGS && InSomeZone(v0, paths0, j);
      var z :| 0 <= z < |paths0| && v0.flags[z].zroot && paths0[z] <= paths0[j];
      assert v.flags[z].zroot && paths[z] <= paths[j];
    }
  }

  lemma ChildOoz(kids0: seq<map<Label, nat>>, kids: seq<map<Label, nat>>, i: nat, key: Label, r: nat,
                 v0: LookupRule.View, v: LookupRule.View, z: nat, w: Bytes)
    requires ViewOk(v0) && v0.kids == kids0 && ViewOk(v) && v.kids == kids && i < |kids0|
    requires kids == kids0 || (r == |kids0| && kids == kids0[i := WithKid(kids0[i], key, r)] + [map[]])
    requires z < |kids| && OozNode(v, z, w).Some?
    ensures OozNode(v, z, w).value == r || (z < |kids0| && OozNode(v0, z, w) == OozNode(v, z, w))
  {
  }

  /** The node between is not itself one for a name. */
  lemma NotBetween(v: LookupRule.View, paths: seq<Name>, data: seq<seq<Rrset>>, z: nat, g: nat)
    requires AddedBut(v, paths, data, g) && Shape(v.kids, paths) && z < |paths| && OOZ_GLUE !in paths[z]
    requires g < |paths| && paths[g] == paths[z] + [OOZ_GLUE]
    ensures Added(v, paths, data)
  {
    forall x, w | 0 <= x < |v.kids| && OozNode(v, x, w).Some? ensures OozNode(v, x, w).value != g {
      OozPath(v, paths, x, w);
      var n := OozNode(v, x, w).value;
      assert paths[n][|paths[x]|] == OOZ_GLUE && |paths[n]| == |paths[x]| + 2;
    }
  }

  // ---- Adding records --------------------------------------------------------------------------------

  const MAX_ADDRS := 255
  const MAX_RRS := 65535
  const MAX_NCACHE := 10800
  const TYPE_IXFR := 251
  const TYPE_AXFR := 252

  /**
    The zone data while it is loaded; `dyna` are the nodes whose addresses a plugin gives, and `strict` says
    that what is merely suspect is fatal too.
   */
  class ZoneData {
    const strict: bool
    const tree: LTree
    var data: seq<seq<Rrset>>
    var dyna: set<nat>

    ghost predicate Valid()
      reads this, tree
    {
      tree.Valid() && tree.loading && |data| == |tree.nodes| && Added(tree.View(), tree.paths, data)
    }

    /** Zones are set up before any record is added. */
    ghost predicate NoRecords()
      reads this`data
    {
      forall i :: 0 <= i < |data| ==> data[i] == []
    }

    /** The name is at or below a zone's root. */
    ghost predicate InZone(dname: Bytes)
      requires IsDname(dname)
      reads tree
    {
      |tree.nodes| == |tree.paths| &&
      ZoneAtOrAbove(tree.nodes, tree.paths, PathOf(LabelsAt(dname[1..], 0), |LabelsAt(dname[1..], 0)|))
    }

    constructor (strict: bool)
      ensures Valid() && NoRecords() && fresh(tree) && |data| == 1 && dyna == {} && this.strict == strict
    {
      this.strict := strict;
      tree := new LTree();
      data, dyna := [[]], {};
      new;
      RootAlone(tree.View(), tree.paths, data);
    }

    /** `ltree_find_or_add_dname`, with no records at the nodes that are new. */
    method NodeFor(dname: Bytes) returns (r: nat)
      requires Valid() && IsDname(dname)
      modifies this`data, tree
      ensures Valid() && r < |data| && data == Grown(old(data), |tree.nodes|) && |old(data)| <= |data|
      ensures tree.paths[r] == PathOf(LabelsAt(dname[1..], 0), |LabelsAt(dname[1..], 0)|)
      ensures Descended(old(tree.nodes), old(tree.paths), tree.nodes, tree.paths, tree.paths[r])
      ensures OOZ_GLUE !in tree.paths[r]
    {
      ghost var nodes0, kids0, paths0, data0 := tree.nodes, tree.kids, tree.paths, data;
      NoEmptyLabel(dname[1..]);
      PathHasLabels(LabelsAt(dname[1..], 0), |LabelsAt(dname[1..], 0)|);
      r := tree.FindOrAddDname(dname, false);
      data := Grown(data, |tree.nodes|);
      DescentKeeps(nodes0, kids0, paths0, data0, tree.nodes, tree.kids, tree.paths, tree.paths[r]);
    }

    /** The node's new record sets and flags. */
    method SetNode(r: nat, f: Flags, sets: seq<Rrset>, ghost but: int)
      requires tree.Valid() && tree.loading && |data| == |tree.nodes| && AddedBut(tree.View(), tree.paths, data, but)
      requires r < |data| && AddedAt(f, sets, r)
      requires tree.nodes[r].flags.zroot ==> f.zroot
      requires f != NO_FLAGS ==> f.zroot || InSomeZone(tree.View(), tree.paths, r)
      requires AddrOf(sets).Some? || (AddrOf(data[r]).None? && but != r)
      requires but == -1 || but == r
      modifies this`data, tree`nodes
      ensures Valid() && data == old(data)[r := sets]
      ensures tree.nodes == old(tree.nodes)[r := old(tree.nodes)[r].(flags := f)]
    {
      NodeSet(tree.View(), tree.paths, data, but, r, f, sets);
      ghost var v := tree.View();
      tree.SetFlags(r, f);
      assert tree.View() == v.(flags := v.flags[r := f]);
      data := data[r := sets];
    }

    /** The node at `r` has these record sets now, and no other node's are other than before. */
    ghost predicate NowAt(was: seq<seq<Rrset>>, r: nat, sets: seq<Rrset>)
      reads this`data, tree`nodes
    {
      |was| <= |tree.nodes| && r < |tree.nodes| && data == Grown(was, |tree.nodes|)[r := sets]
    }

    /** What was at the node before. */
    ghost function Before(was: seq<seq<Rrset>>, r: nat): seq<Rrset> {
      if r < |was| then was[r] else []
    }

    /** `ltree_load_zones` sets its zones up one by one. */
    method AddZone(dname: Bytes) returns (r: nat)
      requires Valid() && NoRecords() && IsDname(dname)
      modifies this`data, tree
      ensures Valid() && NoRecords() && r < |data|
      ensures tree.paths[r] == PathOf(LabelsAt(dname[1..], 0), |LabelsAt(dname[1..], 0)|)
      ensures tree.nodes[r].flags == Flags(true, true, false, false)
    {
      ghost var nodes0, kids0, paths0, data0 := tree.nodes, tree.kids, tree.paths, data;
      NoEmptyLabel(dname[1..]);
      PathHasLabels(LabelsAt(dname[1..], 0), |LabelsAt(dname[1..], 0)|);
      r := tree.FindOrAddDname(dname, true);
      data := Grown(data, |tree.nodes|);
      ghost var f :| Descended(nodes0, paths0, tree.nodes[r := tree.nodes[r].(flags := f)], tree.paths, tree.paths[r]);
      ghost var nodes1 := tree.nodes[r := tree.nodes[r].(flags := f)];
      DescentKeeps(nodes0, kids0, paths0, data0, nodes1, tree.kids, tree.paths, tree.paths[r]);
      ghost var v1 := ViewOf(nodes1, tree.kids);
      NodeSet(v1, tree.paths, data, -1, r, Flags(true, true, false, false), []);
      assert tree.View() == v1.(flags := v1.flags[r := Flags(true, true, false, false)]);
      assert data[r := []] == data;
    }

    /** The node for a name in a zone is the zone's root or authoritative. */
    method NodeInZone(dname: Bytes) returns (r: nat)
      requires Valid() && IsDname(dname) && InZone(dname)
      modifies this`data, tree
      ensures Valid() && r < |data| && data == Grown(old(data), |tree.nodes|) && |old(data)| <= |data|
      ensures tree.paths[r] == PathOf(LabelsAt(dname[1..], 0), |LabelsAt(dname[1..], 0)|)
      ensures (tree.nodes[r].flags.zroot || tree.nodes[r].flags.auth) && InSomeZone(tree.View(), tree.paths, r)
    {
      r := NodeFor(dname);
      ZoneOver(old(tree.nodes), old(tree.paths), tree.nodes, tree.paths, tree.View(), r);
      AuthInZone(old(tree.nodes), old(tree.paths), tree.nodes, tree.paths, r);
    }

    /** `ltree_add_rec_cname` and `ltree_add_rec_dyncname`; false is for a fatal error. */
    method AddCname(dname: Bytes, target: Bytes, ttl: Bytes, isStatic: bool) returns (ok: bool, r: nat)
      requires Valid() && IsDname(dname) && InZone(dname) && IsDname(target) && |ttl| == 4
      modifies this`data, tree
      ensures Valid() && r < |data| && tree.paths[r] == PathOf(LabelsAt(dname[1..], 0), |LabelsAt(dname[1..], 0)|)
      ensures ok <==> !tree.nodes[r].flags.zroot && CnameOf(Before(old(data), r)).None?
      ensures NowAt(old(data), r, Before(old(data), r) + if ok then [CnameRrset(target, ttl, isStatic)] else [])
    {
      r := NodeInZone(dname);
      ok := !tree.nodes[r].flags.zroot && CnameOf(data[r]).None?;
      if ok {
        CnameAt(tree.View().flags[r], data[r], r, CnameRrset(target, ttl, isStatic));
        Put(r, tree.nodes[r].flags, data[r] + [CnameRrset(target, ttl, isStatic)], old(data), -1);
      } else {
        Unchanged(old(data), r);
      }
    }

    /** `SetNode`, for a node that a name led to. */
    method Put(r: nat, f: Flags, sets: seq<Rrset>, ghost was: seq<seq<Rrset>>, ghost but: int)
      requires tree.Valid() && tree.loading && |data| == |tree.nodes| && AddedBut(tree.View(), tree.paths, data, but)
      requires r < |data| && AddedAt(f, sets, r) && |was| <= |data| && data == Grown(was, |tree.nodes|)
      requires tree.nodes[r].flags.zroot ==> f.zroot
      requires f != NO_FLAGS ==> f.zroot || f == tree.nodes[r].flags || InSomeZone(tree.View(), tree.paths, r)
      requires AddrOf(sets).Some? || (AddrOf(data[r]).None? && but != r)
      requires but == -1 || but == r
      modifies this`data, tree`nodes
      ensures Valid() && NowAt(was, r, sets)
      ensures tree.nodes == old(tree.nodes)[r := old(tree.nodes)[r].(flags := f)]
    {
      SetNode(r, f, sets, but);
    }

    lemma Unchanged(was: seq<seq<Rrset>>, r: nat)
      requires |was| <= |tree.nodes| && r < |tree.nodes| && data == Grown(was, |tree.nodes|)
      ensures NowAt(was, r, Before(was, r)) && NowAt(was, r, Before(was, r) + [])
    {
      assert Before(was, r) + [] == Before(was, r) == data[r] && data[r := data[r]] == data;
    }

    /** `ltree_add_rec_ns`: off a zone's root it makes a delegation, which a wildcard may not be. */
    method AddNs(dname: Bytes, target: Bytes, ttl: Bytes) returns (ok: bool, r: nat)
      requires Valid() && IsDname(dname) && InZone(dname) && IsDname(target) && |ttl| == 4
      modifies this`data, tree
      ensures Valid() && r < |data| && tree.paths[r] == PathOf(LabelsAt(dname[1..], 0), |LabelsAt(dname[1..], 0)|)
      ensures ok <==>
                !IsWildcard(dname[1..]) &&
                  MoreRecords(FirstOf(Before(old(data), r), TYPE_NS), NsData(target, ttl), strict)
      ensures NowAt(old(data), r, if ok then WithRecord(Before(old(data), r), TYPE_NS, NsData(target, ttl))
                                  else Before(old(data), r))
      ensures ok ==> tree.nodes[r].flags.zroot || tree.nodes[r].flags.deleg
    {
      r := NodeInZone(dname);
      ok := !IsWildcard(dname[1..]) && MoreRecords(FirstOf(data[r], TYPE_NS), NsData(target, ttl), strict);
      if ok {
        var flags := tree.nodes[r].flags;
        NsAt(tree.View().flags[r], data[r], r, target, ttl);
        Put(r, Delegating(flags), WithRecord(data[r], TYPE_NS, NsData(target, ttl)), old(data), -1);
      } else {
        Unchanged(old(data), r);
      }
    }

    /**
      `ltree_add_rec_soa`, which may be called once for a name; `times` are all but the last of its times, which
      `strict` limits.
     */
    method AddSoa(dname: Bytes, master: Bytes, email: Bytes, ttl: Bytes, times: Bytes, ncache: nat)
      returns (ok: bool, r: nat)
      requires Valid() && IsDname(dname) && IsDname(master) && IsDname(email)
      requires |ttl| == 4 && |times| == 16 && ncache < 0x1_0000_0000
      modifies this`data, tree
      ensures Valid() && r < |data| && tree.paths[r] == PathOf(LabelsAt(dname[1..], 0), |LabelsAt(dname[1..], 0)|)
      ensures ok <==> !HasType(Before(old(data), r), TYPE_SOA) && (strict ==> ncache <= MAX_NCACHE)
      ensures NowAt(old(data), r, if ok then WithRecord(Before(old(data), r), TYPE_SOA,
                                                        SoaData(master, email, ttl, times, ncache))
                                  else Before(old(data), r))
      ensures ok ==> MasterOf(FirstOf(data[r], TYPE_SOA)) == Some(master)
    {
      r := NodeFor(dname);
      ok := !HasType(data[r], TYPE_SOA) && (strict ==> ncache <= MAX_NCACHE);
      if ok {
        var d := SoaData(master, email, ttl, times, ncache);
        SoaLegal(master, email, ttl, times, ncache);
        RecordAt(tree.View().flags[r], data[r], r, TYPE_SOA, d);
        SoaAt(data[r], master, email, ttl, times, ncache);
        Put(r, tree.nodes[r].flags, WithRecord(data[r], TYPE_SOA, d), old(data), -1);
      } else {
        Unchanged(old(data), r);
      }
    }

    /**
      The functions for all other types, `ltree_add_rec_rfc3597` for those without one of their own; that
      refuses the types it must leave to others.
     */
    method AddRecord(dname: Bytes, rtype: nat, d: RrData) returns (ok: bool, r: nat)
      requires Valid() && IsDname(dname) && RrDataLegal(d)
      modifies this`data, tree
      ensures Valid() && r < |data| && tree.paths[r] == PathOf(LabelsAt(dname[1..], 0), |LabelsAt(dname[1..], 0)|)
      ensures ok <==> !Reserved(rtype) && MoreRecords(FirstOf(Before(old(data), r), rtype), d, strict)
      ensures NowAt(old(data), r, if ok then WithRecord(Before(old(data), r), rtype, d) else Before(old(data), r))
    {
      r := NodeFor(dname);
      ok := !Reserved(rtype) && MoreRecords(FirstOf(data[r], rtype), d, strict);
      if ok {
        RecordAt(tree.View().flags[r], data[r], r, rtype, d);
        Put(r, tree.nodes[r].flags, WithRecord(data[r], rtype, d), old(data), -1);
      } else {
        Unchanged(old(data), r);
      }
    }

    /** `ltree_add_rec_dynaddr`. */
    method AddDynAddr(dname: Bytes, ttl: Bytes, limitV4: nat, limitV6: nat) returns (ok: bool, r: nat)
      requires Valid() && IsDname(dname) && |ttl| == 4
      modifies this`data, this`dyna, tree
      ensures Valid() && r < |data| && tree.paths[r] == PathOf(LabelsAt(dname[1..], 0), |LabelsAt(dname[1..], 0)|)
      ensures ok <==> AddrOf(Before(old(data), r)).None?
      ensures NowAt(old(data), r,
                    Before(old(data), r) + if ok then [AddrRrset(AddrSet(r, ttl, [], [], limitV4, limitV6))] else [])
      ensures dyna == old(dyna) + if ok then {r} else {}
    {
      r := NodeFor(dname);
      ok := AddrOf(data[r]).None?;
      if ok {
        DynAt(tree.View().flags[r], data[r], r, AddrSet(r, ttl, [], [], limitV4, limitV6));
        Put(r, tree.nodes[r].flags, data[r] + [AddrRrset(AddrSet(r, ttl, [], [], limitV4, limitV6))], old(data), -1);
        dyna := dyna + {r};
      } else {
        Unchanged(old(data), r);
      }
    }

    /** `ltree_add_rec_a` and `ltree_add_rec_aaaa` for a name in its zone. */
    method AddAddr(dname: Bytes, v6: bool, addr: Bytes, ttl: Bytes, limit: nat) returns (ok: bool, r: nat)
      requires Valid() && IsDname(dname) && |addr| == (if v6 then 16 else 4) && |ttl| == 4
      modifies this`data, tree
      ensures Valid() && r < |data| && tree.paths[r] == PathOf(LabelsAt(dname[1..], 0), |LabelsAt(dname[1..], 0)|)
      ensures ok <==> MoreAddrs(Before(old(data), r), r in dyna, v6, ttl, limit, strict)
      ensures NowAt(old(data), r, if ok then WithAddr(Before(old(data), r), r, v6, addr, ttl, limit)
                                  else Before(old(data), r))
    {
      r := NodeFor(dname);
      ok := MoreAddrs(data[r], r in dyna, v6, ttl, limit, strict);
      if ok {
        AddrAtNode(tree.View().flags[r], data[r], r, v6, addr, ttl, limit);
        Put(r, tree.nodes[r].flags, WithAddr(data[r], r, v6, addr, ttl, limit), old(data), -1);
      } else {
        Unchanged(old(data), r);
      }
    }

    /** The same for glue from outside the zone `zone`, kept two steps below the zone's root. */
    method AddOozAddr(dname: Bytes, zone: Bytes, v6: bool, addr: Bytes, ttl: Bytes, limit: nat)
      returns (ok: bool, r: nat)
      requires Valid() && IsDname(dname) && IsDname(zone) && |addr| == (if v6 then 16 else 4) && |ttl| == 4
      modifies this`data, tree
      ensures Valid() && r < |data|
      ensures tree.paths[r] == PathOf(LabelsAt(zone[1..], 0), |LabelsAt(zone[1..], 0)|) + [OOZ_GLUE] + [dname[1..]]
      ensures ok <==> MoreAddrs(Before(old(data), r), r in dyna, v6, ttl, limit, strict)
      ensures NowAt(old(data), r, if ok then WithAddr(Before(old(data), r), r, v6, addr, ttl, limit)
                                  else Before(old(data), r))
    {
      r := OozFor(zone, dname[1..]);
      ok := MoreAddrs(data[r], r in dyna, v6, ttl, limit, strict);
      if ok {
        AddrAtNode(tree.View().flags[r], data[r], r, v6, addr, ttl, limit);
        Put(r, tree.nodes[r].flags, WithAddr(data[r], r, v6, addr, ttl, limit), old(data), r);
      } else {
        HasItsOwn(tree.View(), tree.paths, data, r);
        Unchanged(old(data), r);
      }
    }

    method OozFor(zone: Bytes, w: Bytes) returns (r: nat)
      requires Valid() && IsDname(zone)
      modifies this`data, tree
      ensures tree.Valid() && tree.loading && |data| == |tree.nodes| && AddedBut(tree.View(), tree.paths, data, r)
      ensures data == Grown(old(data), |tree.nodes|) && |old(data)| <= |data| && r < |data|
      ensures tree.paths[r] == PathOf(LabelsAt(zone[1..], 0), |LabelsAt(zone[1..], 0)|) + [OOZ_GLUE] + [w]
    {
      var z := NodeFor(zone);
      var g := ChildFor(z, OOZ_GLUE);
      NotBetween(tree.View(), tree.paths, data, z, g);
      r := ChildFor(g, w);
    }

    /** `ltree_node_find_or_add_child`, with no records at a new node. */
    method ChildFor(i: nat, key: Label) returns (r: nat)
      requires Valid() && i < |data|
      modifies this`data, tree
      ensures tree.Valid() && tree.loading && |data| == |tree.nodes| && AddedBut(tree.View(), tree.paths, data, r)
      ensures data == Grown(old(data), |tree.nodes|) && |old(data)| <= |data| && r < |data|
      ensures old(tree.paths) <= tree.paths && tree.paths[r] == tree.paths[i] + [key]
    {
      ghost var nodes0, kids0, paths0, data0 := tree.nodes, tree.kids, tree.paths, data;
      r := tree.FindOrAddChild(i, key);
      data := Grown(data, |tree.nodes|);
      ChildKeeps(nodes0, kids0, paths0, data0, tree.nodes, tree.kids, tree.paths, i, key, r);
    }
  }

  /** The name's first label is the wildcard. */
  predicate IsWildcard(w: Bytes) { |w| > 1 && w[0] == 1 && w[1] == 0x2A }

  /** Off a zone's root name servers make a delegation. */
  function Delegating(f: Flags): Flags { if f.zroot then f else f.(deleg := true) }

  function NsData(target: Bytes, ttl: Bytes): RrData
    requires target != []
  {
    RrData([0, 2, 0, 1] + ttl, [Compressed(target[1..])], None, false)
  }

  function SoaData(master: Bytes, email: Bytes, ttl: Bytes, times: Bytes, ncache: nat): RrData
    requires master != [] && email != [] && ncache < 0x1_0000_0000
  {
    RrData([0, 6, 0, 1] + ttl,
           [Compressed(master[1..]), Compressed(email[1..]),
             Raw(times + U16(ncache / 0x10000) + U16(ncache % 0x10000))],
           None, false)
  }

  lemma SoaLegal(master: Bytes, email: Bytes, ttl: Bytes, times: Bytes, ncache: nat)
    requires IsDname(master) && IsDname(email) && |ttl| == 4 && |times| == 16 && ncache < 0x1_0000_0000
    ensures RrDataLegal(SoaData(master, email, ttl, times, ncache))
  {
    var d := SoaData(master, email, ttl, times, ncache);
    assert PartsSize(d.parts[1..][1..][1..]) == 0 && PartsSize(d.parts[1..][1..]) == 20;
  }

  /** The master that validation looks for is the one given. */
  lemma SoaAt(rrsets: seq<Rrset>, master: Bytes, email: Bytes, ttl: Bytes, times: Bytes, ncache: nat)
    requires AllRaw(rrsets) && IsDname(master) && IsDname(email) && |ttl| == 4 && |times| == 16
    requires ncache < 0x1_0000_0000 && !HasType(rrsets, TYPE_SOA)
    ensures MasterOf(FirstOf(WithRecord(rrsets, TYPE_SOA, SoaData(master, email, ttl, times, ncache)), TYPE_SOA)) ==
              Some(master)
  {
    var d := SoaData(master, email, ttl, times, ncache);
    SoaLegal(master, email, ttl, times, ncache);
    WithRecordKeeps(rrsets, TYPE_SOA, d);
    FirstThere(rrsets, TYPE_SOA);
    assert master == [|master[1..]|] + master[1..];
  }

  /** Types that have a function of their own that is not about records, or none. */
  predicate Reserved(rtype: nat) {
    rtype == TYPE_A || rtype == TYPE_AAAA || rtype == TYPE_SOA || rtype == TYPE_CNAME || rtype == TYPE_NS ||
    rtype == TYPE_AXFR || rtype == TYPE_IXFR || rtype == TYPE_ANY
  }

  /** Another record may be added: the set is not full, and with `strict` the TTL is the set's. */
  predicate MoreRecords(rrs: seq<RrData>, d: RrData, strict: bool) {
    |rrs| < MAX_RRS && (strict ==> LikeFirst(rrs, d) == d)
  }

  /** Another address may be added: the set is not a plugin's and not full; with `strict` TTL and limit agree. */
  predicate MoreAddrs(rrsets: seq<Rrset>, dyna: bool, v6: bool, ttl: Bytes, limit: nat, strict: bool) {
    var a := AddrOf(rrsets);
    a.None? || (!dyna && |FamilyOf(a.value, v6)| < MAX_ADDRS && (strict ==> AddrAgrees(a.value, v6, ttl, limit)))
  }

  function FamilyOf(a: AddrSet, v6: bool): seq<Bytes> { if v6 then a.v6 else a.v4 }

  predicate AddrAgrees(a: AddrSet, v6: bool, ttl: Bytes, limit: nat) {
    a.ttl == ttl && (FamilyOf(a, v6) != [] ==> limit == if v6 then a.limitV6 else a.limitV4)
  }

  lemma CnameAt(f: Flags, rrsets: seq<Rrset>, r: nat, c: Rrset)
    requires AddedAt(f, rrsets, r) && f != NO_FLAGS && !f.zroot && CnameOf(rrsets).None? && c.CnameRrset?
    requires RrsetLegal(c)
    ensures AddedAt(f, rrsets + [c], r) && AddrOf(rrsets + [c]) == AddrOf(rrsets)
  {
    CnameAppended(rrsets, c);
    if HasType(rrsets, TYPE_NS) { SameTypes(rrsets, rrsets + [c], TYPE_NS); }
  }

  lemma DynAt(f: Flags, rrsets: seq<Rrset>, r: nat, a: AddrSet)
    requires AddedAt(f, rrsets, r) && AddrOf(rrsets).None? && a.id == r && |a.ttl| == 4 && a.v4 == [] && a.v6 == []
    ensures AddedAt(f, rrsets + [AddrRrset(a)], r) && AddrOf(rrsets + [AddrRrset(a)]).Some?
  {
    AddrAppended(rrsets, a);
    if HasType(rrsets, TYPE_NS) { SameTypes(rrsets, rrsets + [AddrRrset(a)], TYPE_NS); }
  }

  lemma RecordAt(f: Flags, rrsets: seq<Rrset>, r: nat, rtype: nat, d: RrData)
    requires AddedAt(f, rrsets, r) && rtype != TYPE_NS && RrDataLegal(d)
    ensures AddedAt(f, WithRecord(rrsets, rtype, d), r) && AddrOf(WithRecord(rrsets, rtype, d)) == AddrOf(rrsets)
  {
    WithRecordKeeps(rrsets, rtype, d);
    TypesStay(rrsets, rtype, d, TYPE_NS);
  }

  lemma {:induction false} TypesStay(rrsets: seq<Rrset>, rtype: nat, d: RrData, t: nat)
    ensures HasType(rrsets, t) ==> HasType(WithRecord(rrsets, rtype, d), t)
  {
    if rrsets != [] && HasType(rrsets, t) {
      var more := WithRecord(rrsets, rtype, d);
      if rrsets[0].PlainRrset? && rrsets[0].rtype == t {
        assert more[0].PlainRrset? && more[0].rtype == t;
      } else {
        RestHas(rrsets, t);
        TypesStay(rrsets[1..], rtype, d, t);
        if rrsets[0].PlainRrset? && rrsets[0].rtype == rtype {
          TypeAfter(more[0], rrsets[1..], t);
        } else {
          TypeAfter(more[0], WithRecord(rrsets[1..], rtype, d), t);
        }
      }
    }
  }

  lemma RestHas(rrsets: seq<Rrset>, t: nat)
    requires HasType(rrsets, t) && !(rrsets[0].PlainRrset? && rrsets[0].rtype == t)
    ensures HasType(rrsets[1..], t)
  {
    var i :| 0 <= i < |rrsets| && rrsets[i].PlainRrset? && rrsets[i].rtype == t;
    assert rrsets[1..][i - 1] == rrsets[i];
  }

  lemma TypeAfter(r: Rrset, rest: seq<Rrset>, t: nat)
    requires HasType(rest, t)
    ensures HasType([r] + rest, t)
  {
    var i :| 0 <= i < |rest| && rest[i].PlainRrset? && rest[i].rtype == t;
    assert ([r] + rest)[i + 1] == rest[i];
  }

  lemma NsAt(f: Flags, rrsets: seq<Rrset>, r: nat, target: Bytes, ttl: Bytes)
    requires AddedAt(f, rrsets, r) && IsDname(target) && |ttl| == 4
    ensures AddedAt(Delegating(f), WithRecord(rrsets, TYPE_NS, NsData(target, ttl)), r)
    ensures AddrOf(WithRecord(rrsets, TYPE_NS, NsData(target, ttl))) == AddrOf(rrsets)
  {
    var d, had := NsData(target, ttl), FirstOf(rrsets, TYPE_NS);
    assert PartsSize(d.parts[1..]) == 0;
    WithRecordKeeps(rrsets, TYPE_NS, d);
    forall i | 0 <= i < |had| ensures RrDataLegal(had[i]) { assert NsShaped(had[i]); }
    var rrs := had + [LikeFirst(had, d)];
    LikeLegal(had, d);
    forall i | 0 <= i < |rrs| ensures NsShaped(rrs[i]) {
      if i < |had| { assert NsShaped(had[i]); }
    }
    FirstThere(WithRecord(rrsets, TYPE_NS, d), TYPE_NS);
  }

  lemma AddrAtNode(f: Flags, rrsets: seq<Rrset>, r: nat, v6: bool, addr: Bytes, ttl: Bytes, limit: nat)
    requires AddedAt(f, rrsets, r) && |addr| == (if v6 then 16 else 4) && |ttl| == 4
    ensures AddedAt(f, WithAddr(rrsets, r, v6, addr, ttl, limit), r)
    ensures AddrOf(WithAddr(rrsets, r, v6, addr, ttl, limit)).Some?
  {
    WithAddrKeeps(rrsets, r, v6, addr, ttl, limit);
    TypesBeside(rrsets, r, v6, addr, ttl, limit, TYPE_NS);
  }

  lemma {:induction false} TypesBeside(rrsets: seq<Rrset>, r: nat, v6: bool, addr: Bytes, ttl: Bytes, limit: nat,
                                       t: nat)
    ensures HasType(rrsets, t) ==> HasType(WithAddr(rrsets, r, v6, addr, ttl, limit), t)
  {
    if rrsets != [] && HasType(rrsets, t) {
      var more := WithAddr(rrsets, r, v6, addr, ttl, limit);
      if rrsets[0].PlainRrset? && rrsets[0].rtype == t {
        assert more[0] == rrsets[0];
      } else {
        RestHas(rrsets, t);
        TypesBeside(rrsets[1..], r, v6, addr, ttl, limit, t);
        if rrsets[0].AddrRrset? {
          TypeAfter(more[0], rrsets[1..], t);
        } else {
          TypeAfter(more[0], WithAddr(rrsets[1..], r, v6, addr, ttl, limit), t);
        }
      }
    }
  }

  /** Where there is a zone's root above the name, there is one above its node. */
  lemma ZoneOver(nodes0: seq<Node>, paths0: seq<Name>, nodes: seq<Node>, paths: seq<Name>, v: LookupRule.View, r: nat)
    requires |nodes0| == |paths0| && |nodes| == |paths| && r < |nodes|
    requires Descended(nodes0, paths0, nodes, paths, paths[r])
    requires ZoneAtOrAbove(nodes0, paths0, paths[r])
    requires |v.flags| == |nodes| && forall i :: 0 <= i < |nodes| ==> v.flags[i] == nodes[i].flags
    ensures InSomeZone(v, paths, r)
  {
    var i :| 0 <= i < |nodes0| && paths0[i] <= paths[r] && nodes0[i].flags.zroot;
    assert FlagsAsExpected(nodes0, paths0, nodes, paths, paths[r], i);
    assert v.flags[i].zroot && paths[i] <= paths[r];
  }

  /** A node that has its address lacks nothing. */
  lemma HasItsOwn(v: LookupRule.View, paths: seq<Name>, data: seq<seq<Rrset>>, r: nat)
    requires AddedBut(v, paths, data, r) && r < |data| && AddrOf(data[r]).Some?
    ensures Added(v, paths, data)
  {
  }

  /** A name in a zone is at a zone's root or its node is authoritative. */
  lemma AuthInZone(nodes0: seq<Node>, paths0: seq<Name>, nodes: seq<Node>, paths: seq<Name>, r: nat)
    requires |nodes0| == |paths0| && |nodes| == |paths| && r < |nodes|
    requires Descended(nodes0, paths0, nodes, paths, paths[r])
    requires ZoneAtOrAbove(nodes0, paths0, paths[r])
    requires forall i, j :: 0 <= i < j < |paths| ==> paths[i] != paths[j]
    ensures nodes[r].flags.zroot || nodes[r].flags.auth
  {
    assert FlagsAsExpected(nodes0, paths0, nodes, paths, paths[r], r);
    var i :| 0 <= i < |nodes0| && paths0[i] <= paths[r] && nodes0[i].flags.zroot;
    assert FlagsAsExpected(nodes0, paths0, nodes, paths, paths[r], i);
    if paths0[i] == paths[r] { assert paths[i] == paths[r] && i == r; }
  }

  /** Adding a CNAME takes no type away. */
  lemma SameTypes(rrsets: seq<Rrset>, more: seq<Rrset>, rtype: nat)
    requires rrsets <= more && HasType(rrsets, rtype)
    ensures HasType(more, rtype)
  {
    var i :| 0 <= i < |rrsets| && rrsets[i].PlainRrset? && rrsets[i].rtype == rtype;
    assert more[i] == rrsets[i];
  }

  lemma RootAlone(v: LookupRule.View, paths: seq<Name>, data: seq<seq<Rrset>>)
    requires ViewOk(v) && v.kids == [map[]] && v.flags == [NO_FLAGS] && |paths| == 1 && data == [[]]
    ensures Added(v, paths, data)
  {
  }
}
