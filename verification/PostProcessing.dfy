/**
  Post-processing of what was loaded: address limits take effect, and the walk over the
  tree decides whether it is served and gives every name server its addresses.  What
  passes is a database that the run-time code can rely on.
 */
module PostProcessing {
  import opened Names
  import opened Additional
  import opened Encoder
  import opened LookupRule
  import opened LabelTree
  import opened CnameChain
  import opened Validation
  import opened Response
  import opened Answering
  import opened Loading

  // ---- Limits ---------------------------------------------------------------------------------------

  /** The limits as post-processing leaves them. */
  function EffectiveSets(rrsets: seq<Rrset>): (r: seq<Rrset>)
    ensures |r| == |rrsets|
  {
    seq(|rrsets|, i requires 0 <= i < |rrsets| =>
      if rrsets[i].AddrRrset? then AddrRrset(InEffect(rrsets[i].addrs)) else rrsets[i])
  }

  function EffectiveData(data: seq<seq<Rrset>>): (r: seq<seq<Rrset>>)
    ensures |r| == |data|
  {
    seq(|data|, i requires 0 <= i < |data| => EffectiveSets(data[i]))
  }

  lemma {:induction false} EffectiveKeeps(rrsets: seq<Rrset>)
    requires AllRaw(rrsets)
    ensures NodeLegal(EffectiveSets(rrsets)) && CnameOf(EffectiveSets(rrsets)) == CnameOf(rrsets)
    ensures forall t :: FirstOf(EffectiveSets(rrsets), t) == FirstOf(rrsets, t)
    ensures AddrOf(EffectiveSets(rrsets)) ==
              if AddrOf(rrsets).Some? then Some(InEffect(AddrOf(rrsets).value)) else None
  {
    var e := EffectiveSets(rrsets);
    forall i | 0 <= i < |e| ensures RrsetLegal(e[i]) { assert RawLegal(rrsets[i]); }
    if rrsets != [] {
      RawRest(rrsets);
      EffectiveKeeps(rrsets[1..]);
      assert e[1..] == EffectiveSets(rrsets[1..]);
    }
  }

  lemma EffectiveTypes(rrsets: seq<Rrset>, t: nat)
    ensures HasType(rrsets, t) ==> HasType(EffectiveSets(rrsets), t)
  {
    if i :| 0 <= i < |rrsets| && rrsets[i].PlainRrset? && rrsets[i].rtype == t {
      assert EffectiveSets(rrsets)[i] == rrsets[i];
    }
  }

  lemma EffectiveAt(f: Flags, rrsets: seq<Rrset>, i: nat)
    requires AddedAt(f, rrsets, i)
    ensures LoadedSets(f, EffectiveSets(rrsets), i)
  {
    EffectiveKeeps(rrsets);
    EffectiveTypes(rrsets, TYPE_NS);
  }

  lemma AddedIsLoaded(v: LookupRule.View, paths: seq<Name>, data: seq<seq<Rrset>>)
    requires Added(v, paths, data)
    ensures Loaded(Db(v, EffectiveData(data)))
  {
    var db := Db(v, EffectiveData(data));
    forall i | 0 <= i < |db.data| ensures LoadedAt(db, i) {
      assert AddedAt(v.flags[i], data[i], i);
      EffectiveAt(v.flags[i], data[i], i);
    }
  }

  ghost predicate AllShaped(data: seq<seq<Rrset>>) {
    forall i {:trigger data[i]} :: 0 <= i < |data| ==> AllNsShaped(FirstOf(data[i], TYPE_NS))
  }

  function FactsFor(data: seq<seq<Rrset>>): (r: seq<Facts>)
    requires AllShaped(data)
    ensures |r| == |data|
    ensures forall i {:trigger r[i]} :: 0 <= i < |data| ==>
              AllNsShaped(FirstOf(data[i], TYPE_NS)) && r[i] == FactsOf(data[i])
  {
    seq(|data|, i requires 0 <= i < |data| => FactsOf(data[i]))
  }

  lemma LoadedShaped(db: Db)
    requires Loaded(db)
    ensures AllShaped(db.data)
  {
    forall i | 0 <= i < |db.data| ensures AllNsShaped(FirstOf(db.data[i], TYPE_NS)) { assert LoadedAt(db, i); }
  }

  /** The walk has what it needs. */
  lemma AddedChecks(v: LookupRule.View, paths: seq<Name>, data: seq<seq<Rrset>>, limits: Limits)
    requires Added(v, paths, data) && Shape(v.kids, paths) && limits.max > 0
    ensures Loaded(Db(v, EffectiveData(data))) && AllShaped(EffectiveData(data))
    ensures ChecksOk(Checks(v, paths, HeadsOf(EffectiveData(data)), FactsFor(EffectiveData(data)), limits))
  {
    AddedIsLoaded(v, paths, data);
    var db := Db(v, EffectiveData(data));
    LoadedShaped(db);
    var ck := Checks(v, paths, HeadsOf(db.data), FactsFor(db.data), limits);
    forall i | 0 <= i < |ck.heads| && IsLink(ck.heads[i]) ensures IsDname(ck.heads[i].target) {
      assert LoadedAt(db, i);
      CnameLegal(db.data[i]);
    }
    forall j | 0 <= j < |ck.facts| ensures AllDnames(ck.facts[j].servers) && AllDnames(ck.facts[j].targets) {
      assert ck.facts[j] == FactsOf(db.data[j]);
    }
    forall z, w | 0 <= z < |v.kids| && OozNode(v, z, w).Some? ensures ck.facts[OozNode(v, z, w).value].addr.Some? {
      var n := OozNode(v, z, w).value;
      assert AddrOf(data[n]).Some? && AddedAt(v.flags[n], data[n], n);
      EffectiveKeeps(data[n]);
      assert ck.facts[n] == FactsOf(db.data[n]);
    }
  }

  /** Name server records with the addresses that were found for them. */
  function SettledRrs(rrs: seq<RrData>, ads: seq<Ad>): (r: seq<RrData>)
    requires |ads| == |rrs|
    ensures |r| == |rrs|
  {
    seq(|rrs|, i requires 0 <= i < |rrs| => rrs[i].(ad := ads[i].addr, glue := ads[i].glue))
  }

  function SettledSets(rrsets: seq<Rrset>, ads: seq<Ad>): (r: seq<Rrset>)
    requires |ads| == |FirstOf(rrsets, TYPE_NS)|
    ensures |r| == |rrsets|
  {
    if rrsets == [] then []
    else if rrsets[0].PlainRrset? && rrsets[0].rtype == TYPE_NS then
      [PlainRrset(TYPE_NS, SettledRrs(rrsets[0].rrs, ads))] + rrsets[1..]
    else [rrsets[0]] + SettledSets(rrsets[1..], ads)
  }

  /** All that matters but the addresses stays as it was. */
  lemma {:induction false} SettledKeeps(rrsets: seq<Rrset>, ads: seq<Ad>)
    requires |ads| == |FirstOf(rrsets, TYPE_NS)|
    ensures CnameOf(SettledSets(rrsets, ads)) == CnameOf(rrsets) && AddrOf(SettledSets(rrsets, ads)) == AddrOf(rrsets)
    ensures FirstOf(SettledSets(rrsets, ads), TYPE_NS) == SettledRrs(FirstOf(rrsets, TYPE_NS), ads)
    ensures forall t :: t != TYPE_NS ==> FirstOf(SettledSets(rrsets, ads), t) == FirstOf(rrsets, t)
    ensures SameKinds(rrsets, SettledSets(rrsets, ads))
  {
    if rrsets != [] {
      var rest := rrsets[1..];
      if rrsets[0].PlainRrset? && rrsets[0].rtype == TYPE_NS {
        var r := PlainRrset(TYPE_NS, SettledRrs(rrsets[0].rrs, ads));
        assert ([r] + rest)[1..] == rest;
      } else {
        SettledKeeps(rest, ads);
        var more := SettledSets(rest, ads);
        assert ([rrsets[0]] + more)[1..] == more;
        KindsFront(rrsets[0], rest, more);
        assert rrsets == [rrsets[0]] + rest;
      }
    }
  }

  /** The same types at the same places. */
  ghost predicate SameKinds(a: seq<Rrset>, b: seq<Rrset>) {
    && |a| == |b|
    && forall i :: 0 <= i < |a| ==>
         a[i].PlainRrset? == b[i].PlainRrset? && (a[i].PlainRrset? ==> a[i].rtype == b[i].rtype)
  }

  lemma KindsFront(r: Rrset, a: seq<Rrset>, b: seq<Rrset>)
    requires SameKinds(a, b)
    ensures SameKinds([r] + a, [r] + b)
  {
  }

  lemma KindsAgree(a: seq<Rrset>, b: seq<Rrset>)
    requires SameKinds(a, b)
    ensures HasOthers(a) == HasOthers(b) && forall t :: HasType(a, t) == HasType(b, t)
  {
  }

  lemma {:induction false} SettledLegal(rrsets: seq<Rrset>, ads: seq<Ad>)
    requires |ads| == |FirstOf(rrsets, TYPE_NS)| && NodeLegal(rrsets) && AllNsShaped(FirstOf(rrsets, TYPE_NS))
    requires forall i :: 0 <= i < |ads| && ads[i].addr.Some? ==> AddrSetLegal(ads[i].addr.value)
    ensures NodeLegal(SettledSets(rrsets, ads)) && AllNsShaped(FirstOf(SettledSets(rrsets, ads), TYPE_NS))
  {
    SettledShaped(FirstOf(rrsets, TYPE_NS), ads);
    SettledKeeps(rrsets, ads);
    if rrsets != [] {
      RestLegal(rrsets);
      var s := SettledSets(rrsets, ads);
      if !(rrsets[0].PlainRrset? && rrsets[0].rtype == TYPE_NS) {
        SettledLegal(rrsets[1..], ads);
      }
      forall i | 0 <= i < |s| ensures RrsetLegal(s[i]) {
        if i > 0 { assert s[1..][i - 1] == s[i] && RrsetLegal(s[1..][i - 1]); }
      }
    }
  }

  lemma SettledShaped(rrs: seq<RrData>, ads: seq<Ad>)
    requires |ads| == |rrs| && AllNsShaped(rrs)
    requires forall i :: 0 <= i < |ads| && ads[i].addr.Some? ==> AddrSetLegal(ads[i].addr.value)
    ensures AllNsShaped(SettledRrs(rrs, ads)) && RrsLegal(SettledRrs(rrs, ads))
    ensures ServersOf(SettledRrs(rrs, ads)) == ServersOf(rrs) && AdsIn(SettledRrs(rrs, ads)) == ads
  {
    var s := SettledRrs(rrs, ads);
    forall i | 0 <= i < |s| ensures NsShaped(s[i]) && RrDataLegal(s[i]) { assert NsShaped(rrs[i]); }
    forall i | 0 <= i < |s| ensures ServersOf(s)[i] == ServersOf(rrs)[i] {}
  }

  /** A node's sets with what the walk has found for it, if anything. */
  function SettledNode(rrsets: seq<Rrset>, i: nat, found: map<nat, Finding>): seq<Rrset> {
    if i in found && |found[i].ads| == |FirstOf(rrsets, TYPE_NS)| then SettledSets(rrsets, found[i].ads) else rrsets
  }

  function SettledData(data: seq<seq<Rrset>>, found: map<nat, Finding>): (r: seq<seq<Rrset>>)
    ensures |r| == |data|
  {
    seq(|data|, i requires 0 <= i < |data| => SettledNode(data[i], i, found))
  }

  /** What the walk has found are addresses of the database. */
  lemma FoundLegal(db: Db, ck: Checks, i: nat, ads: seq<Ad>)
    requires Loaded(db) && ChecksOk(ck) && |ck.facts| == |db.data| && i < |ck.heads| && AdsFor(ck, i, ads)
    requires forall j :: 0 <= j < |db.data| ==> ck.facts[j].addr == AddrOf(db.data[j])
    ensures forall k :: 0 <= k < |ads| && ads[k].addr.Some? ==> AddrSetLegal(ads[k].addr.value)
  {
    var z :| IsZoneOf(ck.v, ck.paths, i, z) && AdsAre(ck, z, ck.facts[i].servers, ads);
    forall k | 0 <= k < |ads| && ads[k].addr.Some? ensures AddrSetLegal(ads[k].addr.value) {
      assert AdIs(ck, z, ck.facts[i].servers[k], ads[k]);
      var n := AdNode(ck, z, ck.facts[i].servers[k], ads[k]);
      assert LoadedAt(db, n);
      AddrLegal(db.data[n]);
    }
  }

  lemma AdNode(ck: Checks, z: nat, dname: Bytes, ad: Ad) returns (n: nat)
    requires ViewOk(ck.v) && IsDname(dname) && z < |ck.v.kids| && AdIs(ck, z, dname, ad) && ad.addr.Some?
    ensures n < |ck.facts| && ad.addr == ck.facts[n].addr
  {
    var name, ooz := LabelsAt(dname[1..], 0), OozNode(ck.v, z, dname[1..]);
    if !Crosses(ck.v, name, z) && ooz.Some? {
      n := ooz.value;
    } else {
      var status, node :| LoadAnswer(ck.v, name, status, node) &&
        ad == AdFrom(ck, status, node, Crosses(ck.v, name, z));
      n := node.value;
    }
  }

  lemma {:induction false} AddrLegal(rrsets: seq<Rrset>)
    requires NodeLegal(rrsets)
    ensures AddrOf(rrsets).Some? ==> AddrSetLegal(AddrOf(rrsets).value)
  {
    if rrsets != [] {
      RestLegal(rrsets);
      AddrLegal(rrsets[1..]);
    }
  }

  /** The walk has passed, and what it found has been entered. */
  ghost predicate WalkDone(db: Db, ck: Checks, found: map<nat, Finding>) {
    && Loaded(db) && FirstDone(ck, found) && ck.v == db.v && AllShaped(db.data) && ck.heads == HeadsOf(db.data)
    && ck.facts == FactsFor(db.data)
  }

  /** What is known of a node once the walk is done. */
  lemma WalkDoneAt(db: Db, ck: Checks, found: map<nat, Finding>, i: nat)
    requires WalkDone(db, ck, found) && i < |db.data|
    ensures LoadedSets(db.v.flags[i], db.data[i], i) && ck.facts[i] == FactsOf(db.data[i])
    ensures ck.heads[i] == HeadOf(db.data[i])
    ensures i in found ==> AdsFor(ck, i, found[i].ads) && |found[i].ads| == |FirstOf(db.data[i], TYPE_NS)|
    ensures HasServers(ck, i) ==> i in found
  {
    assert LoadedAt(db, i) && ck.facts[i] == FactsOf(db.data[i]);
  }

  lemma SettledAt(db: Db, ck: Checks, found: map<nat, Finding>, i: nat)
    requires WalkDone(db, ck, found) && i < |db.data|
    ensures var sets := SettledNode(db.data[i], i, found);
            LoadedSets(db.v.flags[i], sets, i) && FactsOf(sets) == ck.facts[i] && HeadOf(sets) == ck.heads[i]
    ensures HasServers(ck, i) ==>
              && i in found && AdsFor(ck, i, found[i].ads)
              && AdsIn(FirstOf(SettledNode(db.data[i], i, found), TYPE_NS)) == found[i].ads
  {
    WalkDoneAt(db, ck, found, i);
    if i in found {
      WalkFoundLegal(db, ck, found, i);
      SettledLoaded(db.v.flags[i], db.data[i], i, found[i].ads);
    }
  }

  lemma WalkFoundLegal(db: Db, ck: Checks, found: map<nat, Finding>, i: nat)
    requires WalkDone(db, ck, found) && i < |db.data| && i in found
    ensures forall k :: 0 <= k < |found[i].ads| && found[i].ads[k].addr.Some? ==>
              AddrSetLegal(found[i].ads[k].addr.value)
  {
    forall j | 0 <= j < |db.data| ensures ck.facts[j].addr == AddrOf(db.data[j]) {
      assert ck.facts[j] == FactsOf(db.data[j]);
    }
    FoundLegal(db, ck, i, found[i].ads);
  }

  lemma SettledLoaded(f: Flags, rrsets: seq<Rrset>, i: nat, ads: seq<Ad>)
    requires LoadedSets(f, rrsets, i) && |ads| == |FirstOf(rrsets, TYPE_NS)|
    requires forall k :: 0 <= k < |ads| && ads[k].addr.Some? ==> AddrSetLegal(ads[k].addr.value)
    ensures var sets := SettledSets(rrsets, ads);
            && LoadedSets(f, sets, i) && FactsOf(sets) == FactsOf(rrsets) && HeadOf(sets) == HeadOf(rrsets)
            && AdsIn(FirstOf(sets, TYPE_NS)) == ads
  {
    SettledLegal(rrsets, ads);
    SettledKeeps(rrsets, ads);
    SettledShaped(FirstOf(rrsets, TYPE_NS), ads);
    KindsAgree(rrsets, SettledSets(rrsets, ads));
  }

  /** The database that results is the validated one. */
  lemma SettledValidated(db: Db, ck: Checks, found: map<nat, Finding>)
    requires WalkDone(db, ck, found)
    ensures Validated(Db(db.v, SettledData(db.data, found)), ck)
  {
    var db' := Db(db.v, SettledData(db.data, found));
    forall i | 0 <= i < |db'.data| ensures LoadedAt(db', i) && HeadOf(db'.data[i]) == ck.heads[i] {
      SettledAt(db, ck, found, i);
    }
    assert Loaded(db') && ck.heads == HeadsOf(db'.data);
    forall i | 0 <= i < |db'.data| ensures ValidatedAt(db', ck, i) {
      SettledAt(db, ck, found, i);
    }
  }

  /**
    The end of `ltree_load_zones`: masks, limits, and the walk.  It succeeds exactly if the zone data may be
    served, and then the database is one that every query can be answered from.
   */
  method PostProcess(z: ZoneData, limits: Limits)
    returns (ok: bool, data: seq<seq<Rrset>>, ghost ck: Checks)
    requires z.Valid() && limits.max > 0
    modifies z.tree
    ensures z.tree.Valid() && !z.tree.loading && AllShaped(EffectiveData(z.data))
    ensures ck == Checks(z.tree.View(), z.tree.paths, HeadsOf(EffectiveData(z.data)), FactsFor(EffectiveData(z.data)),
                         limits)
    ensures ok <==> AllPass(ck) && (ck.strict ==> GlueUsed(ck))
    ensures ok ==> Validated(Db(z.tree.View(), data), ck) && Serving(z.tree, data, Db(z.tree.View(), data))
  {
    ghost var v := z.tree.View();
    z.tree.FixMasks();
    assert z.tree.View() == v;
    data := EffectiveData(z.data);
    AddedChecks(v, z.tree.paths, z.data, limits);
    var g := Given(HeadsOf(data), FactsFor(data), limits);
    ck := Checks(v, z.tree.paths, g.heads, g.facts, limits);
    var found;
    ok, found := ValidateTree(z.tree, g, ck);
    if ok {
      SettledValidated(Db(v, data), ck, found);
      data := SettledData(data, found);
      ValidationSuffices(Db(v, data), ck);
    }
  }
}
