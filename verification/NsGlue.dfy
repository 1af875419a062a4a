/**
  Name servers and their addresses after validation: servers inside a zone have addresses,
  those below its delegations are glue, and a referral sends glue under the servers' own
  names.
 */
module NsGlue {
  import opened Names
  import opened Records
  import opened Additional
  import opened Encoder
  import opened LookupRule
  import opened LabelTree
  import opened CnameChain
  import opened Validation
  import opened Response
  import opened Answering
  import opened Truncation

  /** A node's NS records. */
  function NsAt(db: Db, j: nat): seq<RrData>
    requires j < |db.data|
  {
    FirstOf(db.data[j], TYPE_NS)
  }

  /** Where a name passes through a zone's root it is not outside all authority. */
  lemma InsideZone(v: View, name: Name, z: nat, status: Status, node: Option<nat>)
    requires ViewOk(v) && z < |v.flags| && v.flags[z].zroot && Crosses(v, name, z) && LoadAnswer(v, name, status, node)
    ensures status != NoAuth
  {
    var k: nat :| k <= |name| && NodeAt(v, name, k) == Some(z);
    var e: nat :| IsEncloser(v, name, e) && LoadAnswerAt(v, name, e, status, node);
    if k > e { NodeAtPrefix(v, name, e + 1, k); }
    assert CutAt(v, name, k);
  }

  /** What validation found for one of a node's servers. */
  lemma Settled(db: Db, ck: Checks, j: nat, i: nat) returns (z: nat)
    requires Validated(db, ck) && j < |db.data| && HasServers(ck, j) && i < |NsAt(db, j)|
    ensures NsShaped(NsAt(db, j)[i]) && IsZoneOf(db.v, ck.paths, j, z)
    ensures AdIs(ck, z, ServerOf(NsAt(db, j)[i]), Ad(NsAt(db, j)[i].ad, NsAt(db, j)[i].glue))
    ensures db.v.flags[j] != NO_FLAGS && CheckedInZone(ck, j)
  {
    assert LoadedAt(db, j) && ValidatedAt(db, ck, j) && NodePassed(ck, j);
    var rrs := NsAt(db, j);
    z :| IsZoneOf(ck.v, ck.paths, j, z) && AdsAre(ck, z, ck.facts[j].servers, AdsIn(rrs));
    assert NsShaped(rrs[i]) && ck.facts[j].servers[i] == ServerOf(rrs[i]);
    assert AdIs(ck, z, ck.facts[j].servers[i], AdsIn(rrs)[i]);
  }

  ghost function ServerName(d: RrData): Name
    requires NsShaped(d)
  {
    LabelsAt(ServerOf(d)[1..], 0)
  }

  /**
    After validation every name server inside the zone, of the zone itself or of a delegation, has the
    addresses that the database keeps at its name; they are glue exactly if the name is below a delegation.
   */
  lemma ServersHaveAddresses(db: Db, ck: Checks, j: nat, z: nat, i: nat, status: Status, node: Option<nat>)
    requires Validated(db, ck) && j < |db.data| && HasServers(ck, j) && i < |NsAt(db, j)| && NsShaped(NsAt(db, j)[i])
    requires IsZoneOf(db.v, ck.paths, j, z) && Crosses(db.v, ServerName(NsAt(db, j)[i]), z)
    requires LoadAnswer(db.v, ServerName(NsAt(db, j)[i]), status, node)
    ensures node.Some? && node.value < |db.data| && status != NoAuth
    ensures NsAt(db, j)[i].ad.Some? && NsAt(db, j)[i].ad == AddrOf(db.data[node.value])
    ensures NsAt(db, j)[i].glue <==> status == Deleg
  {
    var d := NsAt(db, j)[i];
    var z' := Settled(db, ck, j, i);
    ZoneOfUnique(db.v, ck.paths, j, z, z');
    InsideZone(db.v, ServerName(d), z, status, node);
    PassedServer(db, ck, j, z, i);
    OnlyAnswer(ck, ServerOf(d), status, node);
    assert AddrAt(ck, node).Some?;
    assert ValidatedAt(db, ck, node.value);
  }

  lemma PassedServer(db: Db, ck: Checks, j: nat, z: nat, i: nat)
    requires Validated(db, ck) && j < |db.data| && HasServers(ck, j) && i < |NsAt(db, j)| && NsShaped(NsAt(db, j)[i])
    requires IsZoneOf(db.v, ck.paths, j, z)
    ensures ServerOk(ck, z, ServerOf(NsAt(db, j)[i]))
  {
    assert NodePassed(ck, j) && LoadedAt(db, j) && ValidatedAt(db, ck, j);
    var z' :| IsZoneOf(ck.v, ck.paths, j, z') && Checked(ck, j, z');
    ZoneOfUnique(db.v, ck.paths, j, z, z');
    assert ServerOk(ck, z, ck.facts[j].servers[i]);
  }

  // ---- One node, one name ----------------------------------------------------------------------

  /** How a server's addresses are found at node `n`: under the name itself, at a wildcard, or as glue from outside. */
  datatype Origin = Exact | Wild(e: nat) | Outside(z: nat)

  ghost predicate FoundAt(ck: Checks, dname: Bytes, n: nat, o: Origin)
    requires ChecksOk(ck) && IsDname(dname)
  {
    var name := LabelsAt(dname[1..], 0);
    n < |ck.paths| &&
    match o
    case Exact => ck.paths[n] == PathOf(name, |name|)
    case Wild(e) => e < |name| && IsEncloser(ck.v, name, e) && ck.paths[n] == PathOf(name, e) + [STAR]
    case Outside(z) => z < |ck.paths| && ck.paths[n] == ck.paths[z] + [OOZ_GLUE] + [dname[1..]]
  }

  /** Where a server's addresses came from; for glue it is not a wildcard. */
  lemma WhereFound(ck: Checks, z: nat, dname: Bytes, ad: Ad) returns (n: nat, o: Origin)
    requires ChecksOk(ck) && IsDname(dname) && z < |ck.paths| && AdIs(ck, z, dname, ad) && ad.addr.Some?
    ensures FoundAt(ck, dname, n, o) && ad.addr == ck.facts[n].addr
    ensures ad.glue ==> !o.Wild?
    ensures ad.glue && o.Exact? ==> LoadAnswer(ck.v, LabelsAt(dname[1..], 0), Deleg, Some(n))
    ensures o.Wild? ==> LoadAnswer(ck.v, LabelsAt(dname[1..], 0), Auth, Some(n))
  {
    var name, ooz := LabelsAt(dname[1..], 0), OozNode(ck.v, z, dname[1..]);
    if !Crosses(ck.v, name, z) && ooz.Some? {
      n, o := ooz.value, Outside(z);
    } else {
      var status, node :| LoadAnswer(ck.v, name, status, node) &&
        ad == AdFrom(ck, status, node, Crosses(ck.v, name, z));
      n := node.value;
      o := TreeOrigin(ck, dname, status, n);
    }
  }

  lemma TreeOrigin(ck: Checks, dname: Bytes, status: Status, n: nat) returns (o: Origin)
    requires ChecksOk(ck) && IsDname(dname) && LoadAnswer(ck.v, LabelsAt(dname[1..], 0), status, Some(n))
    ensures FoundAt(ck, dname, n, o) && !o.Outside? && (o.Wild? ==> status == Auth)
  {
    var name := LabelsAt(dname[1..], 0);
    var e: nat :| IsEncloser(ck.v, name, e) && LoadAnswerAt(ck.v, name, e, status, Some(n));
    o := if e == |name| then Exact else Wild(e);
    if status == Auth {
      StarOrSelf(ck, name, e, n);
    } else {
      NodePath(ck.v, ck.paths, name, e);
    }
  }

  lemma StarOrSelf(ck: Checks, name: Name, e: nat, n: nat)
    requires ChecksOk(ck) && IsEncloser(ck.v, name, e) && AuthNode(ck.v, name, e) == Some(n)
    ensures n < |ck.paths| && ck.paths[n] == if e == |name| then PathOf(name, e) else PathOf(name, e) + [STAR]
  {
    NodePath(ck.v, ck.paths, name, e);
  }

  /** A node that is below a delegation by its own name is no name's wildcard in authoritative space. */
  lemma GlueNotWild(ck: Checks, a: Bytes, b: Bytes, n: nat, e: nat)
    requires AllPass(ck) && IsDname(a) && IsDname(b)
    requires FoundAt(ck, a, n, Exact) && LoadAnswer(ck.v, LabelsAt(a[1..], 0), Deleg, Some(n))
    requires FoundAt(ck, b, n, Wild(e))
    ensures !LoadAnswer(ck.v, LabelsAt(b[1..], 0), Auth, Some(n))
  {
    var x, y := LabelsAt(a[1..], 0), LabelsAt(b[1..], 0);
    var k, d := DelegCut(ck, x, n);
    StarLast(ck.paths[n], x, y, e);
    if k == |x| { CleanCut(ck, n); }
    if LoadAnswer(ck.v, y, Auth, Some(n)) {
      var j := ZoneCut(ck, y, e, n);
      CutsApart(ck, x, y, e, k, j);
    }
  }

  lemma StarLast(p: Name, x: Name, y: Name, e: nat)
    requires p == PathOf(x, |x|) && e <= |y| && p == PathOf(y, e) + [STAR]
    ensures |x| == e + 1 && PathOf(x, |x|)[..e] == PathOf(y, e) && LabelOf(p) == STAR
  {
  }

  /** Names alike but for the last label cannot have different cuts above it. */
  lemma CutsApart(ck: Checks, x: Name, y: Name, e: nat, k: nat, j: nat)
    requires ChecksOk(ck) && |x| == e + 1 && e <= |y| && PathOf(x, |x|)[..e] == PathOf(y, e)
    requires NodeAt(ck.v, x, e).Some? && NodeAt(ck.v, y, e).Some?
    requires DeepestCut(ck.v, x, |x|, k) && !RootAt(ck.v, x, k)
    requires DeepestCut(ck.v, y, e, j) && RootAt(ck.v, y, j)
    ensures k == |x|
  {
    if k <= e {
      SameWay(ck, x, y, k, e);
      SameWay(ck, x, y, j, e);
      OneCut(ck.v, x, y, e, k, j);
    }
  }

  lemma OneCut(v: View, x: Name, y: Name, e: nat, k: nat, j: nat)
    requires ViewOk(v) && k <= e <= |x| && e <= |y| && DeepestCut(v, x, |x|, k) && DeepestCut(v, y, e, j)
    requires CutAt(v, x, k) == CutAt(v, y, k) && CutAt(v, x, j) == CutAt(v, y, j)
    ensures k == j
  {
  }

  /** The deepest cut above a name below a delegation. */
  lemma DelegCut(ck: Checks, name: Name, n: nat) returns (k: nat, d: nat)
    requires ChecksOk(ck) && LoadAnswer(ck.v, name, Deleg, Some(n)) && n < |ck.paths|
    requires ck.paths[n] == PathOf(name, |name|)
    ensures DeepestCut(ck.v, name, |name|, k) && NodeAt(ck.v, name, k) == Some(d) && IsDeleg(ck.v.flags[d])
    ensures (k == |name| ==> d == n) && forall i :: 0 <= i <= |name| ==> NodeAt(ck.v, name, i).Some?
  {
    var e: nat :| IsEncloser(ck.v, name, e) && LoadAnswerAt(ck.v, name, e, Deleg, Some(n));
    NodePath(ck.v, ck.paths, name, e);
    assert e == |name|;
    k :| DeepestCut(ck.v, name, e, k) && !ck.v.flags[NodeAt(ck.v, name, k).value].zroot;
    d := NodeAt(ck.v, name, k).value;
    forall i | 0 <= i <= |name| ensures NodeAt(ck.v, name, i).Some? {
      NodeAtPrefix(ck.v, name, i, |name|);
    }
  }

  /** The deepest cut above a name in authoritative space. */
  lemma ZoneCut(ck: Checks, name: Name, e: nat, n: nat) returns (j: nat)
    requires ChecksOk(ck) && IsEncloser(ck.v, name, e) && LoadAnswer(ck.v, name, Auth, Some(n))
    ensures DeepestCut(ck.v, name, e, j) && RootAt(ck.v, name, j)
  {
    var e': nat :| IsEncloser(ck.v, name, e') && LoadAnswerAt(ck.v, name, e', Auth, Some(n));
    EncloserUnique(ck.v, name, e, e');
    j :| DeepestCut(ck.v, name, e', j) && ck.v.flags[NodeAt(ck.v, name, j).value].zroot;
  }

  /** Names that end alike have the same nodes on the way. */
  lemma SameWay(ck: Checks, x: Name, y: Name, k: nat, e: nat)
    requires ChecksOk(ck) && k <= e <= |x| && e <= |y| && PathOf(x, |x|)[..e] == PathOf(y, e)
    requires NodeAt(ck.v, x, e).Some? && NodeAt(ck.v, y, e).Some?
    ensures CutAt(ck.v, x, k) == CutAt(ck.v, y, k) && RootAt(ck.v, x, k) == RootAt(ck.v, y, k)
  {
    NodeAtPrefix(ck.v, x, k, e);
    NodeAtPrefix(ck.v, y, k, e);
    NodePath(ck.v, ck.paths, x, k);
    NodePath(ck.v, ck.paths, y, k);
    EndAlike(x, y, k, e);
    SameNode(ck, NodeAt(ck.v, x, k).value, NodeAt(ck.v, y, k).value);
  }

  lemma EndAlike(x: Name, y: Name, k: nat, e: nat)
    requires k <= e <= |x| && e <= |y| && PathOf(x, |x|)[..e] == PathOf(y, e)
    ensures PathOf(x, k) == PathOf(y, k)
  {
    assert PathOf(x, k) == PathOf(x, |x|)[..e][..k] && PathOf(y, k) == PathOf(y, e)[..k];
  }

  lemma SameNode(ck: Checks, i: nat, j: nat)
    requires ChecksOk(ck) && i < |ck.paths| && j < |ck.paths| && ck.paths[i] == ck.paths[j]
    ensures i == j
  {
  }

  /** Glue belongs to one name: another server with the same addresses has the same name. */
  lemma OneName(ck: Checks, za: nat, a: Bytes, ad: Ad, zb: nat, b: Bytes, bd: Ad)
    requires AllPass(ck) && IsDname(a) && IsDname(b) && za < |ck.paths| && zb < |ck.paths|
    requires AdIs(ck, za, a, ad) && AdIs(ck, zb, b, bd) && ad.glue && ad.addr.Some? && bd.addr == ad.addr
    requires IdsOwn(ck)
    ensures LabelsAt(a[1..], 0) == LabelsAt(b[1..], 0)
  {
    var n, o := WhereFound(ck, za, a, ad);
    var m, q := WhereFound(ck, zb, b, bd);
    SameSet(ck, n, m);
    Labelled(ck, a, n, o);
    Labelled(ck, b, n, q);
    match (o, q)
    case (Exact, Exact) => SamePath(LabelsAt(a[1..], 0), LabelsAt(b[1..], 0));
    case (Exact, Wild(e)) => GlueNotWild(ck, a, b, n, e);
    case (Outside(_), Outside(_)) => assert Last(ck.paths[n]) == a[1..] == b[1..];
    case _ =>
  }

  lemma SamePath(x: Name, y: Name)
    requires PathOf(x, |x|) == PathOf(y, |y|)
    ensures x == y
  {
    forall i | 0 <= i < |x| ensures x[i] == y[i] {
      assert x[i] == PathOf(x, |x|)[|x| - 1 - i] && y[i] == PathOf(y, |y|)[|y| - 1 - i];
    }
  }

  /** Glue from outside is kept where no name of the tree is. */
  lemma Labelled(ck: Checks, dname: Bytes, n: nat, o: Origin)
    requires ChecksOk(ck) && IsDname(dname) && FoundAt(ck, dname, n, o)
    ensures OOZ_GLUE in ck.paths[n] <==> o.Outside?
  {
    var name := LabelsAt(dname[1..], 0);
    NoEmptyLabel(dname[1..]);
    match o
    case Exact => PathHasLabels(name, |name|);
    case Wild(e) => PathHasLabels(name, e);
    case Outside(z) => assert ck.paths[n][|ck.paths[z]|] == OOZ_GLUE;
  }

  // ---- What a referral sends -------------------------------------------------------------------

  /**
    A referral that leaves the server untruncated carries the glue of each of its name servers, whole, under
    that server's own name.
   */
  lemma GlueUnderOwnName(db: Db, ck: Checks, query: Query, run: Run, limit: nat, i: nat) returns (k: nat)
    requires Validated(db, ck) && DbOk(db) && Prepared(run.shot, ck.maxAddtl, db, query, run)
    requires run.reply.end == AtName && run.reply.found.status == Deleg && Fitted(run.final, run.w, limit, run.n)
    requires GluedAt(ReferredTo(db, run.reply), i)
    ensures RrsLegal(ReferredTo(db, run.reply)) && RrDataLegal(ReferredTo(db, run.reply)[i])
    ensures var d, x := ReferredTo(db, run.reply)[i], run.final.store.extras;
            k < |x.rrsets| == |x.owners| && SentAs(x, k, d.ad.value) && x.owners[k] == LastName(d.parts)
  {
    GlueComplete(db, ck, query, run, limit, i);
    DelegNode(db.v, NameAtEnd(db, run.t), run.reply.found, run.cut);
    k := SentUnderOwnName(db, ck, run.reply.found.node.value, run.final.store.extras, i);
  }

  lemma SentUnderOwnName(db: Db, ck: Checks, j: nat, x: Extras, i: nat) returns (k: nat)
    requires Validated(db, ck) && j < |db.data| && IsDeleg(db.v.flags[j]) && GluedAt(NsAt(db, j), i)
    requires RrsLegal(NsAt(db, j)) && |x.owners| == |x.rrsets| && AddressesSent(NsAt(db, j), i, x)
    ensures k < |x.rrsets| && RrDataLegal(NsAt(db, j)[i])
    ensures SentAs(x, k, NsAt(db, j)[i].ad.value) && x.owners[k] == LastName(NsAt(db, j)[i].parts)
  {
    var rrs := NsAt(db, j);
    k :| 0 <= k < |x.rrsets| && SentAs(x, k, rrs[i].ad.value) && LedTo(x, rrs, k);
    var b :| 0 <= b < |rrs| && LedToBy(x.rrsets[k].rrset, x.owners[k], rrs[b]);
    OwnName(db, ck, j, i, b);
  }

  lemma OwnName(db: Db, ck: Checks, j: nat, a: nat, b: nat)
    requires Validated(db, ck) && j < |db.data| && IsDeleg(db.v.flags[j]) && GluedAt(NsAt(db, j), a)
    requires b < |NsAt(db, j)| && NsAt(db, j)[b].ad == NsAt(db, j)[a].ad
    ensures NsShaped(NsAt(db, j)[a]) && NsShaped(NsAt(db, j)[b])
    ensures LastName(NsAt(db, j)[a].parts) == LastName(NsAt(db, j)[b].parts)
  {
    CleanCut(ck, j);
    var rrs := NsAt(db, j);
    var za := Settled(db, ck, j, a);
    var zb := Settled(db, ck, j, b);
    OwnIds(db, ck);
    SharedName(ck, za, rrs[a], zb, rrs[b]);
  }

  lemma SharedName(ck: Checks, za: nat, a: RrData, zb: nat, b: RrData)
    requires AllPass(ck) && IdsOwn(ck) && NsShaped(a) && NsShaped(b) && za < |ck.paths| && zb < |ck.paths|
    requires AdIs(ck, za, ServerOf(a), Ad(a.ad, a.glue)) && AdIs(ck, zb, ServerOf(b), Ad(b.ad, b.glue))
    requires a.glue && a.ad.Some? && b.ad == a.ad
    ensures LastName(a.parts) == LastName(b.parts)
  {
    OneName(ck, za, ServerOf(a), Ad(a.ad, a.glue), zb, ServerOf(b), Ad(b.ad, b.glue));
  }

  /** An address set is its node's own. */
  ghost predicate IdsOwn(ck: Checks) {
    forall n {:trigger ck.facts[n].addr} :: 0 <= n < |ck.facts| && ck.facts[n].addr.Some? ==>
      ck.facts[n].addr.value.id == n
  }

  lemma SameSet(ck: Checks, n: nat, m: nat)
    requires IdsOwn(ck) && n < |ck.facts| && m < |ck.facts| && ck.facts[n].addr.Some?
    requires ck.facts[n].addr == ck.facts[m].addr
    ensures n == m
  {
  }

  lemma OwnIds(db: Db, ck: Checks)
    requires Validated(db, ck)
    ensures IdsOwn(ck)
  {
    forall n | 0 <= n < |ck.facts| && ck.facts[n].addr.Some? ensures ck.facts[n].addr.value.id == n {
      assert LoadedAt(db, n) && ValidatedAt(db, ck, n);
    }
  }
}
