/**
  Answering from the database: the chain of CNAMEs from the question to the last name,
  and the response to what that name's search found.
 */
module Answering {
  import opened Names
  import opened Decoder
  import opened Compression
  import opened Message
  import opened Records
  import opened Additional
  import opened Encoder
  import opened LookupRule
  import opened LabelTree
  import opened CnameChain
  import opened Validation
  import opened Response

  // ---- The database --------------------------------------------------------------------

  /** The lookup tree and the record sets of its nodes. */
  datatype Db = Db(v: LookupRule.View, data: seq<seq<Rrset>>)

  function CnameOf(rrsets: seq<Rrset>): (r: Option<Rrset>)
    ensures r.Some? ==> r.value.CnameRrset? && r.value in rrsets
    ensures r.None? ==> forall i :: 0 <= i < |rrsets| ==> !rrsets[i].CnameRrset?
  {
    if rrsets == [] then None
    else if rrsets[0].CnameRrset? then Some(rrsets[0])
    else CnameOf(rrsets[1..])
  }

  function HeadOf(rrsets: seq<Rrset>): Head {
    match CnameOf(rrsets)
    case None => NoCname(rrsets != [])
    case Some(r) => if r.isStatic then StaticCname(r.target) else DynamicCname(r.target)
  }

  function HeadsOf(data: seq<seq<Rrset>>): (heads: seq<Head>)
    ensures |heads| == |data| && forall i :: 0 <= i < |data| ==> heads[i] == HeadOf(data[i])
  {
    seq(|data|, i requires 0 <= i < |data| => HeadOf(data[i]))
  }

  /** A node's addresses: its first address set. */
  function AddrOf(rrsets: seq<Rrset>): Option<AddrSet> {
    if rrsets == [] then None else if rrsets[0].AddrRrset? then Some(rrsets[0].addrs) else AddrOf(rrsets[1..])
  }

  /** Types other than name servers, addresses and CNAMEs. */
  predicate HasOthers(rrsets: seq<Rrset>) {
    exists i :: 0 <= i < |rrsets| && rrsets[i].PlainRrset? && rrsets[i].rtype != TYPE_NS && rrsets[i].rtype != TYPE_SOA
  }

  /** An NS record's data is one name. */
  ghost predicate NsShaped(d: RrData) {
    RrDataLegal(d) && |d.parts| == 1 && d.parts[0].Compressed?
  }

  ghost predicate AllNsShaped(rrs: seq<RrData>) {
    forall i {:trigger NsShaped(rrs[i])} :: 0 <= i < |rrs| ==> NsShaped(rrs[i])
  }

  /** The name servers as dnames, and the addresses the records lead to. */
  function ServersOf(rrs: seq<RrData>): (r: seq<Bytes>)
    requires AllNsShaped(rrs)
    ensures |r| == |rrs| && forall i {:trigger r[i]} :: 0 <= i < |rrs| ==> NsShaped(rrs[i]) && r[i] == ServerOf(rrs[i])
  {
    seq(|rrs|, i requires 0 <= i < |rrs| => assert NsShaped(rrs[i]); ServerOf(rrs[i]))
  }

  function ServerOf(d: RrData): (dname: Bytes)
    requires NsShaped(d)
    ensures IsDname(dname) && dname[1..] == d.parts[0].name
  {
    assert PartLegal(d.parts[0]);
    [|d.parts[0].name|] + d.parts[0].name
  }

  function AdsIn(rrs: seq<RrData>): (r: seq<Ad>)
    ensures |r| == |rrs|
  {
    seq(|rrs|, i requires 0 <= i < |rrs| => Ad(rrs[i].ad, rrs[i].glue))
  }

  function FactsOf(rrsets: seq<Rrset>): Facts
    requires AllNsShaped(FirstOf(rrsets, TYPE_NS))
  {
    Facts(|rrsets|, HasType(rrsets, TYPE_SOA), HasType(rrsets, TYPE_NS), AddrOf(rrsets), HasOthers(rrsets),
          ServersOf(FirstOf(rrsets, TYPE_NS)), MasterOf(FirstOf(rrsets, TYPE_SOA)), TargetsOf(rrsets))
  }

  const TYPE_MX := 15
  const TYPE_SRV := 33
  const TYPE_NAPTR := 35

  function DnameIn(part: Part): (r: Option<Bytes>)
    ensures r.Some? ==> IsDname(r.value)
  {
    if part.Raw? || !IsWire(part.name) then None
    else
      var d := [|part.name|] + part.name;
      assert d[1..] == part.name;
      Some(d)
  }

  /** The master server: the first name of an SOA record. */
  function MasterOf(rrs: seq<RrData>): Option<Bytes> {
    if rrs == [] || rrs[0].parts == [] then None else DnameIn(rrs[0].parts[0])
  }

  /** The names that records end with. */
  function EndNames(rrs: seq<RrData>): (r: seq<Bytes>)
    ensures AllDnames(r)
  {
    if rrs == [] then []
    else if rrs[0].parts == [] || DnameIn(rrs[0].parts[|rrs[0].parts| - 1]).None? then EndNames(rrs[1..])
    else [DnameIn(rrs[0].parts[|rrs[0].parts| - 1]).value] + EndNames(rrs[1..])
  }

  /** A NAPTR record whose flags, after its order and preference, have the letter A in either case. */
  predicate LeadsToAddresses(d: RrData) {
    && d.parts != [] && d.parts[0].Raw? && |d.parts[0].bytes| > 4
    && exists i :: 5 <= i < |d.parts[0].bytes| && i - 5 < d.parts[0].bytes[4] && d.parts[0].bytes[i] in {0x41, 0x61}
  }

  function Leading(rrs: seq<RrData>): seq<RrData> {
    if rrs == [] then []
    else if LeadsToAddresses(rrs[0]) then [rrs[0]] + Leading(rrs[1..])
    else Leading(rrs[1..])
  }

  /** The names, other than servers', that a node's records lead to. */
  function TargetsOf(rrsets: seq<Rrset>): (r: seq<Bytes>)
    ensures AllDnames(r)
  {
    EndNames(FirstOf(rrsets, TYPE_PTR)) + EndNames(FirstOf(rrsets, TYPE_MX)) + EndNames(FirstOf(rrsets, TYPE_SRV)) +
    EndNames(Leading(FirstOf(rrsets, TYPE_NAPTR)))
  }

  /**
    What adding records sees to: they are well formed, CNAMEs are inside zones, a delegation flag comes with
    name servers, no CNAME is put at a zone's root, and an address set is its node's own.  Glue from outside
    its zone is kept at nodes without flags.
   */
  ghost predicate LoadedSets(f: Flags, rrsets: seq<Rrset>, i: nat) {
    && NodeLegal(rrsets) && (CnameOf(rrsets).Some? ==> f != NO_FLAGS) && (IsDeleg(f) ==> HasType(rrsets, TYPE_NS))
    && (f.zroot ==> CnameOf(rrsets).None?) && AllNsShaped(FirstOf(rrsets, TYPE_NS))
    && (AddrOf(rrsets).Some? ==> AddrOf(rrsets).value.id == i)
  }

  ghost predicate LoadedAt(db: Db, i: nat)
    requires i < |db.data| == |db.v.flags|
  {
    LoadedSets(db.v.flags[i], db.data[i], i)
  }

  ghost predicate Loaded(db: Db) {
    && ViewOk(db.v) && |db.data| == |db.v.flags|
    && forall i {:trigger LoadedAt(db, i)} :: 0 <= i < |db.data| ==> LoadedAt(db, i)
  }

  /** What the run-time code depends on. */
  ghost predicate SoundAt(db: Db, i: nat)
    requires i < |db.data| == |db.v.flags|
  {
    && NodeLegal(db.data[i])
    && (db.v.flags[i].zroot ==> HasType(db.data[i], TYPE_SOA) && HasType(db.data[i], TYPE_NS))
    && (db.v.flags[i].deleg && !db.v.flags[i].zroot ==> HasType(db.data[i], TYPE_NS) && CnameOf(db.data[i]).None?)
    && (CnameOf(db.data[i]).Some? ==> |db.data[i]| == 1)
  }

  ghost predicate DbOk(db: Db) {
    && ViewOk(db.v) && |db.data| == |db.v.flags|
    && forall i {:trigger SoundAt(db, i)} :: 0 <= i < |db.data| ==> SoundAt(db, i)
  }

  /** The database is the one that was validated, with the addresses of name servers as validation found them. */
  ghost predicate Validated(db: Db, ck: Checks) {
    && AllPass(ck) && ck.v == db.v && Loaded(db) && ck.heads == HeadsOf(db.data) && |ck.facts| == |db.data|
    && forall i {:trigger ValidatedAt(db, ck, i)} :: 0 <= i < |db.data| ==> ValidatedAt(db, ck, i)
  }

  ghost predicate ValidatedAt(db: Db, ck: Checks, i: nat)
    requires ChecksOk(ck) && i < |db.data| == |db.v.flags| == |ck.heads| && LoadedAt(db, i)
  {
    && ck.facts[i] == FactsOf(db.data[i])
    && (HasServers(ck, i) ==> AdsFor(ck, i, AdsIn(FirstOf(db.data[i], TYPE_NS))))
  }

  /** Validation at load time is enough for run time. */
  lemma ValidationSuffices(db: Db, ck: Checks)
    requires Validated(db, ck)
    ensures DbOk(db)
  {
    forall i | 0 <= i < |db.data| ensures SoundAt(db, i) {
      SoundNode(db, ck, i);
    }
  }

  lemma SoundNode(db: Db, ck: Checks, i: nat)
    requires Validated(db, ck) && i < |db.data|
    ensures SoundAt(db, i)
  {
    assert LoadedAt(db, i) && ValidatedAt(db, ck, i) && NodePassed(ck, i);
    if IsDeleg(db.v.flags[i]) { CleanCut(ck, i); }
  }

  lemma HeadsAreLegal(db: Db)
    requires DbOk(db)
    ensures HeadsLegal(db.v, HeadsOf(db.data)) && CutsClean(db.v, HeadsOf(db.data))
  {
    var heads := HeadsOf(db.data);
    forall i | 0 <= i < |heads| ensures IsLink(heads[i]) ==> IsDname(heads[i].target)
      ensures db.v.flags[i].deleg && !db.v.flags[i].zroot ==> heads[i].NoCname? {
      assert SoundAt(db, i);
      CnameLegal(db.data[i]);
    }
  }

  lemma CnameLegal(rrsets: seq<Rrset>)
    requires NodeLegal(rrsets)
    ensures CnameOf(rrsets).Some? ==> RrsetLegal(CnameOf(rrsets).value)
  {
    if CnameOf(rrsets).Some? {
      var i :| 0 <= i < |rrsets| && rrsets[i] == CnameOf(rrsets).value;
      assert RrsetLegal(rrsets[i]);
    }
  }

  /** Where the first record set is a CNAME it is the only one; where it is not, there is none. */
  lemma CnameFirst(db: Db, i: nat)
    requires DbOk(db) && i < |db.data|
    ensures IsCname(db.data[i]) <==> CnameOf(db.data[i]).Some?
    ensures IsCname(db.data[i]) ==> CnameOf(db.data[i]) == Some(db.data[i][0]) && RrsetLegal(db.data[i][0])
  {
    assert SoundAt(db, i);
    CnameLegal(db.data[i]);
  }

  predicate IsCname(rrsets: seq<Rrset>) {
    rrsets != [] && rrsets[0].CnameRrset?
  }

  // ---- The chain -----------------------------------------------------------------------

  /** The CNAME nodes `ns` followed from a question, each found in its zone of `zs`. */
  datatype Trail = Trail(question: Name, ns: seq<nat>, zs: seq<nat>)

  ghost predicate Began(v: LookupRule.View, question: Name, n: nat, z: nat)
    requires ViewOk(v)
  {
    exists cut :: RunAnswer(v, question, Auth, Some(n), Some(z), cut)
  }

  ghost predicate TrailOk(db: Db, t: Trail)
    requires DbOk(db)
  {
    HeadsAreLegal(db);
    |t.ns| == |t.zs| &&
    (t.ns != [] ==> RunPath(db.v, HeadsOf(db.data), false, t.ns, t.zs) && Began(db.v, t.question, t.ns[0], t.zs[0]))
  }

  /** The name reached after the first `k` CNAMEs of a trail. */
  ghost function NameAfter(db: Db, t: Trail, k: nat): Name
    requires DbOk(db) && TrailOk(db, t) && k <= |t.ns|
  {
    HeadsAreLegal(db);
    if k == 0 then t.question else TargetOf(HeadsOf(db.data)[t.ns[k - 1]])
  }

  ghost function NameAtEnd(db: Db, t: Trail): Name
    requires DbOk(db) && TrailOk(db, t)
  {
    NameAfter(db, t, |t.ns|)
  }

  /** The search for the name at the trail's end gave `f`, and passed through the trail's last zone. */
  ghost predicate Arrived(db: Db, t: Trail, f: Found, cut: nat)
    requires DbOk(db) && TrailOk(db, t)
  {
    && RunAnswer(db.v, NameAtEnd(db, t), f.status, f.node, f.zone, cut)
    && (t.ns != [] ==> Crosses(db.v, NameAtEnd(db, t), t.zs[|t.zs| - 1]))
  }

  ghost function Further(t: Trail, n: nat, z: nat): Trail {
    Trail(t.question, t.ns + [n], t.zs + [z])
  }

  lemma TrailStep(db: Db, t: Trail, f: Found, cut: nat, i: nat)
    requires DbOk(db) && TrailOk(db, t) && Arrived(db, t, f, cut)
    requires f.node == Some(i) && i < |db.data| && IsCname(db.data[i])
    ensures f.status == Auth && f.zone.Some? && f.zone.value < |db.data|
    ensures TrailOk(db, Further(t, i, f.zone.value))
    ensures IsDname(db.data[i][0].target) && |db.data[i][0].ttl| == 4
    ensures NameAtEnd(db, Further(t, i, f.zone.value)) == LabelsAt(db.data[i][0].target[1..], 0)
  {
    HeadsAreLegal(db);
    CnameFirst(db, i);
    var heads := HeadsOf(db.data);
    NoLinkAtCut(db.v, heads, NameAtEnd(db, t), f.status, i, f.zone, cut);
    AnswerHasZone(db.v, NameAtEnd(db, t), f, cut);
    PathFurther(db.v, heads, t.ns, t.zs, i, f.zone.value, NameAtEnd(db, t), f, cut);
    if t.ns == [] { assert Began(db.v, t.question, i, f.zone.value); }
  }

  lemma AnswerHasZone(v: LookupRule.View, name: Name, f: Found, cut: nat)
    requires ViewOk(v) && RunAnswer(v, name, f.status, f.node, f.zone, cut) && f.status == Auth
    ensures f.zone.Some? && f.zone.value < |v.kids| && v.flags[f.zone.value].zroot
  {
    var e :| IsEncloser(v, name, e) && RunAnswerAt(v, name, e, f.status, f.node, f.zone, cut);
    ZoneExists(v, name, e);
    assert !NoZone(v, name, e);
    var j :| DeepestZone(v, name, e, j);
  }

  lemma PathFurther(v: LookupRule.View, heads: seq<Head>, ns: seq<nat>, zs: seq<nat>, i: nat, z: nat, name: Name,
                    f: Found, cut: nat)
    requires HeadsLegal(v, heads) && i < |heads| && IsLink(heads[i]) && z < |heads| && |ns| == |zs|
    requires RunAnswer(v, name, f.status, f.node, f.zone, cut) && f.node == Some(i) && f.zone == Some(z)
    requires ns != [] ==> RunPath(v, heads, false, ns, zs) && name == TargetOf(heads[ns[|ns| - 1]]) &&
                          Crosses(v, name, zs[|zs| - 1])
    ensures RunPath(v, heads, false, ns + [i], zs + [z])
  {
    if ns != [] {
      assert RunStep(v, heads, ns[|ns| - 1], zs[|zs| - 1], i, z) by {
        assert RunAnswer(v, TargetOf(heads[ns[|ns| - 1]]), f.status, Some(i), Some(z), cut);
      }
      StepsFurther(v, heads, ns, zs, i, z);
    }
  }

  lemma StepsFurther(v: LookupRule.View, heads: seq<Head>, ns: seq<nat>, zs: seq<nat>, i: nat, z: nat)
    requires HeadsLegal(v, heads) && RunPath(v, heads, false, ns, zs) && i < |heads| && IsLink(heads[i])
    requires RunStep(v, heads, ns[|ns| - 1], zs[|zs| - 1], i, z)
    ensures RunPath(v, heads, false, ns + [i], zs + [z])
  {
    var ns', zs' := ns + [i], zs + [z];
    forall k | 0 <= k < |ns'| - 1 ensures SteppedAt(v, heads, ns', zs', k) {
      if k < |ns| - 1 { assert SteppedAt(v, heads, ns, zs, k); }
    }
  }

  // ---- The chain's records ---------------------------------------------------------------

  /** A record is the CNAME found under `name`. */
  ghost predicate IsCnameRecord(p: Bytes, it: Item, name: Name, r: Rrset) {
    && r.CnameRrset? && r.target != [] && it.rr == CnameRr(it.rr.owner, r.target, r.ttl)
    && HEADER <= it.rr.owner < POINTER_SPAN && Denotes(p, it.rr.owner, name)
  }

  ghost predicate ChainItem(p: Bytes, rs: seq<Item>, db: Db, t: Trail, k: nat)
    requires DbOk(db) && TrailOk(db, t) && k < |t.ns| && k < |rs|
  {
    t.ns[k] < |db.data| && db.data[t.ns[k]] != [] && IsCnameRecord(p, rs[k], NameAfter(db, t, k), db.data[t.ns[k]][0])
  }

  /** The records are the trail's first `n` CNAMEs, each under the name it was found at. */
  ghost predicate ChainShown(p: Bytes, rs: seq<Item>, db: Db, t: Trail, n: nat)
    requires DbOk(db) && TrailOk(db, t)
  {
    && n <= |t.ns| && n <= |rs|
    && forall k {:trigger ChainItem(p, rs, db, t, k)} :: 0 <= k < n ==> ChainItem(p, rs, db, t, k)
  }

  lemma ChainFurther(p: Bytes, rs: seq<Item>, db: Db, t: Trail, i: nat, z: nat)
    requires DbOk(db) && TrailOk(db, t) && TrailOk(db, Further(t, i, z)) && ChainShown(p, rs, db, t, |t.ns|)
    ensures ChainShown(p, rs, db, Further(t, i, z), |t.ns|)
  {
    var t' := Further(t, i, z);
    forall k | 0 <= k < |t.ns| ensures ChainItem(p, rs, db, t', k) {
      assert ChainItem(p, rs, db, t, k) && t'.ns[k] == t.ns[k];
    }
  }

  lemma ChainGrows(p: Bytes, p': Bytes, rs: seq<Item>, rs': seq<Item>, db: Db, t: Trail, n: nat)
    requires DbOk(db) && TrailOk(db, t) && ChainShown(p, rs, db, t, n) && p <= p' && rs <= rs'
    ensures ChainShown(p', rs', db, t, n)
  {
    forall k | 0 <= k < n ensures ChainItem(p', rs', db, t, k) {
      assert ChainItem(p, rs, db, t, k);
      StillThere(p, p', rs[k].rr.owner, NameAfter(db, t, k));
    }
  }

  lemma ChainOneMore(p: Bytes, p': Bytes, rs: seq<Item>, rs': seq<Item>, db: Db, t: Trail, i: nat, owner: nat)
    requires DbOk(db) && TrailOk(db, t) && t.ns != [] && |rs| == |t.ns| - 1 && ChainShown(p, rs, db, t, |rs|) && p <= p'
    requires t.ns[|rs|] == i < |db.data| && IsCname(db.data[i]) && db.data[i][0].target != []
    requires OneMore(rs, rs', CnameRr(owner, db.data[i][0].target, db.data[i][0].ttl))
    requires HEADER <= owner < POINTER_SPAN && Denotes(p, owner, NameAfter(db, t, |rs|))
    ensures ChainShown(p', rs', db, t, |t.ns|)
  {
    ChainGrows(p, p', rs, rs', db, t, |rs|);
    StillThere(p, p', owner, NameAfter(db, t, |rs|));
    forall k | 0 <= k < |t.ns| ensures ChainItem(p', rs', db, t, k) {
      if k < |rs| { assert ChainItem(p', rs', db, t, k); }
    }
  }

  // ---- Following it ----------------------------------------------------------------------

  const MAX_CNAME_DEPTH := 24

  /** The longest question, header included, and the longest CNAME record. */
  const QUESTION_MAX := 271
  const CNAME_MAX := 267

  /** The response holds the trail's first `n` CNAMEs and nothing else; the current name is the one after them. */
  ghost predicate OnTrail(c: Context, db: Db, t: Trail, n: nat)
    requires DbOk(db) && TrailOk(db, t) && n <= |t.ns|
    reads c`packet, c`targets, c`log, c`qend, c`records, c`addtlStore, c`addtlRrsets, c`extras, c`addtlOwners, c`strayed
    reads c`answerAddr, c`addtlHasGlue, c`cnameAncount, c`ancount, c`nscount, c`arcount, c`qnameComp
  {
    && Ok(c) && c.ancount == 0 && c.nscount == 0 && c.cnameAncount == n && NoExtras(c)
    && |c.packet| <= QUESTION_MAX + CNAME_MAX * n && ChainShown(c.packet, c.records, db, t, n)
    && HEADER <= c.qnameComp < POINTER_SPAN && Denotes(c.packet, c.qnameComp, NameAfter(db, t, n))
  }

  /**
    One CNAME: its record, and the search for its target in the zone the chain is in.  A target outside
    that zone ends the chain without authority.
   */
  method ChainStep(c: Context, tree: LTree, data: seq<seq<Rrset>>, i: nat, zone: nat, ghost db: Db, ghost t: Trail)
    returns (f: Found, crossed: bool, ghost cut: nat)
    requires Serving(tree, data, db)
    requires TrailOk(db, t) && 0 < |t.ns| <= MAX_CNAME_DEPTH && i < |data| && IsCname(data[i])
    requires t.ns[|t.ns| - 1] == i && t.zs[|t.zs| - 1] == zone && OnTrail(c, db, t, |t.ns| - 1)
    requires IsDname(data[i][0].target) && |data[i][0].ttl| == 4
    requires NameAtEnd(db, t) == LabelsAt(data[i][0].target[1..], 0)
    modifies c`packet, c`targets, c`log, c`records, c`ancount, c`cnameAncount, c`qnameComp, c`authComp
    ensures OnTrail(c, db, t, |t.ns|) && old(c.packet) <= c.packet
    ensures crossed == Crosses(db.v, NameAtEnd(db, t), zone)
    ensures crossed ==> Arrived(db, t, f, cut)
    ensures crossed && f.status != NoAuth ==> Current(c, db.v, NameAtEnd(db, t), f, cut)
  {
    ChainRecord(c, data[i][0], db, t, i);
    f, crossed, cut := SearchTarget(c, tree, data[i][0].target, zone);
  }

  /** The record alone. */
  method ChainRecord(c: Context, r: Rrset, ghost db: Db, ghost t: Trail, ghost i: nat)
    requires DbOk(db) && TrailOk(db, t) && 0 < |t.ns| <= MAX_CNAME_DEPTH && i < |db.data| && IsCname(db.data[i])
    requires t.ns[|t.ns| - 1] == i && OnTrail(c, db, t, |t.ns| - 1) && r == db.data[i][0]
    requires IsDname(r.target) && |r.ttl| == 4 && NameAtEnd(db, t) == LabelsAt(r.target[1..], 0)
    modifies c`packet, c`targets, c`log, c`records, c`ancount, c`cnameAncount, c`qnameComp
    ensures OnTrail(c, db, t, |t.ns|) && old(c.packet) <= c.packet
  {
    ghost var p, rs, owner := c.packet, c.records, c.qnameComp;
    EncodeCname(c, r.target, r.ttl, false, NameAfter(db, t, |t.ns| - 1));
    ChainOneMore(p, c.packet, rs, c.records, db, t, i, owner);
  }

  /** How following the chain ended: at a name, outside the zone it was in, or at its limit. */
  datatype ChainEnd = AtName | LeftZone | OverDepth

  /** The response holds the whole trail, and the name at its end has been looked up. */
  ghost predicate AtHead(c: Context, db: Db, t: Trail, f: Found, cut: nat)
    requires DbOk(db)
    reads c`packet, c`targets, c`log, c`qend, c`records, c`addtlStore, c`addtlRrsets, c`extras, c`addtlOwners, c`strayed
    reads c`answerAddr, c`addtlHasGlue, c`cnameAncount, c`ancount, c`nscount, c`arcount, c`qnameComp, c`authComp
  {
    && TrailOk(db, t) && OnTrail(c, db, t, |t.ns|) && Arrived(db, t, f, cut)
    && (f.status != NoAuth ==> Current(c, db.v, NameAtEnd(db, t), f, cut))
    && (f.node.Some? ==> f.node.value < |db.data|)
  }

  /** The search for the question itself. */
  method StartChain(c: Context, tree: LTree, qname: Bytes, ghost db: Db)
    returns (f: Found, ghost t: Trail, ghost cut: nat)
    requires Serving(tree, db.data, db)
    requires IsDname(qname) && QuestionLiteral(c.packet, qname[1..])
    requires Ok(c) && c.records == [] && NoExtras(c) && |c.packet| <= QUESTION_MAX
    modifies c`qnameComp, c`authComp
    ensures t == Trail(LabelsAt(qname[1..], 0), [], []) && AtHead(c, db, t, f, cut)
  {
    t := Trail(LabelsAt(qname[1..], 0), [], []);
    f, cut := SearchQuestion(c, tree, qname);
    AnswerInside(db.v, NameAtEnd(db, t), f.status, f.node, f.zone, cut);
  }

  lemma OneFurther(p: Bytes, rs: seq<Item>, db: Db, t: Trail, f: Found, cut: nat, i: nat) returns (t': Trail)
    requires DbOk(db) && TrailOk(db, t) && Arrived(db, t, f, cut) && ChainShown(p, rs, db, t, |t.ns|)
    requires f.node == Some(i) && i < |db.data| && IsCname(db.data[i])
    ensures f.status == Auth && f.zone.Some? && f.zone.value < |db.data| && t' == Further(t, i, f.zone.value)
    ensures TrailOk(db, t') && ChainShown(p, rs, db, t', |t.ns|) && NameAfter(db, t', |t.ns|) == NameAtEnd(db, t)
    ensures IsDname(db.data[i][0].target) && |db.data[i][0].ttl| == 4
    ensures NameAtEnd(db, t') == LabelsAt(db.data[i][0].target[1..], 0)
  {
    TrailStep(db, t, f, cut, i);
    t' := Further(t, i, f.zone.value);
    ChainFurther(p, rs, db, t, i, f.zone.value);
  }

  /** One turn of the loop. */
  method ChaseOnce(c: Context, tree: LTree, data: seq<seq<Rrset>>, depth: nat, max: nat, f: Found,
                   ghost db: Db, ghost t: Trail, ghost cut: nat)
    returns (f': Found, end: ChainEnd, ghost t': Trail, ghost cut': nat)
    requires Serving(tree, data, db)
    requires AtHead(c, db, t, f, cut) && depth == |t.ns| <= max <= MAX_CNAME_DEPTH
    requires f.node.Some? && IsCname(data[f.node.value])
    modifies c`packet, c`targets, c`log, c`records, c`ancount, c`cnameAncount, c`qnameComp, c`authComp
    ensures TrailOk(db, t') && |t'.ns| == depth + 1 && t'.question == t.question && old(c.packet) <= c.packet
    ensures end == OverDepth <==> depth == max
    ensures end == LeftZone ==> OnTrail(c, db, t', |t'.ns|) && !Crosses(db.v, NameAtEnd(db, t'), t'.zs[depth])
    ensures end == AtName ==> AtHead(c, db, t', f', cut')
  {
    var i := f.node.value;
    t' := OneFurther(c.packet, c.records, db, t, f, cut, i);
    f', cut' := f, cut;
    if depth == max {
      return f', OverDepth, t', cut';
    }
    var crossed;
    f', crossed, cut' := ChainStep(c, tree, data, i, f.zone.value, db, t');
    if !crossed {
      return f', LeftZone, t', cut';
    }
    AnswerInside(db.v, NameAtEnd(db, t'), f'.status, f'.node, f'.zone, cut');
    end := AtName;
  }

  /**
    The search for the question and the loop that follows CNAMEs.  Over the depth limit the chain is
    given up; what the response then holds is not looked at any further.
   */
  method ChaseChain(c: Context, tree: LTree, data: seq<seq<Rrset>>, qname: Bytes, qtype: nat, max: nat, ghost db: Db)
    returns (f: Found, end: ChainEnd, ghost t: Trail, ghost cut: nat)
    requires Serving(tree, data, db)
    requires IsDname(qname) && QuestionLiteral(c.packet, qname[1..]) && max <= MAX_CNAME_DEPTH
    requires Ok(c) && c.records == [] && NoExtras(c) && |c.packet| <= QUESTION_MAX
    modifies c`packet, c`targets, c`log, c`records, c`ancount, c`cnameAncount, c`qnameComp, c`authComp
    ensures old(c.packet) <= c.packet && ChainEnded(c, db, qtype, max, LabelsAt(qname[1..], 0), f, end, t, cut)
  {
    f, t, cut := StartChain(c, tree, qname, db);
    var depth := 0;
    end := AtName;
    while f.node.Some? && IsCname(data[f.node.value]) && qtype != TYPE_CNAME
      invariant AtHead(c, db, t, f, cut) && depth == |t.ns| <= max && end == AtName
      invariant BeganFor(t, qtype, LabelsAt(qname[1..], 0)) && old(c.packet) <= c.packet
      decreases max - depth
    {
      f, end, t, cut := ChaseOnce(c, tree, data, depth, max, f, db, t, cut);
      depth := depth + 1;
      if end != AtName {
        EndsEarly(c, db, qtype, max, LabelsAt(qname[1..], 0), f, end, t, cut);
        return;
      }
    }
    EndsAtName(c, db, qtype, max, LabelsAt(qname[1..], 0), f, t, cut);
  }

  lemma EndsEarly(c: Context, db: Db, qtype: nat, max: nat, question: Name, f: Found, end: ChainEnd, t: Trail, cut: nat)
    requires DbOk(db) && TrailOk(db, t) && BeganFor(t, qtype, question) && end != AtName
    requires end == OverDepth ==> |t.ns| == max + 1
    requires end == LeftZone ==>
               0 < |t.ns| <= max && OnTrail(c, db, t, |t.ns|) && !Crosses(db.v, NameAtEnd(db, t), t.zs[|t.zs| - 1])
    ensures ChainEnded(c, db, qtype, max, question, f, end, t, cut)
  {
  }

  lemma EndsAtName(c: Context, db: Db, qtype: nat, max: nat, question: Name, f: Found, t: Trail, cut: nat)
    requires DbOk(db) && AtHead(c, db, t, f, cut) && |t.ns| <= max && BeganFor(t, qtype, question)
    requires !(f.node.Some? && IsCname(db.data[f.node.value]) && qtype != TYPE_CNAME)
    ensures ChainEnded(c, db, qtype, max, question, f, AtName, t, cut)
  {
    if f.node.Some? { CnameFirst(db, f.node.value); }
  }

  /** The tree is the database's, and loaded. */
  ghost predicate Serving(tree: LTree, data: seq<seq<Rrset>>, db: Db)
    reads tree
  {
    DbOk(db) && db.data == data && tree.Valid() && !tree.loading && db.v == tree.View()
  }

  /** How the chain from a question ended, and where the response stands. */
  ghost predicate ChainEnded(c: Context, db: Db, qtype: nat, max: nat, question: Name, f: Found, end: ChainEnd,
                             t: Trail, cut: nat)
    requires DbOk(db)
    reads c`packet, c`targets, c`log, c`qend, c`records, c`addtlStore, c`addtlRrsets, c`extras, c`addtlOwners, c`strayed
    reads c`answerAddr, c`addtlHasGlue, c`cnameAncount, c`ancount, c`nscount, c`arcount, c`qnameComp, c`authComp
  {
    && TrailOk(db, t) && BeganFor(t, qtype, question)
    && match end
       case OverDepth => |t.ns| == max + 1
       case LeftZone =>
         0 < |t.ns| <= max && OnTrail(c, db, t, |t.ns|) && !Crosses(db.v, NameAtEnd(db, t), t.zs[|t.zs| - 1])
       case AtName =>
         && |t.ns| <= max && AtHead(c, db, t, f, cut)
         && Stopped(db, qtype, f)
  }

  /** The trail is a question's; a query for CNAMEs follows none. */
  ghost predicate BeganFor(t: Trail, qtype: nat, question: Name) {
    t.question == question && (qtype == TYPE_CNAME ==> t.ns == [])
  }

  /** The chain does not end at a CNAME, unless that is what was asked for. */
  ghost predicate Stopped(db: Db, qtype: nat, f: Found) {
    f.node.Some? && qtype != TYPE_CNAME ==> f.node.value < |db.data| && CnameOf(db.data[f.node.value]).None?
  }

  /** The limit is reached only through a dynamic CNAME: validation has bounded all chains of static ones. */
  lemma OverDepthIsDynamic(db: Db, ck: Checks, t: Trail)
    requires Validated(db, ck) && DbOk(db) && TrailOk(db, t) && |t.ns| == ck.max + 1
    ensures exists k :: 0 <= k < |t.ns| && t.ns[k] < |db.data| && HeadOf(db.data[t.ns[k]]).DynamicCname?
  {
    HeadsAreLegal(db);
    var heads := HeadsOf(db.data);
    if forall k :: 0 <= k < |t.ns| ==> heads[t.ns[k]].StaticCname? {
      var node, zone := t.ns[0], t.zs[0];
      var cut :| RunAnswer(db.v, t.question, Auth, Some(node), Some(zone), cut);
      assert LoadedAt(db, node);
      assert RunPath(ck.v, ck.heads, true, t.ns, t.zs);
      NoStaticChainTooLong(ck, t.question, node, zone, cut, t.ns, t.zs);
    }
  }

  // ---- The response to what was found ------------------------------------------------------

  /** The zone's name: the part of the current name at the deepest cut. */
  ghost function ZoneName(db: Db, t: Trail, cut: nat): Name
    requires DbOk(db) && TrailOk(db, t) && cut <= |NameAtEnd(db, t)|
  {
    var name := NameAtEnd(db, t);
    name[|name| - cut..]
  }

  /** What of the response a reader can tell, and the two offsets record owners repeat. */
  datatype Shot = Shot(packet: Bytes, records: seq<Item>, ancount: nat, nscount: nat, cnameAncount: nat,
                       qnameComp: nat, authComp: nat)

  ghost function ShotOf(c: Context): Shot
    reads c`packet, c`records, c`ancount, c`nscount, c`cnameAncount, c`qnameComp, c`authComp
  {
    Shot(c.packet, c.records, c.ancount, c.nscount, c.cnameAncount, c.qnameComp, c.authComp)
  }

  /** The two offsets are of the current name and of its zone's name. */
  ghost predicate Named(s: Shot, db: Db, t: Trail, cut: nat)
    requires DbOk(db) && TrailOk(db, t)
  {
    cut <= |NameAtEnd(db, t)| && NamesIn(s.packet, s.qnameComp, s.authComp, NameAtEnd(db, t), ZoneName(db, t, cut))
  }

  lemma DelegNode(v: LookupRule.View, name: Name, f: Found, cut: nat)
    requires ViewOk(v) && RunAnswer(v, name, f.status, f.node, f.zone, cut) && f.status == Deleg
    ensures f.node.Some? && f.node.value < |v.kids| && v.flags[f.node.value].deleg && !v.flags[f.node.value].zroot
  {
    var e :| IsEncloser(v, name, e) && RunAnswerAt(v, name, e, f.status, f.node, f.zone, cut);
  }

  /** What was asked: the type, and whether name servers are added to positive answers. */
  datatype Query = Query(qtype: nat, optionalNs: bool)

  /** The records after the chain answer an authoritative query: `answered` up to the end of the answer section. */
  ghost predicate AuthShown(c: Shot, db: Db, f: Found, query: Query, from: nat, answered: seq<Item>) {
    && from <= |answered| && answered <= c.records
    && c.ancount == |answered| - from && c.nscount == |c.records| - |answered|
    && f.zone.Some? && f.zone.value < |db.data| && (f.node.Some? ==> f.node.value < |db.data|)
    && match f.node
       case Some(i) =>
         && NormalShown(answered, from, query.qtype, db.data[i], c.qnameComp, c.authComp)
         && AuthorityShown(answered, c.records, c.ancount, db.data[f.zone.value],
                           AddsNs(query.qtype, query.optionalNs, f.node == f.zone), c.authComp)
       case None =>
         |answered| == from && AuthorityShown(answered, c.records, 0, db.data[f.zone.value], false, c.authComp)
  }

  /**
    The additional section of an authoritative response: what the records of its answer and authority
    sections call for, and the other family of addresses if addresses were asked for.
   */
  ghost predicate AuthExtras(x: Extras, db: Db, f: Found, query: Query, ancount: nat, name: Name, max: nat) {
    && f.zone.Some? && f.zone.value < |db.data| && (f.node.Some? ==> f.node.value < |db.data|)
    && match f.node
       case Some(i) =>
         var authority :=
           AuthorityRecords(ancount, db.data[f.zone.value], AddsNs(query.qtype, query.optionalNs, f.node == f.zone));
         || NormalExtras(x, query.qtype, db.data[i], name, max, 0, authority)
         || NormalExtras(x, query.qtype, db.data[i], name, max, 1, authority)
       case None => x.answer == None && AddtlShown(x, FirstOf(db.data[f.zone.value], TYPE_SOA), max, 0)
  }

  method AnswerAuth(c: Context, data: seq<seq<Rrset>>, query: Query, f: Found, ghost db: Db, ghost t: Trail,
                    ghost cut: nat)
    returns (ghost answered: seq<Item>)
    requires DbOk(db) && db.data == data && AtHead(c, db, t, f, cut) && f.status == Auth && |t.ns| <= MAX_CNAME_DEPTH
    requires query.qtype != TYPE_CNAME && f.node.Some? ==> CnameOf(data[f.node.value]).None?
    modifies c
    ensures Ok(c) && old(c.packet) <= c.packet && c.qend == old(c.qend) && ChainThere(ShotOf(c), db, t, cut)
    ensures AuthShown(ShotOf(c), db, f, query, |t.ns|, answered)
    ensures AuthExtras(ExtrasOf(c), db, f, query, c.ancount, NameAtEnd(db, t), c.maxAddtl)
  {
    AnswerHasZone(db.v, NameAtEnd(db, t), f, cut);
    if f.node.Some? {
      answered := AnswerNode(c, data, query, f, f.node.value, f.zone.value, db, t, cut);
    } else {
      answered := AnswerNone(c, data, f, f.zone.value, query, db, t, cut);
    }
  }

  method AnswerNode(c: Context, data: seq<seq<Rrset>>, query: Query, f: Found, i: nat, z: nat,
                    ghost db: Db, ghost t: Trail, ghost cut: nat) returns (ghost answered: seq<Item>)
    requires DbOk(db) && db.data == data && TrailOk(db, t) && OnTrail(c, db, t, |t.ns|) && Named(ShotOf(c), db, t, cut)
    requires |t.ns| <= MAX_CNAME_DEPTH && f.node == Some(i) && f.zone == Some(z) && z < |data| && db.v.flags[z].zroot
    requires i < |data| && (query.qtype != TYPE_CNAME ==> CnameOf(data[i]).None?)
    modifies c
    ensures Ok(c) && old(c.packet) <= c.packet && c.qend == old(c.qend) && ChainThere(ShotOf(c), db, t, cut)
    ensures AuthShown(ShotOf(c), db, f, query, |t.ns|, answered)
    ensures AuthExtras(ExtrasOf(c), db, f, query, c.ancount, NameAtEnd(db, t), c.maxAddtl)
  {
    assert SoundAt(db, z) && SoundAt(db, i);
    ghost var p, rs := c.packet, c.records;
    ghost var own;
    answered, own := ConstructNormal(c, query.qtype, data[i], data[z], i == z, query.optionalNs,
                                     NameAtEnd(db, t), ZoneName(db, t, cut));
    ChainGrows(p, c.packet, rs, c.records, db, t, |t.ns|);
    NodeShown(ShotOf(c), ExtrasOf(c), db, f, query, |rs|, answered, NameAtEnd(db, t), c.maxAddtl, own);
  }

  lemma NodeShown(s: Shot, x: Extras, db: Db, f: Found, query: Query, from: nat, answered: seq<Item>, name: Name,
                  max: nat, own: nat)
    requires f.zone.Some? && f.zone.value < |db.data| && f.node.Some? && f.node.value < |db.data|
    requires from <= |answered| && answered <= s.records
    requires s.ancount == |answered| - from && s.nscount == |s.records| - |answered|
    requires NormalShown(answered, from, query.qtype, db.data[f.node.value], s.qnameComp, s.authComp)
    requires AuthorityPut(answered, s.records, x, s.ancount, query.qtype, db.data[f.node.value], db.data[f.zone.value],
                          AddsNs(query.qtype, query.optionalNs, f.node.value == f.zone.value), name, s.authComp,
                          max, own)
    ensures AuthShown(s, db, f, query, from, answered) && AuthExtras(x, db, f, query, s.ancount, name, max)
  {
  }

  method AnswerNone(c: Context, data: seq<seq<Rrset>>, f: Found, z: nat,
                    ghost query: Query, ghost db: Db, ghost t: Trail, ghost cut: nat)
    returns (ghost answered: seq<Item>)
    requires DbOk(db) && db.data == data && TrailOk(db, t) && OnTrail(c, db, t, |t.ns|) && Named(ShotOf(c), db, t, cut)
    requires f.node == None && f.zone == Some(z) && z < |data| && db.v.flags[z].zroot
    modifies c
    ensures Ok(c) && old(c.packet) <= c.packet && c.qend == old(c.qend) && ChainThere(ShotOf(c), db, t, cut)
    ensures AuthShown(ShotOf(c), db, f, query, |t.ns|, answered)
    ensures AuthExtras(ExtrasOf(c), db, f, query, c.ancount, NameAtEnd(db, t), c.maxAddtl)
  {
    assert SoundAt(db, z);
    answered := c.records;
    ghost var p, x := c.packet, ExtrasOf(c);
    var soa := GetRrset(data[z], TYPE_SOA);
    EncodePlain(c, TYPE_SOA, soa, false, NameAtEnd(db, t), ZoneName(db, t, cut));
    FirstShown(x, ExtrasOf(c), soa, c.maxAddtl);
    ChainGrows(p, c.packet, answered, c.records, db, t, |t.ns|);
  }

  /** A referral: the delegation's name servers. */
  ghost predicate ReferralShown(s: Shot, rrs: seq<RrData>, from: nat) {
    s.ancount == 0 && s.nscount == |rrs| && |s.records| == from + |rrs| && PlainShown(s.records, from, s.authComp, rrs)
  }

  /** Their addresses, unless the list is full, and whether any of them is glue. */
  ghost predicate ReferralExtras(x: Extras, rrs: seq<RrData>, max: nat) {
    x.answer == None && AddtlShown(x, rrs, max, 0)
  }

  /** The first set shown. */
  lemma FirstShown(x: Extras, x': Extras, rrs: seq<RrData>, max: nat)
    requires x.rrsets == [] && x.owners == [] && !x.glue && GrewBy(x, x', rrs, max)
    ensures AddtlShown(x', rrs, max, 0)
  {
    NothingShown(x, max);
    AddtlMore(x, x', [], rrs, max, 0);
    assert [] + rrs == rrs;
  }

  lemma ReferralMade(s: Shot, rs: seq<Item>, x: Extras, x': Extras, ns: seq<RrData>, max: nat)
    requires PlainPut(rs, s.records, s.authComp, ns) && s.ancount == 0 && s.nscount == |ns|
    requires x.rrsets == [] && x.owners == [] && x.answer == None && !x.glue && GrewBy(x, x', ns, max)
    ensures ReferralShown(s, ns, |rs|) && ReferralExtras(x', ns, max)
  {
    FirstShown(x, x', ns, max);
  }

  method AnswerDeleg(c: Context, data: seq<seq<Rrset>>, f: Found, ghost db: Db, ghost t: Trail, ghost cut: nat)
    requires DbOk(db) && db.data == data && AtHead(c, db, t, f, cut) && f.status == Deleg
    modifies c
    ensures Ok(c) && old(c.packet) <= c.packet && c.qend == old(c.qend) && ChainThere(ShotOf(c), db, t, cut)
    ensures f.node.Some? && f.node.value < |data|
    ensures ReferralShown(ShotOf(c), FirstOf(data[f.node.value], TYPE_NS), |t.ns|)
    ensures ReferralExtras(ExtrasOf(c), FirstOf(data[f.node.value], TYPE_NS), c.maxAddtl)
  {
    DelegNode(db.v, NameAtEnd(db, t), f, cut);
    assert SoundAt(db, f.node.value);
    AnswerServers(c, data[f.node.value], db, t, cut);
  }

  method AnswerServers(c: Context, rrsets: seq<Rrset>, ghost db: Db, ghost t: Trail, ghost cut: nat)
    requires DbOk(db) && TrailOk(db, t) && OnTrail(c, db, t, |t.ns|) && Named(ShotOf(c), db, t, cut)
    requires NodeLegal(rrsets) && HasType(rrsets, TYPE_NS)
    modifies c`packet, c`targets, c`log, c`records, c`addtlStore, c`extras, c`strayed, c`addtlRrsets, c`addtlOwners,
             c`arcount, c`addtlHasGlue, c`ancount, c`nscount
    ensures Ok(c) && old(c.packet) <= c.packet && ChainThere(ShotOf(c), db, t, cut)
    ensures ReferralShown(ShotOf(c), FirstOf(rrsets, TYPE_NS), |t.ns|)
    ensures ReferralExtras(ExtrasOf(c), FirstOf(rrsets, TYPE_NS), c.maxAddtl)
  {
    ghost var p, rs, x := c.packet, c.records, ExtrasOf(c);
    var ns := GetRrset(rrsets, TYPE_NS);
    EncodePlain(c, TYPE_NS, ns, false, NameAtEnd(db, t), ZoneName(db, t, cut));
    ReferralMade(ShotOf(c), rs, x, ExtrasOf(c), ns, c.maxAddtl);
    ChainGrows(p, c.packet, rs, c.records, db, t, |t.ns|);
  }

  /** How a query was answered; `rcode` and `aa` are the header's. */
  datatype Reply = Reply(end: ChainEnd, found: Found, rcode: Byte, aa: bool)

  const NOERROR := 0
  const NXDOMAIN := 3
  const REFUSED := 5

  /**
    The response is what the database has for the question: the whole chain of CNAMEs, none if a CNAME was
    asked for, and what is at its end.
   */
  ghost predicate Responded(s: Shot, db: Db, query: Query, reply: Reply, t: Trail, cut: nat, answered: seq<Item>)
    requires DbOk(db)
  {
    && TrailOk(db, t) && ChainShown(s.packet, s.records, db, t, |t.ns|) && s.cnameAncount == |t.ns|
    && (query.qtype == TYPE_CNAME ==> t.ns == []) && (reply.end == AtName ==> Stopped(db, query.qtype, reply.found))
    && reply.aa == (t.ns != [] || reply.found.status == Auth)
    && match (reply.end, reply.found.status)
       case (AtName, Auth) =>
         && Arrived(db, t, reply.found, cut) && Named(s, db, t, cut)
         && AuthShown(s, db, reply.found, query, |t.ns|, answered)
         && reply.rcode == (if reply.found.node.None? then NXDOMAIN else NOERROR)
       case (AtName, Deleg) =>
         && Arrived(db, t, reply.found, cut) && Named(s, db, t, cut) && reply.rcode == NOERROR
         && reply.found.node.Some? && reply.found.node.value < |db.data|
         && ReferralShown(s, FirstOf(db.data[reply.found.node.value], TYPE_NS), |t.ns|)
       case (AtName, NoAuth) =>
         && Arrived(db, t, reply.found, cut) && |s.records| == |t.ns| && s.ancount == 0 && s.nscount == 0
         && reply.rcode == (if t.ns == [] then REFUSED else NOERROR)
       case (LeftZone, _) =>
         && |s.records| == |t.ns| > 0 && s.ancount == 0 && s.nscount == 0
         && reply.found.status == NoAuth && reply.rcode == NOERROR
         && !Crosses(db.v, NameAtEnd(db, t), t.zs[|t.zs| - 1])
       case (OverDepth, _) => false
  }

  /** It stays so when more is appended to the packet. */
  lemma RespondedGrows(s: Shot, p: Bytes, db: Db, query: Query, reply: Reply, t: Trail, cut: nat, answered: seq<Item>)
    requires DbOk(db) && Responded(s, db, query, reply, t, cut, answered) && s.packet <= p
    ensures Responded(s.(packet := p), db, query, reply, t, cut, answered)
  {
    ChainGrows(s.packet, p, s.records, s.records, db, t, |t.ns|);
    if reply.end == AtName && reply.found.status != NoAuth {
      NamesKept(s.packet, p, s.qnameComp, s.authComp, NameAtEnd(db, t), ZoneName(db, t, cut));
    }
  }

  /** The name servers a reply refers to; none if it is no referral. */
  ghost function ReferredTo(db: Db, reply: Reply): seq<RrData> {
    if reply.end == AtName && reply.found.status == Deleg && reply.found.node.Some? &&
      reply.found.node.value < |db.data| then
      FirstOf(db.data[reply.found.node.value], TYPE_NS)
    else []
  }

  /** The additional section before trimming is what the response calls for. */
  ghost predicate AddtlFor(x: Extras, db: Db, query: Query, reply: Reply, t: Trail, ancount: nat, max: nat)
    requires DbOk(db) && TrailOk(db, t)
  {
    match (reply.end, reply.found.status)
    case (AtName, Auth) => AuthExtras(x, db, reply.found, query, ancount, NameAtEnd(db, t), max)
    case (AtName, Deleg) => ReferralExtras(x, ReferredTo(db, reply), max)
    case _ => x.rrsets == [] && x.owners == [] && !x.glue
  }

  /** `answer_from_db`. */
  method AnswerFromDb(c: Context, tree: LTree, data: seq<seq<Rrset>>, qname: Bytes, query: Query, max: nat,
                      ghost db: Db)
    returns (reply: Reply, ghost t: Trail, ghost cut: nat, ghost answered: seq<Item>)
    requires Serving(tree, data, db)
    requires IsDname(qname) && QuestionLiteral(c.packet, qname[1..]) && max <= MAX_CNAME_DEPTH
    requires Ok(c) && c.records == [] && NoExtras(c) && |c.packet| <= QUESTION_MAX
    modifies c
    ensures TrailOk(db, t) && t.question == LabelsAt(qname[1..], 0) && old(c.packet) <= c.packet
    ensures c.qend == old(c.qend)
    ensures |t.ns| <= max + 1 && (reply.end == OverDepth <==> |t.ns| == max + 1)
    ensures query.qtype == TYPE_CNAME ==> t.ns == []
    ensures reply.end != OverDepth ==> Ok(c) && Responded(ShotOf(c), db, query, reply, t, cut, answered)
    ensures reply.end != OverDepth ==> AddtlFor(ExtrasOf(c), db, query, reply, t, c.ancount, c.maxAddtl)
  {
    var f, end;
    f, end, t, cut := ChaseChain(c, tree, data, qname, query.qtype, max, db);
    answered := [];
    if end == OverDepth {
      return Reply(OverDepth, f, NXDOMAIN, true), t, cut, answered;
    }
    if end == LeftZone {
      return Reply(LeftZone, f.(status := NoAuth), NOERROR, true), t, cut, answered;
    }
    reply, answered := AnswerFound(c, data, query, f, db, t, cut);
  }

  /** The response to what the last search found. */
  method AnswerFound(c: Context, data: seq<seq<Rrset>>, query: Query, f: Found, ghost db: Db, ghost t: Trail,
                     ghost cut: nat)
    returns (reply: Reply, ghost answered: seq<Item>)
    requires DbOk(db) && db.data == data && AtHead(c, db, t, f, cut) && |t.ns| <= MAX_CNAME_DEPTH
    requires Stopped(db, query.qtype, f) && (query.qtype == TYPE_CNAME ==> t.ns == [])
    modifies c
    ensures Ok(c) && old(c.packet) <= c.packet && c.qend == old(c.qend) && reply.end == AtName
    ensures Responded(ShotOf(c), db, query, reply, t, cut, answered)
    ensures AddtlFor(ExtrasOf(c), db, query, reply, t, c.ancount, c.maxAddtl)
  {
    var viaCname := c.cnameAncount > 0;
    answered := [];
    match f.status {
      case Auth =>
        reply := Reply(AtName, f, if f.node.Some? then NOERROR else NXDOMAIN, true);
        answered := AnswerAuth(c, data, query, f, db, t, cut);
        AuthReply(ShotOf(c), ExtrasOf(c), db, query, reply, t, cut, answered, c.maxAddtl);
      case Deleg =>
        reply := Reply(AtName, f, NOERROR, viaCname);
        AnswerDeleg(c, data, f, db, t, cut);
        DelegReply(ShotOf(c), ExtrasOf(c), db, query, reply, t, cut, c.maxAddtl);
      case NoAuth =>
        reply := Reply(AtName, f, if viaCname then NOERROR else REFUSED, viaCname);
    }
  }

  /** The chain is shown, and the current name and its zone's are known. */
  ghost predicate ChainThere(s: Shot, db: Db, t: Trail, cut: nat)
    requires DbOk(db)
  {
    TrailOk(db, t) && Named(s, db, t, cut) && ChainShown(s.packet, s.records, db, t, |t.ns|) && s.cnameAncount == |t.ns|
  }

  lemma AuthReply(s: Shot, x: Extras, db: Db, query: Query, reply: Reply, t: Trail, cut: nat, answered: seq<Item>,
                  max: nat)
    requires DbOk(db) && ChainThere(s, db, t, cut) && Arrived(db, t, reply.found, cut)
    requires reply.found.status == Auth && AuthShown(s, db, reply.found, query, |t.ns|, answered)
    requires AuthExtras(x, db, reply.found, query, s.ancount, NameAtEnd(db, t), max)
    requires reply == Reply(AtName, reply.found, if reply.found.node.Some? then NOERROR else NXDOMAIN, true)
    requires Stopped(db, query.qtype, reply.found) && (query.qtype == TYPE_CNAME ==> t.ns == [])
    ensures Responded(s, db, query, reply, t, cut, answered) && AddtlFor(x, db, query, reply, t, s.ancount, max)
  {
  }

  lemma DelegReply(s: Shot, x: Extras, db: Db, query: Query, reply: Reply, t: Trail, cut: nat, max: nat)
    requires DbOk(db) && ChainThere(s, db, t, cut) && Arrived(db, t, reply.found, cut)
    requires reply.found.status == Deleg && reply.found.node.Some? && reply.found.node.value < |db.data|
    requires ReferralShown(s, FirstOf(db.data[reply.found.node.value], TYPE_NS), |t.ns|)
    requires ReferralExtras(x, FirstOf(db.data[reply.found.node.value], TYPE_NS), max)
    requires reply == Reply(AtName, reply.found, NOERROR, t.ns != [])
    requires Stopped(db, query.qtype, reply.found) && (query.qtype == TYPE_CNAME ==> t.ns == [])
    ensures Responded(s, db, query, reply, t, cut, []) && AddtlFor(x, db, query, reply, t, s.ancount, max)
    ensures ReferredTo(db, reply) == FirstOf(db.data[reply.found.node.value], TYPE_NS)
  {
  }

  // ---- There is one response ---------------------------------------------------------------

  /** The search for the name after the first `k` CNAMEs of a trail leads to the next one. */
  ghost predicate LeadsOn(db: Db, t: Trail, k: nat)
    requires DbOk(db) && TrailOk(db, t) && k < |t.ns|
  {
    exists status, cut :: RunAnswer(db.v, NameAfter(db, t, k), status, Some(t.ns[k]), Some(t.zs[k]), cut)
  }

  lemma Leads(db: Db, t: Trail, k: nat)
    requires DbOk(db) && TrailOk(db, t) && k < |t.ns|
    ensures LeadsOn(db, t, k)
  {
    if k == 0 { StartLeads(db, t, k); } else { StepLeads(db, t, k - 1, k); }
  }

  lemma LinkOnTrail(db: Db, t: Trail, k: nat)
    requires DbOk(db) && TrailOk(db, t) && k < |t.ns|
    ensures t.ns[k] < |db.data| && CnameOf(db.data[t.ns[k]]).Some?
  {
    HeadsAreLegal(db);
    assert Linked(HeadsOf(db.data)[t.ns[k]], false);
  }

  lemma StartLeads(db: Db, t: Trail, k: nat)
    requires DbOk(db) && TrailOk(db, t) && k == 0 < |t.ns|
    ensures LeadsOn(db, t, k)
  {
    var cut :| RunAnswer(db.v, t.question, Auth, Some(t.ns[0]), Some(t.zs[0]), cut);
    assert RunAnswer(db.v, NameAfter(db, t, k), Auth, Some(t.ns[k]), Some(t.zs[k]), cut);
  }

  lemma StepLeads(db: Db, t: Trail, j: nat, k: nat)
    requires DbOk(db) && TrailOk(db, t) && k == j + 1 < |t.ns|
    ensures LeadsOn(db, t, k) && Crosses(db.v, NameAfter(db, t, k), t.zs[j])
  {
    HeadsAreLegal(db);
    assert SteppedAt(db.v, HeadsOf(db.data), t.ns, t.zs, j);
    var status, cut :| RunAnswer(db.v, NameAfter(db, t, k), status, Some(t.ns[k]), Some(t.zs[k]), cut);
  }

  /** One search leads to one place. */
  lemma OneWayOn(db: Db, t: Trail, u: Trail, j: nat)
    requires DbOk(db) && TrailOk(db, t) && TrailOk(db, u) && j < |t.ns| && j < |u.ns|
    requires NameAfter(db, t, j) == NameAfter(db, u, j)
    ensures t.ns[j] == u.ns[j] && t.zs[j] == u.zs[j] && NameAfter(db, t, j + 1) == NameAfter(db, u, j + 1)
  {
    Leads(db, t, j);
    Leads(db, u, j);
    LinkOnTrail(db, t, j);
    LinkOnTrail(db, u, j);
    var name := NameAfter(db, t, j);
    var s, cut :| RunAnswer(db.v, name, s, Some(t.ns[j]), Some(t.zs[j]), cut);
    var s', cut' :| RunAnswer(db.v, name, s', Some(u.ns[j]), Some(u.zs[j]), cut');
    RunAnswerUnique(db.v, name, s, Some(t.ns[j]), Some(t.zs[j]), cut, s', Some(u.ns[j]), Some(u.zs[j]), cut');
  }

  /** Two trails from one question agree as far as both go. */
  lemma {:induction false} TrailsAgree(db: Db, t: Trail, u: Trail, k: nat)
    requires DbOk(db) && TrailOk(db, t) && TrailOk(db, u) && t.question == u.question
    requires k <= |t.ns| && k <= |u.ns|
    ensures t.ns[..k] == u.ns[..k] && t.zs[..k] == u.zs[..k] && NameAfter(db, t, k) == NameAfter(db, u, k)
  {
    if k != 0 {
      var j := k - 1;
      TrailsAgree(db, t, u, j);
      OneWayOn(db, t, u, j);
      OneFurtherAlike(t.ns, u.ns, j);
      OneFurtherAlike(t.zs, u.zs, j);
    }
  }

  lemma OneFurtherAlike(a: seq<nat>, b: seq<nat>, j: nat)
    requires j < |a| && j < |b| && a[..j] == b[..j] && a[j] == b[j]
    ensures a[..j + 1] == b[..j + 1]
  {
    assert a[..j + 1] == a[..j] + [a[j]] && b[..j + 1] == b[..j] + [b[j]];
  }

  /** A trail has ended: at a name that is no CNAME, or outside its zone. */
  ghost predicate Ended(db: Db, qtype: nat, reply: Reply, t: Trail, cut: nat)
    requires DbOk(db) && TrailOk(db, t)
  {
    && (qtype == TYPE_CNAME ==> t.ns == [])
    && match reply.end
       case AtName => Arrived(db, t, reply.found, cut) && Stopped(db, qtype, reply.found)
       case LeftZone => t.ns != [] && !Crosses(db.v, NameAtEnd(db, t), t.zs[|t.zs| - 1])
       case OverDepth => false
  }

  /** A trail that has ended is not a beginning of a longer one. */
  lemma EndedIsAll(db: Db, qtype: nat, reply: Reply, t: Trail, cut: nat, u: Trail)
    requires DbOk(db) && TrailOk(db, t) && TrailOk(db, u) && t.question == u.question
    requires Ended(db, qtype, reply, t, cut) && (qtype == TYPE_CNAME ==> u.ns == [])
    ensures |u.ns| <= |t.ns|
  {
    var k := |t.ns|;
    if k < |u.ns| {
      TrailsAgree(db, t, u, k);
      if reply.end == AtName {
        NoneBeyondName(db, reply.found, NameAtEnd(db, t), cut, u, k);
      } else {
        assert t.zs[k - 1] == t.zs[..k][k - 1] == u.zs[..k][k - 1] == u.zs[k - 1];
        StepLeads(db, u, k - 1, k);
      }
    }
  }

  lemma NoneBeyondName(db: Db, f: Found, name: Name, cut: nat, u: Trail, k: nat)
    requires DbOk(db) && TrailOk(db, u) && k < |u.ns| && name == NameAfter(db, u, k)
    requires RunAnswer(db.v, name, f.status, f.node, f.zone, cut)
    ensures f.node == Some(u.ns[k]) && u.ns[k] < |db.data| && CnameOf(db.data[u.ns[k]]).Some?
  {
    Leads(db, u, k);
    LinkOnTrail(db, u, k);
    var s, c :| RunAnswer(db.v, name, s, Some(u.ns[k]), Some(u.zs[k]), c);
    RunAnswerUnique(db.v, name, s, Some(u.ns[k]), Some(u.zs[k]), c, f.status, f.node, f.zone, cut);
  }

  /**
    What a response says is determined: two responses to a query are reached through the same CNAMEs, end
    the same way at the same node of the same zone, have the same code and AA bit, and as many records in
    each section.
   */
  lemma ResponseUnique(s: Shot, db: Db, query: Query, reply: Reply, t: Trail, cut: nat, answered: seq<Item>,
                       s': Shot, reply': Reply, t': Trail, cut': nat, answered': seq<Item>)
    requires DbOk(db) && Responded(s, db, query, reply, t, cut, answered)
    requires Responded(s', db, query, reply', t', cut', answered') && t.question == t'.question
    ensures t == t' && reply.end == reply'.end && reply.rcode == reply'.rcode && reply.aa == reply'.aa
    ensures reply.found.status == reply'.found.status
    ensures reply.end == AtName ==> reply.found == reply'.found
    ensures s.cnameAncount == s'.cnameAncount && s.ancount == s'.ancount && s.nscount == s'.nscount
  {
    HasEnded(s, db, query, reply, t, cut, answered);
    HasEnded(s', db, query, reply', t', cut', answered');
    TrailUnique(db, query.qtype, reply, t, cut, reply', t', cut');
    if reply.end == AtName && reply.found.status == Auth {
      SameCounts(s, s', db, reply.found, query, |t.ns|, answered, answered');
    }
  }

  lemma HasEnded(s: Shot, db: Db, query: Query, reply: Reply, t: Trail, cut: nat, answered: seq<Item>)
    requires DbOk(db) && Responded(s, db, query, reply, t, cut, answered)
    ensures Ended(db, query.qtype, reply, t, cut)
  {
  }

  lemma TrailUnique(db: Db, qtype: nat, reply: Reply, t: Trail, cut: nat, reply': Reply, t': Trail, cut': nat)
    requires DbOk(db) && TrailOk(db, t) && TrailOk(db, t') && t.question == t'.question
    requires Ended(db, qtype, reply, t, cut) && Ended(db, qtype, reply', t', cut')
    ensures t == t' && reply.end == reply'.end && (reply.end == AtName ==> reply.found == reply'.found)
  {
    EndedIsAll(db, qtype, reply, t, cut, t');
    EndedIsAll(db, qtype, reply', t', cut', t);
    TrailsAgree(db, t, t', |t.ns|);
    assert t.ns[..|t.ns|] == t.ns && t'.ns[..|t.ns|] == t'.ns && t.zs[..|t.ns|] == t.zs && t'.zs[..|t.ns|] == t'.zs;
    if reply.end == AtName && reply'.end == AtName {
      RunAnswerUnique(db.v, NameAtEnd(db, t), reply.found.status, reply.found.node, reply.found.zone, cut,
                      reply'.found.status, reply'.found.node, reply'.found.zone, cut');
    }
  }

  lemma SameCounts(s: Shot, s': Shot, db: Db, f: Found, query: Query, from: nat, answered: seq<Item>,
                   answered': seq<Item>)
    requires AuthShown(s, db, f, query, from, answered) && AuthShown(s', db, f, query, from, answered')
    ensures s.ancount == s'.ancount && s.nscount == s'.nscount
  {
  }
}
