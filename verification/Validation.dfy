/**
  Post-processing of the loaded tree: a walk over all nodes, which knows the zone it is
  in and whether it is below a delegation, refuses what cannot be served, and finds the
  addresses of every name server; and a second one for glue that no server uses.
 */
module Validation {
  import opened Names
  import opened Additional
  import opened ChildTable
  import opened LookupRule
  import opened LabelTree
  import opened CnameChain

  /**
    What the walk looks at besides chains: how many record sets a node has and of which types, its addresses,
    and as dnames its name servers, its SOA's master, and the targets of its other records.  `others` says
    there are types that no delegation may have.
   */
  datatype Facts = Facts(sets: nat, hasSoa: bool, hasNs: bool, addr: Option<AddrSet>, others: bool,
                         servers: seq<Bytes>, master: Option<Bytes>, targets: seq<Bytes>)

  /** The limits, and whether what is merely suspect is refused too. */
  datatype Limits = Limits(max: nat, maxAddtl: nat, strict: bool)

  /** What the walk checks against: the tree, its chains, its record sets, and the configuration. */
  datatype Checks = Checks(v: View, paths: seq<Name>, heads: seq<Head>, facts: seq<Facts>, limits: Limits) {
    const max := limits.max
    const maxAddtl := limits.maxAddtl
    const strict := limits.strict
  }

  ghost predicate AllDnames(servers: seq<Bytes>) {
    forall s :: 0 <= s < |servers| ==> IsDname(servers[s])
  }

  ghost predicate ChecksOk(ck: Checks) {
    && HeadsLegal(ck.v, ck.heads) && |ck.facts| == |ck.heads| == |ck.paths| && Shape(ck.v.kids, ck.paths)
    && ck.max > 0 && FlagsInZones(ck.v, ck.paths) && OozStocked(ck)
    && forall j {:trigger AllDnames(ck.facts[j].servers)} :: 0 <= j < |ck.facts| ==>
         AllDnames(ck.facts[j].servers) && AllDnames(ck.facts[j].targets)
  }

  /** Records, and so flags, are only ever put inside zones. */
  ghost predicate FlagsInZones(v: View, paths: seq<Name>)
    requires |v.flags| == |paths|
  {
    forall j :: 0 <= j < |paths| && v.flags[j] != NO_FLAGS ==> InSomeZone(v, paths, j)
  }

  ghost predicate InSomeZone(v: View, paths: seq<Name>, j: nat)
    requires |v.flags| == |paths| && j < |paths|
  {
    exists z :: 0 <= z < |paths| && v.flags[z].zroot && paths[z] <= paths[j]
  }

  // ---- Out-of-zone glue ------------------------------------------------------------------

  /** A zone's glue for a name outside it is kept at the zone's root, two steps down, under the whole wire form. */
  function OozNode(v: View, z: nat, w: Bytes): Option<nat>
    requires ViewOk(v) && z < |v.kids|
  {
    if OOZ_GLUE in v.kids[z] && w in v.kids[v.kids[z][OOZ_GLUE]] then Some(v.kids[v.kids[z][OOZ_GLUE]][w]) else None
  }

  /** Such a node is only ever made for an address. */
  ghost predicate OozStocked(ck: Checks)
    requires ViewOk(ck.v) && |ck.facts| == |ck.v.kids|
  {
    forall z, w {:trigger OozNode(ck.v, z, w)} ::
      0 <= z < |ck.v.kids| && OozNode(ck.v, z, w).Some? ==> ck.facts[OozNode(ck.v, z, w).value].addr.Some?
  }

  // ---- Name servers ------------------------------------------------------------------------

  /** The addresses of a name server, if known, and whether a referral must carry them. */
  datatype Ad = Ad(addr: Option<AddrSet>, glue: bool)

  /** The addresses at the node a search found. */
  function AddrAt(ck: Checks, node: Option<nat>): Option<AddrSet> {
    if node.Some? && node.value < |ck.facts| then ck.facts[node.value].addr else None
  }

  /**
    A server's addresses: glue that its zone keeps for a name outside the zone; or what the tree has at the
    name, which is glue for a name below a delegation of the zone.
   */
  ghost predicate AdIs(ck: Checks, z: nat, dname: Bytes, ad: Ad)
    requires ViewOk(ck.v) && IsDname(dname) && z < |ck.v.kids|
  {
    var name, ooz := LabelsAt(dname[1..], 0), OozNode(ck.v, z, dname[1..]);
    if !Crosses(ck.v, name, z) && ooz.Some? then ad == Ad(AddrAt(ck, ooz), true)
    else exists status, node ::
      LoadAnswer(ck.v, name, status, node) && ad == AdFrom(ck, status, node, Crosses(ck.v, name, z))
  }

  ghost function AdFrom(ck: Checks, status: Status, node: Option<nat>, crossed: bool): Ad {
    Ad(AddrAt(ck, node), AddrAt(ck, node).Some? && status == Deleg && crossed)
  }

  /**
    A server inside the zone, directly or below a delegation, must have addresses; with `strict` also one in
    another zone, unless it is below that zone's delegation and has no node.
   */
  ghost predicate ServerOk(ck: Checks, z: nat, dname: Bytes)
    requires ViewOk(ck.v) && IsDname(dname)
  {
    var name := LabelsAt(dname[1..], 0);
    forall status, node ::
      LoadAnswer(ck.v, name, status, node) && AddrNeeded(status, node, Crosses(ck.v, name, z), ck.strict) ==>
        AddrAt(ck, node).Some?
  }

  predicate AddrNeeded(status: Status, node: Option<nat>, crossed: bool, strict: bool) {
    status != NoAuth && (crossed || (strict && (status == Auth || node.Some?)))
  }

  /** A target of another record: if it is authoritative in the zone, it has addresses. */
  ghost predicate TargetOk(ck: Checks, z: nat, dname: Bytes)
    requires ViewOk(ck.v) && IsDname(dname)
  {
    var name := LabelsAt(dname[1..], 0);
    Crosses(ck.v, name, z) ==> forall node :: LoadAnswer(ck.v, name, Auth, node) ==> AddrAt(ck, node).Some?
  }

  ghost predicate TargetsOk(ck: Checks, z: nat, targets: seq<Bytes>, n: nat)
    requires ViewOk(ck.v) && n <= |targets| && AllDnames(targets)
  {
    forall s {:trigger TargetOk(ck, z, targets[s])} :: 0 <= s < n ==> TargetOk(ck, z, targets[s])
  }

  ghost predicate ServersOk(ck: Checks, z: nat, servers: seq<Bytes>, n: nat)
    requires ViewOk(ck.v) && n <= |servers| && AllDnames(servers)
  {
    forall s {:trigger ServerOk(ck, z, servers[s])} :: 0 <= s < n ==> ServerOk(ck, z, servers[s])
  }

  ghost predicate AdsAre(ck: Checks, z: nat, servers: seq<Bytes>, ads: seq<Ad>)
    requires ViewOk(ck.v) && z < |ck.v.kids| && AllDnames(servers)
  {
    |ads| <= |servers| &&
    forall s {:trigger AdIs(ck, z, servers[s], ads[s])} :: 0 <= s < |ads| ==> AdIs(ck, z, servers[s], ads[s])
  }

  // ---- Glue that is used -----------------------------------------------------------------------

  /** The addresses found for a server, as glue, are node `n`'s. */
  ghost predicate Marks(ck: Checks, z: nat, dname: Bytes, n: nat)
    requires ViewOk(ck.v) && IsDname(dname) && z < |ck.v.kids|
  {
    var name, ooz := LabelsAt(dname[1..], 0), OozNode(ck.v, z, dname[1..]);
    if !Crosses(ck.v, name, z) && ooz.Some? then n == ooz.value
    else LoadAnswer(ck.v, name, Deleg, Some(n)) && AddrAt(ck, Some(n)).Some?
  }

  ghost predicate MarkedBy(ck: Checks, z: nat, servers: seq<Bytes>, k: nat, n: nat)
    requires ViewOk(ck.v) && z < |ck.v.kids| && k <= |servers| && AllDnames(servers)
  {
    exists s :: 0 <= s < k && Marks(ck, z, servers[s], n)
  }

  ghost predicate UsedAre(ck: Checks, z: nat, servers: seq<Bytes>, k: nat, used: set<nat>)
    requires ViewOk(ck.v) && z < |ck.v.kids| && k <= |servers| && AllDnames(servers)
  {
    forall n: nat :: n in used <==> MarkedBy(ck, z, servers, k, n)
  }

  // ---- What passes ---------------------------------------------------------------------------

  predicate IsDeleg(f: Flags) { f.deleg && !f.zroot }

  /** A delegation is at or above path `p`, with no zone root from there down to `p`. */
  ghost predicate Delegated(v: View, paths: seq<Name>, p: Name)
    requires |v.flags| == |paths|
  {
    exists k :: 0 <= k < |paths| && DelegatedFrom(v, paths, k, p)
  }

  ghost predicate DelegatedFrom(v: View, paths: seq<Name>, k: nat, p: Name)
    requires k < |v.flags| == |paths|
  {
    && paths[k] <= p && IsDeleg(v.flags[k])
    && forall m :: 0 <= m < |paths| && paths[k] <= paths[m] && paths[m] <= p ==> !v.flags[m].zroot
  }

  /** The same for the nodes strictly above. */
  ghost predicate DelegatedAbove(v: View, paths: seq<Name>, p: Name)
    requires |v.flags| == |paths|
  {
    p != [] && Delegated(v, paths, p[..|p| - 1])
  }

  function LabelOf(p: Name): Label { if p == [] then [] else Last(p) }

  predicate ZoneOk(flags: Flags, f: Facts, strict: bool) {
    flags.zroot ==> f.hasSoa && f.hasNs && (strict ==> f.master.Some? && f.master.value in f.servers)
  }

  /** A delegation and what is below it: no wildcard, only name servers and addresses, and few servers. */
  predicate DelegOk(flags: Flags, last: Label, h: Head, f: Facts, maxAddtl: nat) {
    && last != STAR && h.NoCname? && !f.others && (f.hasNs ==> flags.deleg)
    && (flags.deleg ==> |f.servers| <= maxAddtl)
  }

  predicate LinkOk(h: Head, f: Facts) { IsLink(h) ==> f.sets == 1 }

  /** The checks at a node of zone `z`. */
  ghost predicate Checked(ck: Checks, j: nat, z: nat)
    requires ChecksOk(ck) && j < |ck.heads|
  {
    && ZoneOk(ck.v.flags[j], ck.facts[j], ck.strict) && LinkOk(ck.heads[j], ck.facts[j])
    && (Delegated(ck.v, ck.paths, ck.paths[j]) ==>
          DelegOk(ck.v.flags[j], LabelOf(ck.paths[j]), ck.heads[j], ck.facts[j], ck.maxAddtl))
    && (ck.heads[j].StaticCname? ==>
          !TooLong(ck.v, ck.heads, j, z, ck.max) && (ck.strict ==> TargetThere(ck.v, ck.heads, j, z)))
    && (ck.heads[j].NoCname? ==> RecordsOk(ck, j, z))
  }

  /** What the node's records lead to. */
  ghost predicate RecordsOk(ck: Checks, j: nat, z: nat)
    requires ChecksOk(ck) && j < |ck.facts|
  {
    && AllDnames(ck.facts[j].servers) && ServersOk(ck, z, ck.facts[j].servers, |ck.facts[j].servers|)
    && (ck.strict ==> TargetsOk(ck, z, ck.facts[j].targets, |ck.facts[j].targets|))
  }

  ghost predicate CheckedInZone(ck: Checks, j: nat)
    requires ChecksOk(ck) && j < |ck.heads|
  {
    ck.v.flags[j] != NO_FLAGS ==> exists z :: IsZoneOf(ck.v, ck.paths, j, z) && Checked(ck, j, z)
  }

  /** A node that may be served: it passes the checks, and is no delegation below another. */
  ghost predicate NodePassed(ck: Checks, j: nat)
    requires ChecksOk(ck) && j < |ck.heads|
  {
    (IsDeleg(ck.v.flags[j]) ==> !DelegatedAbove(ck.v, ck.paths, ck.paths[j])) && CheckedInZone(ck, j)
  }

  ghost predicate AllPass(ck: Checks) {
    ChecksOk(ck) && forall j :: 0 <= j < |ck.heads| ==> NodePassed(ck, j)
  }

  ghost predicate SubtreePassed(ck: Checks, p: Name)
    requires ChecksOk(ck)
  {
    forall j :: 0 <= j < |ck.heads| && p <= ck.paths[j] ==> NodePassed(ck, j)
  }

  // ---- What the walk finds ---------------------------------------------------------------------

  /** The walk has looked at node `j`'s name servers. */
  predicate HasServers(ck: Checks, j: nat)
    requires j < |ck.heads| && |ck.heads| == |ck.v.flags|
  {
    ck.v.flags[j] != NO_FLAGS && ck.heads[j].NoCname?
  }

  /** The addresses found for all of a node's servers. */
  ghost predicate AdsFor(ck: Checks, j: nat, ads: seq<Ad>)
    requires ChecksOk(ck) && j < |ck.heads|
  {
    && AllDnames(ck.facts[j].servers) && |ads| == |ck.facts[j].servers|
    && exists z :: IsZoneOf(ck.v, ck.paths, j, z) && AdsAre(ck, z, ck.facts[j].servers, ads)
  }

  /** What the walk found at a node: its servers' addresses, the glue they use, and whether it is delegated. */
  datatype Finding = Finding(ads: seq<Ad>, used: set<nat>, below: bool)

  ghost predicate FindingFor(ck: Checks, j: nat, seen: Finding)
    requires ChecksOk(ck) && j < |ck.heads|
  {
    && HasServers(ck, j) && AdsFor(ck, j, seen.ads) && UsedExactly(ck, j, seen.used)
    && (seen.below <==> Delegated(ck.v, ck.paths, ck.paths[j]))
  }

  ghost predicate UsedExactly(ck: Checks, j: nat, used: set<nat>)
    requires ChecksOk(ck) && j < |ck.heads|
  {
    forall n: nat {:trigger n in used} :: n in used <==> UsedAt(ck, j, n)
  }

  /** One of node `j`'s servers uses the glue at node `n`. */
  ghost predicate UsedAt(ck: Checks, j: nat, n: nat)
    requires ChecksOk(ck) && j < |ck.heads|
  {
    && AllDnames(ck.facts[j].servers)
    && exists z :: IsZoneOf(ck.v, ck.paths, j, z) && MarkedBy(ck, z, ck.facts[j].servers, |ck.facts[j].servers|, n)
  }

  ghost predicate FoundRight(ck: Checks, found: map<nat, Finding>)
    requires ChecksOk(ck)
  {
    forall j {:trigger j in found} :: j in found ==> j < |ck.heads| && FindingFor(ck, j, found[j])
  }

  ghost predicate SubtreeFound(ck: Checks, p: Name, found: map<nat, Finding>)
    requires ChecksOk(ck)
  {
    forall j :: 0 <= j < |ck.heads| && p <= ck.paths[j] && HasServers(ck, j) ==> j in found
  }

  /** The subtrees under these labels have passed, and their servers been found. */
  ghost predicate ChildrenDone(ck: Checks, p: Name, done: set<Label>, found: map<nat, Finding>)
    requires ChecksOk(ck)
  {
    forall l {:trigger l in done} :: l in done ==> SubtreePassed(ck, p + [l]) && SubtreeFound(ck, p + [l], found)
  }

  // ---- Where the walk is -----------------------------------------------------------------------

  /** `zone` is the deepest zone root among the nodes strictly above path `p`. */
  ghost predicate ZoneStrictlyAbove(v: View, paths: seq<Name>, p: Name, zone: Option<nat>)
    requires |v.flags| == |paths|
  {
    match zone
    case None => forall k :: 0 <= k < |paths| && paths[k] < p ==> !v.flags[k].zroot
    case Some(z) =>
      && z < |paths| && v.flags[z].zroot && paths[z] < p
      && forall k :: 0 <= k < |paths| && paths[k] < p && v.flags[k].zroot ==> paths[k] <= paths[z]
  }

  /** `here` is the zone node `i` and its children's walks are in. */
  ghost predicate ZoneHere(v: View, paths: seq<Name>, i: nat, here: Option<nat>)
    requires |v.flags| == |paths| && i < |paths|
  {
    match here
    case None => forall k :: 0 <= k < |paths| && paths[k] <= paths[i] ==> !v.flags[k].zroot
    case Some(z) => IsZoneOf(v, paths, i, z)
  }

  lemma ZoneEnter(v: View, paths: seq<Name>, i: nat, zone: Option<nat>)
    requires |v.flags| == |paths| && i < |paths| && ZoneStrictlyAbove(v, paths, paths[i], zone)
    requires forall a, b :: 0 <= a < b < |paths| ==> paths[a] != paths[b]
    ensures ZoneHere(v, paths, i, if v.flags[i].zroot then Some(i) else zone)
  {
    forall k | 0 <= k < |paths| ensures paths[k] <= paths[i] && k != i ==> paths[k] < paths[i] {
      if paths[k] == paths[i] { assert k == i; }
    }
  }

  lemma ZoneForChild(v: View, paths: seq<Name>, i: nat, here: Option<nat>, key: Label)
    requires |v.flags| == |paths| && i < |paths| && ZoneHere(v, paths, i, here)
    ensures ZoneStrictlyAbove(v, paths, paths[i] + [key], here)
  {
    forall k | 0 <= k < |paths| ensures paths[k] < paths[i] + [key] <==> paths[k] <= paths[i] {
      PrefixStep(paths[k], paths[i], key);
    }
  }

  /** Where a node is delegated, by itself or from above. */
  lemma DelegEnter(v: View, paths: seq<Name>, i: nat)
    requires |v.flags| == |paths| && i < |paths|
    requires forall a, b :: 0 <= a < b < |paths| ==> paths[a] != paths[b]
    ensures Delegated(v, paths, paths[i]) <==>
              !v.flags[i].zroot && (v.flags[i].deleg || DelegatedAbove(v, paths, paths[i]))
  {
    var p := paths[i];
    forall k | 0 <= k < |paths| ensures paths[k] <= p ==> k == i || (p != [] && paths[k] <= p[..|p| - 1]) {
      if paths[k] <= p && |paths[k]| == |p| { assert paths[k] == p; }
    }
    if IsDeleg(v.flags[i]) { assert DelegatedFrom(v, paths, i, p); }
    if DelegatedAbove(v, paths, p) && !v.flags[i].zroot {
      var k :| 0 <= k < |paths| && DelegatedFrom(v, paths, k, p[..|p| - 1]);
      assert DelegatedFrom(v, paths, k, p);
    }
    if Delegated(v, paths, p) {
      var k :| 0 <= k < |paths| && DelegatedFrom(v, paths, k, p);
      if k != i { assert DelegatedFrom(v, paths, k, p[..|p| - 1]); }
    }
  }

  lemma ZoneOfUnique(v: View, paths: seq<Name>, j: nat, z: nat, z': nat)
    requires |v.flags| == |paths| && j < |paths| && IsZoneOf(v, paths, j, z) && IsZoneOf(v, paths, j, z')
    requires forall a, b :: 0 <= a < b < |paths| ==> paths[a] != paths[b]
    ensures z == z'
  {
    assert paths[z] == paths[z'];
  }

  // ---- The walk ----------------------------------------------------------------------------------

  /** What the records give the walk to work on. */
  datatype Given = Given(heads: seq<Head>, facts: seq<Facts>, limits: Limits)

  ghost predicate Walkable(tree: LTree, g: Given, ck: Checks)
    reads tree
  {
    && tree.Valid() && !tree.loading && ChecksOk(ck)
    && ck == Checks(tree.View(), tree.paths, g.heads, g.facts, g.limits)
  }

  /**
    `_ltree_proc_inner` with the checks that need only the node,
      its zone and its delegation.  It succeeds exactly if every node at
    or below node `i` may be served.
   */
  method ProcInner(tree: LTree, g: Given, i: nat, last: Label, zone: Option<nat>, inDeleg: bool, ghost ck: Checks)
    returns (ok: bool, found: map<nat, Finding>)
    requires Walkable(tree, g, ck) && i < |g.heads| && last == LabelOf(ck.paths[i])
    requires ZoneStrictlyAbove(ck.v, ck.paths, ck.paths[i], zone)
    requires inDeleg <==> DelegatedAbove(ck.v, ck.paths, ck.paths[i])
    ensures ok <==> SubtreePassed(ck, ck.paths[i])
    ensures ok ==> FoundRight(ck, found) && SubtreeFound(ck, ck.paths[i], found)
    decreases |tree.nodes| - i, 1
  {
    found := map[];
    var flags := tree.nodes[i].flags;
    if !flags.zroot && flags.deleg && inDeleg {
      assert !NodePassed(ck, i);
      return false, found;
    }
    var here := if flags.zroot then Some(i) else zone;
    var deleg := !flags.zroot && (flags.deleg || inDeleg);
    ZoneEnter(ck.v, ck.paths, i, zone);
    DelegEnter(ck.v, ck.paths, i);
    var seen;
    ok, seen := CheckNode(tree, g, i, last, here, deleg, ck);
    assert ok <==> NodePassed(ck, i);
    if ok {
      ok, found := ProcChildren(tree, g, i, here, deleg, seen, ck);
    }
  }

  /** The walk over one node's table. */
  method ProcChildren(tree: LTree, g: Given, i: nat, here: Option<nat>, deleg: bool, seen: Option<Finding>,
                      ghost ck: Checks)
    returns (ok: bool, found: map<nat, Finding>)
    requires Walkable(tree, g, ck) && i < |g.heads| && ZoneHere(ck.v, ck.paths, i, here)
    requires deleg <==> Delegated(ck.v, ck.paths, ck.paths[i])
    requires NodePassed(ck, i) && FindingHere(ck, i, seen)
    ensures ok <==> SubtreePassed(ck, ck.paths[i])
    ensures ok ==> FoundRight(ck, found) && SubtreeFound(ck, ck.paths[i], found)
    decreases |tree.nodes| - i, 0, 2
  {
    var table := tree.nodes[i].table;
    TableAt(tree, i);
    ghost var done: set<Label> := {};
    ok, found := true, FoundHere(i, seen);
    FirstFound(ck, i, seen);
    var s := 0;
    while s < |table.slots|
      invariant 0 <= s <= |table.slots| && ok
      invariant ChildrenDone(ck, ck.paths[i], done, found) && FoundRight(ck, found)
      invariant (HasServers(ck, i) ==> i in found)
      invariant SlotsIn(table.slots, s, done)
    {
      ChainEntries(table, ck.v.kids[i], s);
      ghost var was := done;
      ok, found, done := ProcChain(tree, g, i, table.slots[s], here, deleg, ck, done, found);
      if !ok {
        return;
      }
      SlotDone(table.slots, s, was, done);
      s := s + 1;
    }
    AllPassed(ck, i, table, done, found);
  }

  /** What was found at one node. */
  ghost predicate FindingHere(ck: Checks, i: nat, seen: Option<Finding>)
    requires ChecksOk(ck) && i < |ck.heads|
  {
    (HasServers(ck, i) ==> seen.Some?) && (seen.Some? ==> FindingFor(ck, i, seen.value))
  }

  function FoundHere(i: nat, seen: Option<Finding>): map<nat, Finding> {
    if seen.Some? then map[i := seen.value] else map[]
  }

  lemma FirstFound(ck: Checks, i: nat, seen: Option<Finding>)
    requires ChecksOk(ck) && i < |ck.heads| && FindingHere(ck, i, seen)
    ensures FoundRight(ck, FoundHere(i, seen)) && (HasServers(ck, i) ==> i in FoundHere(i, seen))
  {
    var found := FoundHere(i, seen);
    forall j | j in found ensures j < |ck.heads| && FindingFor(ck, j, found[j]) {
      assert j == i && found[j] == seen.value;
    }
  }

  /** The children in one chain of the table. */
  method ProcChain(tree: LTree, g: Given, i: nat, chain: seq<Entry>, here: Option<nat>, deleg: bool,
                   ghost ck: Checks, ghost done: set<Label>, found: map<nat, Finding>)
    returns (ok: bool, found': map<nat, Finding>, ghost done': set<Label>)
    requires Walkable(tree, g, ck) && i < |g.heads| && ZoneHere(ck.v, ck.paths, i, here)
    requires deleg <==> Delegated(ck.v, ck.paths, ck.paths[i])
    requires ChainOf(ck, i, chain) && ChildrenDone(ck, ck.paths[i], done, found) && FoundRight(ck, found)
    ensures !ok ==> !SubtreePassed(ck, ck.paths[i])
    ensures ok ==> done <= done' && KeysIn(chain, done') && ChildrenDone(ck, ck.paths[i], done', found')
    ensures ok ==> FoundRight(ck, found') && found.Keys <= found'.Keys
    decreases |tree.nodes| - i, 0, 1
  {
    ok, found', done' := true, found, done;
    var k := 0;
    while k < |chain|
      invariant 0 <= k <= |chain| && ok
      invariant done <= done' && FirstIn(chain, k, done') && found.Keys <= found'.Keys
      invariant ChildrenDone(ck, ck.paths[i], done', found') && FoundRight(ck, found')
    {
      var more;
      ok, more := ProcChild(tree, g, i, chain[k], here, deleg, ck);
      if !ok {
        return;
      }
      OneMoreDone(ck, ck.paths[i], done', chain[k].key, found', more);
      OneMoreIn(chain, k, done');
      found', done' := found' + more, done' + {chain[k].key};
      k := k + 1;
    }
  }

  ghost predicate ChainOf(ck: Checks, i: nat, chain: seq<Entry>)
    requires i < |ck.v.kids|
  {
    forall k :: 0 <= k < |chain| ==> chain[k].key in ck.v.kids[i] && ck.v.kids[i][chain[k].key] == chain[k].node
  }

  method ProcChild(tree: LTree, g: Given, i: nat, entry: Entry, here: Option<nat>, deleg: bool, ghost ck: Checks)
    returns (ok: bool, found: map<nat, Finding>)
    requires Walkable(tree, g, ck) && i < |g.heads| && ZoneHere(ck.v, ck.paths, i, here)
    requires deleg <==> Delegated(ck.v, ck.paths, ck.paths[i])
    requires entry.key in ck.v.kids[i] && ck.v.kids[i][entry.key] == entry.node
    ensures !ok ==> !SubtreePassed(ck, ck.paths[i])
    ensures ok ==> SubtreePassed(ck, ck.paths[i] + [entry.key]) && FoundRight(ck, found)
    ensures ok ==> SubtreeFound(ck, ck.paths[i] + [entry.key], found)
    decreases |tree.nodes| - i, 0, 0
  {
    ZoneForChild(ck.v, ck.paths, i, here, entry.key);
    ChildPath(ck, i, entry.key, entry.node);
    assert ck.paths[entry.node][..|ck.paths[i]|] == ck.paths[i];
    ok, found := ProcInner(tree, g, entry.node, entry.key, here, deleg, ck);
    if !ok {
      FailsAbove(ck, ck.paths[i], ck.paths[entry.node]);
    }
  }

  lemma FailsAbove(ck: Checks, p: Name, q: Name)
    requires ChecksOk(ck) && p <= q && !SubtreePassed(ck, q)
    ensures !SubtreePassed(ck, p)
  {
    var j :| 0 <= j < |ck.heads| && q <= ck.paths[j] && !NodePassed(ck, j);
    assert p <= ck.paths[j];
  }

  lemma OneMoreDone(ck: Checks, p: Name, done: set<Label>, key: Label, found: map<nat, Finding>,
                    more: map<nat, Finding>)
    requires ChecksOk(ck) && ChildrenDone(ck, p, done, found) && FoundRight(ck, found) && FoundRight(ck, more)
    requires SubtreePassed(ck, p + [key]) && SubtreeFound(ck, p + [key], more)
    ensures ChildrenDone(ck, p, done + {key}, found + more) && FoundRight(ck, found + more)
  {
    forall l | l in done + {key} ensures SubtreePassed(ck, p + [l]) && SubtreeFound(ck, p + [l], found + more) {
      if l != key {
        assert l in done;
        FoundStill(ck, p + [l], found, found + more);
      } else {
        FoundStill(ck, p + [l], more, found + more);
      }
    }
    FoundUnion(ck, found, more);
  }

  lemma FoundStill(ck: Checks, p: Name, found: map<nat, Finding>, found': map<nat, Finding>)
    requires ChecksOk(ck) && SubtreeFound(ck, p, found) && found.Keys <= found'.Keys
    ensures SubtreeFound(ck, p, found')
  {
  }

  lemma FoundUnion(ck: Checks, found: map<nat, Finding>, more: map<nat, Finding>)
    requires ChecksOk(ck) && FoundRight(ck, found) && FoundRight(ck, more)
    ensures FoundRight(ck, found + more)
  {
    var all := found + more;
    forall j | j in all ensures j < |ck.heads| && FindingFor(ck, j, all[j]) {
      if j in more { assert all[j] == more[j]; } else { assert j in found && all[j] == found[j]; }
    }
  }

  lemma TableAt(tree: LTree, i: nat)
    requires tree.Valid() && i < |tree.nodes|
    ensures Represents(tree.nodes[i].table, tree.View().kids[i])
  {
    assert NodeOk(tree.nodes, tree.kids, tree.loading, i);
  }

  lemma ChainEntries(t: Table, m: map<Label, nat>, s: nat)
    requires Represents(t, m) && s < |t.slots|
    ensures forall k :: 0 <= k < |t.slots[s]| ==> t.slots[s][k].key in m && m[t.slots[s][k].key] == t.slots[s][k].node
  {
  }

  lemma ChildPath(ck: Checks, i: nat, key: Label, child: nat)
    requires ChecksOk(ck) && i < |ck.heads| && key in ck.v.kids[i] && ck.v.kids[i][key] == child
    ensures i < child < |ck.heads| && ck.paths[child] == ck.paths[i] + [key]
  {
  }

  lemma AllPassed(ck: Checks, i: nat, table: Table, done: set<Label>, found: map<nat, Finding>)
    requires ChecksOk(ck) && i < |ck.heads| && Represents(table, ck.v.kids[i]) && NodePassed(ck, i)
    requires ChildrenDone(ck, ck.paths[i], done, found) && (HasServers(ck, i) ==> i in found)
    requires SlotsIn(table.slots, |table.slots|, done)
    ensures SubtreePassed(ck, ck.paths[i]) && SubtreeFound(ck, ck.paths[i], found)
  {
    forall j | 0 <= j < |ck.heads| && ck.paths[i] <= ck.paths[j]
      ensures NodePassed(ck, j) && (HasServers(ck, j) ==> j in found) {
      if j != i {
        var l := ChildToward(ck.v.kids, ck.paths, i, j);
        assert forall r :: 0 <= r < |table.slots| ==> KeysIn(table.slots[r], done);
        ChildInSlots(table, ck.v.kids[i], l);
        assert l in done;
      }
    }
  }

  /** The checks at one node. */
  method CheckNode(tree: LTree, g: Given, i: nat, last: Label, here: Option<nat>, deleg: bool, ghost ck: Checks)
    returns (ok: bool, seen: Option<Finding>)
    requires Walkable(tree, g, ck) && i < |g.heads| && last == LabelOf(ck.paths[i]) && ZoneHere(ck.v, ck.paths, i, here)
    requires deleg <==> Delegated(ck.v, ck.paths, ck.paths[i])
    ensures ok <==> CheckedInZone(ck, i)
    ensures ok ==> FindingHere(ck, i, seen)
  {
    var flags := tree.nodes[i].flags;
    seen := None;
    if flags == NO_FLAGS {
      return true, seen;
    }
    assert InSomeZone(ck.v, ck.paths, i);
    var z := here.value;
    ok := ZoneOk(flags, g.facts[i], g.limits.strict) && LinkOk(g.heads[i], g.facts[i]) &&
          (deleg ==> DelegOk(flags, last, g.heads[i], g.facts[i], g.limits.maxAddtl));
    if ok && g.heads[i].StaticCname? {
      ok := ProcCname(tree, g.heads, i, z, g.limits.max, g.limits.strict);
    } else if ok && g.heads[i].NoCname? {
      ok, seen := ProcRecords(tree, g, i, z, deleg, ck);
    }
    InTheZone(ck, i, z, ok);
  }

  /** The node's servers and targets. */
  method ProcRecords(tree: LTree, g: Given, i: nat, z: nat, deleg: bool, ghost ck: Checks)
    returns (ok: bool, seen: Option<Finding>)
    requires Walkable(tree, g, ck) && i < |g.heads| && IsZoneOf(ck.v, ck.paths, i, z)
    requires HasServers(ck, i) && (deleg <==> Delegated(ck.v, ck.paths, ck.paths[i]))
    ensures ok <==> RecordsOk(ck, i, z)
    ensures ok ==> seen.Some? && FindingFor(ck, i, seen.value)
  {
    assert AllDnames(ck.facts[i].servers);
    var ads, used;
    ok, ads, used := ProcServers(tree, g, z, g.facts[i].servers, ck);
    seen := Some(Finding(ads, used, deleg));
    if ok {
      UsedHere(ck, i, z, used);
      var valid := ProcTargets(tree, g, z, g.facts[i].targets, ck);
      ok := valid || !g.limits.strict;
    }
  }

  lemma UsedHere(ck: Checks, i: nat, z: nat, used: set<nat>)
    requires ChecksOk(ck) && i < |ck.heads| && IsZoneOf(ck.v, ck.paths, i, z) && AllDnames(ck.facts[i].servers)
    requires UsedAre(ck, z, ck.facts[i].servers, |ck.facts[i].servers|, used)
    ensures UsedExactly(ck, i, used)
  {
    forall n: nat ensures n in used <==> UsedAt(ck, i, n) {
      if UsedAt(ck, i, n) {
        var z' :| IsZoneOf(ck.v, ck.paths, i, z') &&
          MarkedBy(ck, z', ck.facts[i].servers, |ck.facts[i].servers|, n);
        ZoneOfUnique(ck.v, ck.paths, i, z, z');
      }
    }
  }

  /** The loops over a node's other records that lead to names. */
  method ProcTargets(tree: LTree, g: Given, z: nat, targets: seq<Bytes>, ghost ck: Checks) returns (valid: bool)
    requires Walkable(tree, g, ck) && z < |g.heads| && AllDnames(targets)
    ensures valid <==> TargetsOk(ck, z, targets, |targets|)
  {
    var k := 0;
    valid := true;
    while k < |targets|
      invariant 0 <= k <= |targets| && valid && TargetsOk(ck, z, targets, k)
    {
      valid := SetValidAddr(tree, g, z, targets[k], ck);
      if !valid {
        return;
      }
      OneMoreTarget(ck, z, targets, k);
      k := k + 1;
    }
  }

  lemma OneMoreTarget(ck: Checks, z: nat, targets: seq<Bytes>, k: nat)
    requires ViewOk(ck.v) && AllDnames(targets) && k < |targets| && TargetsOk(ck, z, targets, k)
    requires TargetOk(ck, z, targets[k])
    ensures TargetsOk(ck, z, targets, k + 1)
  {
  }

  /** `set_valid_addr`, but for the address. */
  method SetValidAddr(tree: LTree, g: Given, z: nat, dname: Bytes, ghost ck: Checks) returns (valid: bool)
    requires Walkable(tree, g, ck) && z < |g.heads| && IsDname(dname)
    ensures valid <==> TargetOk(ck, z, dname)
  {
    var status, node, crossed := tree.SearchDname(dname, z);
    OnlyAnswer(ck, dname, status, node);
    valid := status == Auth && crossed ==> node.Some? && node.value < |g.facts| && g.facts[node.value].addr.Some?;
  }

  lemma InTheZone(ck: Checks, i: nat, z: nat, ok: bool)
    requires ChecksOk(ck) && i < |ck.heads| && IsZoneOf(ck.v, ck.paths, i, z) && (ok <==> Checked(ck, i, z))
    requires ck.v.flags[i] != NO_FLAGS
    ensures ok <==> CheckedInZone(ck, i)
  {
    if CheckedInZone(ck, i) {
      var z' :| IsZoneOf(ck.v, ck.paths, i, z') && Checked(ck, i, z');
      ZoneOfUnique(ck.v, ck.paths, i, z, z');
    }
  }

  /** The loop over a node's name servers. */
  method ProcServers(tree: LTree, g: Given, z: nat, servers: seq<Bytes>, ghost ck: Checks)
    returns (ok: bool, ads: seq<Ad>, used: set<nat>)
    requires Walkable(tree, g, ck) && z < |g.heads| && AllDnames(servers)
    ensures ok <==> ServersOk(ck, z, servers, |servers|)
    ensures ok ==> |ads| == |servers| && AdsAre(ck, z, servers, ads) && UsedAre(ck, z, servers, |servers|, used)
  {
    ok, ads, used := true, [], {};
    while |ads| < |servers|
      invariant |ads| <= |servers| && ok && ServersOk(ck, z, servers, |ads|) && AdsAre(ck, z, servers, ads)
      invariant UsedAre(ck, z, servers, |ads|, used)
      decreases |servers| - |ads|
    {
      var ad, mark;
      ok, ad, mark := ProcNs(tree, g, z, servers[|ads|], ck);
      if !ok {
        return;
      }
      OneMoreAd(ck, z, servers, ads, ad);
      OneMoreMark(ck, z, servers, |ads|, used, mark);
      ads, used := ads + [ad], used + if mark.Some? then {mark.value} else {};
    }
  }

  lemma OneMoreAd(ck: Checks, z: nat, servers: seq<Bytes>, ads: seq<Ad>, ad: Ad)
    requires ViewOk(ck.v) && z < |ck.v.kids| && AllDnames(servers) && |ads| < |servers|
    requires ServersOk(ck, z, servers, |ads|) && ServerOk(ck, z, servers[|ads|])
    requires AdsAre(ck, z, servers, ads) && AdIs(ck, z, servers[|ads|], ad)
    ensures ServersOk(ck, z, servers, |ads| + 1) && AdsAre(ck, z, servers, ads + [ad])
  {
    forall s | 0 <= s < |ads| + 1 ensures AdIs(ck, z, servers[s], (ads + [ad])[s]) {
      if s < |ads| { assert AdIs(ck, z, servers[s], ads[s]); }
    }
  }

  lemma OneMoreMark(ck: Checks, z: nat, servers: seq<Bytes>, k: nat, used: set<nat>, mark: Option<nat>)
    requires ViewOk(ck.v) && z < |ck.v.kids| && AllDnames(servers) && k < |servers| && UsedAre(ck, z, servers, k, used)
    requires OnlyMark(ck, z, servers[k], mark)
    ensures UsedAre(ck, z, servers, k + 1, used + if mark.Some? then {mark.value} else {})
  {
    forall n: nat ensures MarkedBy(ck, z, servers, k + 1, n) <==> MarkedBy(ck, z, servers, k, n) || mark == Some(n) {
      if MarkedBy(ck, z, servers, k + 1, n) {
        var s :| 0 <= s < k + 1 && Marks(ck, z, servers[s], n);
        if s < k { assert MarkedBy(ck, z, servers, k, n); }
      }
    }
  }

  /** `p1_proc_ns`; `mark` is the node whose addresses it marks as used glue. */
  method ProcNs(tree: LTree, g: Given, z: nat, dname: Bytes, ghost ck: Checks)
    returns (ok: bool, ad: Ad, mark: Option<nat>)
    requires Walkable(tree, g, ck) && z < |g.heads| && IsDname(dname)
    ensures ok <==> ServerOk(ck, z, dname)
    ensures ok ==> AdIs(ck, z, dname, ad) && OnlyMark(ck, z, dname, mark)
  {
    var status, node, crossed := tree.SearchDname(dname, z);
    mark := None;
    if !crossed {
      mark := FindOoz(tree, z, dname[1..]);
    }
    var target := if node.Some? && node.value < |g.facts| then g.facts[node.value].addr else None;
    OnlyAnswer(ck, dname, status, node);
    if AddrNeeded(status, node, crossed, g.limits.strict) && target.None? {
      return false, Ad(None, false), None;
    }
    ok := true;
    Placed(ck, z, dname, status, node, mark);
    if mark.Some? {
      ad := Ad(g.facts[mark.value].addr, true);
    } else {
      ad := Ad(target, target.Some? && status == Deleg && crossed);
      mark := if target.Some? && status == Deleg then node else None;
    }
  }

  /** Where a server's addresses are, from what the searches found. */
  lemma Placed(ck: Checks, z: nat, dname: Bytes, status: Status, node: Option<nat>, ooz: Option<nat>)
    requires ViewOk(ck.v) && IsDname(dname) && z < |ck.v.kids|
    requires LoadAnswer(ck.v, LabelsAt(dname[1..], 0), status, node)
    requires ooz == if Crosses(ck.v, LabelsAt(dname[1..], 0), z) then None else OozNode(ck.v, z, dname[1..])
    ensures ooz.Some? ==> AdIs(ck, z, dname, Ad(AddrAt(ck, ooz), true)) && OnlyMark(ck, z, dname, ooz)
    ensures ooz.None? ==> AdIs(ck, z, dname, AdFrom(ck, status, node, Crosses(ck.v, LabelsAt(dname[1..], 0), z)))
    ensures ooz.None? ==> OnlyMark(ck, z, dname, if AddrAt(ck, node).Some? && status == Deleg then node else None)
  {
    OnlyAnswer(ck, dname, status, node);
  }

  /** That node, if any, is the one with the glue that the server uses. */
  ghost predicate OnlyMark(ck: Checks, z: nat, dname: Bytes, mark: Option<nat>)
    requires ViewOk(ck.v) && IsDname(dname) && z < |ck.v.kids|
  {
    forall n: nat :: Marks(ck, z, dname, n) <==> mark == Some(n)
  }

  lemma OnlyAnswer(ck: Checks, dname: Bytes, status: Status, node: Option<nat>)
    requires ViewOk(ck.v) && IsDname(dname) && LoadAnswer(ck.v, LabelsAt(dname[1..], 0), status, node)
    ensures forall s, n :: LoadAnswer(ck.v, LabelsAt(dname[1..], 0), s, n) ==> s == status && n == node
  {
    forall s, n | LoadAnswer(ck.v, LabelsAt(dname[1..], 0), s, n) ensures s == status && n == node {
      LoadAnswerUnique(ck.v, LabelsAt(dname[1..], 0), s, n, status, node);
    }
  }

  method FindOoz(tree: LTree, z: nat, w: Bytes) returns (r: Option<nat>)
    requires tree.Valid() && !tree.loading && z < |tree.nodes|
    ensures r == OozNode(tree.View(), z, w) && (r.Some? ==> r.value < |tree.nodes|)
  {
    r := tree.Child(z, OOZ_GLUE);
    if r.Some? {
      r := tree.Child(r.value, w);
    }
  }

  // ---- The second walk -------------------------------------------------------------------------

  /** Some name server uses the glue at node `n`. */
  ghost predicate IsUsed(ck: Checks, n: nat)
    requires ChecksOk(ck)
  {
    UsedBefore(ck, |ck.heads|, n)
  }

  /** A server of one of the first `i` nodes does. */
  ghost predicate UsedBefore(ck: Checks, i: nat, n: nat)
    requires ChecksOk(ck) && i <= |ck.heads|
  {
    AnyBelow(i, Users(ck, n))
  }

  ghost predicate AnyBelow(i: nat, f: nat -> bool) { exists j: nat :: j < i && f(j) }

  lemma AnyStep(i: nat, f: nat -> bool)
    ensures AnyBelow(i + 1, f) <==> AnyBelow(i, f) || f(i)
  {
    if AnyBelow(i + 1, f) {
      var j: nat :| j < i + 1 && f(j);
      assert j == i || AnyBelow(i, f);
    }
  }

  ghost function Users(ck: Checks, n: nat): nat -> bool
    requires ChecksOk(ck)
  {
    (j: nat) => j < |ck.heads| && UsedFrom(ck, j, n)
  }

  ghost predicate UsedFrom(ck: Checks, j: nat, n: nat)
    requires ChecksOk(ck) && j < |ck.heads|
  {
    HasServers(ck, j) && UsedAt(ck, j, n)
  }

  /** Glue at the node, and at a zone's root glue from outside, is used. */
  ghost predicate GlueUsedAt(ck: Checks, j: nat)
    requires ChecksOk(ck) && j < |ck.heads|
  {
    ck.v.flags[j] != NO_FLAGS ==>
      && (Delegated(ck.v, ck.paths, ck.paths[j]) && ck.facts[j].addr.Some? ==> IsUsed(ck, j))
      && (ck.v.flags[j].zroot ==> OozUsed(ck, j))
  }

  ghost predicate OozUsed(ck: Checks, z: nat)
    requires ChecksOk(ck) && z < |ck.v.kids|
  {
    forall w {:trigger OozNode(ck.v, z, w)} :: OozNode(ck.v, z, w).Some? ==> IsUsed(ck, OozNode(ck.v, z, w).value)
  }

  ghost predicate GlueUsed(ck: Checks)
    requires ChecksOk(ck)
  {
    GlueUsedTo(ck, |ck.heads|)
  }

  ghost predicate GlueUsedTo(ck: Checks, i: nat)
    requires ChecksOk(ck) && i <= |ck.heads|
  {
    forall j :: 0 <= j < i ==> GlueUsedAt(ck, j)
  }

  /** What the first walk left behind. */
  ghost predicate FirstDone(ck: Checks, found: map<nat, Finding>) {
    && AllPass(ck) && FoundRight(ck, found)
    && forall j :: 0 <= j < |ck.heads| && HasServers(ck, j) ==> j in found
  }

  ghost predicate MarkedTo(ck: Checks, i: nat, used: set<nat>)
    requires ChecksOk(ck) && i <= |ck.heads|
  {
    forall n: nat {:trigger n in used} :: n in used <==> UsedBefore(ck, i, n)
  }

  /** All glue that was marked as used. */
  method AllMarks(g: Given, found: map<nat, Finding>, ghost ck: Checks) returns (used: set<nat>)
    requires FirstDone(ck, found) && g.heads == ck.heads
    ensures MarkedTo(ck, |ck.heads|, used)
  {
    var i := 0;
    used := {};
    while i < |g.heads|
      invariant 0 <= i <= |g.heads| && MarkedTo(ck, i, used)
    {
      var more := if i in found then found[i].used else {};
      MarksOfOne(ck, found, i);
      MarksJoin(ck, i, used, more);
      used := used + more;
      i := i + 1;
    }
  }

  lemma MarksOfOne(ck: Checks, found: map<nat, Finding>, i: nat)
    requires FirstDone(ck, found) && i < |ck.heads|
    ensures i in found <==> HasServers(ck, i)
    ensures i in found ==> UsedExactly(ck, i, found[i].used)
  {
    if i in found { assert FindingFor(ck, i, found[i]); }
  }

  lemma MarksJoin(ck: Checks, i: nat, used: set<nat>, more: set<nat>)
    requires ChecksOk(ck) && i < |ck.heads| && MarkedTo(ck, i, used)
    requires if HasServers(ck, i) then UsedExactly(ck, i, more) else more == {}
    ensures MarkedTo(ck, i + 1, used + more)
  {
    forall n: nat ensures n in used + more <==> UsedBefore(ck, i + 1, n) {
      OneNodeMore(ck, i, n);
    }
  }

  lemma OneNodeMore(ck: Checks, i: nat, n: nat)
    requires ChecksOk(ck) && i < |ck.heads|
    ensures UsedBefore(ck, i + 1, n) <==> UsedBefore(ck, i, n) || UsedFrom(ck, i, n)
  {
    AnyStep(i, Users(ck, n));
  }

  /**
    `ltree_process` with `ltree_proc_phase2`: glue that no name server uses is only refused if suspect data is.
    The other check of that phase is made in the first walk.
   */
  method ProcPhase2(tree: LTree, g: Given, found: map<nat, Finding>, ghost ck: Checks) returns (ok: bool)
    requires Walkable(tree, g, ck) && FirstDone(ck, found)
    ensures ok <==> GlueUsed(ck)
  {
    var used := AllMarks(g, found, ck);
    var i := 0;
    ok := true;
    while i < |g.heads|
      invariant 0 <= i <= |g.heads| && ok && GlueUsedTo(ck, i)
    {
      ok := GlueNode(tree, g, i, found, used, ck);
      GlueStep(ck, i);
      if !ok {
        return;
      }
      i := i + 1;
    }
  }

  lemma GlueStep(ck: Checks, i: nat)
    requires ChecksOk(ck) && i < |ck.heads| && GlueUsedTo(ck, i)
    ensures if GlueUsedAt(ck, i) then GlueUsedTo(ck, i + 1) else !GlueUsed(ck)
  {
  }

  method GlueNode(tree: LTree, g: Given, i: nat, found: map<nat, Finding>, used: set<nat>, ghost ck: Checks)
    returns (ok: bool)
    requires Walkable(tree, g, ck) && FirstDone(ck, found) && i < |g.heads| && MarkedTo(ck, |ck.heads|, used)
    ensures ok <==> GlueUsedAt(ck, i)
  {
    BelowFound(ck, found, i);
    ok := i in found && found[i].below && g.facts[i].addr.Some? ==> i in used;
    if ok && tree.nodes[i].flags.zroot {
      ok := OozCheckGlue(tree, i, used, ck);
    }
  }

  /** Where a node is delegated, the first walk has looked at its servers. */
  lemma BelowFound(ck: Checks, found: map<nat, Finding>, i: nat)
    requires FirstDone(ck, found) && i < |ck.heads|
    ensures ck.v.flags[i] != NO_FLAGS && Delegated(ck.v, ck.paths, ck.paths[i]) <==> i in found && found[i].below
  {
    assert NodePassed(ck, i);
  }

  /** `ooz_check_glue`. */
  method OozCheckGlue(tree: LTree, z: nat, used: set<nat>, ghost ck: Checks) returns (ok: bool)
    requires tree.Valid() && !tree.loading && ChecksOk(ck) && ck.v == tree.View() && z < |tree.nodes|
    requires MarkedTo(ck, |ck.heads|, used)
    ensures ok <==> OozUsed(ck, z)
  {
    var ooz := tree.Child(z, OOZ_GLUE);
    ok := true;
    if ooz.Some? {
      TableAt(tree, ooz.value);
      ok := TableUsed(tree.nodes[ooz.value].table, used, ck.v.kids[ooz.value]);
    }
    OozByLabels(ck, z, used);
  }

  lemma OozByLabels(ck: Checks, z: nat, used: set<nat>)
    requires ChecksOk(ck) && z < |ck.v.kids| && MarkedTo(ck, |ck.heads|, used)
    ensures OozUsed(ck, z) <==>
              (OOZ_GLUE in ck.v.kids[z] ==> ChildrenIn(ck.v.kids[ck.v.kids[z][OOZ_GLUE]], used))
  {
    if OOZ_GLUE in ck.v.kids[z] {
      var m := ck.v.kids[ck.v.kids[z][OOZ_GLUE]];
      forall w | w in m ensures OozNode(ck.v, z, w) == Some(m[w]) {}
    }
  }

  ghost predicate ChildrenIn(m: map<Label, nat>, used: set<nat>) { forall l :: l in m ==> m[l] in used }

  method TableUsed(table: Table, used: set<nat>, ghost m: map<Label, nat>) returns (ok: bool)
    requires Represents(table, m)
    ensures ok <==> ChildrenIn(m, used)
  {
    var s := 0;
    ok := true;
    while s < |table.slots|
      invariant 0 <= s <= |table.slots| && ok && forall r :: 0 <= r < s ==> EntriesUsed(table.slots[r], used)
    {
      ok := ChainUsed(table.slots[s], used);
      if !ok {
        UnusedEntry(table, m, s, used);
        return;
      }
      s := s + 1;
    }
    AllEntries(table, m, used);
  }

  predicate EntriesUsed(chain: seq<Entry>, used: set<nat>) {
    forall k :: 0 <= k < |chain| ==> chain[k].node in used
  }

  method ChainUsed(chain: seq<Entry>, used: set<nat>) returns (ok: bool)
    ensures ok <==> EntriesUsed(chain, used)
  {
    var k := 0;
    while k < |chain|
      invariant 0 <= k <= |chain| && forall j :: 0 <= j < k ==> chain[j].node in used
    {
      if chain[k].node !in used {
        return false;
      }
      k := k + 1;
    }
    ok := true;
  }

  lemma UnusedEntry(t: Table, m: map<Label, nat>, s: nat, used: set<nat>)
    requires Represents(t, m) && s < |t.slots| && !EntriesUsed(t.slots[s], used)
    ensures !ChildrenIn(m, used)
  {
    ChainEntries(t, m, s);
  }

  lemma AllEntries(t: Table, m: map<Label, nat>, used: set<nat>)
    requires Represents(t, m) && forall r :: 0 <= r < |t.slots| ==> EntriesUsed(t.slots[r], used)
    ensures ChildrenIn(m, used)
  {
    forall l | l in m ensures m[l] in used {
      ChildInSlots(t, m, l);
      var s, k :| 0 <= s < |t.slots| && 0 <= k < |t.slots[s]| && t.slots[s][k].key == l;
      ChainEntries(t, m, s);
      assert EntriesUsed(t.slots[s], used);
    }
  }

  /** Both walks, from the root. */
  method ValidateTree(tree: LTree, g: Given, ghost ck: Checks) returns (ok: bool, found: map<nat, Finding>)
    requires Walkable(tree, g, ck)
    ensures ok <==> AllPass(ck) && (ck.strict ==> GlueUsed(ck))
    ensures ok ==> FirstDone(ck, found)
  {
    ok, found := ProcInner(tree, g, 0, [], None, false, ck);
    if ok {
      var used := ProcPhase2(tree, g, found, ck);
      ok := used || !g.limits.strict;
    }
  }

  // ---- What passing gives --------------------------------------------------------------------------

  /**
    The theorem: once validation has passed, no run-time chain of static CNAMEs from a query's answer node,
    found in zone `zone`, is longer than the limit.
   */
  lemma NoStaticChainTooLong(ck: Checks, name: Name, node: nat, zone: nat, cut: nat, ns: seq<nat>, zs: seq<nat>)
    requires AllPass(ck)
    requires node < |ck.heads| && RunAnswer(ck.v, name, Auth, Some(node), Some(zone), cut)
    requires ck.v.flags[node] != NO_FLAGS && !ck.v.flags[node].zroot
    requires RunPath(ck.v, ck.heads, true, ns, zs) && ns[0] == node && zs[0] == zone
    ensures |ns| <= ck.max
  {
    CleanCuts(ck);
    assert NodePassed(ck, node) && ck.heads[ns[0]].StaticCname?;
    var z :| IsZoneOf(ck.v, ck.paths, node, z) && Checked(ck, node, z);
    AnswerZone(ck.v, ck.paths, name, node, zone, cut, z);
    ShortEnough(ck.v, ck.paths, ck.heads, ck.max, ns, zs);
  }

  /** Once strict validation has passed, no static CNAME leads to a name of its own zone that is missing or empty. */
  lemma StrictTargetsThere(ck: Checks, i: nat, z: nat, node: Option<nat>, zone: Option<nat>, cut: nat)
    requires AllPass(ck) && ck.strict && i < |ck.heads| && ck.heads[i].StaticCname? && ck.v.flags[i] != NO_FLAGS
    requires IsLink(ck.heads[i]) && IsZoneOf(ck.v, ck.paths, i, z) && Crosses(ck.v, TargetOf(ck.heads[i]), z)
    requires RunAnswer(ck.v, TargetOf(ck.heads[i]), Auth, node, zone, cut)
    ensures node.Some? && node.value < |ck.heads| && ck.heads[node.value] != NoCname(false)
  {
    assert NodePassed(ck, i);
    var z' :| IsZoneOf(ck.v, ck.paths, i, z') && Checked(ck, i, z');
    ZoneOfUnique(ck.v, ck.paths, i, z, z');
    RunIsLoad(ck.v, TargetOf(ck.heads[i]), node, zone, cut);
  }

  /** What validation sees to at a delegation. */
  lemma CleanCut(ck: Checks, i: nat)
    requires AllPass(ck) && i < |ck.heads| && IsDeleg(ck.v.flags[i])
    ensures DelegOk(ck.v.flags[i], LabelOf(ck.paths[i]), ck.heads[i], ck.facts[i], ck.maxAddtl)
  {
    assert NodePassed(ck, i);
    DelegEnter(ck.v, ck.paths, i);
  }

  lemma CleanCuts(ck: Checks)
    requires AllPass(ck)
    ensures CutsClean(ck.v, ck.heads)
  {
    forall i | 0 <= i < |ck.heads| && ck.v.flags[i].deleg && !ck.v.flags[i].zroot ensures ck.heads[i].NoCname? {
      CleanCut(ck, i);
    }
  }
}
