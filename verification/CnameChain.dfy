/**
  CNAME chains.  At load time every static CNAME's chain is followed, within the zone
  it starts in, and bounded; at run time a chain is followed through ever deeper zones.
  The load-time bound covers the run-time chains.
 */
module CnameChain {
  import opened Names
  import opened LookupRule
  import opened LabelTree
  import opened ChildTable

  /** What a node has, as far as chains go: a CNAME, whose target is a dname, or none, with or without other data. */
  datatype Head = NoCname(hasData: bool) | StaticCname(target: Bytes) | DynamicCname(target: Bytes)

  predicate IsLink(h: Head) { !h.NoCname? }

  ghost predicate HeadsLegal(v: View, heads: seq<Head>) {
    ViewOk(v) && |heads| == |v.kids| &&
    forall i {:trigger IsLink(heads[i])} :: 0 <= i < |heads| && IsLink(heads[i]) ==> IsDname(heads[i].target)
  }

  ghost function TargetOf(h: Head): Name
    requires IsLink(h) && IsDname(h.target)
  {
    LabelsAt(h.target[1..], 0)
  }

  // ---- Run time ------------------------------------------------------------------------

  /** A CNAME, or with `strict` a static one. */
  predicate Linked(h: Head, strict: bool) {
    if strict then h.StaticCname? else IsLink(h)
  }

  /** From node `i`, found in zone `z`, the run-time chain goes on to node `i'`, found in zone `z'`. */
  ghost predicate RunStep(v: View, heads: seq<Head>, i: nat, z: nat, i': nat, z': nat)
    requires HeadsLegal(v, heads) && i < |heads|
  {
    && IsLink(heads[i]) && i' < |heads| && z' < |heads|
    && Crosses(v, TargetOf(heads[i]), z)
    && exists status, cut :: RunAnswer(v, TargetOf(heads[i]), status, Some(i'), Some(z'), cut)
  }

  /** The nodes `ns`, found in zones `zs`, are a run-time chain; with `strict`, of static CNAMEs. */
  ghost predicate RunPath(v: View, heads: seq<Head>, strict: bool, ns: seq<nat>, zs: seq<nat>)
    requires HeadsLegal(v, heads)
  {
    && 0 < |ns| == |zs|
    && (forall k :: 0 <= k < |ns| ==> ns[k] < |heads| && Linked(heads[ns[k]], strict))
    && (forall k {:trigger SteppedAt(v, heads, ns, zs, k)} :: 0 <= k < |ns| - 1 ==> SteppedAt(v, heads, ns, zs, k))
  }

  ghost predicate SteppedAt(v: View, heads: seq<Head>, ns: seq<nat>, zs: seq<nat>, k: nat)
    requires HeadsLegal(v, heads) && k < |ns| - 1 && |ns| == |zs|
  {
    ns[k] < |heads| && RunStep(v, heads, ns[k], zs[k], ns[k + 1], zs[k + 1])
  }

  // ---- Load time -----------------------------------------------------------------------

  /** From node `i` the load-time chain, confined to zone `z`, goes on to node `i'`. */
  ghost predicate LoadStep(v: View, heads: seq<Head>, i: nat, z: nat, i': nat)
    requires HeadsLegal(v, heads) && i < |heads|
  {
    heads[i].StaticCname? && i' < |heads| &&
    Crosses(v, TargetOf(heads[i]), z) && LoadAnswer(v, TargetOf(heads[i]), Auth, Some(i'))
  }

  /** The nodes `ns` are a load-time chain of static CNAMEs in zone `z`. */
  ghost predicate LoadPath(v: View, heads: seq<Head>, z: nat, ns: seq<nat>)
    requires HeadsLegal(v, heads)
  {
    && ns != []
    && (forall k :: 0 <= k < |ns| ==> ns[k] < |heads| && heads[ns[k]].StaticCname?)
    && (forall k :: 0 <= k < |ns| - 1 ==> LoadStep(v, heads, ns[k], z, ns[k + 1]))
  }

  /** More than `max` CNAMEs follow each other from node `i`, itself included. */
  ghost predicate TooLong(v: View, heads: seq<Head>, i: nat, z: nat, max: nat)
    requires HeadsLegal(v, heads)
  {
    exists ns :: |ns| == max + 1 && ns[0] == i && LoadPath(v, heads, z, ns)
  }

  lemma LoadAnswerUnique(v: View, name: Name, s: Status, n: Option<nat>, s': Status, n': Option<nat>)
    requires ViewOk(v) && LoadAnswer(v, name, s, n) && LoadAnswer(v, name, s', n')
    ensures s == s' && n == n'
  {
    var e :| IsEncloser(v, name, e) && LoadAnswerAt(v, name, e, s, n);
    var e' :| IsEncloser(v, name, e') && LoadAnswerAt(v, name, e', s', n');
    EncloserUnique(v, name, e, e');
    CutUnique(v, name, e);
  }

  lemma LoadStepUnique(v: View, heads: seq<Head>, i: nat, z: nat, j: nat, k: nat)
    requires HeadsLegal(v, heads) && i < |heads| && LoadStep(v, heads, i, z, j) && LoadStep(v, heads, i, z, k)
    ensures j == k
  {
    LoadAnswerUnique(v, TargetOf(heads[i]), Auth, Some(j), Auth, Some(k));
  }

  /** Chains that start together stay together. */
  lemma {:induction false} PathsAgree(v: View, heads: seq<Head>, z: nat, p: seq<nat>, q: seq<nat>, k: nat)
    requires HeadsLegal(v, heads) && LoadPath(v, heads, z, p) && LoadPath(v, heads, z, q) && p[0] == q[0]
    requires k < |p| && k < |q|
    ensures p[k] == q[k]
  {
    if k != 0 {
      PathsAgree(v, heads, z, p, q, k - 1);
      assert LoadStep(v, heads, p[k - 1], z, p[k - 1 + 1]) && LoadStep(v, heads, q[k - 1], z, q[k - 1 + 1]);
      LoadStepUnique(v, heads, p[k - 1], z, p[k], q[k]);
    }
  }

  lemma PathOn(v: View, heads: seq<Head>, z: nat, p: seq<nat>, i: nat)
    requires HeadsLegal(v, heads) && LoadPath(v, heads, z, p) && LoadStep(v, heads, p[|p| - 1], z, i)
    requires i < |heads| && heads[i].StaticCname?
    ensures LoadPath(v, heads, z, p + [i])
  {
    var q := p + [i];
    forall k | 0 <= k < |q| - 1 ensures LoadStep(v, heads, q[k], z, q[k + 1]) {
      if k < |p| - 1 { assert LoadStep(v, heads, p[k], z, p[k + 1]); }
    }
  }

  /** Where a chain stops before the limit, no chain from its start passes the limit. */
  lemma PathEnds(v: View, heads: seq<Head>, z: nat, p: seq<nat>, max: nat)
    requires HeadsLegal(v, heads) && LoadPath(v, heads, z, p) && |p| <= max
    requires DeadEnd(v, heads, z, p[|p| - 1])
    ensures !TooLong(v, heads, p[0], z, max)
  {
    forall q: seq<nat> | LoadPath(v, heads, z, q) && q[0] == p[0] ensures |q| <= |p| {
      if |q| > |p| {
        var k := |p| - 1;
        assert LoadStep(v, heads, q[k], z, q[k + 1]);
        PathsAgree(v, heads, z, p, q, k);
      }
    }
  }

  /** The chain stops at node `i`. */
  ghost predicate DeadEnd(v: View, heads: seq<Head>, z: nat, i: nat)
    requires HeadsLegal(v, heads) && i < |heads|
  {
    forall j: nat :: LoadStep(v, heads, i, z, j) ==> !heads[j].StaticCname?
  }

  /** If a CNAME's target is authoritative in the CNAME's own zone, it exists and has data. */
  ghost predicate TargetThere(v: View, heads: seq<Head>, i: nat, z: nat)
    requires HeadsLegal(v, heads) && i < |heads| && heads[i].StaticCname?
  {
    Crosses(v, TargetOf(heads[i]), z) ==>
      forall node :: LoadAnswer(v, TargetOf(heads[i]), Auth, node) ==> NodeThere(heads, node)
  }

  predicate NodeThere(heads: seq<Head>, node: Option<nat>) {
    node.Some? && node.value < |heads| && heads[node.value] != NoCname(false)
  }

  /**
    `p1_proc_cname`: follow the chain from a static CNAME.  It fails when the chain passes the limit, and with
    `strict`, as the configuration may ask for, when the CNAME's own target is missing.
   */
  method ProcCname(tree: LTree, heads: seq<Head>, i: nat, z: nat, max: nat, strict: bool) returns (ok: bool)
    requires tree.Valid() && !tree.loading && HeadsLegal(tree.View(), heads) && i < |heads| && heads[i].StaticCname?
    requires max > 0
    ensures ok <==> !TooLong(tree.View(), heads, i, z, max) && (strict ==> TargetThere(tree.View(), heads, i, z))
  {
    ghost var v := tree.View();
    ghost var p: seq<nat> := [i];
    var depth := 1;
    var node: nat, more: bool, there: bool := NextCname(tree, heads, i, z);
    if strict && !there {
      return false;
    }
    while more
      invariant LoadPath(v, heads, z, p) && p[0] == i && |p| == depth <= max
      invariant node < |heads| && (more ==> heads[node].StaticCname? && LoadStep(v, heads, p[|p| - 1], z, node))
      invariant !more ==> DeadEnd(v, heads, z, p[|p| - 1])
      decreases max - depth
    {
      PathOn(v, heads, z, p, node);
      p := p + [node];
      depth := depth + 1;
      if depth > max {
        return false;
      }
      node, more, there := NextCname(tree, heads, node, z);
    }
    PathEnds(v, heads, z, p, max);
    ok := true;
  }

  /** The search for a CNAME's target, and the loop test on what it found. */
  method NextCname(tree: LTree, heads: seq<Head>, i: nat, z: nat) returns (next: nat, more: bool, there: bool)
    requires tree.Valid() && !tree.loading && HeadsLegal(tree.View(), heads) && i < |heads| && heads[i].StaticCname?
    ensures next < |heads| && (more ==> heads[next].StaticCname? && LoadStep(tree.View(), heads, i, z, next))
    ensures !more ==> DeadEnd(tree.View(), heads, z, i)
    ensures there <==> TargetThere(tree.View(), heads, i, z)
  {
    assert IsLink(heads[i]);
    var status: Status, node: Option<nat>, crossed: bool := tree.SearchDname(heads[i].target, z);
    next := i;
    there := crossed && status == Auth ==> NodeThere(heads, node);
    OnlyTarget(tree.View(), heads, i, status, node);
    more := crossed && status == Auth && node.Some? && node.value < |heads| && heads[node.value].StaticCname?;
    if more {
      next := node.value;
    }
  }

  lemma OnlyTarget(v: View, heads: seq<Head>, i: nat, status: Status, node: Option<nat>)
    requires HeadsLegal(v, heads) && i < |heads| && IsLink(heads[i]) && LoadAnswer(v, TargetOf(heads[i]), status, node)
    ensures forall n :: LoadAnswer(v, TargetOf(heads[i]), Auth, n) ==> status == Auth && n == node
  {
    forall n | LoadAnswer(v, TargetOf(heads[i]), Auth, n) ensures status == Auth && n == node {
      LoadAnswerUnique(v, TargetOf(heads[i]), status, node, Auth, n);
    }
  }

  // ---- The load-time bound covers run time ---------------------------------------------

  lemma {:induction false} NodePath(v: View, paths: seq<Name>, name: Name, k: nat)
    requires ViewOk(v) && Shape(v.kids, paths) && k <= |name| && NodeAt(v, name, k).Some?
    ensures paths[NodeAt(v, name, k).value] == PathOf(name, k)
  {
    if k != 0 {
      NodePath(v, paths, name, k - 1);
      PathStep(name, k - 1);
    }
  }

  lemma PathPrefix(name: Name, j: nat, k: nat)
    requires j <= k <= |name|
    ensures PathOf(name, j) <= PathOf(name, k) && PathOf(name, k)[..j] == PathOf(name, j)
  {
  }

  /** A search that passes through a node has passed through the nodes above it. */
  lemma CrossAbove(v: View, paths: seq<Name>, name: Name, z: nat, above: nat)
    requires ViewOk(v) && Shape(v.kids, paths) && z < |paths| && above < |paths|
    requires Crosses(v, name, z) && paths[above] <= paths[z]
    ensures Crosses(v, name, above)
  {
    var k :| 0 <= k <= |name| && NodeAt(v, name, k) == Some(z);
    NodePath(v, paths, name, k);
    var m := |paths[above]|;
    NodeAtPrefix(v, name, m, k);
    NodePath(v, paths, name, m);
    PathPrefix(name, m, k);
    var a := NodeAt(v, name, m).value;
    assert paths[a] == paths[above];
    assert a == above;
  }

  /** The zone an answer is found in is at or below every zone its search passes through. */
  lemma ZoneBelow(v: View, paths: seq<Name>, name: Name, status: Status, node: Option<nat>, z': nat, cut: nat, z: nat)
    requires ViewOk(v) && Shape(v.kids, paths) && z < |paths| && v.flags[z].zroot
    requires RunAnswer(v, name, status, node, Some(z'), cut) && Crosses(v, name, z)
    ensures z' < |paths| && v.flags[z'].zroot && paths[z] <= paths[z'] && Crosses(v, name, z')
  {
    var e: nat :| IsEncloser(v, name, e) && RunAnswerAt(v, name, e, status, node, Some(z'), cut);
    var k: nat :| k <= |name| && NodeAt(v, name, k) == Some(z);
    var j := ZoneUnder(v, name, e, k);
    assert NodeAt(v, name, j) == Some(z');
    NodesUnder(v, paths, name, k, j);
  }

  /** The deepest zone root on the way is at or under any zone root on the way. */
  lemma ZoneUnder(v: View, name: Name, e: nat, k: nat) returns (j: nat)
    requires ViewOk(v) && IsEncloser(v, name, e) && k <= |name| && RootAt(v, name, k)
    ensures DeepestZone(v, name, e, j) && k <= j
  {
    if k > e { NodeAtPrefix(v, name, e + 1, k); }
    ZoneExists(v, name, e);
    j :| DeepestZone(v, name, e, j);
  }

  /** The node for fewer labels of a name is above the node for more. */
  lemma NodesUnder(v: View, paths: seq<Name>, name: Name, k: nat, j: nat)
    requires ViewOk(v) && Shape(v.kids, paths) && k <= j <= |name| && NodeAt(v, name, k).Some?
    requires NodeAt(v, name, j).Some?
    ensures paths[NodeAt(v, name, k).value] <= paths[NodeAt(v, name, j).value]
  {
    NodePath(v, paths, name, k);
    NodePath(v, paths, name, j);
    PathPrefix(name, k, j);
  }

  /** The run-time answer in authoritative space is the load-time answer. */
  lemma RunIsLoad(v: View, name: Name, node: Option<nat>, zone: Option<nat>, cut: nat)
    requires ViewOk(v) && RunAnswer(v, name, Auth, node, zone, cut)
    ensures LoadAnswer(v, name, Auth, node)
  {
    var e :| IsEncloser(v, name, e) && RunAnswerAt(v, name, e, Auth, node, zone, cut);
    assert LoadAnswerAt(v, name, e, Auth, node);
  }

  /** No delegation point is a CNAME; validation refuses that. */
  ghost predicate CutsClean(v: View, heads: seq<Head>) {
    |heads| == |v.flags| && forall i :: 0 <= i < |heads| && v.flags[i].deleg && !v.flags[i].zroot ==> heads[i].NoCname?
  }

  /** Zones along a run-time chain only move down. */
  lemma {:induction false} ZonesDescend(v: View, paths: seq<Name>, heads: seq<Head>, ns: seq<nat>, zs: seq<nat>,
                                        top: nat, k: nat)
    requires HeadsLegal(v, heads) && Shape(v.kids, paths) && RunPath(v, heads, true, ns, zs) && k < |ns|
    requires zs[0] < |paths| && top < |paths| && v.flags[zs[0]].zroot && paths[top] <= paths[zs[0]]
    ensures zs[k] < |paths| && v.flags[zs[k]].zroot && paths[top] <= paths[zs[k]]
  {
    if k != 0 {
      ZonesDescend(v, paths, heads, ns, zs, top, k - 1);
      var j := k - 1;
      assert SteppedAt(v, heads, ns, zs, j);
      ZoneDescends(v, paths, heads, ns[j], zs[j], ns[k], zs[k]);
      PrefixChain(paths[top], paths[zs[j]], paths[zs[k]]);
    }
  }

  lemma PrefixChain(a: Name, b: Name, c: Name)
    requires a <= b <= c
    ensures a <= c
  {
  }

  lemma ZoneDescends(v: View, paths: seq<Name>, heads: seq<Head>, i: nat, z: nat, i': nat, z': nat)
    requires HeadsLegal(v, heads) && Shape(v.kids, paths) && i < |heads| && RunStep(v, heads, i, z, i', z')
    requires z < |paths| && v.flags[z].zroot
    ensures z' < |paths| && v.flags[z'].zroot && paths[z] <= paths[z']
  {
    var name := TargetOf(heads[i]);
    var status, cut :| RunAnswer(v, name, status, Some(i'), Some(z'), cut);
    ZoneBelow(v, paths, name, status, Some(i'), z', cut, z);
  }

  /**
    A run-time chain of static CNAMEs, however its zone moves down, is a load-time chain of the zone `top`
    at or above where it began.
   */
  lemma ChainCovered(v: View, paths: seq<Name>, heads: seq<Head>, ns: seq<nat>, zs: seq<nat>, top: nat)
    requires HeadsLegal(v, heads) && Shape(v.kids, paths) && CutsClean(v, heads) && RunPath(v, heads, true, ns, zs)
    requires zs[0] < |paths| && top < |paths| && v.flags[zs[0]].zroot && paths[top] <= paths[zs[0]]
    ensures LoadPath(v, heads, top, ns)
  {
    forall k | 0 <= k < |ns| - 1 ensures LoadStep(v, heads, ns[k], top, ns[k + 1]) {
      ZonesDescend(v, paths, heads, ns, zs, top, k);
      assert SteppedAt(v, heads, ns, zs, k);
      var name := TargetOf(heads[ns[k]]);
      var status, cut :| RunAnswer(v, name, status, Some(ns[k + 1]), Some(zs[k + 1]), cut);
      CrossAbove(v, paths, name, zs[k], top);
      NoLinkAtCut(v, heads, name, status, ns[k + 1], Some(zs[k + 1]), cut);
      RunIsLoad(v, name, Some(ns[k + 1]), Some(zs[k + 1]), cut);
    }
  }

  lemma NoLinkAtCut(v: View, heads: seq<Head>, name: Name, status: Status, i: nat, zone: Option<nat>, cut: nat)
    requires HeadsLegal(v, heads) && CutsClean(v, heads) && i < |heads| && IsLink(heads[i])
    requires RunAnswer(v, name, status, Some(i), zone, cut)
    ensures status == Auth
  {
    var e :| IsEncloser(v, name, e) && RunAnswerAt(v, name, e, status, Some(i), zone, cut);
  }

  // ---- Zones of nodes ----------------------------------------------------------------------

  /** `z` is the zone node `j` is in: the deepest zone root at or above it. */
  ghost predicate IsZoneOf(v: View, paths: seq<Name>, j: nat, z: nat)
    requires |v.flags| == |paths| && j < |paths|
  {
    && z < |paths| && v.flags[z].zroot && paths[z] <= paths[j]
    && forall k :: 0 <= k < |paths| && paths[k] <= paths[j] && v.flags[k].zroot ==> paths[k] <= paths[z]
  }

  /** A run-time chain is short if load-time chains of its first zone are. */
  lemma ShortEnough(v: View, paths: seq<Name>, heads: seq<Head>, max: nat, ns: seq<nat>, zs: seq<nat>)
    requires HeadsLegal(v, heads) && Shape(v.kids, paths) && CutsClean(v, heads) && RunPath(v, heads, true, ns, zs)
    requires zs[0] < |paths| && v.flags[zs[0]].zroot && !TooLong(v, heads, ns[0], zs[0], max)
    ensures |ns| <= max
  {
    ChainCovered(v, paths, heads, ns, zs, zs[0]);
    if |ns| > max {
      LoadPathPrefix(v, heads, zs[0], ns, max + 1);
    }
  }

  lemma LoadPathPrefix(v: View, heads: seq<Head>, z: nat, ns: seq<nat>, n: nat)
    requires HeadsLegal(v, heads) && LoadPath(v, heads, z, ns) && 0 < n <= |ns|
    ensures TooLong(v, heads, ns[0], z, n - 1)
  {
    assert LoadPath(v, heads, z, ns[..n]);
  }

  /** A node whose path is a prefix of a name's path is on the way to that name. */
  lemma OnTheWay(v: View, paths: seq<Name>, name: Name, e: nat, k: nat)
    requires ViewOk(v) && Shape(v.kids, paths) && e <= |name| && NodeAt(v, name, e).Some?
    requires k < |paths| && paths[k] <= PathOf(name, e)
    ensures |paths[k]| <= e && NodeAt(v, name, |paths[k]|) == Some(k)
  {
    var m := |paths[k]|;
    NodeAtPrefix(v, name, m, e);
    NodePath(v, paths, name, m);
    PathPrefix(name, m, e);
    var a := NodeAt(v, name, m).value;
    assert paths[a] == paths[k];
  }

  /** The answer's node is the encloser itself or its wildcard child. */
  lemma AnswerPath(v: View, paths: seq<Name>, name: Name, node: nat, e: nat)
    requires ViewOk(v) && Shape(v.kids, paths) && IsEncloser(v, name, e) && AuthNode(v, name, e) == Some(node)
    ensures node < |paths| && (paths[node] == PathOf(name, e) || paths[node] == PathOf(name, e) + [STAR])
  {
    NodePath(v, paths, name, e);
  }

  /** The zone a query's answer is found in is the zone validation walked the answer's node in. */
  lemma AnswerZone(v: View, paths: seq<Name>, name: Name, node: nat, zone: nat, cut: nat, z: nat)
    requires ViewOk(v) && Shape(v.kids, paths) && node < |paths|
    requires RunAnswer(v, name, Auth, Some(node), Some(zone), cut)
    requires !v.flags[node].zroot && IsZoneOf(v, paths, node, z)
    ensures zone == z
  {
    var e: nat :| IsEncloser(v, name, e) && RunAnswerAt(v, name, e, Auth, Some(node), Some(zone), cut);
    AnswerPath(v, paths, name, node, e);
    var p := PathOf(name, e);
    assert paths[z] <= p by { AtOrAbove(paths, node, z, p); }
    OnTheWay(v, paths, name, e, z);
    assert RootAt(v, name, |paths[z]|);
    ZoneAt(v, paths, name, e, node, zone, cut);
    NodePath(v, paths, name, e);
    assert paths[zone] <= p <= paths[node];
    OnTheWay(v, paths, name, e, zone);
  }

  lemma AtOrAbove(paths: seq<Name>, node: nat, z: nat, p: Name)
    requires node < |paths| && z < |paths| && z != node && paths[z] <= paths[node] && paths[z] != paths[node]
    requires paths[node] == p || paths[node] == p + [STAR]
    ensures paths[z] <= p
  {
    PrefixStep(paths[z], p, STAR);
  }

  lemma ZoneAt(v: View, paths: seq<Name>, name: Name, e: nat, node: nat, zone: nat, cut: nat)
    requires ViewOk(v) && Shape(v.kids, paths) && IsEncloser(v, name, e)
    requires RunAnswerAt(v, name, e, Auth, Some(node), Some(zone), cut)
    ensures zone < |paths| && v.flags[zone].zroot && paths[zone] <= PathOf(name, e)
    ensures forall m {:trigger RootAt(v, name, m)} :: |paths[zone]| < m <= e ==> !RootAt(v, name, m)
  {
    ZoneExists(v, name, e);
    assert RootAt(v, name, cut);
    var j: nat :| DeepestZone(v, name, e, j);
    NodePath(v, paths, name, j);
    PathPrefix(name, j, e);
  }

  // ---- Out-of-zone glue ------------------------------------------------------------------

  /** The label under which a zone's root keeps glue for names outside the zone. */
  const OOZ_GLUE: Label := []

  /** Labels of names have bytes. */
  lemma NoEmptyLabel(w: Bytes)
    requires WireAt(w, 0)
    ensures OOZ_GLUE !in LabelsAt(w, 0)
  {
    LabelsLegal(w, 0);
  }

  lemma PathHasLabels(name: Name, k: nat)
    requires OOZ_GLUE !in name && k <= |name|
    ensures OOZ_GLUE !in PathOf(name, k)
  {
  }

  /** No search for a name, of a query or a CNAME, ends at or under that label. */
  lemma GlueNeverReached(v: View, paths: seq<Name>, w: Bytes, status: Status, node: nat, zone: Option<nat>, cut: nat)
    requires ViewOk(v) && Shape(v.kids, paths) && WireAt(w, 0)
    requires RunAnswer(v, LabelsAt(w, 0), status, Some(node), zone, cut)
    ensures node < |paths| && OOZ_GLUE !in paths[node]
  {
    var name := LabelsAt(w, 0);
    NoEmptyLabel(w);
    var e: nat :| IsEncloser(v, name, e) && RunAnswerAt(v, name, e, status, Some(node), zone, cut);
    PathHasLabels(name, e);
    if status == Auth {
      AnswerPath(v, paths, name, node, e);
    } else {
      PathHasLabels(name, cut);
      CutPath(v, paths, name, cut, node);
    }
  }

  lemma CutPath(v: View, paths: seq<Name>, name: Name, cut: nat, node: nat)
    requires ViewOk(v) && Shape(v.kids, paths) && cut <= |name| && NodeAt(v, name, cut) == Some(node)
    ensures node < |paths| && paths[node] == PathOf(name, cut)
  {
    NodePath(v, paths, name, cut);
  }
}
