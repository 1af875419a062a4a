/**
  The label tree: nodes found by hashing one label at a time from the root of the DNS.
  Nodes live in an arena and are identified by their index there, as pointers identify
  them in the server; the arena only grows, so a child is always younger than its parent.
 */
module LabelTree {
  import opened Names
  import opened Bits
  import opened ChildTable
  import opened LookupRule

  datatype Node = Node(flags: Flags, table: Table)

  const NO_FLAGS := Flags(false, false, false, false)

  /** The path of `name`'s last `k` labels, root first. */
  function PathOf(name: Name, k: nat): (p: Name)
    requires k <= |name|
    ensures |p| == k && forall i :: 0 <= i < k ==> p[i] == name[|name| - 1 - i]
  {
    seq(k, i requires 0 <= i < k => name[|name| - 1 - i])
  }

  function WithKid(m: map<Label, nat>, key: Label, node: nat): map<Label, nat> {
    m[key := node]
  }

  ghost predicate TableOk(t: Table, m: map<Label, nat>, loading: bool) {
    Represents(t, m) && if loading then t.mask == |m| else Direct(t)
  }

  ghost predicate TablesOk(nodes: seq<Node>, kids: seq<map<Label, nat>>, loading: bool) {
    |nodes| == |kids| && forall i :: 0 <= i < |nodes| ==> NodeOk(nodes, kids, loading, i)
  }

  ghost predicate NodeOk(nodes: seq<Node>, kids: seq<map<Label, nat>>, loading: bool, i: nat)
    requires i < |nodes| == |kids|
  {
    TableOk(nodes[i].table, kids[i], loading)
  }

  /** Children are younger than their parent and one label deeper; no two nodes share a path. */
  ghost predicate Shape(kids: seq<map<Label, nat>>, paths: seq<Name>) {
    && 0 < |kids| == |paths| && paths[0] == []
    && (forall i, l :: 0 <= i < |kids| && l in kids[i] ==>
          i < kids[i][l] < |kids| && paths[kids[i][l]] == paths[i] + [l])
    && (forall i, j :: 0 <= i < j < |paths| ==> paths[i] != paths[j])
    && (forall j :: 0 < j < |paths| ==> IsChildSomewhere(kids, paths, j))
  }

  ghost predicate IsChildSomewhere(kids: seq<map<Label, nat>>, paths: seq<Name>, j: nat)
    requires |kids| == |paths| && j < |paths|
  {
    paths[j] != [] && exists a :: 0 <= a < j && IsChildOf(kids, paths, a, j)
  }

  ghost predicate IsChildOf(kids: seq<map<Label, nat>>, paths: seq<Name>, a: nat, j: nat)
    requires |kids| == |paths| && a < j < |paths| && paths[j] != []
  {
    paths[j] == paths[a] + [Last(paths[j])] && Last(paths[j]) in kids[a] && kids[a][Last(paths[j])] == j
  }

  function Last(s: Name): Label
    requires s != []
  {
    s[|s| - 1]
  }

  /** A path that no child has yet is no node's path. */
  lemma PathIsNew(kids: seq<map<Label, nat>>, paths: seq<Name>, i: nat, key: Label)
    requires Shape(kids, paths) && i < |kids| && key !in kids[i]
    ensures forall j :: 0 <= j < |paths| ==> paths[j] != paths[i] + [key]
  {
    forall j | 0 <= j < |paths| ensures paths[j] != paths[i] + [key] {
      if j > 0 {
        assert IsChildSomewhere(kids, paths, j);
        var a :| 0 <= a < j && IsChildOf(kids, paths, a, j);
        assert paths[j][..|paths[j]| - 1] == paths[a];
        assert (paths[i] + [key])[..|paths[i]|] == paths[i];
      }
    }
  }

  lemma ShapeAdd(kids: seq<map<Label, nat>>, paths: seq<Name>, i: nat, key: Label)
    requires Shape(kids, paths) && i < |kids| && key !in kids[i]
    ensures Shape(kids[i := WithKid(kids[i], key, |kids|)] + [map[]], paths + [paths[i] + [key]])
  {
    var kids' := kids[i := WithKid(kids[i], key, |kids|)] + [map[]];
    var paths' := paths + [paths[i] + [key]];
    PathIsNew(kids, paths, i, key);
    forall j | 0 < j < |paths'| ensures IsChildSomewhere(kids', paths', j) {
      if j < |paths| {
        assert IsChildSomewhere(kids, paths, j);
        var a :| 0 <= a < j && IsChildOf(kids, paths, a, j);
        assert IsChildOf(kids', paths', a, j);
      } else {
        assert Last(paths'[j]) == key;
        assert IsChildOf(kids', paths', i, j);
      }
    }
  }

  lemma TablesSet(nodes: seq<Node>, kids: seq<map<Label, nat>>, i: nat, table: Table)
    requires TablesOk(nodes, kids, true) && i < |nodes| && Counting(table, kids[i])
    ensures TablesOk(nodes[i := nodes[i].(table := table)], kids, true)
  {
    var nodes' := nodes[i := nodes[i].(table := table)];
    forall j | 0 <= j < |nodes'| ensures NodeOk(nodes', kids, true, j) {
      assert NodeOk(nodes, kids, true, j);
    }
  }

  lemma TablesAdd(nodes: seq<Node>, kids: seq<map<Label, nat>>, i: nat, table: Table, m: map<Label, nat>)
    requires TablesOk(nodes, kids, true) && i < |nodes| && Counting(table, m)
    ensures TablesOk(nodes[i := nodes[i].(table := table)] + [Node(NO_FLAGS, EMPTY)], kids[i := m] + [map[]], true)
  {
    assert TableOk(EMPTY, map[], true);
    var nodes' := nodes[i := nodes[i].(table := table)] + [Node(NO_FLAGS, EMPTY)];
    var kids' := kids[i := m] + [map[]];
    forall j | 0 <= j < |nodes'| ensures NodeOk(nodes', kids', true, j) {
      if j < |nodes| { assert NodeOk(nodes, kids, true, j); }
    }
  }

  /** The tree as the lookup rule sees it. */
  ghost function ViewOf(nodes: seq<Node>, kids: seq<map<Label, nat>>): LookupRule.View {
    LookupRule.View(kids, seq(|nodes|, i requires 0 <= i < |nodes| => nodes[i].flags))
  }

  /** Some node strictly above path `p` is a zone root. */
  ghost predicate ZoneAbove(nodes: seq<Node>, paths: seq<Name>, p: Name)
    requires |nodes| == |paths|
  {
    exists i :: 0 <= i < |nodes| && paths[i] < p && nodes[i].flags.zroot
  }

  ghost predicate ZoneAtOrAbove(nodes: seq<Node>, paths: seq<Name>, p: Name)
    requires |nodes| == |paths|
  {
    exists i :: 0 <= i < |nodes| && paths[i] <= p && nodes[i].flags.zroot
  }

  ghost function FlagsBefore(nodes: seq<Node>, i: nat): Flags {
    if i < |nodes| then nodes[i].flags else NO_FLAGS
  }

  /**
    Descending along `p` has changed the tree from `nodes0`, `paths0` as it should: only prefixes of `p`
    are new, and exactly the nodes on `p` strictly below a zone root have become authoritative.
   */
  ghost predicate Descended(nodes0: seq<Node>, paths0: seq<Name>, nodes: seq<Node>, paths: seq<Name>, p: Name)
    requires |nodes0| == |paths0| && |nodes| == |paths|
  {
    && paths0 <= paths
    && (forall j :: |paths0| <= j < |paths| ==> paths[j] <= p)
    && (forall j :: 0 <= j < |nodes| ==> FlagsAsExpected(nodes0, paths0, nodes, paths, p, j))
  }

  ghost predicate FlagsAsExpected(nodes0: seq<Node>, paths0: seq<Name>, nodes: seq<Node>, paths: seq<Name>,
                                  p: Name, j: nat)
    requires |nodes0| == |paths0| && j < |nodes| == |paths|
  {
    var was := FlagsBefore(nodes0, j);
    nodes[j].flags == if paths[j] <= p then was.(auth := was.auth || ZoneAbove(nodes0, paths0, paths[j])) else was
  }

  lemma PrefixStep(x: Name, p: Name, key: Label)
    ensures x < p + [key] <==> x <= p
    ensures x <= p + [key] <==> x <= p || x == p + [key]
  {
    if x <= p { assert x < p + [key]; }
    if x < p + [key] { assert x == (p + [key])[..|x|] == p[..|x|]; }
  }

  /** One level further down, the node reached being `next`. */
  lemma DescendedStep(nodes0: seq<Node>, paths0: seq<Name>, nodes: seq<Node>, paths: seq<Name>, p: Name, key: Label,
                      nodes': seq<Node>, paths': seq<Name>, next: nat)
    requires |nodes0| == |paths0| && |nodes| == |paths| && Descended(nodes0, paths0, nodes, paths, p)
    requires |nodes'| == |paths'| && next < |nodes'| && paths'[next] == p + [key]
    requires paths' == paths || (paths' == paths + [p + [key]] && next == |paths|)
    requires forall i, j :: 0 <= i < j < |paths'| ==> paths'[i] != paths'[j]
    requires forall j :: 0 <= j < |nodes| && j != next ==> nodes'[j].flags == nodes[j].flags
    requires var was := if next < |nodes| then nodes[next].flags else NO_FLAGS;
             nodes'[next].flags == was.(auth := was.auth || ZoneAtOrAbove(nodes0, paths0, p))
    ensures Descended(nodes0, paths0, nodes', paths', p + [key])
  {
    forall j | |paths0| <= j < |paths'| ensures paths'[j] <= p + [key] {
      PrefixStep(paths'[j], p, key);
    }
    ZoneAboveStep(nodes0, paths0, p, key);
    forall j | 0 <= j < |nodes'| ensures FlagsAsExpected(nodes0, paths0, nodes', paths', p + [key], j) {
      PrefixStep(paths'[j], p, key);
      if j < |nodes| {
        assert FlagsAsExpected(nodes0, paths0, nodes, paths, p, j);
      }
    }
  }

  lemma ZoneAboveStep(nodes: seq<Node>, paths: seq<Name>, p: Name, key: Label)
    requires |nodes| == |paths|
    ensures ZoneAbove(nodes, paths, p + [key]) == ZoneAtOrAbove(nodes, paths, p)
    ensures ZoneAtOrAbove(nodes, paths, p + [key]) ==
            (ZoneAtOrAbove(nodes, paths, p) ||
             exists i :: 0 <= i < |nodes| && paths[i] == p + [key] && nodes[i].flags.zroot)
  {
    forall i | 0 <= i < |nodes|
      ensures paths[i] < p + [key] <==> paths[i] <= p
      ensures paths[i] <= p + [key] <==> paths[i] <= p || paths[i] == p + [key]
    {
      PrefixStep(paths[i], p, key);
    }
  }

  lemma KidInside(kids: seq<map<Label, nat>>, paths: seq<Name>, i: nat, key: Label)
    requires Shape(kids, paths) && i < |kids|
    ensures key in kids[i] ==> kids[i][key] < |kids|
  {
  }

  /** The child for a label was there, or is now; nothing else has changed but the table it is found by. */
  ghost predicate ChildFound(nodes: seq<Node>, kids: seq<map<Label, nat>>, paths: seq<Name>, nodes': seq<Node>,
                             kids': seq<map<Label, nat>>, paths': seq<Name>, i: nat, key: Label, r: nat)
    requires i < |nodes| == |kids| == |paths|
  {
    && (if key in kids[i] then r == kids[i][key] && kids' == kids && paths' == paths && |nodes'| == |nodes|
        else
          && r == |nodes| == |nodes'| - 1 && nodes'[r].flags == NO_FLAGS
          && kids' == kids[i := WithKid(kids[i], key, r)] + [map[]] && paths' == paths + [paths[i] + [key]])
    && r < |nodes'| && i < |kids'| && key in kids'[i] && kids'[i][key] == r
    && forall j :: 0 <= j < |nodes| ==> nodes'[j].flags == nodes[j].flags
  }

  class LTree {
    var nodes: seq<Node>
    ghost var kids: seq<map<Label, nat>>
    ghost var paths: seq<Name>
    /** While zones load the mask fields are counts. */
    ghost var loading: bool

    ghost predicate Valid()
      reads this
    {
      TablesOk(nodes, kids, loading) && Shape(kids, paths)
    }

    ghost function View(): (v: LookupRule.View)
      requires Valid()
      reads this
      ensures ViewOk(v)
    {
      ViewOf(nodes, kids)
    }

    /** `ltree_load_zones` starts from a lone root. */
    constructor ()
      ensures Valid() && loading && nodes == [Node(NO_FLAGS, EMPTY)] && kids == [map[]] && paths == [[]]
    {
      nodes, kids, paths, loading := [Node(NO_FLAGS, EMPTY)], [map[]], [[]], true;
    }

    // ---- Loading ---------------------------------------------------------------------

    /** `ltree_node_find_or_add_child`: the label's child, allocated if it was not there. */
    method FindOrAddChild(i: nat, key: Label) returns (r: nat)
      requires Valid() && loading && i < |nodes|
      modifies this
      ensures Valid() && loading
      ensures ChildFound(old(nodes), old(kids), old(paths), nodes, kids, paths, i, key, r)
    {
      var table;
      assert NodeOk(nodes, kids, true, i);
      KidInside(kids, paths, i, key);
      table, r := FindOrAdd(nodes[i].table, key, |nodes|, kids[i]);
      if r < |nodes| {
        SetTable(i, key, table);
      } else {
        Append(i, key, table);
      }
    }

    method SetTable(i: nat, ghost key: Label, table: Table)
      requires Valid() && loading && i < |nodes| && key in kids[i] && Counting(table, kids[i])
      modifies this`nodes
      ensures Valid() && ChildFound(old(nodes), kids, paths, nodes, kids, paths, i, key, kids[i][key])
    {
      KidInside(kids, paths, i, key);
      TablesSet(nodes, kids, i, table);
      nodes := nodes[i := nodes[i].(table := table)];
    }

    method Append(i: nat, ghost key: Label, table: Table)
      requires Valid() && loading && i < |nodes| && key !in kids[i]
      requires Counting(table, WithKid(kids[i], key, |nodes|))
      modifies this`nodes, this`kids, this`paths
      ensures Valid() && ChildFound(old(nodes), old(kids), old(paths), nodes, kids, paths, i, key, |old(nodes)|)
    {
      ShapeAdd(kids, paths, i, key);
      TablesAdd(nodes, kids, i, table, WithKid(kids[i], key, |nodes|));
      ghost var n := |nodes|;
      nodes := nodes[i := nodes[i].(table := table)] + [Node(NO_FLAGS, EMPTY)];
      kids := kids[i := WithKid(kids[i], key, n)] + [map[]];
      paths := paths + [paths[i] + [key]];
    }

    /** One level of `ltree_find_or_add_dname`. */
    method DescendOne(current: nat, key: Label, inZoneRoot: bool, ghost nodes0: seq<Node>, ghost paths0: seq<Name>)
      returns (next: nat, inZoneRoot': bool)
      requires Valid() && loading && current < |nodes| && |nodes0| == |paths0|
      requires Descended(nodes0, paths0, nodes, paths, paths[current])
      requires inZoneRoot == ZoneAtOrAbove(nodes0, paths0, paths[current])
      modifies this
      ensures Valid() && loading && next < |nodes| && paths[next] == old(paths)[current] + [key]
      ensures Descended(nodes0, paths0, nodes, paths, paths[next])
      ensures inZoneRoot' == ZoneAtOrAbove(nodes0, paths0, paths[next])
    {
      ghost var p := paths[current];
      ghost var nodesWas, pathsWas := nodes, paths;
      next := FindOrAddChild(current, key);
      inZoneRoot' := inZoneRoot;
      ZoneAboveStep(nodes0, paths0, p, key);
      if inZoneRoot {
        SetFlags(next, nodes[next].flags.(auth := true));
      } else if nodes[next].flags.zroot {
        inZoneRoot' := true;
      }
      DescendedStep(nodes0, paths0, nodesWas, pathsWas, p, key, nodes, paths, next);
      assert FlagsAsExpected(nodes0, paths0, nodes, paths, paths[next], next);
    }

    /** `ltree_fix_masks` on one node and everything below it. */
    method FixSubtree(i: nat)
      requires AllRepresent(nodes, kids) && Shape(kids, paths) && i < |nodes|
      modifies this`nodes
      ensures AllRepresent(nodes, kids) && OnlyMasks(old(nodes), nodes)
      ensures SubtreeDirect(nodes, paths, paths[i])
      decreases |nodes| - i, 1
    {
      FixNode(i);
      var table := nodes[i].table;
      assert RepresentsAt(nodes, kids, i);
      ghost var done: set<Label> := {};
      var s := 0;
      while s < |table.slots|
        invariant 0 <= s <= |table.slots|
        invariant AllRepresent(nodes, kids) && OnlyMasks(old(nodes), nodes) && Direct(nodes[i].table)
        invariant ChildrenDirect(nodes, paths, paths[i], done)
        invariant SlotsIn(table.slots, s, done)
      {
        ghost var seen := done;
        done := FixChain(i, table.slots[s], done);
        SlotDone(table.slots, s, seen, done);
        s := s + 1;
      }
      AllDone(nodes, kids, paths, i, table, done);
    }

    /** The children of `i` in one chain. */
    method FixChain(i: nat, chain: seq<Entry>, ghost done: set<Label>) returns (ghost done': set<Label>)
      requires AllRepresent(nodes, kids) && Shape(kids, paths) && i < |nodes|
      requires forall c :: 0 <= c < |chain| ==> chain[c].key in kids[i] && kids[i][chain[c].key] == chain[c].node
      requires ChildrenDirect(nodes, paths, paths[i], done)
      modifies this`nodes
      ensures AllRepresent(nodes, kids) && OnlyMasks(old(nodes), nodes)
      ensures ChildrenDirect(nodes, paths, paths[i], done')
      ensures done <= done' && KeysIn(chain, done')
      decreases |nodes| - i, 0
    {
      done' := done;
      var k := 0;
      while k < |chain|
        invariant 0 <= k <= |chain|
        invariant AllRepresent(nodes, kids) && OnlyMasks(old(nodes), nodes)
        invariant ChildrenDirect(nodes, paths, paths[i], done')
        invariant done <= done' && FirstIn(chain, k, done')
      {
        ghost var was := nodes;
        FixSubtree(chain[k].node);
        DirectKept(was, nodes, paths, paths[i], done');
        OneMoreIn(chain, k, done');
        done' := done' + {chain[k].key};
        k := k + 1;
      }
    }

    method FixNode(i: nat)
      requires AllRepresent(nodes, kids) && i < |nodes|
      modifies this`nodes
      ensures AllRepresent(nodes, kids) && OnlyMasks(old(nodes), nodes) && Direct(nodes[i].table)
      ensures nodes[i].table.slots == old(nodes)[i].table.slots
    {
      ghost var was := nodes;
      assert RepresentsAt(nodes, kids, i);
      var table := FixMask(nodes[i].table, kids[i]);
      nodes := nodes[i := nodes[i].(table := table)];
      forall j | 0 <= j < |nodes| ensures RepresentsAt(nodes, kids, j) {
        assert RepresentsAt(was, kids, j);
      }
    }

    /** After all zones are read: every node's mask field becomes the mask itself. */
    method FixMasks()
      requires Valid() && loading
      modifies this`nodes, this`loading
      ensures Valid() && !loading && OnlyMasks(old(nodes), nodes)
    {
      forall i | 0 <= i < |nodes| ensures RepresentsAt(nodes, kids, i) {
        assert NodeOk(nodes, kids, true, i);
      }
      FixSubtree(0);
      loading := false;
      forall i | 0 <= i < |nodes| ensures NodeOk(nodes, kids, false, i) {
        assert RepresentsAt(nodes, kids, i) && paths[0] <= paths[i];
      }
    }

    method SetFlags(i: nat, flags: Flags)
      requires Valid() && i < |nodes|
      modifies this`nodes
      ensures Valid() && nodes == old(nodes)[i := old(nodes)[i].(flags := flags)]
    {
      ghost var was := nodes;
      nodes := nodes[i := nodes[i].(flags := flags)];
      forall j | 0 <= j < |nodes| ensures NodeOk(nodes, kids, loading, j) {
        assert NodeOk(was, kids, loading, j);
      }
    }

    /**
      `ltree_find_or_add_dname`: the node for a name, with the nodes on the way to it.  Exactly the missing
      prefixes of the path are added; nodes on the path strictly below a zone root become authoritative.
     */
    method FindOrAddDname(dname: Bytes, initZoneRoot: bool) returns (r: nat)
      requires Valid() && loading && IsDname(dname)
      modifies this
      ensures Valid() && loading && r < |nodes|
      ensures paths[r] == PathOf(LabelsAt(dname[1..], 0), |LabelsAt(dname[1..], 0)|)
      ensures !initZoneRoot ==> Descended(old(nodes), old(paths), nodes, paths, paths[r])
      ensures initZoneRoot ==> nodes[r].flags == Flags(true, true, false, false)
      ensures initZoneRoot ==>
                exists f :: Descended(old(nodes), old(paths), nodes[r := nodes[r].(flags := f)], paths, paths[r])
    {
      r := DescendAll(dname[1..]);
      if initZoneRoot {
        ghost var f := nodes[r].flags;
        ghost var was := nodes;
        SetFlags(r, Flags(true, true, false, false));
        assert nodes[r := nodes[r].(flags := f)] == was;
      }
    }

    /** The way down, label by label. */
    method DescendAll(w: Bytes) returns (current: nat)
      requires Valid() && loading && IsWire(w)
      modifies this
      ensures Valid() && loading && current < |nodes|
      ensures paths[current] == PathOf(LabelsAt(w, 0), |LabelsAt(w, 0)|)
      ensures Descended(old(nodes), old(paths), nodes, paths, paths[current])
    {
      var stack := LabelStack(w);
      ghost var name := LabelsAt(w, 0);
      var left: nat := |stack|;
      current := 0;
      var inZoneRoot := nodes[0].flags.zroot;
      DescendedStart(nodes, paths);
      while left > 0
        invariant 0 <= left <= |stack|
        invariant Valid() && loading && current < |nodes|
        invariant paths[current] == PathOf(name, |stack| - left)
        invariant Descended(old(nodes), old(paths), nodes, paths, paths[current])
        invariant inZoneRoot == ZoneAtOrAbove(old(nodes), old(paths), paths[current])
      {
        left := left - 1;
        var p := stack[left];
        StackLabel(w, stack, left);
        PathStep(name, |stack| - left - 1);
        current, inZoneRoot := DescendOne(current, w[p + 1..Next(w, p)], inZoneRoot, old(nodes), old(paths));
      }
    }

    // ---- Searching -------------------------------------------------------------------

    /** The hash lookup of one child by the run-time code. */
    method Child(i: nat, key: Label) returns (r: Option<nat>)
      requires Valid() && !loading && i < |nodes|
      ensures r == if key in kids[i] then Some(kids[i][key]) else None
    {
      assert NodeOk(nodes, kids, false, i);
      if nodes[i].table.slots == [] {
        return None;
      }
      r := FindDirect(nodes[i].table, key, kids[i]);
    }

    /**
      `search_ltree`: find the node for a name.  `cut` is how many labels the deepest cut has, and
      `authDepth` the byte position in the name where those labels start.
     */
    method SearchLtree(dname: Bytes, checkroot: Option<nat>)
      returns (status: Status, node: Option<nat>, auth: Option<nat>, authDepth: nat, crossed: bool, ghost cut: nat)
      requires Valid() && !loading && IsDname(dname)
      ensures RunAnswer(View(), LabelsAt(dname[1..], 0), status, node, auth, cut)
      ensures status != NoAuth ==> SuffixStarts(dname[1..], authDepth, cut)
      ensures crossed == (checkroot.Some? && Crosses(View(), LabelsAt(dname[1..], 0), checkroot.value))
    {
      var pr, missed;
      pr, missed, cut := Descent(dname[1..], checkroot);
      status, node, auth, authDepth, crossed := pr.status, pr.node, pr.auth, pr.depth, pr.crossed;
      Finish(View(), LabelsAt(dname[1..], 0), |LabelsAt(dname[1..], 0)| - pr.left, status, node, auth, cut, checkroot);
      if status == Auth {
        if missed {
          // no match, but the encloser may have a wildcard
          node := Child(pr.current, STAR);
        } else if pr.left == 0 {
          node := Some(pr.current);
        } else {
          NoSlotsNoChildren(pr.current);
        }
      }
    }

    /**
      `ltree_search_dname`, the load-time search: no record of the zone or of the delegation point, and below
      a delegation the exact node counts.
     */
    method SearchDname(dname: Bytes, checkroot: nat)
      returns (status: Status, node: Option<nat>, crossed: bool)
      requires Valid() && !loading && IsDname(dname)
      ensures LoadAnswer(View(), LabelsAt(dname[1..], 0), status, node)
      ensures crossed == Crosses(View(), LabelsAt(dname[1..], 0), checkroot)
    {
      var pr, missed, cut := Descent(dname[1..], Some(checkroot));
      status, node, crossed := pr.status, None, pr.crossed;
      Finish(View(), LabelsAt(dname[1..], 0), |LabelsAt(dname[1..], 0)| - pr.left, status, pr.node, pr.auth, cut,
             Some(checkroot));
      if pr.left == 0 {
        if status != NoAuth {
          node := Some(pr.current);
        }
      } else if missed && status == Auth {
        node := Child(pr.current, STAR);
      } else if status == Auth {
        NoSlotsNoChildren(pr.current);
      }
    }

    /** The loop both searches share: down from the root as far as labels and children go. */
    method Descent(w: Bytes, checkroot: Option<nat>) returns (pr: Probe, missed: bool, ghost cut: nat)
      requires Valid() && !loading && WireAt(w, 0)
      ensures ProbeOk(View(), w, checkroot, pr, cut) && pr.current < |nodes|
      ensures Stuck(View(), w, pr)
      ensures missed ==> pr.left > 0
      ensures !missed && pr.left > 0 ==> nodes[pr.current].table.slots == []
    {
      var stack := LabelStack(w);
      pr := Probe(NoAuth, None, None, 0, 0, |stack|, checkroot == Some(0));
      missed := false;
      pr, cut := Visit(w, stack, pr, 0);
      ProbeStart(View(), w, checkroot, pr, cut);
      while !missed && pr.left > 0 && nodes[pr.current].table.slots != []
        invariant pr.current < |nodes|
        invariant ProbeOk(View(), w, checkroot, pr, cut)
        invariant missed ==> pr.left > 0 && Stuck(View(), w, pr)
        decreases pr.left, !missed
      {
        missed, pr, cut := Advance(w, stack, checkroot, pr, cut);
      }
      if pr.left > 0 && !missed {
        NoSlotsStuck(w, checkroot, pr, cut);
      }
    }

    /** One turn of the search loop: look the next label up, and visit its node if there is one. */
    method Advance(w: Bytes, stack: seq<nat>, checkroot: Option<nat>, pr: Probe, ghost cut: nat)
      returns (missed: bool, pr': Probe, ghost cut': nat)
      requires Valid() && !loading && WireAt(w, 0) && IsStack(w, stack) && 0 < pr.left
      requires pr.current < |nodes| && ProbeOk(View(), w, checkroot, pr, cut)
      ensures pr'.current < |nodes| && ProbeOk(View(), w, checkroot, pr', cut')
      ensures if missed then pr' == pr && Stuck(View(), w, pr) else pr'.left == pr.left - 1
    {
      var entry := NextEntry(w, stack, pr);
      if entry.None? {
        return true, pr, cut;
      }
      missed := false;
      var next := pr.(left := pr.left - 1, current := entry.value,
                           crossed := pr.crossed || checkroot == Some(entry.value));
      pr', cut' := Visit(w, stack, next, cut);
      ProbeStep(View(), w, checkroot, pr, cut, next, pr', cut');
    }

    lemma NoSlotsStuck(w: Bytes, checkroot: Option<nat>, pr: Probe, cut: nat)
      requires Valid() && WireAt(w, 0) && pr.current < |nodes| && nodes[pr.current].table.slots == []
      requires ProbeOk(View(), w, checkroot, pr, cut)
      ensures Stuck(View(), w, pr)
    {
      NoSlotsNoChildren(pr.current);
    }

    lemma NoSlotsNoChildren(i: nat)
      requires Valid() && i < |nodes|
      ensures nodes[i].table.slots == [] ==> kids[i] == map[]
    {
      assert NodeOk(nodes, kids, loading, i);
    }

    /** The child for the next label, from the stack. */
    method NextEntry(w: Bytes, stack: seq<nat>, pr: Probe) returns (entry: Option<nat>)
      requires Valid() && !loading && WireAt(w, 0) && IsStack(w, stack) && 0 < pr.left <= |stack|
      requires NodeAt(View(), LabelsAt(w, 0), |LabelsAt(w, 0)| - pr.left) == Some(pr.current)
      ensures entry.None? ==> Stuck(View(), w, pr)
      ensures entry == NodeAt(View(), LabelsAt(w, 0), |LabelsAt(w, 0)| - pr.left + 1)
      ensures entry.Some? ==> entry.value < |nodes|
    {
      var p := stack[pr.left - 1];
      StackLabel(w, stack, pr.left - 1);
      entry := Child(pr.current, w[p + 1..Next(w, p)]);
      EntryIsNode(View(), w, pr, LabelsAt(w, 0)[pr.left - 1], entry);
    }

    /** The top of the search loop: a zone root or delegation point overrides what was found above it. */
    method Visit(w: Bytes, stack: seq<nat>, pr: Probe, ghost cut: nat) returns (pr': Probe, ghost cut': nat)
      requires Valid() && pr.current < |nodes| && WireAt(w, 0)
      requires IsStack(w, stack) && pr.left <= |stack|
      ensures VisitedBy(View().flags[pr.current], w, pr, cut, pr', cut')
    {
      pr', cut' := pr, cut;
      var flags := nodes[pr.current].flags;
      if IsCut(flags) {
        var depth := DepthOf(w, stack, pr.left);
        cut' := |stack| - pr.left;
        if flags.zroot {
          pr' := pr.(auth := Some(pr.current), node := None, status := Auth, depth := depth);
        } else {
          pr' := pr.(node := Some(pr.current), status := Deleg, depth := depth);
        }
      }
    }
  }

  /** Some child of `i` lies on the way from `i` to a node below it. */
  lemma {:induction false} ChildToward(kids: seq<map<Label, nat>>, paths: seq<Name>, i: nat, j: nat)
    returns (l: Label)
    requires Shape(kids, paths) && i < |kids| && j < |kids| && i != j && paths[i] <= paths[j]
    ensures l in kids[i] && paths[kids[i][l]] <= paths[j]
    decreases j
  {
    assert paths[i] != paths[j];
    assert j != 0;
    assert IsChildSomewhere(kids, paths, j);
    var a :| 0 <= a < j && IsChildOf(kids, paths, a, j);
    if a == i {
      l := Last(paths[j]);
    } else {
      PrefixStep(paths[i], paths[a], Last(paths[j]));
      l := ChildToward(kids, paths, i, a);
      assert paths[kids[i][l]] <= paths[a] <= paths[j];
    }
  }

  /** Every child is in some slot of the table. */
  lemma ChildInSlots(t: Table, m: map<Label, nat>, l: Label)
    requires Represents(t, m) && l in m
    ensures exists s, k :: 0 <= s < |t.slots| && 0 <= k < |t.slots[s]| && t.slots[s][k].key == l
  {
    assert Has(t.slots[Slot(l, Mask(t.mask))], l);
  }

  /** Every table still represents its node's children, whichever form its mask field is in. */
  ghost predicate AllRepresent(nodes: seq<Node>, kids: seq<map<Label, nat>>) {
    |nodes| == |kids| && forall i :: 0 <= i < |nodes| ==> RepresentsAt(nodes, kids, i)
  }

  ghost predicate RepresentsAt(nodes: seq<Node>, kids: seq<map<Label, nat>>, i: nat)
    requires i < |nodes| == |kids|
  {
    Represents(nodes[i].table, kids[i])
  }

  /** Fixing masks changes mask fields only, and never makes a mask a count again. */
  ghost predicate OnlyMasks(was: seq<Node>, nodes: seq<Node>) {
    |was| == |nodes| && forall i :: 0 <= i < |nodes| ==>
      && nodes[i].flags == was[i].flags && nodes[i].table.slots == was[i].table.slots
      && (Direct(was[i].table) ==> Direct(nodes[i].table))
  }

  ghost predicate SubtreeDirect(nodes: seq<Node>, paths: seq<Name>, p: Name)
    requires |nodes| == |paths|
  {
    forall j :: 0 <= j < |nodes| && p <= paths[j] ==> Direct(nodes[j].table)
  }

  ghost predicate KeysIn(chain: seq<Entry>, done: set<Label>) {
    forall c :: 0 <= c < |chain| ==> chain[c].key in done
  }

  /** The first `s` chains hold only labels of `done`. */
  ghost predicate SlotsIn(slots: seq<seq<Entry>>, s: nat, done: set<Label>) {
    s <= |slots| && forall r :: 0 <= r < s ==> KeysIn(slots[r], done)
  }

  lemma SlotDone(slots: seq<seq<Entry>>, s: nat, seen: set<Label>, done: set<Label>)
    requires s < |slots| && SlotsIn(slots, s, seen) && seen <= done && KeysIn(slots[s], done)
    ensures SlotsIn(slots, s + 1, done)
  {
    forall r | 0 <= r < s + 1 ensures KeysIn(slots[r], done) {
      if r < s { assert KeysIn(slots[r], seen); }
    }
  }

  /** The first `k` labels of a chain are in `done`. */
  ghost predicate FirstIn(chain: seq<Entry>, k: nat, done: set<Label>) {
    k <= |chain| && forall c :: 0 <= c < k ==> chain[c].key in done
  }

  lemma OneMoreIn(chain: seq<Entry>, k: nat, done: set<Label>)
    requires k < |chain| && FirstIn(chain, k, done)
    ensures FirstIn(chain, k + 1, done + {chain[k].key})
  {
  }

  ghost predicate ChildrenDirect(nodes: seq<Node>, paths: seq<Name>, p: Name, done: set<Label>)
    requires |nodes| == |paths|
  {
    forall l :: l in done ==> SubtreeDirect(nodes, paths, p + [l])
  }

  lemma DirectKept(was: seq<Node>, nodes: seq<Node>, paths: seq<Name>, p: Name, done: set<Label>)
    requires |nodes| == |paths| && OnlyMasks(was, nodes) && ChildrenDirect(was, paths, p, done)
    ensures ChildrenDirect(nodes, paths, p, done)
  {
    forall l | l in done ensures SubtreeDirect(nodes, paths, p + [l]) {
      assert SubtreeDirect(was, paths, p + [l]);
    }
  }

  lemma AllDone(nodes: seq<Node>, kids: seq<map<Label, nat>>, paths: seq<Name>, i: nat, table: Table, done: set<Label>)
    requires |nodes| == |kids| && Shape(kids, paths) && i < |nodes| && Represents(table, kids[i])
    requires Direct(nodes[i].table) && ChildrenDirect(nodes, paths, paths[i], done)
    requires SlotsIn(table.slots, |table.slots|, done)
    ensures SubtreeDirect(nodes, paths, paths[i])
  {
    forall j | 0 <= j < |nodes| && paths[i] <= paths[j] ensures Direct(nodes[j].table) {
      if j != i {
        var l := ChildToward(kids, paths, i, j);
        ChildInSlots(table, kids[i], l);
        assert SubtreeDirect(nodes, paths, paths[i] + [l]);
      }
    }
  }

  /** Position `d` is where the last `n` labels of the name start. */
  ghost predicate SuffixStarts(w: Bytes, d: nat, n: nat)
    requires WireAt(w, 0)
  {
    var name := LabelsAt(w, 0);
    WireAt(w, d) && Boundary(w, 0, d) && n <= |name| && LabelsAt(w, d) == name[|name| - n..]
  }

  /** The sum the search forms over the labels that remain: the byte depth of the ones already matched. */
  method DepthOf(w: Bytes, stack: seq<nat>, left: nat) returns (depth: nat)
    requires WireAt(w, 0) && IsStack(w, stack) && left <= |stack|
    ensures SuffixStarts(w, depth, |stack| - left)
  {
    depth := left;
    var i := left;
    while i > 0
      invariant 0 <= i <= left
      invariant depth == i + StackPos(stack, left, |w| - 1) - StackPos(stack, i, |w| - 1)
    {
      i := i - 1;
      StackGap(w, stack, i);
      depth := depth + w[stack[i]];
    }
    StackGap(w, stack, 0);
    StackSuffix(w, stack, left);
  }

  lemma StackSuffix(w: Bytes, stack: seq<nat>, i: nat)
    requires WireAt(w, 0) && IsStack(w, stack) && i <= |stack|
    ensures SuffixStarts(w, StackPos(stack, i, |w| - 1), |stack| - i)
  {
    if i < |stack| {
      assert StackEntry(w, stack[i], i);
    } else {
      EndOfName(w);
    }
  }

  /** A stack entry is where the label of that index is. */
  lemma StackLabel(w: Bytes, stack: seq<nat>, i: nat)
    requires WireAt(w, 0) && IsStack(w, stack) && i < |stack|
    ensures stack[i] < |w| && Next(w, stack[i]) <= |w| && i < |LabelsAt(w, 0)| == |stack|
    ensures w[stack[i] + 1..Next(w, stack[i])] == LabelsAt(w, 0)[i]
  {
    assert StackEntry(w, stack[i], i);
  }

  /** Consecutive stack entries are one label apart, and the first is at the start of the name. */
  lemma StackGap(w: Bytes, stack: seq<nat>, i: nat)
    requires WireAt(w, 0) && IsStack(w, stack)
    ensures StackPos(stack, 0, |w| - 1) == 0
    ensures i < |stack| ==> stack[i] < |w| && StackPos(stack, i + 1, |w| - 1) == stack[i] + 1 + w[stack[i]]
  {
  }

  lemma EndOfName(w: Bytes)
    requires WireAt(w, 0)
    ensures SuffixStarts(w, |w| - 1, 0)
  {
    EndIsBoundary(w, 0);
    EndByte(w, 0);
    BoundaryWire(w, 0, |w| - 1);
  }

  /** The cursors of a search: what was found, where it is, and how many labels are left. */
  datatype Probe = Probe(status: Status, node: Option<nat>, auth: Option<nat>, depth: nat,
                         current: nat, left: nat, crossed: bool)

  function SeenBy(pr: Probe, cut: nat): Seen {
    Seen(pr.status, pr.node, pr.auth, cut)
  }

  ghost predicate ProbeOk(v: LookupRule.View, w: Bytes, checkroot: Option<nat>, pr: Probe, cut: nat)
    requires ViewOk(v) && WireAt(w, 0)
  {
    var name := LabelsAt(w, 0);
    && pr.left <= |name|
    && NodeAt(v, name, |name| - pr.left) == Some(pr.current)
    && SeenTo(v, name, |name| - pr.left) == SeenBy(pr, cut)
    && (pr.status != NoAuth ==> SuffixStarts(w, pr.depth, cut))
    && pr.crossed == (checkroot.Some? && CrossedBy(v, name, |name| - pr.left, checkroot.value))
  }

  /** The effect of visiting a node with flags `f`. */
  ghost predicate VisitedBy(f: Flags, w: Bytes, pr: Probe, cut: nat, pr': Probe, cut': nat)
    requires WireAt(w, 0) && pr.left <= |LabelsAt(w, 0)|
  {
    && SeenBy(pr', cut') == Enter(f, pr.current, |LabelsAt(w, 0)| - pr.left, SeenBy(pr, cut))
    && pr'.(status := pr.status, node := pr.node, auth := pr.auth, depth := pr.depth) == pr
    && if IsCut(f) then SuffixStarts(w, pr'.depth, cut') else pr'.depth == pr.depth
  }

  /** The search can go no further down: no label is left, or the tree has no child for the next one. */
  ghost predicate Stuck(v: LookupRule.View, w: Bytes, pr: Probe)
    requires ViewOk(v) && WireAt(w, 0)
  {
    var name := LabelsAt(w, 0);
    pr.left <= |name| && (pr.left > 0 ==> NodeAt(v, name, |name| - pr.left + 1).None?)
  }

  lemma ProbeStart(v: LookupRule.View, w: Bytes, checkroot: Option<nat>, pr: Probe, cut: nat)
    requires ViewOk(v) && WireAt(w, 0)
    requires VisitedBy(v.flags[0], w, Probe(NoAuth, None, None, 0, 0, |LabelsAt(w, 0)|, checkroot == Some(0)), 0,
                       pr, cut)
    ensures ProbeOk(v, w, checkroot, pr, cut)
  {
    SeenStart(v, LabelsAt(w, 0));
  }

  lemma ProbeStep(v: LookupRule.View, w: Bytes, checkroot: Option<nat>, pr: Probe, cut: nat,
                  next: Probe, pr': Probe, cut': nat)
    requires ViewOk(v) && WireAt(w, 0) && ProbeOk(v, w, checkroot, pr, cut) && pr.left > 0
    requires next == pr.(left := pr.left - 1, current := next.current,
                         crossed := pr.crossed || checkroot == Some(next.current))
    requires NodeAt(v, LabelsAt(w, 0), |LabelsAt(w, 0)| - pr.left + 1) == Some(next.current)
    requires VisitedBy(v.flags[next.current], w, next, cut, pr', cut')
    ensures ProbeOk(v, w, checkroot, pr', cut')
  {
    var name := LabelsAt(w, 0);
    var k := |name| - pr.left;
    assert |name| - pr'.left == k + 1;
    SeenStep(v, name, k, next.current);
    if checkroot.Some? {
      CrossedStep(v, name, k, checkroot.value);
    }
  }

  lemma NodeBelow(v: LookupRule.View, name: Name, k: nat, i: nat, key: Label)
    requires ViewOk(v) && k < |name| && NodeAt(v, name, k) == Some(i) && key == name[|name| - k - 1]
    ensures NodeAt(v, name, k + 1) == if key in v.kids[i] then Some(v.kids[i][key]) else None
  {
  }

  /** The child found for the next label is the next node on the way. */
  lemma EntryIsNode(v: LookupRule.View, w: Bytes, pr: Probe, key: Label, entry: Option<nat>)
    requires ViewOk(v) && WireAt(w, 0) && 0 < pr.left <= |LabelsAt(w, 0)| && key == LabelsAt(w, 0)[pr.left - 1]
    requires NodeAt(v, LabelsAt(w, 0), |LabelsAt(w, 0)| - pr.left) == Some(pr.current)
    requires entry == if key in v.kids[pr.current] then Some(v.kids[pr.current][key]) else None
    ensures entry == NodeAt(v, LabelsAt(w, 0), |LabelsAt(w, 0)| - pr.left + 1)
    ensures (entry.None? ==> Stuck(v, w, pr)) && (entry.Some? ==> entry.value < |v.kids|)
  {
    var name := LabelsAt(w, 0);
    NodeBelow(v, name, |name| - pr.left, pr.current, key);
  }

  lemma CrossedStep(v: LookupRule.View, name: Name, k: nat, c: nat)
    requires ViewOk(v) && k < |name|
    ensures CrossedBy(v, name, k + 1, c) <==> CrossedBy(v, name, k, c) || NodeAt(v, name, k + 1) == Some(c)
  {
    if NodeAt(v, name, k + 1) == Some(c) {
      assert CrossedBy(v, name, k + 1, c);
    }
  }

  /** One of the nodes for the last 0 to `k` labels is `c`. */
  ghost predicate CrossedBy(v: LookupRule.View, name: Name, k: nat, c: nat)
    requires ViewOk(v) && k <= |name|
  {
    exists j :: 0 <= j <= k && NodeAt(v, name, j) == Some(c)
  }

  /** The descent stopped at level `k`, for want of labels or of a child. */
  lemma Finish(v: LookupRule.View, name: Name, k: nat, status: Status, node: Option<nat>, zone: Option<nat>, cut: nat,
               checkroot: Option<nat>)
    requires ViewOk(v) && k <= |name| && NodeAt(v, name, k).Some? && Visited(v, name, k, status, node, zone, cut)
    requires k < |name| ==> NodeAt(v, name, k + 1).None?
    ensures RunAnswer(v, name, status, if status == Auth then AuthNode(v, name, k) else node, zone, cut)
    ensures LoadAnswer(v, name, status,
              if status == Auth then AuthNode(v, name, k)
              else if status == Deleg && k == |name| then NodeAt(v, name, k) else None)
    ensures checkroot.Some? ==> (CrossedBy(v, name, k, checkroot.value) <==> Crosses(v, name, checkroot.value))
  {
    DescentAnswer(v, name, k, status, node, zone, cut);
    DescentLoadAnswer(v, name, k, status, node, zone, cut);
    if checkroot.Some? {
      CrossedOnTheWay(v, name, k, checkroot.value);
    }
  }

  lemma CrossedOnTheWay(v: LookupRule.View, name: Name, k: nat, z: nat)
    requires ViewOk(v) && IsEncloser(v, name, k)
    ensures CrossedBy(v, name, k, z) <==> Crosses(v, name, z)
  {
    if Crosses(v, name, z) {
      var j: nat :| j <= |name| && NodeAt(v, name, j) == Some(z);
      if j > k {
        NodeAtPrefix(v, name, k + 1, j);
      }
    }
  }

  lemma DescendedStart(nodes: seq<Node>, paths: seq<Name>)
    requires 0 < |nodes| == |paths| && paths[0] == []
    ensures Descended(nodes, paths, nodes, paths, [])
    ensures nodes[0].flags.zroot ==> ZoneAtOrAbove(nodes, paths, [])
    ensures (forall i :: 0 < i < |paths| ==> paths[i] != []) && !nodes[0].flags.zroot ==>
              !ZoneAtOrAbove(nodes, paths, [])
  {
  }

  lemma PathStep(name: Name, k: nat)
    requires k < |name|
    ensures PathOf(name, k + 1) == PathOf(name, k) + [name[|name| - 1 - k]]
  {
  }
}
