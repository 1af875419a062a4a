/**
  The lookup rule over the tree of names, as section 4.3.2 of RFC 1034 and section
  3.3.1 of RFC 4592 give it: the closest encloser, the deepest cut on the way to it,
  and the wildcard at it.  Stated on a view of the label tree in which every node
  has a map from labels to children.
 */
module LookupRule {
  import opened Names

  datatype Flags = Flags(auth: bool, zroot: bool, deleg: bool, gused: bool)

  /** Node 0 is the root of the DNS. */
  datatype View = View(kids: seq<map<Label, nat>>, flags: seq<Flags>)

  datatype Status = NoAuth | Auth | Deleg

  const STAR: Label := [0x2A]

  predicate ViewOk(v: View) {
    0 < |v.kids| == |v.flags| &&
    forall i, l :: 0 <= i < |v.kids| && l in v.kids[i] ==> i < v.kids[i][l] < |v.kids|
  }

  /** The node for the last `k` labels of a name, if the tree has it. */
  function NodeAt(v: View, name: Name, k: nat): (r: Option<nat>)
    requires ViewOk(v) && k <= |name|
    ensures r.Some? ==> r.value < |v.kids|
  {
    if k == 0 then Some(0)
    else
      match NodeAt(v, name, k - 1)
      case None => None
      case Some(i) => if name[|name| - k] in v.kids[i] then Some(v.kids[i][name[|name| - k]]) else None
  }

  /** How many trailing labels the closest encloser has. */
  ghost predicate IsEncloser(v: View, name: Name, e: nat)
    requires ViewOk(v)
  {
    e <= |name| && NodeAt(v, name, e).Some? && (e < |name| ==> NodeAt(v, name, e + 1).None?)
  }

  predicate IsCut(f: Flags) { f.zroot || f.deleg }

  /** The node for the last `k` labels is there and is a zone root or a delegation. */
  predicate CutAt(v: View, name: Name, k: nat)
    requires ViewOk(v) && k <= |name|
  {
    NodeAt(v, name, k).Some? && IsCut(v.flags[NodeAt(v, name, k).value])
  }

  /** The node for the last `k` labels is there and is a zone root. */
  predicate RootAt(v: View, name: Name, k: nat)
    requires ViewOk(v) && k <= |name|
  {
    NodeAt(v, name, k).Some? && v.flags[NodeAt(v, name, k).value].zroot
  }

  /** `j` is the deepest level at or above `e` with a cut, or with a zone root. */
  ghost predicate DeepestCut(v: View, name: Name, e: nat, j: nat)
    requires ViewOk(v) && e <= |name|
  {
    j <= e && CutAt(v, name, j) && forall k {:trigger CutAt(v, name, k)} :: j < k <= e ==> !CutAt(v, name, k)
  }

  ghost predicate DeepestZone(v: View, name: Name, e: nat, j: nat)
    requires ViewOk(v) && e <= |name|
  {
    j <= e && RootAt(v, name, j) && forall k {:trigger RootAt(v, name, k)} :: j < k <= e ==> !RootAt(v, name, k)
  }

  ghost predicate NoCut(v: View, name: Name, e: nat)
    requires ViewOk(v) && e <= |name|
  {
    forall k {:trigger CutAt(v, name, k)} :: 0 <= k <= e ==> !CutAt(v, name, k)
  }

  ghost predicate NoZone(v: View, name: Name, e: nat)
    requires ViewOk(v) && e <= |name|
  {
    forall k {:trigger RootAt(v, name, k)} :: 0 <= k <= e ==> !RootAt(v, name, k)
  }

  /** The wildcard child of a node. */
  function StarChild(v: View, i: nat): Option<nat>
    requires ViewOk(v) && i < |v.kids|
  {
    if STAR in v.kids[i] then Some(v.kids[i][STAR]) else None
  }

  /** What authoritative data a name has: its own node, or the wildcard of its closest encloser. */
  function AuthNode(v: View, name: Name, e: nat): Option<nat>
    requires ViewOk(v) && e <= |name| && NodeAt(v, name, e).Some?
  {
    if e == |name| then NodeAt(v, name, e) else StarChild(v, NodeAt(v, name, e).value)
  }

  /**
    The run-time answer for a name.  `cut` is the number of labels of the name at the deepest cut,
    which the run-time code turns into a byte depth.
   */
  ghost predicate RunAnswer(v: View, name: Name, status: Status, node: Option<nat>, zone: Option<nat>, cut: nat)
    requires ViewOk(v)
  {
    exists e :: IsEncloser(v, name, e) && RunAnswerAt(v, name, e, status, node, zone, cut)
  }

  ghost predicate RunAnswerAt(v: View, name: Name, e: nat,
                              status: Status, node: Option<nat>, zone: Option<nat>, cut: nat)
    requires ViewOk(v) && IsEncloser(v, name, e)
  {
    && (NoZone(v, name, e) ==> zone == None)
    && (forall j :: DeepestZone(v, name, e, j) ==> zone == NodeAt(v, name, j))
    && match status
       case NoAuth => NoCut(v, name, e) && node == None
       case Auth =>
         DeepestCut(v, name, e, cut) && v.flags[NodeAt(v, name, cut).value].zroot && node == AuthNode(v, name, e)
       case Deleg =>
         DeepestCut(v, name, e, cut) && !v.flags[NodeAt(v, name, cut).value].zroot && node == NodeAt(v, name, cut)
  }

  /**
    The load-time answer: the same status, and the same node in authoritative space; below a delegation
    it is the exact node (where glue may be), not the delegation point.
   */
  ghost predicate LoadAnswer(v: View, name: Name, status: Status, node: Option<nat>)
    requires ViewOk(v)
  {
    exists e :: IsEncloser(v, name, e) && LoadAnswerAt(v, name, e, status, node)
  }

  ghost predicate LoadAnswerAt(v: View, name: Name, e: nat, status: Status, node: Option<nat>)
    requires ViewOk(v) && IsEncloser(v, name, e)
  {
    match status
    case NoAuth => NoCut(v, name, e) && node == None
    case Auth => (exists j :: DeepestCut(v, name, e, j) && v.flags[NodeAt(v, name, j).value].zroot) &&
                 node == AuthNode(v, name, e)
    case Deleg => (exists j :: DeepestCut(v, name, e, j) && !v.flags[NodeAt(v, name, j).value].zroot) &&
                  node == (if e == |name| then NodeAt(v, name, e) else None)
  }

  /** The search for `name` passes through node `c`. */
  ghost predicate Crosses(v: View, name: Name, c: nat)
    requires ViewOk(v)
  {
    exists k :: 0 <= k <= |name| && NodeAt(v, name, k) == Some(c)
  }

  // ---- Uniqueness ----------------------------------------------------------------------

  lemma {:induction false} NodeAtPrefix(v: View, name: Name, k: nat, e: nat)
    requires ViewOk(v) && k <= e <= |name| && NodeAt(v, name, e).Some?
    ensures NodeAt(v, name, k).Some? && NodeAt(v, name, k).value <= NodeAt(v, name, e).value
    decreases e - k
  {
    if k != e {
      NodeAtPrefix(v, name, k + 1, e);
    }
  }

  lemma EncloserUnique(v: View, name: Name, e: nat, e': nat)
    requires ViewOk(v) && IsEncloser(v, name, e) && IsEncloser(v, name, e')
    ensures e == e'
  {
    if e < e' { NodeAtPrefix(v, name, e + 1, e'); }
    if e' < e { NodeAtPrefix(v, name, e' + 1, e); }
  }

  /** The rule gives every name one answer. */
  lemma RunAnswerUnique(v: View, name: Name, s: Status, n: Option<nat>, z: Option<nat>, c: nat,
                        s': Status, n': Option<nat>, z': Option<nat>, c': nat)
    requires ViewOk(v) && RunAnswer(v, name, s, n, z, c) && RunAnswer(v, name, s', n', z', c')
    ensures s == s' && n == n' && z == z' && (s != NoAuth ==> c == c')
  {
    var e :| IsEncloser(v, name, e) && RunAnswerAt(v, name, e, s, n, z, c);
    var e' :| IsEncloser(v, name, e') && RunAnswerAt(v, name, e', s', n', z', c');
    EncloserUnique(v, name, e, e');
    ZoneExists(v, name, e);
    CutUnique(v, name, e);
  }

  lemma CutUnique(v: View, name: Name, e: nat)
    requires ViewOk(v) && IsEncloser(v, name, e)
    ensures forall j, j' :: DeepestCut(v, name, e, j) && DeepestCut(v, name, e, j') ==> j == j'
  {
  }

  lemma ZoneExists(v: View, name: Name, e: nat)
    requires ViewOk(v) && IsEncloser(v, name, e)
    ensures NoZone(v, name, e) || exists j :: DeepestZone(v, name, e, j)
  {
    var j: int := e;
    while j > 0 && !RootAt(v, name, j)
      invariant 0 <= j <= e
      invariant forall k {:trigger RootAt(v, name, k)} :: j < k <= e ==> !RootAt(v, name, k)
    {
      j := j - 1;
    }
    if RootAt(v, name, j) {
      assert DeepestZone(v, name, e, j);
    }
  }

  /** Run-time and load-time searches agree wherever the server has authority. */
  lemma SearchesAgree(v: View, name: Name, s: Status, n: Option<nat>, z: Option<nat>, c: nat,
                      s': Status, n': Option<nat>)
    requires ViewOk(v) && RunAnswer(v, name, s, n, z, c) && LoadAnswer(v, name, s', n')
    ensures s == s' && (s == Auth ==> n == n')
  {
    var e :| IsEncloser(v, name, e) && RunAnswerAt(v, name, e, s, n, z, c);
    var e' :| IsEncloser(v, name, e') && LoadAnswerAt(v, name, e', s', n');
    EncloserUnique(v, name, e, e');
    CutUnique(v, name, e);
  }

  // ---- The descent ---------------------------------------------------------------------

  /** What a search knows: status, delegation node, zone, and the level of the deepest cut. */
  datatype Seen = Seen(status: Status, node: Option<nat>, zone: Option<nat>, cut: nat)

  /** The effect of entering node `i` at level `k`. */
  function Enter(f: Flags, i: nat, k: nat, s: Seen): Seen {
    if f.zroot then Seen(Auth, None, Some(i), k)
    else if f.deleg then Seen(Deleg, Some(i), s.zone, k)
    else s
  }

  /** The level of the deepest cut, and the node of the deepest zone root, among levels 0 to `k`. */
  ghost function CutTo(v: View, name: Name, k: nat): (r: Option<nat>)
    requires ViewOk(v) && k <= |name|
    ensures r.Some? ==> DeepestCut(v, name, k, r.value)
    ensures r.None? ==> NoCut(v, name, k)
  {
    if CutAt(v, name, k) then Some(k)
    else if k == 0 then None
    else CutTo(v, name, k - 1)
  }

  ghost function ZoneTo(v: View, name: Name, k: nat): (r: Option<nat>)
    requires ViewOk(v) && k <= |name|
    ensures r.Some? ==> exists j :: DeepestZone(v, name, k, j) && r == NodeAt(v, name, j)
    ensures r.None? ==> NoZone(v, name, k)
  {
    if RootAt(v, name, k) then
      assert DeepestZone(v, name, k, k);
      NodeAt(v, name, k)
    else if k == 0 then None
    else
      var r := ZoneTo(v, name, k - 1);
      assert forall j :: DeepestZone(v, name, k - 1, j) ==> DeepestZone(v, name, k, j);
      r
  }

  /** What the run-time search knows after entering the nodes for the last 0 to `k` labels. */
  ghost function SeenTo(v: View, name: Name, k: nat): Seen
    requires ViewOk(v) && k <= |name|
  {
    var zone := ZoneTo(v, name, k);
    match CutTo(v, name, k)
    case None => Seen(NoAuth, None, zone, 0)
    case Some(j) =>
      if v.flags[NodeAt(v, name, j).value].zroot then Seen(Auth, None, zone, j)
      else Seen(Deleg, NodeAt(v, name, j), zone, j)
  }

  lemma SeenStart(v: View, name: Name)
    requires ViewOk(v)
    ensures NodeAt(v, name, 0) == Some(0)
    ensures SeenTo(v, name, 0) == Enter(v.flags[0], 0, 0, Seen(NoAuth, None, None, 0))
  {
  }

  lemma SeenStep(v: View, name: Name, k: nat, i: nat)
    requires ViewOk(v) && k < |name| && NodeAt(v, name, k + 1) == Some(i)
    ensures SeenTo(v, name, k + 1) == Enter(v.flags[i], i, k + 1, SeenTo(v, name, k))
  {
    assert CutAt(v, name, k + 1) == IsCut(v.flags[i]) && RootAt(v, name, k + 1) == v.flags[i].zroot;
    assert CutTo(v, name, k + 1) == if IsCut(v.flags[i]) then Some(k + 1) else CutTo(v, name, k);
    assert ZoneTo(v, name, k + 1) == if v.flags[i].zroot then Some(i) else ZoneTo(v, name, k);
  }

  ghost predicate Visited(v: View, name: Name, k: nat,
                          status: Status, node: Option<nat>, zone: Option<nat>, cut: nat)
    requires ViewOk(v) && k <= |name|
  {
    SeenTo(v, name, k) == Seen(status, node, zone, cut)
  }

  /** Where the descent ends, what was visited is the answer, but for the data node in authoritative space. */
  lemma DescentAnswer(v: View, name: Name, e: nat,
                      status: Status, node: Option<nat>, zone: Option<nat>, cut: nat)
    requires ViewOk(v) && IsEncloser(v, name, e) && Visited(v, name, e, status, node, zone, cut)
    ensures RunAnswer(v, name, status, if status == Auth then AuthNode(v, name, e) else node, zone, cut)
  {
    ZoneUnique(v, name, e);
    assert RunAnswerAt(v, name, e, status, if status == Auth then AuthNode(v, name, e) else node, zone, cut);
  }

  lemma ZoneUnique(v: View, name: Name, e: nat)
    requires ViewOk(v) && e <= |name|
    ensures forall j, j' :: DeepestZone(v, name, e, j) && DeepestZone(v, name, e, j') ==> j == j'
  {
  }

  lemma DescentLoadAnswer(v: View, name: Name, e: nat,
                          status: Status, node: Option<nat>, zone: Option<nat>, cut: nat)
    requires ViewOk(v) && IsEncloser(v, name, e) && Visited(v, name, e, status, node, zone, cut)
    ensures LoadAnswer(v, name, status,
              if status == Auth then AuthNode(v, name, e)
              else if status == Deleg && e == |name| then NodeAt(v, name, e) else None)
  {
    assert LoadAnswerAt(v, name, e, status,
              if status == Auth then AuthNode(v, name, e)
              else if status == Deleg && e == |name| then NodeAt(v, name, e) else None);
  }

  /** What the rule answers with are nodes of the tree. */
  lemma AnswerInside(v: View, name: Name, status: Status, node: Option<nat>, zone: Option<nat>, cut: nat)
    requires ViewOk(v) && RunAnswer(v, name, status, node, zone, cut)
    ensures node.Some? ==> node.value < |v.kids|
  {
    var e :| IsEncloser(v, name, e) && RunAnswerAt(v, name, e, status, node, zone, cut);
  }
}
