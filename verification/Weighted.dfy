/**
  The weighted chooser: addresses in groups, each with a weight and a monitored state;
  CNAMEs with weights.  A draw is any number below the modulus asked for.
 */
module Weighted {
  import opened Names
  import opened DnameText
  import opened DnameCodec
  import opened DnameZone

  const MAX_ITEMS := 64
  const MAX_ADDRS := 64
  const MAX_WEIGHT := 1048575
  const U32_MAX := 0xFFFF_FFFF

  datatype State = Uninit | Down | Danger | Up

  datatype Addr = Addr(id: nat, weight: nat, state: State)

  /** A group of addresses, with the sum and the maximum of their configured weights. */
  datatype Group = Group(addrs: seq<Addr>, weight: nat, maxWeight: nat)

  /** The groups of one address family. */
  datatype AddrSet = AddrSet(groups: seq<Group>, weight: nat, maxWeight: nat, upWeight: nat, multi: bool)

  // ---- Sums, maxima, and drawing by weight -----------------------------------------------------

  /** The sum of the first `k` weights. */
  function Sum(ws: seq<nat>, k: nat): nat
    requires k <= |ws|
  {
    if k == 0 then 0 else Sum(ws, k - 1) + ws[k - 1]
  }

  function Total(ws: seq<nat>): nat { Sum(ws, |ws|) }

  function MaxOf(ws: seq<nat>, k: nat): nat
    requires k <= |ws|
  {
    if k == 0 then 0 else if ws[k - 1] > MaxOf(ws, k - 1) then ws[k - 1] else MaxOf(ws, k - 1)
  }

  lemma {:induction false} SumMono(ws: seq<nat>, i: nat, k: nat)
    requires i <= k <= |ws|
    ensures Sum(ws, i) <= Sum(ws, k)
    decreases k
  {
    if i < k { SumMono(ws, i, k - 1); }
  }

  lemma {:induction false} SumBound(ws: seq<nat>, k: nat, b: nat)
    requires k <= |ws| && forall i :: 0 <= i < |ws| ==> ws[i] <= b
    ensures Sum(ws, k) <= k * b
  {
    if k != 0 {
      SumBound(ws, k - 1, b);
      assert k * b == (k - 1) * b + b;
    }
  }

  /** The maximum is reached, and passed by none. */
  lemma {:induction false} MaxReached(ws: seq<nat>, k: nat)
    requires k <= |ws|
    ensures forall i :: 0 <= i < k ==> ws[i] <= MaxOf(ws, k)
    ensures k > 0 ==> exists i :: 0 <= i < k && ws[i] == MaxOf(ws, k)
  {
    if k != 0 { MaxReached(ws, k - 1); }
  }

  lemma {:induction false} SumZero(ws: seq<nat>, k: nat)
    requires k <= |ws|
    ensures Sum(ws, k) == 0 <==> MaxOf(ws, k) == 0
    ensures Sum(ws, k) == 0 <==> forall i :: 0 <= i < k ==> ws[i] == 0
  {
    if k != 0 { SumZero(ws, k - 1); }
  }

  /** The item a draw below the total falls on: the weights are laid end to end. */
  function Choose(ws: seq<nat>, r: nat, from: nat): (i: nat)
    requires from <= |ws| && r < Total(ws) && Sum(ws, from) <= r
    ensures from <= i < |ws| && Sum(ws, i) <= r < Sum(ws, i + 1)
    decreases |ws| - from
  {
    if r < Sum(ws, from + 1) then from else Choose(ws, r, from + 1)
  }

  /** A draw chooses item `i` exactly when it falls on that item's stretch. */
  lemma ChooseIff(ws: seq<nat>, r: nat, i: nat)
    requires r < Total(ws) && i < |ws|
    ensures Choose(ws, r, 0) == i <==> Sum(ws, i) <= r < Sum(ws, i + 1)
  {
    var c := Choose(ws, r, 0);
    if c < i { SumMono(ws, c + 1, i); }
    if i < c { SumMono(ws, i + 1, c); }
  }

  ghost function Draws(ws: seq<nat>, i: nat): set<nat>
    requires i < |ws|
  {
    set r | 0 <= r < Total(ws) && Chosen(ws, r, i)
  }

  ghost predicate Chosen(ws: seq<nat>, r: nat, i: nat) {
    r < Total(ws) && Choose(ws, r, 0) == i
  }

  ghost function Stretch(lo: nat, hi: nat): (s: set<nat>)
    requires lo <= hi
    ensures |s| == hi - lo && forall r :: r in s <==> lo <= r < hi
  {
    if lo == hi then {} else Stretch(lo, hi - 1) + {hi - 1}
  }

  /** Of all possible draws, exactly as many choose item `i` as its weight says. */
  lemma DrawsAreWeight(ws: seq<nat>, i: nat)
    requires i < |ws|
    ensures |Draws(ws, i)| == ws[i]
  {
    SumMono(ws, i + 1, |ws|);
    var s := Stretch(Sum(ws, i), Sum(ws, i + 1));
    forall r: nat ensures r in Draws(ws, i) <==> r in s {
      if r < Total(ws) { ChooseIff(ws, r, i); }
    }
    assert Draws(ws, i) == s;
  }

  /** `get_rand`: any draw. */
  method GetRand(modval: nat) returns (r: nat)
    requires modval > 0
    ensures r < modval
  {
    r :| 0 <= r < modval;
  }

  /** The running-total loop: the item a draw falls on. */
  method Pick(ws: seq<nat>, r: nat) returns (i: nat)
    requires r < Total(ws)
    ensures i == Choose(ws, r, 0) && ws[i] > 0
  {
    var running := 0;
    i := 0;
    while i < |ws|
      invariant 0 <= i <= |ws| && running == Sum(ws, i) <= r && Choose(ws, r, i) == Choose(ws, r, 0)
    {
      running := running + ws[i];
      if r < running {
        return;
      }
      i := i + 1;
    }
  }

  // ---- Configuration ----------------------------------------------------------------------------

  function Weights(addrs: seq<Addr>): (ws: seq<nat>)
    ensures |ws| == |addrs| && forall i :: 0 <= i < |ws| ==> ws[i] == addrs[i].weight
  {
    seq(|addrs|, i requires 0 <= i < |addrs| => addrs[i].weight)
  }

  function GroupWeights(groups: seq<Group>): (ws: seq<nat>)
    ensures |ws| == |groups| && forall i :: 0 <= i < |ws| ==> ws[i] == groups[i].weight
  {
    seq(|groups|, i requires 0 <= i < |groups| => groups[i].weight)
  }

  ghost predicate AddrsOk(addrs: seq<Addr>) {
    0 < |addrs| <= MAX_ADDRS && forall i :: 0 <= i < |addrs| ==> 1 <= addrs[i].weight <= MAX_WEIGHT
  }

  ghost predicate GroupOk(g: Group) {
    AddrsOk(g.addrs) && g.weight == Total(Weights(g.addrs)) && g.maxWeight == MaxOf(Weights(g.addrs), |g.addrs|)
  }

  ghost predicate GroupsOk(groups: seq<Group>) {
    forall i {:trigger GroupOk(groups[i])} :: 0 <= i < |groups| ==> GroupOk(groups[i])
  }

  ghost predicate SetOk(s: AddrSet) {
    && 0 < |s.groups| <= MAX_ITEMS && GroupsOk(s.groups)
    && s.weight == Total(GroupWeights(s.groups)) && s.maxWeight == MaxOf(GroupWeights(s.groups), |s.groups|)
    && 1 <= s.upWeight <= s.weight
  }

  /** The summing loop over a group's addresses. */
  method MakeGroup(addrs: seq<Addr>) returns (g: Group)
    requires AddrsOk(addrs)
    ensures GroupOk(g) && g.addrs == addrs && 0 < g.maxWeight <= g.weight <= MAX_ADDRS * MAX_WEIGHT
  {
    var sum, max := SumAndMax(Weights(addrs));
    SumBound(Weights(addrs), |addrs|, MAX_WEIGHT);
    SumZero(Weights(addrs), |addrs|);
    MaxBelowSum(Weights(addrs), |addrs|);
    g := Group(addrs, sum, max);
  }

  lemma {:induction false} MaxBelowSum(ws: seq<nat>, k: nat)
    requires k <= |ws|
    ensures MaxOf(ws, k) <= Sum(ws, k)
  {
    if k != 0 { MaxBelowSum(ws, k - 1); }
  }

  method SumAndMax(ws: seq<nat>) returns (sum: nat, max: nat)
    ensures sum == Total(ws) && max == MaxOf(ws, |ws|)
  {
    sum, max := 0, 0;
    var i := 0;
    while i < |ws|
      invariant 0 <= i <= |ws| && sum == Sum(ws, i) && max == MaxOf(ws, i)
    {
      sum := sum + ws[i];
      if max < ws[i] { max := ws[i]; }
      i := i + 1;
    }
  }

  /** The same over the groups: no sum passes what 32 bits hold. */
  method MakeSet(groups: seq<Group>, upThresh: real, multi: bool) returns (s: AddrSet)
    requires 0 < |groups| <= MAX_ITEMS && GroupsOk(groups) && 0.0 < upThresh <= 1.0
    ensures SetOk(s) && s.groups == groups && s.multi == multi && s.weight <= U32_MAX
    ensures s.upWeight as real - 1.0 < upThresh * s.weight as real <= s.upWeight as real
  {
    var sum, max := SumAndMax(GroupWeights(groups));
    GroupsFit(groups);
    var upWeight := Ceil(upThresh * sum as real);
    Share(upThresh, sum);
    s := AddrSet(groups, sum, max, upWeight, multi);
  }

  /** `ceil` */
  function Ceil(x: real): (n: int)
    ensures n as real - 1.0 < x <= n as real
  {
    -((-x).Floor)
  }

  lemma Share(t: real, n: nat)
    requires 0.0 < t <= 1.0 && n > 0
    ensures 1 <= Ceil(t * n as real) <= n
  {
    var x := n as real;
    assert 0.0 < t * x && t * x <= 1.0 * x;
  }

  lemma GroupWeightBound(g: Group)
    requires GroupOk(g)
    ensures 0 < g.maxWeight <= g.weight <= MAX_ADDRS * MAX_WEIGHT
  {
    SumBound(Weights(g.addrs), |g.addrs|, MAX_WEIGHT);
    SumZero(Weights(g.addrs), |g.addrs|);
    MaxBelowSum(Weights(g.addrs), |g.addrs|);
    assert |g.addrs| * MAX_WEIGHT <= MAX_ADDRS * MAX_WEIGHT;
  }

  lemma GroupsFit(groups: seq<Group>)
    requires 0 < |groups| <= MAX_ITEMS && GroupsOk(groups)
    ensures 0 < Total(GroupWeights(groups)) <= MAX_ITEMS * (MAX_ADDRS * MAX_WEIGHT) <= U32_MAX
  {
    var ws := GroupWeights(groups);
    forall i | 0 <= i < |ws| ensures 0 < ws[i] <= MAX_ADDRS * MAX_WEIGHT {
      assert GroupOk(groups[i]);
      GroupWeightBound(groups[i]);
    }
    SumBound(ws, |ws|, MAX_ADDRS * MAX_WEIGHT);
    SumZero(ws, |ws|);
  }

  // ---- Resolving ------------------------------------------------------------------------------

  /** The weights of a group's addresses that are not down. */
  function LiveWeights(addrs: seq<Addr>): (ws: seq<nat>)
    ensures |ws| == |addrs| && forall i :: 0 <= i < |ws| ==>
              ws[i] == if addrs[i].state == Down then 0 else addrs[i].weight
  {
    seq(|addrs|, i requires 0 <= i < |addrs| => if addrs[i].state == Down then 0 else addrs[i].weight)
  }

  ghost predicate AllDown(s: AddrSet) {
    forall i, j :: 0 <= i < |s.groups| && 0 <= j < |s.groups[i].addrs| ==> s.groups[i].addrs[j].state == Down
  }

  /** The weights that count: the live ones, or all of them if no address is live. */
  ghost function Effective(s: AddrSet, i: nat): seq<nat>
    requires i < |s.groups|
  {
    if AllDown(s) then Weights(s.groups[i].addrs) else LiveWeights(s.groups[i].addrs)
  }

  function LiveSums(groups: seq<Group>): (ws: seq<nat>)
    ensures |ws| == |groups| && forall i :: 0 <= i < |ws| ==> ws[i] == Total(LiveWeights(groups[i].addrs))
  {
    seq(|groups|, i requires 0 <= i < |groups| => Total(LiveWeights(groups[i].addrs)))
  }

  /** The weight of all addresses that are not down. */
  function LiveTotal(s: AddrSet): nat { Total(LiveSums(s.groups)) }

  /** Per-group weights, sums and maxima. */
  datatype Tally = Tally(weights: seq<seq<nat>>, sums: seq<nat>, maxs: seq<nat>)

  ghost predicate Tallied(t: Tally, n: nat) {
    |t.weights| == n && |t.sums| == n && |t.maxs| == n &&
    forall i {:trigger TalliedAt(t, i)} :: 0 <= i < n ==> TalliedAt(t, i)
  }

  ghost predicate TalliedAt(t: Tally, i: nat)
    requires i < |t.weights| && i < |t.sums| && i < |t.maxs|
  {
    t.sums[i] == Total(t.weights[i]) && t.maxs[i] == MaxOf(t.weights[i], |t.weights[i]|)
  }

  /** One group: a weight of 0 for an address that is down; anything not up cuts the TTL. */
  method TallyGroup(g: Group) returns (ws: seq<nat>, sum: nat, max: nat, cut: bool)
    ensures ws == LiveWeights(g.addrs) && sum == Total(ws) && max == MaxOf(ws, |ws|)
    ensures cut <==> exists j :: 0 <= j < |g.addrs| && g.addrs[j].state != Up
  {
    ws, sum, max, cut := [], 0, 0, false;
    var j := 0;
    ghost var live := LiveWeights(g.addrs);
    while j < |g.addrs|
      invariant 0 <= j <= |g.addrs| && ws == live[..j] && sum == Sum(live, j) && max == MaxOf(live, j)
      invariant cut <==> exists k :: 0 <= k < j && g.addrs[k].state != Up
    {
      var a := g.addrs[j];
      if a.state != Up { cut := true; }
      if a.state != Down {
        ws := ws + [a.weight];
        sum := sum + a.weight;
        if a.weight > max { max := a.weight; }
      } else {
        ws := ws + [0];
      }
      j := j + 1;
    }
    assert live[..j] == live;
  }

  /** All groups. */
  method TallySet(s: AddrSet) returns (t: Tally, cut: bool)
    ensures Tallied(t, |s.groups|) && forall i :: 0 <= i < |s.groups| ==> t.weights[i] == LiveWeights(s.groups[i].addrs)
    ensures cut <==>
              exists i, j :: 0 <= i < |s.groups| && 0 <= j < |s.groups[i].addrs| && s.groups[i].addrs[j].state != Up
  {
    t, cut := Tally([], [], []), false;
    var i := 0;
    while i < |s.groups|
      invariant 0 <= i <= |s.groups| && Tallied(t, i)
      invariant forall k :: 0 <= k < i ==> t.weights[k] == LiveWeights(s.groups[k].addrs)
      invariant cut <==> exists k, j :: 0 <= k < i && 0 <= j < |s.groups[k].addrs| && s.groups[k].addrs[j].state != Up
    {
      var ws, sum, max, c := TallyGroup(s.groups[i]);
      t := TallyMore(t, i, ws, sum, max);
      cut := cut || c;
      i := i + 1;
    }
  }

  method TallyMore(t: Tally, ghost n: nat, ws: seq<nat>, sum: nat, max: nat) returns (t': Tally)
    requires Tallied(t, n) && sum == Total(ws) && max == MaxOf(ws, |ws|)
    ensures Tallied(t', n + 1) && t'.weights == t.weights + [ws]
  {
    t' := Tally(t.weights + [ws], t.sums + [sum], t.maxs + [max]);
    forall i | 0 <= i < n + 1 ensures TalliedAt(t', i) {
      if i < n { assert TalliedAt(t, i); }
    }
  }

  /** The configured weights instead. */
  method TallyAll(s: AddrSet) returns (t: Tally)
    requires SetOk(s)
    ensures Tallied(t, |s.groups|) && forall i :: 0 <= i < |s.groups| ==> t.weights[i] == Weights(s.groups[i].addrs)
  {
    t := Tally([], [], []);
    var i := 0;
    while i < |s.groups|
      invariant 0 <= i <= |s.groups| && Tallied(t, i)
      invariant forall k :: 0 <= k < i ==> t.weights[k] == Weights(s.groups[k].addrs)
    {
      assert GroupOk(s.groups[i]);
      t := TallyMore(t, i, Weights(s.groups[i].addrs), s.groups[i].weight, s.groups[i].maxWeight);
      i := i + 1;
    }
  }

  /** The weights that count for each group, with their sums and maxima. */
  ghost predicate Counts(s: AddrSet, t: Tally) {
    Tallied(t, |s.groups|) && forall i {:trigger CountsAt(s, t, i)} :: 0 <= i < |s.groups| ==> CountsAt(s, t, i)
  }

  ghost predicate CountsAt(s: AddrSet, t: Tally, i: nat)
    requires i < |s.groups| && i < |t.weights|
  {
    t.weights[i] == Effective(s, i)
  }

  /** All live weights are 0 exactly when every address is down. */
  lemma NoneLive(s: AddrSet, t: Tally)
    requires SetOk(s) && Tallied(t, |s.groups|)
    requires forall i :: 0 <= i < |s.groups| ==> t.weights[i] == LiveWeights(s.groups[i].addrs)
    ensures Total(t.sums) == 0 <==> AllDown(s)
  {
    SumZero(t.sums, |t.sums|);
    forall i | 0 <= i < |s.groups|
      ensures t.sums[i] == 0 <==> forall j :: 0 <= j < |s.groups[i].addrs| ==> s.groups[i].addrs[j].state == Down {
      assert TalliedAt(t, i) && GroupOk(s.groups[i]);
      var ws, addrs := t.weights[i], s.groups[i].addrs;
      SumZero(ws, |ws|);
      assert forall j :: 0 <= j < |ws| ==> (ws[j] == 0 <==> addrs[j].state == Down);
    }
  }

  /** The tally a choice is made from: never of weight 0 altogether. */
  method Prepare(s: AddrSet) returns (t: Tally, sum: nat, max: nat, cut: bool)
    requires SetOk(s)
    ensures Counts(s, t) && sum == Total(t.sums) > 0 && max == MaxOf(t.sums, |t.sums|) > 0
    ensures sum == if AllDown(s) then s.weight else LiveTotal(s)
    ensures cut <==>
              exists i, j :: 0 <= i < |s.groups| && 0 <= j < |s.groups[i].addrs| && s.groups[i].addrs[j].state != Up
  {
    t, cut := TallySet(s);
    sum, max := SumAndMax(t.sums);
    NoneLive(s, t);
    LiveSumsOf(s, t);
    if sum == 0 {
      sum, max := s.weight, s.maxWeight;
      t := TallyAll(s);
      SameSums(s, t);
      GroupsFit(s.groups);
    }
    SumZero(t.sums, |t.sums|);
    assert forall i :: 0 <= i < |s.groups| ==> CountsAt(s, t, i);
  }

  lemma LiveSumsOf(s: AddrSet, t: Tally)
    requires Tallied(t, |s.groups|) && forall i :: 0 <= i < |s.groups| ==>
              t.weights[i] == LiveWeights(s.groups[i].addrs)
    ensures t.sums == LiveSums(s.groups)
  {
    forall i | 0 <= i < |s.groups| ensures t.sums[i] == LiveSums(s.groups)[i] {
      assert TalliedAt(t, i);
    }
  }

  lemma SameSums(s: AddrSet, t: Tally)
    requires SetOk(s) && Tallied(t, |s.groups|) && forall i :: 0 <= i < |s.groups| ==>
              t.weights[i] == Weights(s.groups[i].addrs)
    ensures t.sums == GroupWeights(s.groups)
  {
    forall i | 0 <= i < |s.groups| ensures t.sums[i] == s.groups[i].weight {
      assert TalliedAt(t, i) && GroupOk(s.groups[i]);
    }
  }

  lemma {:induction false} SumLess(a: seq<nat>, b: seq<nat>, k: nat)
    requires |a| == |b| && k <= |a| && forall i :: 0 <= i < |a| ==> a[i] <= b[i]
    ensures Sum(a, k) <= Sum(b, k)
  {
    if k != 0 { SumLess(a, b, k - 1); }
  }

  /** What counts is never more than what was configured, so 32 bits hold every running total. */
  lemma CountsFit(s: AddrSet, t: Tally)
    requires SetOk(s) && Counts(s, t)
    ensures Total(t.sums) <= s.weight <= U32_MAX
  {
    var ws := GroupWeights(s.groups);
    forall i | 0 <= i < |ws| ensures t.sums[i] <= ws[i] {
      assert TalliedAt(t, i) && CountsAt(s, t, i) && GroupOk(s.groups[i]);
      SumLess(t.weights[i], Weights(s.groups[i].addrs), |t.weights[i]|);
    }
    SumLess(t.sums, ws, |ws|);
    GroupsFit(s.groups);
  }

  /** An address by its group and its place there. */
  datatype Place = Place(group: nat, addr: nat)

  ghost predicate Fine(s: AddrSet, c: Place) {
    && c.group < |s.groups| && c.addr < |s.groups[c.group].addrs|
    && (s.groups[c.group].addrs[c.addr].state != Down || AllDown(s))
  }

  lemma PositiveIsFine(s: AddrSet, t: Tally, i: nat, j: nat)
    requires SetOk(s) && Counts(s, t) && i < |s.groups| && j < |t.weights[i]| && t.weights[i][j] > 0
    ensures Fine(s, Place(i, j))
  {
    assert CountsAt(s, t, i);
  }

  /** Multi mode: of every group drawn, one address. */
  method ResolveMulti(s: AddrSet, t: Tally, max: nat) returns (result: seq<Place>)
    requires SetOk(s) && Counts(s, t) && max == MaxOf(t.sums, |t.sums|) > 0
    ensures forall k :: 0 <= k < |result| ==> Fine(s, result[k])
    ensures forall k, m :: 0 <= k < m < |result| ==> result[k].group < result[m].group
    ensures forall i :: 0 <= i < |s.groups| && t.sums[i] == max ==> InGroup(result, i)
    ensures result != []
  {
    result := [];
    var i := 0;
    MaxReached(t.sums, |t.sums|);
    while i < |s.groups|
      invariant 0 <= i <= |s.groups|
      invariant forall k :: 0 <= k < |result| ==> Fine(s, result[k]) && result[k].group < i
      invariant forall k, m :: 0 <= k < m < |result| ==> result[k].group < result[m].group
      invariant forall g :: 0 <= g < i && t.sums[g] == max ==> InGroup(result, g)
    {
      var r := GetRand(max);
      ghost var was := result;
      if r < t.sums[i] {
        assert TalliedAt(t, i);
        var a := GetRand(t.sums[i]);
        var j := Pick(t.weights[i], a);
        PositiveIsFine(s, t, i, j);
        result := result + [Place(i, j)];
        assert result[|was|].group == i;
      }
      forall g | InGroup(was, g) ensures InGroup(result, g) {
        var k :| 0 <= k < |was| && was[k].group == g;
        assert result[k].group == g;
      }
      i := i + 1;
    }
  }

  ghost predicate InGroup(result: seq<Place>, g: nat) {
    exists k :: 0 <= k < |result| && result[k].group == g
  }

  /** Single mode: one group is drawn by weight, and of it each address by its share of the group's maximum. */
  method ResolveSingle(s: AddrSet, t: Tally, sum: nat) returns (result: seq<Place>, ghost r: nat)
    requires SetOk(s) && Counts(s, t) && sum == Total(t.sums) > 0
    ensures r < Total(t.sums)
    ensures forall k :: 0 <= k < |result| ==> Fine(s, result[k]) && result[k].group == Choose(t.sums, r, 0)
    ensures forall k, m :: 0 <= k < m < |result| ==> result[k].addr < result[m].addr
    ensures var i := Choose(t.sums, r, 0);
            forall j :: 0 <= j < |t.weights[i]| && t.weights[i][j] == t.maxs[i] ==> Place(i, j) in result
    ensures result != []
  {
    var draw := GetRand(sum);
    r := draw;
    var i := Pick(t.sums, draw);
    result := [];
    var ws, max := t.weights[i], t.maxs[i];
    assert TalliedAt(t, i) && CountsAt(s, t, i);
    SumZero(ws, |ws|);
    MaxReached(ws, |ws|);
    var j := 0;
    while j < |ws|
      invariant 0 <= j <= |ws|
      invariant forall k :: 0 <= k < |result| ==> Fine(s, result[k]) && result[k].group == i && result[k].addr < j
      invariant forall k, m :: 0 <= k < m < |result| ==> result[k].addr < result[m].addr
      invariant forall k :: 0 <= k < j && ws[k] == max ==> Place(i, k) in result
    {
      var a := GetRand(max);
      if a < ws[j] {
        PositiveIsFine(s, t, i, j);
        result := result + [Place(i, j)];
      }
      j := j + 1;
    }
  }

  /**
    `resolve`: at least one address, none that is down unless all are.  The result says that enough weight
    is live, and also, since the weights were reset by then, that none is.
   */
  method Resolve(s: AddrSet) returns (result: seq<Place>, up: bool, cut: bool, ghost t: Tally, ghost r: nat)
    requires SetOk(s)
    ensures result != [] && forall k :: 0 <= k < |result| ==> Fine(s, result[k])
    ensures Counts(s, t) && Total(t.sums) <= U32_MAX && (up <==> AllDown(s) || LiveTotal(s) >= s.upWeight)
    ensures cut <==>
              exists i, j :: 0 <= i < |s.groups| && 0 <= j < |s.groups[i].addrs| && s.groups[i].addrs[j].state != Up
    ensures s.multi ==> forall i :: 0 <= i < |s.groups| && t.sums[i] == MaxOf(t.sums, |t.sums|) ==> InGroup(result, i)
    ensures s.multi ==> forall k, m :: 0 <= k < m < |result| ==> result[k].group < result[m].group
    ensures !s.multi ==> r < Total(t.sums) && forall k :: 0 <= k < |result| ==> result[k].group == Choose(t.sums, r, 0)
  {
    var tally, sum, max, c := Prepare(s);
    t, cut, r := tally, c, 0;
    CountsFit(s, tally);
    if s.multi {
      result := ResolveMulti(s, tally, max);
    } else {
      result, r := ResolveSingle(s, tally, sum);
    }
    up := sum >= s.upWeight;
  }

  // ---- What is documented -----------------------------------------------------------------------

  /** The plugin's manual: success is signalled while the live weight meets the threshold. */
  ghost predicate MeetsThreshold(s: AddrSet) { LiveTotal(s) >= s.upWeight }

  /** And below it addresses are chosen as if all were up. */
  ghost function ManualWeights(s: AddrSet, i: nat): seq<nat>
    requires i < |s.groups|
  {
    if MeetsThreshold(s) then LiveWeights(s.groups[i].addrs) else Weights(s.groups[i].addrs)
  }

  lemma NoneLiveTotal(s: AddrSet)
    requires SetOk(s)
    ensures LiveTotal(s) == 0 <==> AllDown(s)
  {
    var n := |s.groups|;
    var t := Tally(seq(n, i requires 0 <= i < n => LiveWeights(s.groups[i].addrs)), LiveSums(s.groups),
                   seq(n, i requires 0 <= i < n => MaxOf(LiveWeights(s.groups[i].addrs), |s.groups[i].addrs|)));
    assert forall i :: 0 <= i < n ==> TalliedAt(t, i);
    NoneLive(s, t);
  }

  /** What `resolve` returns is as documented exactly when some address is not down. */
  lemma FlagAsDocumented(s: AddrSet)
    requires SetOk(s)
    ensures ((AllDown(s) || LiveTotal(s) >= s.upWeight) <==> MeetsThreshold(s)) <==> !AllDown(s)
  {
    NoneLiveTotal(s);
  }

  /** The weights it chooses by are as documented exactly when the threshold is met or every address is down. */
  lemma WeightsAsDocumented(s: AddrSet)
    requires SetOk(s)
    ensures (forall i :: 0 <= i < |s.groups| ==> Effective(s, i) == ManualWeights(s, i)) <==>
              MeetsThreshold(s) || AllDown(s)
  {
    NoneLiveTotal(s);
    if !AllDown(s) && !MeetsThreshold(s) {
      if i :| 0 <= i < |s.groups| && LiveWeights(s.groups[i].addrs) != Weights(s.groups[i].addrs) {
        assert Effective(s, i) != ManualWeights(s, i);
      } else {
        AllLive(s);
      }
    }
  }

  lemma AllLive(s: AddrSet)
    requires SetOk(s) && forall i :: 0 <= i < |s.groups| ==>
              LiveWeights(s.groups[i].addrs) == Weights(s.groups[i].addrs)
    ensures LiveTotal(s) == s.weight
  {
    forall i | 0 <= i < |s.groups| ensures LiveSums(s.groups)[i] == GroupWeights(s.groups)[i] {
      assert GroupOk(s.groups[i]);
    }
    assert LiveSums(s.groups) == GroupWeights(s.groups);
  }

  /** One address, down: failure is documented, success is signalled. */
  lemma AllDownSignalsSuccess() returns (s: AddrSet)
    ensures SetOk(s) && AllDown(s) && !MeetsThreshold(s)
    ensures |s.groups| == 1 && |s.groups[0].addrs| == 1
  {
    var addrs := [Addr(0, 1, Down)];
    assert Weights(addrs) == [1] && Sum([1], 1) == Sum([1], 0) + 1 && MaxOf([1], 1) == 1;
    var g := Group(addrs, 1, 1);
    assert GroupOk(g) && GroupWeights([g]) == [1];
    s := AddrSet([g], 1, 1, 1, false);
    NoneLiveTotal(s);
  }

  // ---- CNAMEs -----------------------------------------------------------------------------------

  /** A configured CNAME: the name, full or partial, and its weight. */
  datatype Cname = Cname(name: Name, full: bool, weight: nat)

  function CnameWeights(cs: seq<Cname>): (ws: seq<nat>)
    ensures |ws| == |cs| && forall i :: 0 <= i < |ws| ==> ws[i] == cs[i].weight
  {
    seq(|cs|, i requires 0 <= i < |cs| => cs[i].weight)
  }

  /** Every partial name makes a name at the origin; that was tested when the resource was mapped. */
  ghost predicate CnamesOk(cs: seq<Cname>, origin: Name) {
    forall i :: 0 <= i < |cs| ==> NameOk(cs[i].name) && (!cs[i].full ==> NameOk(cs[i].name + origin))
  }

  /** `plugin_weighted_resolve_dyncname`: the CNAME the draw falls on, at the origin if it is partial. */
  method ResolveCname(cs: seq<Cname>, stored: seq<Bytes>, dnOrigin: Bytes, ghost origin: Name)
    returns (dname: Bytes, ghost chosen: nat, ghost r: nat)
    requires Total(CnameWeights(cs)) > 0 && NameOk(origin) && dnOrigin == DnameOf(origin, true) && CnamesOk(cs, origin)
    requires |stored| == |cs| && forall i :: 0 <= i < |cs| ==> stored[i] == DnameOf(cs[i].name, cs[i].full)
    ensures r < Total(CnameWeights(cs)) && chosen == Choose(CnameWeights(cs), r, 0) && cs[chosen].weight > 0
    ensures NameOk(if cs[chosen].full then cs[chosen].name else cs[chosen].name + origin)
    ensures dname == DnameOf(if cs[chosen].full then cs[chosen].name else cs[chosen].name + origin, true)
  {
    var sum, _ := SumAndMax(CnameWeights(cs));
    var draw := GetRand(sum);
    var i := Pick(CnameWeights(cs), draw);
    r, chosen, dname := draw, i, stored[i];
    if dname[|dname| - 1] == PARTIAL_END {
      var joined := DnameCat(dname, dnOrigin, cs[i].name, false, origin, true);
      dname := joined.value;
    }
  }
}
