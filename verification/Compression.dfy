/**
  Name compression: what `store_dname` looks for, what it emits, and why the
  message stays decodable.  Everything here is about values; `Encoder` holds the
  context that the server updates in place.
 */
module Compression {
  import opened Names
  import opened Decoder

  /**
    A recorded compression target: the wire form of a name, the message offset it was
    stored at, and the position in the name at which it stopped being literal (beyond
    the end of the name if it was stored whole).
   */
  datatype Target = Target(name: Bytes, storedAt: nat, literalTo: nat)

  /** The best match so far: a position in the name, and the offset to point at (0 for none). */
  datatype Match = Match(pos: nat, offset: nat)

  const MAX_TARGETS := 256
  const POINTER_SPAN := 0x4000
  const NO_MATCH := Match(255, 0)
  const WHOLE := 254

  // ---- The search ----------------------------------------------------------------

  /**
    The parallel walk of one name and one candidate: advance whichever has more bytes
    left, both if they have the same number, until the rests are equal.  The walk stays
    before `best` in the name and before `literalTo` in the candidate.
   */
  function Walk(w: Bytes, p: nat, c: Bytes, q: nat, literalTo: nat, best: nat): Option<(nat, nat)>
    requires WireAt(w, p) && w[p] != 0 && WireAt(c, q) && c[q] != 0
    decreases |w| - p + |c| - q
  {
    var wRest, cRest := |w| - 1 - p, |c| - 1 - q;
    if wRest == cRest && w[p..|w| - 1] == c[q..|c| - 1] then Some((p, q))
    else
      var p' := if wRest >= cRest then Next(w, p) else p;
      var q' := if wRest <= cRest then Next(c, q) else q;
      if wRest >= cRest && (p' >= best || p' == |w| - 1) then None
      else if wRest <= cRest && (q' >= literalTo || q' == |c| - 1) then None
      else Walk(w, p', c, q', literalTo, best)
  }

  /** Positions `p` and `q` start the same proper (non-root) suffix of both names. */
  ghost predicate Shared(w: Bytes, p: nat, c: Bytes, q: nat)
    requires WireAt(w, 0) && WireAt(c, 0)
  {
    Boundary(w, 0, p) && Boundary(c, 0, q) && p < |w| - 1 && q < |c| - 1 && w[p..] == c[q..]
  }

  /** What the walk finds, from cursors that have already passed every longer shared suffix. */
  lemma {:induction false} WalkFinds(w: Bytes, p: nat, c: Bytes, q: nat, literalTo: nat, best: nat)
    requires WireAt(w, 0) && Boundary(w, 0, p) && WireAt(w, p) && w[p] != 0 && p < best
    requires WireAt(c, 0) && Boundary(c, 0, q) && WireAt(c, q) && c[q] != 0 && q < literalTo
    ensures var r := Walk(w, p, c, q, literalTo, best);
            r.Some? ==> Shared(w, r.value.0, c, r.value.1) && r.value.0 < best && r.value.1 < literalTo
    ensures var r := Walk(w, p, c, q, literalTo, best);
            forall p2: nat, q2: nat :: Shared(w, p2, c, q2) && p <= p2 < best && q <= q2 < literalTo ==>
              r.Some? && r.value.0 <= p2
    decreases |w| - p + |c| - q
  {
    var wRest, cRest := |w| - 1 - p, |c| - 1 - q;
    EndByte(w, p);
    EndByte(c, q);
    if wRest == cRest && w[p..|w| - 1] == c[q..|c| - 1] {
      assert w[p..] == w[p..|w| - 1] + [0] == c[q..] by {
        assert c[q..] == c[q..|c| - 1] + [0];
      }
    } else {
      var p' := if wRest >= cRest then Next(w, p) else p;
      var q' := if wRest <= cRest then Next(c, q) else q;
      AllAhead(w, p, c, q, literalTo, best);
      BoundaryTrans(w, 0, p, p');
      BoundaryTrans(c, 0, q, q');
      if !(wRest >= cRest && (p' >= best || p' == |w| - 1)) && !(wRest <= cRest && (q' >= literalTo || q' == |c| - 1)) {
        EndByte(w, p');
        EndByte(c, q');
        WalkFinds(w, p', c, q', literalTo, best);
      }
    }
  }

  lemma AllAhead(w: Bytes, p: nat, c: Bytes, q: nat, literalTo: nat, best: nat)
    requires WireAt(w, 0) && Boundary(w, 0, p) && WireAt(w, p)
    requires WireAt(c, 0) && Boundary(c, 0, q) && WireAt(c, q)
    requires !(|w| - p == |c| - q && w[p..|w| - 1] == c[q..|c| - 1])
    ensures forall p2: nat, q2: nat :: Shared(w, p2, c, q2) && p <= p2 < best && q <= q2 < literalTo ==>
              (|w| - p >= |c| - q ==> Next(w, p) <= p2) && (|w| - p <= |c| - q ==> Next(c, q) <= q2)
  {
    forall p2: nat, q2: nat | Shared(w, p2, c, q2) && p <= p2 < best && q <= q2 < literalTo
      ensures (|w| - p >= |c| - q ==> Next(w, p) <= p2) && (|w| - p <= |c| - q ==> Next(c, q) <= q2)
    {
      SharedAhead(w, p, c, q, p2, q2);
    }
  }

  /** A shared suffix not at the cursors lies beyond whichever cursor has more left. */
  lemma SharedAhead(w: Bytes, p: nat, c: Bytes, q: nat, p2: nat, q2: nat)
    requires WireAt(w, 0) && Boundary(w, 0, p) && WireAt(w, p)
    requires WireAt(c, 0) && Boundary(c, 0, q) && WireAt(c, q)
    requires Shared(w, p2, c, q2) && p <= p2 && q <= q2
    requires !(|w| - p == |c| - q && w[p..|w| - 1] == c[q..|c| - 1])
    ensures |w| - p >= |c| - q ==> Next(w, p) <= p2
    ensures |w| - p <= |c| - q ==> Next(c, q) <= q2
  {
    assert |w| - p2 == |w[p2..]| == |c[q2..]| == |c| - q2;
    assert w[p2..|w| - 1] == w[p2..][..|w| - 1 - p2] == c[q2..][..|c| - 1 - q2] == c[q2..|c| - 1];
    if |w| - p >= |c| - q {
      BoundaryStep(w, 0, p, p2);
    }
    if |w| - p <= |c| - q {
      BoundaryStep(c, 0, q, q2);
    }
  }

  /** A recorded target is a legal non-root name, literal at its first label at least. */
  ghost predicate TargetLegal(t: Target) {
    IsWire(t.name) && t.name[0] != 0 && 0 < t.literalTo && HEADER <= t.storedAt
  }

  ghost predicate TargetsLegal(ts: seq<Target>) {
    forall i :: 0 <= i < |ts| ==> TargetLegal(ts[i])
  }

  /** The loop over all targets from the `i`-th on; it ends early once the whole name is matched. */
  function SearchFrom(ts: seq<Target>, i: nat, w: Bytes, m: Match): Match
    requires i <= |ts| && WireAt(w, 0) && w[0] != 0
    requires forall k :: 0 <= k < |ts| ==> WireAt(ts[k].name, 0) && ts[k].name[0] != 0
    decreases |ts| - i
  {
    if i == |ts| then m
    else
      var m' := Improve(ts[i], w, m);
      if m'.pos == 0 then m' else SearchFrom(ts, i + 1, w, m')
  }

  function Improve(t: Target, w: Bytes, m: Match): Match
    requires WireAt(w, 0) && w[0] != 0 && WireAt(t.name, 0) && t.name[0] != 0
  {
    match Walk(w, 0, t.name, 0, t.literalTo, m.pos)
    case None => m
    case Some((p, q)) => Match(p, t.storedAt + q)
  }

  function BestMatch(ts: seq<Target>, w: Bytes): Match
    requires WireAt(w, 0) && w[0] != 0
    requires forall k :: 0 <= k < |ts| ==> WireAt(ts[k].name, 0) && ts[k].name[0] != 0
  {
    SearchFrom(ts, 0, w, NO_MATCH)
  }

  /** The match `m` is a suffix shared with target `t` where `t` is still literal. */
  ghost predicate MatchesIn(m: Match, w: Bytes, t: Target, q: nat)
    requires WireAt(w, 0) && TargetLegal(t)
  {
    Shared(w, m.pos, t.name, q) && q < t.literalTo && m.offset == t.storedAt + q
  }

  /** No suffix longer than the one at `pos` is shared with the literal part of any target in `ts`. */
  ghost predicate NoneLonger(pos: nat, w: Bytes, ts: seq<Target>)
    requires WireAt(w, 0) && TargetsLegal(ts)
  {
    forall k: nat, p: nat, q: nat ::
      k < |ts| && q < ts[k].literalTo && Shared(w, p, ts[k].name, q) ==> pos <= p
  }

  lemma {:induction false} SearchFinds(ts: seq<Target>, i: nat, w: Bytes, m: Match)
    requires i <= |ts| && IsWire(w) && w[0] != 0 && TargetsLegal(ts) && 0 < m.pos
    requires m == NO_MATCH || exists k: nat, q: nat :: k < |ts| && MatchesIn(m, w, ts[k], q)
    requires NoneLonger(m.pos, w, ts[..i])
    ensures var r := SearchFrom(ts, i, w, m);
            && (r == NO_MATCH || exists k: nat, q: nat :: k < |ts| && MatchesIn(r, w, ts[k], q))
            && NoneLonger(r.pos, w, ts)
    decreases |ts| - i
  {
    if i == |ts| {
      assert ts[..i] == ts;
    } else {
      var t := ts[i];
      var m' := Improve(t, w, m);
      WalkFinds(w, 0, t.name, 0, t.literalTo, m.pos);
      if m' != m {
        var q := Walk(w, 0, t.name, 0, t.literalTo, m.pos).value.1;
        assert MatchesIn(m', w, ts[i], q);
      }
      var seen := ts[..i + 1];
      forall k: nat, p: nat, q: nat | k < |seen| && q < seen[k].literalTo && Shared(w, p, seen[k].name, q)
        ensures m'.pos <= p
      {
        if k < i {
          assert ts[..i][k] == seen[k];
        }
      }
      if m'.pos != 0 {
        SearchFinds(ts, i + 1, w, m');
      }
    }
  }

  // ---- The match is the longest one there is ---------------------------------------

  /** Where a target stopped being literal, an earlier target has the rest of the name literally. */
  ghost predicate Covered(ts: seq<Target>)
    requires TargetsLegal(ts)
  {
    forall i: nat {:trigger CoveredAt(ts, i)} ::
      i < |ts| && ts[i].literalTo < |ts[i].name| - 1 ==> CoveredAt(ts, i)
  }

  ghost predicate CoveredAt(ts: seq<Target>, i: nat)
    requires TargetsLegal(ts) && i < |ts|
  {
    exists j: nat, q: nat :: j < i && q < ts[j].literalTo && Shared(ts[i].name, ts[i].literalTo, ts[j].name, q)
  }

  /** Every suffix of every target is literal in some target. */
  lemma {:induction false} LiteralCopy(ts: seq<Target>, i: nat, p: nat) returns (j: nat, q: nat)
    requires TargetsLegal(ts) && Covered(ts) && i < |ts|
    requires Boundary(ts[i].name, 0, p) && p < |ts[i].name| - 1
    ensures j <= i && q < ts[j].literalTo && Shared(ts[i].name, p, ts[j].name, q)
    decreases i
  {
    var w := ts[i].name;
    if p < ts[i].literalTo {
      return i, p;
    }
    var k, r := CoverOf(ts, i);
    SharedTail(w, ts[i].literalTo, ts[k].name, r, p);
    var p' := r + (p - ts[i].literalTo);
    j, q := LiteralCopy(ts, k, p');
  }

  lemma CoverOf(ts: seq<Target>, i: nat) returns (j: nat, q: nat)
    requires TargetsLegal(ts) && Covered(ts) && i < |ts| && ts[i].literalTo < |ts[i].name| - 1
    ensures j < i && q < ts[j].literalTo && Shared(ts[i].name, ts[i].literalTo, ts[j].name, q)
  {
    assert CoveredAt(ts, i);
    j, q :| j < i && q < ts[j].literalTo && Shared(ts[i].name, ts[i].literalTo, ts[j].name, q);
  }

  /** A suffix of a shared suffix is shared. */
  lemma SharedTail(w: Bytes, p: nat, c: Bytes, q: nat, r: nat)
    requires WireAt(w, 0) && WireAt(c, 0) && Shared(w, p, c, q)
    requires Boundary(w, 0, r) && p <= r < |w| - 1
    ensures Shared(w, r, c, q + (r - p))
  {
    BoundaryOrder(w, 0, p, r);
    BoundaryWire(c, 0, q);
    BoundaryShift(w, p, c, q, r);
    BoundaryTrans(c, 0, q, q + (r - p));
    assert |w[p..]| == |c[q..]|;
  }

  /**
    The search is optimal: no suffix of `w` longer than the one it replaces is a suffix of any
    recorded target at all, though each target is searched only as far as it is literal.
   */
  lemma MatchIsLongest(ts: seq<Target>, w: Bytes, k: nat, p: nat, q: nat)
    requires IsWire(w) && w[0] != 0 && TargetsLegal(ts) && Covered(ts)
    requires k < |ts| && Shared(w, p, ts[k].name, q)
    ensures BestMatch(ts, w).offset != 0 && BestMatch(ts, w).pos <= p
  {
    SearchFinds(ts, 0, w, NO_MATCH);
    var j, r := LiteralCopy(ts, k, q);
    assert Shared(w, p, ts[j].name, r);
    assert BestMatch(ts, w).pos <= p;
  }

  // ---- What is emitted, and that it decodes ------------------------------------------

  /** The two bytes of `htons(0xC000 | offset)`, cut to sixteen bits as the store does. */
  function Pointer(offset: nat): Bytes {
    [0xC0 + offset % POINTER_SPAN / 0x100, offset % 0x100]
  }

  lemma PointerRoundTrip(offset: nat)
    ensures Pointer(offset)[0] >= 0xC0
    ensures PointerValue(Pointer(offset)[0], Pointer(offset)[1]) == offset % POINTER_SPAN
  {
  }

  /** The bytes stored for name `w`. */
  function StoredBytes(ts: seq<Target>, w: Bytes): Bytes
    requires IsWire(w)
    requires forall k :: 0 <= k < |ts| ==> WireAt(ts[k].name, 0) && ts[k].name[0] != 0
  {
    if w[0] == 0 then [0]
    else
      var m := BestMatch(ts, w);
      if m.offset != 0 && m.pos <= |w| then w[..m.pos] + Pointer(m.offset) else w
  }

  /** The targets after name `w` was stored at `at` in the main message. */
  function TargetsAfter(ts: seq<Target>, at: nat, w: Bytes): seq<Target>
    requires IsWire(w)
    requires forall k :: 0 <= k < |ts| ==> WireAt(ts[k].name, 0) && ts[k].name[0] != 0
  {
    if w[0] == 0 then ts else Record(ts, at, w, BestMatch(ts, w).pos)
  }

  /** Recording a name that is literal up to `literalTo`; a name matched from its first label is not recorded. */
  function Record(ts: seq<Target>, at: nat, w: Bytes, literalTo: nat): seq<Target> {
    if literalTo != 0 && at < POINTER_SPAN && |ts| < MAX_TARGETS then ts + [Target(w, at, literalTo)] else ts
  }

  /** Each label of the literal part of target `t` is where the target says, and the name can be read from there. */
  ghost predicate Resolves(p: Bytes, t: Target)
    requires TargetLegal(t)
  {
    forall q: nat {:trigger ResolvesAt(p, t, q)} ::
      q < |t.name| - 1 && q < t.literalTo && WireAt(t.name, q) && Boundary(t.name, 0, q) ==> ResolvesAt(p, t, q)
  }

  ghost predicate ResolvesAt(p: Bytes, t: Target, q: nat)
    requires WireAt(t.name, q)
  {
    StartsLabel(p, t.storedAt + q) && Reads(p, t.storedAt + q, t.storedAt + q, LabelsAt(t.name, q))
  }

  ghost predicate AllResolve(p: Bytes, ts: seq<Target>)
    requires TargetsLegal(ts)
  {
    forall i {:trigger Resolves(p, ts[i])} :: 0 <= i < |ts| ==> Resolves(p, ts[i])
  }

  lemma SliceOfSlice(s: Bytes, a: nat, b: nat, i: nat, j: nat)
    requires a <= b <= |s| && i <= j <= b - a
    ensures s[a..b][i..j] == s[a + i..a + j]
  {
    var x, y := s[a..b][i..j], s[a + i..a + j];
    forall k | 0 <= k < |x| ensures x[k] == y[k] {
      assert x[k] == s[a..b][i + k] == s[a + (i + k)] == y[k];
    }
    assert x == y;
  }

  /** A literal label: its length byte is the same, its text the same up to case. */
  lemma LiteralLabel(p: Bytes, at: nat, w: Bytes, q: nat, cut: nat)
    requires cut <= |w| && at + cut <= |p| && SameLabel(p[at..at + cut], w[..cut])
    requires q < cut && w[q] <= MAX_LABEL && Next(w, q) <= cut
    ensures p[at + q] == w[q] && SameLabel(p[at + q + 1..at + Next(w, q)], w[q + 1..Next(w, q)])
  {
    var a, b := p[at..at + cut], w[..cut];
    assert Lc(p[at + q]) == Lc(a[q]) == Lc(b[q]) == Lc(w[q]);
    SliceOfSlice(p, at, at + cut, q + 1, Next(w, q));
    SliceOfSlice(w, 0, cut, q + 1, Next(w, q));
    assert SameLabel(a[q + 1..Next(w, q)], b[q + 1..Next(w, q)]);
  }

  /** Literal bytes followed by something that reads as the rest read as the whole. */
  lemma {:induction false} LiteralReadsOn(p: Bytes, at: nat, limit: nat, w: Bytes, q: nat, cut: nat)
    requires WireAt(w, q) && Boundary(w, q, cut) && WireAt(w, cut)
    requires at + cut <= |p| && SameLabel(p[at..at + cut], w[..cut]) && Reads(p, at + cut, limit, LabelsAt(w, cut))
    ensures Reads(p, at + q, limit, LabelsAt(w, q))
    ensures q < cut ==> StartsLabel(p, at + q)
    decreases |w| - q
  {
    if q != cut {
      BoundaryWire(w, Next(w, q), cut);
      LiteralLabel(p, at, w, q, cut);
      LiteralReadsOn(p, at, limit, w, Next(w, q), cut);
      ReadsLabel(p, at + q, limit, w[q + 1..Next(w, q)], LabelsAt(w, Next(w, q)));
    }
  }

  /** A name stored at `at`, literal up to `cut` and read on from there, resolves. */
  lemma NewTargetResolves(p: Bytes, at: nat, w: Bytes, cut: nat, literalTo: nat)
    requires IsWire(w) && w[0] != 0 && Boundary(w, 0, cut) && WireAt(w, cut) && HEADER <= at && 0 < literalTo
    requires literalTo <= cut || cut == |w| - 1
    requires at + cut <= |p| && SameLabel(p[at..at + cut], w[..cut]) && Reads(p, at + cut, at, LabelsAt(w, cut))
    ensures Resolves(p, Target(w, at, literalTo))
  {
    var t := Target(w, at, literalTo);
    forall q: nat | q < |w| - 1 && q < literalTo && WireAt(w, q) && Boundary(w, 0, q) ensures ResolvesAt(p, t, q) {
      LiteralLabelResolves(p, t, q, cut);
    }
  }

  lemma LiteralLabelResolves(p: Bytes, t: Target, q: nat, cut: nat)
    requires WireAt(t.name, 0) && Boundary(t.name, 0, cut) && WireAt(t.name, cut)
    requires t.storedAt + cut <= |p| && SameLabel(p[t.storedAt..t.storedAt + cut], t.name[..cut])
    requires Reads(p, t.storedAt + cut, t.storedAt, LabelsAt(t.name, cut))
    requires q < cut && WireAt(t.name, q) && Boundary(t.name, 0, q)
    ensures ResolvesAt(p, t, q)
  {
    BoundaryOrder(t.name, 0, q, cut);
    LiteralReads(p, t.storedAt, t.name, q, cut, t.storedAt + q);
  }

  lemma LiteralReads(p: Bytes, at: nat, w: Bytes, q: nat, cut: nat, o: nat)
    requires WireAt(w, q) && WireAt(w, cut) && q < cut && Boundary(w, q, cut) && o == at + q
    requires at + cut <= |p| && SameLabel(p[at..at + cut], w[..cut]) && Reads(p, at + cut, at, LabelsAt(w, cut))
    ensures StartsLabel(p, o) && Reads(p, o, o, LabelsAt(w, q))
  {
    LiteralReadsOn(p, at, at, w, q, cut);
    ReadsRaise(p, o, at, o, LabelsAt(w, q));
  }

  lemma ResolvesExtend(p: Bytes, e: Bytes, ts: seq<Target>)
    requires TargetsLegal(ts) && AllResolve(p, ts)
    ensures AllResolve(p + e, ts)
  {
    forall i, q: nat
      | 0 <= i < |ts| && q < |ts[i].name| - 1 && q < ts[i].literalTo && WireAt(ts[i].name, q) &&
        Boundary(ts[i].name, 0, q)
      ensures ResolvesAt(p + e, ts[i], q)
    {
      var t := ts[i];
      assert Resolves(p, ts[i]);
      assert ResolvesAt(p, t, q);
      assert (p + e)[t.storedAt + q] == p[t.storedAt + q];
      ReadsExtend(p, e, t.storedAt + q, t.storedAt + q, t.storedAt + q, LabelsAt(t.name, q));
    }
  }

  /** What every store keeps: targets are legal, their literal parts can be pointed at, and none hides a suffix. */
  ghost predicate Sound(p: Bytes, ts: seq<Target>) {
    HEADER <= |p| && TargetsLegal(ts) && AllResolve(p, ts) && Covered(ts)
  }

  lemma SoundExtend(p: Bytes, e: Bytes, ts: seq<Target>)
    requires Sound(p, ts)
    ensures Sound(p + e, ts)
  {
    ResolvesExtend(p, e, ts);
  }

  /** Storing a name whole, with no search (`store_dname_nocomp`). */
  lemma StoreWholeSound(p: Bytes, ts: seq<Target>, w: Bytes)
    requires Sound(p, ts) && IsWire(w)
    ensures Reads(p + w, |p|, |p|, LabelsAt(w, 0))
    ensures Sound(p + w, if w[0] == 0 then ts else Record(ts, |p|, w, WHOLE))
  {
    SoundExtend(p, w, ts);
    WholeReads(p, w);
    if w[0] != 0 {
      WholeResolves(p, w, WHOLE);
      RecordKeeps(p + w, ts, |p|, w, WHOLE);
    }
  }

  /** A name that the message holds in full at `at`, up to letter case, is read there. */
  lemma WholeReadsAt(r: Bytes, at: nat, w: Bytes)
    requires IsWire(w) && at + |w| <= |r| && SameLabel(r[at..at + (|w| - 1)], w[..|w| - 1]) && r[at + (|w| - 1)] == 0
    ensures Reads(r, at, at, LabelsAt(w, 0))
  {
    LastLabel(r, at, w);
    LiteralReadsOn(r, at, at, w, 0, |w| - 1);
  }

  lemma LastLabel(r: Bytes, at: nat, w: Bytes)
    requires IsWire(w) && at + |w| <= |r| && r[at + (|w| - 1)] == 0
    ensures WireAt(w, |w| - 1) && Boundary(w, 0, |w| - 1) && Reads(r, at + (|w| - 1), at, LabelsAt(w, |w| - 1))
  {
    EndIsBoundary(w, 0);
    EndByte(w, 0);
    BoundaryWire(w, 0, |w| - 1);
    RootReads(r, at + (|w| - 1), at);
  }

  /** It can then be pointed at, label by label. */
  lemma WholeResolvesAt(r: Bytes, at: nat, w: Bytes, literalTo: nat)
    requires IsWire(w) && w[0] != 0 && HEADER <= at && 0 < literalTo
    requires at + |w| <= |r| && SameLabel(r[at..at + (|w| - 1)], w[..|w| - 1]) && r[at + (|w| - 1)] == 0
    ensures Resolves(r, Target(w, at, literalTo))
  {
    LastLabel(r, at, w);
    NewTargetResolves(r, at, w, |w| - 1, literalTo);
  }

  lemma WholeReads(p: Bytes, w: Bytes)
    requires IsWire(w)
    ensures Reads(p + w, |p|, |p|, LabelsAt(w, 0))
  {
    EndByte(w, 0);
    AppendedBytes(p, w, |w| - 1);
    WholeReadsAt(p + w, |p|, w);
  }

  lemma AppendedBytes(p: Bytes, w: Bytes, k: nat)
    requires k < |w|
    ensures (p + w)[|p|..|p| + k] == w[..k] && (p + w)[|p| + k] == w[k]
    ensures SameLabel((p + w)[|p|..|p| + k], w[..k])
  {
  }

  lemma RootReads(p: Bytes, o: nat, limit: nat)
    requires o < |p| && p[o] == 0
    ensures Reads(p, o, limit, [])
  {
  }

  lemma WholeResolves(p: Bytes, w: Bytes, literalTo: nat)
    requires IsWire(w) && w[0] != 0 && HEADER <= |p| && 0 < literalTo
    ensures Resolves(p + w, Target(w, |p|, literalTo))
  {
    EndByte(w, 0);
    AppendedBytes(p, w, |w| - 1);
    WholeResolvesAt(p + w, |p|, w, literalTo);
  }

  /** Recording keeps the targets covered when the rest of the new name is literal in an earlier one. */
  lemma RecordCovers(ts: seq<Target>, at: nat, w: Bytes, literalTo: nat)
    requires TargetsLegal(ts) && Covered(ts) && IsWire(w) && w[0] != 0 && HEADER <= at
    requires literalTo < |w| - 1 ==>
               exists j: nat, q: nat :: j < |ts| && q < ts[j].literalTo && Shared(w, literalTo, ts[j].name, q)
    ensures TargetsLegal(Record(ts, at, w, literalTo)) && Covered(Record(ts, at, w, literalTo))
  {
    var ts' := Record(ts, at, w, literalTo);
    if ts' != ts {
      forall i: nat | i < |ts'| && ts'[i].literalTo < |ts'[i].name| - 1 ensures CoveredAt(ts', i) {
        if i < |ts| {
          var j, q := CoverOf(ts, i);
          assert ts'[j] == ts[j] && Shared(ts'[i].name, ts'[i].literalTo, ts'[j].name, q);
        } else {
          var j: nat, q: nat :| j < |ts| && q < ts[j].literalTo && Shared(w, literalTo, ts[j].name, q);
          assert ts'[j] == ts[j];
        }
      }
    }
  }

  lemma RecordKeeps(p: Bytes, ts: seq<Target>, at: nat, w: Bytes, literalTo: nat)
    requires Sound(p, ts) && IsWire(w) && w[0] != 0 && HEADER <= at
    requires literalTo != 0 ==> Resolves(p, Target(w, at, literalTo))
    requires literalTo < |w| - 1 ==>
               exists j: nat, q: nat :: j < |ts| && q < ts[j].literalTo && Shared(w, literalTo, ts[j].name, q)
    ensures Sound(p, Record(ts, at, w, literalTo))
  {
    RecordCovers(ts, at, w, literalTo);
  }

  /** Wherever it happens, storing a name keeps the targets legal and covered, so the search stays optimal. */
  lemma StoreCovers(ts: seq<Target>, at: nat, w: Bytes)
    requires TargetsLegal(ts) && Covered(ts) && IsWire(w) && HEADER <= at
    ensures TargetsLegal(TargetsAfter(ts, at, w)) && Covered(TargetsAfter(ts, at, w))
  {
    if w[0] != 0 {
      SearchFinds(ts, 0, w, NO_MATCH);
      var m := BestMatch(ts, w);
      if m != NO_MATCH {
        var k: nat, q: nat :| k < |ts| && MatchesIn(m, w, ts[k], q);
        assert Shared(w, m.pos, ts[k].name, q);
      }
      RecordCovers(ts, at, w, m.pos);
    }
  }

  /** The match that a name is compressed with, if any, is where a pointer can lead. */
  predicate Reachable(ts: seq<Target>, w: Bytes)
    requires IsWire(w)
    requires forall k :: 0 <= k < |ts| ==> WireAt(ts[k].name, 0) && ts[k].name[0] != 0
  {
    w[0] == 0 || BestMatch(ts, w).offset < POINTER_SPAN
  }

  /**
    Storing with compression is sound, however long the message is: the message with the new target is
    sound again, and the bytes stored read as the name if its match is reachable.
   */
  lemma StoreSound(p: Bytes, ts: seq<Target>, w: Bytes)
    requires Sound(p, ts) && IsWire(w)
    ensures Reachable(ts, w) ==> Reads(p + StoredBytes(ts, w), |p|, |p|, LabelsAt(w, 0))
    ensures |p| <= POINTER_SPAN ==> Reachable(ts, w)
    ensures Sound(p + StoredBytes(ts, w), TargetsAfter(ts, |p|, w))
  {
    if w[0] == 0 {
      assert w == [0];
      StoreWholeSound(p, ts, w);
    } else {
      SearchFinds(ts, 0, w, NO_MATCH);
      var m := BestMatch(ts, w);
      if m == NO_MATCH {
        StoreUnmatched(p, ts, w);
      } else {
        var k: nat, q: nat :| k < |ts| && MatchesIn(m, w, ts[k], q);
        StoreFound(p, ts, w, m, k, q);
      }
    }
  }

  /** A name with a match: beyond a pointer's reach nothing is recorded, so the targets stay sound. */
  lemma StoreFound(p: Bytes, ts: seq<Target>, w: Bytes, m: Match, k: nat, q: nat)
    requires Sound(p, ts) && IsWire(w) && w[0] != 0 && m == BestMatch(ts, w) && k < |ts| && MatchesIn(m, w, ts[k], q)
    ensures StoredBytes(ts, w) == w[..m.pos] + Pointer(m.offset)
    ensures m.offset < POINTER_SPAN ==> Reads(p + StoredBytes(ts, w), |p|, |p|, LabelsAt(w, 0))
    ensures m.offset < |p|
    ensures Sound(p + StoredBytes(ts, w), Record(ts, |p|, w, m.pos))
  {
    MatchInRange(p, ts[k], w, m, q);
    PointerRoundTrip(m.offset);
    if m.offset < POINTER_SPAN {
      StoreMatched(p, ts, w, m, k, q, Pointer(m.offset));
    } else {
      SoundExtend(p, StoredBytes(ts, w), ts);
    }
  }

  lemma StoreUnmatched(p: Bytes, ts: seq<Target>, w: Bytes)
    requires Sound(p, ts) && IsWire(w) && w[0] != 0
    ensures Reads(p + w, |p|, |p|, LabelsAt(w, 0)) && Sound(p + w, Record(ts, |p|, w, NO_MATCH.pos))
  {
    WholeReads(p, w);
    WholeResolves(p, w, NO_MATCH.pos);
    SoundExtend(p, w, ts);
    RecordKeeps(p + w, ts, |p|, w, NO_MATCH.pos);
  }

  lemma StoreMatched(p: Bytes, ts: seq<Target>, w: Bytes, m: Match, k: nat, q: nat, ptr: Bytes)
    requires Sound(p, ts) && IsWire(w) && w[0] != 0 && k < |ts| && MatchesIn(m, w, ts[k], q)
    requires |ptr| == 2 && ptr[0] >= 0xC0 && PointerValue(ptr[0], ptr[1]) == m.offset
    ensures var p' := p + (w[..m.pos] + ptr);
            Reads(p', |p|, |p|, LabelsAt(w, 0)) && Sound(p', Record(ts, |p|, w, m.pos))
  {
    var e := w[..m.pos] + ptr;
    MatchedReads(p, ts[k], w, m, q, ptr);
    SoundExtend(p, e, ts);
    RecordKeeps(p + e, ts, |p|, w, m.pos);
  }

  lemma MatchInRange(p: Bytes, t: Target, w: Bytes, m: Match, q: nat)
    requires IsWire(w) && TargetLegal(t) && Resolves(p, t) && MatchesIn(m, w, t, q)
    ensures m.offset < |p| && m.pos < |w|
  {
    BoundaryWire(t.name, 0, q);
    assert ResolvesAt(p, t, q);
  }

  lemma StoredPart(p: Bytes, w: Bytes, pos: nat, ptr: Bytes, r: Bytes)
    requires pos <= |w| && r == p + (w[..pos] + ptr)
    ensures |p| + pos <= |r| && r[|p|..|p| + pos] == w[..pos] && SameLabel(r[|p|..|p| + pos], w[..pos])
  {
    var e := w[..pos] + ptr;
    assert e[..pos] == w[..pos] && r[|p|..|p| + pos] == e[..pos];
  }

  lemma MatchedReads(p: Bytes, t: Target, w: Bytes, m: Match, q: nat, ptr: Bytes)
    requires HEADER <= |p| && IsWire(w) && w[0] != 0 && TargetLegal(t) && Resolves(p, t) && MatchesIn(m, w, t, q)
    requires |ptr| == 2 && ptr[0] >= 0xC0 && PointerValue(ptr[0], ptr[1]) == m.offset
    ensures var p' := p + (w[..m.pos] + ptr);
            Reads(p', |p|, |p|, LabelsAt(w, 0)) && (m.pos != 0 ==> Resolves(p', Target(w, |p|, m.pos)))
  {
    var r := p + (w[..m.pos] + ptr);
    PointerReadsOn(p, t, w, m, q, ptr);
    StoredPart(p, w, m.pos, ptr, r);
    StoredReads(r, |p|, w, m.pos);
  }

  /** A name stored as labels up to `pos` and something that reads as the rest. */
  lemma StoredReads(r: Bytes, at: nat, w: Bytes, pos: nat)
    requires HEADER <= at && IsWire(w) && w[0] != 0 && Boundary(w, 0, pos) && WireAt(w, pos) && at + pos <= |r|
    requires SameLabel(r[at..at + pos], w[..pos]) && Reads(r, at + pos, at, LabelsAt(w, pos))
    ensures Reads(r, at, at, LabelsAt(w, 0)) && (pos != 0 ==> Resolves(r, Target(w, at, pos)))
  {
    LiteralReadsOn(r, at, at, w, 0, pos);
    if pos != 0 {
      NewTargetResolves(r, at, w, pos, pos);
    }
  }

  /** The emitted pointer leads to a literal label from which the rest of the name is read. */
  lemma PointerReadsOn(p: Bytes, t: Target, w: Bytes, m: Match, q: nat, ptr: Bytes)
    requires IsWire(w) && TargetLegal(t) && Resolves(p, t) && MatchesIn(m, w, t, q)
    requires |ptr| == 2 && ptr[0] >= 0xC0 && PointerValue(ptr[0], ptr[1]) == m.offset
    ensures WireAt(w, m.pos) && Reads(p + (w[..m.pos] + ptr), |p| + m.pos, |p|, LabelsAt(w, m.pos))
  {
    BoundaryWire(w, 0, m.pos);
    LiteralSpot(p, t, q, m.offset);
    PointerReads(p, m.offset, t.name, q, w, m.pos, ptr);
  }

  lemma PointerReads(p: Bytes, o: nat, c: Bytes, q: nat, w: Bytes, pos: nat, ptr: Bytes)
    requires HEADER <= o && WireAt(c, q) && StartsLabel(p, o) && Reads(p, o, o, LabelsAt(c, q))
    requires WireAt(w, pos) && pos <= |w| && w[pos..] == c[q..]
    requires |ptr| == 2 && ptr[0] >= 0xC0 && PointerValue(ptr[0], ptr[1]) == o
    ensures Reads(p + (w[..pos] + ptr), |p| + pos, |p|, LabelsAt(w, pos))
  {
    LabelsShift(w, pos, c, q);
    PointerAfter(p, w[..pos], ptr, o, LabelsAt(w, pos));
  }

  lemma LiteralSpot(p: Bytes, t: Target, q: nat, o: nat)
    requires TargetLegal(t) && Resolves(p, t) && Boundary(t.name, 0, q) && q < |t.name| - 1 && q < t.literalTo
    requires o == t.storedAt + q
    ensures WireAt(t.name, q) && StartsLabel(p, o) && Reads(p, o, o, LabelsAt(t.name, q))
  {
    BoundaryWire(t.name, 0, q);
    assert ResolvesAt(p, t, q);
  }

  /** A pointer to a place where a name is read, appended after more bytes, reads as that name. */
  lemma PointerAfter(p: Bytes, lit: Bytes, ptr: Bytes, offset: nat, n: Name)
    requires |ptr| == 2 && ptr[0] >= 0xC0 && PointerValue(ptr[0], ptr[1]) == offset
    requires HEADER <= offset && StartsLabel(p, offset) && Reads(p, offset, offset, n)
    ensures Reads(p + (lit + ptr), |p| + |lit|, |p|, n)
  {
    var p' := p + (lit + ptr);
    var o := |p| + |lit|;
    ReadsExtend(p, lit + ptr, offset, offset, offset, n);
    assert p'[offset] == p[offset];
    assert p'[o] == ptr[0] && p'[o + 1] == ptr[1];
  }

  /** A literal label where a name is read has the name's first label's length, and the rest follows it. */
  lemma ReadsPast(p: Bytes, o: nat, limit: nat, w: Bytes, q: nat)
    requires WireAt(w, q) && w[q] != 0 && Reads(p, o, limit, LabelsAt(w, q)) && p[o] <= MAX_LABEL
    ensures p[o] == w[q] && Reads(p, Next(p, o), limit, LabelsAt(w, Next(w, q)))
  {
    var d, n := DecodeBelow(p, o, limit).value, LabelsAt(w, q);
    assert |n| > 0 && SameLabel(d[0], n[0]);
    var d1, n1 := DecodeBelow(p, Next(p, o), limit).value, LabelsAt(w, Next(w, q));
    assert d == [d[0]] + d1 && n == [n[0]] + n1;
    forall i | 0 <= i < |n1| ensures SameLabel(d1[i], n1[i]) {
      assert d1[i] == d[i + 1] && n1[i] == n[i + 1];
    }
  }

  /** A name stored as literal labels up to `pos` reads as meant only if what follows reads as the rest. */
  lemma {:induction false} RestReads(r: Bytes, at: nat, w: Bytes, q: nat, pos: nat)
    requires WireAt(w, q) && Boundary(w, q, pos) && WireAt(w, pos) && at + pos <= |r| && r[at..at + pos] == w[..pos]
    requires Reads(r, at + q, at, LabelsAt(w, q))
    ensures Reads(r, at + pos, at, LabelsAt(w, pos))
    decreases |w| - q
  {
    if q != pos {
      BoundaryWire(w, Next(w, q), pos);
      assert r[at + q] == r[at..at + pos][q] == w[q];
      ReadsPast(r, at + q, at, w, q);
      RestReads(r, at, w, Next(w, q), pos);
    }
  }

  /** The place that the pointer to a match beyond reach leads to instead reads as the rest of the name. */
  ghost predicate ByChance(r: Bytes, offset: nat, w: Bytes, pos: nat)
    requires WireAt(w, pos)
  {
    var t := offset % POINTER_SPAN;
    HEADER <= t && StartsLabel(r, t) && Reads(r, t, t, LabelsAt(w, pos))
  }

  /** A stored name reads as meant though its match is beyond reach. */
  ghost predicate SavedByChance(ts: seq<Target>, w: Bytes, r: Bytes)
    requires IsWire(w) && TargetsLegal(ts)
  {
    !Reachable(ts, w) && WireAt(w, BestMatch(ts, w).pos) &&
      ByChance(r, BestMatch(ts, w).offset, w, BestMatch(ts, w).pos)
  }

  /**
    Beyond reach the pointer leads elsewhere, and the name reads as meant exactly if by chance the same
    labels are there.
   */
  lemma UnreachableReads(p: Bytes, ts: seq<Target>, w: Bytes)
    requires Sound(p, ts) && IsWire(w) && !Reachable(ts, w)
    ensures BestMatch(ts, w).offset % POINTER_SPAN != BestMatch(ts, w).offset
    ensures Reads(p + StoredBytes(ts, w), |p|, |p|, LabelsAt(w, 0)) <==> SavedByChance(ts, w, p + StoredBytes(ts, w))
  {
    SearchFinds(ts, 0, w, NO_MATCH);
    var m := BestMatch(ts, w);
    var k: nat, q: nat :| k < |ts| && MatchesIn(m, w, ts[k], q);
    StoreFound(p, ts, w, m, k, q);
    BoundaryWire(w, 0, m.pos);
    var r := p + StoredBytes(ts, w);
    StoredPart(p, w, m.pos, Pointer(m.offset), r);
    PointerRoundTrip(m.offset);
    PointerElsewhere(p, w[..m.pos], Pointer(m.offset), m.offset % POINTER_SPAN, LabelsAt(w, m.pos), r);
    ReadsIffRest(r, |p|, w, m.pos);
  }

  lemma ReadsIffRest(r: Bytes, at: nat, w: Bytes, pos: nat)
    requires HEADER <= at && IsWire(w) && w[0] != 0 && Boundary(w, 0, pos) && WireAt(w, pos) && at + pos <= |r|
    requires r[at..at + pos] == w[..pos] && SameLabel(r[at..at + pos], w[..pos])
    ensures Reads(r, at, at, LabelsAt(w, 0)) <==> Reads(r, at + pos, at, LabelsAt(w, pos))
  {
    if Reads(r, at, at, LabelsAt(w, 0)) {
      RestReads(r, at, w, 0, pos);
    }
    if Reads(r, at + pos, at, LabelsAt(w, pos)) {
      StoredReads(r, at, w, pos);
    }
  }

  /** What a pointer at the end of the message reads as. */
  lemma PointerElsewhere(p: Bytes, lit: Bytes, ptr: Bytes, t: nat, n: Name, r: Bytes)
    requires |ptr| == 2 && ptr[0] >= 0xC0 && PointerValue(ptr[0], ptr[1]) == t < |p| && r == p + (lit + ptr)
    ensures Reads(r, |p| + |lit|, |p|, n) <==> HEADER <= t && StartsLabel(r, t) && Reads(r, t, t, n)
  {
    var o := |p| + |lit|;
    assert r[o] == ptr[0] && r[o + 1] == ptr[1];
  }
}
