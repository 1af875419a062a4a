/**
  Domain names in wire form (section 3.1 of RFC 1035): a run of labels, each a
  length byte in 1..63 followed by that many bytes, closed by a zero byte.  The
  server keeps a name as a "dname": one byte with the length of the wire form,
  then the wire form itself.  Positions inside a wire form are byte offsets, as
  the server's cursors are.
 */
module Names {

  datatype Option<+T> = None | Some(value: T)

  type Byte = b: int | 0 <= b < 0x100
  type Bytes = seq<Byte>
  type Label = Bytes
  type Name = seq<Label>

  const MAX_LABEL := 63
  const MAX_WIRE := 255

  /** ASCII lower-casing; names are compared up to it (section 2.3.3 of RFC 1035). */
  function Lc(b: Byte): Byte {
    if 0x41 <= b <= 0x5A then b + 0x20 else b
  }

  ghost predicate SameLabel(a: Label, b: Label) {
    |a| == |b| && forall i :: 0 <= i < |a| ==> Lc(a[i]) == Lc(b[i])
  }

  ghost predicate SameName(a: Name, b: Name) {
    |a| == |b| && forall i :: 0 <= i < |a| ==> SameLabel(a[i], b[i])
  }

  /** A wire-form name occupies `w` from `p` to its end. */
  predicate WireAt(w: Bytes, p: nat)
    decreases |w| - p
  {
    p < |w| && if w[p] == 0 then p == |w| - 1 else w[p] <= MAX_LABEL && WireAt(w, p + 1 + w[p])
  }

  predicate IsWire(w: Bytes) {
    |w| <= MAX_WIRE && WireAt(w, 0)
  }

  predicate IsDname(d: Bytes) {
    |d| > 0 && d[0] == |d| - 1 && IsWire(d[1..])
  }

  /** The position of the label after the one at `p`. */
  function Next(w: Bytes, p: nat): nat
    requires p < |w|
  {
    p + 1 + w[p]
  }

  /** The labels from position `p` on. */
  function LabelsAt(w: Bytes, p: nat): Name
    requires WireAt(w, p)
    decreases |w| - p
  {
    if w[p] == 0 then [] else
      assert WireAt(w, Next(w, p));
      [w[p + 1..Next(w, p)]] + LabelsAt(w, Next(w, p))
  }

  /** `p` is reached from `a` by stepping over whole labels. */
  ghost predicate Boundary(w: Bytes, a: nat, p: nat)
    requires WireAt(w, a)
    decreases |w| - a
  {
    a == p || (a < p && w[a] != 0 && Boundary(w, Next(w, a), p))
  }

  lemma {:induction false} BoundaryWire(w: Bytes, a: nat, p: nat)
    requires WireAt(w, a) && Boundary(w, a, p)
    ensures a <= p && WireAt(w, p)
    decreases |w| - a
  {
    if a != p {
      BoundaryWire(w, Next(w, a), p);
    }
  }

  lemma {:induction false} BoundaryTrans(w: Bytes, a: nat, p: nat, q: nat)
    requires WireAt(w, a) && Boundary(w, a, p) && WireAt(w, p) && Boundary(w, p, q)
    ensures Boundary(w, a, q)
    decreases |w| - a
  {
    BoundaryWire(w, p, q);
    if a != p {
      BoundaryTrans(w, Next(w, a), p, q);
    }
  }

  /** Two boundaries are ordered: the later one is a boundary of the suffix at the earlier one. */
  lemma {:induction false} BoundaryOrder(w: Bytes, a: nat, p: nat, q: nat)
    requires WireAt(w, a) && Boundary(w, a, p) && Boundary(w, a, q) && p <= q
    ensures WireAt(w, p) && Boundary(w, p, q)
    decreases |w| - a
  {
    if a != p {
      BoundaryWire(w, Next(w, a), p);
      BoundaryOrder(w, Next(w, a), p, q);
    }
  }

  /** The next boundary after `p` is at least one whole label further. */
  lemma {:induction false} BoundaryStep(w: Bytes, a: nat, p: nat, q: nat)
    requires WireAt(w, a) && Boundary(w, a, p) && Boundary(w, a, q) && p < q
    ensures WireAt(w, p) && w[p] != 0 && Next(w, p) <= q && Boundary(w, Next(w, p), q)
  {
    BoundaryOrder(w, a, p, q);
    BoundaryWire(w, Next(w, p), q);
  }

  /** A name ends with its only zero length byte. */
  lemma {:induction false} EndByte(w: Bytes, p: nat)
    requires WireAt(w, p)
    ensures w[|w| - 1] == 0
    ensures w[p] == 0 <==> p == |w| - 1
    decreases |w| - p
  {
    if w[p] != 0 {
      EndByte(w, Next(w, p));
    }
  }

  lemma {:induction false} EndIsBoundary(w: Bytes, a: nat)
    requires WireAt(w, a)
    ensures Boundary(w, a, |w| - 1)
    decreases |w| - a
  {
    if w[a] != 0 {
      EndIsBoundary(w, Next(w, a));
    }
  }

  /** Names with equal suffix bytes have corresponding boundaries. */
  lemma {:induction false} BoundaryShift(w: Bytes, p: nat, c: Bytes, q: nat, r: nat)
    requires WireAt(w, p) && WireAt(c, q) && w[p..] == c[q..]
    requires Boundary(w, p, r)
    ensures Boundary(c, q, q + (r - p))
    ensures p <= r && q + (r - p) <= |c| && w[r..] == c[q + (r - p)..]
    decreases |w| - p
  {
    BoundaryWire(w, p, r);
    SuffixOf(w, p, c, q, r);
    if p != r {
      assert w[p] == w[p..][0] == c[q..][0] == c[q];
      SuffixOf(w, p, c, q, Next(w, p));
      BoundaryShift(w, Next(w, p), c, Next(c, q), r);
    }
  }

  lemma SuffixOf(w: Bytes, p: nat, c: Bytes, q: nat, r: nat)
    requires p <= r <= |w| && q <= |c| && w[p..] == c[q..]
    ensures q + (r - p) <= |c| && w[r..] == c[q + (r - p)..]
  {
    assert |w[p..]| == |c[q..]|;
    assert w[r..] == w[p..][r - p..];
    assert c[q + (r - p)..] == c[q..][r - p..];
  }

  lemma SuffixSlice(s: Bytes, a: nat, i: nat, j: nat)
    requires a <= |s| && i <= j <= |s| - a
    ensures s[a..][i..j] == s[a + i..a + j]
  {
    var x, y := s[a..][i..j], s[a + i..a + j];
    forall k | 0 <= k < |x| ensures x[k] == y[k] {
      assert x[k] == s[a..][i + k] == s[a + (i + k)] == y[k];
    }
    assert x == y;
  }

  /** The labels at a position depend only on the bytes from that position on. */
  lemma {:induction false} LabelsShift(w: Bytes, p: nat, c: Bytes, q: nat)
    requires WireAt(w, p) && WireAt(c, q) && w[p..] == c[q..]
    ensures LabelsAt(w, p) == LabelsAt(c, q)
    decreases |w| - p
  {
    FirstBytes(w, p, c, q);
    if w[p] != 0 {
      LabelsStep(w, p, w[p]);
      LabelsStep(c, q, w[p]);
      FirstLabels(w, p, c, q, w[p]);
      LabelsShift(w, p + 1 + w[p], c, q + 1 + w[p]);
    }
  }

  lemma LabelsStep(w: Bytes, p: nat, n: nat)
    requires WireAt(w, p) && w[p] == n != 0
    ensures p + 1 + n <= |w| && WireAt(w, p + 1 + n)
    ensures LabelsAt(w, p) == [w[p + 1..p + 1 + n]] + LabelsAt(w, p + 1 + n)
  {
  }

  lemma FirstBytes(w: Bytes, p: nat, c: Bytes, q: nat)
    requires p < |w| && q < |c| && w[p..] == c[q..]
    ensures w[p] == c[q]
  {
    assert w[p] == w[p..][0] == c[q..][0] == c[q];
  }

  lemma FirstLabels(w: Bytes, p: nat, c: Bytes, q: nat, n: nat)
    requires p + 1 + n <= |w| && q + 1 + n <= |c| && w[p..] == c[q..]
    ensures w[p + 1..p + 1 + n] == c[q + 1..q + 1 + n] && w[p + 1 + n..] == c[q + 1 + n..]
  {
    SuffixOf(w, p, c, q, p + 1 + n);
    SuffixSlice(w, p, 1, 1 + n);
    SuffixSlice(c, q, 1, 1 + n);
  }

  lemma {:induction false} LabelsLegal(w: Bytes, p: nat)
    requires WireAt(w, p)
    ensures forall i :: 0 <= i < |LabelsAt(w, p)| ==> 1 <= |LabelsAt(w, p)[i]| <= MAX_LABEL
    decreases |w| - p
  {
    if w[p] != 0 {
      LabelsLegal(w, Next(w, p));
      var rest := LabelsAt(w, Next(w, p));
      var all := LabelsAt(w, p);
      forall i | 0 <= i < |all| ensures 1 <= |all[i]| <= MAX_LABEL {
        if i > 0 {
          assert all[i] == rest[i - 1];
        }
      }
    }
  }

  /** The labels of a suffix are a suffix of the labels. */
  lemma {:induction false} LabelsTail(w: Bytes, a: nat, p: nat)
    requires WireAt(w, a) && Boundary(w, a, p) && WireAt(w, p)
    ensures |LabelsAt(w, p)| <= |LabelsAt(w, a)|
    ensures LabelsAt(w, p) == LabelsAt(w, a)[|LabelsAt(w, a)| - |LabelsAt(w, p)|..]
    decreases |w| - a
  {
    if a != p {
      LabelsTail(w, Next(w, a), p);
    }
  }

  /**
    The stack of label positions that both tree searches and tree insertion build before
    descending: the `i`-th entry is where the labels from the `i`-th on start.
   */
  method LabelStack(w: Bytes) returns (stack: seq<nat>)
    requires WireAt(w, 0)
    ensures IsStack(w, stack)
  {
    var name := LabelsAt(w, 0);
    stack := [];
    var p := 0;
    while w[p] != 0
      invariant WireAt(w, p) && Boundary(w, 0, p)
      invariant |stack| <= |name| && LabelsAt(w, p) == name[|stack|..]
      invariant forall i {:trigger StackEntry(w, stack[i], i)} :: 0 <= i < |stack| ==> StackEntry(w, stack[i], i)
      invariant StackLinked(w, stack, p)
      decreases |w| - p
    {
      assert StackEntry(w, p, |stack|);
      var n := Next(w, p);
      BoundaryTrans(w, 0, p, n);
      assert LabelsAt(w, n) == LabelsAt(w, p)[1..] == name[|stack| + 1..];
      StackLinkedPush(w, stack, p);
      stack := stack + [p];
      p := n;
    }
  }

  ghost predicate IsStack(w: Bytes, stack: seq<nat>)
    requires WireAt(w, 0)
  {
    && |stack| == |LabelsAt(w, 0)|
    && (forall i {:trigger StackEntry(w, stack[i], i)} :: 0 <= i < |stack| ==> StackEntry(w, stack[i], i))
    && StackLinked(w, stack, |w| - 1)
  }

  /** Where the labels from the `i`-th on start, the ones on the stack being followed by `end`. */
  function StackPos(stack: seq<nat>, i: nat, end: nat): nat
    requires i <= |stack|
  {
    if i < |stack| then stack[i] else end
  }

  /** The stack runs from the start of the name to `end` without gaps. */
  ghost predicate StackLinked(w: Bytes, stack: seq<nat>, end: nat) {
    StackPos(stack, 0, end) == 0 &&
    forall i :: 0 <= i < |stack| ==> stack[i] < |w| && StackPos(stack, i + 1, end) == Next(w, stack[i])
  }

  lemma StackLinkedPush(w: Bytes, stack: seq<nat>, p: nat)
    requires StackLinked(w, stack, p) && p < |w|
    ensures StackLinked(w, stack + [p], Next(w, p))
  {
  }

  ghost predicate StackEntry(w: Bytes, p: nat, i: nat)
    requires WireAt(w, 0)
  {
    && WireAt(w, p) && Boundary(w, 0, p) && w[p] != 0 && Next(w, p) < |w| && i < |LabelsAt(w, 0)|
    && LabelsAt(w, p) == LabelsAt(w, 0)[i..]
    && w[p + 1..Next(w, p)] == LabelsAt(w, 0)[i]
  }
}
