/**
  Resource records in a message (section 4.1.3 of RFC 1035): a reference reader that
  steps over them, used to say that the counts in the header are the counts of what
  is there.
 */
module Sections {
  import opened Names
  import opened Decoder
  import opened Compression
  import opened Message

  /** The offset after the name at `o`. */
  function SkipName(p: Bytes, o: nat): Option<nat>
    decreases |p| - o
  {
    if o >= |p| then None
    else if p[o] == 0 then Some(o + 1)
    else if p[o] <= MAX_LABEL then SkipName(p, Next(p, o))
    else if p[o] >= 0xC0 && o + 1 < |p| then Some(o + 2)
    else None
  }

  /** The offset after the record at `o`: owner, type, class, TTL, data length, data. */
  function SkipRecord(p: Bytes, o: nat): Option<nat> {
    match SkipName(p, o)
    case None => None
    case Some(n) =>
      if n + 10 > |p| then None
      else
        var end := n + 10 + U16Value(p[n + 8], p[n + 9]);
        if end <= |p| then Some(end) else None
  }

  function SkipRecords(p: Bytes, o: nat, count: nat): Option<nat>
    decreases count
  {
    if count == 0 then Some(o)
    else
      match SkipRecord(p, o)
      case None => None
      case Some(n) => SkipRecords(p, n, count - 1)
  }

  /** Exactly `count` records occupy `p` from `o` to its end. */
  ghost predicate Holds(p: Bytes, o: nat, count: nat) {
    SkipRecords(p, o, count) == Some(|p|)
  }

  function U16(n: nat): Bytes {
    [n % 0x10000 / 0x100, n % 0x100]
  }

  function U16Value(hi: Byte, lo: Byte): nat {
    (hi as int) * 0x100 + lo
  }

  lemma U16RoundTrip(n: nat)
    requires n < 0x10000
    ensures U16Value(U16(n)[0], U16(n)[1]) == n
  {
  }

  // ---- Stepping is stable -------------------------------------------------------------

  lemma {:induction false} SkipNameExtend(p: Bytes, e: Bytes, o: nat)
    requires SkipName(p, o).Some?
    ensures SkipName(p + e, o) == SkipName(p, o) && SkipName(p, o).value <= |p|
    decreases |p| - o
  {
    assert (p + e)[o] == p[o];
    if 0 < p[o] <= MAX_LABEL {
      SkipNameExtend(p, e, Next(p, o));
    }
  }

  /** Only the bytes from the name on matter. */
  lemma {:induction false} SkipNameSuffix(p: Bytes, q: Bytes, o: nat)
    requires o <= |p| == |q| && p[o..] == q[o..]
    ensures SkipName(p, o) == SkipName(q, o)
    decreases |p| - o
  {
    if o < |p| {
      assert p[o] == p[o..][0] == q[o..][0] == q[o];
      if 0 < p[o] <= MAX_LABEL && Next(p, o) <= |p| {
        SuffixOf(p, o, q, o, Next(p, o));
        SkipNameSuffix(p, q, Next(p, o));
      }
    }
  }

  lemma SkipRecordExtend(p: Bytes, e: Bytes, o: nat)
    requires SkipRecord(p, o).Some?
    ensures SkipRecord(p + e, o) == SkipRecord(p, o) && o < SkipRecord(p, o).value <= |p|
  {
    SkipNameExtend(p, e, o);
    SkipNameForward(p, o);
  }

  lemma {:induction false} SkipNameForward(p: Bytes, o: nat)
    requires SkipName(p, o).Some?
    ensures SkipName(p, o).value > o
    decreases |p| - o
  {
    if 0 < p[o] <= MAX_LABEL {
      SkipNameForward(p, Next(p, o));
    }
  }

  lemma {:induction false} SkipRecordsExtend(p: Bytes, e: Bytes, o: nat, count: nat)
    requires SkipRecords(p, o, count).Some? && o <= |p|
    ensures SkipRecords(p + e, o, count) == SkipRecords(p, o, count) && SkipRecords(p, o, count).value <= |p|
    decreases count
  {
    if count != 0 {
      SkipRecordExtend(p, e, o);
      SkipRecordsExtend(p, e, SkipRecord(p, o).value, count - 1);
    }
  }

  lemma {:induction false} SkipRecordsAdd(p: Bytes, o: nat, m: nat, n: nat)
    requires SkipRecords(p, o, m).Some?
    ensures SkipRecords(p, o, m + n) == SkipRecords(p, SkipRecords(p, o, m).value, n)
    decreases m
  {
    if m != 0 {
      SkipRecordsAdd(p, SkipRecord(p, o).value, m - 1, n);
    }
  }

  // ---- Stored names are whole names -----------------------------------------------------

  lemma {:induction false} SkipLiteral(p: Bytes, at: nat, w: Bytes, q: nat, cut: nat)
    requires WireAt(w, q) && Boundary(w, q, cut) && WireAt(w, cut)
    requires at + cut <= |p| && p[at..at + cut] == w[..cut]
    ensures SkipName(p, at + q) == SkipName(p, at + cut)
    decreases |w| - q
  {
    if q != cut {
      BoundaryWire(w, Next(w, q), cut);
      assert p[at + q] == p[at..at + cut][q] == w[q];
      SkipLiteral(p, at, w, Next(w, q), cut);
    }
  }

  lemma SkipWhole(p: Bytes, w: Bytes)
    requires IsWire(w)
    ensures SkipName(p + w, |p|) == Some(|p| + |w|)
  {
    var end := |w| - 1;
    EndByte(w, 0);
    assert (p + w)[|p|..|p| + end] == w[..end] && (p + w)[|p| + end] == 0;
    SkipWholeAt(p + w, |p|, w, end);
  }

  lemma SkipWholeAt(r: Bytes, at: nat, w: Bytes, end: nat)
    requires IsWire(w) && end == |w| - 1 && at + end < |r| && r[at..at + end] == w[..end] && r[at + end] == 0
    ensures SkipName(r, at) == Some(at + end + 1)
  {
    EndIsBoundary(w, 0);
    BoundaryWire(w, 0, end);
    SkipLiteral(r, at, w, 0, end);
  }

  lemma SkipStored(p: Bytes, ts: seq<Target>, w: Bytes)
    requires IsWire(w) && TargetsLegal(ts)
    ensures SkipName(p + StoredBytes(ts, w), |p|) == Some(|p + StoredBytes(ts, w)|)
    ensures |StoredBytes(ts, w)| <= |w|
  {
    if w[0] == 0 {
      SkipWhole(p, [0]);
    } else {
      SearchFinds(ts, 0, w, NO_MATCH);
      var m := BestMatch(ts, w);
      if m == NO_MATCH {
        SkipWhole(p, w);
      } else {
        var k: nat, q: nat :| k < |ts| && MatchesIn(m, w, ts[k], q);
        BoundaryWire(w, 0, m.pos);
        LiteralThenPointer(p, w, m.pos, Pointer(m.offset));
        SkipToPointer(p + StoredBytes(ts, w), |p|, w, m.pos);
      }
    }
  }

  lemma LiteralThenPointer(p: Bytes, w: Bytes, pos: nat, ptr: Bytes)
    requires pos <= |w| && |ptr| == 2
    ensures var r := p + (w[..pos] + ptr);
            |r| == |p| + pos + 2 && r[|p|..|p| + pos] == w[..pos] && r[|p| + pos] == ptr[0]
  {
    var e := w[..pos] + ptr;
    assert (p + e)[|p|..|p| + pos] == e[..pos] == w[..pos];
    assert (p + e)[|p| + pos] == e[pos] == ptr[0];
  }

  lemma SkipToPointer(p: Bytes, at: nat, w: Bytes, pos: nat)
    requires WireAt(w, 0) && Boundary(w, 0, pos) && WireAt(w, pos)
    requires at + pos + 2 == |p| && p[at..at + pos] == w[..pos] && p[at + pos] >= 0xC0
    ensures SkipName(p, at) == Some(at + pos + 2)
  {
    SkipLiteral(p, at, w, 0, pos);
  }

  lemma SkipRepeated(p: Bytes, q: Bytes, at: nat)
    requires Repeatable(p, at)
    ensures SkipName(q + RepeatBytes(p, at), |q|) == Some(|q + RepeatBytes(p, at)|)
  {
    var e := RepeatBytes(p, at);
    assert (q + e)[|q|] == e[0];
    if 0 < p[at] <= MAX_LABEL { PointerRoundTrip(at); }
  }

  /** An owner name, the fixed fields and data of the stated length make one record. */
  lemma OneRecord(p: Bytes, owner: Bytes, fixed: Bytes, data: Bytes)
    requires SkipName(p + owner, |p|) == Some(|p + owner|) && |fixed| == 8 && |data| < 0x10000
    ensures SkipRecord(p + owner + fixed + U16(|data|) + data, |p|) == Some(|p + owner + fixed + U16(|data|) + data|)
  {
    var n := |p + owner|;
    var r := p + owner + fixed + U16(|data|) + data;
    SkipNameExtend(p + owner, fixed + U16(|data|) + data, |p|);
    assert (p + owner) + (fixed + U16(|data|) + data) == r;
    assert r[n + 8] == U16(|data|)[0] && r[n + 9] == U16(|data|)[1];
    U16RoundTrip(|data|);
  }

  lemma HoldsOneMore(p: Bytes, e: Bytes, o: nat, count: nat)
    requires Holds(p, o, count) && o <= |p| && SkipRecord(p + e, |p|) == Some(|p + e|)
    ensures Holds(p + e, o, count + 1)
  {
    SkipRecordsExtend(p, e, o, count);
    SkipRecordsAdd(p + e, o, count, 1);
    assert SkipRecords(p + e, |p + e|, 0) == Some(|p + e|);
  }
}
