/**
  A reference decoder for names in a message, following section 4.1.4 of RFC 1035.
  It is stricter than the standard asks: a pointer must lead to a place past the
  header, strictly before the run of labels it ends, and that place must start a
  label, so no pointer leads to another pointer and decoding cannot loop.
 */
module Decoder {
  import opened Names

  /** Length of the message header; no name is ever stored in it. */
  const HEADER := 12

  /** The 14-bit offset held by a pointer. */
  function PointerValue(hi: Byte, lo: Byte): (t: nat)
    requires hi >= 0xC0
  {
    (hi - 0xC0) * 0x100 + lo
  }

  predicate StartsLabel(p: Bytes, o: nat) {
    o < |p| && 1 <= p[o] <= MAX_LABEL
  }

  /** The name at `o`; pointers may lead only below `limit`. */
  function DecodeBelow(p: Bytes, o: nat, limit: nat): Option<Name>
    decreases limit, |p| - o
  {
    if o >= |p| then None
    else if p[o] == 0 then Some([])
    else if p[o] <= MAX_LABEL then
      if o + 1 + p[o] > |p| then None
      else
        match DecodeBelow(p, Next(p, o), limit)
        case None => None
        case Some(rest) => Some([p[o + 1..Next(p, o)]] + rest)
    else if p[o] >= 0xC0 && o + 1 < |p| then
      var t := PointerValue(p[o], p[o + 1]);
      if HEADER <= t < limit && StartsLabel(p, t) then DecodeBelow(p, t, t) else None
    else None
  }

  function Decode(p: Bytes, o: nat): Option<Name> {
    DecodeBelow(p, o, o)
  }

  /** Reading at `o`, with pointers confined below `limit`, gives `n` up to letter case. */
  ghost predicate Reads(p: Bytes, o: nat, limit: nat, n: Name) {
    var d := DecodeBelow(p, o, limit);
    d.Some? && SameName(d.value, n)
  }

  /** The name at `o` decodes, strictly, to `n` up to letter case. */
  ghost predicate Denotes(p: Bytes, o: nat, n: Name) {
    Reads(p, o, o, n)
  }

  /** Appending to the message, or allowing later pointer targets, changes no name. */
  lemma {:induction false} DecodeExtend(p: Bytes, e: Bytes, o: nat, limit: nat, limit': nat)
    requires DecodeBelow(p, o, limit).Some? && limit <= limit'
    ensures DecodeBelow(p + e, o, limit') == DecodeBelow(p, o, limit)
    decreases limit, |p| - o
  {
    var p' := p + e;
    assert p'[o] == p[o];
    if p[o] > MAX_LABEL {
      assert p'[o + 1] == p[o + 1];
      var t := PointerValue(p[o], p[o + 1]);
      assert p'[t] == p[t];
      DecodeExtend(p, e, t, t, t);
    } else if p[o] != 0 {
      assert p'[o + 1..Next(p', o)] == p[o + 1..Next(p, o)];
      DecodeExtend(p, e, Next(p, o), limit, limit');
    }
  }

  lemma ReadsExtend(p: Bytes, e: Bytes, o: nat, limit: nat, limit': nat, n: Name)
    requires Reads(p, o, limit, n) && limit <= limit'
    ensures Reads(p + e, o, limit', n)
  {
    DecodeExtend(p, e, o, limit, limit');
  }

  /** A literal label in front of a name. */
  lemma ReadsLabel(p: Bytes, o: nat, limit: nat, l: Label, n: Name)
    requires 1 <= |l| <= MAX_LABEL && o + 1 + |l| <= |p| && p[o] == |l| && SameLabel(p[o + 1..o + 1 + |l|], l)
    requires Reads(p, o + 1 + |l|, limit, n)
    ensures Reads(p, o, limit, [l] + n)
  {
  }

  lemma ReadsRaise(p: Bytes, o: nat, limit: nat, limit': nat, n: Name)
    requires Reads(p, o, limit, n) && limit <= limit'
    ensures Reads(p, o, limit', n)
  {
    DecodeExtend(p, [], o, limit, limit');
    assert p + [] == p;
  }

  /** Names are read past the header only: rewriting the header changes none of them. */
  lemma {:induction false} HeaderIrrelevant(p: Bytes, p': Bytes, o: nat, limit: nat)
    requires HEADER <= o && HEADER <= |p| == |p'| && p[HEADER..] == p'[HEADER..]
    ensures DecodeBelow(p, o, limit) == DecodeBelow(p', o, limit)
    decreases limit, |p| - o
  {
    forall i | HEADER <= i < |p| ensures p[i] == p'[i] {
      assert p[i] == p[HEADER..][i - HEADER] && p'[i] == p'[HEADER..][i - HEADER];
    }
    if o < |p| && 0 < p[o] <= MAX_LABEL && Next(p, o) <= |p| {
      HeaderIrrelevant(p, p', Next(p, o), limit);
      assert p[o + 1..Next(p, o)] == p'[o + 1..Next(p, o)];
    } else if o + 1 < |p| && p[o] >= 0xC0 {
      var t := PointerValue(p[o], p[o + 1]);
      if HEADER <= t < limit && StartsLabel(p, t) {
        HeaderIrrelevant(p, p', t, t);
      }
    }
  }
}
