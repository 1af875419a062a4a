/**
  Resource records as the encoder builds them: an owner name repeated from an earlier
  place, eight fixed bytes (type, class, TTL), the data length, and data made of raw
  bytes and names.  All record types of the server are of this shape.
 */
module Records {
  import opened Names
  import opened Decoder
  import opened Compression
  import opened Message
  import opened Sections

  /** A piece of record data; names are in wire form. */
  datatype Part =
    | Raw(bytes: Bytes)
    | Compressed(name: Bytes)
    | Literal(name: Bytes)

  ghost predicate PartLegal(part: Part) {
    match part
    case Raw(_) => true
    case Compressed(w) => IsWire(w)
    case Literal(w) => IsWire(w)
  }

  ghost predicate PartsLegal(parts: seq<Part>) {
    forall i :: 0 <= i < |parts| ==> PartLegal(parts[i])
  }

  /** The most bytes a piece can take. */
  function PartSize(part: Part): nat {
    match part
    case Raw(b) => |b|
    case Compressed(w) => |w|
    case Literal(w) => |w|
  }

  function PartsSize(parts: seq<Part>): nat {
    if parts == [] then 0 else PartSize(parts[0]) + PartsSize(parts[1..])
  }

  ghost function PartBytes(ts: seq<Target>, part: Part): Bytes
    requires TargetsLegal(ts) && PartLegal(part)
  {
    match part
    case Raw(b) => b
    case Compressed(w) => StoredBytes(ts, w)
    case Literal(w) => w
  }

  ghost function PartTargets(ts: seq<Target>, at: nat, part: Part): seq<Target>
    requires TargetsLegal(ts) && PartLegal(part)
  {
    match part
    case Raw(_) => ts
    case Compressed(w) => TargetsAfter(ts, at, w)
    case Literal(w) => if w[0] == 0 then ts else Record(ts, at, w, WHOLE)
  }

  ghost function PartLog(ts: seq<Target>, at: nat, part: Part): seq<Written>
    requires TargetsLegal(ts) && PartLegal(part)
  {
    match part
    case Raw(_) => []
    case Compressed(w) => [Written(at, LabelsAt(w, 0), Reachable(ts, w))]
    case Literal(w) => [Written(at, LabelsAt(w, 0), true)]
  }

  /** The message after one piece; its bytes do not depend on the bytes before it. */
  ghost function PutPart(m: Msg, part: Part): Msg
    requires Legal(m) && PartLegal(part)
  {
    Msg(m.bytes + PartBytes(m.targets, part), PartTargets(m.targets, |m.bytes|, part),
      m.log + PartLog(m.targets, |m.bytes|, part))
  }

  lemma PutPartIsStep(m: Msg, part: Part)
    requires Legal(m) && PartLegal(part)
    ensures Legal(PutPart(m, part))
    ensures Inv(m) ==> Inv(PutPart(m, part))
    ensures |PartBytes(m.targets, part)| <= PartSize(part)
  {
    var op := match part
      case Raw(b) => Fixed(b)
      case Compressed(w) => StoreName(w)
      case Literal(w) => StoreWhole(w);
    assert PutPart(m, part) == Step(m, op) by {
      if part.Raw? { assert m.log + [] == m.log; }
    }
    StepLegal(m, op);
    if Inv(m) { StepInv(m, op); }
    if part.Compressed? { SkipStored(m.bytes, m.targets, part.name); }
  }

  lemma StepLegal(m: Msg, op: Op)
    requires Legal(m) && Allowed(m, op)
    ensures Legal(Step(m, op))
  {
    match op
    case Fixed(_) =>
    case StoreName(w) => StoreCovers(m.targets, |m.bytes|, w);
    case StoreWhole(w) => if w[0] != 0 { RecordCovers(m.targets, |m.bytes|, w, WHOLE); }
    case RepeatName(_) =>
  }

  ghost function PutParts(m: Msg, parts: seq<Part>): Msg
    requires Legal(m) && PartsLegal(parts)
    decreases |parts|
  {
    if parts == [] then m
    else
      PutPartIsStep(m, parts[0]);
      PutParts(PutPart(m, parts[0]), parts[1..])
  }

  /** Data after `m` and data after another message of the same length and targets are the same data. */
  ghost predicate SameGrowth(m: Msg, m': Msg, n: Msg, n': Msg) {
    && |m.bytes| == |n.bytes| && m.bytes <= m'.bytes && n.bytes <= n'.bytes && m.log <= m'.log && n.log <= n'.log
    && m'.bytes[|m.bytes|..] == n'.bytes[|n.bytes|..] && m'.targets == n'.targets
    && m'.log[|m.log|..] == n'.log[|n.log|..]
  }

  lemma {:induction false} PutPartsProperties(m: Msg, n: Msg, parts: seq<Part>)
    requires Legal(m) && Legal(n) && PartsLegal(parts) && |m.bytes| == |n.bytes| && m.targets == n.targets
    ensures Legal(PutParts(m, parts)) && (Inv(m) ==> Inv(PutParts(m, parts)))
    ensures SameGrowth(m, PutParts(m, parts), n, PutParts(n, parts))
    ensures |PutParts(m, parts).bytes| <= |m.bytes| + PartsSize(parts)
    decreases |parts|
  {
    if parts != [] {
      var m1, n1 := PutPart(m, parts[0]), PutPart(n, parts[0]);
      PutPartIsStep(m, parts[0]);
      PutPartIsStep(n, parts[0]);
      PutPartsProperties(m1, n1, parts[1..]);
      GrowthThrough(m, m1, PutParts(m1, parts[1..]), n, n1, PutParts(n1, parts[1..]));
    }
  }

  lemma GrowthThrough(m: Msg, m1: Msg, m2: Msg, n: Msg, n1: Msg, n2: Msg)
    requires SameGrowth(m, m1, n, n1) && SameGrowth(m1, m2, n1, n2)
    ensures SameGrowth(m, m2, n, n2)
  {
    TailThrough(m.bytes, m1.bytes, m2.bytes);
    TailThrough(n.bytes, n1.bytes, n2.bytes);
    TailThrough(m.log, m1.log, m2.log);
    TailThrough(n.log, n1.log, n2.log);
  }

  lemma TailThrough<T>(a: seq<T>, b: seq<T>, c: seq<T>)
    requires a <= b <= c
    ensures a <= c && c[|a|..] == b[|a|..] + c[|b|..]
  {
    assert c == b + c[|b|..] && b == a + b[|a|..];
  }

  // ---- Whole records --------------------------------------------------------------------

  /** A record to encode: where its owner name is, its fixed fields, and its data. */
  datatype Rr = Rr(owner: nat, fixed: Bytes, parts: seq<Part>)

  ghost predicate RrLegal(rr: Rr) {
    |rr.fixed| == 8 && PartsLegal(rr.parts) && PartsSize(rr.parts) < 0x10000
  }

  /** The message with the owner name, the fixed fields and two more bytes for the data length. */
  ghost function RecordHead(m: Msg, rr: Rr, len: Bytes): Msg
    requires Legal(m) && Repeatable(m.bytes, rr.owner) && |len| == 2
  {
    Step(Step(m, RepeatName(rr.owner)), Fixed(rr.fixed + len))
  }

  lemma RecordHeadOk(m: Msg, rr: Rr, len: Bytes)
    requires Legal(m) && Repeatable(m.bytes, rr.owner) && |len| == 2
    ensures Legal(RecordHead(m, rr, len)) && (Inv(m) ==> Inv(RecordHead(m, rr, len)))
    ensures RecordHead(m, rr, len).bytes == m.bytes + RepeatBytes(m.bytes, rr.owner) + rr.fixed + len
  {
    var m1 := Step(m, RepeatName(rr.owner));
    StepLegal(m, RepeatName(rr.owner));
    StepLegal(m1, Fixed(rr.fixed + len));
    if Inv(m) {
      StepInv(m, RepeatName(rr.owner));
      StepInv(m1, Fixed(rr.fixed + len));
    }
    assert m1.bytes + (rr.fixed + len) == m1.bytes + rr.fixed + len;
  }

  ghost function DataLen(m: Msg, rr: Rr): nat
    requires Legal(m) && RrLegal(rr) && Repeatable(m.bytes, rr.owner)
  {
    RecordHeadOk(m, rr, [0, 0]);
    var head := RecordHead(m, rr, [0, 0]);
    PutPartsProperties(head, head, rr.parts);
    |PutParts(head, rr.parts).bytes| - |head.bytes|
  }

  /** The message after a record. */
  ghost function PutRecord(m: Msg, rr: Rr): Msg
    requires Legal(m) && RrLegal(rr) && Repeatable(m.bytes, rr.owner)
  {
    RecordHeadOk(m, rr, U16(DataLen(m, rr)));
    PutParts(RecordHead(m, rr, U16(DataLen(m, rr))), rr.parts)
  }

  /** A record keeps every promise about the message, and is one record. */
  lemma PutRecordOk(m: Msg, rr: Rr)
    requires Legal(m) && RrLegal(rr) && Repeatable(m.bytes, rr.owner)
    ensures var r := PutRecord(m, rr);
            && Legal(r) && (Inv(m) ==> Inv(r))
            && m.bytes <= r.bytes && |r.bytes| <= |m.bytes| + 12 + PartsSize(rr.parts)
            && SkipRecord(r.bytes, |m.bytes|) == Some(|r.bytes|)
            && m.log <= r.log
  {
    var len := U16(DataLen(m, rr));
    var draft, head := RecordHead(m, rr, [0, 0]), RecordHead(m, rr, len);
    RecordHeadOk(m, rr, [0, 0]);
    RecordHeadOk(m, rr, len);
    PutPartsProperties(head, draft, rr.parts);
    var r := PutParts(head, rr.parts);
    var data := r.bytes[|head.bytes|..];
    var owner := RepeatBytes(m.bytes, rr.owner);
    assert r.bytes == m.bytes + owner + rr.fixed + len + data;
    SkipRepeated(m.bytes, m.bytes, rr.owner);
    OneRecord(m.bytes, owner, rr.fixed, data);
    assert m.bytes <= r.bytes;
  }

  // ---- Reading records back ---------------------------------------------------------------

  /** Where a piece of record data that starts at `o` ends. */
  ghost function PartEnd(p: Bytes, o: nat, part: Part): Option<nat> {
    match part
    case Raw(b) => if o + |b| <= |p| then Some(o + |b|) else None
    case Compressed(_) => SkipName(p, o)
    case Literal(_) => SkipName(p, o)
  }

  /** Raw bytes are there as they are, names up to letter case. */
  ghost predicate PartReads(p: Bytes, o: nat, part: Part)
    requires PartLegal(part)
  {
    match part
    case Raw(b) => o + |b| <= |p| && p[o..o + |b|] == b
    case Compressed(w) => o <= POINTER_SPAN ==> Denotes(p, o, LabelsAt(w, 0))
    case Literal(w) => Denotes(p, o, LabelsAt(w, 0))
  }

  /** The pieces are there one after the other, from `o` to `end`. */
  ghost predicate PartsRead(p: Bytes, o: nat, parts: seq<Part>, end: nat)
    requires PartsLegal(parts)
    decreases |parts|
  {
    if parts == [] then o == end
    else PartReads(p, o, parts[0]) && PartEnd(p, o, parts[0]).Some? &&
         PartsRead(p, PartEnd(p, o, parts[0]).value, parts[1..], end)
  }

  /** A record of the message: where it starts, where its owner name ends, where it ends, and what it was to be. */
  datatype Item = Item(at: nat, body: nat, end: nat, rr: Rr)

  /** A reader finds the record there: its owner's name, its fixed fields, its data length and its data. */
  ghost predicate ItemReads(p: Bytes, it: Item) {
    RrLegal(it.rr) && OwnerThere(p, it) && FieldsThere(p, it) && PartsRead(p, it.body + 10, it.rr.parts, it.end)
  }

  ghost predicate OwnerThere(p: Bytes, it: Item) {
    && SkipName(p, it.at) == Some(it.body) && HEADER <= it.at && HEADER <= it.rr.owner
    && Decode(p, it.at).Some? && Decode(p, it.at) == Decode(p, it.rr.owner)
  }

  ghost predicate FieldsThere(p: Bytes, it: Item) {
    && it.at < it.body && it.body + 10 <= it.end <= |p| && p[it.body..it.body + 8] == it.rr.fixed
    && U16Value(p[it.body + 8], p[it.body + 9]) == it.end - (it.body + 10)
  }

  lemma PartExtend(p: Bytes, e: Bytes, o: nat, part: Part)
    requires PartLegal(part) && PartReads(p, o, part) && PartEnd(p, o, part).Some?
    ensures PartReads(p + e, o, part) && PartEnd(p + e, o, part) == PartEnd(p, o, part)
  {
    if part.Raw? {
      assert (p + e)[o..o + |part.bytes|] == p[o..o + |part.bytes|];
    } else {
      SkipNameExtend(p, e, o);
      if Denotes(p, o, LabelsAt(part.name, 0)) { ReadsExtend(p, e, o, o, o, LabelsAt(part.name, 0)); }
    }
  }

  lemma {:induction false} PartsExtend(p: Bytes, e: Bytes, o: nat, parts: seq<Part>, end: nat)
    requires PartsLegal(parts) && PartsRead(p, o, parts, end)
    ensures PartsRead(p + e, o, parts, end)
    decreases |parts|
  {
    if parts != [] {
      PartExtend(p, e, o, parts[0]);
      PartsExtend(p, e, PartEnd(p, o, parts[0]).value, parts[1..], end);
    }
  }

  lemma FieldsExtend(p: Bytes, e: Bytes, it: Item)
    requires FieldsThere(p, it)
    ensures FieldsThere(p + e, it)
  {
    assert (p + e)[it.body..it.body + 8] == p[it.body..it.body + 8];
  }

  /** A record stays readable as the message grows. */
  lemma ItemExtend(p: Bytes, e: Bytes, it: Item)
    requires ItemReads(p, it)
    ensures ItemReads(p + e, it)
  {
    SkipNameExtend(p, e, it.at);
    FieldsExtend(p, e, it);
    PartsExtend(p, e, it.body + 10, it.rr.parts, it.end);
    DecodeExtend(p, e, it.at, it.at, it.at);
    DecodeExtend(p, e, it.rr.owner, it.rr.owner, it.rr.owner);
  }

  /** A piece just put is read back. */
  lemma PutPartReads(m: Msg, part: Part)
    requires Inv(m) && PartLegal(part)
    ensures PartReads(PutPart(m, part).bytes, |m.bytes|, part)
    ensures PartEnd(PutPart(m, part).bytes, |m.bytes|, part) == Some(|PutPart(m, part).bytes|)
  {
    PutPartIsStep(m, part);
    var m1 := PutPart(m, part);
    match part
    case Raw(b) => assert m1.bytes[|m.bytes|..|m.bytes| + |b|] == b;
    case Compressed(w) =>
      SkipStored(m.bytes, m.targets, w);
      assert DenotesAt(m1.bytes, m1.log[|m.log|]);
    case Literal(w) =>
      SkipWhole(m.bytes, w);
      assert DenotesAt(m1.bytes, m1.log[|m.log|]);
  }

  lemma {:induction false} PutPartsRead(m: Msg, parts: seq<Part>)
    requires Inv(m) && PartsLegal(parts)
    ensures PartsRead(PutParts(m, parts).bytes, |m.bytes|, parts, |PutParts(m, parts).bytes|)
    decreases |parts|
  {
    if parts != [] {
      var m1 := PutPart(m, parts[0]);
      PutPartIsStep(m, parts[0]);
      PutPartReads(m, parts[0]);
      PutPartsRead(m1, parts[1..]);
      PutPartsProperties(m1, m1, parts[1..]);
      var r := PutParts(m1, parts[1..]);
      assert m1.bytes + r.bytes[|m1.bytes|..] == r.bytes;
      PartExtend(m1.bytes, r.bytes[|m1.bytes|..], |m.bytes|, parts[0]);
    }
  }

  /** Where a record put after `m` is. */
  ghost function ItemOf(m: Msg, rr: Rr): Item
    requires Legal(m) && RrLegal(rr) && Repeatable(m.bytes, rr.owner)
  {
    Item(|m.bytes|, |m.bytes| + |RepeatBytes(m.bytes, rr.owner)|, |PutRecord(m, rr).bytes|, rr)
  }

  /** A record just put is read back. */
  lemma PutRecordReads(m: Msg, rr: Rr)
    requires Inv(m) && RrLegal(rr) && Repeatable(m.bytes, rr.owner)
    ensures ItemReads(PutRecord(m, rr).bytes, ItemOf(m, rr))
  {
    var len := U16(DataLen(m, rr));
    var head := RecordHead(m, rr, len);
    RecordHeadOk(m, rr, len);
    var r := PutParts(head, rr.parts);
    RightLength(m, rr, head, r);
    PutPartsRead(head, rr.parts);
    BytesRead(m.bytes, rr, m.bytes + RepeatBytes(m.bytes, rr.owner), len, head.bytes, r.bytes, ItemOf(m, rr));
  }

  lemma BytesRead(p: Bytes, rr: Rr, q: Bytes, len: Bytes, h: Bytes, r: Bytes, it: Item)
    requires RrLegal(rr) && Repeatable(p, rr.owner) && HEADER <= |p| && q == p + RepeatBytes(p, rr.owner)
    requires h == q + rr.fixed + len && h <= r && |r| - |h| < 0x10000 && len == U16(|r| - |h|)
    requires it.at == |p| && it.body == |q| && it.end == |r| && it.rr == rr && PartsRead(r, |h|, rr.parts, |r|)
    ensures ItemReads(r, it)
  {
    TailSplit(h, r);
    OwnerPut(p, rr, q, h, r, it);
    FieldsPut(p, rr, q, len, h, r[|h|..], r, it);
  }

  /** The data is as long as the draft's, which the length was taken from. */
  lemma RightLength(m: Msg, rr: Rr, head: Msg, r: Msg)
    requires Legal(m) && RrLegal(rr) && Repeatable(m.bytes, rr.owner) && head == RecordHead(m, rr, U16(DataLen(m, rr)))
    requires Legal(head) && r == PutParts(head, rr.parts)
    ensures head.bytes <= r.bytes && |r.bytes| - |head.bytes| == DataLen(m, rr) <= PartsSize(rr.parts)
  {
    var draft := RecordHead(m, rr, [0, 0]);
    RecordHeadOk(m, rr, [0, 0]);
    RecordHeadOk(m, rr, U16(DataLen(m, rr)));
    PutPartsProperties(head, draft, rr.parts);
    assert |r.bytes[|head.bytes|..]| == |PutParts(draft, rr.parts).bytes[|draft.bytes|..]|;
  }

  lemma TailSplit<T>(a: seq<T>, b: seq<T>)
    requires a <= b
    ensures b == a + b[|a|..]
  {
  }

  lemma OwnerPut(p: Bytes, rr: Rr, q: Bytes, h: Bytes, r: Bytes, it: Item)
    requires Repeatable(p, rr.owner) && HEADER <= |p| && q == p + RepeatBytes(p, rr.owner) && q <= h <= r
    requires it.at == |p| && it.body == |q| && it.rr == rr
    ensures OwnerThere(r, it)
  {
    var rest := r[|q|..];
    assert r == q + rest;
    SkipRepeated(p, p, rr.owner);
    SkipNameExtend(q, rest, |p|);
    RepeatDecodes(p, [], rr.owner);
    assert p + [] == p;
    DecodeExtend(q, rest, |p|, |p|, |p|);
    RepeatableExtend(p, r, rr.owner);
  }

  lemma FieldsPut(p: Bytes, rr: Rr, q: Bytes, len: Bytes, h: Bytes, tail: Bytes, r: Bytes, it: Item)
    requires |rr.fixed| == 8 && |tail| < 0x10000 && len == U16(|tail|) && |p| < |q|
    requires h == q + rr.fixed + len && r == h + tail
    requires it.at == |p| && it.body == |q| && it.end == |r| && it.rr == rr
    ensures FieldsThere(r, it) && |h| == it.body + 10
  {
    var rest := rr.fixed + len + tail;
    assert r == q + rest;
    assert r[|q|..|q| + 8] == rest[..8] == rr.fixed;
    assert r[|q| + 8] == rest[8] && r[|q| + 9] == rest[9];
    U16RoundTrip(|tail|);
  }

  ghost predicate AllRead(p: Bytes, items: seq<Item>) {
    forall i {:trigger ItemReads(p, items[i])} :: 0 <= i < |items| ==> ItemReads(p, items[i])
  }

  /** Each record starts where the one before it ends. */
  ghost predicate Contiguous(o: nat, items: seq<Item>, end: nat) {
    if items == [] then o == end
    else items[|items| - 1].end == end && Contiguous(o, items[..|items| - 1], items[|items| - 1].at)
  }

  /** The message holds the records `items`, one after the other, from `o` to its end. */
  ghost predicate Listed(p: Bytes, o: nat, items: seq<Item>) {
    AllRead(p, items) && Contiguous(o, items, |p|)
  }

  lemma AllReadExtend(p: Bytes, e: Bytes, items: seq<Item>)
    requires AllRead(p, items)
    ensures AllRead(p + e, items)
  {
    forall i | 0 <= i < |items| ensures ItemReads(p + e, items[i]) {
      ItemExtend(p, e, items[i]);
    }
  }

  lemma AllReadAdd(p: Bytes, items: seq<Item>, it: Item)
    requires AllRead(p, items) && ItemReads(p, it)
    ensures AllRead(p, items + [it])
  {
    var all := items + [it];
    forall i | 0 <= i < |all| ensures ItemReads(p, all[i]) {
      if i < |items| { assert ItemReads(p, items[i]); }
    }
  }

  lemma ListedOneMore(p: Bytes, e: Bytes, o: nat, items: seq<Item>, it: Item)
    requires Listed(p, o, items) && it.at == |p| && it.end == |p + e| && ItemReads(p + e, it)
    ensures Listed(p + e, o, items + [it])
  {
    AllReadExtend(p, e, items);
    AllReadAdd(p + e, items, it);
    assert (items + [it])[..|items + [it]| - 1] == items;
  }

  lemma {:induction false} ListedSkips(p: Bytes, o: nat, items: seq<Item>, end: nat)
    requires AllRead(p, items) && Contiguous(o, items, end)
    ensures SkipRecords(p, o, |items|) == Some(end)
    decreases |items|
  {
    if items != [] {
      var n := |items| - 1;
      assert ItemReads(p, items[n]);
      assert AllRead(p, items[..n]);
      ListedSkips(p, o, items[..n], items[n].at);
      SkipRecordsAdd(p, o, n, 1);
      OneStep(p, items[n]);
    }
  }

  lemma OneStep(p: Bytes, it: Item)
    requires OwnerThere(p, it) && FieldsThere(p, it)
    ensures SkipRecords(p, it.at, 1) == Some(it.end)
  {
    assert SkipRecord(p, it.at) == Some(it.end);
    assert SkipRecords(p, it.end, 0) == Some(it.end);
  }

  /** What is read record by record can be stepped over, and nothing is left. */
  lemma ListedHolds(p: Bytes, o: nat, items: seq<Item>)
    requires Listed(p, o, items)
    ensures Sections.Holds(p, o, |items|)
  {
    ListedSkips(p, o, items, |p|);
  }
}
