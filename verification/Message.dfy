/**
  Building a message: the sequence of appends a response is made of, and the main
  theorem about it.  A message starts as the header and the client's question, and
  grows at its end only.
 */
module Message {
  import opened Names
  import opened Decoder
  import opened Compression

  /** One append: fixed bytes, a name (compressed or whole), or an earlier name once more. */
  datatype Op =
    | Fixed(bytes: Bytes)
    | StoreName(name: Bytes)
    | StoreWhole(name: Bytes)
    | RepeatName(at: nat)

  /** A name, the offset it was stored at, and whether the pointer it ends with, if any, could reach its match. */
  datatype Written = Written(at: nat, name: Name, reach: bool)

  datatype Msg = Msg(bytes: Bytes, targets: seq<Target>, log: seq<Written>)

  /** The bytes that repeat the name at `at`: root stays root, a pointer is copied, a label is pointed at. */
  function RepeatBytes(p: Bytes, at: nat): Bytes
    requires at < |p| && (p[at] >= 0x40 ==> at + 1 < |p|)
  {
    if p[at] == 0 then [0]
    else if p[at] >= 0x40 then [p[at], p[at + 1]]
    else Pointer(at)
  }

  /** A place whose name may be repeated: it decodes, and a pointer can reach it if one is needed. */
  ghost predicate Repeatable(p: Bytes, at: nat) {
    HEADER <= at && Decode(p, at).Some? && (StartsLabel(p, at) ==> at < POINTER_SPAN)
  }

  ghost predicate Allowed(m: Msg, op: Op) {
    match op
    case Fixed(_) => true
    case StoreName(w) => IsWire(w)
    case StoreWhole(w) => IsWire(w)
    case RepeatName(at) => Repeatable(m.bytes, at)
  }

  ghost predicate Legal(m: Msg) {
    HEADER <= |m.bytes| && TargetsLegal(m.targets) && Covered(m.targets)
  }

  ghost function Step(m: Msg, op: Op): Msg
    requires Legal(m) && Allowed(m, op)
  {
    var at := |m.bytes|;
    match op
    case Fixed(b) => m.(bytes := m.bytes + b)
    case StoreName(w) =>
      Msg(m.bytes + StoredBytes(m.targets, w), TargetsAfter(m.targets, at, w),
        m.log + [Written(at, LabelsAt(w, 0), Reachable(m.targets, w))])
    case StoreWhole(w) =>
      Msg(m.bytes + w, if w[0] == 0 then m.targets else Record(m.targets, at, w, WHOLE),
          m.log + [Written(at, LabelsAt(w, 0), true)])
    case RepeatName(o) =>
      m.(bytes := m.bytes + RepeatBytes(m.bytes, o), log := m.log + [Written(at, Decode(m.bytes, o).value, true)])
  }

  /** The message when encoding starts: header, question name in the client's letter case, type and class. */
  ghost predicate Start(m: Msg, question: Bytes, lower: Bytes) {
    IsWire(lower) && SameLabel(question, lower) && HEADER + |question| + 4 == |m.bytes| &&
    m.bytes[HEADER..HEADER + |question|] == question &&
    m.targets == (if lower[0] == 0 then [] else [Target(lower, HEADER, WHOLE)]) &&
    m.log == [Written(HEADER, LabelsAt(lower, 0), true)]
  }

  /** `ops` leads from `m` to `m'`. */
  ghost predicate Runs(m: Msg, ops: seq<Op>, m': Msg)
    decreases |ops|
  {
    if ops == [] then m == m'
    else Legal(m) && Allowed(m, ops[0]) && Runs(Step(m, ops[0]), ops[1..], m')
  }

  ghost predicate AllDenote(p: Bytes, log: seq<Written>) {
    forall i {:trigger DenotesAt(p, log[i])} :: 0 <= i < |log| ==> DenotesAt(p, log[i])
  }

  /** The name reads back if its match was reachable, which it is for a name that starts at or below offset 16384. */
  ghost predicate DenotesAt(p: Bytes, w: Written) {
    (w.reach ==> Denotes(p, w.at, w.name)) && (w.at <= POINTER_SPAN ==> w.reach)
  }

  /** What holds of every message on the way, however long. */
  ghost predicate Inv(m: Msg) {
    Legal(m) && Sound(m.bytes, m.targets) && AllDenote(m.bytes, m.log)
  }

  lemma StartInv(m: Msg, question: Bytes, lower: Bytes)
    requires Start(m, question, lower)
    ensures Inv(m)
  {
    var p, w := m.bytes, lower;
    QuestionBytes(p, question, w);
    WholeReadsAt(p, HEADER, w);
    if w[0] != 0 {
      WholeResolvesAt(p, HEADER, w, WHOLE);
    }
  }

  lemma QuestionBytes(p: Bytes, question: Bytes, w: Bytes)
    requires IsWire(w) && SameLabel(question, w) && HEADER + |w| <= |p|
    requires p[HEADER..HEADER + |question|] == question
    ensures SameLabel(p[HEADER..HEADER + (|w| - 1)], w[..|w| - 1]) && p[HEADER + (|w| - 1)] == 0
  {
    EndByte(w, 0);
    assert p[HEADER + (|w| - 1)] == question[|w| - 1];
    SliceOfSlice(p, HEADER, HEADER + |question|, 0, |w| - 1);
    assert p[HEADER..HEADER + (|w| - 1)] == question[0..|w| - 1];
  }

  /** A place that may be repeated stays one, with the same name, as the message grows. */
  lemma RepeatableExtend(p: Bytes, p': Bytes, at: nat)
    requires Repeatable(p, at) && p <= p'
    ensures Repeatable(p', at) && Decode(p', at) == Decode(p, at)
  {
    DecodeExtend(p, p'[|p|..], at, at, at);
    assert p + p'[|p|..] == p';
  }

  /** A repeated name reads as the name it repeats, exactly, wherever more bytes come before it. */
  lemma RepeatDecodes(p: Bytes, mid: Bytes, at: nat)
    requires Repeatable(p, at)
    ensures Decode(p + mid + RepeatBytes(p, at), |p + mid|) == Decode(p, at)
  {
    var q := p + mid;
    var e := RepeatBytes(p, at);
    var r := q + e;
    if p[at] >= 0x40 {
      var t := PointerValue(p[at], p[at + 1]);
      assert r[|q|] == p[at] && r[|q| + 1] == p[at + 1] && r[t] == p[t];
      DecodeExtend(p, mid + e, t, t, t);
      assert p + (mid + e) == r;
    } else if p[at] != 0 {
      RepeatByPointer(p, mid, e, at);
    } else {
      assert r[|q|] == 0;
    }
  }

  lemma RepeatByPointer(p: Bytes, mid: Bytes, ptr: Bytes, at: nat)
    requires HEADER <= at && Decode(p, at).Some? && StartsLabel(p, at)
    requires at < POINTER_SPAN && ptr == Pointer(at)
    ensures Decode(p + mid + ptr, |p + mid|) == Decode(p, at)
  {
    PointerRoundTrip(at);
    var r := p + mid + ptr;
    DecodeExtend(p, mid + ptr, at, at, at);
    assert p + (mid + ptr) == r;
    assert r[|p + mid|] == ptr[0] && r[|p + mid| + 1] == ptr[1] && r[at] == p[at];
  }

  lemma LogExtend(p: Bytes, e: Bytes, log: seq<Written>)
    requires AllDenote(p, log)
    ensures AllDenote(p + e, log)
  {
    forall i | 0 <= i < |log| ensures DenotesAt(p + e, log[i]) {
      assert DenotesAt(p, log[i]);
      if log[i].reach { DecodeExtend(p, e, log[i].at, log[i].at, log[i].at); }
    }
  }

  lemma StepInv(m: Msg, op: Op)
    requires Inv(m) && Allowed(m, op)
    ensures Inv(Step(m, op))
  {
    var p, m' := m.bytes, Step(m, op);
    match op
    case Fixed(b) =>
      LogExtend(p, b, m.log);
      SoundExtend(p, b, m.targets);
    case StoreName(w) =>
      LogExtend(p, StoredBytes(m.targets, w), m.log);
      StoreSound(p, m.targets, w);
      LogAdd(m'.bytes, m.log, m'.log);
    case StoreWhole(w) =>
      LogExtend(p, w, m.log);
      StoreWholeSound(p, m.targets, w);
      LogAdd(m'.bytes, m.log, m'.log);
    case RepeatName(at) =>
      var e := RepeatBytes(p, at);
      LogExtend(p, e, m.log);
      RepeatDecodes(p, [], at);
      assert p + [] == p;
      SoundExtend(p, e, m.targets);
      LogAdd(m'.bytes, m.log, m'.log);
  }

  lemma LogAdd(p: Bytes, log: seq<Written>, log': seq<Written>)
    requires AllDenote(p, log) && |log'| == |log| + 1 && log <= log' && DenotesAt(p, log'[|log|])
    ensures AllDenote(p, log')
  {
    forall i | 0 <= i < |log'| ensures DenotesAt(p, log'[i]) {
      if i < |log| { assert DenotesAt(p, log[i]); }
    }
  }

  lemma {:induction false} RunInv(m: Msg, ops: seq<Op>, m': Msg)
    requires Inv(m) && Runs(m, ops, m')
    ensures Inv(m')
    decreases |ops|
  {
    if ops != [] {
      StepInv(m, ops[0]);
      RunInv(Step(m, ops[0]), ops[1..], m');
    }
  }

  /**
    The theorem: however a response is put together and however long it becomes, every name stored in it
    decodes to the name that was meant, up to letter case, unless it was compressed with a match beyond
    offset 16383; no name that starts at or below 16384 is.  By the decoder's strictness every pointer
    leads strictly backwards, past the header, to a label.
   */
  lemma EveryNameDecodes(m: Msg, question: Bytes, lower: Bytes, ops: seq<Op>, m': Msg, i: nat)
    requires Start(m, question, lower) && Runs(m, ops, m') && i < |m'.log|
    ensures m'.log[i].reach ==> Denotes(m'.bytes, m'.log[i].at, m'.log[i].name)
    ensures m'.log[i].at <= POINTER_SPAN ==> m'.log[i].reach
  {
    StartInv(m, question, lower);
    RunInv(m, ops, m');
    assert DenotesAt(m'.bytes, m'.log[i]);
  }

  /**
    The condition is exact: after any run, a name is stored so that it decodes if its match is reachable,
    and if it is not, only if the labels it wants are by chance where the pointer leads instead.
   */
  lemma DecodesExactly(m: Msg, question: Bytes, lower: Bytes, ops: seq<Op>, m': Msg, w: Bytes)
    requires Start(m, question, lower) && Runs(m, ops, m') && IsWire(w)
    ensures Legal(m')
    ensures var p := Step(m', StoreName(w)).bytes;
            Denotes(p, |m'.bytes|, LabelsAt(w, 0)) <==> Reachable(m'.targets, w) || SavedByChance(m'.targets, w, p)
  {
    StartInv(m, question, lower);
    RunInv(m, ops, m');
    StoreSound(m'.bytes, m'.targets, w);
    if !Reachable(m'.targets, w) { UnreachableReads(m'.bytes, m'.targets, w); }
  }

  /**
    And compression never misses: after any run, the suffix that storing `w` would replace by a pointer
    is at least as long as any suffix `w` shares with any recorded name.
   */
  lemma EveryMatchIsLongest(m: Msg, question: Bytes, lower: Bytes, ops: seq<Op>, m': Msg,
                            w: Bytes, k: nat, p: nat, q: nat)
    requires Start(m, question, lower) && Runs(m, ops, m') && IsWire(w) && w[0] != 0
    requires k < |m'.targets| && IsWire(m'.targets[k].name) && Shared(w, p, m'.targets[k].name, q)
    ensures Legal(m') && BestMatch(m'.targets, w).offset != 0 && BestMatch(m'.targets, w).pos <= p
  {
    StartInv(m, question, lower);
    RunInv(m, ops, m');
    MatchIsLongest(m'.targets, w, k, p, q);
  }

  /** A pointer holds the offset it was made from exactly when that offset fits in 14 bits. */
  lemma PointerReach(offset: nat)
    ensures PointerValue(Pointer(offset)[0], Pointer(offset)[1]) == offset <==> offset < POINTER_SPAN
  {
    PointerRoundTrip(offset);
  }

  /** Fixed bytes that bring a message of 17 bytes to 16383. */
  function Filler(n: nat): (b: Bytes)
    ensures |b| == n
  {
    seq(n, i => 0)
  }

  /**
    A run that meets the condition's other side: after a question for the root and enough record data,
    "a.b." is stored at 16383, so that its "b." is at 16385; then "b." becomes a pointer to offset 1.
   */
  lemma BeyondReach(m: Msg)
    requires Start(m, [0], [0])
    ensures var a, b := [1, 0x61, 1, 0x62, 0], [1, 0x62, 0];
            && IsWire(a) && IsWire(b)
            && exists m' :: Runs(m, [Fixed(Filler(16366)), StoreName(a)], m') && Legal(m') &&
                 !Reachable(m'.targets, b) && StoredBytes(m'.targets, b) == [0xC0, 1] &&
                 Decode(m'.bytes + [0xC0, 1], |m'.bytes|) == None
  {
    var a, b := [1, 0x61, 1, 0x62, 0], [1, 0x62, 0];
    assert WireAt(a, 4) && WireAt(a, 2) && WireAt(a, 0) && WireAt(b, 2) && WireAt(b, 0);
    StartInv(m, [0], [0]);
    var m1 := Step(m, Fixed(Filler(16366)));
    StepInv(m, Fixed(Filler(16366)));
    var t := Target(a, 16383, NO_MATCH.pos);
    var m2 := Step(m1, StoreName(a));
    StepInv(m1, StoreName(a));
    assert m1.targets == [] && |m1.bytes| == 16383 && BestMatch(m1.targets, a) == NO_MATCH;
    assert m2.targets == [t];
    SecondLabel(t, a, b);
    var ops := [Fixed(Filler(16366)), StoreName(a)];
    assert ops[1..] == [StoreName(a)] && ops[1..][1..] == [];
    assert Runs(m2, ops[1..][1..], m2) && Runs(m1, ops[1..], m2) && Runs(m, ops, m2);
    var r := m2.bytes + [0xC0, 1];
    assert r[|m2.bytes|] == 0xC0 && r[|m2.bytes| + 1] == 1;
  }

  lemma SecondLabel(t: Target, a: Bytes, b: Bytes)
    requires a == [1, 0x61, 1, 0x62, 0] && b == [1, 0x62, 0] && t == Target(a, 16383, NO_MATCH.pos) && IsWire(a)
    requires IsWire(b)
    ensures BestMatch([t], b) == Match(0, 16385)
  {
    assert WireAt(a, 4) && WireAt(a, 2) && WireAt(a, 0) && WireAt(b, 2) && WireAt(b, 0);
    assert Walk(b, 0, a, 0, 255, 255) == Walk(b, 0, a, 2, 255, 255) == Some((0, 2)) by {
      assert b[0..2] == a[2..4];
    }
    assert Improve(t, b, NO_MATCH) == Match(0, 16385);
  }
}
