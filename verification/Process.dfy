/**
  A whole query: decode it, answer it, add the OPT record, write the header.  What is
  sent stays within the size the client accepts, and its header counts what is there.
 */
module Process {
  import opened Names
  import opened Decoder
  import opened Compression
  import opened Message
  import opened Sections
  import opened Records
  import opened Additional
  import opened Encoder
  import opened LookupRule
  import opened LabelTree
  import opened Response
  import opened Answering
  import opened Truncation
  import opened QueryDecoder

  // ---- Starting a response ------------------------------------------------------------------

  /** Resetting the context: header and question, with the lower-cased question as first compression target. */
  method Begin(c: Context, packet: Bytes, lower: Bytes)
    requires IsWire(lower) && |packet| == HEADER + |lower| + 4 && SameLabel(packet[HEADER..HEADER + |lower|], lower)
    modifies c
    ensures c.packet == packet && c.qend == |packet| && c.records == []
    ensures Ok(c) && NoExtras(c) && QuestionLiteral(c.packet, lower)
  {
    ResetTo(c, packet, lower);
    StartPromised(packet, lower);
    CarriedNone([], None);
  }

  /** `reset_context` and the assignments that follow it. */
  method ResetTo(c: Context, packet: Bytes, lower: Bytes)
    requires IsWire(lower)
    modifies c
    ensures c.View() == Msg(packet, StartTargets(lower), StartLog(lower)) && c.qend == |packet| && c.records == []
    ensures c.addtlStore == [] && c.addtlRrsets == [] && c.extras == [] && c.addtlOwners == [] && !c.strayed
    ensures NoExtras(c)
    ensures c.ancount == 0 && c.nscount == 0 && c.arcount == 0 && c.cnameAncount == 0
  {
    ResetAddtl(c);
    c.packet, c.targets, c.log := packet, StartTargets(lower), StartLog(lower);
    c.qnameComp, c.authComp, c.qend, c.records := HEADER, 0, |packet|, [];
  }

  method ResetAddtl(c: Context)
    modifies c`addtlStore, c`addtlRrsets, c`answerAddr, c`addtlHasGlue, c`extras, c`addtlOwners, c`strayed
    modifies c`ancount, c`nscount, c`arcount, c`cnameAncount
    ensures c.addtlStore == [] && c.addtlRrsets == [] && c.extras == [] && c.addtlOwners == [] && !c.strayed
    ensures NoExtras(c)
    ensures c.ancount == 0 && c.nscount == 0 && c.arcount == 0 && c.cnameAncount == 0
  {
    c.addtlStore, c.addtlRrsets, c.answerAddr, c.addtlHasGlue := [], [], None, false;
    c.ancount, c.nscount, c.arcount, c.cnameAncount := 0, 0, 0, 0;
    c.extras, c.addtlOwners, c.strayed := [], [], false;
  }

  function StartTargets(lower: Bytes): seq<Target>
    requires lower != []
  {
    if lower[0] == 0 then [] else [Target(lower, HEADER, WHOLE)]
  }

  ghost function StartLog(lower: Bytes): seq<Written>
    requires IsWire(lower)
  {
    [Written(HEADER, LabelsAt(lower, 0), true)]
  }

  lemma StartPromised(packet: Bytes, lower: Bytes)
    requires IsWire(lower) && |packet| == HEADER + |lower| + 4 && SameLabel(packet[HEADER..HEADER + |lower|], lower)
    ensures Promised(Msg(packet, StartTargets(lower), StartLog(lower)), |packet|, [], [], [], [], false)
    ensures QuestionLiteral(packet, lower)
  {
    StartInv(Msg(packet, StartTargets(lower), StartLog(lower)), packet[HEADER..HEADER + |lower|], lower);
    QuestionBytes(packet, packet[HEADER..HEADER + |lower|], lower);
    AddtlStart(packet);
  }

  // ---- The OPT record ------------------------------------------------------------------------

  const EDNS0_SIZE := 1280

  /** The echoed client-subnet option. */
  function EchoBytes(s: Subnet, scope: Byte): Bytes
    requires SubnetLegal(s)
  {
    U16(CLIENT_SUBNET) + U16(4 + |s.addr|) + U16(s.family) + [s.mask, scope] + s.addr
  }

  function OptData(echo: Option<Subnet>, scope: Byte): Bytes
    requires echo.Some? ==> SubnetLegal(echo.value)
  {
    if echo.Some? then EchoBytes(echo.value, scope) else []
  }

  function OptFixed(badVers: bool): Bytes {
    U16(TYPE_OPT) + U16(EDNS0_SIZE) + [if badVers then 1 else 0, 0, 0, 0]
  }

  function OptBytes(badVers: bool, echo: Option<Subnet>, scope: Byte): Bytes
    requires echo.Some? ==> SubnetLegal(echo.value)
  {
    [0] + OptFixed(badVers) + U16(|OptData(echo, scope)|) + OptData(echo, scope)
  }

  function EchoLen(echo: Option<Subnet>): nat { if echo.Some? then EchoSize(echo.value) else 0 }

  /** It is one record, of the size that was set aside for it. */
  lemma OptIsRecord(p: Bytes, badVers: bool, echo: Option<Subnet>, scope: Byte)
    requires echo.Some? ==> SubnetLegal(echo.value)
    ensures var opt := OptBytes(badVers, echo, scope);
            |opt| == 11 + EchoLen(echo) && SkipRecord(p + opt, |p|) == Some(|p + opt|)
  {
    var data := OptData(echo, scope);
    assert (p + [0])[|p|] == 0;
    OneRecord(p, [0], OptFixed(badVers), data);
    assert p + OptBytes(badVers, echo, scope) == p + [0] + OptFixed(badVers) + U16(|data|) + data;
  }

  // ---- The header ----------------------------------------------------------------------------

  /** Opcode and RD are kept; QR is set; AA and TC as they are now. */
  function Flags1(was: Byte, aa: bool, tc: bool): Byte {
    0x80 + was / 8 % 16 * 8 + was % 2 + (if aa then 4 else 0) + (if tc then 2 else 0)
  }

  /** What the header is to say. */
  datatype Fields = Fields(aa: bool, tc: bool, rcode: Byte, an: nat, ns: nat, ar: nat)

  /** The bytes of the header of a response to `packet`: its ID, flags, code and counts. */
  function HeaderByte(packet: Bytes, h: Fields, qd: nat, k: nat): Byte
    requires |packet| >= HEADER && k < HEADER
  {
    if k < 2 then packet[k]
    else if k == 2 then Flags1(packet[2], h.aa, h.tc)
    else if k == 3 then h.rcode
    else if k < 6 then U16(qd)[k - 4]
    else if k < 8 then U16(h.an)[k - 6]
    else if k < 10 then U16(h.ns)[k - 8]
    else U16(h.ar)[k - 10]
  }

  function HeaderFor(packet: Bytes, h: Fields, qd: nat): (r: Bytes)
    requires |packet| >= HEADER
    ensures |r| == HEADER
  {
    seq(HEADER, k requires 0 <= k < HEADER => HeaderByte(packet, h, qd, k))
  }

  /** The header of a response with an OPT record counts it too. */
  function Counting(h: Fields, edns: bool): Fields { if edns then h.(ar := h.ar + 1) else h }

  // ---- Rewriting the header and adding the OPT record changes no record ------------------------

  lemma SkipRecordSuffix(p: Bytes, q: Bytes, o: nat)
    requires o <= |p| == |q| && p[o..] == q[o..]
    ensures SkipRecord(p, o) == SkipRecord(q, o)
  {
    SkipNameSuffix(p, q, o);
    if SkipName(p, o).Some? {
      var n := SkipName(p, o).value;
      SkipNameForward(p, o);
      if n + 10 <= |p| {
        assert p[n + 8] == p[o..][n + 8 - o] && q[n + 8] == q[o..][n + 8 - o];
        assert p[n + 9] == p[o..][n + 9 - o] && q[n + 9] == q[o..][n + 9 - o];
      }
    }
  }

  lemma {:induction false} SkipRecordsSuffix(p: Bytes, q: Bytes, o: nat, count: nat)
    requires o <= |p| == |q| && p[o..] == q[o..]
    ensures SkipRecords(p, o, count) == SkipRecords(q, o, count)
    decreases count
  {
    if count != 0 {
      SkipRecordSuffix(p, q, o);
      if SkipRecord(p, o).Some? {
        var n := SkipRecord(p, o).value;
        SkipRecordExtend(p, [], o);
        SuffixOf(p, o, q, o, n);
        SkipRecordsSuffix(p, q, n, count - 1);
      }
    }
  }

  /** Every record takes at least eleven bytes. */
  lemma {:induction false} RecordsNeedRoom(p: Bytes, o: nat, count: nat)
    requires SkipRecords(p, o, count).Some?
    ensures o + 11 * count <= SkipRecords(p, o, count).value
    decreases count
  {
    if count != 0 {
      SkipNameForward(p, o);
      RecordsNeedRoom(p, SkipRecord(p, o).value, count - 1);
    }
  }

  /** The packet as sent: a new header, the body, and what follows it. */
  function Sealed(header: Bytes, body: Bytes, opt: Bytes): Bytes
    requires |header| == HEADER <= |body|
  {
    header + (body[HEADER..] + opt)
  }

  lemma SealedBody(header: Bytes, body: Bytes, opt: Bytes)
    requires |header| == HEADER <= |body|
    ensures var q := header + body[HEADER..];
            |q| == |body| && q[HEADER..] == body[HEADER..] && Sealed(header, body, opt) == q + opt
  {
    var q := header + body[HEADER..];
    assert Sealed(header, body, opt) == q + opt;
  }

  /** Names read in the packet as sent as they did before. */
  lemma SealedNames(header: Bytes, body: Bytes, opt: Bytes, o: nat)
    requires |header| == HEADER <= |body| && HEADER <= o && Decode(body, o).Some?
    ensures Decode(Sealed(header, body, opt), o) == Decode(body, o)
  {
    SealedBody(header, body, opt);
    var q := header + body[HEADER..];
    HeaderIrrelevant(body, q, o, o);
    DecodeExtend(q, opt, o, o, o);
  }

  // ---- What is read past the header, a record's parts included, is read under any header --------

  lemma PartUnder(p: Bytes, q: Bytes, o: nat, part: Part)
    requires HEADER <= |p| == |q| && p[HEADER..] == q[HEADER..] && HEADER <= o
    requires PartLegal(part) && PartReads(p, o, part) && PartEnd(p, o, part).Some?
    ensures PartReads(q, o, part) && PartEnd(q, o, part) == PartEnd(p, o, part) && o <= PartEnd(p, o, part).value
  {
    if part.Raw? {
      SuffixOf(p, HEADER, q, HEADER, o);
      assert p[o..][..|part.bytes|] == q[o..][..|part.bytes|];
    } else {
      SuffixOf(p, HEADER, q, HEADER, o);
      SkipNameSuffix(p, q, o);
      SkipNameForward(p, o);
      HeaderIrrelevant(p, q, o, o);
    }
  }

  lemma {:induction false} PartsUnder(p: Bytes, q: Bytes, o: nat, parts: seq<Part>, end: nat)
    requires HEADER <= |p| == |q| && p[HEADER..] == q[HEADER..] && HEADER <= o
    requires PartsLegal(parts) && PartsRead(p, o, parts, end)
    ensures PartsRead(q, o, parts, end)
    decreases |parts|
  {
    if parts != [] {
      PartUnder(p, q, o, parts[0]);
      PartsUnder(p, q, PartEnd(p, o, parts[0]).value, parts[1..], end);
    }
  }

  lemma FieldsUnder(p: Bytes, q: Bytes, it: Item)
    requires HEADER <= |p| == |q| && p[HEADER..] == q[HEADER..] && HEADER <= it.at && FieldsThere(p, it)
    ensures FieldsThere(q, it)
  {
    SuffixOf(p, HEADER, q, HEADER, it.body);
    assert p[it.body..][..8] == q[it.body..][..8];
    assert p[it.body..][8] == q[it.body..][8] && p[it.body..][9] == q[it.body..][9];
  }

  lemma ItemUnder(p: Bytes, q: Bytes, it: Item)
    requires HEADER <= |p| == |q| && p[HEADER..] == q[HEADER..] && ItemReads(p, it)
    ensures ItemReads(q, it)
  {
    SuffixOf(p, HEADER, q, HEADER, it.at);
    SkipNameSuffix(p, q, it.at);
    HeaderIrrelevant(p, q, it.at, it.at);
    HeaderIrrelevant(p, q, it.rr.owner, it.rr.owner);
    FieldsUnder(p, q, it);
    PartsUnder(p, q, it.body + 10, it.rr.parts, it.end);
  }

  lemma ExtraUnder(p: Bytes, q: Bytes, base: nat, x: Extra)
    requires HEADER <= |p| == |q| && p[HEADER..] == q[HEADER..] && HEADER <= base && ExtraReads(p, base, x)
    ensures ExtraReads(q, base, x)
  {
    var o, b := base + x.at, base + x.body;
    SuffixOf(p, HEADER, q, HEADER, o);
    SkipNameSuffix(p, q, o);
    SkipNameForward(p, o);
    HeaderIrrelevant(p, q, o, o);
    SuffixOf(p, HEADER, q, HEADER, b);
    assert p[b..][..8] == q[b..][..8] && p[b..][10..10 + |x.addr|] == q[b..][10..10 + |x.addr|];
    assert p[b..][8] == q[b..][8] && p[b..][9] == q[b..][9];
  }

  lemma ExtraExtend(p: Bytes, e: Bytes, base: nat, x: Extra)
    requires ExtraReads(p, base, x)
    ensures ExtraReads(p + e, base, x)
  {
    SkipNameExtend(p, e, base + x.at);
    ReadsExtend(p, e, base + x.at, base + x.at, base + x.at, x.name);
    var r := p + e;
    assert r[base + x.body..base + x.body + 8] == p[base + x.body..base + x.body + 8];
    assert r[base + x.body + 10..base + EndOf(x)] == p[base + x.body + 10..base + EndOf(x)];
  }

  /** Every record is read in the packet as sent as it was before. */
  lemma SealedItems(header: Bytes, body: Bytes, opt: Bytes, items: seq<Item>, base: nat, xs: seq<Extra>)
    requires |header| == HEADER <= |body| && HEADER <= base && AllRead(body, items)
    ensures AllRead(Sealed(header, body, opt), items)
    ensures ExtrasRead(body, base, xs) ==> ExtrasRead(Sealed(header, body, opt), base, xs)
  {
    SealedBody(header, body, opt);
    var q := header + body[HEADER..];
    forall i | 0 <= i < |items| ensures ItemReads(q + opt, items[i]) {
      ItemUnder(body, q, items[i]);
      ItemExtend(q, opt, items[i]);
    }
    if ExtrasRead(body, base, xs) {
      forall k | 0 <= k < |xs| ensures ExtraReads(q + opt, base, xs[k]) {
        assert ExtraReads(body, base, xs[k]);
        ExtraUnder(body, q, base, xs[k]);
        ExtraExtend(q, opt, base, xs[k]);
      }
    }
  }

  lemma SealedDenotes(header: Bytes, body: Bytes, opt: Bytes, o: nat, name: Name)
    requires |header| == HEADER <= |body| && HEADER <= o && Denotes(body, o, name)
    ensures Denotes(Sealed(header, body, opt), o, name)
  {
    SealedNames(header, body, opt, o);
  }

  /** The response as sent is still what the database has. */
  lemma SealedPrepared(header: Bytes, opt: Bytes, s: Shot, max: nat, db: Db, query: Query, run: Run)
    requires |header| == HEADER <= |s.packet| && DbOk(db) && Prepared(s, max, db, query, run)
    ensures Prepared(s.(packet := Sealed(header, s.packet, opt)), max, db, query, run)
  {
    var out, t := Sealed(header, s.packet, opt), run.t;
    forall k | 0 <= k < |t.ns| ensures ChainItem(out, s.records, db, t, k) {
      assert ChainItem(s.packet, s.records, db, t, k);
      SealedDenotes(header, s.packet, opt, s.records[k].rr.owner, NameAfter(db, t, k));
    }
    if run.reply.end == AtName && run.reply.found.status != NoAuth {
      SealedDenotes(header, s.packet, opt, s.qnameComp, NameAtEnd(db, t));
      SealedDenotes(header, s.packet, opt, s.authComp, ZoneName(db, t, run.cut));
    }
  }

  lemma SealedRecords(header: Bytes, body: Bytes, opt: Bytes, qend: nat, n: nat)
    requires |header| == HEADER <= qend <= |body| && SkipRecords(body, qend, n) == Some(|body|)
    ensures var q := header + body[HEADER..];
            |q| == |body| && Sections.Holds(q, qend, n) && Sealed(header, body, opt) == q + opt
  {
    SealedBody(header, body, opt);
    var q := header + body[HEADER..];
    SuffixOf(body, HEADER, q, HEADER, qend);
    SkipRecordsSuffix(body, q, qend, n);
  }

  // ---- Finishing a response -----------------------------------------------------------------

  ghost function RecordsIn(out: Bytes): nat
    requires |out| >= HEADER
  {
    U16Value(out[6], out[7]) + U16Value(out[8], out[9]) + U16Value(out[10], out[11])
  }

  /** The header counts exactly the records that follow the question. */
  ghost predicate CountsRight(out: Bytes, qend: nat) {
    |out| >= HEADER && SkipRecords(out, qend, RecordsIn(out)) == Some(|out|)
  }

  /** The OPT record, if the query had one, and the header. */
  method Finish(packet: Bytes, body: Bytes, h: Fields, edns: bool, badVers: bool, echo: Option<Subnet>, scope: Byte)
    returns (out: Bytes)
    requires HEADER <= |packet| && HEADER <= |body| && (echo.Some? ==> edns && SubnetLegal(echo.value))
    ensures Finished(out, packet, body, h, edns, badVers, echo, scope)
  {
    var opt := [];
    var counted := h;
    if edns {
      opt := OptBytes(badVers, echo, scope);
      counted := h.(ar := h.ar + 1);
    }
    out := HeaderFor(packet, counted, 1) + (body[HEADER..] + opt);
  }

  /** What is sent: the body under the header that says this of it, and the OPT record if any. */
  ghost predicate Finished(out: Bytes, packet: Bytes, body: Bytes, h: Fields, edns: bool, badVers: bool,
                           echo: Option<Subnet>, scope: Byte) {
    && HEADER <= |packet| && HEADER <= |body| && (echo.Some? ==> SubnetLegal(echo.value))
    && out == Sealed(HeaderFor(packet, Counting(h, edns), 1), body, OptIf(edns, badVers, echo, scope))
  }

  /** A reader finds the query's ID, the response's flags and code, and the counts. */
  lemma HeaderReads(out: Bytes, packet: Bytes, h: Fields, qd: nat)
    requires |packet| >= HEADER && |out| >= HEADER && out[..HEADER] == HeaderFor(packet, h, qd)
    ensures out[0] == packet[0] && out[1] == packet[1] && out[2] == Flags1(packet[2], h.aa, h.tc) && out[3] == h.rcode
    ensures qd < 0x10000 ==> U16Value(out[4], out[5]) == qd
    ensures h.an < 0x10000 ==> U16Value(out[6], out[7]) == h.an
    ensures h.ns < 0x10000 ==> U16Value(out[8], out[9]) == h.ns
    ensures h.ar < 0x10000 ==> U16Value(out[10], out[11]) == h.ar
  {
    var r := HeaderFor(packet, h, qd);
    forall k | 0 <= k < HEADER ensures out[k] == HeaderByte(packet, h, qd, k) {
      assert out[k] == out[..HEADER][k] == r[k];
    }
    U16At(out, 4, qd);
    U16At(out, 6, h.an);
    U16At(out, 8, h.ns);
    U16At(out, 10, h.ar);
  }

  lemma U16At(out: Bytes, k: nat, n: nat)
    requires k + 1 < |out| && out[k] == U16(n)[0] && out[k + 1] == U16(n)[1]
    ensures n < 0x10000 ==> U16Value(out[k], out[k + 1]) == n
  {
    if n < 0x10000 { U16RoundTrip(n); }
  }

  ghost function OptIf(edns: bool, badVers: bool, echo: Option<Subnet>, scope: Byte): Bytes
    requires echo.Some? ==> SubnetLegal(echo.value)
  {
    if edns then OptBytes(badVers, echo, scope) else []
  }

  /** The records of the body, and the OPT record if any, are the records of what is sent. */
  lemma SealedHolds(out: Bytes, header: Bytes, body: Bytes, n: nat, qend: nat, edns: bool, badVers: bool,
                    echo: Option<Subnet>, scope: Byte)
    requires (echo.Some? ==> SubnetLegal(echo.value)) && |header| == HEADER <= qend <= |body|
    requires out == Sealed(header, body, OptIf(edns, badVers, echo, scope))
    requires SkipRecords(body, qend, n) == Some(|body|)
    ensures Sections.Holds(out, qend, n + if edns then 1 else 0)
  {
    SealedRecords(header, body, OptIf(edns, badVers, echo, scope), qend, n);
    OptAdds(header + body[HEADER..], qend, n, edns, badVers, echo, scope);
  }

  /** The OPT record, if any, is one more record. */
  lemma OptAdds(q: Bytes, qend: nat, n: nat, edns: bool, badVers: bool, echo: Option<Subnet>, scope: Byte)
    requires (echo.Some? ==> SubnetLegal(echo.value)) && Sections.Holds(q, qend, n) && qend <= |q|
    ensures Sections.Holds(q + OptIf(edns, badVers, echo, scope), qend, n + if edns then 1 else 0)
  {
    if edns {
      OptIsRecord(q, badVers, echo, scope);
      HoldsOneMore(q, OptBytes(badVers, echo, scope), qend, n);
    } else {
      assert q + [] == q;
    }
  }

  /** How long what is sent is, and how many records its header counts. */
  lemma SentTotal(out: Bytes, packet: Bytes, body: Bytes, h: Fields, edns: bool, badVers: bool, echo: Option<Subnet>,
                  scope: Byte)
    requires Finished(out, packet, body, h, edns, badVers, echo, scope)
    ensures |out| == SentSize(|body|, edns, echo) && |out| >= HEADER
    ensures h.an + h.ns + h.ar < 0xFFFF ==> RecordsIn(out) == h.an + h.ns + h.ar + if edns then 1 else 0
  {
    var header, rest := HeaderFor(packet, Counting(h, edns), 1), body[HEADER..] + OptIf(edns, badVers, echo, scope);
    assert out == header + rest && out[..HEADER] == header;
    if edns { OptIsRecord([], badVers, echo, scope); }
    HeaderReads(out, packet, Counting(h, edns), 1);
  }

  /** The records of the body are the records of what is sent, but for the OPT record. */
  lemma SentHolds(out: Bytes, packet: Bytes, body: Bytes, h: Fields, qend: nat, n: nat, edns: bool, badVers: bool,
                  echo: Option<Subnet>, scope: Byte)
    requires Finished(out, packet, body, h, edns, badVers, echo, scope) && HEADER <= qend <= |body|
    requires SkipRecords(body, qend, n) == Some(|body|)
    ensures Sections.Holds(out, qend, n + if edns then 1 else 0)
  {
    SealedHolds(out, HeaderFor(packet, Counting(h, edns), 1), body, n, qend, edns, badVers, echo, scope);
  }

  /** The header's counts are right for a body that holds as many records as counted. */
  lemma SentCounts(out: Bytes, packet: Bytes, body: Bytes, h: Fields, qend: nat, edns: bool, badVers: bool,
                   echo: Option<Subnet>, scope: Byte)
    requires Finished(out, packet, body, h, edns, badVers, echo, scope) && HEADER <= qend <= |body| && |out| < 0x10000
    requires SkipRecords(body, qend, h.an + h.ns + h.ar) == Some(|body|)
    ensures CountsRight(out, qend)
  {
    var n := h.an + h.ns + h.ar;
    SentTotal(out, packet, body, h, edns, badVers, echo, scope);
    FewRecords(body, qend, n);
    SentHolds(out, packet, body, h, qend, n, edns, badVers, echo, scope);
    CountedOver(out, qend, n + if edns then 1 else 0, 0);
  }

  lemma FewRecords(body: Bytes, qend: nat, n: nat)
    requires SkipRecords(body, qend, n) == Some(|body|) && |body| < 0x10000
    ensures n < 0xFFFF
  {
    RecordsNeedRoom(body, qend, n);
  }

  /** A truncated response holds no answers, so its counts are right exactly when no CNAME is counted. */
  lemma TruncatedCounts(out: Bytes, packet: Bytes, body: Bytes, h: Fields, edns: bool, echo: Option<Subnet>,
                        scope: Byte)
    requires Finished(out, packet, body, h, edns, false, echo, scope)
    requires h.ns == 0 && h.ar == 0 && h.an < 0xFFFF
    ensures CountsRight(out, |body|) <==> h.an == 0
  {
    SentTotal(out, packet, body, h, edns, false, echo, scope);
    assert SkipRecords(body, |body|, 0) == Some(|body|);
    SentHolds(out, packet, body, h, |body|, 0, edns, false, echo, scope);
    CountedOver(out, |body|, if edns then 1 else 0, h.an);
  }

  lemma CountedOver(out: Bytes, qend: nat, n: nat, over: nat)
    requires |out| >= HEADER && Sections.Holds(out, qend, n) && RecordsIn(out) == n + over
    ensures CountsRight(out, qend) <==> over == 0
  {
    if over > 0 { TooMany(out, qend, n, over); }
  }

  /** Nothing can be read past the end. */
  lemma TooMany(p: Bytes, o: nat, n: nat, k: nat)
    requires SkipRecords(p, o, n) == Some(|p|) && k > 0
    ensures SkipRecords(p, o, n + k) == None
  {
    SkipRecordsAdd(p, o, n, k);
  }

  // ---- The size of the response -----------------------------------------------------------------

  /** Options take in the response no more than they took in the query. */
  lemma {:induction false} ReservedFits(d: Bytes)
    ensures Reserved(Options(d)) <= |d|
    decreases |d|
  {
    if |d| >= 4 && 4 + U16Value(d[2], d[3]) <= |d| {
      OptionsStep(d);
      ReservedFits(d[4 + U16Value(d[2], d[3])..]);
    }
  }

  lemma ReservedBelow(packet: Bytes, offset: nat, subnetsOn: bool)
    requires |packet| >= HEADER
    ensures ReservedBy(packet, offset, subnetsOn) < 0x10000
  {
    if HasOpt(packet, offset) && subnetsOn {
      var o := offset + 1;
      var rdlen := U16Value(packet[o + 8], packet[o + 9]);
      if o + OPT_FIXED + rdlen <= |packet| { ReservedFits(packet[o + OPT_FIXED..o + OPT_FIXED + rdlen]); }
    }
  }

  /** The body, the OPT record, and the option echoed in it. */
  function SentSize(body: nat, edns: bool, echo: Option<Subnet>): nat {
    body + if edns then 11 + EchoLen(echo) else 0
  }

  /** What the query's options take still fits in what the client accepts. */
  ghost predicate OptionsFit(req: Request, packet: Bytes, q: Question)
    requires |packet| >= HEADER
    reads req`useEdns
  {
    11 + ReservedBy(packet, HEADER + q.len, req.subnetsOn) <= req.Allowance(Advertised(packet, HEADER + q.len))
  }

  /** The limit that decoding left is the one this query is entitled to. */
  ghost predicate Entitled(req: Request, packet: Bytes, q: Question)
    requires |packet| >= HEADER
    reads req`useEdns, req`thisMax, req`echo
  {
    && 4096 <= req.maxResponse <= 64000 && req.useEdns == HasOpt(packet, HEADER + q.len)
    && req.echo == (if req.useEdns then EchoIn(packet, HEADER + q.len + 1, req.subnetsOn) else None)
    && req.LimitedTo(req.Allowance(Advertised(packet, HEADER + q.len)),
                     ReservedBy(packet, HEADER + q.len, req.subnetsOn))
  }

  /**
    The limit does what it is for, that whatever body it lets through the response stays within what the
    client accepts, exactly when the options fit: it is a 32-bit difference.
   */
  lemma LimitHolds(req: Request, packet: Bytes, q: Question)
    requires |packet| >= HEADER && Entitled(req, packet, q)
    ensures (forall body: nat :: body <= req.thisMax ==>
               SentSize(body, req.useEdns, req.echo) <= req.Allowance(Advertised(packet, HEADER + q.len))) <==>
            OptionsFit(req, packet, q)
  {
    var allowance := req.Allowance(Advertised(packet, HEADER + q.len));
    var reserved := ReservedBy(packet, HEADER + q.len, req.subnetsOn);
    ReservedBelow(packet, HEADER + q.len, req.subnetsOn);
    if OptionsFit(req, packet, q) {
      WrapNot(allowance, (if req.useEdns then 11 else 0) + reserved);
    } else {
      LimitWraps(allowance, 11 + reserved);
      assert SentSize(req.thisMax, req.useEdns, req.echo) > allowance;
    }
  }

  lemma LimitWraps(allowance: nat, taken: nat)
    requires allowance < taken < 0x20000
    ensures Wrap(allowance, taken) == U32 + allowance - taken
  {
    ModShift(allowance - taken, 1);
  }

  /** A client-subnet option with an empty prefix, and `n` of them. */
  const EMPTY_SUBNET: Bytes := [0x50, 0xFA, 0, 4, 0, 1, 0, 0]

  function EmptySubnets(n: nat): Bytes {
    if n == 0 then [] else EMPTY_SUBNET + EmptySubnets(n - 1)
  }

  lemma {:induction false} EmptySubnetsLength(n: nat)
    ensures |EmptySubnets(n)| == 8 * n
  {
    if n != 0 { EmptySubnetsLength(n - 1); }
  }

  lemma {:induction false} EmptySubnetsReserve(n: nat, d: Bytes)
    requires d == EmptySubnets(n)
    ensures Reserved(Options(d)) == 8 * n && !OptionsBad(d, true)
  {
    if n != 0 {
      var rest := EmptySubnets(n - 1);
      EmptySubnetsReserve(n - 1, rest);
      OneMoreSubnet(EMPTY_SUBNET, rest, d);
    }
  }

  lemma OneMoreSubnet(first: Bytes, rest: Bytes, d: Bytes)
    requires first == EMPTY_SUBNET && d == first + rest
    ensures Reserved(Options(d)) == 8 + Reserved(Options(rest)) && OptionsBad(d, true) == OptionsBad(rest, true)
  {
    assert d[0] == 0x50 && d[1] == 0xFA && d[2] == 0 && d[3] == 4 && d[8..] == rest;
    OptionsStep(d);
    EmptySubnetLegal(d[4..8]);
  }

  lemma EmptySubnetLegal(o: Bytes)
    requires |o| == 4 && o[0] == 0 && o[1] == 1 && o[2] == 0 && o[3] == 0
    ensures SubnetOf(o).Some? && EchoSize(SubnetOf(o).value) == 8
  {
  }

  /** A query for the root's addresses, from a client that accepts 512 bytes, with an OPT record that holds `d`. */
  function RootQuery(d: Bytes): Bytes {
    [0, 0, 0, 0, 0, 1, 0, 0, 0, 0, 0, 1] + [0, 0, 1, 0, 1] + [0, 0, 41, 2, 0, 0, 0, 0, 0] + U16(|d|) + d
  }

  const ROOT_QUESTION := Question([1, 0], 5, 1, false)

  lemma RootQueryAsks(d: Bytes)
    requires |d| < 0x10000
    ensures Answerable(RootQuery(d)) && Asks(RootQuery(d), ROOT_QUESTION)
    ensures HasOpt(RootQuery(d), HEADER + 5) && Advertised(RootQuery(d), HEADER + 5) == 512
    ensures ReservedBy(RootQuery(d), HEADER + 5, true) == Reserved(Options(d))
    ensures VerdictOn(RootQuery(d), ROOT_QUESTION, true) == if OptionsBad(d, true) then FormErr else Good
  {
    var p := RootQuery(d);
    U16RoundTrip(|d|);
    RootQueryBytes(d, p);
    RootAsked(p);
    RootOpt(d, p, HEADER + 5);
  }

  lemma RootOpt(d: Bytes, p: Bytes, offset: nat)
    requires |p| == 28 + |d| && offset == 17 && p[2] == 0 && p[10] == 0 && p[11] == 1
    requires p[17] == 0 && p[18] == 0 && p[19] == 41 && p[20] == 2 && p[21] == 0 && p[23] == 0
    requires U16Value(p[26], p[27]) == |d| && p[28..28 + |d|] == d
    ensures HasOpt(p, offset) && Advertised(p, offset) == 512
    ensures ReservedBy(p, offset, true) == Reserved(Options(d))
    ensures VerdictOn(p, ROOT_QUESTION, true) == if OptionsBad(d, true) then FormErr else Good
  {
    assert offset + 1 + OPT_FIXED == 28;
  }

  lemma RootQueryBytes(d: Bytes, p: Bytes)
    requires p == RootQuery(d)
    ensures |p| == 28 + |d| && p[28..28 + |d|] == d && p[26] == U16(|d|)[0] && p[27] == U16(|d|)[1]
    ensures p[2] == 0 && p[4] == 0 && p[5] == 1 && p[10] == 0 && p[11] == 1
    ensures p[12] == 0 && p[13] == 0 && p[14] == 1 && p[15] == 0 && p[16] == 1
    ensures p[17] == 0 && p[18] == 0 && p[19] == 41 && p[20] == 2 && p[21] == 0 && p[23] == 0
  {
  }

  lemma RootAsked(p: Bytes)
    requires |p| >= 28 && p[2] == 0 && p[4] == 0 && p[5] == 1
    requires p[12] == 0 && p[13] == 0 && p[14] == 1 && p[15] == 0 && p[16] == 1
    ensures Answerable(p) && Asks(p, ROOT_QUESTION)
  {
    var b := p[HEADER..];
    assert b[0] == 0 && b[1] == 0 && b[2] == 1 && b[3] == 0 && b[4] == 1;
    assert b[..1] == [0];
    assert NameAhead(b, 1);
  }

  /** Client-subnet options repeated in a query undo the limit exactly from the 63rd on. */
  lemma RepeatedSubnets(req: Request, n: nat)
    requires 8 * n < 0x10000 && req.isUdp && req.subnetsOn && req.useEdns && 4096 <= req.maxResponse
    ensures var packet := RootQuery(EmptySubnets(n));
            && |packet| >= HEADER && Answerable(packet) && Asks(packet, ROOT_QUESTION)
            && VerdictOn(packet, ROOT_QUESTION, true) == Good
            && (OptionsFit(req, packet, ROOT_QUESTION) <==> n <= 62)
  {
    EmptySubnetsLength(n);
    EmptySubnetsReserve(n, EmptySubnets(n));
    RootQueryAsks(EmptySubnets(n));
  }

  /** One option always fits. */
  lemma OneSubnetFits(req: Request, packet: Bytes, q: Question)
    requires |packet| >= HEADER && Entitled(req, packet, q) && SubnetsIn(packet, HEADER + q.len) <= 1
    ensures OptionsFit(req, packet, q)
  {
    var o := HEADER + q.len + 1;
    if HasOpt(packet, HEADER + q.len) && req.subnetsOn {
      var rdlen := U16Value(packet[o + 8], packet[o + 9]);
      if o + OPT_FIXED + rdlen <= |packet| { ReservedBound(Options(packet[o + OPT_FIXED..o + OPT_FIXED + rdlen])); }
    }
  }

  /** How many client-subnet options the query has. */
  ghost function SubnetsIn(packet: Bytes, offset: nat): nat
    requires |packet| >= HEADER
  {
    if HasOpt(packet, offset) then
      var o := offset + 1;
      var rdlen := U16Value(packet[o + 8], packet[o + 9]);
      if o + OPT_FIXED + rdlen > |packet| then 0 else SubnetCount(Options(packet[o + OPT_FIXED..o + OPT_FIXED + rdlen]))
    else 0
  }

  // ---- A whole query ----------------------------------------------------------------------------

  const CHAOS_ANSWER: Bytes := [0xC0, 0x0C, 0, 16, 0, 3, 0, 0, 0, 0, 0, 6, 5, 0x67, 0x64, 0x6E, 0x73, 0x64]

  const FORMERR := 1
  const NOTIMP := 4

  /** Options of the server, and the scope a plugin gave for the client's subnet. */
  datatype Settings = Settings(maxCnameDepth: nat, optionalNs: bool, scope: Byte)

  lemma ChaosIsRecord(p: Bytes)
    requires HEADER <= |p|
    ensures SkipRecords(p + CHAOS_ANSWER, |p|, 1) == Some(|p + CHAOS_ANSWER|)
  {
    var r := p + CHAOS_ANSWER;
    assert r[|p|] == 0xC0 && r[|p| + 1] == 0x0C && r[|p| + 10] == 0 && r[|p| + 11] == 6;
    assert SkipRecord(r, |p|) == Some(|r|);
    assert SkipRecords(r, |r|, 0) == Some(|r|);
  }

  /** The question as the response starts with it, and the name to look up. */
  method Restate(c: Context, packet: Bytes, q: Question)
    requires HEADER <= |packet| && Asks(packet, q)
    modifies c
    ensures q.len <= 259 && c.packet == packet[..HEADER + q.len] && c.qend == HEADER + q.len
    ensures IsDname(q.name) && QuestionLiteral(c.packet, q.name[1..]) && Ok(c) && c.records == [] && NoExtras(c)
  {
    var n := q.len - 4;
    ghost var w := packet[HEADER..][..n];
    LoweredName(w);
    var question := packet[..HEADER + q.len];
    assert w == question[HEADER..HEADER + n];
    assert q.name[1..] == Lowered(w);
    Begin(c, question, q.name[1..]);
  }

  /** What is sent is within the allowance, for a body that is within the limit or is short. */
  lemma SizeWithin(body: nat, limit: nat, allowance: nat, reserved: nat, edns: bool, echo: Option<Subnet>)
    requires 512 <= allowance < U32 && 11 + reserved <= allowance && (edns || reserved == 0)
    requires echo.Some? ==> SubnetLegal(echo.value) && EchoSize(echo.value) <= reserved
    requires limit == Wrap(allowance, (if edns then 11 else 0) + reserved)
    requires body <= limit || body <= QUESTION_MAX + |CHAOS_ANSWER|
    ensures SentSize(body, edns, echo) <= allowance
  {
    WrapNot(allowance, (if edns then 11 else 0) + reserved);
  }

  /** The response's size is right whenever what is set aside for options fits. */
  ghost predicate SizeRight(out: Bytes, req: Request, packet: Bytes, q: Question)
    requires |packet| >= HEADER
    reads req`useEdns
  {
    OptionsFit(req, packet, q) ==> |out| <= req.Allowance(Advertised(packet, HEADER + q.len))
  }

  lemma GoodSize(out: Bytes, req: Request, packet: Bytes, q: Question, body: nat)
    requires |packet| >= HEADER && Entitled(req, packet, q) && |out| == SentSize(body, req.useEdns, req.echo)
    requires body <= req.thisMax || body <= QUESTION_MAX + |CHAOS_ANSWER|
    ensures SizeRight(out, req, packet, q)
  {
    var allowance := req.Allowance(Advertised(packet, HEADER + q.len));
    var reserved := ReservedBy(packet, HEADER + q.len, req.subnetsOn);
    if 11 + reserved <= allowance {
      SizeWithin(body, req.thisMax, allowance, reserved, req.useEdns, req.echo);
    }
  }

  /** The query is in error: the question comes back, with the code for it. */
  ghost predicate Rejected(out: Bytes, req: Request, packet: Bytes, q: Question, v: Verdict, st: Settings)
    requires |packet| >= HEADER && HEADER + q.len <= |packet|
    reads req`useEdns, req`echo
  {
    && Finished(out, packet, packet[..HEADER + q.len],
                Fields(false, false, if v == FormErr then FORMERR else NOERROR, 0, 0, 0),
                req.useEdns, v == BadVers, req.echo, st.scope)
    && SizeRight(out, req, packet, q) && CountsRight(out, HEADER + q.len)
  }

  /** The query is in class CHAOS, which has one answer. */
  ghost predicate AnsweredChaos(out: Bytes, req: Request, packet: Bytes, q: Question, st: Settings)
    requires |packet| >= HEADER && HEADER + q.len <= |packet|
    reads req`useEdns, req`echo
  {
    && Finished(out, packet, packet[..HEADER + q.len] + CHAOS_ANSWER, Fields(false, false, NOERROR, 1, 0, 0),
                req.useEdns, false, req.echo, st.scope)
    && SizeRight(out, req, packet, q) && CountsRight(out, HEADER + q.len)
  }

  /** The response that did not fit is cut to the question, and its counts are right only without CNAMEs. */
  ghost predicate SentShort(out: Bytes, packet: Bytes, q: Question, h: Fields, run: Run)
    requires HEADER + q.len <= |packet|
  {
    && run.final.shot.packet == packet[..HEADER + q.len]
    && h == Fields(run.reply.aa, true, run.reply.rcode, |run.t.ns|, 0, 0)
    && (CountsRight(out, HEADER + q.len) <==> run.t.ns == [])
  }

  /** In what is sent the response, all its records and the additional ones are read. */
  ghost predicate ReadWhole(out: Bytes, xs: seq<Extra>, max: nat, db: Db, query: Query, run: Run)
    requires DbOk(db)
  {
    && Prepared(run.shot.(packet := out), max, db, query, run) && AllRead(out, run.shot.records)
    && (|run.w.body| <= POINTER_SPAN ==> ExtrasRead(out, |run.w.body|, xs))
  }

  /**
    The whole response is sent, with as many whole additional rrsets as fit; every record is read in what is
    sent, and the counts are right.
   */
  ghost predicate SentWhole(out: Bytes, q: Question, h: Fields, max: nat, db: Db, query: Query, run: Run, limit: nat)
    requires DbOk(db)
  {
    && h == CountsOf(run.reply, run.final, false)
    && Fitted(run.final, run.w, limit, run.n) && run.final.shot == run.shot.(packet := run.final.shot.packet)
    && RightlyRead(out, HEADER + q.len, max, db, query, run)
  }

  /** A reader finds the response in what is sent, record by record, and as many records as the header says. */
  ghost predicate RightlyRead(out: Bytes, qend: nat, max: nat, db: Db, query: Query, run: Run)
    requires DbOk(db)
  {
    && ReadWhole(out, run.final.store.extras.records, max, db, query, run)
    && Contiguous(qend, run.shot.records, |run.w.body|)
    && (|run.w.body| <= POINTER_SPAN && |out| < 0x10000 ==> CountsRight(out, qend))
  }

  /** What the header is to say of a response. */
  ghost function CountsOf(reply: Reply, f: Final, tc: bool): Fields {
    Fields(reply.aa, tc, reply.rcode, f.shot.cnameAncount + f.shot.ancount, f.shot.nscount, f.arcount)
  }

  /** The chain starts at the question's name. */
  ghost predicate AskedFor(q: Question, run: Run) {
    IsDname(q.name) && run.t.question == LabelsAt(q.name[1..], 0)
  }

  /** Before it is made to fit, the response is what the database has for the packet's question. */
  ghost predicate Composed(packet: Bytes, q: Question, st: Settings, max: nat, db: Db, run: Run)
    requires HEADER + q.len <= |packet| && DbOk(db)
  {
    && AskedFor(q, run) && |run.t.ns| <= st.maxCnameDepth && packet[..HEADER + q.len] <= run.w.body
    && Drafted(run, HEADER + q.len, max, db, Query(q.qtype, st.optionalNs))
  }

  /** The response to the packet's question, with at most `max` additional rrsets. */
  ghost predicate Answered(out: Bytes, max: nat, req: Request, packet: Bytes, q: Question, h: Fields, st: Settings,
                           db: Db, run: Run)
    requires |packet| >= HEADER && HEADER + q.len <= |packet| && DbOk(db)
    reads req`useEdns, req`echo, req`thisMax
  {
    && Composed(packet, q, st, max, db, run)
    && Finished(out, packet, run.final.shot.packet, h, req.useEdns, false, req.echo, st.scope)
    && SizeRight(out, req, packet, q)
    && if Fits(run.w, req.thisMax) then
         SentWhole(out, q, h, max, db, Query(q.qtype, st.optionalNs), run, req.thisMax)
       else SentShort(out, packet, q, h, run)
  }

  /**
    `process_dns_query`.  A chain over the depth limit, which only dynamic CNAMEs can make, is not
    followed to what is then sent.
   */
  method ProcessQuery(c: Context, req: Request, tree: LTree, data: seq<seq<Rrset>>, packet: Bytes, st: Settings,
                      ghost db: Db)
    returns (out: Bytes, v: Verdict, q: Question, h: Fields, over: bool, ghost run: Run)
    requires Serving(tree, data, db)
    requires |packet| >= HEADER && req.IsReset() && 4096 <= req.maxResponse <= 64000
    requires st.maxCnameDepth <= MAX_CNAME_DEPTH
    modifies c, req
    ensures v == Ignore <==> !Answerable(packet)
    ensures v == Ignore ==> out == []
    ensures v != Ignore ==> Asks(packet, q) && v == VerdictOn(packet, q, req.subnetsOn)
    ensures v == NotImp ==> out == HeaderFor(packet, Fields(false, false, NOTIMP, 0, 0, 0), 0)
    ensures v == FormErr || v == BadVers ==> Refused(out, req, packet, q, v, st)
    ensures v == Good && q.chaos ==> Entitled(req, packet, q) && AnsweredChaos(out, req, packet, q, st)
    ensures over ==> v == Good && !q.chaos
    ensures v == Good && !q.chaos ==> Served(out, c.maxAddtl, req, packet, q, h, st, db, over, run)
  {
    over := false;
    h := Fields(false, false, NOERROR, 0, 0, 0);
    out, run := [], *;
    v, q := req.DecodeQuery(packet);
    if v == Good && !q.chaos {
      QuestionShort(packet, q);
      out, h, over, run := Serve(c, req, tree, data, packet, q, st, db);
    } else if v != Ignore {
      out := ServeFixed(req, packet, q, v, st);
    }
  }

  /** The packet's OPT record is in error, or of another version. */
  ghost predicate Refused(out: Bytes, req: Request, packet: Bytes, q: Question, v: Verdict, st: Settings)
    requires |packet| >= HEADER && HEADER + q.len <= |packet|
    reads req`useEdns, req`echo
  {
    && HasOpt(packet, HEADER + q.len) && req.useEdns
    && req.echo == (if v == BadVers then None else EchoIn(packet, HEADER + q.len + 1, req.subnetsOn))
    && Rejected(out, req, packet, q, v, st)
  }

  /** The database has been asked: the response, or a chain that was given up. */
  ghost predicate Served(out: Bytes, max: nat, req: Request, packet: Bytes, q: Question, h: Fields, st: Settings,
                         db: Db, over: bool, run: Run)
    requires |packet| >= HEADER && HEADER + q.len <= |packet| && DbOk(db)
    reads req`useEdns, req`echo, req`thisMax
  {
    && Entitled(req, packet, q)
    && if over then GivenUp(db, Query(q.qtype, st.optionalNs), run, st.maxCnameDepth) && AskedFor(q, run)
       else Answered(out, max, req, packet, q, h, st, db, run)
  }

  /** A response that does not depend on the database. */
  method ServeFixed(req: Request, packet: Bytes, q: Question, v: Verdict, st: Settings) returns (out: Bytes)
    requires |packet| >= HEADER && Asks(packet, q) && 4096 <= req.maxResponse && v != Ignore
    requires v == Good ==> Entitled(req, packet, q)
    requires v == FormErr || v == BadVers ==> req.useEdns && (req.echo.Some? ==> SubnetLegal(req.echo.value))
    ensures v == NotImp ==> out == HeaderFor(packet, Fields(false, false, NOTIMP, 0, 0, 0), 0)
    ensures v == Good ==> AnsweredChaos(out, req, packet, q, st)
    ensures v == FormErr || v == BadVers ==> Rejected(out, req, packet, q, v, st)
  {
    QuestionShort(packet, q);
    if v == NotImp {
      out := HeaderFor(packet, Fields(false, false, NOTIMP, 0, 0, 0), 0);
    } else if v == Good {
      out := ServeChaos(req, packet, q, st);
    } else {
      out := Reject(req, packet, q, v, st);
    }
  }

  lemma QuestionShort(packet: Bytes, q: Question)
    requires |packet| >= HEADER && Asks(packet, q)
    ensures q.len <= 259 && IsDname(q.name)
  {
    LoweredName(packet[HEADER..][..q.len - 4]);
  }

  /** The response to a query that is in error: the question and the OPT record. */
  method Reject(req: Request, packet: Bytes, q: Question, v: Verdict, st: Settings) returns (out: Bytes)
    requires |packet| >= HEADER && HEADER + q.len <= |packet| && q.len <= 259 && 4096 <= req.maxResponse
    requires req.useEdns && (req.echo.Some? ==> SubnetLegal(req.echo.value))
    ensures Rejected(out, req, packet, q, v, st)
  {
    var body, h := packet[..HEADER + q.len], Fields(false, false, if v == FormErr then FORMERR else NOERROR, 0, 0, 0);
    out := Finish(packet, body, h, req.useEdns, v == BadVers, req.echo, st.scope);
    SentTotal(out, packet, body, h, req.useEdns, v == BadVers, req.echo, st.scope);
    SentCounts(out, packet, body, h, HEADER + q.len, req.useEdns, v == BadVers, req.echo, st.scope);
  }

  method ServeChaos(req: Request, packet: Bytes, q: Question, st: Settings) returns (out: Bytes)
    requires |packet| >= HEADER && HEADER + q.len <= |packet| && q.len <= 259 && Entitled(req, packet, q)
    ensures AnsweredChaos(out, req, packet, q, st)
  {
    var body, h := packet[..HEADER + q.len] + CHAOS_ANSWER, Fields(false, false, NOERROR, 1, 0, 0);
    ChaosIsRecord(packet[..HEADER + q.len]);
    out := Finish(packet, body, h, req.useEdns, false, req.echo, st.scope);
    SentTotal(out, packet, body, h, req.useEdns, false, req.echo, st.scope);
    SentCounts(out, packet, body, h, HEADER + q.len, req.useEdns, false, req.echo, st.scope);
    SizeSent(out, body, req, packet, q, h, st);
  }

  /** The answer from the database. */
  method Serve(c: Context, req: Request, tree: LTree, data: seq<seq<Rrset>>, packet: Bytes, q: Question, st: Settings,
               ghost db: Db)
    returns (out: Bytes, h: Fields, over: bool, ghost run: Run)
    requires Serving(tree, data, db)
    requires |packet| >= HEADER && Asks(packet, q) && Entitled(req, packet, q) && st.maxCnameDepth <= MAX_CNAME_DEPTH
    modifies c
    ensures Served(out, c.maxAddtl, req, packet, q, h, st, db, over, run)
  {
    out := [];
    h, over, run := AnswerGood(c, req.thisMax, tree, data, packet, q, st, db);
    if !over {
      out := Finish(packet, c.packet, h, req.useEdns, false, req.echo, st.scope);
      IsAnswered(out, c.maxAddtl, req, packet, q, h, st, db, run);
    }
  }

  /** The answer is ready to be sent: whole, or cut to the question. */
  ghost predicate Ready(max: nat, limit: nat, packet: Bytes, q: Question, h: Fields, st: Settings, db: Db, run: Run)
    requires DbOk(db) && HEADER + q.len <= |packet|
  {
    && Composed(packet, q, st, max, db, run) && q.len <= 259 && st.maxCnameDepth <= MAX_CNAME_DEPTH
    && run.final.qend == HEADER + q.len && h == CountsOf(run.reply, run.final, !Fits(run.w, limit))
    && MadeToFit(run, packet[..HEADER + q.len], limit)
  }

  method AnswerGood(c: Context, limit: nat, tree: LTree, data: seq<seq<Rrset>>, packet: Bytes, q: Question,
                    st: Settings, ghost db: Db)
    returns (h: Fields, over: bool, ghost run: Run)
    requires Serving(tree, data, db)
    requires |packet| >= HEADER && Asks(packet, q) && st.maxCnameDepth <= MAX_CNAME_DEPTH
    modifies c
    ensures over ==> GivenUp(db, Query(q.qtype, st.optionalNs), run, st.maxCnameDepth) && AskedFor(q, run)
    ensures !over ==> Ready(c.maxAddtl, limit, packet, q, h, st, db, run)
    ensures !over ==> |c.packet| >= HEADER && run.final.shot.packet == c.packet
  {
    var reply, tc;
    var query := Query(q.qtype, st.optionalNs);
    reply, tc, run := Compose(c, limit, tree, data, packet, q, query, st.maxCnameDepth, db);
    h := Fields(reply.aa, tc, reply.rcode, c.cnameAncount + c.ancount, c.nscount, c.arcount);
    over := reply.end == OverDepth;
    if !over {
      IsReady(c.maxAddtl, limit, packet, q, h, st, db, query, run, tc);
    }
  }

  /** The question, and the response to it. */
  method Compose(c: Context, limit: nat, tree: LTree, data: seq<seq<Rrset>>, packet: Bytes, q: Question, query: Query,
                 max: nat, ghost db: Db)
    returns (reply: Reply, tc: bool, ghost run: Run)
    requires Serving(tree, data, db) && |packet| >= HEADER && Asks(packet, q) && max <= MAX_CNAME_DEPTH
    modifies c
    ensures run.reply == reply && AskedFor(q, run) && (reply.end == OverDepth ==> GivenUp(db, query, run, max))
    ensures reply.end != OverDepth ==>
              && q.len <= 259 && |run.t.ns| <= max && packet[..HEADER + q.len] <= run.w.body
              && c.qend == HEADER + q.len && Drafted(run, c.qend, c.maxAddtl, db, query)
    ensures reply.end != OverDepth ==>
              && (tc <==> !Fits(run.w, limit)) && run.final == FinalOf(c)
              && MadeToFit(run, packet[..HEADER + q.len], limit)
  {
    Restate(c, packet, q);
    ghost var question := packet[..HEADER + q.len];
    assert c.packet == question;
    reply, tc, run := AnswerOuter(c, tree, data, q.name, query, max, limit, db);
  }

  lemma IsReady(max: nat, limit: nat, packet: Bytes, q: Question, h: Fields, st: Settings, db: Db, query: Query,
                run: Run, tc: bool)
    requires DbOk(db) && HEADER + q.len <= |packet| && q.len <= 259 && st.maxCnameDepth <= MAX_CNAME_DEPTH
    requires AskedFor(q, run) && |run.t.ns| <= st.maxCnameDepth && packet[..HEADER + q.len] <= run.w.body
    requires Drafted(run, run.final.qend, max, db, query) && query == Query(q.qtype, st.optionalNs)
    requires run.final.qend == HEADER + q.len && tc == !Fits(run.w, limit) && h == CountsOf(run.reply, run.final, tc)
    requires MadeToFit(run, packet[..HEADER + q.len], limit)
    ensures Ready(max, limit, packet, q, h, st, db, run) && |run.final.shot.packet| >= HEADER
  {
  }

  /** With the OPT record and the header, what is sent is the response. */
  lemma IsAnswered(out: Bytes, max: nat, req: Request, packet: Bytes, q: Question, h: Fields, st: Settings, db: Db,
                   run: Run)
    requires |packet| >= HEADER && HEADER + q.len <= |packet| && Entitled(req, packet, q)
    requires DbOk(db) && Ready(max, req.thisMax, packet, q, h, st, db, run)
    requires Finished(out, packet, run.final.shot.packet, h, req.useEdns, false, req.echo, st.scope)
    ensures Answered(out, max, req, packet, q, h, st, db, run)
  {
    if Fits(run.w, req.thisMax) {
      FittedReads(run.final, run.w, req.thisMax, run.n);
      WholeSent(out, max, req, packet, q, h, st, db, Query(q.qtype, st.optionalNs), run);
    } else {
      ShortSent(out, req, packet, q, h, st, run);
    }
  }

  lemma ShortSent(out: Bytes, req: Request, packet: Bytes, q: Question, h: Fields, st: Settings, run: Run)
    requires |packet| >= HEADER && HEADER + q.len <= |packet| && q.len <= 259 && Entitled(req, packet, q)
    requires CutShort(run.final, packet[..HEADER + q.len], |run.t.ns|) && |run.t.ns| <= MAX_CNAME_DEPTH
    requires h == CountsOf(run.reply, run.final, true)
    requires Finished(out, packet, run.final.shot.packet, h, req.useEdns, false, req.echo, st.scope)
    ensures SentShort(out, packet, q, h, run) && SizeRight(out, req, packet, q)
  {
    SizeSent(out, run.final.shot.packet, req, packet, q, h, st);
    TruncatedCounts(out, packet, run.final.shot.packet, h, req.useEdns, req.echo, st.scope);
  }

  lemma FittedReads(f: Final, w: Whole, limit: nat, n: nat)
    requires Fitted(f, w, limit, n)
    ensures w.body <= f.shot.packet && |f.shot.packet| <= limit && Readable(f, |w.body|)
  {
  }

  lemma WholeSent(out: Bytes, max: nat, req: Request, packet: Bytes, q: Question, h: Fields, st: Settings, db: Db,
                  query: Query, run: Run)
    requires |packet| >= HEADER && HEADER + q.len <= |packet| && Entitled(req, packet, q)
    requires DbOk(db) && Prepared(run.shot, max, db, query, run) && run.shot.packet == run.w.body
    requires HEADER + q.len <= |run.w.body| && run.final.qend == HEADER + q.len
    requires run.w.body <= run.final.shot.packet && |run.final.shot.packet| <= req.thisMax
    requires Readable(run.final, |run.w.body|) && run.final.shot.records == run.shot.records
    requires h == CountsOf(run.reply, run.final, false)
    requires Finished(out, packet, run.final.shot.packet, h, req.useEdns, false, req.echo, st.scope)
    ensures RightlyRead(out, HEADER + q.len, max, db, query, run) && SizeRight(out, req, packet, q)
  {
    FinishedAnswer(out, packet, run.final.shot.packet, h, req.useEdns, req.echo, st.scope,
                   run.final.store.extras.records, max, db, query, run);
    WholeCounted(out, req, packet, q, h, st, run.final, |run.w.body|, run.reply);
  }

  lemma WholeCounted(out: Bytes, req: Request, packet: Bytes, q: Question, h: Fields, st: Settings, f: Final, body: nat,
                     reply: Reply)
    requires |packet| >= HEADER && HEADER + q.len <= |packet| && Entitled(req, packet, q)
    requires f.qend == HEADER + q.len <= |f.shot.packet| <= req.thisMax && Readable(f, body)
    requires h == CountsOf(reply, f, false)
    requires Finished(out, packet, f.shot.packet, h, req.useEdns, false, req.echo, st.scope)
    ensures SizeRight(out, req, packet, q)
    ensures body <= POINTER_SPAN && |out| < 0x10000 ==> CountsRight(out, HEADER + q.len)
  {
    SizeSent(out, f.shot.packet, req, packet, q, h, st);
    ReadableCounts(f, body, h, reply);
    CountsSent(out, f.shot.packet, packet, h, body, HEADER + q.len, req.useEdns, req.echo, st.scope);
  }

  lemma ReadableCounts(f: Final, body: nat, h: Fields, reply: Reply)
    requires Readable(f, body) && h == CountsOf(reply, f, false)
    ensures body <= POINTER_SPAN ==> SkipRecords(f.shot.packet, f.qend, h.an + h.ns + h.ar) == Some(|f.shot.packet|)
  {
  }

  lemma CountsSent(out: Bytes, sent: Bytes, packet: Bytes, h: Fields, body: nat, qend: nat, edns: bool,
                   echo: Option<Subnet>, scope: Byte)
    requires Finished(out, packet, sent, h, edns, false, echo, scope) && HEADER <= qend <= |sent|
    requires body <= POINTER_SPAN ==> SkipRecords(sent, qend, h.an + h.ns + h.ar) == Some(|sent|)
    ensures body <= POINTER_SPAN && |out| < 0x10000 ==> CountsRight(out, qend)
  {
    if body <= POINTER_SPAN && |out| < 0x10000 {
      SentCounts(out, packet, sent, h, qend, edns, false, echo, scope);
    }
  }

  lemma SizeSent(out: Bytes, body: Bytes, req: Request, packet: Bytes, q: Question, h: Fields, st: Settings)
    requires |packet| >= HEADER && Entitled(req, packet, q)
    requires Finished(out, packet, body, h, req.useEdns, false, req.echo, st.scope)
    requires |body| <= req.thisMax || |body| <= QUESTION_MAX + |CHAOS_ANSWER|
    ensures SizeRight(out, req, packet, q)
  {
    SentTotal(out, packet, body, h, req.useEdns, false, req.echo, st.scope);
    GoodSize(out, req, packet, q, |body|);
  }

  lemma FinishedAnswer(out: Bytes, packet: Bytes, body: Bytes, h: Fields, edns: bool, echo: Option<Subnet>, scope: Byte,
                       xs: seq<Extra>, max: nat, db: Db, query: Query, run: Run)
    requires Finished(out, packet, body, h, edns, false, echo, scope) && HEADER <= |run.w.body|
    requires DbOk(db) && Prepared(run.shot, max, db, query, run) && run.shot.packet == run.w.body
    requires run.w.body <= body && AllRead(body, run.shot.records)
    requires |run.w.body| <= POINTER_SPAN ==> ExtrasRead(body, |run.w.body|, xs)
    ensures ReadWhole(out, xs, max, db, query, run)
  {
    SealedAnswer(out, HeaderFor(packet, Counting(h, edns), 1), OptIf(edns, false, echo, scope), body, xs, max, db,
      query, run);
  }

  /** In what is sent, the response and its records are read as in the body. */
  lemma SealedAnswer(out: Bytes, header: Bytes, opt: Bytes, body: Bytes, xs: seq<Extra>, max: nat, db: Db,
                     query: Query, run: Run)
    requires DbOk(db) && Prepared(run.shot, max, db, query, run) && |header| == HEADER <= |run.shot.packet|
    requires run.shot.packet <= body && out == Sealed(header, body, opt) && AllRead(body, run.shot.records)
    ensures Prepared(run.shot.(packet := out), max, db, query, run) && AllRead(out, run.shot.records)
    ensures ExtrasRead(body, |run.shot.packet|, xs) ==> ExtrasRead(out, |run.shot.packet|, xs)
  {
    PreparedGrows(run.shot, body, max, db, query, run);
    SealedPrepared(header, opt, run.shot.(packet := body), max, db, query, run);
    SealedItems(header, body, opt, run.shot.records, |run.shot.packet|, xs);
  }
}
