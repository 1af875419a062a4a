/**
  A query whose response is cut short behind a CNAME: the header of what is sent counts a
  record that is not there.
 */
module Miscounted {
  import opened Names
  import opened Decoder
  import opened Compression
  import opened Message
  import opened Sections
  import opened Records
  import opened Additional
  import opened Encoder
  import opened LookupRule
  import opened LabelTree
  import opened CnameChain
  import opened Response
  import opened Answering
  import opened Truncation
  import opened QueryDecoder
  import opened Process

  const TYPE_TXT := 16
  const LABEL_A: Label := [0x61]
  const LABEL_B: Label := [0x62]
  const WIRE_A: Bytes := [1, 0x61, 0]
  const WIRE_B: Bytes := [1, 0x62, 0]
  const TTL: Bytes := [0, 0, 0, 60]

  function Zeros(n: nat): Bytes { seq(n, _ => 0) }

  // ---- The zone: the root, with "a. CNAME b." and a long text at "b." -------------------------

  const TREE := LookupRule.View([map[LABEL_A := 1, LABEL_B := 2], map[], map[]],
                                [Flags(true, true, false, false), Flags(true, false, false, false),
                                 Flags(true, false, false, false)])

  const SOA := RrData([0, 6, 0, 1] + TTL, [Compressed([0]), Compressed([0]), Raw(Zeros(20))], None, false)
  const NS := RrData([0, 2, 0, 1] + TTL, [Compressed([0])], None, false)
  const TXT := RrData([0, 16, 0, 1] + TTL, [Raw(Zeros(600))], None, false)

  const ROOT_SETS := [PlainRrset(TYPE_SOA, [SOA]), PlainRrset(TYPE_NS, [NS])]
  const A_SETS := [CnameRrset([3] + WIRE_B, TTL, true)]
  const B_SETS := [PlainRrset(TYPE_TXT, [TXT])]

  const ZONE := Db(TREE, [ROOT_SETS, A_SETS, B_SETS])

  lemma WireNames()
    ensures IsWire(WIRE_A) && IsWire(WIRE_B) && IsWire([0])
    ensures LabelsAt(WIRE_A, 0) == [LABEL_A] && LabelsAt(WIRE_B, 0) == [LABEL_B]
    ensures IsDname([3] + WIRE_B) && ([3] + WIRE_B)[1..] == WIRE_B && IsDname([3] + WIRE_A)
    ensures ([3] + WIRE_A)[1..] == WIRE_A
  {
    assert WireAt(WIRE_A, 2) && WireAt(WIRE_B, 2);
    assert LabelsAt(WIRE_A, 2) == [] && LabelsAt(WIRE_B, 2) == [];
    assert WIRE_A[1..2] == LABEL_A && WIRE_B[1..2] == LABEL_B;
    assert ([3] + WIRE_B)[1..] == WIRE_B && ([3] + WIRE_A)[1..] == WIRE_A;
  }

  lemma SetsLegal()
    ensures NodeLegal(ROOT_SETS) && NodeLegal(A_SETS) && NodeLegal(B_SETS)
  {
    WireNames();
    assert PartsSize(TXT.parts[1..]) == 0 && PartsSize(NS.parts[1..]) == 0;
    assert SOA.parts[1..][1..][1..] == [] && SOA.parts[1..][1..][0] == SOA.parts[2] &&
      SOA.parts[1..][0] == SOA.parts[1];
    assert RrDataLegal(TXT) && RrDataLegal(NS) && RrDataLegal(SOA);
    assert RrsLegal([TXT]) && RrsLegal([NS]) && RrsLegal([SOA]);
  }

  lemma ZoneOk()
    ensures DbOk(ZONE)
  {
    SetsLegal();
    assert ROOT_SETS[0].rtype == TYPE_SOA && ROOT_SETS[1].rtype == TYPE_NS;
    assert HasType(ROOT_SETS, TYPE_SOA) && HasType(ROOT_SETS, TYPE_NS);
    assert SoundAt(ZONE, 0) && SoundAt(ZONE, 1) && SoundAt(ZONE, 2);
  }

  /** The search for a name of one label that the root has. */
  lemma OneLabel(l: Label, i: nat)
    requires (l == LABEL_A && i == 1) || (l == LABEL_B && i == 2)
    ensures ViewOk(TREE) && RunAnswer(TREE, [l], Auth, Some(i), Some(0), 0) && Crosses(TREE, [l], 0)
  {
    var name := [l];
    assert NodeAt(TREE, name, 0) == Some(0) && NodeAt(TREE, name, 1) == Some(i);
    assert CutAt(TREE, name, 0) && RootAt(TREE, name, 0) && !CutAt(TREE, name, 1) && !RootAt(TREE, name, 1);
    assert DeepestCut(TREE, name, 1, 0) && DeepestZone(TREE, name, 1, 0);
    assert IsEncloser(TREE, name, 1) && RunAnswerAt(TREE, name, 1, Auth, Some(i), Some(0), 0);
  }

  // ---- The query: the text at "a.", by UDP without an OPT record ------------------------------

  const PACKET: Bytes := [0, 0, 0, 0, 0, 1, 0, 0, 0, 0, 0, 0, 1, 0x61, 0, 0, 16, 0, 1]
  const QUESTION := Question([3, 1, 0x61, 0], 7, TYPE_TXT, false)

  lemma QueryAsks(subnetsOn: bool)
    ensures Answerable(PACKET) && Asks(PACKET, QUESTION) && VerdictOn(PACKET, QUESTION, subnetsOn) == Good
    ensures !HasOpt(PACKET, HEADER + 7)
  {
    WireNames();
    var b := PACKET[HEADER..];
    assert b[..3] == WIRE_A && Lowered(b[..3]) == WIRE_A && QUESTION.name == [3] + WIRE_A;
    assert NameAhead(b, 3);
  }

  // ---- Every response to it ----------------------------------------------------------------------

  /** The chain is the one CNAME, and the text is found at its end. */
  lemma ThroughCname(s: Shot, query: Query, reply: Reply, t: Trail, cut: nat, answered: seq<Item>)
    requires DbOk(ZONE) && Responded(s, ZONE, query, reply, t, cut, answered)
    requires query.qtype == TYPE_TXT && t.question == [LABEL_A]
    ensures t.ns == [1] && reply.end == AtName && reply.found.status == Auth && reply.found.node == Some(2)
  {
    HasEnded(s, ZONE, query, reply, t, cut, answered);
    TrailIs(t);
    OneLabel(LABEL_A, 1);
    OneLabel(LABEL_B, 2);
    assert CnameOf(A_SETS).Some?;
    var f := reply.found;
    if t.ns == [] {
      RunAnswerUnique(TREE, [LABEL_A], f.status, f.node, f.zone, cut, Auth, Some(1), Some(0), 0);
    } else if reply.end == AtName {
      RunAnswerUnique(TREE, [LABEL_B], f.status, f.node, f.zone, cut, Auth, Some(2), Some(0), 0);
    }
  }

  /** No trail from "a." goes further than its CNAME. */
  lemma TrailIs(t: Trail)
    requires DbOk(ZONE) && TrailOk(ZONE, t) && t.question == [LABEL_A]
    ensures t.ns == [] || (t.ns == [1] && t.zs == [0] && NameAfter(ZONE, t, 1) == [LABEL_B])
  {
    WireNames();
    OneLabel(LABEL_A, 1);
    OneLabel(LABEL_B, 2);
    if t.ns != [] {
      Leads(ZONE, t, 0);
      var s, c :| RunAnswer(TREE, [LABEL_A], s, Some(t.ns[0]), Some(t.zs[0]), c);
      RunAnswerUnique(TREE, [LABEL_A], s, Some(t.ns[0]), Some(t.zs[0]), c, Auth, Some(1), Some(0), 0);
      assert HeadsOf(ZONE.data)[1] == HeadOf(A_SETS) == StaticCname([3] + WIRE_B);
      assert NameAfter(ZONE, t, 1) == [LABEL_B];
      assert CnameOf(B_SETS).None?;
      if |t.ns| > 1 {
        Leads(ZONE, t, 1);
        LinkOnTrail(ZONE, t, 1);
        var s', c' :| RunAnswer(TREE, [LABEL_B], s', Some(t.ns[1]), Some(t.zs[1]), c');
        RunAnswerUnique(TREE, [LABEL_B], s', Some(t.ns[1]), Some(t.zs[1]), c', Auth, Some(2), Some(0), 0);
      }
    }
  }

  /** The answer holds the text, so it is long. */
  lemma LongAnswer(run: Run, qend: nat, max: nat, query: Query)
    requires DbOk(ZONE) && Drafted(run, qend, max, ZONE, query) && query.qtype == TYPE_TXT
    requires run.t.ns == [1] && run.reply.end == AtName && run.reply.found.status == Auth
    requires run.reply.found.node == Some(2)
    ensures |run.w.body| > 600
  {
    TextShown(run.shot, run.reply.found, query, run.answered);
    assert ItemReads(run.w.body, run.shot.records[1]);
    LongItem(run.w.body, run.shot.records[1]);
  }

  lemma TextShown(s: Shot, f: Found, query: Query, answered: seq<Item>)
    requires AuthShown(s, ZONE, f, query, 1, answered) && f.node == Some(2) && query.qtype == TYPE_TXT
    ensures |s.records| > 1 && s.records[1].rr.parts == TXT.parts
  {
    assert Matches(B_SETS[0], TYPE_TXT) && Asked(B_SETS, TYPE_TXT) == Some(B_SETS[0]);
    TextAt(answered, s.qnameComp);
    assert s.records[1] == answered[1];
  }

  lemma TextAt(rs: seq<Item>, owner: nat)
    requires PlainShown(rs, 1, owner, [TXT])
    ensures |rs| > 1 && rs[1].rr == RrOf(owner, TXT)
  {
    var start: nat :| PlainShownAt(rs, 1, owner, [TXT], start);
  }

  lemma LongItem(p: Bytes, it: Item)
    requires ItemReads(p, it) && it.rr.parts == TXT.parts
    ensures |p| > 600
  {
    assert PartReads(p, it.body + 10, it.rr.parts[0]);
  }

  /**
    Whatever the server chooses freely, its response to the query is cut to the question, and the header
    counts the CNAME that led to it.
   */
  lemma CnameStillCounted(out: Bytes, max: nat, req: Request, h: Fields, st: Settings, over: bool, run: Run)
    requires DbOk(ZONE) && Asks(PACKET, QUESTION) && req.isUdp && 0 < st.maxCnameDepth
    requires Served(out, max, req, PACKET, QUESTION, h, st, ZONE, over, run)
    ensures !over && h.tc && h.an == 1 && !CountsRight(out, HEADER + 7)
  {
    QueryAsks(req.subnetsOn);
    WireNames();
    assert QUESTION.name == [3] + WIRE_A;
    if over {
      TrailIs(run.t);
    } else {
      var query := Query(TYPE_TXT, st.optionalNs);
      ThroughCname(run.shot, query, run.reply, run.t, run.cut, run.answered);
      LongAnswer(run, HEADER + 7, max, query);
      WrapNot(512, 0);
    }
  }
}
