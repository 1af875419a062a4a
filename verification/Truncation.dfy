/**
  The last step before the packet is sent: truncation when the response does not fit,
  and otherwise trimming of the additional section, which then follows the rest.
 */
module Truncation {
  import opened Names
  import opened Decoder
  import opened Compression
  import opened Message
  import opened Sections
  import opened Records
  import opened Additional
  import opened Encoder
  import opened LookupRule
  import opened LabelTree
  import opened CnameChain
  import opened Validation
  import opened Response
  import opened Answering

  /** The additional section before trimming. */
  datatype Store = Store(bytes: Bytes, extras: Extras)

  ghost function StoreOf(c: Context): Store
    reads c`addtlStore, c`addtlRrsets, c`extras, c`addtlOwners, c`answerAddr, c`addtlHasGlue
  {
    Store(c.addtlStore, ExtrasOf(c))
  }

  /** `s'` is the first `n` rrsets of `s`. */
  ghost predicate TrimmedTo(s: Store, n: nat, s': Store) {
    && UnwoundTo(s.bytes, s.extras.rrsets, s.extras.records, n, s'.bytes, s'.extras.rrsets, s'.extras.records)
    && n <= |s.extras.owners| && s'.extras.owners == s.extras.owners[..n]
    && s'.extras.answer == s.extras.answer && s'.extras.glue == s.extras.glue
  }

  /** Where the `m`-th rrset begins. */
  ghost function StartAt(s: Store, m: nat): nat
    requires m <= |s.extras.rrsets|
  {
    Begins(s.bytes, s.extras.rrsets, m)
  }

  /** `s'` is the longest run of whole rrsets of `s`, from the first on, that fits in `room` bytes. */
  ghost predicate LongestFit(s: Store, room: nat, n: nat, s': Store) {
    TrimmedTo(s, n, s') && |s'.bytes| <= room && forall m :: n < m <= |s.extras.rrsets| ==> StartAt(s, m) > room
  }

  /** The trimming loop. */
  method Trim(c: Context, room: nat) returns (ghost n: nat)
    requires Ok(c)
    modifies c`addtlStore, c`addtlRrsets, c`extras, c`addtlOwners, c`arcount
    ensures Ok(c) && LongestFit(old(StoreOf(c)), room, n, StoreOf(c))
  {
    ghost var s := StoreOf(c);
    n := |c.addtlRrsets|;
    TrimStart(s);
    while |c.addtlStore| > room
      invariant n <= |s.extras.rrsets| && c.Sane() && c.Complete() && TrimmedTo(s, n, StoreOf(c))
      invariant forall m :: n < m <= |s.extras.rrsets| ==> StartAt(s, m) > room
      decreases |c.addtlRrsets|
    {
      NotEmpty(c.packet, c.addtlStore, c.addtlRrsets, c.extras, c.strayed);
      ghost var now := StoreOf(c);
      TrimOne(c);
      UnwindMore(s, n, now, StoreOf(c));
      n := n - 1;
    }
  }

  method TrimOne(c: Context)
    requires c.Sane() && c.Complete() && c.addtlRrsets != []
    modifies c`addtlStore, c`addtlRrsets, c`extras, c`addtlOwners, c`arcount
    ensures c.Sane() && c.Complete() && TrimmedTo(old(StoreOf(c)), |old(c.addtlRrsets)| - 1, StoreOf(c))
  {
    var last := |c.addtlRrsets| - 1;
    var u := c.addtlRrsets[last];
    UnwindTo(c.packet, c.addtlStore, c.addtlRrsets, c.extras, c.strayed, last);
    UnwindCarried(c.addtlRrsets, c.extras, c.addtlOwners, c.answerAddr, last);
    c.addtlRrsets := c.addtlRrsets[..last];
    c.addtlStore := c.addtlStore[..u.prevOffset];
    c.extras := c.extras[..u.prevArcount];
    c.addtlOwners := c.addtlOwners[..last];
    c.arcount := u.prevArcount;
  }

  lemma NotEmpty(packet: Bytes, a: Bytes, us: seq<Unwind>, xs: seq<Extra>, strayed: bool)
    requires AddtlOk(packet, a, us, xs, strayed) && a != []
    ensures us != []
  {
  }

  lemma TrimStart(s: Store)
    requires |s.extras.owners| == |s.extras.rrsets|
    ensures TrimmedTo(s, |s.extras.rrsets|, s)
  {
    var x := s.extras;
    assert x.rrsets[..|x.rrsets|] == x.rrsets && x.records[..|x.records|] == x.records;
    assert s.bytes[..|s.bytes|] == s.bytes && x.owners[..|x.owners|] == x.owners;
  }

  /** Unwinding one more rrset of what was unwound. */
  lemma UnwindMore(s: Store, n: nat, now: Store, after: Store)
    requires TrimmedTo(s, n, now) && now.extras.rrsets != [] && TrimmedTo(now, |now.extras.rrsets| - 1, after)
    ensures |now.extras.rrsets| == n && |now.bytes| == StartAt(s, n) && TrimmedTo(s, n - 1, after)
  {
    assert now.extras.rrsets[n - 1] == s.extras.rrsets[n - 1];
  }

  // ---- Truncate, or trim and copy -----------------------------------------------------------

  /**
    The response when it is handed on: what a reader can tell of it, where its question ends, and the
    additional section.
   */
  datatype Final = Final(shot: Shot, qend: nat, store: Store, arcount: nat)

  ghost function FinalOf(c: Context): Final
    reads c`packet, c`records, c`ancount, c`nscount, c`cnameAncount, c`qnameComp, c`authComp, c`qend, c`arcount
    reads c`addtlStore, c`addtlRrsets, c`extras, c`addtlOwners, c`answerAddr, c`addtlHasGlue
  {
    Final(ShotOf(c), c.qend, StoreOf(c), c.arcount)
  }

  /**
    A reader of the packet finds the records it is meant to hold, and, if `body` bytes come before the
    additional section and a pointer reaches them all, the additional ones, and as many as the counts say.
   */
  ghost predicate Readable(f: Final, body: nat) {
    && AllRead(f.shot.packet, f.shot.records) && Contiguous(f.qend, f.shot.records, body)
    && (body <= POINTER_SPAN ==>
          && ExtrasRead(f.shot.packet, body, f.store.extras.records)
          && SkipRecords(f.shot.packet, f.qend, f.shot.cnameAncount + f.shot.ancount + f.shot.nscount + f.arcount) ==
             Some(|f.shot.packet|))
  }

  lemma AllReadable(m: Msg, qend: nat, items: seq<Item>, a: Bytes, us: seq<Unwind>, xs: seq<Extra>, strayed: bool)
    requires Promised(m, qend, items, a, us, xs, strayed)
    ensures AllRead(m.bytes + a, items) && Contiguous(qend, items, |m.bytes|)
    ensures !strayed ==> ExtrasRead(m.bytes + a, |m.bytes|, xs)
    ensures !strayed ==> SkipRecords(m.bytes + a, qend, |items| + |xs|) == Some(|m.bytes + a|)
  {
    AllReadExtend(m.bytes, a, items);
    if !strayed {
      ListedHolds(m.bytes, qend, items);
      CopiedHolds(m.bytes, a, us, xs);
      SkipRecordsExtend(m.bytes, a, qend, |items|);
      SkipRecordsAdd(m.bytes + a, qend, |items|, |xs|);
    }
  }

  /** The copying of the additional section behind the rest. */
  method CopyAdditional(c: Context)
    requires Ok(c)
    modifies c`packet
    ensures c.packet == old(c.packet) + c.addtlStore && Readable(FinalOf(c), |old(c.packet)|)
  {
    AllReadable(c.View(), c.qend, c.records, c.addtlStore, c.addtlRrsets, c.extras, c.strayed);
    c.packet := c.packet + c.addtlStore;
  }

  /** What the response was before it was made to fit. */
  datatype Whole = Whole(body: Bytes, store: Store)

  /** The test for truncation: everything but additional data that is not glue has to fit. */
  predicate Fits(w: Whole, limit: nat) {
    |w.body| + (if w.store.extras.glue then |w.store.bytes| else 0) <= limit
  }

  /** The response as sent: all of it up to the additional section, and as many whole rrsets of that as fit. */
  ghost predicate Fitted(f: Final, w: Whole, limit: nat, n: nat) {
    && |f.shot.packet| <= limit && f.shot.packet == w.body + f.store.bytes && |w.body| <= limit
    && LongestFit(w.store, limit - |w.body|, n, f.store) && (w.store.extras.glue ==> f.store == w.store)
    && Readable(f, |w.body|) && f.arcount == |f.store.extras.records|
    && Carried(f.store.extras.rrsets, f.store.extras.records, f.store.extras.owners, f.store.extras.answer)
  }

  method Fit(c: Context, limit: nat) returns (ghost n: nat)
    requires Ok(c) && |c.packet| + (if c.addtlHasGlue then |c.addtlStore| else 0) <= limit
    modifies c`packet, c`addtlStore, c`addtlRrsets, c`extras, c`addtlOwners, c`arcount
    ensures Fitted(FinalOf(c), Whole(old(c.packet), old(StoreOf(c))), limit, n)
  {
    ghost var s := StoreOf(c);
    n := Trim(c, limit - |c.packet|);
    if c.addtlHasGlue {
      AllKept(s, limit - |c.packet|, n, StoreOf(c));
    }
    CopyAdditional(c);
  }

  /** The test, and what follows from it.  A truncated response is the question alone. */
  method FitOrTruncate(c: Context, question: nat, limit: nat) returns (tc: bool, ghost n: nat)
    requires Ok(c) && question <= |c.packet|
    modifies c`packet, c`addtlStore, c`addtlRrsets, c`extras, c`addtlOwners, c`arcount, c`ancount, c`nscount
    ensures tc <==> !Fits(Whole(old(c.packet), old(StoreOf(c))), limit)
    ensures tc ==> c.packet == old(c.packet)[..question] && c.ancount == 0 && c.nscount == 0 && c.arcount == 0
    ensures !tc ==> Fitted(FinalOf(c), Whole(old(c.packet), old(StoreOf(c))), limit, n)
    ensures !tc ==> c.ancount == old(c.ancount) && c.nscount == old(c.nscount)
  {
    tc, n := false, 0;
    if |c.packet| + (if c.addtlHasGlue then |c.addtlStore| else 0) > limit {
      c.ancount, c.nscount, c.arcount := 0, 0, 0;
      c.packet := c.packet[..question];
      tc := true;
    } else {
      n := Fit(c, limit);
    }
  }

  lemma AllKept(s: Store, room: nat, n: nat, s': Store)
    requires LongestFit(s, room, n, s') && |s.bytes| <= room && |s.extras.owners| == |s.extras.rrsets|
    ensures s' == s
  {
    assert StartAt(s, |s.extras.rrsets|) <= room;
    TrimStart(s);
  }

  /** What `answer_from_db_outer` comes to: the reply, and the response before and after it was made to fit. */
  datatype Run =
    Run(reply: Reply, t: Trail, cut: nat, answered: seq<Item>, shot: Shot, w: Whole, n: nat, final: Final)

  /** The response is what the database has for the question, and what goes with it. */
  ghost predicate Prepared(s: Shot, max: nat, db: Db, query: Query, run: Run)
    requires DbOk(db)
  {
    && run.reply.end != OverDepth && Responded(s, db, query, run.reply, run.t, run.cut, run.answered)
    && AddtlFor(run.w.store.extras, db, query, run.reply, run.t, s.ancount, max)
  }

  /** Before it is made to fit, the response is that, and its bytes are its records and no more. */
  ghost predicate Drafted(run: Run, qend: nat, max: nat, db: Db, query: Query)
    requires DbOk(db)
  {
    && Prepared(run.shot, max, db, query, run) && run.shot.packet == run.w.body
    && Listed(run.w.body, qend, run.shot.records)
    && StoreOk(run.w.body, run.w.store)
  }

  /** The additional section is its rrsets, each complete under its owner's name, and no more. */
  ghost predicate StoreOk(body: Bytes, s: Store) {
    && Carried(s.extras.rrsets, s.extras.records, s.extras.owners, s.extras.answer)
    && (AddtlOk(body, s.bytes, s.extras.rrsets, s.extras.records, false) ||
        AddtlOk(body, s.bytes, s.extras.rrsets, s.extras.records, true))
  }

  /** A truncated response: the question alone, and the CNAMEs still counted. */
  ghost predicate CutShort(f: Final, question: Bytes, cnames: nat) {
    && f.shot.packet == question && f.shot.cnameAncount == cnames
    && f.shot.ancount == 0 && f.shot.nscount == 0 && f.arcount == 0
  }

  /** The response as it is handed on: whole if it fits, and else cut short. */
  ghost predicate MadeToFit(run: Run, question: Bytes, limit: nat) {
    if Fits(run.w, limit) then
      Fitted(run.final, run.w, limit, run.n) && run.final.shot == run.shot.(packet := run.final.shot.packet)
    else CutShort(run.final, question, |run.t.ns|)
  }

  /** A chain over the depth limit is given up. */
  ghost predicate GivenUp(db: Db, query: Query, run: Run, max: nat) {
    && DbOk(db) && TrailOk(db, run.t) && run.reply.end == OverDepth && |run.t.ns| == max + 1
    && query.qtype != TYPE_CNAME
  }

  /** `answer_from_db_outer`. */
  method AnswerOuter(c: Context, tree: LTree, data: seq<seq<Rrset>>, qname: Bytes, query: Query, max: nat, limit: nat,
                     ghost db: Db)
    returns (reply: Reply, tc: bool, ghost run: Run)
    requires Serving(tree, data, db)
    requires IsDname(qname) && QuestionLiteral(c.packet, qname[1..]) && max <= MAX_CNAME_DEPTH
    requires Ok(c) && c.records == [] && NoExtras(c) && |c.packet| <= QUESTION_MAX
    modifies c
    ensures run.reply == reply && run.t.question == LabelsAt(qname[1..], 0) && c.qend == old(c.qend)
    ensures reply.end == OverDepth ==> GivenUp(db, query, run, max)
    ensures reply.end != OverDepth ==>
              |run.t.ns| <= max && old(c.packet) <= run.w.body && Drafted(run, c.qend, c.maxAddtl, db, query)
    ensures reply.end != OverDepth ==>
              (tc <==> !Fits(run.w, limit)) && run.final == FinalOf(c) && MadeToFit(run, old(c.packet), limit)
  {
    var question := |c.packet|;
    tc := false;
    reply, run := AnswerWhole(c, tree, data, qname, query, max, db);
    if reply.end != OverDepth {
      tc, run := FitWhole(c, question, limit, run);
    }
  }

  method FitWhole(c: Context, question: nat, limit: nat, ghost run: Run) returns (tc: bool, ghost run': Run)
    requires Ok(c) && question <= |c.packet| && run.w == Whole(c.packet, StoreOf(c))
    requires run.shot == ShotOf(c)
    requires c.cnameAncount == |run.t.ns|
    modifies c`packet, c`addtlStore, c`addtlRrsets, c`extras, c`addtlOwners, c`arcount, c`ancount, c`nscount
    ensures run' == run.(n := run'.n, final := FinalOf(c)) && (tc <==> !Fits(run.w, limit))
    ensures MadeToFit(run', run.w.body[..question], limit)
  {
    ghost var n;
    tc, n := FitOrTruncate(c, question, limit);
    run' := run.(n := n, final := FinalOf(c));
  }

  /** The answer, before it is made to fit. */
  method AnswerWhole(c: Context, tree: LTree, data: seq<seq<Rrset>>, qname: Bytes, query: Query, max: nat, ghost db: Db)
    returns (reply: Reply, ghost run: Run)
    requires Serving(tree, data, db)
    requires IsDname(qname) && QuestionLiteral(c.packet, qname[1..]) && max <= MAX_CNAME_DEPTH
    requires Ok(c) && c.records == [] && NoExtras(c) && |c.packet| <= QUESTION_MAX
    modifies c
    ensures run.reply == reply && run.t.question == LabelsAt(qname[1..], 0) && c.qend == old(c.qend)
    ensures old(c.packet) <= c.packet && run.w == Whole(c.packet, StoreOf(c)) && run.shot == ShotOf(c)
    ensures reply.end == OverDepth ==> GivenUp(db, query, run, max)
    ensures reply.end != OverDepth ==>
              Ok(c) && |run.t.ns| <= max && c.cnameAncount == |run.t.ns| && Drafted(run, c.qend, c.maxAddtl, db, query)
  {
    ghost var t, cut, answered;
    reply, t, cut, answered := AnswerFromDb(c, tree, data, qname, query, max, db);
    run := Run(reply, t, cut, answered, ShotOf(c), Whole(c.packet, StoreOf(c)), 0, FinalOf(c));
  }

  lemma PreparedGrows(s: Shot, p: Bytes, max: nat, db: Db, query: Query, run: Run)
    requires DbOk(db) && Prepared(s, max, db, query, run) && s.packet <= p
    ensures Prepared(s.(packet := p), max, db, query, run)
  {
    RespondedGrows(s, p, db, query, run.reply, run.t, run.cut, run.answered);
  }

  // ---- Glue ---------------------------------------------------------------------------------

  /** The addresses of a name server are in the additional section, whole, under the name of a server that has them. */
  ghost predicate AddressesSent(rrs: seq<RrData>, i: nat, x: Extras)
    requires RrsLegal(rrs) && i < |rrs| && |x.owners| == |x.rrsets|
  {
    rrs[i].ad.Some? ==>
      exists k :: 0 <= k < |x.rrsets| && SentAs(x, k, rrs[i].ad.value) && LedTo(x, rrs, k)
  }

  ghost predicate SentAs(x: Extras, k: nat, a: AddrSet)
    requires k < |x.rrsets| == |x.owners|
  {
    && x.rrsets[k].rrset == a
    && Carries(x.records, CountBefore(x.records, x.rrsets, k), CountBefore(x.records, x.rrsets, k + 1), a, x.owners[k])
  }

  /**
    The glue theorem: a referral that leaves the server untruncated, if any of its name servers has glue,
    carries the addresses of every name server that has an address rrset.  Validation has seen to it that
    the list of additional rrsets could not fill up.
   */
  lemma GlueComplete(db: Db, ck: Checks, query: Query, run: Run, limit: nat, i: nat)
    requires Validated(db, ck) && DbOk(db) && Prepared(run.shot, ck.maxAddtl, db, query, run)
    requires run.reply.end == AtName && run.reply.found.status == Deleg && Fitted(run.final, run.w, limit, run.n)
    requires i < |ReferredTo(db, run.reply)| && AnyGlue(ReferredTo(db, run.reply))
    ensures RrsLegal(ReferredTo(db, run.reply))
    ensures |run.final.store.extras.owners| == |run.final.store.extras.rrsets|
    ensures AddressesSent(ReferredTo(db, run.reply), i, run.final.store.extras)
  {
    FewServers(db, ck, run.reply, NameAtEnd(db, run.t), run.cut);
    PresentIsSent(ReferredTo(db, run.reply), run.final.store.extras, ck.maxAddtl, i);
  }

  lemma FewServers(db: Db, ck: Checks, reply: Reply, name: Name, cut: nat)
    requires Validated(db, ck) && reply.end == AtName && reply.found.status == Deleg
    requires RunAnswer(db.v, name, reply.found.status, reply.found.node, reply.found.zone, cut)
    ensures |ReferredTo(db, reply)| <= ck.maxAddtl
  {
    DelegNode(db.v, name, reply.found, cut);
    var i := reply.found.node.value;
    assert LoadedAt(db, i) && ValidatedAt(db, ck, i);
    CleanCut(ck, i);
  }

  lemma PresentIsSent(rrs: seq<RrData>, x: Extras, max: nat, i: nat)
    requires ReferralExtras(x, rrs, max) && |rrs| <= max && Carried(x.rrsets, x.records, x.owners, None) && i < |rrs|
    ensures AddressesSent(rrs, i, x)
  {
    assert AdPresent(rrs[i], None, x.rrsets);
    if rrs[i].ad.Some? {
      var k :| 0 <= k < |x.rrsets| && x.rrsets[k].rrset == rrs[i].ad.value;
      assert CarriedAt(x.rrsets, x.records, x.owners, None, k);
      assert SentAs(x, k, rrs[i].ad.value) && LedTo(x, rrs, k);
    }
  }
}
