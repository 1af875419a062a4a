/**
  Decoding a query: the header tests, the question, the EDNS OPT record (RFC 6891) and
  its client-subnet option, and how large the response may become.
 */
module QueryDecoder {
  import opened Names
  import opened Decoder
  import opened Sections

  datatype Verdict = Ignore | FormErr | BadVers | NotImp | Good

  const TYPE_OPT := 41
  const TYPE_IXFR := 251
  const TYPE_AXFR := 252
  const CLASS_CHAOS := 3
  const OPT_FIXED := 10
  const CLIENT_SUBNET := 0x50FA

  // ---- The question ----------------------------------------------------------------------

  function Lowered(w: Bytes): Bytes {
    seq(|w|, i requires 0 <= i < |w| => Lc(w[i]))
  }

  /** The first `n` bytes are a name in full, without compression. */
  ghost predicate NameAhead(buf: Bytes, n: nat) {
    n <= |buf| && IsWire(buf[..n])
  }

  /** The name in lower case, as a dname; the length of the whole question; its type; whether its class is CHAOS. */
  datatype Question = Question(name: Bytes, len: nat, qtype: nat, chaos: bool)

  /** Position `pos` is a label's start in every name that may be ahead, and from it any name would be ahead. */
  ghost predicate Scanned(buf: Bytes, pos: nat) {
    && pos < |buf| && pos < MAX_WIRE
    && (forall n: nat :: NameAhead(buf, n) ==> pos < n && WireAt(buf[..n], pos))
    && (forall n: nat :: pos < n <= |buf| && WireAt(buf[..n], pos) ==> WireAt(buf[..n], 0))
  }

  lemma ScanStart(buf: Bytes)
    requires buf != []
    ensures Scanned(buf, 0)
  {
  }

  /** A label that fits leads on; one that does not leads nowhere. */
  lemma ScanLabel(buf: Bytes, pos: nat)
    requires Scanned(buf, pos) && buf[pos] != 0
    ensures if buf[pos] <= MAX_LABEL && Next(buf, pos) < |buf| && Next(buf, pos) < MAX_WIRE
            then Scanned(buf, Next(buf, pos)) else forall n: nat :: !NameAhead(buf, n)
  {
    forall n: nat | NameAhead(buf, n)
      ensures buf[pos] <= MAX_LABEL && Next(buf, pos) < n && WireAt(buf[..n], Next(buf, pos)) {
      var w := buf[..n];
      assert WireAt(w, pos) && w[pos] == buf[pos] && Next(w, pos) == Next(buf, pos);
      assert WireAt(w, Next(w, pos));
    }
    if buf[pos] <= MAX_LABEL && Next(buf, pos) < |buf| && Next(buf, pos) < MAX_WIRE {
      forall n: nat | Next(buf, pos) < n <= |buf| && WireAt(buf[..n], Next(buf, pos)) ensures WireAt(buf[..n], 0) {
        assert buf[..n][pos] == buf[pos];
        assert WireAt(buf[..n], pos);
      }
    }
  }

  lemma ScanEnd(buf: Bytes, pos: nat)
    requires Scanned(buf, pos) && buf[pos] == 0
    ensures NameAhead(buf, pos + 1) && forall n: nat :: NameAhead(buf, n) ==> n == pos + 1
  {
    var w := buf[..pos + 1];
    assert w[pos] == 0 && WireAt(w, pos);
    forall n: nat | NameAhead(buf, n) ensures n == pos + 1 {
      assert buf[..n][pos] == buf[pos];
    }
  }

  /** The loop over the name: `end` is where it ends, or 0 for what is no name. */
  method ScanName(buf: Bytes) returns (lower: Bytes, end: nat)
    requires buf != []
    ensures end != 0 ==> NameAhead(buf, end) && lower == Lowered(buf[..end])
    ensures forall n: nat :: NameAhead(buf, n) ==> n == end
  {
    var pos := 0;
    lower := [];
    ScanStart(buf);
    while buf[pos] != 0
      invariant 0 <= pos && Scanned(buf, pos) && lower == Lowered(buf[..pos])
      decreases |buf| - pos
    {
      var llen := buf[pos];
      ScanLabel(buf, pos);
      if llen > MAX_LABEL || pos + 1 + llen >= |buf| || pos + 1 + llen > 254 {
        return lower, 0;
      }
      lower := lower + [llen];
      pos := pos + 1;
      lower := LowerLabel(buf, lower, pos, llen);
      pos := pos + llen;
    }
    ScanEnd(buf, pos);
    lower := lower + [0];
    end := pos + 1;
  }

  method LowerLabel(buf: Bytes, lower: Bytes, pos: nat, llen: nat) returns (r: Bytes)
    requires pos + llen <= |buf| && 0 < pos && lower == Lowered(buf[..pos - 1]) + [buf[pos - 1]]
    requires buf[pos - 1] <= MAX_LABEL
    ensures r == Lowered(buf[..pos + llen])
  {
    r := lower;
    var i := 0;
    while i < llen
      invariant 0 <= i <= llen && r == Lowered(buf[..pos + i])
    {
      var b := buf[pos + i];
      r := r + [if 0x40 < b < 0x5B then b + 0x20 else b];
      i := i + 1;
    }
  }

  /**
    `parse_question`: succeeds exactly when a name and four more bytes are ahead.  With nothing ahead it
    fails whatever the byte is that it looks at past the end.
   */
  method ParseQuestion(buf: Bytes) returns (r: Option<Question>)
    ensures r.Some? <==> exists n: nat :: NameAhead(buf, n) && n + 4 <= |buf|
    ensures r.Some? ==> r.value.len >= 5 && QuestionIs(buf, r.value, r.value.len - 4)
  {
    if buf == [] {
      return None;
    }
    var lower, end := ScanName(buf);
    if end == 0 || end + 4 > |buf| {
      return None;
    }
    r := Some(Question([end] + lower, end + 4, U16Value(buf[end], buf[end + 1]),
                       U16Value(buf[end + 2], buf[end + 3]) == CLASS_CHAOS));
  }

  ghost predicate QuestionIs(buf: Bytes, q: Question, n: nat) {
    && NameAhead(buf, n) && q.len == n + 4 <= |buf| && q.name == [n] + Lowered(buf[..n])
    && q.qtype == U16Value(buf[n], buf[n + 1]) && q.chaos == (U16Value(buf[n + 2], buf[n + 3]) == CLASS_CHAOS)
  }

  lemma {:induction false} LowerWire(w: Bytes, p: nat)
    requires WireAt(w, p)
    ensures WireAt(Lowered(w), p)
    decreases |w| - p
  {
    assert Lowered(w)[p] == w[p];
    if w[p] != 0 { LowerWire(w, Next(w, p)); }
  }

  /** The lower-cased name is a name, and the same one up to letter case. */
  lemma LoweredName(w: Bytes)
    requires IsWire(w)
    ensures IsWire(Lowered(w)) && SameLabel(w, Lowered(w)) && IsDname([|w|] + Lowered(w))
  {
    LowerWire(w, 0);
    assert ([|w|] + Lowered(w))[1..] == Lowered(w);
  }

  // ---- The OPT record ----------------------------------------------------------------------

  const U32 := 0x1_0000_0000

  /** Subtraction of 32-bit unsigned numbers. */
  function Wrap(a: nat, b: nat): nat { (a - b) % U32 }

  /** The bytes a prefix length needs. */
  function AddrBytes(mask: nat): nat {
    mask / 8 + if mask % 8 != 0 then 1 else 0
  }

  datatype Subnet = Subnet(family: nat, mask: nat, addr: Bytes)

  predicate SubnetLegal(s: Subnet) {
    s.mask <= (if s.family == 1 then 32 else 128) && 1 <= s.family <= 2 && |s.addr| == AddrBytes(s.mask)
  }

  /** The client-subnet option's data, when it is acceptable; trailing bytes are. */
  function SubnetOf(d: Bytes): (r: Option<Subnet>)
    ensures r.Some? ==> SubnetLegal(r.value)
  {
    if |d| < 4 || |d| < 4 + AddrBytes(d[2]) then None
    else
      var s := Subnet(U16Value(d[0], d[1]), d[2], d[4..4 + AddrBytes(d[2])]);
      if SubnetLegal(s) then Some(s) else None
  }

  /** What an echoed option takes in the response. */
  function EchoSize(s: Subnet): nat { 8 + AddrBytes(s.mask) }

  /** The options of an OPT record's data up to the first malformed one: code and data. */
  function Options(d: Bytes): (r: seq<(nat, Bytes)>)
    decreases |d|
  {
    if |d| < 4 || 4 + U16Value(d[2], d[3]) > |d| then []
    else [(U16Value(d[0], d[1]), d[4..4 + U16Value(d[2], d[3])])] + Options(d[4 + U16Value(d[2], d[3])..])
  }

  /** What the acceptable client-subnet options up to the first that is not take together. */
  function Reserved(os: seq<(nat, Bytes)>): nat {
    if os == [] then 0
    else if os[0].0 != CLIENT_SUBNET then Reserved(os[1..])
    else if SubnetOf(os[0].1).None? then 0
    else EchoSize(SubnetOf(os[0].1).value) + Reserved(os[1..])
  }

  /** The last acceptable client-subnet option up to the first that is not. */
  function LastSubnet(os: seq<(nat, Bytes)>, before: Option<Subnet>): Option<Subnet>
    decreases |os|
  {
    if os == [] then before
    else if os[0].0 != CLIENT_SUBNET then LastSubnet(os[1..], before)
    else if SubnetOf(os[0].1).None? then before
    else LastSubnet(os[1..], SubnetOf(os[0].1))
  }

  /** An option runs past the end, or is a client-subnet option that is not acceptable while those are looked at. */
  predicate OptionsBad(d: Bytes, subnetsOn: bool)
    decreases |d|
  {
    if d == [] then false
    else if |d| < 4 || 4 + U16Value(d[2], d[3]) > |d| then true
    else
      var len := U16Value(d[2], d[3]);
      (subnetsOn && U16Value(d[0], d[1]) == CLIENT_SUBNET && SubnetOf(d[4..4 + len]).None?) ||
      OptionsBad(d[4 + len..], subnetsOn)
  }

  function SubnetCount(os: seq<(nat, Bytes)>): nat {
    if os == [] then 0 else (if os[0].0 == CLIENT_SUBNET then 1 else 0) + SubnetCount(os[1..])
  }

  lemma {:induction false} ReservedBound(os: seq<(nat, Bytes)>)
    ensures Reserved(os) <= 24 * SubnetCount(os)
  {
    if os != [] { ReservedBound(os[1..]); }
  }

  /** The options before `d` reserved `used` bytes and left `echo`; the rest is still to be read. */
  ghost predicate Reading(rdata: Bytes, d: Bytes, used: nat, echo: Option<Subnet>, subnetsOn: bool) {
    && (subnetsOn ==> Reserved(Options(rdata)) == used + Reserved(Options(d)))
    && (subnetsOn ==> LastSubnet(Options(rdata), None) == LastSubnet(Options(d), echo))
    && (!subnetsOn ==> used == 0 && echo == None)
    && OptionsBad(rdata, subnetsOn) == OptionsBad(d, subnetsOn)
    && (echo.Some? ==> SubnetLegal(echo.value) && EchoSize(echo.value) <= used)
  }

  lemma ReadOn(rdata: Bytes, d: Bytes, used: nat, echo: Option<Subnet>, subnetsOn: bool, len: nat)
    requires Reading(rdata, d, used, echo, subnetsOn) && |d| >= 4 && len == U16Value(d[2], d[3]) && 4 + len <= |d|
    ensures if subnetsOn && U16Value(d[0], d[1]) == CLIENT_SUBNET then
              var s := SubnetOf(d[4..4 + len]);
              if s.Some? then Reading(rdata, d[4 + len..], used + EchoSize(s.value), s, subnetsOn)
              else
                && OptionsBad(rdata, subnetsOn) && Reserved(Options(rdata)) == used
                && LastSubnet(Options(rdata), None) == echo
            else Reading(rdata, d[4 + len..], used, echo, subnetsOn)
  {
    OptionsStep(d);
  }

  /** What decoding leaves in the context. */
  class Request {
    const isUdp: bool
    /** `max_response` */
    const maxResponse: nat
    const subnetsOn: bool
    var qtype: nat
    var chaos: bool
    var useEdns: bool
    var echo: Option<Subnet>
    /** `this_max_response`, a 32-bit unsigned number. */
    var thisMax: nat

    constructor (isUdp: bool, maxResponse: nat, subnetsOn: bool)
      ensures this.isUdp == isUdp && this.maxResponse == maxResponse && this.subnetsOn == subnetsOn && IsReset()
    {
      this.isUdp, this.maxResponse, this.subnetsOn := isUdp, maxResponse, subnetsOn;
      qtype, chaos, useEdns, echo, thisMax := 0, false, false, None, 0;
    }

    ghost predicate IsReset()
      reads this
    {
      qtype == 0 && !chaos && !useEdns && echo == None && thisMax == 0
    }

    /** `handle_edns_client_subnet`: true for an error. */
    method HandleClientSubnet(d: Bytes) returns (bad: bool)
      modifies this`echo, this`thisMax
      ensures bad <==> SubnetOf(d).None?
      ensures bad ==> echo == old(echo) && thisMax == old(thisMax)
      ensures !bad ==> echo == SubnetOf(d) && thisMax == Wrap(old(thisMax), EchoSize(echo.value))
    {
      if |d| < 4 {
        return true;
      }
      var family, mask := U16Value(d[0], d[1]), d[2];
      var addrBytes := mask / 8 + if mask % 8 != 0 then 1 else 0;
      if |d| < 4 + addrBytes {
        return true;
      }
      if (family == 1 && mask > 32) || (family == 2 && mask > 128) || (family != 1 && family != 2) {
        return true;
      }
      thisMax := Wrap(thisMax, 8 + addrBytes);
      echo := Some(Subnet(family, mask, d[4..4 + addrBytes]));
      bad := false;
    }

    /** `handle_edns_options`: true for an error. */
    method HandleOptions(rdata: Bytes) returns (bad: bool)
      requires echo == None && thisMax < U32
      modifies this`echo, this`thisMax
      ensures thisMax == Wrap(old(thisMax), if subnetsOn then Reserved(Options(rdata)) else 0)
      ensures echo == if subnetsOn then LastSubnet(Options(rdata), None) else None
      ensures echo.Some? ==> SubnetLegal(echo.value) && EchoSize(echo.value) <= Reserved(Options(rdata))
      ensures bad <==> OptionsBad(rdata, subnetsOn)
    {
      var d := rdata;
      ghost var used := 0;
      WrapNot(thisMax, 0);
      while d != []
        invariant 0 <= used && thisMax == Wrap(old(thisMax), used) && Reading(rdata, d, used, echo, subnetsOn)
        decreases |d|
      {
        if |d| < 4 {
          return true;
        }
        var code, len := U16Value(d[0], d[1]), U16Value(d[2], d[3]);
        if len > |d| - 4 {
          return true;
        }
        ReadOn(rdata, d, used, echo, subnetsOn, len);
        if code == CLIENT_SUBNET && subnetsOn {
          bad := HandleClientSubnet(d[4..4 + len]);
          if bad {
            return;
          }
          ghost var taken := EchoSize(echo.value);
          WrapTwice(old(thisMax), used, taken);
          used := used + taken;
        }
        d := d[4 + len..];
      }
      bad := false;
    }

    /** What the response may take, all in all. */
    function Allowance(advertised: nat): nat
      reads this`useEdns
    {
      if !isUdp then maxResponse
      else if !useEdns then 512
      else Min(Max(advertised, 512), maxResponse)
    }

    /** `parse_optrr`, with the record's fixed part at `o`. */
    method ParseOpt(packet: Bytes, o: nat) returns (v: Verdict)
      requires o + OPT_FIXED <= |packet| && NoEdnsYet() && 512 <= maxResponse < U32
      modifies this`useEdns, this`echo, this`thisMax
      ensures useEdns && v == OptVerdict(packet, o, subnetsOn)
      ensures echo.Some? ==> SubnetLegal(echo.value)
      ensures echo == if v == BadVers then None else EchoIn(packet, o, subnetsOn)
      ensures v == Good ==>
                LimitedTo(Allowance(U16Value(packet[o + 2], packet[o + 3])),
                  if subnetsOn then ReservedIn(packet, o) else 0)
    {
      useEdns := true;
      if packet[o + 5] != 0 {
        return BadVers;
      }
      var advertised := U16Value(packet[o + 2], packet[o + 3]);
      thisMax := Wrap(if isUdp then Min(Max(advertised, 512), maxResponse) else maxResponse, 11);
      var rdlen := U16Value(packet[o + 8], packet[o + 9]);
      v := Good;
      if rdlen != 0 {
        if |packet| < o + OPT_FIXED + rdlen {
          return FormErr;
        }
        var bad := ReadOptions(packet[o + OPT_FIXED..o + OPT_FIXED + rdlen], Allowance(advertised));
        if bad {
          return FormErr;
        }
      }
    }

    /** The options, with the room for the OPT record already taken from what the response may take. */
    method ReadOptions(rdata: Bytes, ghost allowance: nat) returns (bad: bool)
      requires echo == None && useEdns && thisMax == Wrap(allowance, 11)
      modifies this`echo, this`thisMax
      ensures bad <==> OptionsBad(rdata, subnetsOn)
      ensures echo == if subnetsOn then LastSubnet(Options(rdata), None) else None
      ensures echo.Some? ==> SubnetLegal(echo.value)
      ensures LimitedTo(allowance, if subnetsOn then Reserved(Options(rdata)) else 0)
    {
      WrapTwice(allowance, 11, if subnetsOn then Reserved(Options(rdata)) else 0);
      bad := HandleOptions(rdata);
    }

    /** `decode_query`, for packets that hold a header; ones too short for a question have no name ahead. */
    method DecodeQuery(packet: Bytes) returns (v: Verdict, q: Question)
      requires |packet| >= HEADER && IsReset() && 512 <= maxResponse < U32
      modifies this
      ensures v == Ignore <==> !Answerable(packet)
      ensures v != Ignore ==>
                Asks(packet, q) && v == VerdictOn(packet, q, subnetsOn) && qtype == q.qtype && chaos == q.chaos
      ensures v != Ignore ==> useEdns == (v != NotImp && HasOpt(packet, HEADER + q.len))
      ensures echo.Some? ==> useEdns && SubnetLegal(echo.value)
      ensures v != Ignore ==>
                echo == if useEdns && v != BadVers then EchoIn(packet, HEADER + q.len + 1, subnetsOn) else None
      ensures v == Good ==>
                LimitedTo(Allowance(Advertised(packet, HEADER + q.len)), ReservedBy(packet, HEADER + q.len, subnetsOn))
    {
      q := Question([], 0, 0, false);
      if U16Value(packet[4], packet[5]) != 1 {
        return Ignore, q;
      }
      if packet[2] >= 0x80 {
        return Ignore, q;
      }
      if packet[2] / 2 % 2 == 1 {
        return Ignore, q;
      }
      var r := ParseQuestion(packet[HEADER..]);
      if r.None? {
        return Ignore, q;
      }
      q := r.value;
      qtype, chaos := q.qtype, q.chaos;
      if Opcode(packet) != 0 || qtype == TYPE_AXFR || qtype == TYPE_IXFR {
        return NotImp, q;
      }
      var offset := HEADER + q.len;
      if HasOpt(packet, offset) {
        v := ParseOpt(packet, offset + 1);
      } else {
        thisMax := if isUdp then 512 else maxResponse;
        v := Good;
      }
    }

    ghost predicate NoEdnsYet()
      reads this
    {
      !useEdns && echo == None && thisMax == 0
    }

    /** The limit for the response without its OPT record, and that an echoed option is within what was reserved. */
    ghost predicate LimitedTo(allowance: nat, reserved: nat)
      reads this`useEdns, this`thisMax, this`echo
    {
      && thisMax == Wrap(allowance, (if useEdns then 11 else 0) + reserved)
      && (echo.Some? ==> useEdns && SubnetLegal(echo.value) && EchoSize(echo.value) <= reserved)
    }
  }

  function Min(a: nat, b: nat): nat { if a < b then a else b }
  function Max(a: nat, b: nat): nat { if a > b then a else b }

  /** A query the server does not drop: one question, which can be parsed, and neither response nor truncated. */
  ghost predicate Answerable(packet: Bytes)
    requires |packet| >= HEADER
  {
    && U16Value(packet[4], packet[5]) == 1 && packet[2] < 0x80 && packet[2] / 2 % 2 == 0
    && exists n: nat :: NameAhead(packet[HEADER..], n) && n + 4 <= |packet[HEADER..]|
  }

  function Opcode(packet: Bytes): nat
    requires |packet| >= HEADER
  {
    packet[2] / 8 % 16
  }

  /** The question is followed by an OPT record, the only place it is looked for. */
  predicate HasOpt(packet: Bytes, offset: nat)
    requires |packet| >= HEADER
  {
    && U16Value(packet[10], packet[11]) != 0 && |packet| >= offset + OPT_FIXED + 1 && packet[offset] == 0
    && U16Value(packet[offset + 1], packet[offset + 2]) == TYPE_OPT
  }

  /** The packet's question. */
  ghost predicate Asks(packet: Bytes, q: Question)
    requires |packet| >= HEADER
  {
    q.len >= 5 && HEADER + q.len <= |packet| && QuestionIs(packet[HEADER..], q, q.len - 4)
  }

  /** What becomes of a query that is not dropped. */
  function VerdictOn(packet: Bytes, q: Question, subnetsOn: bool): Verdict
    requires |packet| >= HEADER && HEADER + q.len <= |packet|
  {
    if Opcode(packet) != 0 || q.qtype == TYPE_AXFR || q.qtype == TYPE_IXFR then NotImp
    else if HasOpt(packet, HEADER + q.len) then OptVerdict(packet, HEADER + q.len + 1, subnetsOn)
    else Good
  }

  /** And what its OPT record, with the fixed part at `o`, has to do with it. */
  function OptVerdict(packet: Bytes, o: nat, subnetsOn: bool): Verdict
    requires o + OPT_FIXED <= |packet|
  {
    var rdlen := U16Value(packet[o + 8], packet[o + 9]);
    if packet[o + 5] != 0 then BadVers
    else if o + OPT_FIXED + rdlen > |packet| then FormErr
    else if OptionsBad(packet[o + OPT_FIXED..o + OPT_FIXED + rdlen], subnetsOn) then FormErr
    else Good
  }

  /** The client's subnet, for a record that is in order. */
  ghost function EchoIn(packet: Bytes, o: nat, subnetsOn: bool): Option<Subnet>
    requires o + OPT_FIXED <= |packet|
  {
    var rdlen := U16Value(packet[o + 8], packet[o + 9]);
    if subnetsOn && o + OPT_FIXED + rdlen <= |packet| then
      LastSubnet(Options(packet[o + OPT_FIXED..o + OPT_FIXED + rdlen]), None)
    else None
  }

  /** The size the client says it accepts. */
  ghost function Advertised(packet: Bytes, offset: nat): nat
    requires |packet| >= HEADER
  {
    if HasOpt(packet, offset) then U16Value(packet[offset + 3], packet[offset + 4]) else 0
  }

  /** What is set aside for the options to echo. */
  ghost function ReservedBy(packet: Bytes, offset: nat, subnetsOn: bool): nat
    requires |packet| >= HEADER
  {
    if HasOpt(packet, offset) && subnetsOn then ReservedIn(packet, offset + 1) else 0
  }

  /** What the client-subnet options of the OPT record at `o` reserve. */
  ghost function ReservedIn(packet: Bytes, o: nat): nat
    requires o + OPT_FIXED <= |packet|
  {
    var rdlen := U16Value(packet[o + 8], packet[o + 9]);
    if o + OPT_FIXED + rdlen <= |packet| then Reserved(Options(packet[o + OPT_FIXED..o + OPT_FIXED + rdlen])) else 0
  }

  lemma OptionsStep(d: Bytes)
    requires |d| >= 4 && 4 + U16Value(d[2], d[3]) <= |d|
    ensures var len := U16Value(d[2], d[3]);
            && Options(d) != [] && Options(d)[0] == (U16Value(d[0], d[1]), d[4..4 + len])
            && Options(d)[1..] == Options(d[4 + len..])
  {
  }

  lemma WrapTwice(a: nat, b: nat, c: nat)
    ensures Wrap(Wrap(a, b), c) == Wrap(a, b + c)
  {
    var q := (a - b) / U32;
    assert (a - b) % U32 == a - b - q * U32;
    ModShift(a - (b + c), -q);
  }

  lemma ModShift(x: int, k: int)
    ensures (x + k * U32) % U32 == x % U32
  {
  }

  lemma WrapNot(a: nat, b: nat)
    requires b <= a < U32
    ensures Wrap(a, b) == a - b
  {
  }
}
