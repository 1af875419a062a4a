/**
  The loops that print and parse names, over names as the server stores them: a length
  byte, the labels, and a terminator that is 0 for a full name and 255 for a partial one.
 */
module DnameCodec {
  import opened Names
  import opened DnameText

  const PARTIAL_END := 255

  function WireOf(n: Name): Bytes
    requires forall i :: 0 <= i < |n| ==> |n[i]| < 0x100
  {
    if n == [] then [] else [|n[0]|] + n[0] + WireOf(n[1..])
  }

  function End(full: bool): Byte { if full then 0 else PARTIAL_END }

  ghost function DnameOf(n: Name, full: bool): Bytes
    requires NameOk(n)
  {
    [WireSize(n)] + WireOf(n) + [End(full)]
  }

  // ---- Printing ------------------------------------------------------------------------------

  /** What is still to print of a name; `started` says whether a dot has to come first. */
  ghost function TextLeft(n: Name, full: bool, started: bool): Bytes {
    if n == [] then (if full then [DOT] else [])
    else (if started then [DOT] else []) + LabelText(n[0]) + TextLeft(n[1..], full, true)
  }

  lemma {:induction false} TextLeftStarted(n: Name, full: bool)
    requires n != []
    ensures TextLeft(n, full, true) == [DOT] + LabelsText(n, full)
  {
    if |n| > 1 {
      TextLeftStarted(n[1..], full);
      assert TextLeft(n, full, true) == [DOT] + LabelText(n[0]) + ([DOT] + LabelsText(n[1..], full));
    } else {
      assert n[1..] == [];
    }
  }

  lemma TextLeftAll(n: Name, full: bool)
    ensures TextLeft(n, full, false) == Text(n, full)
  {
    if |n| > 1 {
      TextLeftStarted(n[1..], full);
    } else if |n| == 1 {
      assert n[1..] == [];
    }
  }

  lemma {:induction false} LabelTextMore(l: Label, b: Byte)
    ensures LabelText(l + [b]) == LabelText(l) + ByteText(b)
  {
    if l != [] {
      LabelTextMore(l[1..], b);
      assert (l + [b])[1..] == l[1..] + [b];
      assert ByteText(l[0]) + (LabelText(l[1..]) + ByteText(b)) == LabelText(l) + ByteText(b);
    } else {
      assert (l + [b])[1..] == [];
    }
  }

  lemma OneMoreByte(d: Bytes, a: nat, b: nat, text: Bytes, shown: Bytes)
    requires a <= b < |d| && shown == ByteText(d[b])
    ensures text + LabelText(d[a..b]) + shown == text + LabelText(d[a..b + 1])
  {
    LabelTextMore(d[a..b], d[b]);
    assert d[a..b] + [d[b]] == d[a..b + 1];
    Regroup(text, LabelText(d[a..b]), shown);
  }

  /** A label's bytes, one by one. */
  method PrintLabel(d: Bytes, pos: nat, llen: nat, text: Bytes) returns (text': Bytes)
    requires pos + llen <= |d|
    ensures text' == text + LabelText(d[pos..pos + llen])
  {
    text' := text;
    var i := 0;
    while i < llen
      invariant 0 <= i <= llen && text' == text + LabelText(d[pos..pos + i])
    {
      var x := d[pos + i];
      var shown: Bytes;
      if x > 0x20 && x < 0x7F {
        shown := [x];
      } else {
        shown := [SLASH, ZERO + x / 100, ZERO + x / 10 % 10, ZERO + x % 10];
      }
      OneMoreByte(d, pos, pos + i, text, shown);
      text' := text' + shown;
      i := i + 1;
    }
  }

  ghost predicate LabelsOk(n: Name) { forall i :: 0 <= i < |n| ==> 1 <= |n[i]| <= MAX_LABEL }

  /** From `pos` on, `d` holds these labels and the terminator. */
  ghost predicate HeldAt(d: Bytes, pos: nat, n: Name, full: bool) {
    LabelsOk(n) && pos <= |d| && d[pos..] == WireOf(n) + [End(full)]
  }

  lemma HeldNext(d: Bytes, pos: nat, n: Name, full: bool)
    requires HeldAt(d, pos, n, full)
    ensures pos < |d| && d[pos] == if n == [] then End(full) else |n[0]|
    ensures n != [] ==> pos + 1 + |n[0]| <= |d| && d[pos + 1..pos + 1 + |n[0]|] == n[0] &&
                        HeldAt(d, pos + 1 + |n[0]|, n[1..], full)
  {
    var s := d[pos..];
    assert s[0] == d[pos];
    if n != [] {
      var k := |n[0]|;
      var tail := WireOf(n[1..]) + [End(full)];
      assert s == [k] + n[0] + tail;
      assert d[pos + 1..pos + 1 + k] == s[1..1 + k] == n[0];
      assert d[pos + 1 + k..] == s[1 + k..] == tail;
    }
  }

  /** `gdnsd_logf_dname`: the name's text, within the buffer. */
  method LogfDname(d: Bytes, ghost n: Name, ghost full: bool) returns (text: Bytes)
    requires NameOk(n) && d == DnameOf(n, full)
    ensures text == Text(n, full) && |text| <= 1004
  {
    TextFits(n, full);
    TextLeftAll(n, full);
    text := [];
    var pos := 1;
    ghost var left := n;
    assert d[1..] == WireOf(n) + [End(full)];
    while true
      invariant 0 <= pos && HeldAt(d, pos, left, full)
      invariant text + TextLeft(left, full, text != []) == Text(n, full)
      decreases |left|
    {
      HeldNext(d, pos, left, full);
      var llen := d[pos];
      if llen == PARTIAL_END {
        break;
      }
      if llen == 0 {
        text := text + [DOT];
        break;
      }
      pos, text, left := PrintOne(d, pos, llen, text, left, full);
    }
  }

  /** One label, with a dot before it if something has been written. */
  method PrintOne(d: Bytes, pos: nat, llen: nat, text: Bytes, ghost left: Name, ghost full: bool)
    returns (pos': nat, text': Bytes, ghost left': Name)
    requires HeldAt(d, pos, left, full) && pos < |d| && llen == d[pos] && llen != 0 && llen != PARTIAL_END
    ensures left != [] && left' == left[1..] && HeldAt(d, pos', left', full) && text' != []
    ensures text' + TextLeft(left', full, true) == text + TextLeft(left, full, text != [])
  {
    HeldNext(d, pos, left, full);
    LabelTextSize(left[0]);
    text' := text;
    if text' != [] {
      text' := text' + [DOT];
    }
    ghost var was := text';
    text' := PrintLabel(d, pos + 1, llen, text');
    pos', left' := pos + 1 + llen, left[1..];
    Regroup(was, LabelText(left[0]), TextLeft(left', full, true));
    if text != [] {
      var t := LabelText(left[0]) + TextLeft(left', full, true);
      Regroup(text, [DOT], t);
      Regroup([DOT], LabelText(left[0]), TextLeft(left', full, true));
    } else {
      assert [] + LabelText(left[0]) == LabelText(left[0]);
    }
  }

  // ---- Parsing -------------------------------------------------------------------------------

  ghost function After(out: Bytes, r: Option<Bytes>): Option<Bytes> {
    if r.Some? then Some(out + r.value) else None
  }

  lemma AfterOne(out: Bytes, b: nat, r: Option<Bytes>)
    requires b < 0x100
    ensures After(out, Prepend(b, r)) == After(out + [b], r)
  {
    if r.Some? { assert out + ([b] + r.value) == (out + [b]) + r.value; }
  }

  lemma AfterNothing(r: Option<Bytes>)
    ensures After([], r) == r
  {
    if r.Some? { assert [] + r.value == r.value; }
  }

  /** `gdnsd_dns_unescape`. */
  method DnsUnescape(s: Bytes) returns (r: Option<Bytes>)
    ensures r == Unescape(s)
  {
    var out: Bytes := [];
    var i := 0;
    assert s[0..] == s;
    AfterNothing(Unescape(s));
    while i < |s|
      invariant 0 <= i <= |s| && After(out, Unescape(s[i..])) == Unescape(s)
    {
      UnescapeStep(s, i, out);
      if s[i] != SLASH {
        out := out + [s[i]];
        i := i + 1;
      } else {
        if i + 1 >= |s| {
          return None;
        }
        if IsDigit(s[i + 1]) {
          if i + 3 >= |s| || !IsDigit(s[i + 2]) || !IsDigit(s[i + 3]) {
            return None;
          }
          var x := (s[i + 1] - ZERO) * 100 + (s[i + 2] - ZERO) * 10 + (s[i + 3] - ZERO);
          if x > 255 {
            return None;
          }
          out := out + [x];
          i := i + 4;
        } else {
          out := out + [s[i + 1]];
          i := i + 2;
        }
      }
    }
    assert s[i..] == [] && out + [] == out;
    r := Some(out);
  }

  lemma UnescapeStep(s: Bytes, i: nat, out: Bytes)
    requires i < |s|
    ensures s[i] != SLASH ==> After(out, Unescape(s[i..])) == After(out + [s[i]], Unescape(s[i + 1..]))
    ensures s[i] == SLASH && i + 1 >= |s| ==> After(out, Unescape(s[i..])) == None
    ensures s[i] == SLASH && i + 1 < |s| && !IsDigit(s[i + 1]) ==>
              After(out, Unescape(s[i..])) == After(out + [s[i + 1]], Unescape(s[i + 2..]))
    ensures s[i] == SLASH && i + 1 < |s| && IsDigit(s[i + 1]) ==>
              After(out, Unescape(s[i..])) ==
                if i + 3 >= |s| || !IsDigit(s[i + 2]) || !IsDigit(s[i + 3]) ||
                  Decimal(s[i + 1], s[i + 2], s[i + 3]) > 255 then None
                else After(out + [Decimal(s[i + 1], s[i + 2], s[i + 3])], Unescape(s[i + 4..]))
  {
    var t := s[i..];
    assert t[1..] == s[i + 1..];
    if s[i] != SLASH {
      AfterOne(out, s[i], Unescape(s[i + 1..]));
    } else if i + 1 < |s| {
      assert t[1] == s[i + 1] && t[2..] == s[i + 2..];
      if !IsDigit(s[i + 1]) {
        AfterOne(out, s[i + 1], Unescape(s[i + 2..]));
      } else if i + 3 < |s| && IsDigit(s[i + 2]) && IsDigit(s[i + 3]) && Decimal(s[i + 1], s[i + 2], s[i + 3]) <= 255 {
        assert t[2] == s[i + 2] && t[3] == s[i + 3] && t[4..] == s[i + 4..];
        AfterOne(out, Decimal(s[i + 1], s[i + 2], s[i + 3]), Unescape(s[i + 4..]));
      }
    }
  }

  /** The cursor loop within a label: where it ends, and whether a dot ends it. */
  method ScanLabel(s: Bytes, start: nat) returns (k: nat, dot: bool)
    requires start < |s|
    ensures k == LabelEnd(s[start..], false) && dot == (start + k < |s|)
  {
    var cursor := start;
    var escapeNext := false;
    dot := false;
    while cursor < |s|
      invariant start <= cursor <= |s| && !dot
      invariant LabelEnd(s[start..], false) == cursor - start + LabelEnd(s[cursor..], escapeNext)
    {
      assert s[cursor..][1..] == s[cursor + 1..];
      if escapeNext {
        escapeNext := false;
      } else if s[cursor] == SLASH {
        escapeNext := true;
      } else if s[cursor] == DOT {
        dot := true;
        break;
      }
      cursor := cursor + 1;
    }
    k := cursor - start;
  }

  lemma {:induction false} UnescapeSome(s: Bytes)
    requires s != [] && Unescape(s).Some?
    ensures Unescape(s).value != []
  {
  }

  lemma {:induction false} WireMore(n: Name, l: Label)
    requires LabelsOk(n) && 1 <= |l| <= MAX_LABEL
    ensures LabelsOk(n + [l]) && WireOf(n + [l]) == WireOf(n) + ([|l|] + l)
    ensures WireSize(n + [l]) == WireSize(n) + |l| + 1
    decreases |n|
  {
    if n != [] {
      WireMore(n[1..], l);
      assert (n + [l])[1..] == n[1..] + [l];
      Regroup([|n[0]|] + n[0], WireOf(n[1..]), [|l|] + l);
    } else {
      assert (n + [l])[1..] == [];
    }
  }

  /** What parsing the rest gives, with the labels parsed so far before it. */
  ghost function Onto(n: Name, p: Parsed): Parsed {
    match p
    case Parsed(rest, full) => Parsed(n + rest, full)
    case Invalid => Invalid
    case Broken => Broken
  }

  /** A label that passed all tests. */
  lemma OntoStep(s: Bytes, start: nat, size: nat, n: Name, k: nat, l: Bytes)
    requires start < |s| && k == LabelEnd(s[start..], false) && 0 < k <= 252 && start + k <= |s|
    requires Unescape(s[start..start + k]) == Some(l) && |l| <= MAX_LABEL && |l| + 1 + size <= MAX_WIRE
    ensures start + k == |s| ==> Onto(n, ParseLabels(s[start..], size)) == Parsed(n + [Lower(l)], false)
    ensures start + k + 1 == |s| ==> Onto(n, ParseLabels(s[start..], size)) == Parsed(n + [Lower(l)], true)
    ensures start + k + 1 < |s| ==>
              Onto(n, ParseLabels(s[start..], size)) ==
                Onto(n + [Lower(l)], ParseLabels(s[start + k + 1..], size + |l| + 1))
  {
    var t := s[start..];
    assert t[..k] == s[start..start + k];
    if start + k + 1 < |s| {
      assert t[k + 1..] == s[start + k + 1..];
      match ParseLabels(t[k + 1..], size + |l| + 1)
      case Parsed(rest, full) => assert n + ([Lower(l)] + rest) == (n + [Lower(l)]) + rest;
      case Invalid =>
      case Broken =>
    }
  }

  lemma BadLabel(s: Bytes, start: nat, size: nat, n: Name, k: nat)
    requires start < |s| && k == LabelEnd(s[start..], false) && start + k <= |s|
    ensures k == 0 || k > 252 ==> Onto(n, ParseLabels(s[start..], size)) == Invalid
    ensures 0 < k <= 252 && Unescape(s[start..start + k]).None? ==> Onto(n, ParseLabels(s[start..], size)) == Broken
    ensures 0 < k <= 252 && Unescape(s[start..start + k]).Some? &&
            (|Unescape(s[start..start + k]).value| > MAX_LABEL ||
              |Unescape(s[start..start + k]).value| + 1 + size > MAX_WIRE) ==>
              Onto(n, ParseLabels(s[start..], size)) == Invalid
  {
    assert s[start..][..k] == s[start..start + k];
  }

  /** One label: scanned, unescaped, tested, lower-cased.  None for a text that is refused, with the reason. */
  method ParseOne(s: Bytes, start: nat, size: nat, ghost n: Name)
    returns (l: Option<Label>, next: nat, dot: bool, bad: Parsed)
    requires start < |s|
    ensures l.None? ==> bad == Onto(n, ParseLabels(s[start..], size)) && !bad.Parsed?
    ensures l.Some? ==> 1 <= |l.value| <= MAX_LABEL && |l.value| + 1 + size <= MAX_WIRE && start < next <= |s|
    ensures l.Some? && next == |s| ==> Onto(n, ParseLabels(s[start..], size)) == Parsed(n + [l.value], dot)
    ensures l.Some? && next < |s| ==>
              Onto(n, ParseLabels(s[start..], size)) ==
                Onto(n + [l.value], ParseLabels(s[next..], size + |l.value| + 1))
  {
    var k;
    k, dot := ScanLabel(s, start);
    l, next, bad := None, start, Invalid;
    BadLabel(s, start, size, n, k);
    if k == 0 || k > 252 {
      return;
    }
    var raw := DnsUnescape(s[start..start + k]);
    if raw.None? {
      bad := Broken;
      return;
    }
    if |raw.value| > MAX_LABEL || |raw.value| + 1 + size > MAX_WIRE {
      return;
    }
    UnescapeSome(s[start..start + k]);
    OntoStep(s, start, size, n, k, raw.value);
    l, next := Some(Lower(raw.value)), start + k + if dot then 1 else 0;
  }

  /** `gdnsd_dname_from_string`: the name's status, and the name itself. */
  method FromString(s: Bytes) returns (r: Parsed, d: Bytes)
    ensures r == Parse(s) && (r.Parsed? ==> NameOk(r.labels) && d == DnameOf(r.labels, r.full))
  {
    d := [];
    if |s| > 1004 {
      return Invalid, d;
    }
    if s == [] {
      return Parsed([], false), [1, PARTIAL_END];
    }
    if s == [DOT] {
      return Parsed([], true), [1, 0];
    }
    r, d := ParseAll(s);
  }

  /** The loop over the labels of a text that is neither empty nor the root's. */
  method ParseAll(s: Bytes) returns (r: Parsed, d: Bytes)
    requires s != []
    ensures r == ParseLabels(s, 1) && (r.Parsed? ==> NameOk(r.labels) && d == DnameOf(r.labels, r.full))
  {
    d := [];
    var n: Name := [];
    var w: Bytes, size: nat, start: nat := [], 1, 0;
    assert s[0..] == s && Onto([], ParseLabels(s, 1)) == ParseLabels(s, 1) by { OntoNothing(ParseLabels(s, 1)); }
    while true
      invariant 0 <= start < |s| && 0 <= size && Built(n, w, size)
      invariant Onto(n, ParseLabels(s[start..], size)) == ParseLabels(s, 1)
      decreases |s| - start
    {
      var l, next, dot, bad := ParseOne(s, start, size, n);
      if l.None? {
        return bad, d;
      }
      BuiltMore(n, w, size, l.value);
      n, w, size := n + [l.value], w + ([|l.value|] + l.value), size + |l.value| + 1;
      if next == |s| {
        BuiltDname(n, w, size, dot);
        return Parsed(n, dot), [size] + w + [End(dot)];
      }
      start := next;
    }
  }

  /** The labels read so far, as stored. */
  ghost predicate Built(n: Name, w: Bytes, size: nat) {
    LabelsOk(n) && size == WireSize(n) <= MAX_WIRE && w == WireOf(n)
  }

  lemma BuiltMore(n: Name, w: Bytes, size: nat, l: Label)
    requires Built(n, w, size) && 1 <= |l| <= MAX_LABEL && |l| + 1 + size <= MAX_WIRE
    ensures Built(n + [l], w + ([|l|] + l), size + |l| + 1)
  {
    WireMore(n, l);
  }

  lemma BuiltDname(n: Name, w: Bytes, size: nat, full: bool)
    requires Built(n, w, size)
    ensures NameOk(n) && DnameOf(n, full) == [size] + w + [End(full)]
  {
  }

  lemma OntoNothing(p: Parsed)
    ensures Onto([], p) == p
  {
    if p.Parsed? { assert [] + p.labels == p.labels; }
  }

  /** Print and parse, as the server does it: a clean name comes back byte for byte. */
  method PrintAndParse(d: Bytes, ghost n: Name, ghost full: bool) returns (r: Parsed, d': Bytes)
    requires NameOk(n) && d == DnameOf(n, full)
    ensures r.Parsed? && r.full == full && d' == d <==> CleanName(n)
  {
    var text := LogfDname(d, n, full);
    r, d' := FromString(text);
    RoundTrip(n, full);
    if r.Parsed? && r.full == full && d' == d {
      DnameInjective(r.labels, n, full);
    }
  }

  lemma DnameInjective(m: Name, n: Name, full: bool)
    requires NameOk(m) && NameOk(n) && DnameOf(m, full) == DnameOf(n, full)
    ensures m == n
  {
    assert DnameOf(m, full)[1..] == WireOf(m) + [End(full)] && DnameOf(n, full)[1..] == WireOf(n) + [End(full)];
    WireInjective(m, n, End(full));
  }

  lemma {:induction false} WireInjective(m: Name, n: Name, end: Byte)
    requires LabelsOk(m) && LabelsOk(n) && WireOf(m) + [end] == WireOf(n) + [end] && (end == 0 || end == PARTIAL_END)
    ensures m == n
    decreases |m|
  {
    var x, y := WireOf(m) + [end], WireOf(n) + [end];
    assert x[0] == if m == [] then end else |m[0]|;
    assert y[0] == if n == [] then end else |n[0]|;
    if m != [] && n != [] {
      var k := |m[0]|;
      assert x == [k] + m[0] + (WireOf(m[1..]) + [end]) && y == [k] + n[0] + (WireOf(n[1..]) + [end]);
      assert m[0] == x[1..1 + k] && n[0] == y[1..1 + k];
      assert WireOf(m[1..]) + [end] == x[1 + k..] && WireOf(n[1..]) + [end] == y[1 + k..];
      WireInjective(m[1..], n[1..], end);
      assert m == [m[0]] + m[1..] && n == [n[0]] + n[1..];
    }
  }
}
