/**
  Names as text (section 5.1 of RFC 1035): the printer used in log messages and the
  parser of configuration and zone data.  A partial name is one without the final dot.
 */
module DnameText {
  import opened Names

  const DOT := 0x2E
  const SLASH := 0x5C
  const ZERO := 0x30

  predicate Printable(b: Byte) { 0x20 < b < 0x7F }

  predicate IsDigit(b: Byte) { 0x30 <= b <= 0x39 }

  /** Labels of 1 to 63 bytes, of at most 255 bytes in wire form. */
  ghost predicate NameOk(n: Name) {
    (forall i :: 0 <= i < |n| ==> 1 <= |n[i]| <= MAX_LABEL) && WireSize(n) <= MAX_WIRE
  }

  /** The length in wire form, terminator included. */
  function WireSize(n: Name): nat {
    if n == [] then 1 else |n[0]| + 1 + WireSize(n[1..])
  }

  // ---- Printing ----------------------------------------------------------------------------

  function ByteText(b: Byte): Bytes {
    if Printable(b) then [b] else [SLASH, ZERO + b / 100, ZERO + b / 10 % 10, ZERO + b % 10]
  }

  function LabelText(l: Label): Bytes {
    if l == [] then [] else ByteText(l[0]) + LabelText(l[1..])
  }

  /** The labels with dots between them, and a final one if `full`. */
  function LabelsText(n: Name, full: bool): Bytes
    requires n != []
  {
    if |n| == 1 then LabelText(n[0]) + if full then [DOT] else []
    else LabelText(n[0]) + [DOT] + LabelsText(n[1..], full)
  }

  function Text(n: Name, full: bool): Bytes {
    if n == [] then (if full then [DOT] else []) else LabelsText(n, full)
  }

  // ---- Parsing -----------------------------------------------------------------------------

  /** Where the first dot that is not escaped is; the end if there is none. */
  function LabelEnd(s: Bytes, escaped: bool): (k: nat)
    ensures k <= |s|
  {
    if s == [] then 0
    else if escaped then 1 + LabelEnd(s[1..], false)
    else if s[0] == SLASH then 1 + LabelEnd(s[1..], true)
    else if s[0] == DOT then 0
    else 1 + LabelEnd(s[1..], false)
  }

  /** `gdnsd_dns_unescape`; None where it relies on escapes being whole. */
  function Unescape(s: Bytes): Option<Bytes>
    decreases |s|
  {
    if s == [] then Some([])
    else if s[0] != SLASH then Prepend(s[0], Unescape(s[1..]))
    else if |s| < 2 then None
    else if IsDigit(s[1]) then
      if |s| < 4 || !IsDigit(s[2]) || !IsDigit(s[3]) || Decimal(s[1], s[2], s[3]) > 255 then None
      else Prepend(Decimal(s[1], s[2], s[3]), Unescape(s[4..]))
    else Prepend(s[1], Unescape(s[2..]))
  }

  function Decimal(a: Byte, b: Byte, c: Byte): nat
    requires IsDigit(a) && IsDigit(b) && IsDigit(c)
  {
    (a - ZERO) * 100 + (b - ZERO) * 10 + (c - ZERO)
  }

  function Prepend(b: nat, r: Option<Bytes>): Option<Bytes>
    requires b < 0x100
  {
    if r.Some? then Some([b] + r.value) else None
  }

  function Lower(l: Label): (r: Label)
    ensures |r| == |l| && forall i :: 0 <= i < |l| ==> r[i] == Lc(l[i])
  {
    seq(|l|, i requires 0 <= i < |l| => Lc(l[i]))
  }

  /** `Broken` is for escapes the parser takes to be whole and that are not. */
  datatype Parsed = Invalid | Broken | Parsed(labels: Name, full: bool)

  /** The labels of a text that is not empty; `size` is the wire length so far. */
  function ParseLabels(s: Bytes, size: nat): Parsed
    requires s != []
    decreases |s|
  {
    var k := LabelEnd(s, false);
    if k == 0 then Invalid
    else if k > 252 then Invalid
    else
      match Unescape(s[..k])
      case None => Broken
      case Some(l) =>
        if |l| > MAX_LABEL || |l| + 1 + size > MAX_WIRE then Invalid
        else if k == |s| then Parsed([Lower(l)], false)
        else if k + 1 == |s| then Parsed([Lower(l)], true)
        else
          match ParseLabels(s[k + 1..], size + |l| + 1)
          case Parsed(rest, full) => Parsed([Lower(l)] + rest, full)
          case bad => bad
  }

  /** `gdnsd_dname_from_string`. */
  function Parse(s: Bytes): Parsed {
    if |s| > 1004 then Invalid
    else if s == [] then Parsed([], false)
    else if s == [DOT] then Parsed([], true)
    else ParseLabels(s, 1)
  }

  // ---- Parsing undoes printing ----------------------------------------------------------------

  /** Bytes the printer shows as they are though the parser gives them a meaning or changes them. */
  predicate Clean(b: Byte) { b != DOT && b != SLASH && Lc(b) == b }

  ghost predicate CleanLabel(l: Label) { forall i :: 0 <= i < |l| ==> Clean(l[i]) }

  ghost predicate CleanName(n: Name) { forall i :: 0 <= i < |n| ==> CleanLabel(n[i]) }

  lemma {:induction false} LabelTextSize(l: Label)
    ensures |l| <= |LabelText(l)| <= 4 * |l|
  {
    if l != [] { LabelTextSize(l[1..]); }
  }

  lemma TextByte(b: Byte, rest: Bytes)
    requires Clean(b)
    ensures LabelEnd(ByteText(b) + rest, false) == |ByteText(b)| + LabelEnd(rest, false)
    ensures Unescape(ByteText(b) + rest) == Prepend(b, Unescape(rest))
  {
    var s := ByteText(b) + rest;
    if Printable(b) {
      assert s[1..] == rest;
    } else {
      var d1, d2, d3 := ZERO + b / 100, ZERO + b / 10 % 10, ZERO + b % 10;
      assert s[1..][1..][1..][1..] == rest && s[4..] == rest;
      assert s[1..][0] == d1 && s[1..][1..][0] == d2 && s[1..][1..][1..][0] == d3;
      assert LabelEnd(s, false) == 1 + LabelEnd(s[1..], true) == 2 + LabelEnd(s[1..][1..], false);
      assert LabelEnd(s[1..][1..], false) == 1 + LabelEnd(s[1..][1..][1..], false);
      assert Decimal(d1, d2, d3) == b;
    }
  }

  lemma Regroup(a: Bytes, b: Bytes, c: Bytes)
    ensures (a + b) + c == a + (b + c)
  {
  }

  lemma EndsStep(b: Byte, more: Bytes, rest: Bytes, t: Bytes)
    requires Clean(b) && t == ByteText(b) + more && LabelEnd(more + rest, false) == |more|
    ensures LabelEnd(t + rest, false) == |t|
  {
    TextByte(b, more + rest);
    Regroup(ByteText(b), more, rest);
  }

  /** A clean label's text ends where it should. */
  lemma {:induction false} LabelEnds(l: Label, rest: Bytes, t: Bytes)
    requires CleanLabel(l) && (rest == [] || rest[0] == DOT) && t == LabelText(l)
    ensures LabelEnd(t + rest, false) == |t|
    decreases |l|
  {
    if l != [] {
      var more := LabelText(l[1..]);
      LabelEnds(l[1..], rest, more);
      EndsStep(l[0], more, rest, t);
    } else {
      assert t + rest == rest;
    }
  }

  /** And it reads back as the label. */
  lemma {:induction false} LabelRoundTrip(l: Label)
    requires CleanLabel(l)
    ensures Unescape(LabelText(l)) == Some(l)
    decreases |l|
  {
    if l != [] {
      LabelRoundTrip(l[1..]);
      TextByte(l[0], LabelText(l[1..]));
      assert [l[0]] + l[1..] == l;
    }
  }

  lemma LowerClean(l: Label)
    requires CleanLabel(l)
    ensures Lower(l) == l
  {
  }

  /** One label of a text: what comes before the dot, and what is parsed after it. */
  lemma FirstLabel(s: Bytes, l: Label, t: Bytes, rest: Bytes, size: nat)
    requires 1 <= |l| <= MAX_LABEL && CleanLabel(l) && t == LabelText(l) && s == t + rest
    requires (rest == [] || rest[0] == DOT)
    requires size + |l| + 1 <= MAX_WIRE
    ensures s != [] && ParseLabels(s, size) ==
              if |rest| <= 1 then Parsed([l], rest != [])
              else
                match ParseLabels(rest[1..], size + |l| + 1)
                case Parsed(more, full) => Parsed([l] + more, full)
                case bad => bad
  {
    LabelTextSize(l);
    LowerClean(l);
    LabelEnds(l, rest, t);
    LabelRoundTrip(l);
    assert s[..|t|] == t;
    if |rest| > 1 { assert s[|t| + 1..] == rest[1..]; }
  }

  lemma {:induction false} LabelsRoundTrip(n: Name, full: bool, size: nat)
    requires n != [] && CleanName(n) && (forall i :: 0 <= i < |n| ==> 1 <= |n[i]| <= MAX_LABEL)
    requires size + WireSize(n) - 1 <= MAX_WIRE
    ensures LabelsText(n, full) != [] && ParseLabels(LabelsText(n, full), size) == Parsed(n, full)
    decreases |n|
  {
    WirePositive(n[1..]);
    if |n| == 1 {
      OneLabel(n, full, size);
    } else {
      LabelsRoundTrip(n[1..], full, size + |n[0]| + 1);
      OneMoreLabel(n, full, size);
    }
  }

  lemma OneLabel(n: Name, full: bool, size: nat)
    requires |n| == 1 && CleanLabel(n[0]) && 1 <= |n[0]| <= MAX_LABEL && size + |n[0]| + 1 <= MAX_WIRE
    ensures LabelsText(n, full) != [] && ParseLabels(LabelsText(n, full), size) == Parsed(n, full)
  {
    assert n == [n[0]];
    FirstLabel(LabelsText(n, full), n[0], LabelText(n[0]), if full then [DOT] else [], size);
  }

  lemma OneMoreLabel(n: Name, full: bool, size: nat)
    requires |n| > 1 && CleanLabel(n[0]) && 1 <= |n[0]| <= MAX_LABEL && size + |n[0]| + 1 <= MAX_WIRE
    requires LabelsText(n[1..], full) != []
    requires ParseLabels(LabelsText(n[1..], full), size + |n[0]| + 1) == Parsed(n[1..], full)
    ensures LabelsText(n, full) != [] && ParseLabels(LabelsText(n, full), size) == Parsed(n, full)
  {
    var t, more := LabelText(n[0]), LabelsText(n[1..], full);
    Regroup(t, [DOT], more);
    assert ([DOT] + more)[1..] == more && [n[0]] + n[1..] == n;
    FirstLabel(LabelsText(n, full), n[0], t, [DOT] + more, size);
  }

  lemma WirePositive(n: Name)
    ensures WireSize(n) >= 1
  {
  }

  /** The sum of the label lengths. */
  function Chars(n: Name): nat {
    if n == [] then 0 else |n[0]| + Chars(n[1..])
  }

  lemma {:induction false} SizeOfName(n: Name)
    requires forall i :: 0 <= i < |n| ==> |n[i]| <= MAX_LABEL
    ensures WireSize(n) == Chars(n) + |n| + 1 && Chars(n) <= MAX_LABEL * |n|
  {
    if n != [] { SizeOfName(n[1..]); }
  }

  lemma {:induction false} LabelsTextSize(n: Name, full: bool)
    requires n != []
    ensures |LabelsText(n, full)| <= 4 * Chars(n) + |n|
  {
    LabelTextSize(n[0]);
    if |n| > 1 {
      LabelsTextSize(n[1..], full);
    } else {
      assert n[1..] == [];
    }
  }

  /** No name prints to more than 1004 bytes, so none is refused for its length, and the buffer of 1024 holds it. */
  lemma TextFits(n: Name, full: bool)
    requires NameOk(n)
    ensures |Text(n, full)| <= 1004
  {
    SizeOfName(n);
    if n != [] { LabelsTextSize(n, full); }
  }

  lemma RoundTripClean(n: Name, full: bool)
    requires NameOk(n) && CleanName(n)
    ensures Parse(Text(n, full)) == Parsed(n, full)
  {
    TextFits(n, full);
    if n != [] {
      LabelsRoundTrip(n, full, 1);
      NotJustDot(n, full);
    }
  }

  lemma NotJustDot(n: Name, full: bool)
    requires n != [] && forall i :: 0 <= i < |n| ==> 1 <= |n[i]|
    requires CleanLabel(n[0])
    ensures LabelsText(n, full) != [DOT] && LabelsText(n, full) != []
  {
    var l := n[0];
    assert LabelText(l) == ByteText(l[0]) + LabelText(l[1..]);
    assert LabelsText(n, full)[0] == ByteText(l[0])[0];
  }

  // ---- And only of clean names ------------------------------------------------------------------

  ghost predicate AllPrintable(s: Bytes) { forall i :: 0 <= i < |s| ==> Printable(s[i]) }

  /** The fewest printable bytes that parse to a byte. */
  function Needed(b: Byte): nat {
    if !Printable(b) then 4 else if b == DOT || b == SLASH then 2 else 1
  }

  function Cost(l: Label): nat {
    if l == [] then 0 else Needed(l[0]) + Cost(l[1..])
  }

  function CostOf(n: Name): nat {
    if n == [] then 0 else Cost(n[0]) + CostOf(n[1..])
  }

  function ShownOf(n: Name): nat {
    if n == [] then 0 else |LabelText(n[0])| + ShownOf(n[1..])
  }

  lemma LowerStep(b: nat, l: Label)
    requires b < 0x100
    ensures Lower([b] + l) == [Lc(b)] + Lower(l)
    ensures Cost(Lower([b] + l)) == Needed(Lc(b)) + Cost(Lower(l))
  {
    assert Lower([b] + l) == [Lc(b)] + Lower(l);
  }

  /** A printable text without open dots is at least as long as what it parses to needs. */
  lemma {:induction false} LabelCost(s: Bytes)
    requires AllPrintable(s) && LabelEnd(s, false) == |s| && Unescape(s).Some?
    ensures |s| >= Cost(Lower(Unescape(s).value))
    decreases |s|
  {
    if s != [] {
      if s[0] != SLASH {
        LabelCost(s[1..]);
        LowerStep(s[0], Unescape(s[1..]).value);
      } else if IsDigit(s[1]) {
        DigitsEnd(s);
        LabelCost(s[4..]);
        LowerStep(Decimal(s[1], s[2], s[3]), Unescape(s[4..]).value);
      } else {
        assert s[1..][1..] == s[2..];
        LabelCost(s[2..]);
        LowerStep(s[1], Unescape(s[2..]).value);
      }
    }
  }

  lemma DigitsEnd(s: Bytes)
    requires |s| >= 4 && s[0] == SLASH && IsDigit(s[1]) && IsDigit(s[2]) && IsDigit(s[3]) && LabelEnd(s, false) == |s|
    ensures LabelEnd(s[4..], false) == |s| - 4
  {
    var a, b, c := s[1..], s[2..], s[3..];
    assert a[1..] == b && b[1..] == c && c[1..] == s[4..];
    assert LabelEnd(s, false) == 1 + LabelEnd(a, true);
    assert LabelEnd(a, true) == 1 + LabelEnd(b, false);
    assert LabelEnd(b, false) == 1 + LabelEnd(c, false);
  }

  lemma {:induction false} EndOfPrefix(s: Bytes, escaped: bool)
    ensures LabelEnd(s[..LabelEnd(s, escaped)], escaped) == LabelEnd(s, escaped)
    decreases |s|
  {
    var k := LabelEnd(s, escaped);
    if s != [] && k != 0 {
      var next := !escaped && s[0] == SLASH;
      EndOfPrefix(s[1..], next);
      assert s[..k][1..] == s[1..][..k - 1];
    }
  }

  lemma {:induction false} ParseCost(s: Bytes, size: nat)
    requires s != [] && AllPrintable(s) && ParseLabels(s, size).Parsed?
    ensures var n := ParseLabels(s, size).labels;
            n != [] && |s| >= CostOf(n) + |n| - (if ParseLabels(s, size).full then 0 else 1)
    decreases |s|
  {
    var k := LabelEnd(s, false);
    EndOfPrefix(s, false);
    LabelCost(s[..k]);
    var l := Lower(Unescape(s[..k]).value);
    if k + 1 < |s| {
      ParseCost(s[k + 1..], size + |l| + 1);
      CostMore(l, ParseLabels(s[k + 1..], size + |l| + 1).labels);
    } else {
      CostMore(l, []);
      assert [l] + [] == [l];
    }
  }

  lemma CostMore(l: Label, n: Name)
    ensures CostOf([l] + n) == Cost(l) + CostOf(n)
  {
  }

  /** All labels a parse gives are in lower case. */
  lemma {:induction false} ParseIsLower(s: Bytes, size: nat)
    requires s != [] && ParseLabels(s, size).Parsed?
    ensures forall i, j :: 0 <= i < |ParseLabels(s, size).labels| && 0 <= j < |ParseLabels(s, size).labels[i]| ==>
              var b := ParseLabels(s, size).labels[i][j]; Lc(b) == b
    decreases |s|
  {
    var k := LabelEnd(s, false);
    var l := Unescape(s[..k]).value;
    if k + 1 < |s| { ParseIsLower(s[k + 1..], size + |l| + 1); }
  }

  lemma {:induction false} ShownSize(n: Name, full: bool)
    requires n != []
    ensures |LabelsText(n, full)| == ShownOf(n) + |n| - (if full then 0 else 1)
  {
    if |n| > 1 {
      ShownSize(n[1..], full);
    } else {
      assert n[1..] == [];
    }
  }

  lemma {:induction false} LabelTextPrintable(l: Label)
    ensures AllPrintable(LabelText(l))
  {
    if l != [] { LabelTextPrintable(l[1..]); }
  }

  lemma {:induction false} TextPrintable(n: Name, full: bool)
    requires n != []
    ensures AllPrintable(LabelsText(n, full))
  {
    LabelTextPrintable(n[0]);
    if |n| > 1 { TextPrintable(n[1..], full); }
  }

  /** Text takes no more than it needs; exactly as much only where nothing has to be escaped that is not. */
  lemma {:induction false} ShownLess(l: Label)
    ensures |LabelText(l)| <= Cost(l)
    ensures |LabelText(l)| == Cost(l) ==> forall i :: 0 <= i < |l| ==> l[i] != DOT && l[i] != SLASH
  {
    if l != [] {
      ShownLess(l[1..]);
      forall i | 0 <= i < |l| && |LabelText(l)| == Cost(l) ensures l[i] != DOT && l[i] != SLASH {
        if i > 0 { assert l[i] == l[1..][i - 1]; }
      }
    }
  }

  lemma {:induction false} NameShownLess(n: Name)
    ensures ShownOf(n) <= CostOf(n)
    ensures ShownOf(n) == CostOf(n) ==> forall i :: 0 <= i < |n| ==> |LabelText(n[i])| == Cost(n[i])
  {
    if n != [] {
      ShownLess(n[0]);
      NameShownLess(n[1..]);
      forall i | 0 <= i < |n| && ShownOf(n) == CostOf(n) ensures |LabelText(n[i])| == Cost(n[i]) {
        if i > 0 { assert n[i] == n[1..][i - 1]; }
      }
    }
  }

  lemma RoundTripOnlyClean(n: Name, full: bool)
    requires n != [] && Parse(Text(n, full)) == Parsed(n, full)
    ensures CleanName(n)
  {
    var s := LabelsText(n, full);
    TextPrintable(n, full);
    ParseCost(s, 1);
    ParseIsLower(s, 1);
    ShownSize(n, full);
    NameShownLess(n);
    forall i | 0 <= i < |n| ensures CleanLabel(n[i]) {
      ShownLess(n[i]);
    }
  }

  /**
    The theorem: parsing what was printed gives the name back, full or partial as it was, exactly when the
    name is in lower case and has no dot or backslash inside a label.
   */
  lemma RoundTrip(n: Name, full: bool)
    requires NameOk(n)
    ensures Parse(Text(n, full)) == Parsed(n, full) <==> CleanName(n)
  {
    if CleanName(n) {
      RoundTripClean(n, full);
    }
    if n != [] && Parse(Text(n, full)) == Parsed(n, full) {
      RoundTripOnlyClean(n, full);
    }
  }
}
