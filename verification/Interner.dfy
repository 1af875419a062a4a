/**
  Interning of names: every distinct name is stored once.  The table is open-addressed
  with a power of two of slots; a name's probes move on by 1, 2, 3, … from the slot its
  hash selects, and the table is doubled before it is half full.
 */
module Interner {
  import opened Names
  import opened Bits
  import opened ChildTable

  // ---- Specification ---------------------------------------------------------------------

  /** Where a name's copy is after interning it: its old place, or a new one at the end. */
  function Intern(copies: seq<Bytes>, dn: Bytes): (r: (seq<Bytes>, nat)) {
    if dn in copies then (copies, FirstAt(copies, dn)) else (copies + [dn], |copies|)
  }

  function FirstAt(copies: seq<Bytes>, dn: Bytes): (i: nat)
    requires dn in copies
    ensures i < |copies| && copies[i] == dn
  {
    if copies[0] == dn then 0 else FirstAt(copies[1..], dn) + 1
  }

  ghost predicate AllDifferent(copies: seq<Bytes>) {
    forall i, j :: 0 <= i < j < |copies| ==> copies[i] != copies[j]
  }

  /** The copies after interning a list of names, one by one, and the copy each call returned. */
  function InternAll(copies: seq<Bytes>, dns: seq<Bytes>): (r: (seq<Bytes>, seq<nat>))
    ensures |r.1| == |dns|
    decreases |dns|
  {
    if dns == [] then (copies, [])
    else
      var (copies', id) := Intern(copies, dns[0]);
      var (copies'', ids) := InternAll(copies', dns[1..]);
      (copies'', [id] + ids)
  }

  lemma InternKeeps(copies: seq<Bytes>, dn: Bytes)
    requires AllDifferent(copies)
    ensures var (copies', id) := Intern(copies, dn);
            copies <= copies' && AllDifferent(copies') && id < |copies'| && copies'[id] == dn
  {
  }

  lemma {:induction false} InternAllKeeps(copies: seq<Bytes>, dns: seq<Bytes>)
    requires AllDifferent(copies)
    ensures var (copies', ids) := InternAll(copies, dns);
            copies <= copies' && AllDifferent(copies') &&
            forall k :: 0 <= k < |dns| ==> ids[k] < |copies'| && copies'[ids[k]] == dns[k]
    decreases |dns|
  {
    if dns != [] {
      InternKeeps(copies, dns[0]);
      InternAllKeeps(Intern(copies, dns[0]).0, dns[1..]);
    }
  }

  /** Over any sequence of calls, two calls return the same copy exactly when they were given the same name. */
  lemma SameCopyIffSameName(copies: seq<Bytes>, dns: seq<Bytes>, i: nat, j: nat)
    requires AllDifferent(copies) && i < |dns| && j < |dns|
    ensures InternAll(copies, dns).1[i] == InternAll(copies, dns).1[j] <==> dns[i] == dns[j]
  {
    InternAllKeeps(copies, dns);
  }

  // ---- Triangular probing ------------------------------------------------------------------

  function Tri(j: nat): nat {
    if j == 0 then 0 else Tri(j - 1) + j
  }

  lemma {:induction false} TriValue(j: nat)
    ensures 2 * Tri(j) == j * (j + 1)
  {
    if j != 0 { TriValue(j - 1); }
  }

  /** The slot of the `j`-th probe from home slot `h` in a table of 2^n slots. */
  function Probe(h: nat, j: nat, n: nat): (s: nat)
    ensures s < Pow2(n)
  {
    (h + Tri(j)) % Pow2(n)
  }

  /** A power of two that divides a product with an odd factor divides the other factor. */
  lemma {:induction false} OddFactor(a: nat, b: nat, q: nat, m: nat)
    requires a % 2 == 1 && a * b == q * Pow2(m)
    ensures b % Pow2(m) == 0
    decreases m
  {
    if m != 0 {
      var half := Pow2(m - 1);
      assert a * b == 2 * (q * half);
      EvenFactor(a, b);
      var c := b / 2;
      assert 2 * (a * c) == 2 * (q * half);
      OddFactor(a, c, q, m - 1);
      var k := c / half;
      assert c == k * half + c % half;
      assert b == k * Pow2(m);
      ModUnique(b, Pow2(m), k, 0);
    }
  }

  lemma EvenFactor(a: nat, b: nat)
    requires a % 2 == 1 && a * b % 2 == 0
    ensures b % 2 == 0
  {
    if b % 2 == 1 { OddProduct(a, b); }
  }

  lemma OddProduct(a: nat, b: nat)
    requires a % 2 == 1 && b % 2 == 1
    ensures a * b % 2 == 1
  {
    var x, y := a / 2, b / 2;
    assert a * b == (2 * x + 1) * (2 * y + 1) == 2 * (2 * x * y + x + y) + 1;
  }

  lemma {:induction false} TriGrows(i: nat, j: nat)
    requires i <= j
    ensures Tri(i) <= Tri(j) && 2 * (Tri(j) - Tri(i)) == (j - i) * (j + i + 1)
  {
    TriValue(i);
    TriValue(j);
    assert j * (j + 1) - i * (i + 1) == (j - i) * (j + i + 1);
    assert 0 <= (j - i) * (j + i + 1);
  }

  lemma SameResidue(x: nat, y: nat, p: nat) returns (q: nat)
    requires 0 < p && x <= y && x % p == y % p
    ensures y - x == q * p
  {
    q := y / p - x / p;
    assert x == x / p * p + x % p && y == y / p * p + y % p;
    assert y - x == (y / p - x / p) * p;
  }

  lemma NotMultiple(b: nat, p: nat)
    requires 0 < b < p
    ensures b % p != 0
  {
  }

  /** No two numbers, one odd and one even and both short of 2^m, multiply to a multiple of 2^m. */
  lemma NoSuchProduct(a: nat, b: nat, q: nat, m: nat)
    requires 0 < a < Pow2(m) && 0 < b < Pow2(m) && (a + b) % 2 == 1
    ensures a * b != q * Pow2(m)
  {
    if a % 2 == 1 {
      OneOdd(a, b, q, m);
    } else {
      OneOdd(b, a, q, m);
    }
  }

  lemma OneOdd(a: nat, b: nat, q: nat, m: nat)
    requires a % 2 == 1 && 0 < b < Pow2(m)
    ensures a * b != q * Pow2(m) && b * a != q * Pow2(m)
  {
    assert a * b == b * a;
    NotMultiple(b, Pow2(m));
    if a * b == q * Pow2(m) { OddFactor(a, b, q, m); }
  }

  lemma Doubled(d: nat, q: nat, p: nat, a: nat, b: nat)
    requires d == q * p && 2 * d == a * b
    ensures a * b == q * (2 * p)
  {
  }

  lemma ResiduesDiffer(x: nat, y: nat, a: nat, b: nat, n: nat)
    requires x <= y && 2 * (y - x) == a * b && 0 < a < Pow2(n + 1) && 0 < b < Pow2(n + 1) && (a + b) % 2 == 1
    ensures x % Pow2(n) != y % Pow2(n)
  {
    if x % Pow2(n) == y % Pow2(n) {
      var q := SameResidue(x, y, Pow2(n));
      Doubled(y - x, q, Pow2(n), a, b);
      NoSuchProduct(a, b, q, n + 1);
    }
  }

  /** The first 2^n probes all go to different slots. */
  lemma ProbesDiffer(h: nat, i: nat, j: nat, n: nat)
    requires i < j < Pow2(n)
    ensures Probe(h, i, n) != Probe(h, j, n)
  {
    TriGrows(i, j);
    ResiduesDiffer(h + Tri(i), h + Tri(j), j - i, j + i + 1, n);
  }

  /** One step of the probing loop. */
  lemma ProbeNext(h: nat, k: nat, n: nat, s: nat)
    requires s == Probe(h, k, n)
    ensures And(s + (k + 1), Pow2(n) - 1) == Probe(h, k + 1, n)
  {
    AndMask(s + (k + 1), n);
    StepResidue(h + Tri(k), k + 1, Pow2(n), s, h + Tri(k + 1));
  }

  lemma StepResidue(x: nat, c: nat, p: nat, s: nat, y: nat)
    requires p > 0 && s == x % p && y == x + c
    ensures (s + c) % p == y % p
  {
    ModDrop(x, c, p);
  }

  lemma ModDrop(x: nat, c: nat, p: nat)
    requires p > 0
    ensures (x % p + c) % p == (x + c) % p
  {
    var q, d, r := x / p, (x + c) / p, (x + c) % p;
    assert x == p * q + x % p && x + c == p * d + r;
    MulDiff(p, d, q);
    ModUnique(x % p + c, p, d - q, r);
  }

  // ---- The table -----------------------------------------------------------------------------

  /** `dname_djb_hash` before masking: all bytes but the length and the terminator. */
  function DnameHash(dn: Bytes): nat
    requires |dn| >= 2
  {
    HashFrom(5381, dn[1..|dn| - 1])
  }

  type Slots = seq<Option<nat>>

  ghost predicate NamesOk(copies: seq<Bytes>) {
    forall i {:trigger IsDname(copies[i])} :: 0 <= i < |copies| ==> IsDname(copies[i])
  }

  /** The first `k` probes from `h` meet copies. */
  ghost predicate Busy(t: Slots, h: nat, n: nat, k: nat)
    requires |t| == Pow2(n)
  {
    forall i {:trigger Probe(h, i, n)} :: 0 <= i < k ==> t[Probe(h, i, n)].Some?
  }

  /** Copy `id` is met by its own probes. */
  ghost predicate MetBy(t: Slots, h: nat, n: nat, id: nat, j: nat)
    requires |t| == Pow2(n)
  {
    t[Probe(h, j, n)] == Some(id) && Busy(t, h, n, j)
  }

  ghost predicate Met(t: Slots, h: nat, n: nat, id: nat)
    requires |t| == Pow2(n)
  {
    exists j :: MetBy(t, h, n, id, j)
  }

  /** The table holds the copies `ids`, each once and where its probes find it. */
  ghost predicate Indexes(t: Slots, n: nat, copies: seq<Bytes>, ids: set<nat>) {
    && |t| == Pow2(n) && NamesOk(copies)
    && (forall id :: id in ids ==> id < |copies|)
    && (forall s :: 0 <= s < |t| && t[s].Some? ==> t[s].value in ids)
    && (forall r, s :: 0 <= r < s < |t| && t[r].Some? && t[s].Some? ==> t[r].value != t[s].value)
    && (forall id {:trigger MetHere(t, n, copies, id)} :: id in ids ==> MetHere(t, n, copies, id))
  }

  ghost predicate MetHere(t: Slots, n: nat, copies: seq<Bytes>, id: nat)
    requires |t| == Pow2(n)
  {
    id < |copies| && |copies[id]| >= 2 && Met(t, DnameHash(copies[id]), n, id)
  }

  lemma {:induction false} SubsetSize<T>(a: set<T>, b: set<T>)
    requires a <= b
    ensures |a| <= |b|
  {
    if a != {} {
      var x :| x in a;
      SubsetSize(a - {x}, b - {x});
    }
  }

  /** The copies the first `k` probes meet. */
  ghost function Encountered(t: Slots, h: nat, n: nat, k: nat): set<nat>
    requires |t| == Pow2(n) && Busy(t, h, n, k)
  {
    if k == 0 then {} else Encountered(t, h, n, k - 1) + {t[Probe(h, k - 1, n)].value}
  }

  lemma {:induction false} EncounteredMet(t: Slots, h: nat, n: nat, k: nat, id: nat)
    requires |t| == Pow2(n) && Busy(t, h, n, k) && id in Encountered(t, h, n, k)
    ensures MetBefore(t, h, n, k, id)
  {
    if t[Probe(h, k - 1, n)].value != id {
      EncounteredMet(t, h, n, k - 1, id);
    }
  }

  lemma {:induction false} EncounteredSize(t: Slots, n: nat, copies: seq<Bytes>, ids: set<nat>, h: nat, k: nat)
    requires Indexes(t, n, copies, ids) && Busy(t, h, n, k) && k <= Pow2(n)
    ensures |Encountered(t, h, n, k)| == k && Encountered(t, h, n, k) <= ids
  {
    if k != 0 {
      EncounteredSize(t, n, copies, ids, h, k - 1);
      var id := t[Probe(h, k - 1, n)].value;
      NewOne(t, n, copies, ids, h, k - 1);
      if id in Encountered(t, h, n, k - 1) { EncounteredMet(t, h, n, k - 1, id); }
    }
  }

  ghost predicate MetBefore(t: Slots, h: nat, n: nat, k: nat, id: nat)
    requires |t| == Pow2(n)
  {
    exists i :: 0 <= i < k && t[Probe(h, i, n)] == Some(id)
  }

  /** The next probe meets a copy not met before. */
  lemma NewOne(t: Slots, n: nat, copies: seq<Bytes>, ids: set<nat>, h: nat, k: nat)
    requires Indexes(t, n, copies, ids) && k < Pow2(n) && t[Probe(h, k, n)].Some?
    ensures !MetBefore(t, h, n, k, t[Probe(h, k, n)].value)
  {
    forall i | 0 <= i < k ensures t[Probe(h, i, n)] != t[Probe(h, k, n)] {
      ProbesDiffer(h, i, k, n);
    }
  }

  /** So a run of probes that meets nothing but copies is no longer than the number of copies. */
  lemma ProbesBounded(t: Slots, n: nat, copies: seq<Bytes>, ids: set<nat>, h: nat, k: nat)
    requires Indexes(t, n, copies, ids) && Busy(t, h, n, k) && k <= Pow2(n)
    ensures k <= |ids|
  {
    EncounteredSize(t, n, copies, ids, h, k);
    SubsetSize(Encountered(t, h, n, k), ids);
  }

  lemma BusyMore(t: Slots, t': Slots, h: nat, n: nat, k: nat)
    requires |t| == |t'| == Pow2(n) && Busy(t, h, n, k) && forall s :: 0 <= s < |t| && t[s].Some? ==> t'[s] == t[s]
    ensures Busy(t', h, n, k)
  {
  }

  lemma MetMore(t: Slots, t': Slots, n: nat, copies: seq<Bytes>, copies': seq<Bytes>, id: nat)
    requires |t| == |t'| == Pow2(n) && MetHere(t, n, copies, id) && copies <= copies'
    requires forall s :: 0 <= s < |t| && t[s].Some? ==> t'[s] == t[s]
    ensures MetHere(t', n, copies', id)
  {
    var h := DnameHash(copies[id]);
    var j :| MetBy(t, h, n, id, j);
    BusyMore(t, t', h, n, j);
    assert MetBy(t', h, n, id, j);
  }

  /** Putting a copy where its probes first meet an empty slot. */
  lemma IndexesPut(t: Slots, n: nat, copies: seq<Bytes>, ids: set<nat>, copies': seq<Bytes>, id: nat, k: nat, slot: nat)
    requires Indexes(t, n, copies, ids) && copies <= copies' && id !in ids && id < |copies'| && NamesOk(copies')
    requires |copies'[id]| >= 2 && slot == Probe(DnameHash(copies'[id]), k, n)
    requires Busy(t, DnameHash(copies'[id]), n, k) && t[slot].None?
    ensures Indexes(t[slot := Some(id)], n, copies', ids + {id})
  {
    var t' := t[slot := Some(id)];
    forall i | i in ids ensures MetHere(t', n, copies', i) {
      assert MetHere(t, n, copies, i);
      MetMore(t, t', n, copies, copies', i);
    }
    var h := DnameHash(copies'[id]);
    BusyMore(t, t', h, n, k);
    assert MetBy(t', h, n, id, k);
    assert MetHere(t', n, copies', id);
  }

  /** A name whose probes meet other names and then an empty slot is not in the table. */
  lemma NotThere(t: Slots, n: nat, copies: seq<Bytes>, ids: set<nat>, dn: Bytes, k: nat, id: nat)
    requires Indexes(t, n, copies, ids) && IsDname(dn) && Busy(t, DnameHash(dn), n, k) && id in ids
    requires OthersMet(t, copies, dn, n, k)
    requires t[Probe(DnameHash(dn), k, n)].None?
    ensures copies[id] != dn
  {
    var h := DnameHash(dn);
    assert MetHere(t, n, copies, id);
    forall j: nat | MetBy(t, h, n, id, j) ensures copies[id] != dn {
      if j < k { assert OtherName(t, copies, Probe(h, j, n), dn); }
    }
  }

  ghost predicate OtherName(t: Slots, copies: seq<Bytes>, s: nat, dn: Bytes) {
    s < |t| && t[s].Some? && t[s].value < |copies| && copies[t[s].value] != dn
  }

  // ---- The operations ------------------------------------------------------------------------

  /** Probe for an empty slot. */
  method FreeSlot(t: array<Option<nat>>, mask: nat, dn: Bytes, ghost n: nat, ghost copies: seq<Bytes>,
                  ghost ids: set<nat>)
    returns (slot: nat, ghost k: nat)
    requires mask == Pow2(n) - 1 && IsDname(dn) && Indexes(t[..], n, copies, ids) && |ids| <= mask
    ensures slot == Probe(DnameHash(dn), k, n) < t.Length && t[slot].None? && Busy(t[..], DnameHash(dn), n, k)
  {
    ghost var h := DnameHash(dn);
    var jmp := 1;
    k := 0;
    slot := And(DnameHash(dn), mask);
    AndMask(h, n);
    ProbesBounded(t[..], n, copies, ids, h, 0);
    while t[slot].Some?
      invariant jmp == k + 1 && slot == Probe(h, k, n) < t.Length && Busy(t[..], h, n, k) && k <= |ids|
      decreases |ids| - k
    {
      BusyOneMore(t[..], h, n, k);
      ProbesBounded(t[..], n, copies, ids, h, k + 1);
      ProbeNext(h, k, n, slot);
      slot := And(slot + jmp, mask);
      jmp := jmp + 1;
      k := k + 1;
    }
  }

  lemma BusyOneMore(t: Slots, h: nat, n: nat, k: nat)
    requires |t| == Pow2(n) && Busy(t, h, n, k) && t[Probe(h, k, n)].Some?
    ensures Busy(t, h, n, k + 1)
  {
  }

  /** One copy into the new table. */
  method Rehash(t: array<Option<nat>>, mask: nat, copies: seq<Bytes>, id: nat, ghost n: nat, ghost ids: set<nat>)
    requires mask == Pow2(n) - 1 && Indexes(t[..], n, copies, ids) && |ids| <= mask
    requires id !in ids && id < |copies| && IsDname(copies[id])
    modifies t
    ensures Indexes(t[..], n, copies, ids + {id})
  {
    ghost var was := t[..];
    var slot, k := FreeSlot(t, mask, copies[id], n, copies, ids);
    IndexesPut(was, n, copies, ids, copies, id, k, slot);
    t[slot] := Some(id);
    assert t[..] == was[slot := Some(id)];
  }

  /** The first `k` probes for `dn` meet other names. */
  ghost predicate OthersMet(t: Slots, copies: seq<Bytes>, dn: Bytes, n: nat, k: nat)
    requires |dn| >= 2
  {
    forall i {:trigger Probe(DnameHash(dn), i, n)} :: 0 <= i < k ==>
      OtherName(t, copies, Probe(DnameHash(dn), i, n), dn)
  }

  /** Probe for a name: its copy, or the empty slot where it would go. */
  method Find(t: array<Option<nat>>, mask: nat, copies: seq<Bytes>, dn: Bytes, ghost n: nat)
    returns (found: Option<nat>, slot: nat, ghost k: nat)
    requires mask == Pow2(n) - 1 && IsDname(dn) && Indexes(t[..], n, copies, Upto(|copies|)) && |copies| <= mask
    ensures found.Some? ==> found.value < |copies| && copies[found.value] == dn
    ensures found.None? ==> dn !in copies && slot == Probe(DnameHash(dn), k, n) < t.Length && t[slot].None?
    ensures found.None? ==> Busy(t[..], DnameHash(dn), n, k)
  {
    ghost var h := DnameHash(dn);
    UptoSize(|copies|);
    var jmp := 1;
    k := 0;
    slot := And(DnameHash(dn), mask);
    AndMask(h, n);
    while t[slot].Some?
      invariant jmp == k + 1 && slot == Probe(h, k, n) < t.Length && Busy(t[..], h, n, k) && k <= |copies|
      invariant OthersMet(t[..], copies, dn, n, k)
      decreases |copies| - k
    {
      InUpto(t[..], n, copies, |copies|, slot);
      if copies[t[slot].value] == dn {
        return t[slot], slot, k;
      }
      BusyOneMore(t[..], h, n, k);
      ProbesBounded(t[..], n, copies, Upto(|copies|), h, k + 1);
      ProbeNext(h, k, n, slot);
      slot := And(slot + jmp, mask);
      jmp := jmp + 1;
      k := k + 1;
    }
    found := None;
    forall id | 0 <= id < |copies| ensures copies[id] != dn {
      NotThere(t[..], n, copies, Upto(|copies|), dn, k, id);
    }
  }

  class NameTable {
    var table: array<Option<nat>>
    var mask: nat
    var count: nat
    /** The stored copies; a copy's identity is its place here. */
    var copies: seq<Bytes>
    ghost var bits: nat

    ghost predicate Valid()
      reads this, table
    {
      && bits >= 1 && mask == Pow2(bits) - 1 && table.Length == mask + 1 && count == |copies| <= mask / 2
      && AllDifferent(copies) && Indexes(table[..], bits, copies, Upto(count))
    }

    /** `lta_init`: 512 empty slots. */
    constructor ()
      ensures Valid() && copies == [] && fresh(table)
    {
      bits, mask, count, copies := 9, 511, 0, [];
      table := new Option<nat>[512](i => None);
      new;
      assert Pow2(9) == 512 by { assert Pow2(5) == 32; }
      EmptyIndexes(table[..], 9, []);
      assert Upto(0) == {};
    }

    /** `lta_dnamedup_hashed`: the one stored copy of a name. */
    method DnamedupHashed(dn: Bytes) returns (id: nat)
      requires Valid() && IsDname(dn)
      modifies this, table
      ensures Valid() && (table == old(table) || fresh(table))
      ensures (copies, id) == Intern(old(copies), dn)
    {
      var found, slot, k := Find(table, mask, copies, dn, bits);
      if found.Some? {
        SameCopy(copies, dn, found.value);
        return found.value;
      }
      id := |copies|;
      Put(dn, slot, k);
      if count > mask / 2 {
        Grow();
      }
    }

    method Put(dn: Bytes, slot: nat, ghost k: nat)
      requires Valid() && IsDname(dn) && dn !in copies && slot == Probe(DnameHash(dn), k, bits)
      requires table[slot].None? && Busy(table[..], DnameHash(dn), bits, k)
      modifies this`copies, this`count, table
      ensures copies == old(copies) + [dn] && count == |copies| && AllDifferent(copies)
      ensures Indexes(table[..], bits, copies, Upto(count))
    {
      ghost var was := table[..];
      IndexesPut(was, bits, copies, Upto(count), copies + [dn], |copies|, k, slot);
      table[slot] := Some(|copies|);
      assert table[..] == was[slot := Some(|copies|)];
      copies, count := copies + [dn], count + 1;
    }

    /** `dnhash_grow`: twice the slots, and every copy in its place among them. */
    method Grow()
      requires bits >= 1 && mask == Pow2(bits) - 1 && table.Length == mask + 1 && count == |copies| <= mask
      requires Indexes(table[..], bits, copies, Upto(count))
      modifies this`table, this`mask, this`bits
      ensures fresh(table) && bits == old(bits) + 1 && mask == Pow2(bits) - 1 && table.Length == mask + 1
      ensures Indexes(table[..], bits, copies, Upto(count))
    {
      var newMask := 2 * mask + 1;
      ghost var n := bits + 1;
      var grown := new Option<nat>[newMask + 1](i => None);
      ghost var ids: set<nat> := {};
      EmptyIndexes(grown[..], n, copies);
      var i := 0;
      while i <= mask
        invariant 0 <= i <= mask + 1 && Indexes(grown[..], n, copies, ids) && ids <= Upto(count)
        invariant forall s :: 0 <= s < i && table[s].Some? ==> table[s].value in ids
        invariant forall s :: i <= s <= mask && table[s].Some? ==> table[s].value !in ids
        modifies grown
      {
        if table[i].Some? {
          var id := table[i].value;
          InUpto(table[..], bits, copies, count, i);
          SubsetSize(ids, Upto(count));
          UptoSize(count);
          Rehash(grown, newMask, copies, id, n, ids);
          ids := ids + {id};
        }
        i := i + 1;
      }
      AllMoved(table[..], bits, copies, count, ids);
      table, mask, bits := grown, newMask, n;
    }
  }

  lemma SameCopy(copies: seq<Bytes>, dn: Bytes, id: nat)
    requires AllDifferent(copies) && id < |copies| && copies[id] == dn
    ensures Intern(copies, dn) == (copies, id)
  {
  }

  /** The first `n` numbers. */
  ghost function Upto(n: nat): (s: set<nat>)
    ensures forall i :: i in s <==> 0 <= i < n
  {
    if n == 0 then {} else Upto(n - 1) + {n - 1}
  }

  lemma {:induction false} UptoSize(n: nat)
    ensures |Upto(n)| == n
  {
    if n != 0 {
      UptoSize(n - 1);
    }
  }

  lemma EmptyIndexes(t: Slots, n: nat, copies: seq<Bytes>)
    requires |t| == Pow2(n) && NamesOk(copies) && forall s :: 0 <= s < |t| ==> t[s].None?
    ensures Indexes(t, n, copies, {})
  {
  }

  lemma InUpto(t: Slots, n: nat, copies: seq<Bytes>, count: nat, s: nat)
    requires Indexes(t, n, copies, Upto(count)) && s < |t| && t[s].Some? && count == |copies|
    ensures t[s].value < count && IsDname(copies[t[s].value])
  {
    assert t[s].value in Upto(count);
  }

  /** Every copy is met in some slot, so moving the slots moves all copies. */
  lemma AllMoved(t: Slots, n: nat, copies: seq<Bytes>, count: nat, ids: set<nat>)
    requires Indexes(t, n, copies, Upto(count)) && ids <= Upto(count)
    requires forall s :: 0 <= s < |t| && t[s].Some? ==> t[s].value in ids
    ensures ids == Upto(count)
  {
    forall id | id in Upto(count) ensures id in ids {
      assert MetHere(t, n, copies, id);
      var h := DnameHash(copies[id]);
      var j :| MetBy(t, h, n, id, j);
      assert t[Probe(h, j, n)] == Some(id);
    }
  }
}
