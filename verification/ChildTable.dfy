/**
  The hash table of children that every node of the label tree carries: a power of
  two of chained slots.  While zones load, the mask field holds the number of
  children and the slot mask is computed from it; afterwards it holds the mask.
 */
module ChildTable {
  import opened Names
  import opened Bits

  /** A child: its label, and the identity of its node. */
  datatype Entry = Entry(key: Label, node: nat)

  /** `mask` is the `child_hash_mask` field; no slots stands for a table not yet allocated. */
  datatype Table = Table(mask: nat, slots: seq<seq<Entry>>)

  const EMPTY := Table(0, [])

  function HashStep(h: nat, b: Byte): nat {
    Xor(h * 33 % WORD, b)
  }

  function HashFrom(h: nat, s: Bytes): nat
    decreases |s|
  {
    if s == [] then h else HashFrom(HashStep(h, s[0]), s[1..])
  }

  /** `label_djb_hash`: the hash of a label cut to a mask. */
  function Slot(key: Label, mask: nat): nat {
    And(HashFrom(5381, key), mask)
  }

  lemma SlotInRange(key: Label, x: nat)
    ensures Slot(key, Mask(x)) <= Mask(x)
  {
    var n := BitLen(SetLow(x));
    AndMask(HashFrom(5381, key), n);
  }

  ghost predicate Has(c: seq<Entry>, key: Label) {
    exists k :: 0 <= k < |c| && c[k].key == key
  }

  /** No label occurs twice in a chain. */
  ghost predicate Distinct(c: seq<Entry>) {
    forall i, j :: 0 <= i < j < |c| ==> c[i].key != c[j].key
  }

  /** Every entry sits in its slot and is one of `m`'s. */
  ghost predicate Placed(slots: seq<seq<Entry>>, mask: nat, m: map<Label, nat>) {
    forall s, k :: 0 <= s < |slots| && 0 <= k < |slots[s]| ==>
      var e := slots[s][k];
      e.key in m && m[e.key] == e.node && Slot(e.key, mask) == s
  }

  /** The slots hold exactly the children in `m`, each once, in the slot its hash selects under `mask`. */
  ghost predicate Holds(slots: seq<seq<Entry>>, mask: nat, m: map<Label, nat>) {
    && |slots| == mask + 1
    && Placed(slots, mask, m)
    && (forall s :: 0 <= s < |slots| ==> Distinct(slots[s]))
    && (forall l :: l in m ==> 0 <= Slot(l, mask) < |slots| && Has(slots[Slot(l, mask)], l))
  }

  /** The table represents `m`. */
  ghost predicate Represents(t: Table, m: map<Label, nat>) {
    if t.slots == [] then m == map[] else Holds(t.slots, Mask(t.mask), m)
  }

  /** While loading, the mask field is the number of children. */
  ghost predicate Counting(t: Table, m: map<Label, nat>) {
    Represents(t, m) && t.mask == |m|
  }

  /** After loading, the mask field is the slot mask itself. */
  ghost predicate Direct(t: Table) {
    t.mask == Mask(t.mask)
  }

  /** What a lookup finds, given the mask it hashes with. */
  ghost predicate Finds(t: Table, m: map<Label, nat>, key: Label, r: Option<nat>) {
    r == if key in m then Some(m[key]) else None
  }

  /** Walk one chain of the table. */
  method FindInSlot(t: Table, mask: nat, key: Label, ghost m: map<Label, nat>) returns (r: Option<nat>)
    requires t.slots != [] && Holds(t.slots, mask, m) && Slot(key, mask) <= mask
    ensures Finds(t, m, key, r)
  {
    var chain := t.slots[Slot(key, mask)];
    var k := 0;
    while k < |chain|
      invariant k <= |chain|
      invariant forall i :: 0 <= i < k ==> chain[i].key != key
    {
      if chain[k].key == key {
        return Some(chain[k].node);
      }
      k := k + 1;
    }
    return None;
  }

  /** `ltree_node_find_child`: the slot mask is recomputed from the field, count or mask alike. */
  method FindChild(t: Table, key: Label, ghost m: map<Label, nat>) returns (r: Option<nat>)
    requires Represents(t, m)
    ensures Finds(t, m, key, r)
  {
    var mask := Mask(t.mask);
    SlotInRange(key, t.mask);
    if t.slots == [] {
      return None;
    }
    r := FindInSlot(t, mask, key, m);
  }

  /** The run-time lookup: hashes with the field as it stands, which `FixMask` made a mask. */
  method FindDirect(t: Table, key: Label, ghost m: map<Label, nat>) returns (r: Option<nat>)
    requires Represents(t, m) && Direct(t) && t.slots != []
    ensures Finds(t, m, key, r)
  {
    SlotInRange(key, t.mask);
    r := FindInSlot(t, t.mask, key, m);
  }

  // ---- Growth ------------------------------------------------------------------------

  /** Progress of rehashing: `seen` are the labels already moved to `grown`. */
  ghost predicate Moved(grown: seq<seq<Entry>>, mask: nat, m: map<Label, nat>, seen: set<Label>) {
    && |grown| == mask + 1
    && Placed(grown, mask, m)
    && (forall s :: 0 <= s < |grown| ==> Distinct(grown[s]))
    && (forall l :: l in seen ==> 0 <= Slot(l, mask) < |grown| && Has(grown[Slot(l, mask)], l))
    && (forall s, k :: 0 <= s < |grown| && 0 <= k < |grown[s]| ==> grown[s][k].key in seen)
  }

  lemma MoveOne(grown: seq<seq<Entry>>, mask: nat, m: map<Label, nat>, seen: set<Label>, e: Entry)
    requires Moved(grown, mask, m, seen) && e.key in m && m[e.key] == e.node && e.key !in seen
    requires 0 <= Slot(e.key, mask) < |grown|
    ensures var h := Slot(e.key, mask);
            Moved(grown[h := grown[h] + [e]], mask, m, seen + {e.key})
  {
    var h := Slot(e.key, mask);
    var c := grown[h] + [e];
    var grown' := grown[h := c];
    assert forall i :: 0 <= i < |grown[h]| ==> c[i] == grown[h][i];
    assert Distinct(c);
    forall l | l in seen + {e.key} ensures 0 <= Slot(l, mask) < |grown'| && Has(grown'[Slot(l, mask)], l) {
      if l == e.key {
        assert c[|grown[h]|].key == l;
      } else {
        var k :| 0 <= k < |grown[Slot(l, mask)]| && grown[Slot(l, mask)][k].key == l;
        assert grown'[Slot(l, mask)][k].key == l;
      }
    }
  }

  /** `ltree_childtable_grow`: move every child, chain by chain, to a table of twice the size. */
  method Grow(table: seq<seq<Entry>>, oldMax: nat, ghost count: nat, ghost m: map<Label, nat>)
    returns (slots: seq<seq<Entry>>)
    requires oldMax == Mask(count) && Holds(table, oldMax, m)
    ensures Holds(slots, 2 * oldMax + 1, m)
  {
    var mask := 2 * oldMax + 1;
    slots := seq(mask + 1, _ => []);
    ghost var seen: set<Label> := {};
    var i := 0;
    while i <= oldMax
      invariant 0 <= i <= oldMax + 1
      invariant Moved(slots, mask, m, seen)
      invariant forall l :: l in seen ==> l in m && Slot(l, oldMax) < i
      invariant forall l :: l in m && Slot(l, oldMax) < i ==> l in seen
    {
      var chain := table[i];
      var k := 0;
      while k < |chain|
        invariant 0 <= k <= |chain|
        invariant Moved(slots, mask, m, seen)
        invariant forall l :: l in seen ==> l in m && Slot(l, oldMax) <= i
        invariant forall l :: l in m && Slot(l, oldMax) < i ==> l in seen
        invariant forall j :: 0 <= j < |chain| ==> (chain[j].key in seen <==> j < k)
      {
        var e := chain[k];
        DoubledSlot(e.key, count);
        var h := Slot(e.key, mask);
        MoveOne(slots, mask, m, seen, e);
        slots := slots[h := slots[h] + [e]];
        seen := seen + {e.key};
        k := k + 1;
      }
      forall l | l in m && Slot(l, oldMax) == i ensures l in seen {
        assert Has(table[i], l);
      }
      i := i + 1;
    }
    forall l | l in m ensures l in seen {
      SlotInRange(l, count);
    }
  }

  lemma DoubledSlot(key: Label, x: nat)
    ensures Slot(key, 2 * Mask(x) + 1) <= 2 * Mask(x) + 1
  {
    var n := BitLen(SetLow(x));
    assert Pow2(n + 1) == 2 * Pow2(n);
    AndMask(HashFrom(5381, key), n + 1);
  }

  /**
    `ltree_node_find_or_add_child` on the table: find the label, or put `newNode` at the head of its
    chain, growing the table when the count has reached the mask.
   */
  method FindOrAdd(t: Table, key: Label, newNode: nat, ghost m: map<Label, nat>) returns (t': Table, r: nat)
    requires Counting(t, m)
    ensures key in m ==> r == m[key] && Counting(t', m)
    ensures key !in m ==> r == newNode && Counting(t', m[key := newNode])
  {
    var mask := Mask(t.mask);
    SlotInRange(key, t.mask);
    var slots := if t.slots == [] then [[], []] else t.slots;
    assert Holds(slots, mask, m) by { FirstSlots(t, m); }
    var found := FindInSlot(Table(t.mask, slots), mask, key, m);
    if found.Some? {
      return Table(t.mask, slots), found.value;
    }
    t' := Insert(Table(t.mask, slots), Entry(key, newNode), m);
    return t', newNode;
  }

  /** Put a new entry at the head of its chain, growing the table first to need. */
  method Insert(t: Table, e: Entry, ghost m: map<Label, nat>) returns (t': Table)
    requires t.slots != [] && Counting(t, m) && e.key !in m
    ensures Counting(t', m[e.key := e.node])
  {
    ghost var m' := m[e.key := e.node];
    SlotInRange(e.key, t.mask);
    var mask := Mask(t.mask);
    AddOne(t.slots, mask, m, e);
    var h := Slot(e.key, mask);
    var slots := t.slots[h := [e] + t.slots[h]];
    if t.mask == mask {
      slots := Grow(slots, mask, t.mask, m');
    }
    GrowthKeepsPace(t.mask);
    t' := Table(t.mask + 1, slots);
  }

  lemma GrowthKeepsPace(count: nat)
    ensures Mask(count + 1) == if count == Mask(count) then 2 * Mask(count) + 1 else Mask(count)
  {
    MaskProperties(count);
  }

  /** A table's slots, or the two empty ones it starts with. */
  lemma FirstSlots(t: Table, m: map<Label, nat>)
    requires Counting(t, m)
    ensures Holds(if t.slots == [] then [[], []] else t.slots, Mask(t.mask), m)
  {
    if t.slots == [] {
      assert Pow2(1) == 2 && BitLen(1) == 1;
    }
  }

  lemma AddOne(slots: seq<seq<Entry>>, mask: nat, m: map<Label, nat>, e: Entry)
    requires Holds(slots, mask, m) && e.key !in m && 0 <= Slot(e.key, mask) < |slots|
    ensures var h := Slot(e.key, mask);
            Holds(slots[h := [e] + slots[h]], mask, m[e.key := e.node])
  {
    var h := Slot(e.key, mask);
    var c := [e] + slots[h];
    var slots' := slots[h := c];
    var m' := m[e.key := e.node];
    assert forall i :: 0 < i < |c| ==> c[i] == slots[h][i - 1];
    assert Distinct(c);
    forall l | l in m' ensures 0 <= Slot(l, mask) < |slots'| && Has(slots'[Slot(l, mask)], l) {
      if l == e.key {
        assert c[0].key == l;
      } else {
        var k :| 0 <= k < |slots[Slot(l, mask)]| && slots[Slot(l, mask)][k].key == l;
        assert slots'[Slot(l, mask)][if Slot(l, mask) == h then k + 1 else k].key == l;
      }
    }
  }

  /** One node's share of `ltree_fix_masks`: the count becomes the mask; the table represents what it did. */
  method FixMask(t: Table, ghost m: map<Label, nat>) returns (t': Table)
    requires Represents(t, m)
    ensures Represents(t', m) && Direct(t') && t'.slots == t.slots
  {
    MaskProperties(t.mask);
    t' := Table(Mask(t.mask), t.slots);
  }
}
