/**
  Comparing and joining names: whether a name is in a zone, and appending an origin to a
  partial name.
 */
module DnameZone {
  import opened Names
  import opened DnameText
  import opened DnameCodec

  /** The labels of `zone` are the last labels of `name`. */
  ghost predicate EndsWith(name: Name, zone: Name) {
    |zone| <= |name| && name[|name| - |zone|..] == zone
  }

  /** The same labels are the same bytes. */
  lemma {:induction false} SameLabelsSameBytes(w: Bytes, p: nat, c: Bytes, q: nat)
    requires WireAt(w, p) && WireAt(c, q) && LabelsAt(w, p) == LabelsAt(c, q)
    ensures w[p..] == c[q..]
    decreases |w| - p
  {
    var m, n := LabelsAt(w, p), LabelsAt(c, q);
    if w[p] != 0 && c[q] != 0 {
      assert m[0] == w[p + 1..Next(w, p)] && n[0] == c[q + 1..Next(c, q)];
      assert m[1..] == LabelsAt(w, Next(w, p)) && n[1..] == LabelsAt(c, Next(c, q));
      SameLabelsSameBytes(w, Next(w, p), c, Next(c, q));
      SplitBytes(w, p);
      SplitBytes(c, q);
    } else {
      assert m == [] && n == [];
    }
  }

  lemma SplitBytes(w: Bytes, p: nat)
    requires p < |w| && Next(w, p) <= |w|
    ensures w[p..] == [w[p]] + w[p + 1..Next(w, p)] + w[Next(w, p)..]
  {
  }

  /** The last labels of a name start at a boundary. */
  lemma {:induction false} TailBoundary(w: Bytes, a: nat, k: nat) returns (p: nat)
    requires WireAt(w, a) && k <= |LabelsAt(w, a)|
    ensures Boundary(w, a, p) && WireAt(w, p) && LabelsAt(w, p) == LabelsAt(w, a)[k..]
    decreases |w| - a
  {
    if k == 0 {
      p := a;
    } else {
      p := TailBoundary(w, Next(w, a), k - 1);
    }
  }

  /** The bytes agree from a boundary on exactly when the labels do. */
  lemma InZoneIff(w: Bytes, z: Bytes)
    requires WireAt(w, 0) && WireAt(z, 0)
    ensures EndsWith(LabelsAt(w, 0), LabelsAt(z, 0)) <==> BytesEndWith(w, z)
  {
    OnlyInZone(w, z, LabelsAt(w, 0), LabelsAt(z, 0));
    if BytesEndWith(w, z) {
      BytesThenLabels(w, z, |w| - |z|);
    }
  }

  lemma OnlyInZone(w: Bytes, z: Bytes, name: Name, zone: Name)
    requires WireAt(w, 0) && WireAt(z, 0) && name == LabelsAt(w, 0) && zone == LabelsAt(z, 0)
    ensures EndsWith(name, zone) ==> BytesEndWith(w, z)
  {
    if EndsWith(name, zone) {
      LabelsThenBytes(w, z, |name| - |zone|);
    }
  }

  ghost predicate BytesEndWith(w: Bytes, z: Bytes)
    requires WireAt(w, 0)
  {
    |z| <= |w| && Boundary(w, 0, |w| - |z|) && w[|w| - |z|..] == z
  }

  lemma LabelsThenBytes(w: Bytes, z: Bytes, k: nat)
    requires WireAt(w, 0) && WireAt(z, 0) && k <= |LabelsAt(w, 0)| && LabelsAt(w, 0)[k..] == LabelsAt(z, 0)
    ensures BytesEndWith(w, z)
  {
    var p := TailBoundary(w, 0, k);
    SameLabelsSameBytes(w, p, z, 0);
    assert z[0..] == z && |w[p..]| == |z|;
  }

  lemma BytesThenLabels(w: Bytes, z: Bytes, p: nat)
    requires WireAt(w, 0) && WireAt(z, 0) && p <= |w| && Boundary(w, 0, p) && w[p..] == z
    ensures EndsWith(LabelsAt(w, 0), LabelsAt(z, 0))
  {
    assert z[0..] == z;
    BoundaryWire(w, 0, p);
    LabelsShift(w, p, z, 0);
    LabelsTail(w, 0, p);
  }

  /** The loop over the labels: whether `depth` is a boundary. */
  method AtBoundary(w: Bytes, depth: nat) returns (r: bool)
    requires WireAt(w, 0) && depth < |w|
    ensures r == Boundary(w, 0, depth)
  {
    var pos: nat := 0;
    while pos < depth
      invariant WireAt(w, pos) && Boundary(w, 0, depth) == Boundary(w, pos, depth)
      decreases |w| - pos
    {
      if w[pos] == 0 {
        return false;
      }
      pos := Next(w, pos);
    }
    r := pos == depth;
  }

  /** `gdnsd_dname_isinzone` */
  method IsInZone(zone: Bytes, dname: Bytes) returns (r: bool)
    requires IsDname(zone) && IsDname(dname)
    ensures r <==> EndsWith(LabelsAt(dname[1..], 0), LabelsAt(zone[1..], 0))
  {
    var z, w := zone[1..], dname[1..];
    InZoneIff(w, z);
    r := false;
    if |z| <= |w| && w[|w| - |z|..] == z {
      r := AtBoundary(w, |w| - |z|);
    }
  }

  /** `gdnsd_dname_isparentof`: likewise, but not the zone itself. */
  method IsParentOf(parent: Bytes, child: Bytes) returns (r: bool)
    requires IsDname(parent) && IsDname(child)
    ensures r <==> EndsWith(LabelsAt(child[1..], 0), LabelsAt(parent[1..], 0)) && parent != child
  {
    var z, w := parent[1..], child[1..];
    InZoneIff(w, z);
    r := false;
    if |z| < |w| && w[|w| - |z|..] == z {
      r := AtBoundary(w, |w| - |z|);
    }
    if |z| == |w| {
      assert w[|w| - |z|..] == w;
      assert parent == [parent[0]] + z && child == [child[0]] + w;
    }
  }

  lemma {:induction false} WireJoin(m: Name, n: Name)
    requires LabelsOk(m) && LabelsOk(n)
    ensures LabelsOk(m + n) && WireOf(m + n) == WireOf(m) + WireOf(n)
    ensures WireSize(m + n) == WireSize(m) + WireSize(n) - 1
    ensures |WireOf(m)| == WireSize(m) - 1
    decreases |m|
  {
    if m != [] {
      WireJoin(m[1..], n);
      assert (m + n)[1..] == m[1..] + n;
      Regroup([|m[0]|] + m[0], WireOf(m[1..]), WireOf(n));
    } else {
      assert m + n == n && WireOf(m) + WireOf(n) == WireOf(n);
    }
  }

  /** `gdnsd_dname_cat`: the second name's labels behind the first's, unless that is too long. */
  method DnameCat(dn1: Bytes, dn2: Bytes, ghost m: Name, ghost p: bool, ghost n: Name, ghost full: bool)
    returns (r: Option<Bytes>)
    requires NameOk(m) && NameOk(n) && dn1 == DnameOf(m, p) && dn2 == DnameOf(n, full)
    ensures r.None? <==> !NameOk(m + n)
    ensures r.Some? ==> r.value == DnameOf(m + n, full)
  {
    CatSize(m, p, n, full, dn1, dn2);
    var len1: nat, len2: nat := dn1[0], dn2[0];
    var size: nat := len1 + len2 - 1;
    if size > 255 {
      return None;
    }
    CatBytes(m, p, n, full, dn1, dn2);
    r := Some([size] + (dn1[1..len1] + dn2[1..]));
  }

  lemma CatSize(m: Name, p: bool, n: Name, full: bool, dn1: Bytes, dn2: Bytes)
    requires NameOk(m) && NameOk(n) && dn1 == DnameOf(m, p) && dn2 == DnameOf(n, full)
    ensures dn1[0] == WireSize(m) >= 1 && dn2[0] == WireSize(n) >= 1 && WireSize(m) < |dn1|
    ensures WireSize(m) + WireSize(n) - 1 == WireSize(m + n)
    ensures NameOk(m + n) <==> WireSize(m + n) <= 255
  {
    WireJoin(m, n);
    assert |dn1| == 1 + |WireOf(m)| + 1;
  }

  lemma CatBytes(m: Name, p: bool, n: Name, full: bool, dn1: Bytes, dn2: Bytes)
    requires NameOk(m) && NameOk(n) && NameOk(m + n) && dn1 == DnameOf(m, p) && dn2 == DnameOf(n, full)
    ensures 1 <= dn1[0] < |dn1|
    ensures DnameOf(m + n, full) == [WireSize(m + n)] + (dn1[1..dn1[0]] + dn2[1..])
  {
    WireJoin(m, n);
    var a, b, e := WireOf(m), WireOf(n), [End(full)];
    Inside(WireSize(m), a, [End(p)], dn1);
    Inside(WireSize(n), b, e, dn2);
    Regroup(a, b, e);
    Regroup([WireSize(m + n)], a + b, e);
  }

  lemma Inside(x: Byte, a: Bytes, e: Bytes, d: Bytes)
    requires d == [x] + a + e
    ensures |d| == 1 + |a| + |e| && d[1..1 + |a|] == a && d[1..] == a + e
  {
  }
}
