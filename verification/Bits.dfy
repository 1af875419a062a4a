/**
  Bitwise operations on natural numbers, written bit by bit, and the two forms of
  `count2mask`: smearing the top bit downwards, and counting leading zeros.
 */
module Bits {

  const WORD := 0x1_0000_0000

  function Pow2(n: nat): (r: nat)
    ensures r > 0
  {
    if n == 0 then 1 else 2 * Pow2(n - 1)
  }

  function Or(a: nat, b: nat): nat
    decreases a + b
  {
    if a == 0 && b == 0 then 0 else (if a % 2 == 1 || b % 2 == 1 then 1 else 0) + 2 * Or(a / 2, b / 2)
  }

  function And(a: nat, b: nat): nat
    decreases a + b
  {
    if a == 0 && b == 0 then 0 else (if a % 2 == 1 && b % 2 == 1 then 1 else 0) + 2 * And(a / 2, b / 2)
  }

  function Xor(a: nat, b: nat): nat
    decreases a + b
  {
    if a == 0 && b == 0 then 0 else (if a % 2 != b % 2 then 1 else 0) + 2 * Xor(a / 2, b / 2)
  }

  function Shr(x: nat, k: nat): nat
    decreases k
  {
    if k == 0 then x else Shr(x / 2, k - 1)
  }

  function BitLen(x: nat): nat {
    if x == 0 then 0 else 1 + BitLen(x / 2)
  }

  /** The smallest all-ones number that covers `x`, and at least 1. */
  function Mask(x: nat): (m: nat) {
    Pow2(BitLen(SetLow(x))) - 1
  }

  /** `x | 1` */
  function SetLow(x: nat): nat {
    if x % 2 == 0 then x + 1 else x
  }

  /** The form built from shifts. */
  function SmearMask(x: nat): nat {
    SmearBy(SetLow(x), 1, 2, 4, 8, 16)
  }

  function SmearBy(x: nat, k1: nat, k2: nat, k3: nat, k4: nat, k5: nat): nat {
    Smear(Smear(Smear(Smear(Smear(x, k1), k2), k3), k4), k5)
  }

  /** `x | x >> k` */
  function Smear(x: nat, k: nat): nat {
    Or(x, Shr(x, k))
  }

  /** Leading zeros of a 32-bit word that is not zero. */
  function Clz(x: nat): nat
    requires 0 < x < WORD
  {
    Pow2Word();
    LenBelow(x, 32);
    32 - BitLen(x)
  }

  /** The form built from a count of leading zeros; both shifts and the final subtraction wrap at 32 bits. */
  function ClzMask(x: nat): nat
    requires x < WORD
  {
    ClzForm(SetLow(x))
  }

  function ClzForm(x: nat): nat
    requires 0 < x < WORD
  {
    ClzShift(31 - Clz(x))
  }

  /** `(1 << k << 1) - 1` in a 32-bit word. */
  function ClzShift(k: nat): nat {
    (Pow2(k) * 2 % WORD + (WORD - 1)) % WORD
  }

  // ---- Lengths ---------------------------------------------------------------------

  lemma {:induction false} LenBelow(x: nat, n: nat)
    ensures x < Pow2(n) <==> BitLen(x) <= n
    decreases n
  {
    if n != 0 && x != 0 {
      LenBelow(x / 2, n - 1);
    }
  }

  lemma {:induction false} OrLen(a: nat, b: nat)
    ensures BitLen(Or(a, b)) == if BitLen(a) < BitLen(b) then BitLen(b) else BitLen(a)
    decreases a + b
  {
    if a != 0 || b != 0 {
      OrLen(a / 2, b / 2);
      assert Or(a, b) / 2 == Or(a / 2, b / 2);
      OrPositive(a, b);
    }
  }

  lemma {:induction false} OrPositive(a: nat, b: nat)
    ensures Or(a, b) >= a && Or(a, b) >= b
    decreases a + b
  {
    if a != 0 || b != 0 {
      OrPositive(a / 2, b / 2);
    }
  }

  lemma {:induction false} ShrLen(x: nat, k: nat)
    ensures BitLen(Shr(x, k)) <= BitLen(x)
    decreases k
  {
    if k != 0 {
      ShrLen(x / 2, k - 1);
    }
  }

  lemma {:induction false} ShrHalf(x: nat, k: nat)
    ensures Shr(x, k) / 2 == Shr(x / 2, k)
    decreases k
  {
    if k != 0 {
      ShrHalf(x / 2, k - 1);
    }
  }

  lemma {:induction false} ShrPositive(x: nat, k: nat)
    ensures Shr(x, k) > 0 <==> x >= Pow2(k)
    decreases k
  {
    if k != 0 {
      ShrPositive(x / 2, k - 1);
    }
  }

  // ---- Smearing --------------------------------------------------------------------

  predicate AllOnes(x: nat) {
    x == 0 || (x % 2 == 1 && AllOnes(x / 2))
  }

  /** The top `k` bits of `x` are ones (all of them, if it has no more than `k`). */
  predicate TopOnes(x: nat, k: nat) {
    if x < Pow2(k) then AllOnes(x) else TopOnes(x / 2, k)
  }

  lemma {:induction false} AllOnesValue(x: nat)
    requires AllOnes(x)
    ensures x == Pow2(BitLen(x)) - 1
  {
    if x != 0 {
      AllOnesValue(x / 2);
    }
  }

  lemma {:induction false} TopOne(x: nat)
    ensures TopOnes(x, 1)
  {
    if x >= Pow2(1) {
      TopOne(x / 2);
    }
  }

  /** Shifting out the low bits leaves only ones. */
  lemma {:induction false} Strip(x: nat, k: nat, j: nat)
    requires TopOnes(x, k) && x < Pow2(k + j)
    ensures AllOnes(Shr(x, j))
    decreases j
  {
    if j != 0 {
      assert TopOnes(x / 2, k) by {
        if x < Pow2(k) { assert AllOnes(x / 2); }
      }
      Strip(x / 2, k, j - 1);
    }
  }

  lemma {:induction false} Fill(x: nat, k: nat)
    requires TopOnes(x, k) && x < Pow2(2 * k)
    ensures AllOnes(Or(x, Shr(x, k)))
    decreases x
  {
    if x != 0 {
      Strip(x, k, k);
      ShrPositive(x, k);
      ShrHalf(x, k);
      assert TopOnes(x / 2, k);
      Fill(x / 2, k);
      assert Or(x, Shr(x, k)) / 2 == Or(x / 2, Shr(x / 2, k));
    } else {
      ShrPositive(x, k);
    }
  }

  /** One smearing step doubles the run of ones at the top. */
  lemma {:induction false} SmearStep(x: nat, k: nat)
    requires TopOnes(x, k) && k > 0
    ensures TopOnes(Or(x, Shr(x, k)), 2 * k)
    decreases x
  {
    var r := Or(x, Shr(x, k));
    OrPositive(x, Shr(x, k));
    if r < Pow2(2 * k) {
      Fill(x, k);
    } else {
      if x == 0 { ShrPositive(x, k); }
      ShrHalf(x, k);
      assert r / 2 == Or(x / 2, Shr(x / 2, k));
      assert TopOnes(x / 2, k);
      SmearStep(x / 2, k);
    }
  }

  lemma SmearOnce(x: nat, k: nat)
    requires TopOnes(x, k) && k > 0
    ensures TopOnes(Smear(x, k), 2 * k) && BitLen(Smear(x, k)) == BitLen(x)
  {
    SmearStep(x, k);
    OrLen(x, Shr(x, k));
    ShrLen(x, k);
  }

  lemma Pow2Word()
    ensures Pow2(32) == WORD
  {
    assert Pow2(8) == 256;
    assert Pow2(16) == 65536;
    assert Pow2(24) == 0x100_0000;
  }

  /** The shifting form computes the mask, on all 32-bit inputs. */
  lemma SmearIsMask(x: nat)
    requires x < WORD
    ensures SmearMask(x) == Mask(x)
  {
    SmearFull(SetLow(x), 1, 2, 4, 8, 16);
  }

  lemma SmearFull(x: nat, k1: nat, k2: nat, k3: nat, k4: nat, k5: nat)
    requires x < WORD && k1 == 1 && k2 == 2 * k1 && k3 == 2 * k2 && k4 == 2 * k3 && k5 == 2 * k4
    ensures SmearBy(x, k1, k2, k3, k4, k5) == Pow2(BitLen(x)) - 1
  {
    SmearFive(x, k1, k2, k3, k4, k5);
    FullRun(x, SmearBy(x, k1, k2, k3, k4, k5), 2 * k5);
  }

  lemma SmearFive(x: nat, k1: nat, k2: nat, k3: nat, k4: nat, k5: nat)
    requires k1 == 1 && k2 == 2 * k1 && k3 == 2 * k2 && k4 == 2 * k3 && k5 == 2 * k4
    ensures TopOnes(SmearBy(x, k1, k2, k3, k4, k5), 2 * k5)
    ensures BitLen(SmearBy(x, k1, k2, k3, k4, k5)) == BitLen(x)
  {
    TopOne(x);
    var x1 := Smear(x, k1);
    SmearOnce(x, k1);
    var x2 := Smear(x1, k2);
    SmearOnce(x1, k2);
    var x3 := Smear(x2, k3);
    SmearOnce(x2, k3);
    var x4 := Smear(x3, k4);
    SmearOnce(x3, k4);
    SmearOnce(x4, k5);
  }

  /** A 32-bit number whose top 32 bits are ones is the mask of its length. */
  lemma FullRun(x: nat, r: nat, n: nat)
    requires n == 32 && x < WORD && TopOnes(r, n) && BitLen(r) == BitLen(x)
    ensures r == Pow2(BitLen(x)) - 1
  {
    Pow2Word();
    LenBelow(x, n);
    LenBelow(r, n);
    AllOnesValue(r);
  }

  /** The two forms agree on all 32-bit inputs. */
  lemma MaskFormsAgree(x: nat)
    requires x < WORD
    ensures SmearMask(x) == ClzMask(x)
  {
    ClzMaskIsMask(x);
    SmearIsMask(x);
  }

  lemma SetLowBelow(x: nat)
    requires x < WORD
    ensures 0 < SetLow(x) < WORD
  {
  }

  lemma ClzMaskIsMask(x: nat)
    requires x < WORD
    ensures ClzMask(x) == Mask(x)
  {
    SetLowBelow(x);
    ClzIsMask(SetLow(x));
  }

  lemma ClzIsMask(x: nat)
    requires 0 < x < WORD
    ensures ClzForm(x) == Pow2(BitLen(x)) - 1
  {
    ClzValue(x, 32);
    ClzShiftValue(31 - Clz(x), BitLen(x));
  }

  lemma ClzShiftValue(k: nat, n: nat)
    requires n == k + 1 && Pow2(n) <= WORD
    ensures ClzShift(k) == Pow2(n) - 1
  {
    WrapBack(Pow2(n), Pow2(k));
  }

  lemma ClzValue(x: nat, n: nat)
    requires n == 32 && 0 < x < WORD
    ensures 0 < BitLen(x) <= n && Clz(x) == n - BitLen(x)
    ensures Pow2(BitLen(x)) == 2 * Pow2(BitLen(x) - 1) && Pow2(BitLen(x)) <= WORD
  {
    Pow2Word();
    LenBelow(x, n);
    Pow2Mono(BitLen(x), n);
  }

  lemma WrapBack(p: nat, half: nat)
    requires 0 < p <= WORD && p == 2 * half
    ensures (half * 2 % WORD + (WORD - 1)) % WORD == p - 1
  {
  }

  lemma {:induction false} Pow2Mono(a: nat, b: nat)
    requires a <= b
    ensures Pow2(a) <= Pow2(b)
    decreases b
  {
    if a != b {
      Pow2Mono(a, b - 1);
    }
  }

  /** What callers rely on: the mask covers the count, is one less than a power of two, and is a fixed point. */
  lemma MaskProperties(x: nat)
    ensures x <= Mask(x) && 1 <= Mask(x)
    ensures Mask(x) + 1 == Pow2(BitLen(SetLow(x)))
    ensures Mask(Mask(x)) == Mask(x)
    ensures x < Mask(x) ==> Mask(x + 1) == Mask(x)
    ensures x == Mask(x) ==> Mask(x + 1) == 2 * Mask(x) + 1
  {
    var n := BitLen(SetLow(x));
    LenBelow(SetLow(x), n);
    LenPow(n);
    assert n > 0 && Pow2(n) == 2 * Pow2(n - 1);
    assert SetLow(Mask(x)) == Mask(x);
    LenBelow(SetLow(x + 1), n);
    LenBelow(SetLow(x + 1), n + 1);
    LenBelow(SetLow(x + 1), n - 1);
    LenBelow(SetLow(x), n - 1);
  }

  lemma {:induction false} LenPow(n: nat)
    ensures BitLen(Pow2(n) - 1) == n
  {
    if n != 0 {
      LenPow(n - 1);
      assert (Pow2(n) - 1) / 2 == Pow2(n - 1) - 1;
    }
  }

  /** Masking with an all-ones number is taking the remainder. */
  lemma {:induction false} AndMask(h: nat, n: nat)
    ensures And(h, Pow2(n) - 1) == h % Pow2(n)
    decreases n
  {
    if n == 0 {
      AndZero(h);
    } else {
      var m := Pow2(n - 1);
      AndMask(h / 2, n - 1);
      AndStep(h, m);
      ModHalf(h, m);
    }
  }

  lemma AndStep(h: nat, m: nat)
    requires m > 0
    ensures And(h, 2 * m - 1) == h % 2 + 2 * And(h / 2, m - 1)
  {
    assert (2 * m - 1) / 2 == m - 1 && (2 * m - 1) % 2 == 1;
  }

  lemma {:induction false} AndZero(h: nat)
    ensures And(h, 0) == 0
  {
    if h != 0 { AndZero(h / 2); }
  }

  lemma ModHalf(h: nat, m: nat)
    requires m > 0
    ensures h % (2 * m) == h % 2 + 2 * ((h / 2) % m)
  {
    var q := (h / 2) / m;
    var r := (h / 2) % m;
    assert h / 2 == q * m + r;
    assert h == (2 * m) * q + (h % 2 + 2 * r);
    ModUnique(h, 2 * m, q, h % 2 + 2 * r);
  }

  lemma ModUnique(h: int, m: int, q: int, r: int)
    requires m > 0 && h == m * q + r && 0 <= r < m
    ensures h % m == r && h / m == q
  {
    var q', r' := h / m, h % m;
    assert h == m * q' + r';
    MulDiff(m, q, q');
    if q > q' { MulAtLeast(m, q - q'); }
    if q < q' { MulAtLeast(m, q' - q); }
  }

  lemma MulDiff(m: int, a: int, b: int)
    ensures m * a - m * b == m * (a - b) && m * (b - a) == -(m * (a - b))
  {
  }

  lemma MulAtLeast(m: int, k: int)
    requires m > 0 && k >= 1
    ensures m * k >= m
  {
  }
}
