/**
  The arena that zone data lives in: blocks are cut off the current pool one after the
  other; when one does not fit, a new pool at least twice as large is started.
 */
module Arena {
  import opened Names
  import opened Bits

  const INIT_BITS := 14

  /** A block handed out: its pool, where in it the block starts, its size, and the alignment asked for. */
  datatype Block = Block(pool: nat, start: nat, size: nat, align: nat)

  /** The block and the red zones around it lie inside its pool. */
  ghost predicate Inside(pools: seq<nat>, red: nat, b: Block) {
    b.pool < |pools| && red <= b.start && b.start + b.size + red <= pools[b.pool]
  }

  /** Two blocks do not overlap, nor do their red zones. */
  ghost predicate Apart(red: nat, a: Block, b: Block) {
    a.pool != b.pool || a.start + a.size + red <= b.start - red || b.start + b.size + red <= a.start - red
  }

  ghost predicate Aligned(b: Block) {
    b.align > 0 && b.start % b.align == 0
  }

  /** Sizes are powers of two from 2^14 to 2^max, and each pool is at least twice the one before, up to the limit. */
  ghost predicate PoolsOk(pools: seq<nat>, max: nat) {
    && (forall i {:trigger PoolSizeOk(pools[i], max)} :: 0 <= i < |pools| ==> PoolSizeOk(pools[i], max))
    && (forall i {:trigger GrewAt(pools, max, i)} :: 0 < i < |pools| ==> GrewAt(pools, max, i))
  }

  ghost predicate GrewAt(pools: seq<nat>, max: nat, i: nat)
    requires 0 < i < |pools|
  {
    pools[i] >= 2 * pools[i - 1] || pools[i] == Pow2(max)
  }

  ghost predicate PoolSizeOk(size: nat, max: nat) {
    exists n :: INIT_BITS <= n <= max && size == Pow2(n)
  }

  ghost predicate BlocksOk(blocks: seq<Block>, pools: seq<nat>, red: nat) {
    && (forall i :: 0 <= i < |blocks| ==> Inside(pools, red, blocks[i]) && Aligned(blocks[i]))
    && (forall i, j :: 0 <= i < j < |blocks| ==> Apart(red, blocks[i], blocks[j]))
  }

  /** No block of pool `pool` reaches past `end`. */
  ghost predicate Below(blocks: seq<Block>, pool: nat, red: nat, end: nat) {
    forall i :: 0 <= i < |blocks| ==>
      blocks[i].pool <= pool && (blocks[i].pool == pool ==> blocks[i].start + blocks[i].size + red <= end)
  }

  /** The next multiple of the alignment: `poffs` moved on by the mask, with the mask's bits cleared. */
  function AlignUp(x: nat, align: nat): nat
    requires align > 0
  {
    (x + (align - 1)) / align * align
  }

  /** Blocks are aligned for bytes or for pointers, of four bytes or eight. */
  predicate Alignment(align: nat) { align == 1 || align == 4 || align == 8 }

  lemma AlignUpProperties(x: nat, align: nat)
    requires Alignment(align)
    ensures x <= AlignUp(x, align) < x + align && AlignUp(x, align) % align == 0
  {
  }

  /** A multiple of the alignment is not passed. */
  lemma AlignUpWithin(x: nat, align: nat, n: nat)
    requires Alignment(align) && x <= Pow2(n) && n >= 3
    ensures AlignUp(x, align) <= Pow2(n)
  {
    var k := Pow2(n - 3);
    assert Pow2(n) == 8 * k by { assert Pow2(n) == 2 * Pow2(n - 1) && Pow2(n - 1) == 2 * Pow2(n - 2); }
    if align == 4 { FourUp(x, 2 * k); }
    if align == 8 { EightUp(x, k); }
  }

  lemma FourUp(x: nat, k: nat)
    requires x <= 4 * k
    ensures AlignUp(x, 4) <= 4 * k
  {
  }

  lemma EightUp(x: nat, k: nat)
    requires x <= 8 * k
    ensures AlignUp(x, 8) <= 8 * k
  {
  }

  class Arena {
    /** 1024 pools of up to 2^28 bytes, or with low memory 64 of up to 2^24. */
    const numPools: nat
    const maxBits: nat
    /** The size of a pointer. */
    const width: nat
    /** Red zone size: none, or twice a pointer's. */
    const red: nat
    var pool: nat
    var poffs: nat
    var poolSize: nat
    /** The sizes of the pools made so far. */
    var pools: seq<nat>
    ghost var bits: nat
    ghost var blocks: seq<Block>

    ghost predicate Valid()
      reads this
    {
      && INIT_BITS <= bits <= maxBits && poolSize == Pow2(bits) && pool < numPools
      && (width == 4 || width == 8) && (red == 0 || red == 2 * width)
      && |pools| == pool + 1 && pools[pool] == poolSize && poffs <= poolSize
      && PoolsOk(pools, maxBits) && BlocksOk(blocks, pools, red) && Below(blocks, pool, red, poffs)
    }

    constructor (lowMem: bool, debug: bool, width: nat)
      requires width == 4 || width == 8
      ensures Valid() && blocks == [] && this.width == width
    {
      numPools, maxBits := if lowMem then 64 else 1024, if lowMem then 24 else 28;
      this.width, red := width, if debug then 2 * width else 0;
      pool, poffs, poolSize, pools, bits, blocks := 0, 0, 16384, [16384], INIT_BITS, [];
      new;
      assert Pow2(INIT_BITS) == 16384 by { assert Pow2(7) == 128; }
      assert PoolSizeOk(pools[0], maxBits);
    }

    /** `lta_malloc`; None is for the fatal error when there are no pools left. */
    method Malloc(size: nat, align: nat) returns (r: Option<Block>)
      requires Valid() && size > 0 && (align == 1 || align == width) && size + red + red <= Pow2(maxBits)
      modifies this
      ensures r.None? <==> AlignUp(old(poffs), align) + (size + red + red) > old(poolSize) && old(pool) + 1 == numPools
      ensures r.Some? ==> Valid() && blocks == old(blocks) + [r.value] && old(pools) <= pools
      ensures r.Some? ==> r.value.size == size && r.value.align == align && r.value.pool == pool
    {
      AlignUpProperties(poffs, align);
      AlignUpWithin(poffs, align, bits);
      BelowMore(blocks, pool, red, poffs, AlignUp(poffs, align));
      poffs := AlignUp(poffs, align);
      var sizePlusRed := size + red + red;
      if poffs + sizePlusRed > poolSize {
        pool := pool + 1;
        if pool == numPools {
          return None;
        }
        NewPool(sizePlusRed);
      }
      var b := Block(pool, poffs + red, size, align);
      BlockAdded(blocks, pools, red, b, poffs);
      blocks := blocks + [b];
      poffs := poffs + sizePlusRed;
      r := Some(b);
    }

    /** A pool at least twice as large, if the limit allows, and large enough. */
    method NewPool(sizePlusRed: nat)
      requires INIT_BITS <= bits <= maxBits && poolSize == Pow2(bits) && |pools| == pool && pools != []
      requires pools[pool - 1] == poolSize
      requires sizePlusRed <= Pow2(maxBits) && PoolsOk(pools, maxBits) && BlocksOk(blocks, pools, red)
      requires Below(blocks, pool - 1, red, poolSize)
      modifies this`poolSize, this`bits, this`poffs, this`pools
      ensures INIT_BITS <= bits <= maxBits && poolSize == Pow2(bits) && sizePlusRed <= poolSize && poffs == 0
      ensures pools == old(pools) + [poolSize] && PoolsOk(pools, maxBits)
      ensures BlocksOk(blocks, pools, red) && Below(blocks, pool, red, 0)
    {
      ghost var n;
      poolSize, n := NextSize(poolSize, sizePlusRed, maxBits, bits);
      bits := n;
      poffs := 0;
      PoolAdded(pools, maxBits, poolSize);
      BlocksStay(blocks, pools, red, poolSize);
      pools := pools + [poolSize];
    }
  }

  /** The doubling loop: it ends at a power of two within the limit that fits the request. */
  method NextSize(poolSize: nat, need: nat, max: nat, ghost bits: nat) returns (size: nat, ghost n: nat)
    requires INIT_BITS <= bits <= max && poolSize == Pow2(bits) && need <= Pow2(max)
    ensures bits <= n <= max && size == Pow2(n) && need <= size && (size >= 2 * poolSize || size == Pow2(max))
    ensures PoolSizeOk(size, max)
  {
    size, n := poolSize, bits;
    if poolSize < Pow2(max) {
      Pow2Less(n, max);
      size, n := 2 * size, n + 1;
      while need > size
        invariant bits < n <= max && size == Pow2(n) && size >= 2 * poolSize
        decreases max - n
      {
        Pow2Less(n, max);
        size, n := 2 * size, n + 1;
      }
    } else {
      Pow2Mono(bits, max);
    }
  }

  lemma BlocksStay(blocks: seq<Block>, pools: seq<nat>, red: nat, size: nat)
    requires BlocksOk(blocks, pools, red)
    ensures BlocksOk(blocks, pools + [size], red)
  {
  }

  lemma Pow2Less(a: nat, b: nat)
    requires Pow2(a) < Pow2(b)
    ensures a < b
  {
    if a >= b { Pow2Mono(b, a); }
  }

  lemma PoolAdded(pools: seq<nat>, max: nat, size: nat)
    requires PoolsOk(pools, max) && PoolSizeOk(size, max) && pools != []
    requires size >= 2 * pools[|pools| - 1] || size == Pow2(max)
    ensures PoolsOk(pools + [size], max)
  {
    var all := pools + [size];
    forall i | 0 <= i < |all| ensures PoolSizeOk(all[i], max) {
      if i < |pools| { assert PoolSizeOk(pools[i], max); }
    }
    forall i | 0 < i < |all| ensures GrewAt(all, max, i) {
      if i < |pools| { assert GrewAt(pools, max, i); }
    }
  }

  lemma BelowMore(blocks: seq<Block>, pool: nat, red: nat, end: nat, end': nat)
    requires Below(blocks, pool, red, end) && end <= end'
    ensures Below(blocks, pool, red, end')
  {
  }

  /** A block cut off behind all others of its pool. */
  lemma BlockAdded(blocks: seq<Block>, pools: seq<nat>, red: nat, b: Block, poffs: nat)
    requires BlocksOk(blocks, pools, red) && Below(blocks, b.pool, red, poffs)
    requires Alignment(b.align) && poffs % b.align == 0 && red % b.align == 0 && b.start == poffs + red
    requires Inside(pools, red, b)
    ensures BlocksOk(blocks + [b], pools, red) && Below(blocks + [b], b.pool, red, poffs + (b.size + red + red))
  {
  }
}
