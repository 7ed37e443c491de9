/** The ring-3 allocator's arena as a value: blocks that tile it, and the free blocks in address order.  Places
    are counted in 16-byte units from the start of the arena. */
module MallocSpec {
  import opened Frames
  import opened FreeBlocks

  const ARENA_BASE: nat := 0x2000_0000
  const ARENA_MAX: nat := 0x3000_0000
  const UNIT: nat := 16
  const UNITS: nat := 0x100_0000
  const MIN_UNITS: nat := MIN_SIZE
  const PAGE_UNITS: nat := 256
  const MAX_ALLOC: nat := 64 * 1024 * 1024

  /** Units for `n` bytes and a header. */
  function Need(n: nat): (r: nat)
    ensures n + UNIT <= r * UNIT < n + 2 * UNIT
  {
    (n + UNIT + UNIT - 1) / UNIT
  }

  /** malloc(0) is malloc(1). */
  function Want(n: nat): (r: nat)
    ensures r >= MIN_UNITS
  {
    if n == 0 then Need(1) else Need(n)
  }

  // -------------------------------------------------------------------------
  // growing
  // -------------------------------------------------------------------------

  /** Units asked of the kernel: whole pages, at least one. */
  function Chunk(need: nat): (r: nat)
    ensures need <= r && PAGE_UNITS <= r && r % PAGE_UNITS == 0
  {
    var min := if need < PAGE_UNITS then PAGE_UNITS else need;
    (min + PAGE_UNITS - 1) / PAGE_UNITS * PAGE_UNITS
  }

  /** The arena after the kernel granted `chunk` units at the break. */
  function Grown(bs: Blocks, brk: nat, chunk: nat): Blocks {
    bs[brk := Block(chunk, false)]
  }

  lemma GrownTiled(bs: Blocks, brk: nat, chunk: nat)
    requires Tiled(bs, brk) && Coalesced(bs) && MIN_UNITS <= chunk && brk + chunk <= UNITS
    ensures Tiled(Grown(bs, brk, chunk), brk + chunk) && Coalesced(Grown(bs, brk, chunk))
    ensures brk !in bs
  {
    var bs' := Grown(bs, brk, chunk);
    assert brk in bs ==> Bounded(bs, brk, brk);
    forall a | a in bs' ensures Bounded(bs', brk + chunk, a) && Followed(bs', brk + chunk, a) && Lone(bs', a) {
      if a != brk {
        assert Bounded(bs, brk, a) && Followed(bs, brk, a) && Lone(bs, a);
      }
    }
    forall a, b | a in bs' && b in bs' ensures Apart(bs', a, b) {
      assert a in bs ==> Bounded(bs, brk, a);
      assert b in bs ==> Bounded(bs, brk, b);
      assert a in bs && b in bs ==> Apart(bs, a, b);
    }
  }

  /** After a grant something fits: the fresh chunk, or the chunk merged with a free top block. */
  lemma GrownFits(bs: Blocks, brk: nat, chunk: nat, need: nat)
    requires Tiled(bs, brk) && Coalesced(bs) && MIN_UNITS <= chunk && brk + chunk <= UNITS && need <= chunk
    ensures !NoFit(Freed(Grown(bs, brk, chunk), brk), need)
  {
    var bs1 := Grown(bs, brk, chunk);
    GrownTiled(bs, brk, chunk);
    PrevFromIs(bs1, brk);
    var bs2 := Freed(bs1, brk);
    FreedFrees(bs1, brk + chunk, brk, brk);
    var at := if MergesLow(bs1, brk) then PrevFrom(bs1, brk).value else brk;
    assert !MergesHigh(bs1, brk) by {
      assert brk + chunk in bs ==> Bounded(bs, brk, brk + chunk);
    }
    assert Free(bs2, at) && bs2[at].size >= need;
  }
}
