/** How the ring-3 allocator's memory records the blocks: a 16-byte header at the head of each, two little-endian
    64-bit words, the block's size in bytes and the address of the next free block. */
module MallocLinks {
  import opened Bytes
  import opened Frames
  import opened Words
  import opened FreeBlocks
  import opened MallocSpec

  /** Sixteen bytes of memory. */
  type Cell = c: seq<byte> | |c| == UNIT witness seq(16, i => 0)

  function SizeOf(c: Cell): nat {
    FromLe(c[..8])
  }

  function LinkOf(c: Cell): nat {
    FromLe(c[8..])
  }

  function WithSize(c: Cell, v: nat): (r: Cell) {
    Le(v, 8) + c[8..]
  }

  function WithLink(c: Cell, v: nat): (r: Cell) {
    c[..8] + Le(v, 8)
  }

  /** Header fields read back what was written to them, and writing one leaves the other. */
  lemma HeaderRoundTrip(c: Cell, v: nat)
    requires v < U64
    ensures SizeOf(WithSize(c, v)) == v && LinkOf(WithSize(c, v)) == LinkOf(c)
    ensures LinkOf(WithLink(c, v)) == v && SizeOf(WithLink(c, v)) == SizeOf(c)
  {
    WordFits(v);
    LeRoundTrip(v, 8);
    assert WithSize(c, v)[..8] == Le(v, 8) && WithSize(c, v)[8..] == c[8..];
    assert WithLink(c, v)[..8] == c[..8] && WithLink(c, v)[8..] == Le(v, 8);
  }

  // -------------------------------------------------------------------------
  // The list
  // -------------------------------------------------------------------------

  function AddrOf(g: nat): nat {
    ARENA_BASE + UNIT * g
  }

  function Place(a: nat): nat
    requires a >= ARENA_BASE
  {
    (a - ARENA_BASE) / UNIT
  }

  /** Where the sentinel may be: any address outside the arena. */
  predicate SentinelOk(base: nat) {
    base < U64 && (base < ARENA_BASE || base > ARENA_MAX)
  }

  /** A link: the address of a free block, or the sentinel's at the end of the list. */
  function Link(base: nat, r: Option<nat>): nat {
    match r case None => base case Some(g) => AddrOf(g)
  }

  /** Is `c` the header of block `x`? */
  predicate Header(base: nat, bs: Blocks, c: Cell, x: nat)
    requires x in bs
  {
    && SizeOf(c) == UNIT * bs[x].size
    && (bs[x].free ==> LinkOf(c) == Link(base, NextFrom(bs, x + 1)))
  }

  /** Memory records the blocks. */
  ghost predicate Linked(base: nat, bs: Blocks, m: seq<Cell>, head: nat) {
    && head == Link(base, NextFrom(bs, 0))
    && (forall x | x in bs :: x < |m|)
    && (forall x {:trigger Header(base, bs, m[x], x)} | x in bs :: Header(base, bs, m[x], x))
  }

  /** A link read from the list: its end, or a free block after the one it was read from. */
  lemma LinkReads(base: nat, bs: Blocks, brk: nat, p: Option<nat>)
    requires SentinelOk(base) && Tiled(bs, brk) && brk <= UNITS
    ensures var r := NextFrom(bs, After(p));
      && (Link(base, r) == base <==> r.None?)
      && (r.Some? ==> After(p) <= r.value < brk && Free(bs, r.value) && Link(base, r) == AddrOf(r.value)
                      && Place(AddrOf(r.value)) == r.value)
  {
    NextFromIs(bs, After(p));
    var r := NextFrom(bs, After(p));
    if r.Some? {
      assert Bounded(bs, brk, r.value);
    }
  }

  // -------------------------------------------------------------------------
  // Handing out
  // -------------------------------------------------------------------------

  /** The tail's header: size and the link the whole block had. */
  predicate TailWritten(base: nat, bs: Blocks, g: nat, need: nat, c: Cell)
    requires g in bs && need <= bs[g].size
  {
    SizeOf(c) == UNIT * (bs[g].size - need) && LinkOf(c) == Link(base, NextFrom(bs, g + 1))
  }

  /** What the hand-out wrote: the size of the head, the tail's header, and one link before it. */
  ghost predicate TakeWrites(base: nat, bs: Blocks, m: seq<Cell>, m': seq<Cell>, head': nat, p: Option<nat>, g: nat,
                             need: nat)
    requires g in bs && need <= bs[g].size && |m| == |m'| && g < |m| && g + bs[g].size <= |m|
    requires p.Some? ==> p.value < g
  {
    var to := if Splits(bs, g, need) then AddrOf(g + need) else Link(base, NextFrom(bs, g + 1));
    && (SizeOf(m'[g]) == if Splits(bs, g, need) then UNIT * need else SizeOf(m[g]))
    && (Splits(bs, g, need) ==> TailWritten(base, bs, g, need, m'[g + need]))
    && (p.None? ==> head' == to)
    && (p.Some? ==> SizeOf(m'[p.value]) == SizeOf(m[p.value]) && LinkOf(m'[p.value]) == to
                    && head' == Link(base, NextFrom(bs, 0)))
    && (forall u: nat | u < |m| && u != g && p != Some(u) && !(Splits(bs, g, need) && u == g + need) :: m'[u] == m[u])
  }

  lemma TailHeader(base: nat, bs: Blocks, brk: nat, m: seq<Cell>, m': seq<Cell>, head: nat, head': nat, p: Option<nat>,
                    g: nat, need: nat, x: nat)
    requires Tiled(bs, brk) && Linked(base, bs, m, head) && |m| == |m'| == UNITS
    requires Free(bs, g) && MIN_UNITS <= need <= bs[g].size && g < UNITS && g + bs[g].size <= UNITS
    requires (p.Some? ==> p.value < g && Free(bs, p.value)) && NextFrom(bs, After(p)) == Some(g)
    requires TakeWrites(base, bs, m, m', head', p, g, need)
    requires Splits(bs, g, need) && x == g + need
    ensures x in Taken(bs, g, need) && x < |m'| && Header(base, Taken(bs, g, need), m'[x], x)
  {
    TakenNextHigh(bs, brk, g, need, x + 1);
    SkipBlock(bs, brk, g, x + 1);
  }

  lemma OldHeader(base: nat, bs: Blocks, brk: nat, m: seq<Cell>, m': seq<Cell>, head: nat, head': nat, p: Option<nat>,
                    g: nat, need: nat, x: nat)
    requires Tiled(bs, brk) && Linked(base, bs, m, head) && |m| == |m'| == UNITS
    requires Free(bs, g) && MIN_UNITS <= need <= bs[g].size && g < UNITS && g + bs[g].size <= UNITS
    requires (p.Some? ==> p.value < g && Free(bs, p.value)) && NextFrom(bs, After(p)) == Some(g)
    requires TakeWrites(base, bs, m, m', head', p, g, need)
    requires x in bs && x != g
    ensures x in Taken(bs, g, need) && x < |m'| && Header(base, Taken(bs, g, need), m'[x], x)
  {
    TakenFrees(bs, brk, g, need, x);
    assert Header(base, bs, m[x], x);
    assert Splits(bs, g, need) ==> x != g + need by {
      if Splits(bs, g, need) {
        TailIsNew(bs, brk, g, need);
      }
    }
    if Free(bs, x) {
      NextFromIs(bs, After(p));
      NextFromIs(bs, x + 1);
      if x > g {
        TakenNextHigh(bs, brk, g, need, x + 1);
      } else if p == Some(x) {
        TakenNextAt(bs, brk, g, need, x + 1);
      } else {
        TakenNextLow(bs, brk, g, need, x + 1);
      }
    }
  }

  lemma TakenHeader(base: nat, bs: Blocks, brk: nat, m: seq<Cell>, m': seq<Cell>, head: nat, head': nat, p: Option<nat>,
                    g: nat, need: nat, x: nat)
    requires Tiled(bs, brk) && Linked(base, bs, m, head) && |m| == |m'| == UNITS
    requires Free(bs, g) && MIN_UNITS <= need <= bs[g].size && g < UNITS && g + bs[g].size <= UNITS
    requires (p.Some? ==> p.value < g && Free(bs, p.value)) && NextFrom(bs, After(p)) == Some(g)
    requires TakeWrites(base, bs, m, m', head', p, g, need)
    requires x in Taken(bs, g, need)
    ensures x < |m'| && Header(base, Taken(bs, g, need), m'[x], x)
  {
    if x == g {
      assert Header(base, bs, m[g], g);
    } else if x in bs {
      OldHeader(base, bs, brk, m, m', head, head', p, g, need, x);
    } else {
      TailHeader(base, bs, brk, m, m', head, head', p, g, need, x);
    }
  }

  lemma {:induction false} TakenLinked(base: nat, bs: Blocks, brk: nat, m: seq<Cell>, m': seq<Cell>, head: nat, head': nat,
                                       p: Option<nat>, g: nat, need: nat)
    requires Tiled(bs, brk) && Linked(base, bs, m, head) && |m| == |m'| == UNITS
    requires Free(bs, g) && MIN_UNITS <= need <= bs[g].size && g < UNITS && g + bs[g].size <= UNITS
    requires (p.Some? ==> p.value < g && Free(bs, p.value)) && NextFrom(bs, After(p)) == Some(g)
    requires TakeWrites(base, bs, m, m', head', p, g, need)
    ensures Linked(base, Taken(bs, g, need), m', head')
  {
    var bs' := Taken(bs, g, need);
    forall x | x in bs' ensures x < |m'| && Header(base, bs', m'[x], x) {
      TakenHeader(base, bs, brk, m, m', head, head', p, g, need, x);
    }
    NextFromIs(bs, 0);
    if p.None? {
      TakenNextAt(bs, brk, g, need, 0);
    } else {
      TakenNextLow(bs, brk, g, need, 0);
    }
  }

  // -------------------------------------------------------------------------
  // Giving back
  // -------------------------------------------------------------------------

  /** What insertion wrote: the freed header, and the header or link before it. */
  ghost predicate FreeWrites(base: nat, bs: Blocks, m: seq<Cell>, m': seq<Cell>, head': nat, g: nat)
    requires g in bs && g < |m| == |m'|
    requires MergesHigh(bs, g) ==> End(bs, g) < |m|
    requires PrevFrom(bs, g).Some? ==> PrevFrom(bs, g).value < g
  {
    var p, u := PrevFrom(bs, g), End(bs, g);
    var size := SizeOf(m[g]) + if MergesHigh(bs, g) then SizeOf(m[u]) else 0;
    var link := if MergesHigh(bs, g) then LinkOf(m[u]) else Link(base, NextFrom(bs, g + 1));
    && SizeOf(m'[g]) == size && LinkOf(m'[g]) == link
    && (p.None? ==> head' == AddrOf(g))
    && (p.Some? ==>
          && head' == Link(base, NextFrom(bs, 0))
          && SizeOf(m'[p.value]) == SizeOf(m[p.value]) + (if MergesLow(bs, g) then size else 0)
          && LinkOf(m'[p.value]) == if MergesLow(bs, g) then link else AddrOf(g))
    && (forall u: nat | u < |m| && u != g && p != Some(u) :: m'[u] == m[u])
  }

  lemma FreedHeader(base: nat, bs: Blocks, brk: nat, m: seq<Cell>, m': seq<Cell>, head: nat, head': nat, g: nat, x: nat)
    requires Tiled(bs, brk) && Linked(base, bs, m, head) && |m| == |m'| == UNITS
    requires Live(bs, g) && g < UNITS && (MergesHigh(bs, g) ==> End(bs, g) < UNITS)
    requires PrevFrom(bs, g).Some? ==> PrevFrom(bs, g).value < g
    requires FreeWrites(base, bs, m, m', head', g)
    requires x in Freed(bs, g)
    ensures x < |m'| && Header(base, Freed(bs, g), m'[x], x)
  {
    var bs', u := Freed(bs, g), End(bs, g);
    assert Bounded(bs, brk, g);
    PrevFromIs(bs, g);
    FreedFrees(bs, brk, g, x);
    FreedNext(bs, brk, g, x);
    FreedNext(bs, brk, g, x + 1);
    NextFromIs(bs, x + 1);
    assert Header(base, bs, m[x], x) && Header(base, bs, m[g], g);
    assert MergesHigh(bs, g) ==> Header(base, bs, m[u], u) && u > g;
  }

  lemma {:induction false} FreedLinked(base: nat, bs: Blocks, brk: nat, m: seq<Cell>, m': seq<Cell>, head: nat, head': nat,
                                       g: nat)
    requires Tiled(bs, brk) && Linked(base, bs, m, head) && |m| == |m'| == UNITS
    requires Live(bs, g) && g < UNITS && (MergesHigh(bs, g) ==> End(bs, g) < UNITS)
    requires PrevFrom(bs, g).Some? ==> PrevFrom(bs, g).value < g
    requires FreeWrites(base, bs, m, m', head', g)
    ensures Linked(base, Freed(bs, g), m', head')
  {
    var bs' := Freed(bs, g);
    forall x | x in bs' ensures x < |m'| && Header(base, bs', m'[x], x) {
      FreedHeader(base, bs, brk, m, m', head, head', g, x);
    }
    PrevFromIs(bs, g);
    FreedNext(bs, brk, g, 0);
    NextFromIs(bs, 0);
  }

  /** A chunk above the old break is not in the list yet. */
  lemma GrownLinked(base: nat, bs: Blocks, brk: nat, chunk: nat, m: seq<Cell>, m': seq<Cell>, head: nat)
    requires Tiled(bs, brk) && Linked(base, bs, m, head) && |m| == |m'| && brk < |m| && brk !in bs
    requires SizeOf(m'[brk]) == UNIT * chunk && forall u: nat | u < |m| && u != brk :: m'[u] == m[u]
    ensures Linked(base, Grown(bs, brk, chunk), m', head)
  {
    var bs' := Grown(bs, brk, chunk);
    assert forall h: nat :: Free(bs', h) <==> Free(bs, h);
    forall x: nat ensures NextFrom(bs', x) == NextFrom(bs, x) {
      NextFromIs(bs, x);
      NextUnique(bs', x, NextFrom(bs, x));
    }
    forall x | x in bs' ensures x < |m'| && Header(base, bs', m'[x], x) {
      assert x in bs ==> Header(base, bs, m[x], x);
    }
  }
}
