/** Blocks that tile an arena, the free ones in address order: what both allocators keep.  Places and sizes are counted
    from the start of the arena, in whatever unit the allocator uses. */
module FreeBlocks {
  import opened Frames

  /** No arena has more places than this. */
  const LIMIT: nat := 0x400_0000
  const MIN_SIZE: nat := 2

  /** A block, header included. */
  datatype Block = Block(size: nat, free: bool)

  type Blocks = map<nat, Block>

  predicate Free(bs: Blocks, g: nat) {
    g in bs && bs[g].free
  }

  predicate Live(bs: Blocks, g: nat) {
    g in bs && !bs[g].free
  }

  function End(bs: Blocks, g: nat): nat
    requires g in bs
  {
    g + bs[g].size
  }

  predicate Bounded(bs: Blocks, brk: nat, g: nat)
    requires g in bs
  {
    bs[g].size >= MIN_SIZE && End(bs, g) <= brk
  }

  predicate Followed(bs: Blocks, brk: nat, g: nat)
    requires g in bs
  {
    End(bs, g) == brk || End(bs, g) in bs
  }

  predicate Apart(bs: Blocks, g: nat, h: nat)
    requires g in bs
  {
    g < h ==> End(bs, g) <= h
  }

  predicate Lone(bs: Blocks, g: nat)
    requires g in bs
  {
    bs[g].free ==> !Free(bs, End(bs, g))
  }

  /** The blocks tile [0, brk): each is followed by another or by the break, and none overlap. */
  ghost predicate Tiled(bs: Blocks, brk: nat) {
    && brk <= LIMIT && (brk > 0 ==> 0 in bs)
    && (forall g {:trigger Bounded(bs, brk, g)} | g in bs :: Bounded(bs, brk, g))
    && (forall g {:trigger Followed(bs, brk, g)} | g in bs :: Followed(bs, brk, g))
    && (forall g, h {:trigger Apart(bs, g, h)} | g in bs && h in bs :: Apart(bs, g, h))
  }

  /** No two neighbours are both free. */
  ghost predicate Coalesced(bs: Blocks) {
    forall g {:trigger Lone(bs, g)} | g in bs :: Lone(bs, g)
  }

  /** A tiling covers every place below the break, once. */
  lemma {:induction false} TilingCovers(bs: Blocks, brk: nat, u: nat) returns (g: nat)
    requires Tiled(bs, brk) && u < brk
    ensures g in bs && g <= u < End(bs, g)
    ensures forall h | h in bs && h <= u < End(bs, h) :: h == g
  {
    g := 0;
    assert Bounded(bs, brk, 0);
    while End(bs, g) <= u
      invariant g in bs && g <= u
      decreases u - g
    {
      assert Followed(bs, brk, g) && Bounded(bs, brk, g);
      g := End(bs, g);
    }
    forall h | h in bs && h <= u < End(bs, h) ensures h == g {
      assert Apart(bs, g, h) && Apart(bs, h, g);
    }
  }

  /** When no block is live, one free block spans the arena. */
  lemma {:induction false} AllFreeIsOne(bs: Blocks, brk: nat)
    requires Tiled(bs, brk) && Coalesced(bs) && brk > 0 && forall g | g in bs :: bs[g].free
    ensures bs == map[0 := Block(brk, true)]
  {
    assert Followed(bs, brk, 0) && Lone(bs, 0);
    assert End(bs, 0) == brk;
    forall g | g in bs ensures g == 0 {
      assert Apart(bs, 0, g) && Bounded(bs, brk, g);
    }
  }

  // -------------------------------------------------------------------------
  // The free list's order
  // -------------------------------------------------------------------------

  /** The first free block at or after place `g`. */
  function NextFrom(bs: Blocks, g: nat): (r: Option<nat>)
    decreases LIMIT - g
  {
    if g >= LIMIT then None else if Free(bs, g) then Some(g) else NextFrom(bs, g + 1)
  }

  ghost predicate IsNext(bs: Blocks, g: nat, r: Option<nat>) {
    && (r.Some? ==> g <= r.value < LIMIT && Free(bs, r.value))
    && (forall h: nat | g <= h < LIMIT && Free(bs, h) :: r.Some? && r.value <= h)
  }

  lemma {:induction false} NextFromIs(bs: Blocks, g: nat)
    ensures IsNext(bs, g, NextFrom(bs, g))
    decreases LIMIT - g
  {
    if g < LIMIT && !Free(bs, g) {
      NextFromIs(bs, g + 1);
    }
  }

  lemma NextUnique(bs: Blocks, g: nat, r: Option<nat>)
    requires IsNext(bs, g, r)
    ensures NextFrom(bs, g) == r
  {
    NextFromIs(bs, g);
  }

  /** The last free block below place `g`. */
  function PrevFrom(bs: Blocks, g: nat): (r: Option<nat>) {
    if g == 0 then None else if Free(bs, g - 1) then Some(g - 1) else PrevFrom(bs, g - 1)
  }

  ghost predicate IsPrev(bs: Blocks, g: nat, prev: Option<nat>) {
    && (prev.Some? ==> prev.value < g && Free(bs, prev.value))
    && (forall h: nat | h < g && Free(bs, h) :: prev.Some? && h <= prev.value)
  }

  lemma {:induction false} PrevFromIs(bs: Blocks, g: nat)
    ensures IsPrev(bs, g, PrevFrom(bs, g))
  {
    if g > 0 && !Free(bs, g - 1) {
      PrevFromIs(bs, g - 1);
    }
  }

  lemma PrevUnique(bs: Blocks, g: nat, prev: Option<nat>)
    requires IsPrev(bs, g, prev)
    ensures PrevFrom(bs, g) == prev
  {
    PrevFromIs(bs, g);
  }

  /** The place from which a walk of the list goes on after `p`. */
  function After(p: Option<nat>): nat {
    match p case None => 0 case Some(g) => g + 1
  }

  /** Where the walk stopped, the free neighbours of `g` in the list. */
  lemma StopsAround(bs: Blocks, g: nat, p: Option<nat>)
    requires Live(bs, g) && g < LIMIT && (p.Some? ==> p.value < g && Free(bs, p.value))
    requires var r := NextFrom(bs, After(p)); r.Some? ==> r.value >= g
    ensures PrevFrom(bs, g) == p && NextFrom(bs, g + 1) == NextFrom(bs, After(p))
  {
    NextFromIs(bs, After(p));
    assert forall h: nat | h < g && Free(bs, h) :: p.Some? && h <= p.value;
    PrevUnique(bs, g, p);
    assert IsNext(bs, g + 1, NextFrom(bs, After(p)));
    NextUnique(bs, g + 1, NextFrom(bs, After(p)));
  }

  // -------------------------------------------------------------------------
  // Handing out
  // -------------------------------------------------------------------------

  /** Is the rest of free block `g` worth keeping? */
  predicate Splits(bs: Blocks, g: nat, need: nat)
    requires g in bs && need <= bs[g].size
  {
    bs[g].size - need >= MIN_SIZE
  }

  /** Hand out the head of a free block, or all of it. */
  function Taken(bs: Blocks, g: nat, need: nat): Blocks
    requires g in bs && need <= bs[g].size
  {
    if Splits(bs, g, need) then bs[g := Block(need, false)][g + need := Block(bs[g].size - need, true)]
    else bs[g := Block(bs[g].size, false)]
  }

  /** First fit in address order. */
  ghost predicate FirstFit(bs: Blocks, need: nat, g: nat) {
    Free(bs, g) && bs[g].size >= need && forall h: nat | Free(bs, h) && h < g :: bs[h].size < need
  }

  ghost predicate NoFit(bs: Blocks, need: nat) {
    forall h: nat | Free(bs, h) :: bs[h].size < need
  }

  lemma TailIsNew(bs: Blocks, brk: nat, g: nat, need: nat)
    requires Tiled(bs, brk) && Free(bs, g) && 0 < need < bs[g].size
    ensures g + need !in bs
  {
    assert g + need in bs ==> Apart(bs, g, g + need);
  }

  lemma TakenApart(bs: Blocks, brk: nat, g: nat, need: nat, a: nat, b: nat)
    requires Tiled(bs, brk) && Free(bs, g) && MIN_SIZE <= need <= bs[g].size
    requires a in Taken(bs, g, need) && b in Taken(bs, g, need)
    ensures Apart(Taken(bs, g, need), a, b)
  {
    var a0 := if a in bs then a else g;
    var b0 := if b in bs then b else g;
    assert Apart(bs, a0, b0) && Apart(bs, b0, a0);
    if Splits(bs, g, need) {
      TailIsNew(bs, brk, g, need);
    }
  }

  lemma TakenTiled(bs: Blocks, brk: nat, g: nat, need: nat)
    requires Tiled(bs, brk) && Coalesced(bs) && Free(bs, g) && MIN_SIZE <= need <= bs[g].size
    ensures Tiled(Taken(bs, g, need), brk) && Coalesced(Taken(bs, g, need))
  {
    var bs' := Taken(bs, g, need);
    if Splits(bs, g, need) {
      TailIsNew(bs, brk, g, need);
    }
    assert Bounded(bs, brk, g) && Followed(bs, brk, g) && Lone(bs, g);
    forall a | a in bs' ensures Bounded(bs', brk, a) && Followed(bs', brk, a) && Lone(bs', a) {
      if a in bs {
        assert Bounded(bs, brk, a) && Followed(bs, brk, a) && Lone(bs, a);
        assert Apart(bs, a, g) && Apart(bs, g, a);
      }
    }
    forall a, b | a in bs' && b in bs' ensures Apart(bs', a, b) {
      TakenApart(bs, brk, g, need, a, b);
    }
  }

  /** Which places are free after the hand-out. */
  lemma TakenFrees(bs: Blocks, brk: nat, g: nat, need: nat, h: nat)
    requires Tiled(bs, brk) && Free(bs, g) && MIN_SIZE <= need <= bs[g].size
    ensures Free(Taken(bs, g, need), h) <==> (Free(bs, h) && h != g) || (Splits(bs, g, need) && h == g + need)
    ensures h in bs && h > g ==> h >= End(bs, g)
  {
    assert h in bs ==> Apart(bs, g, h);
    if Splits(bs, g, need) {
      TailIsNew(bs, brk, g, need);
    }
  }

  /** The list up to a block before `g` is as it was. */
  lemma TakenNextLow(bs: Blocks, brk: nat, g: nat, need: nat, x: nat)
    requires Tiled(bs, brk) && Free(bs, g) && MIN_SIZE <= need <= bs[g].size
    requires NextFrom(bs, x).Some? && NextFrom(bs, x).value < g
    ensures NextFrom(Taken(bs, g, need), x) == NextFrom(bs, x)
  {
    var bs' := Taken(bs, g, need);
    NextFromIs(bs, x);
    forall h: nat ensures Free(bs', h) <==> (Free(bs, h) && h != g) || (Splits(bs, g, need) && h == g + need) {
      TakenFrees(bs, brk, g, need, h);
    }
    NextUnique(bs', x, NextFrom(bs, x));
  }

  /** Past the tail the list is as it was. */
  lemma TakenNextHigh(bs: Blocks, brk: nat, g: nat, need: nat, x: nat)
    requires Tiled(bs, brk) && Free(bs, g) && MIN_SIZE <= need <= bs[g].size
    requires x > g && (Splits(bs, g, need) ==> x > g + need)
    ensures NextFrom(Taken(bs, g, need), x) == NextFrom(bs, x)
  {
    var bs' := Taken(bs, g, need);
    NextFromIs(bs, x);
    forall h: nat ensures Free(bs', h) <==> (Free(bs, h) && h != g) || (Splits(bs, g, need) && h == g + need) {
      TakenFrees(bs, brk, g, need, h);
    }
    NextUnique(bs', x, NextFrom(bs, x));
  }

  /** Where the list reached `g` it now reaches the tail, or what followed. */
  lemma TakenNextAt(bs: Blocks, brk: nat, g: nat, need: nat, x: nat)
    requires Tiled(bs, brk) && Free(bs, g) && MIN_SIZE <= need <= bs[g].size && NextFrom(bs, x) == Some(g)
    ensures NextFrom(Taken(bs, g, need), x) == if Splits(bs, g, need) then Some(g + need) else NextFrom(bs, g + 1)
  {
    var bs' := Taken(bs, g, need);
    NextFromIs(bs, x);
    NextFromIs(bs, g + 1);
    assert Bounded(bs, brk, g);
    forall h: nat ensures Free(bs', h) <==> (Free(bs, h) && h != g) || (Splits(bs, g, need) && h == g + need) {
      TakenFrees(bs, brk, g, need, h);
    }
    forall h: nat | h in bs && h > g ensures h >= End(bs, g) {
      TakenFrees(bs, brk, g, need, h);
    }
    NextUnique(bs', x, if Splits(bs, g, need) then Some(g + need) else NextFrom(bs, g + 1));
  }

  /** After the head, nothing is free before the end of what was block `g`. */
  lemma SkipBlock(bs: Blocks, brk: nat, g: nat, x: nat)
    requires Tiled(bs, brk) && g in bs && g < x <= End(bs, g)
    ensures NextFrom(bs, x) == NextFrom(bs, g + 1)
  {
    NextFromIs(bs, x);
    NextFromIs(bs, g + 1);
    forall h: nat | h in bs && h > g ensures h >= End(bs, g) {
      assert Apart(bs, g, h);
    }
    NextUnique(bs, g + 1, NextFrom(bs, x));
  }

  // -------------------------------------------------------------------------
  // Giving back
  // -------------------------------------------------------------------------

  /** Does the last free block below `g` end where `g` starts? */
  predicate MergesLow(bs: Blocks, g: nat) {
    var prev := PrevFrom(bs, g);
    prev.Some? && prev.value in bs && prev.value < g && End(bs, prev.value) == g
  }

  predicate MergesHigh(bs: Blocks, g: nat) {
    g in bs && Free(bs, End(bs, g))
  }

  /** Block `g` free, merged with a free upper neighbour. */
  function MergedHigh(bs: Blocks, g: nat): Blocks
    requires g in bs
  {
    if MergesHigh(bs, g)
    then (bs - {End(bs, g)})[g := Block(bs[g].size + bs[End(bs, g)].size, true)]
    else bs[g := Block(bs[g].size, true)]
  }

  /** Block `g` free, merged with both neighbours where they are free. */
  function Freed(bs: Blocks, g: nat): Blocks
    requires g in bs
  {
    var up := MergedHigh(bs, g);
    if MergesLow(bs, g) && PrevFrom(bs, g).value in up
    then var p := PrevFrom(bs, g).value; (up - {g})[p := Block(up[p].size + up[g].size, true)]
    else up
  }

  lemma HighTiled(bs: Blocks, brk: nat, g: nat)
    requires Tiled(bs, brk) && Live(bs, g)
    ensures Tiled(MergedHigh(bs, g), brk)
  {
    var up, u := MergedHigh(bs, g), End(bs, g);
    assert Bounded(bs, brk, g) && Followed(bs, brk, g);
    if MergesHigh(bs, g) {
      assert Bounded(bs, brk, u) && Followed(bs, brk, u);
    }
    forall a | a in up ensures Bounded(up, brk, a) && Followed(up, brk, a) {
      assert Bounded(bs, brk, a) && Followed(bs, brk, a);
      assert Apart(bs, a, g) && Apart(bs, g, a);
      assert u in bs ==> Apart(bs, u, a);
    }
    forall a, b | a in up && b in up ensures Apart(up, a, b) {
      assert Apart(bs, a, b);
      assert u in bs ==> Apart(bs, u, b);
    }
  }

  lemma HighLone(bs: Blocks, brk: nat, g: nat, a: nat)
    requires Tiled(bs, brk) && Coalesced(bs) && Live(bs, g) && a in MergedHigh(bs, g)
    ensures var up := MergedHigh(bs, g); End(up, a) != g ==> Lone(up, a)
  {
    var u := End(bs, g);
    assert Lone(bs, a);
    if MergesHigh(bs, g) {
      assert Lone(bs, u) && Bounded(bs, brk, u);
    }
    assert Bounded(bs, brk, g);
  }

  lemma LowTiled(up: Blocks, brk: nat, g: nat, p: nat, bs': Blocks)
    requires Tiled(up, brk) && Free(up, g) && Free(up, p) && End(up, p) == g && p < g
    requires bs' == (up - {g})[p := Block(up[p].size + up[g].size, true)]
    ensures Tiled(bs', brk)
  {
    assert Bounded(up, brk, g) && Followed(up, brk, g) && Bounded(up, brk, p);
    forall a | a in bs' ensures Bounded(bs', brk, a) && Followed(bs', brk, a) {
      assert Bounded(up, brk, a) && Followed(up, brk, a);
      assert Apart(up, a, p) && Apart(up, p, a) && Apart(up, g, a);
    }
    forall a, b | a in bs' && b in bs' ensures Apart(bs', a, b) {
      assert Apart(up, a, b) && Apart(up, g, b);
    }
  }

  lemma LowLone(up: Blocks, brk: nat, g: nat, p: nat, bs': Blocks, a: nat)
    requires Tiled(up, brk) && Free(up, g) && Free(up, p) && End(up, p) == g && p < g
    requires bs' == (up - {g})[p := Block(up[p].size + up[g].size, true)] && a in bs'
    requires forall b | b in up && End(up, b) != g :: Lone(up, b)
    ensures Lone(bs', a)
  {
    assert Bounded(up, brk, g) && Bounded(up, brk, a);
    assert Apart(up, a, p) && Apart(up, p, a) && Apart(up, g, a) && Apart(up, a, g);
    assert End(up, g) != g && Lone(up, g);
    assert a != p ==> End(up, a) != g && Lone(up, a);
  }

  /** Only the block `MergesLow` finds can be free and end at `g`. */
  lemma NoneBelow(bs: Blocks, brk: nat, g: nat, a: nat)
    requires Tiled(bs, brk) && Live(bs, g) && Free(MergedHigh(bs, g), a) && !MergesLow(bs, g)
    ensures End(MergedHigh(bs, g), a) != g
  {
    assert Bounded(bs, brk, g);
    PrevFromIs(bs, g);
    if a < g && Free(bs, a) {
      var p := PrevFrom(bs, g).value;
      assert Apart(bs, a, p) && Bounded(bs, brk, p);
    }
  }

  /** Freeing a block keeps the tiling and leaves no two free neighbours. */
  lemma {:induction false} FreedTiled(bs: Blocks, brk: nat, g: nat)
    requires Tiled(bs, brk) && Coalesced(bs) && Live(bs, g)
    ensures Tiled(Freed(bs, g), brk) && Coalesced(Freed(bs, g))
  {
    var up, bs' := MergedHigh(bs, g), Freed(bs, g);
    HighTiled(bs, brk, g);
    assert Bounded(bs, brk, g);
    PrevFromIs(bs, g);
    forall a | a in up && End(up, a) != g ensures Lone(up, a) {
      HighLone(bs, brk, g, a);
    }
    if MergesLow(bs, g) {
      assert PrevFrom(bs, g).value in up;
      var p := PrevFrom(bs, g).value;
      LowTiled(up, brk, g, p, bs');
      forall a | a in bs' ensures Lone(bs', a) {
        LowLone(up, brk, g, p, bs', a);
      }
    } else {
      forall a | a in up ensures Lone(up, a) {
        if up[a].free {
          NoneBelow(bs, brk, g, a);
        }
      }
    }
  }

  /** The upper neighbour is free exactly when the list continues there. */
  lemma HighIsNext(bs: Blocks, brk: nat, g: nat)
    requires Tiled(bs, brk) && Live(bs, g)
    ensures MergesHigh(bs, g) <==> NextFrom(bs, g + 1) == Some(End(bs, g))
  {
    NextFromIs(bs, g + 1);
    assert Bounded(bs, brk, g);
    if MergesHigh(bs, g) {
      assert Bounded(bs, brk, End(bs, g));
      assert Apart(bs, g, NextFrom(bs, g + 1).value);
    }
  }

  /** Which places are free after the merge. */
  lemma FreedFrees(bs: Blocks, brk: nat, g: nat, h: nat)
    requires Tiled(bs, brk) && Live(bs, g)
    ensures MergesLow(bs, g) ==> PrevFrom(bs, g).value in MergedHigh(bs, g)
    ensures Free(Freed(bs, g), h) <==>
            if h == g then !MergesLow(bs, g) else Free(bs, h) && !(MergesHigh(bs, g) && h == End(bs, g))
  {
    PrevFromIs(bs, g);
    assert Bounded(bs, brk, g);
  }

  /** The list after `g` is freed. */
  lemma FreedNext(bs: Blocks, brk: nat, g: nat, x: nat)
    requires Tiled(bs, brk) && Live(bs, g)
    ensures var bs' := Freed(bs, g); var u := End(bs, g);
      && NextFrom(bs', g + 1) == (if MergesHigh(bs, g) then NextFrom(bs, u + 1) else NextFrom(bs, g + 1))
      && (x > g && Free(bs', x) ==> NextFrom(bs', x + 1) == NextFrom(bs, x + 1))
      && (x <= g && IsPrevOf(bs, g, x) ==> NextFrom(bs', x) == if MergesLow(bs, g) then NextFrom(bs', g + 1) else Some(g))
      && (NextFrom(bs, x).Some? && NextFrom(bs, x).value < g ==> NextFrom(bs', x) == NextFrom(bs, x))
  {
    var bs', u := Freed(bs, g), End(bs, g);
    assert Bounded(bs, brk, g);
    assert MergesHigh(bs, g) ==> Bounded(bs, brk, u);
    NextFromIs(bs, g + 1);
    NextFromIs(bs, u + 1);
    NextFromIs(bs, x);
    NextFromIs(bs, x + 1);
    forall h: nat ensures Free(bs', h) <==>
            if h == g then !MergesLow(bs, g) else Free(bs, h) && !(MergesHigh(bs, g) && h == u) {
      FreedFrees(bs, brk, g, h);
    }
    forall h: nat | h in bs && h > g ensures h >= u {
      assert Apart(bs, g, h);
    }
    NextUnique(bs', g + 1, if MergesHigh(bs, g) then NextFrom(bs, u + 1) else NextFrom(bs, g + 1));
    if x > g && Free(bs', x) {
      NextUnique(bs', x + 1, NextFrom(bs, x + 1));
    }
    if x <= g && IsPrevOf(bs, g, x) {
      NextFromIs(bs', g + 1);
      NextUnique(bs', x, if MergesLow(bs, g) then NextFrom(bs', g + 1) else Some(g));
    }
    if NextFrom(bs, x).Some? && NextFrom(bs, x).value < g {
      NextUnique(bs', x, NextFrom(bs, x));
    }
  }

  /** No free block stands in [x, g). */
  ghost predicate IsPrevOf(bs: Blocks, g: nat, x: nat) {
    forall h: nat | x <= h < g :: !Free(bs, h)
  }
}
