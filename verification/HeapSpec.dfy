/** The kernel heap as a value: blocks of bytes, payloads inside the live ones, and what memory records of them. */
module HeapSpec {
  import opened Bytes
  import opened Frames
  import opened Words
  import opened FreeBlocks

  const HDR: nat := 32
  const NODE: nat := 16
  const MIN_BLOCK: nat := 48
  const MAX_ALLOC: nat := 0x4000_0000
  const MAX_NODES: nat := 4096
  const MAGIC: nat := 0x474C_4D48_4541_44

  /** Where a live block's payload starts, and how long it is. */
  datatype Payload = Payload(at: nat, len: nat)

  type Payloads = map<nat, Payload>

  // -------------------------------------------------------------------------
  // Alignment
  // -------------------------------------------------------------------------

  /** The next multiple; for a power of two, what the mask computes. */
  function AlignUp(v: nat, align: nat): (r: nat)
    requires align > 0
    ensures v <= r < v + align && r % align == 0
  {
    AlignedUp(v, align);
    (v + align - 1) / align * align
  }

  lemma AlignedUp(v: nat, align: nat)
    requires align > 0
    ensures v <= (v + align - 1) / align * align < v + align && (v + align - 1) / align * align % align == 0
  {
    var q, r := (v + align - 1) / align, (v + align - 1) % align;
    assert v + align - 1 == q * align + r;
    MultipleMod(q, align);
  }

  lemma MultipleMod(q: nat, n: nat)
    requires n > 0
    ensures q * n % n == 0
  {
    var k, r := q * n / n, q * n % n;
    assert (q - k) * n == r;
    if q > k {
      LongProduct(q - k, n);
    } else if q < k {
      LongProduct(k - q, n);
    }
  }

  lemma LongProduct(d: int, n: nat)
    requires d >= 1
    ensures d * n >= n
  {
  }

  /** What is asked of a block: the worst alignment shift is reserved. */
  function Need(n: nat, align: nat): nat
    requires align > 0
  {
    n + HDR + align - 1
  }

  // -------------------------------------------------------------------------
  // What memory records
  // -------------------------------------------------------------------------

  function Link(base: nat, r: Option<nat>): nat {
    match r case None => 0 case Some(g) => base + g
  }

  /** A payload and its header lie inside their block. */
  predicate Inside(bs: Blocks, pay: Payloads, x: nat)
    requires x in bs
  {
    x in pay && x + HDR <= pay[x].at && pay[x].len > 0 && pay[x].at + pay[x].len <= End(bs, x)
  }

  predicate NodeOk(base: nat, bs: Blocks, m: seq<byte>, x: nat)
    requires x in bs && End(bs, x) <= |m|
  {
    bs[x].size >= NODE && Word(m, x) == Link(base, NextFrom(bs, x + 1)) && Word(m, x + 8) == bs[x].size
  }

  predicate HeaderOk(base: nat, bs: Blocks, pay: Payloads, m: seq<byte>, x: nat)
    requires x in bs && End(bs, x) <= |m|
  {
    && Inside(bs, pay, x)
    && Word(m, pay[x].at - 32) == base + x && Word(m, pay[x].at - 24) == bs[x].size
    && Word(m, pay[x].at - 16) == pay[x].len && Word(m, pay[x].at - 8) == MAGIC
  }

  predicate BlockOk(base: nat, bs: Blocks, pay: Payloads, m: seq<byte>, x: nat)
    requires x in bs
  {
    End(bs, x) <= |m| && if bs[x].free then NodeOk(base, bs, m, x) else HeaderOk(base, bs, pay, m, x)
  }

  ghost predicate Recorded(base: nat, bs: Blocks, pay: Payloads, m: seq<byte>, head: nat) {
    && head == Link(base, NextFrom(bs, 0))
    && (forall x {:trigger BlockOk(base, bs, pay, m, x)} | x in bs :: BlockOk(base, bs, pay, m, x))
  }

  predicate SameBytes(m: seq<byte>, m': seq<byte>, lo: nat, hi: nat) {
    |m'| == |m| && hi <= |m| && forall i | lo <= i < hi :: m'[i] == m[i]
  }

  /** A block nobody wrote to is still recorded. */
  lemma BlockFrame(base: nat, bs: Blocks, pay: Payloads, m: seq<byte>, bs': Blocks, pay': Payloads, m': seq<byte>, x: nat)
    requires x in bs && x in bs' && bs'[x] == bs[x] && BlockOk(base, bs, pay, m, x) && SameBytes(m, m', x, End(bs, x))
    requires if bs[x].free then NextFrom(bs', x + 1) == NextFrom(bs, x + 1) else x in pay' && x in pay && pay'[x] == pay[x]
    ensures BlockOk(base, bs', pay', m', x)
  {
    if bs[x].free {
      WordSame(m, m', x);
      WordSame(m, m', x + 8);
    } else {
      WordSame(m, m', pay[x].at - 32);
      WordSame(m, m', pay[x].at - 24);
      WordSame(m, m', pay[x].at - 16);
      WordSame(m, m', pay[x].at - 8);
    }
  }

  // -------------------------------------------------------------------------
  // Handing out
  // -------------------------------------------------------------------------

  /** How much of block `g` a payload that ends at `end` takes: up to there if the rest is worth keeping, else all. */
  function Cut(bs: Blocks, g: nat, end: nat): (c: nat)
    requires g in bs && g < end <= End(bs, g)
  {
    if End(bs, g) - end >= MIN_BLOCK then end - g else bs[g].size
  }

  lemma CutSplits(bs: Blocks, g: nat, end: nat)
    requires g in bs && g < end <= End(bs, g)
    ensures Splits(bs, g, Cut(bs, g, end)) <==> End(bs, g) - end >= MIN_BLOCK
  {
  }

  function Handed(pay: Payloads, g: nat, at: nat, len: nat): Payloads {
    pay[g := Payload(at, len)]
  }

  /** Where alloc's search ended: free block `g`, the free block `p` before it, and a payload that fits behind a header. */
  ghost predicate Chosen(bs: Blocks, brk: nat, p: Option<nat>, g: nat, at: nat, len: nat) {
    && Tiled(bs, brk) && Free(bs, g) && End(bs, g) <= brk
    && g + HDR <= at && at + len <= End(bs, g) && len > 0
    && (p.Some? ==> Free(bs, p.value) && p.value + NODE <= g) && NextFrom(bs, After(p)) == Some(g)
  }

  /** The link that led to the block now leads here. */
  function Onward(base: nat, bs: Blocks, g: nat, end: nat): nat
    requires g in bs && g < end <= End(bs, g)
  {
    if Splits(bs, g, Cut(bs, g, end)) then base + end else Link(base, NextFrom(bs, g + 1))
  }

  /** What alloc wrote: the header, the tail's node, and one link before the block. */
  ghost predicate AllocWrites(base: nat, bs: Blocks, brk: nat, m: seq<byte>, m': seq<byte>, head': nat, p: Option<nat>,
                              g: nat, at: nat, len: nat)
    requires Chosen(bs, brk, p, g, at, len) && brk <= |m| == |m'|
  {
    var end := at + len;
    && Word(m', at - 32) == base + g && Word(m', at - 24) == Cut(bs, g, end)
    && Word(m', at - 16) == len && Word(m', at - 8) == MAGIC
    && (End(bs, g) - end >= MIN_BLOCK ==>
          Word(m', end) == Link(base, NextFrom(bs, g + 1)) && Word(m', end + 8) == End(bs, g) - end)
    && (p.None? ==> head' == Onward(base, bs, g, end))
    && (p.Some? ==> head' == Link(base, NextFrom(bs, 0)) && Word(m', p.value) == Onward(base, bs, g, end))
    && (forall i | 0 <= i < |m| && !(g <= i < End(bs, g)) && !(p.Some? && p.value <= i < p.value + 8) :: m'[i] == m[i])
  }

  /** Another block stays recorded. */
  lemma HandedBlock(base: nat, bs: Blocks, pay: Payloads, brk: nat, m: seq<byte>, m': seq<byte>, head: nat, head': nat,
                    p: Option<nat>, g: nat, at: nat, len: nat, x: nat)
    requires Chosen(bs, brk, p, g, at, len) && Recorded(base, bs, pay, m, head) && brk <= |m| == |m'|
    requires AllocWrites(base, bs, brk, m, m', head', p, g, at, len)
    requires x in bs && x != g
    ensures x in Taken(bs, g, Cut(bs, g, at + len))
    ensures BlockOk(base, Taken(bs, g, Cut(bs, g, at + len)), Handed(pay, g, at, len), m', x)
  {
    hide Word;
    var cut := Cut(bs, g, at + len);
    var bs', pay' := Taken(bs, g, cut), Handed(pay, g, at, len);
    CutSplits(bs, g, at + len);
    TakenFrees(bs, brk, g, cut, x);
    if Splits(bs, g, cut) {
      TailIsNew(bs, brk, g, cut);
    }
    assert BlockOk(base, bs, pay, m, x) && Apart(bs, x, g) && Apart(bs, g, x) && Bounded(bs, brk, x);
    NextFromIs(bs, After(p));
    NextFromIs(bs, x + 1);
    if Free(bs, x) {
      if x > g {
        TakenNextHigh(bs, brk, g, cut, x + 1);
      } else if p == Some(x) {
        TakenNextAt(bs, brk, g, cut, x + 1);
        WordSame(m, m', x + 8);
      } else {
        TakenNextLow(bs, brk, g, cut, x + 1);
      }
    }
    if p != Some(x) {
      if p.Some? {
        assert Apart(bs, x, p.value) && Apart(bs, p.value, x) && BlockOk(base, bs, pay, m, p.value);
      }
      BlockFrame(base, bs, pay, m, bs', pay', m', x);
    }
  }

  /** alloc's writes record the hand-out. */
  lemma {:induction false} HandedRecorded(base: nat, bs: Blocks, pay: Payloads, brk: nat, m: seq<byte>, m': seq<byte>,
                                          head: nat, head': nat, p: Option<nat>, g: nat, at: nat, len: nat)
    requires Chosen(bs, brk, p, g, at, len) && Recorded(base, bs, pay, m, head) && brk <= |m| == |m'|
    requires AllocWrites(base, bs, brk, m, m', head', p, g, at, len)
    ensures Recorded(base, Taken(bs, g, Cut(bs, g, at + len)), Handed(pay, g, at, len), m', head')
  {
    hide Word;
    var cut := Cut(bs, g, at + len);
    var bs', pay' := Taken(bs, g, cut), Handed(pay, g, at, len);
    CutSplits(bs, g, at + len);
    if Splits(bs, g, cut) {
      TailIsNew(bs, brk, g, cut);
    }
    forall x | x in bs' ensures BlockOk(base, bs', pay', m', x) {
      if x == g {
        assert Inside(bs', pay', g);
      } else if x in bs {
        HandedBlock(base, bs, pay, brk, m, m', head, head', p, g, at, len, x);
      } else {
        TakenNextHigh(bs, brk, g, cut, x + 1);
        SkipBlock(bs, brk, g, x + 1);
      }
    }
    NextFromIs(bs, 0);
    if p.None? {
      TakenNextAt(bs, brk, g, cut, 0);
    } else {
      TakenNextLow(bs, brk, g, cut, 0);
    }
  }

  // -------------------------------------------------------------------------
  // Giving back
  // -------------------------------------------------------------------------

  /** Block `g` joins the free block below it, or else the one above, or stands alone: never both. */
  function GivenBack(bs: Blocks, g: nat): Blocks
    requires g in bs
  {
    if MergesLow(bs, g)
    then var p := PrevFrom(bs, g).value; (bs - {g})[p := Block(bs[p].size + bs[g].size, true)]
    else MergedHigh(bs, g)
  }

  /** Does the returned block become a free block of its own? */
  predicate Alone(bs: Blocks, g: nat) {
    !MergesLow(bs, g) && !MergesHigh(bs, g)
  }

  lemma MarkedTiled(bs: Blocks, brk: nat, g: nat)
    requires Tiled(bs, brk) && g in bs
    ensures Tiled(bs[g := Block(bs[g].size, true)], brk)
  {
    var bs' := bs[g := Block(bs[g].size, true)];
    forall x | x in bs' ensures Bounded(bs', brk, x) && Followed(bs', brk, x) {
      assert Bounded(bs, brk, x) && Followed(bs, brk, x);
    }
    forall x, y | x in bs' && y in bs' ensures Apart(bs', x, y) {
      assert Apart(bs, x, y);
    }
  }

  /** Giving back keeps the tiling. */
  lemma {:induction false} GivenBackTiled(bs: Blocks, brk: nat, g: nat)
    requires Tiled(bs, brk) && Live(bs, g)
    ensures Tiled(GivenBack(bs, g), brk)
  {
    PrevFromIs(bs, g);
    if MergesLow(bs, g) {
      var up, p := bs[g := Block(bs[g].size, true)], PrevFrom(bs, g).value;
      MarkedTiled(bs, brk, g);
      assert GivenBack(bs, g) == (up - {g})[p := Block(up[p].size + up[g].size, true)];
      LowTiled(up, brk, g, p, GivenBack(bs, g));
    } else {
      HighTiled(bs, brk, g);
    }
  }

  /** It leaves two free neighbours exactly when both were free: then the upper one stays a block of its own. */
  lemma {:induction false} StaysCoalescedIff(bs: Blocks, brk: nat, g: nat)
    requires Tiled(bs, brk) && Coalesced(bs) && Live(bs, g)
    ensures Coalesced(GivenBack(bs, g)) <==> !(MergesLow(bs, g) && MergesHigh(bs, g))
  {
    PrevFromIs(bs, g);
    var bs' := GivenBack(bs, g);
    assert Bounded(bs, brk, g);
    if MergesLow(bs, g) {
      var p := PrevFrom(bs, g).value;
      assert End(bs', p) == End(bs, g) && p in bs';
      if MergesHigh(bs, g) {
        assert !Lone(bs', p);
      } else {
        forall a | a in bs' ensures Lone(bs', a) {
          assert Lone(bs, a) && Apart(bs, a, p) && Apart(bs, p, a) && Apart(bs, a, g) && Apart(bs, g, a) && Bounded(bs, brk, a);
        }
      }
    } else {
      assert bs' == Freed(bs, g);
      FreedTiled(bs, brk, g);
    }
  }

  /** Merging downwards leaves the list as it is. */
  lemma LowNext(bs: Blocks, g: nat, x: nat)
    requires Live(bs, g) && MergesLow(bs, g)
    ensures NextFrom(GivenBack(bs, g), x) == NextFrom(bs, x)
  {
    PrevFromIs(bs, g);
    var bs' := GivenBack(bs, g);
    assert forall h: nat :: Free(bs', h) <==> Free(bs, h);
    NextFromIs(bs, x);
    NextUnique(bs', x, NextFrom(bs, x));
  }

  /** What giving back does to the list. */
  lemma GivenNext(bs: Blocks, brk: nat, g: nat, x: nat)
    requires Tiled(bs, brk) && Live(bs, g)
    ensures MergesHigh(bs, g) && !MergesLow(bs, g) ==> NextFrom(GivenBack(bs, g), g + 1) == NextFrom(bs, End(bs, g) + 1)
    ensures Alone(bs, g) ==> NextFrom(GivenBack(bs, g), g + 1) == NextFrom(bs, g + 1)
    ensures x > g && Free(GivenBack(bs, g), x) ==> NextFrom(GivenBack(bs, g), x + 1) == NextFrom(bs, x + 1)
    ensures x <= g && IsPrevOf(bs, g, x) && !MergesLow(bs, g) ==> NextFrom(GivenBack(bs, g), x) == Some(g)
    ensures NextFrom(bs, x).Some? && NextFrom(bs, x).value < g ==> NextFrom(GivenBack(bs, g), x) == NextFrom(bs, x)
  {
    if MergesLow(bs, g) {
      LowNext(bs, g, x);
      LowNext(bs, g, x + 1);
    } else {
      assert GivenBack(bs, g) == Freed(bs, g);
      FreedNext(bs, brk, g, x);
    }
  }

  /** From the free block before a live one, the list goes on behind it. */
  lemma NextAcross(bs: Blocks, g: nat, x: nat)
    requires x <= g && IsPrevOf(bs, g, x) && Live(bs, g)
    ensures NextFrom(bs, x) == NextFrom(bs, g + 1)
  {
    NextFromIs(bs, g + 1);
    NextUnique(bs, x, NextFrom(bs, g + 1));
  }

  /** Live block `g` has room for a node, and so has the free block before it. */
  ghost predicate Returning(bs: Blocks, brk: nat, g: nat) {
    && Tiled(bs, brk) && Live(bs, g) && bs[g].size >= NODE && End(bs, g) <= brk
    && (MergesHigh(bs, g) ==> End(bs, g) + NODE <= brk)
    && var p := PrevFrom(bs, g); p.Some? ==> Free(bs, p.value) && bs[p.value].size >= NODE && End(bs, p.value) <= g
  }

  /** What free wrote: the block's node, and the node before it. */
  ghost predicate FreeWrites(base: nat, bs: Blocks, brk: nat, m: seq<byte>, m': seq<byte>, head': nat, g: nat)
    requires Returning(bs, brk, g) && brk <= |m| == |m'|
  {
    var p, u := PrevFrom(bs, g), End(bs, g);
    && (!MergesLow(bs, g) ==>
          && Word(m', g) == (if MergesHigh(bs, g) then Word(m, u) else Link(base, NextFrom(bs, g + 1)))
          && Word(m', g + 8) == bs[g].size + if MergesHigh(bs, g) then bs[u].size else 0)
    && (p.None? ==> head' == base + g)
    && (p.Some? ==>
          && head' == Link(base, NextFrom(bs, 0))
          && Word(m', p.value) == (if MergesLow(bs, g) then Link(base, NextFrom(bs, g + 1)) else base + g)
          && Word(m', p.value + 8) == bs[p.value].size + if MergesLow(bs, g) then bs[g].size else 0)
    && (forall i | 0 <= i < |m| && !(g <= i < g + NODE) && !(p.Some? && p.value <= i < p.value + NODE) :: m'[i] == m[i])
  }

  /** Another block stays recorded. */
  lemma GivenBlock(base: nat, bs: Blocks, pay: Payloads, brk: nat, m: seq<byte>, m': seq<byte>, head: nat, head': nat,
                   g: nat, x: nat)
    requires Returning(bs, brk, g) && Recorded(base, bs, pay, m, head) && brk <= |m| == |m'|
    requires FreeWrites(base, bs, brk, m, m', head', g)
    requires x in bs && x != g && PrevFrom(bs, g) != Some(x) && x in GivenBack(bs, g)
    ensures BlockOk(base, GivenBack(bs, g), pay - {g}, m', x)
  {
    hide Word, NextFrom;
    PrevFromIs(bs, g);
    assert BlockOk(base, bs, pay, m, x) && Apart(bs, x, g) && Apart(bs, g, x) && Bounded(bs, brk, x);
    if PrevFrom(bs, g).Some? {
      assert Apart(bs, x, PrevFrom(bs, g).value) && Apart(bs, PrevFrom(bs, g).value, x);
    }
    if Free(bs, x) {
      NextFromIs(bs, x + 1);
      if x > g {
        GivenNext(bs, brk, g, x);
      } else {
        GivenNext(bs, brk, g, x + 1);
      }
    }
    assert SameBytes(m, m', x, End(bs, x));
    BlockFrame(base, bs, pay, m, GivenBack(bs, g), pay - {g}, m', x);
  }

  /** The freed block and the one before it are recorded. */
  lemma GivenTwo(base: nat, bs: Blocks, pay: Payloads, brk: nat, m: seq<byte>, m': seq<byte>, head: nat, head': nat,
                 g: nat, x: nat)
    requires Returning(bs, brk, g) && Recorded(base, bs, pay, m, head) && brk <= |m| == |m'|
    requires FreeWrites(base, bs, brk, m, m', head', g)
    requires x in GivenBack(bs, g) && (x == g || PrevFrom(bs, g) == Some(x))
    ensures BlockOk(base, GivenBack(bs, g), pay - {g}, m', x)
  {
    hide Word, NextFrom;
    PrevFromIs(bs, g);
    if x == g {
      GivenNext(bs, brk, g, 0);
      if MergesHigh(bs, g) {
        assert BlockOk(base, bs, pay, m, End(bs, g));
      }
    } else {
      assert BlockOk(base, bs, pay, m, x);
      GivenNext(bs, brk, g, x + 1);
      if MergesLow(bs, g) {
        LowNext(bs, g, x + 1);
        NextAcross(bs, g, x + 1);
      }
    }
  }

  /** free's writes record the return. */
  lemma {:induction false} GivenRecorded(base: nat, bs: Blocks, pay: Payloads, brk: nat, m: seq<byte>, m': seq<byte>,
                                         head: nat, head': nat, g: nat)
    requires Returning(bs, brk, g) && Recorded(base, bs, pay, m, head) && brk <= |m| == |m'|
    requires FreeWrites(base, bs, brk, m, m', head', g)
    ensures Recorded(base, GivenBack(bs, g), pay - {g}, m', head')
  {
    hide Word, NextFrom, BlockOk;
    var bs' := GivenBack(bs, g);
    forall x | x in bs' ensures BlockOk(base, bs', pay - {g}, m', x) {
      if x == g || PrevFrom(bs, g) == Some(x) {
        GivenTwo(base, bs, pay, brk, m, m', head, head', g, x);
      } else {
        GivenBlock(base, bs, pay, brk, m, m', head, head', g, x);
      }
    }
    PrevFromIs(bs, g);
    NextFromIs(bs, 0);
    GivenNext(bs, brk, g, 0);
    if MergesLow(bs, g) {
      LowNext(bs, g, 0);
    }
  }

  // -------------------------------------------------------------------------
  // How long the list gets, and what the counters count
  // -------------------------------------------------------------------------

  ghost function FreeSet(bs: Blocks): set<nat> {
    set x | x in bs && bs[x].free
  }

  /** The length of the free list. */
  ghost function FreeCount(bs: Blocks): nat {
    |FreeSet(bs)|
  }

  lemma LowSet(bs: Blocks, g: nat)
    requires Live(bs, g) && MergesLow(bs, g)
    ensures FreeSet(GivenBack(bs, g)) == FreeSet(bs)
  {
    PrevFromIs(bs, g);
  }

  lemma HighSet(bs: Blocks, brk: nat, g: nat)
    requires Tiled(bs, brk) && Live(bs, g) && MergesHigh(bs, g)
    ensures End(bs, g) in FreeSet(bs) && g !in FreeSet(bs)
    ensures FreeSet(MergedHigh(bs, g)) == FreeSet(bs) - {End(bs, g)} + {g}
  {
    assert Bounded(bs, brk, g);
  }

  /** Handing out keeps the tiling, with or without free neighbours. */
  lemma TakenLays(bs: Blocks, brk: nat, g: nat, cut: nat)
    requires Tiled(bs, brk) && Free(bs, g) && MIN_SIZE <= cut <= bs[g].size
    ensures Tiled(Taken(bs, g, cut), brk)
  {
    var bs' := Taken(bs, g, cut);
    if Splits(bs, g, cut) {
      TailIsNew(bs, brk, g, cut);
    }
    assert Bounded(bs, brk, g) && Followed(bs, brk, g);
    forall a | a in bs' ensures Bounded(bs', brk, a) && Followed(bs', brk, a) {
      if a in bs {
        assert Bounded(bs, brk, a) && Followed(bs, brk, a);
        assert Apart(bs, a, g) && Apart(bs, g, a);
      }
    }
    forall a, b | a in bs' && b in bs' ensures Apart(bs', a, b) {
      TakenApart(bs, brk, g, cut, a, b);
    }
  }

  /** The list grows by one exactly when the block merges with neither neighbour. */
  lemma {:induction false} CountAfterFree(bs: Blocks, brk: nat, g: nat)
    requires Tiled(bs, brk) && Live(bs, g)
    ensures FreeCount(GivenBack(bs, g)) == FreeCount(bs) + if Alone(bs, g) then 1 else 0
  {
    if MergesLow(bs, g) {
      LowSet(bs, g);
    } else if MergesHigh(bs, g) {
      HighSet(bs, brk, g);
    } else {
      assert FreeSet(GivenBack(bs, g)) == FreeSet(bs) + {g};
    }
  }

  /** It shrinks by one exactly when nothing is left of the block handed out. */
  lemma {:induction false} CountAfterAlloc(bs: Blocks, brk: nat, g: nat, cut: nat)
    requires Tiled(bs, brk) && Free(bs, g) && MIN_SIZE <= cut <= bs[g].size
    ensures FreeCount(Taken(bs, g, cut)) + (if Splits(bs, g, cut) then 0 else 1) == FreeCount(bs)
  {
    var was, now := FreeSet(bs), FreeSet(Taken(bs, g, cut));
    if Splits(bs, g, cut) {
      TailIsNew(bs, brk, g, cut);
      assert now == was - {g} + {g + cut};
    } else {
      assert now == was - {g};
    }
  }

  /** The bytes asked for and not yet given back. */
  ghost function Total(pay: Payloads): nat
    decreases |pay|
  {
    if pay == map[] then 0 else var x :| x in pay; pay[x].len + Total(pay - {x})
  }

  lemma {:induction false} TotalLess(pay: Payloads, x: nat)
    requires x in pay
    ensures Total(pay) == pay[x].len + Total(pay - {x})
    decreases |pay|
  {
    var y :| y in pay && Total(pay) == pay[y].len + Total(pay - {y});
    if y != x {
      TotalLess(pay - {y}, x);
      TotalLess(pay - {x}, y);
      assert pay - {y} - {x} == pay - {x} - {y};
    }
  }

  lemma TotalMore(pay: Payloads, x: nat, p: Payload)
    requires x !in pay
    ensures Total(pay[x := p]) == Total(pay) + p.len
  {
    TotalLess(pay[x := p], x);
    assert pay[x := p] - {x} == pay;
  }

  // -------------------------------------------------------------------------
  // What the layout gives
  // -------------------------------------------------------------------------

  /** The header and payload of one live block lie wholly before those of the next. */
  lemma {:induction false} PayloadsApart(bs: Blocks, brk: nat, pay: Payloads, x: nat, y: nat)
    requires Tiled(bs, brk) && Live(bs, x) && Live(bs, y) && x < y && Inside(bs, pay, x) && Inside(bs, pay, y)
    ensures pay[x].at + pay[x].len + HDR <= pay[y].at
  {
    assert Apart(bs, x, y);
  }

  /** Whatever is written inside the payload of a live block, memory records the same list and headers. */
  lemma {:induction false} PayloadWritesKeep(base: nat, bs: Blocks, pay: Payloads, brk: nat, m: seq<byte>, m': seq<byte>,
                                             head: nat, g: nat)
    requires Tiled(bs, brk) && brk <= |m| == |m'| && Recorded(base, bs, pay, m, head) && Live(bs, g) && g in pay
    requires forall i | 0 <= i < |m| && m'[i] != m[i] :: pay[g].at <= i < pay[g].at + pay[g].len
    ensures Recorded(base, bs, pay, m', head)
  {
    hide Word, NextFrom;
    assert BlockOk(base, bs, pay, m, g);
    forall x | x in bs ensures BlockOk(base, bs, pay, m', x) {
      assert BlockOk(base, bs, pay, m, x) && Apart(bs, x, g) && Apart(bs, g, x);
      if x == g {
        WordSame(m, m', pay[g].at - 32);
        WordSame(m, m', pay[g].at - 24);
        WordSame(m, m', pay[g].at - 16);
        WordSame(m, m', pay[g].at - 8);
      } else {
        BlockFrame(base, bs, pay, m, bs, pay, m', x);
      }
    }
  }

  /** Give back the middle of three blocks between two free ones: all is free, and no block has more than two thirds. */
  lemma {:induction false} AllFreeYetTwo(n: nat)
    requires MIN_SIZE <= n && 3 * n <= LIMIT
    ensures var bs := map[0 := Block(n, true), n := Block(n, false), 2 * n := Block(n, true)];
            && Tiled(bs, 3 * n) && Coalesced(bs)
            && GivenBack(bs, n) == map[0 := Block(2 * n, true), 2 * n := Block(n, true)]
            && Freed(bs, n) == map[0 := Block(3 * n, true)]
            && NoFit(GivenBack(bs, n), 2 * n + 1)
  {
    var bs := map[0 := Block(n, true), n := Block(n, false), 2 * n := Block(n, true)];
    PrevUnique(bs, n, Some(0));
    assert GivenBack(bs, n) == map[0 := Block(2 * n, true), 2 * n := Block(n, true)];
    assert Freed(bs, n) == map[0 := Block(3 * n, true)];
  }
}
