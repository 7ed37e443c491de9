/** malloc, free, calloc and realloc of a ring-3 process, over the arena's memory. */
module Malloc {
  import opened Bytes
  import opened Frames
  import opened Words
  import opened FreeBlocks
  import opened MallocSpec
  import opened MallocLinks

  /** The first `len` bytes of a payload. */
  function BytesAt(m: seq<Cell>, g: nat, len: nat): (b: seq<byte>)
    requires UNIT * (g + 1) + len <= UNIT * |m|
    ensures |b| == len && forall k | 0 <= k < len :: b[k] == m[g + 1 + k / UNIT][k % UNIT]
  {
    seq(len, k requires 0 <= k < len => m[g + 1 + k / UNIT][k % UNIT])
  }

  /** A live block's cells, header and payload, are untouched. */
  ghost predicate Keeps(bs: Blocks, m: seq<Cell>, m': seq<Cell>, h: nat)
    requires h in bs
  {
    End(bs, h) <= |m| == |m'| && m'[h..End(bs, h)] == m[h..End(bs, h)]
  }

  /** Every live block's are, but `but`'s. */
  ghost predicate KeepsLive(bs: Blocks, m: seq<Cell>, m': seq<Cell>, but: Option<nat>) {
    forall h: nat {:trigger Keeps(bs, m, m', h)} | Live(bs, h) && but != Some(h) :: Keeps(bs, m, m', h)
  }

  /** The live blocks are the same, with the same sizes, `but` aside. */
  ghost predicate SameLive(bs: Blocks, bs': Blocks, but: Option<nat>) {
    forall h: nat | but != Some(h) :: (Live(bs', h) <==> Live(bs, h)) && (Live(bs, h) ==> bs'[h] == bs[h])
  }

  /** Writing only to block `but`, to the heads of free blocks and inside one of them leaves live blocks alone. */
  lemma WritesOutside(bs: Blocks, brk: nat, m: seq<Cell>, m': seq<Cell>, but: Option<nat>, spare: nat)
    requires Tiled(bs, brk) && brk <= UNITS && |m| == |m'| == UNITS
    requires forall u: nat | u < UNITS && m'[u] != m[u] ::
               (but == Some(u) && u in bs) || Free(bs, u) || (Free(bs, spare) && spare <= u < End(bs, spare))
    ensures KeepsLive(bs, m, m', but)
  {
    forall h: nat | Live(bs, h) && but != Some(h) ensures Keeps(bs, m, m', h) {
      assert Bounded(bs, brk, h);
      forall u: nat | h <= u < End(bs, h) ensures m'[u] == m[u] {
        assert Free(bs, u) ==> Apart(bs, h, u);
        assert Free(bs, spare) ==> Apart(bs, h, spare) && Apart(bs, spare, h);
        assert u in bs && u != h ==> Apart(bs, h, u);
      }
    }
  }

  /** The block whose payload is at `p`. */
  function HeadOf(p: nat): nat
    requires p >= ARENA_BASE + UNIT
  {
    Place(p) - 1
  }

  /** `p` is a payload: 16-aligned, behind the header of a live block. */
  ghost predicate IsPayload(bs: Blocks, p: nat) {
    p >= ARENA_BASE + UNIT && p == AddrOf(HeadOf(p) + 1) && Live(bs, HeadOf(p))
  }

  /** What free's checks of the address alone turn away. */
  predicate Bogus(p: nat) {
    p % UNIT != 0 || p < ARENA_BASE + UNIT || p > ARENA_MAX
  }

  /** Writes to a payload touch no header, so whatever they are the list stands. */
  lemma PayloadOnly(base: nat, bs: Blocks, brk: nat, m: seq<Cell>, m': seq<Cell>, head: nat, inited: bool, g: nat)
    requires Tiled(bs, brk) && brk <= UNITS && Live(bs, g) && |m| == |m'| == UNITS
    requires forall u | 0 <= u < UNITS && m'[u] != m[u] :: g < u < End(bs, g)
    ensures inited && Linked(base, bs, m, head) ==> Linked(base, bs, m', head)
    ensures KeepsLive(bs, m, m', Some(g)) && g < UNITS && m'[g] == m[g]
  {
    assert Bounded(bs, brk, g);
    forall x | x in bs ensures x < UNITS && m'[x] == m[x] {
      assert Apart(bs, g, x) && Bounded(bs, brk, x);
    }
    if inited && Linked(base, bs, m, head) {
      forall x | x in bs ensures Header(base, bs, m'[x], x) {
        assert Header(base, bs, m[x], x);
      }
    }
    forall h: nat | Live(bs, h) && h != g ensures Keeps(bs, m, m', h) {
      assert Bounded(bs, brk, h) && Apart(bs, g, h) && Apart(bs, h, g);
    }
  }

  /** When null comes back: over the cap, or no block fits and the kernel refuses. */
  ghost predicate Refused(bs: Blocks, brk: nat, n: nat, frames: bool) {
    n > MAX_ALLOC || (NoFit(bs, Want(n)) && !(frames && brk + Chunk(Want(n)) <= UNITS))
  }

  /** A fresh allocation: a live block of `need` units, or one more, that was not live; no other live block moved. */
  ghost predicate Served(bs: Blocks, bs': Blocks, p: nat, need: nat) {
    && IsPayload(bs', p) && !Live(bs, HeadOf(p))
    && need <= bs'[HeadOf(p)].size < need + MIN_UNITS
    && SameLive(bs, bs', Some(HeadOf(p)))
  }

  lemma TakenServes(bs: Blocks, brk: nat, g: nat, need: nat)
    requires Tiled(bs, brk) && Free(bs, g) && MIN_UNITS <= need <= bs[g].size
    ensures SameLive(bs, Taken(bs, g, need), Some(g)) && !Live(bs, g)
    ensures need <= Taken(bs, g, need)[g].size < need + MIN_UNITS && Live(Taken(bs, g, need), g)
  {
    if Splits(bs, g, need) {
      TailIsNew(bs, brk, g, need);
    }
  }

  /** Freeing makes one block not live and leaves the others. */
  lemma FreedLive(bs: Blocks, brk: nat, g: nat)
    requires Tiled(bs, brk) && Live(bs, g)
    ensures SameLive(bs, Freed(bs, g), Some(g)) && !Live(Freed(bs, g), g)
  {
    PrevFromIs(bs, g);
    assert Bounded(bs, brk, g);
  }

  lemma KeepsAcross(bs: Blocks, bs': Blocks, m: seq<Cell>, m': seq<Cell>, m'': seq<Cell>, but: Option<nat>)
    requires KeepsLive(bs, m, m', but) && SameLive(bs, bs', but) && KeepsLive(bs', m', m'', None)
    ensures KeepsLive(bs, m, m'', but)
  {
    forall h: nat | Live(bs, h) && but != Some(h) ensures Keeps(bs, m, m'', h) {
      assert Keeps(bs, m, m', h) && Keeps(bs', m', m'', h);
    }
  }

  /** The same live blocks but for one gone and one new. */
  ghost predicate SameButTwo(bs: Blocks, bs': Blocks, gone: nat, come: nat) {
    && !Live(bs', gone) && !Live(bs, come) && gone != come
    && forall h: nat | h != gone && h != come :: (Live(bs', h) <==> Live(bs, h)) && (Live(bs, h) ==> bs'[h] == bs[h])
  }

  ghost predicate Copied(m: seq<Cell>, m': seq<Cell>, g: nat, h: nat, keep: nat) {
    && UNIT * (g + 1) + keep <= UNIT * |m| && UNIT * (h + 1) + keep <= UNIT * |m'|
    && BytesAt(m', h, keep) == BytesAt(m, g, keep)
  }

  /** realloc's promise: a block large enough that begins with what the old one held. */
  ghost predicate Moved(bs: Blocks, bs': Blocks, m: seq<Cell>, m': seq<Cell>, p: nat, q: nat, n: nat) {
    && IsPayload(bs, p) && IsPayload(bs', q) && bs[HeadOf(p)].size >= MIN_UNITS
    && n + UNIT <= UNIT * bs'[HeadOf(q)].size
    && Copied(m, m', HeadOf(p), HeadOf(q), Min(UNIT * bs[HeadOf(p)].size - UNIT, n))
  }

  /** A kept block's payload reads the same. */
  lemma KeptBytes(bs: Blocks, m: seq<Cell>, m': seq<Cell>, g: nat, len: nat)
    requires Live(bs, g) && Keeps(bs, m, m', g) && UNIT + len <= UNIT * bs[g].size
    ensures UNIT * (g + 1) + len <= UNIT * |m| && BytesAt(m', g, len) == BytesAt(m, g, len)
  {
    forall k | 0 <= k < len ensures m'[g + 1 + k / UNIT] == m[g + 1 + k / UNIT] {
      var j := 1 + k / UNIT;
      assert m'[g + j] == m'[g..End(bs, g)][j] == m[g..End(bs, g)][j] == m[g + j];
    }
  }

  ghost predicate SkipsTwo(bs: Blocks, m: seq<Cell>, m': seq<Cell>, gone: nat, come: nat) {
    forall h: nat {:trigger Keeps(bs, m, m', h)} | Live(bs, h) && h != gone && h != come :: Keeps(bs, m, m', h)
  }

  lemma MovedThrough(bs: Blocks, bs1: Blocks, bs2: Blocks, m: seq<Cell>, m1: seq<Cell>, m2: seq<Cell>, p: nat, q: nat, n: nat)
    requires n > 0 && IsPayload(bs, p) && bs[HeadOf(p)].size >= MIN_UNITS && Served(bs, bs1, q, Want(n))
    requires KeepsLive(bs, m, m1, None) && SkipsTwo(bs1, m1, m2, HeadOf(p), HeadOf(q))
    requires Copied(m1, m2, HeadOf(p), HeadOf(q), Min(UNIT * bs[HeadOf(p)].size - UNIT, n))
    requires SameLive(bs1, bs2, Some(HeadOf(p))) && !Live(bs2, HeadOf(p))
    ensures Moved(bs, bs2, m, m2, p, q, n) && SameButTwo(bs, bs2, HeadOf(p), HeadOf(q))
    ensures KeepsLive(bs, m, m2, Some(HeadOf(p)))
  {
    assert Keeps(bs, m, m1, HeadOf(p));
    KeptBytes(bs, m, m1, HeadOf(p), Min(UNIT * bs[HeadOf(p)].size - UNIT, n));
    forall h: nat | Live(bs, h) && h != HeadOf(p) ensures Keeps(bs, m, m2, h) {
      assert Keeps(bs, m, m1, h) && Keeps(bs1, m1, m2, h);
    }
  }

  class Arena {
    const base: nat
    const mem: array<Cell>
    var head: nat
    var inited: bool
    var brk: nat
    ghost var blocks: Blocks

    ghost predicate Valid()
      reads this, mem
    {
      && mem.Length == UNITS && SentinelOk(base)
      && Tiled(blocks, brk) && brk <= UNITS && Coalesced(blocks)
      && (inited ==> Linked(base, blocks, mem[..], head))
      && (!inited ==> brk == 0 && blocks == map[])
    }

    /** A process's arena before its first allocation; `at` is where the program's sentinel was linked. */
    constructor (at: nat)
      requires SentinelOk(at)
      ensures Valid() && base == at && blocks == map[] && brk == 0 && fresh(mem)
    {
      base := at;
      mem := new Cell[UNITS](i => seq(16, j => 0));
      head, inited, brk, blocks := 0, false, 0, map[];
    }

    // -------------------------------------------------------------------------
    // The list
    // -------------------------------------------------------------------------

    /** The next link of the free block at `prev`, or of the sentinel. */
    function NextAt(prev: nat): nat
      requires mem.Length == UNITS && (prev == base || (ARENA_BASE <= prev < ARENA_MAX))
      reads this, mem
    {
      if prev == base then head else LinkOf(mem[Place(prev)])
    }

    function SizeAt(prev: nat): nat
      requires mem.Length == UNITS && (prev == base || (ARENA_BASE <= prev < ARENA_MAX))
      reads this, mem
    {
      if prev == base then 0 else SizeOf(mem[Place(prev)])
    }

    /** Reading the link of a free block, or of the sentinel, gives the one after it. */
    lemma NextReads(p: Option<nat>)
      requires Valid() && inited && (p.Some? ==> Free(blocks, p.value))
      ensures Link(base, p) == base || ARENA_BASE <= Link(base, p) < ARENA_MAX
      ensures NextAt(Link(base, p)) == Link(base, NextFrom(blocks, After(p)))
      ensures Link(base, p) == base <==> p.None?
      ensures p.Some? ==> Place(Link(base, p)) == p.value && p.value < brk
      ensures SizeAt(Link(base, p)) == if p.None? then 0 else UNIT * blocks[p.value].size
    {
      if p.Some? {
        assert Bounded(blocks, brk, p.value);
        assert Header(base, blocks, mem[..][p.value], p.value);
      }
    }

    /** Walk to the first free block above `g`. */
    method Around(g: nat) returns (prev: nat)
      requires Valid() && inited && Live(blocks, g) && g < UNITS
      ensures prev == Link(base, PrevFrom(blocks, g))
      ensures PrevFrom(blocks, g).Some? ==> PrevFrom(blocks, g).value < g && Free(blocks, PrevFrom(blocks, g).value)
      ensures NextFrom(blocks, After(PrevFrom(blocks, g))) == NextFrom(blocks, g + 1)
    {
      prev := base;
      ghost var p: Option<nat> := None;
      while true
        invariant prev == Link(base, p) && (p.Some? ==> p.value < g && Free(blocks, p.value))
        decreases g - After(p)
      {
        NextReads(p);
        LinkReads(base, blocks, brk, p);
        var cur := NextAt(prev);
        if cur == base || cur > AddrOf(g) {
          break;
        }
        prev := cur;
        p := NextFrom(blocks, After(p));
      }
      StopsAround(blocks, g, p);
    }

    /** insert_free: block `g` joins the list, merged with its free neighbours. */
    method InsertFree(g: nat)
      requires Valid() && inited && Live(blocks, g)
      modifies this`head, this`blocks, mem
      ensures Valid() && blocks == Freed(old(blocks), g)
      ensures KeepsLive(old(blocks), old(mem[..]), mem[..], Some(g))
    {
      ghost var bs, m, h := blocks, mem[..], head;
      assert Bounded(bs, brk, g) && Header(base, bs, m[g], g);
      var prev := Around(g);
      ghost var p := PrevFrom(bs, g);
      NextReads(p);
      LinkReads(base, bs, brk, p);
      var next := NextAt(prev);
      Splice(g, prev, next);
      FreedTiled(bs, brk, g);
      FreedLinked(base, bs, brk, m, mem[..], h, head, g);
      WritesOutside(bs, brk, m, mem[..], Some(g), 0);
      blocks := Freed(blocks, g);
    }

    method SetHeader(at: nat, size: nat, link: nat)
      requires at < mem.Length && size < U64 && link < U64
      modifies mem
      ensures SizeOf(mem[at]) == size && LinkOf(mem[at]) == link
      ensures forall u | 0 <= u < mem.Length && u != at :: mem[u] == old(mem[u])
    {
      HeaderRoundTrip(mem[at], link);
      HeaderRoundTrip(WithLink(mem[at], link), size);
      mem[at] := WithSize(WithLink(mem[at], link), size);
    }

    /** The next link of the free block at `prev`, or of the sentinel, becomes `link`. */
    method SetNext(prev: nat, link: nat)
      requires mem.Length == UNITS && (prev == base || ARENA_BASE <= prev < ARENA_MAX) && link < U64
      modifies this`head, mem
      ensures prev == base ==> head == link && mem[..] == old(mem[..])
      ensures prev != base ==> head == old(head) && LinkOf(mem[Place(prev)]) == link
      ensures prev != base ==> SizeOf(mem[Place(prev)]) == SizeOf(old(mem[Place(prev)]))
      ensures prev != base ==> forall u | 0 <= u < mem.Length && u != Place(prev) :: mem[u] == old(mem[u])
    {
      if prev == base {
        head := link;
      } else {
        HeaderRoundTrip(mem[Place(prev)], link);
        mem[Place(prev)] := WithLink(mem[Place(prev)], link);
      }
    }

    /** The freed block's header as insert_free computes it, and that it fits. */
    lemma Upward(g: nat, next: nat) returns (u: nat)
      requires Valid() && inited && Live(blocks, g) && g < UNITS
      requires next == Link(base, NextFrom(blocks, g + 1))
      ensures next < U64 && u == End(blocks, g) && SizeOf(mem[g]) == UNIT * blocks[g].size < U64 / 4
      ensures next == AddrOf(g) + SizeOf(mem[g]) <==> MergesHigh(blocks, g)
      ensures MergesHigh(blocks, g) ==> g < u < UNITS && next == AddrOf(u) && Place(next) == u
      ensures MergesHigh(blocks, g) ==> LinkOf(mem[u]) < U64 && SizeOf(mem[u]) < U64 / 4
    {
      u := End(blocks, g);
      assert Header(base, blocks, mem[..][g], g) && Bounded(blocks, brk, g);
      HighIsNext(blocks, brk, g);
      LinkReads(base, blocks, brk, Some(g));
      if MergesHigh(blocks, g) {
        assert Header(base, blocks, mem[..][u], u) && Bounded(blocks, brk, u);
        LinkReads(base, blocks, brk, Some(u));
      }
    }

    /** The writes of insert_free, the walk done. */
    method Splice(g: nat, prev: nat, next: nat)
      requires Valid() && inited && Live(blocks, g) && g < UNITS
      requires prev == Link(base, PrevFrom(blocks, g)) && next == Link(base, NextFrom(blocks, g + 1))
      requires PrevFrom(blocks, g).Some? ==> PrevFrom(blocks, g).value < g && Free(blocks, PrevFrom(blocks, g).value)
      modifies this`head, mem
      ensures MergesHigh(blocks, g) ==> End(blocks, g) < UNITS
      ensures FreeWrites(base, blocks, old(mem[..]), mem[..], head, g)
    {
      ghost var u := Upward(g, next);
      ghost var p := PrevFrom(blocks, g);
      NextReads(p);
      assert p.Some? ==> Bounded(blocks, brk, p.value);
      var size, link := SizeOf(mem[g]), next;
      if next == AddrOf(g) + size {
        size := size + SizeOf(mem[Place(next)]);
        link := LinkOf(mem[Place(next)]);
      }
      SetHeader(g, size, link);
      JoinBelow(p, g, prev, size, link);
    }

    /** The lower half of insert_free: `g` joins the block before it, or is linked after it. */
    method JoinBelow(ghost p: Option<nat>, g: nat, prev: nat, size: nat, link: nat)
      requires mem.Length == UNITS && SentinelOk(base) && g < UNITS && prev == Link(base, p)
      requires p.Some? ==> p.value < g && SizeOf(mem[p.value]) <= UNIT * UNITS
      requires size < U64 / 2 && link < U64
      modifies this`head, mem
      ensures p.None? ==> head == AddrOf(g) && mem[..] == old(mem[..])
      ensures p.Some? ==> head == old(head) && forall u | 0 <= u < mem.Length && u != p.value :: mem[u] == old(mem[u])
      ensures p.Some? ==> var old0 := SizeOf(old(mem[p.value])); var joins := AddrOf(p.value) + old0 == AddrOf(g);
        SizeOf(mem[p.value]) == old0 + (if joins then size else 0) && LinkOf(mem[p.value]) == if joins then link else AddrOf(g)
    {
      assert p.Some? ==> Place(prev) == p.value && AddrOf(p.value) < AddrOf(g) < ARENA_MAX;
      var psize := SizeAt(prev);
      if prev + psize == AddrOf(g) {
        SetHeader(Place(prev), psize + size, link);
      } else {
        SetNext(prev, AddrOf(g));
      }
    }

    // -------------------------------------------------------------------------
    // malloc
    // -------------------------------------------------------------------------

    /** The first-fit walk: the block to hand out, or the sentinel, and the link that leads to it. */
    method FindFit(need: nat) returns (prev: nat, cur: nat, ghost p: Option<nat>)
      requires Valid() && inited
      ensures prev == Link(base, p) && (p.Some? ==> Free(blocks, p.value))
      ensures cur == Link(base, NextFrom(blocks, After(p)))
      ensures cur == base ==> NextFrom(blocks, After(p)).None? && NoFit(blocks, need)
      ensures cur != base ==> NextFrom(blocks, After(p)).Some? && FirstFit(blocks, need, NextFrom(blocks, After(p)).value)
    {
      prev, p := base, None;
      while true
        invariant prev == Link(base, p) && (p.Some? ==> Free(blocks, p.value))
        invariant forall h: nat | Free(blocks, h) && h < After(p) :: blocks[h].size < need
        invariant After(p) <= UNITS
        decreases UNITS - After(p)
      {
        NextReads(p);
        LinkReads(base, blocks, brk, p);
        NextFromIs(blocks, After(p));
        cur := NextAt(prev);
        if cur == base {
          forall h: nat | Free(blocks, h) ensures blocks[h].size < need {
            assert Bounded(blocks, brk, h);
          }
          return;
        }
        ghost var g := NextFrom(blocks, After(p)).value;
        assert Header(base, blocks, mem[..][g], g);
        if SizeOf(mem[Place(cur)]) >= UNIT * need {
          return;
        }
        prev, p := cur, Some(g);
      }
    }

    /** The writes of a hand-out: split the block, or unlink all of it. */
    method Carve(need: nat, prev: nat, cur: nat, ghost p: Option<nat>)
      requires Valid() && inited && ARENA_BASE <= cur == AddrOf(Place(cur))
      requires (p.Some? ==> Free(blocks, p.value) && p.value < Place(cur)) && Free(blocks, Place(cur)) && Place(cur) < UNITS
      requires MIN_UNITS <= need <= blocks[Place(cur)].size && End(blocks, Place(cur)) <= UNITS
      requires prev == Link(base, p) && NextFrom(blocks, After(p)) == Some(Place(cur))
      modifies this`head, mem
      ensures TakeWrites(base, blocks, old(mem[..]), mem[..], head, p, Place(cur), need)
    {
      var g := Place(cur);
      NextReads(p);
      NextReads(Some(g));
      LinkReads(base, blocks, brk, Some(g));
      var rest := SizeOf(mem[g]) - UNIT * need;
      var link := LinkOf(mem[g]);
      if rest >= UNIT * MIN_UNITS {
        SetHeader(g, UNIT * need, link);
        SetHeader(g + need, rest, link);
        SetNext(prev, AddrOf(g + need));
      } else {
        SetNext(prev, link);
      }
    }

    /** One scan of malloc: hand out the first block that fits. */
    method Scan(need: nat) returns (p: nat)
      requires Valid() && inited && need >= MIN_UNITS
      modifies this`head, this`blocks, mem
      ensures Valid()
      ensures p == 0 <==> NoFit(old(blocks), need)
      ensures p == 0 ==> blocks == old(blocks) && mem[..] == old(mem[..])
      ensures p != 0 ==> Served(old(blocks), blocks, p, need) && FirstFit(old(blocks), need, HeadOf(p))
      ensures p != 0 ==> blocks == Taken(old(blocks), HeadOf(p), need)
      ensures KeepsLive(old(blocks), old(mem[..]), mem[..], None)
    {
      ghost var bs, m, h := blocks, mem[..], head;
      var prev, cur, at := FindFit(need);
      if cur == base {
        WritesOutside(bs, brk, m, mem[..], None, 0);
        return 0;
      }
      LinkReads(base, bs, brk, at);
      var g := Place(cur);
      assert Bounded(bs, brk, g);
      Carve(need, prev, cur, at);
      TakenTiled(bs, brk, g, need);
      TakenServes(bs, brk, g, need);
      TakenLinked(base, bs, brk, m, mem[..], h, head, at, g, need);
      WritesOutside(bs, brk, m, mem[..], None, g);
      blocks := Taken(blocks, g, need);
      p := cur + UNIT;
      assert HeadOf(p) == g;
    }

    /** morecore: ask the kernel for whole pages (`frames`: whether it can back them) and free them into the list. */
    method MoreCore(need: nat, frames: bool) returns (ok: bool)
      requires Valid() && inited && need >= MIN_UNITS
      modifies this`head, this`brk, this`blocks, mem
      ensures Valid()
      ensures ok <==> frames && old(brk) + Chunk(need) <= UNITS
      ensures !ok ==> blocks == old(blocks) && brk == old(brk) && mem[..] == old(mem[..])
      ensures ok ==> brk == old(brk) + Chunk(need)
      ensures ok ==> blocks == Freed(Grown(old(blocks), old(brk), Chunk(need)), old(brk))
      ensures ok ==> SameLive(old(blocks), blocks, None) && !NoFit(blocks, need)
      ensures KeepsLive(old(blocks), old(mem[..]), mem[..], None)
    {
      ghost var bs, m := blocks, mem[..];
      var chunk := Chunk(need);
      if !frames || brk + chunk > UNITS {
        WritesOutside(bs, brk, m, mem[..], None, 0);
        return false;
      }
      var at := brk;
      Extend(chunk);
      ghost var bs1, m1 := blocks, mem[..];
      InsertFree(at);
      GrownFits(bs, at, chunk, need);
      FreedLive(bs1, brk, at);
      forall h: nat | Live(bs, h) ensures Keeps(bs, m, mem[..], h) {
        assert Keeps(bs, m, m1, h) && Keeps(bs1, m1, mem[..], h);
      }
      ok := true;
    }

    /** The chunk's header, as a block not yet in the list. */
    method Extend(chunk: nat)
      requires Valid() && inited && MIN_UNITS <= chunk && brk + chunk <= UNITS
      modifies this`brk, this`blocks, mem
      ensures Valid() && inited && brk == old(brk) + chunk && old(brk) !in old(blocks)
      ensures blocks == Grown(old(blocks), old(brk), chunk)
      ensures KeepsLive(old(blocks), old(mem[..]), mem[..], None)
    {
      ghost var bs, m := blocks, mem[..];
      GrownTiled(bs, brk, chunk);
      SetHeader(brk, UNIT * chunk, 0);
      GrownLinked(base, bs, brk, chunk, m, mem[..], head);
      forall h: nat | Live(bs, h) ensures Keeps(bs, m, mem[..], h) {
        assert Bounded(bs, brk, h);
      }
      blocks := Grown(blocks, brk, chunk);
      brk := brk + chunk;
    }

    /** malloc: `frames` is whether the kernel can back a new chunk. */
    method Alloc(n: nat, frames: bool) returns (p: nat)
      requires Valid() && n < U64
      modifies this, mem
      ensures Valid()
      ensures p == 0 <==> Refused(old(blocks), old(brk), n, frames)
      ensures p == 0 ==> blocks == old(blocks) && brk == old(brk) && mem[..] == old(mem[..])
      ensures p != 0 ==> Served(old(blocks), blocks, p, Want(n)) && inited
      ensures p != 0 && !NoFit(old(blocks), Want(n)) ==>
        FirstFit(old(blocks), Want(n), HeadOf(p)) && blocks == Taken(old(blocks), HeadOf(p), Want(n)) && brk == old(brk)
      ensures KeepsLive(old(blocks), old(mem[..]), mem[..], None)
    {
      ghost var bs, m := blocks, mem[..];
      if n > MAX_ALLOC {
        WritesOutside(bs, brk, m, mem[..], None, 0);
        return 0;
      }
      var need := Want(n);
      if !inited {
        head, inited := base, true;
        NextUnique(blocks, 0, None);
      }
      p := Scan(need);
      if p == 0 {
        var ok := MoreCore(need, frames);
        if ok {
          ghost var bs1, m1 := blocks, mem[..];
          p := Scan(need);
          KeepsAcross(bs, bs1, m, m1, mem[..], None);
        }
      }
    }

    // -------------------------------------------------------------------------
    // payloads, free, calloc, realloc
    // -------------------------------------------------------------------------

    /** The program, or memcpy for it, writes `data` at the head of a payload. */
    method Store(g: nat, data: seq<byte>)
      requires Valid() && Live(blocks, g) && UNIT + |data| <= UNIT * blocks[g].size
      modifies mem
      ensures Valid()
      ensures UNIT * (g + 1) + |data| <= UNIT * UNITS && BytesAt(mem[..], g, |data|) == data
      ensures KeepsLive(blocks, old(mem[..]), mem[..], Some(g)) && mem[g] == old(mem[g])
    {
      ghost var m := mem[..];
      assert Bounded(blocks, brk, g);
      Spread(g, data);
      PayloadOnly(base, blocks, brk, m, mem[..], head, inited, g);
    }

    /** The copy loop, byte by byte. */
    method Spread(g: nat, data: seq<byte>)
      requires mem.Length == UNITS && UNIT * (g + 1) + |data| <= UNIT * UNITS
      modifies mem
      ensures BytesAt(mem[..], g, |data|) == data
      ensures forall u | 0 <= u < UNITS && mem[u] != old(mem[u]) :: g < u < g + 1 + (|data| + UNIT - 1) / UNIT
    {
      var k := 0;
      while k < |data|
        invariant 0 <= k <= |data|
        invariant forall j | 0 <= j < k :: mem[g + 1 + j / UNIT][j % UNIT] == data[j]
        invariant forall u | 0 <= u < UNITS && mem[u] != old(mem[u]) :: g < u < g + 1 + (|data| + UNIT - 1) / UNIT
      {
        var u := g + 1 + k / UNIT;
        mem[u] := mem[u][k % UNIT := data[k]];
        k := k + 1;
      }
    }

    /** valid_block: the pointer's alignment and range, then the header's size. */
    predicate ValidBlock(p: nat)
      requires mem.Length == UNITS
      reads this, mem
    {
      && p != 0 && p % UNIT == 0 && p >= ARENA_BASE + UNIT && p <= ARENA_MAX
      && var size := SizeOf(mem[HeadOf(p)]);
         (size >= UNIT * MIN_UNITS && size % UNIT == 0 && p - UNIT + size <= ARENA_MAX)
    }

    lemma PayloadIsValid(p: nat)
      requires Valid() && IsPayload(blocks, p)
      ensures ValidBlock(p) && SizeOf(mem[HeadOf(p)]) == UNIT * blocks[HeadOf(p)].size && inited
    {
      assert Bounded(blocks, brk, HeadOf(p)) && Header(base, blocks, mem[..][HeadOf(p)], HeadOf(p));
    }

    /** free: a bogus pointer is ignored, a live one's block goes back to the list. */
    method Release(p: nat)
      requires Valid() && (Bogus(p) || IsPayload(blocks, p))
      modifies this`head, this`blocks, mem
      ensures Valid()
      ensures Bogus(p) ==> blocks == old(blocks) && mem[..] == old(mem[..])
      ensures !Bogus(p) ==> blocks == Freed(old(blocks), HeadOf(p))
      ensures !Bogus(p) ==> SameLive(old(blocks), blocks, Some(HeadOf(p))) && !Live(blocks, HeadOf(p))
      ensures !Bogus(p) ==> KeepsLive(old(blocks), old(mem[..]), mem[..], Some(HeadOf(p)))
    {
      if !ValidBlock(p) || !inited {
        if !Bogus(p) {
          PayloadIsValid(p);
        }
        return;
      }
      PayloadIsValid(p);
      FreedLive(blocks, brk, HeadOf(p));
      InsertFree(HeadOf(p));
    }

    /** calloc: nothing on a 64-bit overflow, else an allocation of zeroed bytes. */
    method AllocZeroed(n: nat, size: nat, frames: bool) returns (p: nat)
      requires Valid() && n < U64 && size < U64
      modifies this, mem
      ensures Valid()
      ensures p == 0 <==> Refused(old(blocks), old(brk), n * size, frames)
      ensures p == 0 ==> blocks == old(blocks) && brk == old(brk) && mem[..] == old(mem[..])
      ensures p != 0 ==> Served(old(blocks), blocks, p, Want(n * size))
      ensures p != 0 ==> UNIT * (HeadOf(p) + 1) + n * size <= UNIT * UNITS
                         && BytesAt(mem[..], HeadOf(p), n * size) == seq(n * size, i => 0 as byte)
      ensures KeepsLive(old(blocks), old(mem[..]), mem[..], None)
    {
      ghost var bs, m := blocks, mem[..];
      var total := n * size;
      if total >= U64 {
        WritesOutside(bs, brk, m, mem[..], None, 0);
        return 0;
      }
      p := Alloc(total, frames);
      if p != 0 {
        ghost var m1 := mem[..];
        Store(HeadOf(p), seq(total, i => 0 as byte));
        forall h: nat | Live(bs, h) ensures Keeps(bs, m, mem[..], h) {
          assert Keeps(bs, m, m1, h) && Keeps(blocks, m1, mem[..], h);
        }
      }
    }

    /** realloc: allocate, copy what both hold, free. */
    method Resize(p: nat, n: nat, frames: bool) returns (q: nat)
      requires Valid() && n < U64 && (Bogus(p) || IsPayload(blocks, p))
      modifies this, mem
      ensures Valid()
      ensures p == 0 && q != 0 ==> Served(old(blocks), blocks, q, Want(n))
      ensures p != 0 && Bogus(p) ==> q == 0
      ensures p != 0 && n == 0 && !Bogus(p) ==> q == 0 && blocks == Freed(old(blocks), HeadOf(p))
      ensures q == 0 && (Bogus(p) || n > 0) ==> blocks == old(blocks) && mem[..] == old(mem[..])
      ensures !Bogus(p) && q != 0 ==> Moved(old(blocks), blocks, old(mem[..]), mem[..], p, q, n)
      ensures !Bogus(p) && q != 0 ==> SameButTwo(old(blocks), blocks, HeadOf(p), HeadOf(q))
      ensures KeepsLive(old(blocks), old(mem[..]), mem[..], if Bogus(p) then None else Some(HeadOf(p)))
    {
      ghost var bs, m := blocks, mem[..];
      if p == 0 {
        q := Alloc(n, frames);
        return;
      }
      if n == 0 {
        Release(p);
        if Bogus(p) {
          WritesOutside(bs, brk, m, mem[..], None, 0);
        }
        return 0;
      }
      if !ValidBlock(p) {
        if !Bogus(p) {
          PayloadIsValid(p);
        }
        WritesOutside(bs, brk, m, mem[..], None, 0);
        return 0;
      }
      q := Move(p, n, frames);
    }

    /** realloc of a live block to n > 0 bytes. */
    method Move(p: nat, n: nat, frames: bool) returns (q: nat)
      requires Valid() && 0 < n < U64 && IsPayload(blocks, p)
      modifies this, mem
      ensures Valid()
      ensures q == 0 <==> Refused(old(blocks), old(brk), n, frames)
      ensures q == 0 ==> blocks == old(blocks) && mem[..] == old(mem[..])
      ensures q != 0 ==> Moved(old(blocks), blocks, old(mem[..]), mem[..], p, q, n)
      ensures q != 0 ==> SameButTwo(old(blocks), blocks, HeadOf(p), HeadOf(q))
      ensures KeepsLive(old(blocks), old(mem[..]), mem[..], Some(HeadOf(p)))
    {
      ghost var bs, m := blocks, mem[..];
      PayloadIsValid(p);
      var oldSize := SizeOf(mem[HeadOf(p)]) - UNIT;
      assert Bounded(bs, brk, HeadOf(p));
      q := Alloc(n, frames);
      if q != 0 {
        ghost var bs1, m1 := blocks, mem[..];
        Settle(p, q, if oldSize < n then oldSize else n);
        MovedThrough(bs, bs1, blocks, m, m1, mem[..], p, q, n);
      }
    }

    /** The copy and the free at the end of realloc. */
    method Settle(p: nat, q: nat, keep: nat)
      requires Valid() && IsPayload(blocks, p) && IsPayload(blocks, q) && p != q
      requires UNIT + keep <= UNIT * blocks[HeadOf(p)].size && UNIT + keep <= UNIT * blocks[HeadOf(q)].size
      modifies this, mem
      ensures Valid()
      ensures Copied(old(mem[..]), mem[..], HeadOf(p), HeadOf(q), keep)
      ensures SameLive(old(blocks), blocks, Some(HeadOf(p))) && !Live(blocks, HeadOf(p))
      ensures SkipsTwo(old(blocks), old(mem[..]), mem[..], HeadOf(p), HeadOf(q))
    {
      ghost var bs, m := blocks, mem[..];
      PayloadIsValid(p);
      Carry(p, q, keep);
      ghost var m1 := mem[..];
      Release(p);
      assert Keeps(bs, m1, mem[..], HeadOf(q));
      KeptBytes(bs, m1, mem[..], HeadOf(q), keep);
      forall h: nat | Live(bs, h) && h != HeadOf(p) && h != HeadOf(q) ensures Keeps(bs, m, mem[..], h) {
        assert Keeps(bs, m, m1, h) && Keeps(bs, m1, mem[..], h);
      }
    }

    /** copy_nonoverlapping between two live payloads. */
    method Carry(p: nat, q: nat, keep: nat)
      requires Valid() && IsPayload(blocks, p) && IsPayload(blocks, q) && p != q
      requires UNIT + keep <= UNIT * blocks[HeadOf(p)].size && UNIT + keep <= UNIT * blocks[HeadOf(q)].size
      modifies mem
      ensures Valid()
      ensures UNIT * (HeadOf(p) + 1) + keep <= UNIT * UNITS && UNIT * (HeadOf(q) + 1) + keep <= UNIT * UNITS
      ensures BytesAt(mem[..], HeadOf(q), keep) == BytesAt(old(mem[..]), HeadOf(p), keep)
      ensures KeepsLive(blocks, old(mem[..]), mem[..], Some(HeadOf(q)))
    {
      assert Bounded(blocks, brk, HeadOf(p)) && Bounded(blocks, brk, HeadOf(q));
      Store(HeadOf(q), BytesAt(mem[..], HeadOf(p), keep));
    }
  }
}
