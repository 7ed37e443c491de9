/** The kernel's allocator, over the bytes of its arena. */
module KernelHeap {
  import opened Bytes
  import opened Frames
  import opened Words
  import opened FreeBlocks
  import opened HeapSpec

  /** 64 MiB. */
  const SIZE: nat := LIMIT

  /** Every live block but `but` is the same, and so are its bytes. */
  ghost predicate LiveKept(bs: Blocks, pay: Payloads, m: seq<byte>, bs': Blocks, pay': Payloads, m': seq<byte>, but: nat) {
    forall x: nat | Live(bs, x) && x != but && x in pay ::
      Live(bs', x) && bs'[x] == bs[x] && x in pay' && pay'[x] == pay[x] && SameBytes(m, m', x, End(bs, x))
  }

  lemma NothingMoved(bs: Blocks, pay: Payloads, m: seq<byte>)
    requires Tiled(bs, SIZE) && |m| == SIZE
    ensures LiveKept(bs, pay, m, bs, pay, m, SIZE)
  {
    forall x: nat | Live(bs, x) ensures SameBytes(m, m, x, End(bs, x)) {
      assert Bounded(bs, SIZE, x);
    }
  }

  /** Only bytes in [lo, hi) differ. */
  ghost predicate Only(m: seq<byte>, m': seq<byte>, lo: nat, hi: nat) {
    |m'| == |m| && forall i | 0 <= i < |m| && !(lo <= i < hi) :: m'[i] == m[i]
  }

  /** The node of what is left behind a payload that ends at `end`, if that is worth keeping. */
  ghost predicate TailWritten(base: nat, bs: Blocks, m: seq<byte>, g: nat, end: nat)
    requires g in bs && g < end <= End(bs, g) <= |m|
  {
    End(bs, g) - end >= MIN_BLOCK ==>
      Word(m, end) == Link(base, NextFrom(bs, g + 1)) && Word(m, end + 8) == End(bs, g) - end
  }

  /** The tail's node, the link that led to the block, then the header: together what alloc is to write. */
  lemma Composed(base: nat, bs: Blocks, m: seq<byte>, m1: seq<byte>, m2: seq<byte>, m3: seq<byte>, head: nat, q: Option<nat>,
                 g: nat, at: nat, len: nat)
    requires |m| == SIZE && Chosen(bs, SIZE, q, g, at, len)
    requires Only(m, m1, at + len, End(bs, g)) && TailWritten(base, bs, m1, g, at + len)
    requires q.None? ==> m2 == m1 && head == Onward(base, bs, g, at + len)
    requires q.Some? ==> Only(m1, m2, q.value, q.value + 8) && Word(m2, q.value) == Onward(base, bs, g, at + len)
    requires q.Some? ==> head == Link(base, NextFrom(bs, 0))
    requires Only(m2, m3, at - HDR, at) && Word(m3, at - 32) == base + g && Word(m3, at - 24) == Cut(bs, g, at + len)
    requires Word(m3, at - 16) == len && Word(m3, at - 8) == MAGIC
    ensures AllocWrites(base, bs, SIZE, m, m3, head, q, g, at, len)
  {
    hide Word, NextFrom, Tiled, Cut, Onward;
    if End(bs, g) - (at + len) >= MIN_BLOCK {
      WordSame(m1, m3, at + len);
      WordSame(m1, m3, at + len + 8);
    }
    if q.Some? {
      WordSame(m2, m3, q.value);
    }
  }

  lemma AllocKeeps(base: nat, bs: Blocks, pay: Payloads, m: seq<byte>, m': seq<byte>, head: nat, head': nat,
                   q: Option<nat>, g: nat, at: nat, len: nat)
    requires |m| == SIZE == |m'| && Chosen(bs, SIZE, q, g, at, len) && Recorded(base, bs, pay, m, head)
    requires AllocWrites(base, bs, SIZE, m, m', head', q, g, at, len)
    ensures LiveKept(bs, pay, m, Taken(bs, g, Cut(bs, g, at + len)), Handed(pay, g, at, len), m', SIZE)
  {
    hide Word;
    CutSplits(bs, g, at + len);
    if Splits(bs, g, Cut(bs, g, at + len)) {
      TailIsNew(bs, SIZE, g, Cut(bs, g, at + len));
    }
    forall x: nat | Live(bs, x) ensures SameBytes(m, m', x, End(bs, x)) {
      assert Bounded(bs, SIZE, x) && Apart(bs, x, g) && Apart(bs, g, x);
      if q.Some? {
        assert BlockOk(base, bs, pay, m, q.value) && Apart(bs, x, q.value) && Apart(bs, q.value, x);
      }
    }
  }

  /** The payloads are those of live blocks, one more than before. */
  lemma AllocCounts(bs: Blocks, pay: Payloads, g: nat, cut: nat, at: nat, len: nat)
    requires Tiled(bs, SIZE) && Free(bs, g) && MIN_SIZE <= cut <= bs[g].size && forall x | x in pay :: Live(bs, x)
    ensures forall x | x in Handed(pay, g, at, len) :: Live(Taken(bs, g, cut), x)
    ensures Total(Handed(pay, g, at, len)) == Total(pay) + len && |Handed(pay, g, at, len)| == |pay| + 1
  {
    hide Total, Tiled;
    if Splits(bs, g, cut) {
      TailIsNew(bs, SIZE, g, cut);
    }
    TotalMore(pay, g, Payload(at, len));
    assert Handed(pay, g, at, len).Keys == pay.Keys + {g};
    assert |Handed(pay, g, at, len).Keys| == |pay.Keys| + 1;
  }

  lemma FreeKeeps(base: nat, bs: Blocks, pay: Payloads, m: seq<byte>, m': seq<byte>, head': nat, g: nat)
    requires |m| == SIZE == |m'| && Returning(bs, SIZE, g) && FreeWrites(base, bs, SIZE, m, m', head', g)
    ensures LiveKept(bs, pay, m, GivenBack(bs, g), pay - {g}, m', g)
  {
    hide Word;
    PrevFromIs(bs, g);
    forall x: nat | Live(bs, x) && x != g ensures Live(GivenBack(bs, g), x) && GivenBack(bs, g)[x] == bs[x] && SameBytes(m, m', x, End(bs, x)) {
      assert Bounded(bs, SIZE, x) && Apart(bs, x, g) && Apart(bs, g, x);
      if PrevFrom(bs, g).Some? {
        assert Apart(bs, x, PrevFrom(bs, g).value) && Apart(bs, PrevFrom(bs, g).value, x);
      }
    }
  }

  /** The block's node is in the list, and merged into the one below where that ends here. */
  ghost predicate LinkedIn(base: nat, bs: Blocks, m: seq<byte>, m': seq<byte>, head': nat, g: nat)
    requires Returning(bs, SIZE, g) && |m| == |m'| == SIZE
  {
    var p := PrevFrom(bs, g);
    && Word(m', g) == Link(base, NextFrom(bs, g + 1)) && Word(m', g + 8) == bs[g].size
    && (p.None? ==> head' == base + g)
    && (p.Some? ==>
          && head' == Link(base, NextFrom(bs, 0))
          && Word(m', p.value) == (if MergesLow(bs, g) then Link(base, NextFrom(bs, g + 1)) else base + g)
          && Word(m', p.value + 8) == bs[p.value].size + if MergesLow(bs, g) then bs[g].size else 0)
    && (forall i | 0 <= i < |m| && !(g <= i < g + NODE) && !(p.Some? && p.value <= i < p.value + NODE) :: m'[i] == m[i])
  }

  /** Then the free block above is taken in. */
  ghost predicate MergedUp(base: nat, bs: Blocks, m: seq<byte>, m1: seq<byte>, m': seq<byte>, g: nat)
    requires Returning(bs, SIZE, g) && |m| == |m1| == |m'| == SIZE
  {
    var u := End(bs, g);
    && Only(m1, m', g, g + NODE)
    && Word(m', g) == (if MergesHigh(bs, g) then Word(m, u) else Link(base, NextFrom(bs, g + 1)))
    && Word(m', g + 8) == bs[g].size + if MergesHigh(bs, g) then bs[u].size else 0
  }

  lemma LinkFits(base: nat, bs: Blocks, x: nat)
    requires Tiled(bs, SIZE) && base + SIZE < U64
    ensures Link(base, NextFrom(bs, x)) < U64
  {
    NextFromIs(bs, x);
  }

  lemma FreeComposed(base: nat, bs: Blocks, m: seq<byte>, m1: seq<byte>, m': seq<byte>, head: nat, g: nat)
    requires |m| == |m1| == |m'| == SIZE && Returning(bs, SIZE, g)
    requires LinkedIn(base, bs, m, m1, head, g) && MergedUp(base, bs, m, m1, m', g)
    ensures FreeWrites(base, bs, SIZE, m, m', head, g)
  {
    hide Word, NextFrom, PrevFrom, Tiled;
    if PrevFrom(bs, g).Some? {
      WordSame(m1, m', PrevFrom(bs, g).value);
      WordSame(m1, m', PrevFrom(bs, g).value + 8);
    }
  }

  /** The payloads left are those of live blocks, one fewer. */
  lemma FreeCounts(bs: Blocks, pay: Payloads, g: nat)
    requires Tiled(bs, SIZE) && Live(bs, g) && g in pay && forall x | x in pay :: Live(bs, x)
    ensures forall x | x in pay - {g} :: Live(GivenBack(bs, g), x)
    ensures Total(pay) == pay[g].len + Total(pay - {g}) && |pay| == |pay - {g}| + 1
  {
    hide Total, Tiled;
    PrevFromIs(bs, g);
    TotalLess(pay, g);
    assert (pay - {g}).Keys == pay.Keys - {g};
    assert |(pay - {g}).Keys| == |pay.Keys| - 1;
  }

  lemma FewerKept(bs: Blocks, pay: Payloads, m: seq<byte>, bs': Blocks, pay': Payloads, m': seq<byte>, g: nat)
    requires Tiled(bs, SIZE) && LiveKept(bs, pay, m, bs', pay', m', SIZE)
    ensures LiveKept(bs, pay, m, bs', pay', m', g)
  {
    forall x: nat | Live(bs, x) ensures x != SIZE {
      assert Bounded(bs, SIZE, x);
    }
  }

  lemma Among(a: set<nat>, b: set<nat>)
    requires a <= b
    ensures |a| <= |b|
  {
    assert b == a + (b - a);
  }

  class Heap {
    const base: nat
    const mem: array<byte>
    var head: nat
    var inUse: nat
    var allocs: nat
    var frees: nat
    ghost var blocks: Blocks
    ghost var pay: Payloads

    ghost predicate Valid()
      reads this, mem
    {
      && mem.Length == SIZE && 0 < base && base + SIZE < U64
      && Tiled(blocks, SIZE) && Recorded(base, blocks, pay, mem[..], head)
      && (forall x | x in pay :: Live(blocks, x))
      && inUse == Total(pay) && allocs == frees + |pay|
    }

    /** The arena as init leaves it, at the address its frames are mapped at. */
    constructor (at: nat)
      requires 0 < at && at + SIZE < U64
      ensures Valid() && base == at && blocks == map[0 := Block(SIZE, true)] && pay == map[] && fresh(mem)
    {
      base, mem := at, new byte[SIZE];
      head, inUse, allocs, frees := at, 0, 0, 0;
      blocks, pay := map[0 := Block(SIZE, true)], map[];
      new;
      PutNode(0, 0, SIZE);
      NextFromIs(blocks, 0);
      NextFromIs(blocks, 1);
      assert BlockOk(base, blocks, pay, mem[..], 0);
    }

    // -------------------------------------------------------------------------
    // Words of memory
    // -------------------------------------------------------------------------

    function WordAt(at: nat): nat
      requires at + 8 <= mem.Length
      reads mem
    {
      Word(mem[..], at)
    }

    method PutWord(at: nat, v: nat)
      requires at + 8 <= mem.Length && v < U64
      modifies mem
      ensures Word(mem[..], at) == v && Only(old(mem[..]), mem[..], at, at + 8)
    {
      var b := Le(v, 8);
      for k := 0 to 8
        invariant forall j | 0 <= j < k :: mem[at + j] == b[j]
        invariant forall i | 0 <= i < mem.Length && !(at <= i < at + 8) :: mem[i] == old(mem[i])
      {
        mem[at + k] := b[k];
      }
      assert mem[..][at..at + 8] == b;
      WordFits(v);
      LeRoundTrip(v, 8);
    }

    /** A free block's node: the next link and the size. */
    method PutNode(at: nat, next: nat, size: nat)
      requires at + NODE <= mem.Length && next < U64 && size < U64
      modifies mem
      ensures Word(mem[..], at) == next && Word(mem[..], at + 8) == size
      ensures Only(old(mem[..]), mem[..], at, at + NODE)
    {
      hide Word;
      PutWord(at, next);
      ghost var m := mem[..];
      PutWord(at + 8, size);
      WordSame(m, mem[..], at);
    }

    /** A live block's header: its place, its size, what was asked for, the mark. */
    method PutHeader(at: nat, block: nat, size: nat, len: nat)
      requires at + HDR <= mem.Length && block < U64 && size < U64 && len < U64
      modifies mem
      ensures Word(mem[..], at) == block && Word(mem[..], at + 8) == size
      ensures Word(mem[..], at + 16) == len && Word(mem[..], at + 24) == MAGIC
      ensures Only(old(mem[..]), mem[..], at, at + HDR)
    {
      hide Word;
      PutNode(at, block, size);
      ghost var m := mem[..];
      PutNode(at + 16, len, MAGIC);
      WordSame(m, mem[..], at);
      WordSame(m, mem[..], at + 8);
    }

    /** The free block after `q` is where the link before it says, inside the arena, and its node can be read. */
    lemma ListReads(q: Option<nat>) returns (r: Option<nat>)
      requires Valid()
      ensures r == NextFrom(blocks, After(q)) && Link(base, r) < U64 && (r.None? <==> Link(base, r) == 0)
      ensures r.Some? ==> After(q) <= r.value && Free(blocks, r.value) && End(blocks, r.value) <= SIZE
      ensures r.Some? ==> blocks[r.value].size >= NODE && WordAt(r.value + 8) == blocks[r.value].size
      ensures r.Some? ==> WordAt(r.value) == Link(base, NextFrom(blocks, After(r)))
    {
      r := NextFrom(blocks, After(q));
      NextFromIs(blocks, After(q));
      if r.Some? {
        assert Bounded(blocks, SIZE, r.value) && BlockOk(base, blocks, pay, mem[..], r.value);
      }
    }

    // -------------------------------------------------------------------------
    // alloc
    // -------------------------------------------------------------------------

    /** alloc's walk, to the first block large enough or the end of the list. */
    method Search(need: nat) returns (prev: nat, cur: nat, ghost q: Option<nat>)
      requires Valid()
      ensures prev == Link(base, q) && cur == Link(base, NextFrom(blocks, After(q)))
      ensures q.Some? ==> Free(blocks, q.value)
      ensures cur == 0 ==> NoFit(blocks, need)
      ensures cur != 0 ==> base <= cur && NextFrom(blocks, After(q)) == Some(cur - base) && FirstFit(blocks, need, cur - base)
    {
      hide Word, NextFrom;
      q := None;
      prev, cur := 0, head;
      ghost var r := ListReads(None);
      while cur != 0 && WordAt(cur - base + 8) < need
        invariant r == NextFrom(blocks, After(q)) && prev == Link(base, q) && cur == Link(base, r)
        invariant r.Some? ==> Free(blocks, r.value) && r.value >= After(q) && End(blocks, r.value) <= SIZE && blocks[r.value].size >= NODE
        invariant r.Some? ==> WordAt(r.value + 8) == blocks[r.value].size
        invariant q.Some? ==> Free(blocks, q.value)
        invariant forall h: nat | Free(blocks, h) && h < After(q) :: blocks[h].size < need
        decreases SIZE - After(q)
      {
        ghost var _ := ListReads(q);
        NextFromIs(blocks, After(q));
        assert base <= cur < base + SIZE;
        prev, cur := cur, WordAt(cur - base);
        q := r;
        r := ListReads(q);
      }
      NextFromIs(blocks, After(q));
      forall h: nat | Free(blocks, h) && cur == 0 ensures blocks[h].size < need {
        assert Bounded(blocks, SIZE, h);
      }
    }

    /** First fit: null for no bytes, too many, or no block that could hold them wherever the alignment falls. */
    method Alloc(n: nat, align: nat) returns (p: nat, ghost g: nat)
      requires Valid() && align > 0
      modifies this, mem
      ensures Valid()
      ensures p == 0 <==> n == 0 || n > MAX_ALLOC || NoFit(old(blocks), Need(n, align))
      ensures p == 0 ==> blocks == old(blocks) && pay == old(pay) && mem[..] == old(mem[..]) && inUse == old(inUse)
      ensures p != 0 ==> FirstFit(old(blocks), Need(n, align), g) && p % align == 0
      ensures p != 0 ==> base + g + HDR <= p < base + g + HDR + align && p - base + n <= End(old(blocks), g)
      ensures p != 0 ==> blocks == Taken(old(blocks), g, Cut(old(blocks), g, p - base + n))
      ensures p != 0 ==> pay == Handed(old(pay), g, p - base, n) && inUse == old(inUse) + n
      ensures LiveKept(old(blocks), old(pay), old(mem[..]), blocks, pay, mem[..], SIZE)
    {
      hide Word, NextFrom, Recorded, LiveKept, Tiled, Taken, Handed, Total;
      p, g := 0, 0;
      if n == 0 || n > MAX_ALLOC {
        NothingMoved(blocks, pay, mem[..]);
        return;
      }
      var prev, cur, q := Search(n + HDR + align - 1);
      if cur == 0 {
        NothingMoved(blocks, pay, mem[..]);
        return;
      }
      g := cur - base;
      p := Hand(prev, cur, n, align, q);
    }

    /** The payload found for `n` bytes in block `g`. */
    lemma Choice(n: nat, align: nat, q: Option<nat>, g: nat) returns (at: nat)
      requires Valid() && n > 0 && align > 0 && NextFrom(blocks, After(q)) == Some(g)
      requires q.Some? ==> Free(blocks, q.value)
      requires Free(blocks, g) && blocks[g].size >= Need(n, align)
      ensures at == AlignUp(base + g + HDR, align) - base && at < g + HDR + align
      ensures Chosen(blocks, SIZE, q, g, at, n)
    {
      hide Word;
      at := AlignUp(base + g + HDR, align) - base;
      NextFromIs(blocks, After(q));
      assert Bounded(blocks, SIZE, g);
      if q.Some? {
        assert BlockOk(base, blocks, pay, mem[..], q.value) && Apart(blocks, q.value, g);
      }
    }

    /** Take the payload out of block `g`, the free block after `q`. */
    method Hand(prev: nat, cur: nat, n: nat, align: nat, ghost q: Option<nat>) returns (p: nat)
      requires Valid() && n > 0 && align > 0
      requires q.Some? ==> Free(blocks, q.value)
      requires cur >= base && prev == Link(base, q) && NextFrom(blocks, After(q)) == Some(cur - base)
      requires Free(blocks, cur - base) && blocks[cur - base].size >= Need(n, align)
      modifies this, mem
      ensures Valid() && p % align == 0 && cur + HDR <= p < cur + HDR + align
      ensures p - base + n <= End(old(blocks), cur - base)
      ensures blocks == Taken(old(blocks), cur - base, Cut(old(blocks), cur - base, p - base + n))
      ensures pay == Handed(old(pay), cur - base, p - base, n) && inUse == old(inUse) + n
      ensures LiveKept(old(blocks), old(pay), old(mem[..]), blocks, pay, mem[..], SIZE)
    {
      hide Word, NextFrom, AlignUp, Recorded, AllocWrites, LiveKept, Tiled, Taken, Handed, Total;
      ghost var bs, m, h, g := blocks, mem[..], head, cur - base;
      ghost var at := Choice(n, align, q, g);
      p := AlignUp(cur + HDR, align);
      Carve(prev, cur, p, n, q);
      HandedRecorded(base, bs, pay, SIZE, m, mem[..], h, head, q, g, at, n);
      AllocKeeps(base, bs, pay, m, mem[..], h, head, q, g, at, n);
      TakenLays(bs, SIZE, g, Cut(bs, g, at + n));
      AllocCounts(bs, pay, g, Cut(bs, g, at + n), at, n);
      blocks, pay := Taken(bs, g, Cut(bs, g, at + n)), Handed(pay, g, at, n);
      inUse, allocs := inUse + n, allocs + 1;
    }

    /** Keep what is left behind the payload as a block, if it is worth keeping. */
    method CutTail(cur: nat, end: nat) returns (blockSize: nat, newHead: nat)
      requires Valid() && cur >= base && Free(blocks, cur - base) && cur < end <= base + End(blocks, cur - base)
      modifies mem
      ensures blockSize == Cut(blocks, cur - base, end - base) && newHead == Onward(base, blocks, cur - base, end - base)
      ensures newHead < U64 && blockSize < U64 && End(blocks, cur - base) <= SIZE
      ensures TailWritten(base, blocks, mem[..], cur - base, end - base)
      ensures Only(old(mem[..]), mem[..], end - base, End(blocks, cur - base))
    {
      hide Word, NextFrom;
      ghost var g := cur - base;
      ghost var _ := ListReads(Some(g));
      assert Bounded(blocks, SIZE, g) && BlockOk(base, blocks, pay, mem[..], g);
      CutSplits(blocks, g, end - base);
      var size, next := WordAt(cur - base + 8), WordAt(cur - base);
      var remainder := if cur + size > end then cur + size - end else 0;
      blockSize, newHead := size, next;
      if remainder >= MIN_BLOCK {
        blockSize, newHead := end - cur, end;
        PutNode(end - base, next, remainder);
      }
    }

    /** alloc's writes: the tail's node, the link that led to the block, the header. */
    method Carve(prev: nat, cur: nat, p: nat, n: nat, ghost q: Option<nat>)
      requires Valid() && cur >= base && p >= base && Chosen(blocks, SIZE, q, cur - base, p - base, n)
      requires prev == Link(base, q)
      modifies this`head, mem
      ensures AllocWrites(base, blocks, SIZE, old(mem[..]), mem[..], head, q, cur - base, p - base, n)
    {
      hide Word, NextFrom, Tiled, Cut, Onward, TailWritten;
      ghost var m := mem[..];
      var blockSize, newHead := CutTail(cur, p + n);
      ghost var m1 := mem[..];
      if prev == 0 {
        head := newHead;
      } else {
        PutWord(prev - base, newHead);
      }
      ghost var m2 := mem[..];
      PutHeader(p - base - HDR, cur, blockSize, n);
      Composed(base, blocks, m, m1, m2, mem[..], head, q, cur - base, p - base, n);
    }

    // -------------------------------------------------------------------------
    // free
    // -------------------------------------------------------------------------

    /** The walk over the whole list before and after each free: only its bound on the length can fail. */
    method ValidateWalk() returns (ok: bool)
      requires Valid()
      ensures ok <==> FreeCount(blocks) <= MAX_NODES
    {
      hide Word, NextFrom;
      ghost var q: Option<nat>, seen: set<nat> := None, {};
      var prev, cur, n := 0, head, 0;
      ghost var r := ListReads(None);
      while cur != 0
        invariant r == NextFrom(blocks, After(q)) && prev == Link(base, q) && cur == Link(base, r)
        invariant q.Some? ==> Free(blocks, q.value) && q.value + NODE <= SIZE && WordAt(q.value + 8) == blocks[q.value].size
        invariant seen == set x | x in blocks && Free(blocks, x) && x < After(q)
        invariant |seen| == n <= MAX_NODES
        decreases SIZE - After(q)
      {
        ghost var _ := ListReads(q);
        NextFromIs(blocks, After(q));
        var size, next := WordAt(cur - base + 8), WordAt(cur - base);
        assert base <= cur < base + SIZE && size >= NODE && cur + size <= base + SIZE;
        assert prev != 0 ==> prev + WordAt(prev - base + 8) <= cur by {
          assert q.Some? ==> Apart(blocks, q.value, r.value);
        }
        seen := seen + {r.value};
        prev, cur, n := cur, next, n + 1;
        q := r;
        r := ListReads(q);
        if n > MAX_NODES {
          Among(seen, FreeSet(blocks));
          return false;
        }
      }
      NextFromIs(blocks, After(q));
      forall x | x in FreeSet(blocks) ensures x in seen {
        assert Free(blocks, x) && Bounded(blocks, SIZE, x);
      }
      assert seen == FreeSet(blocks);
      ok := true;
    }

    /** What free's guards let through: inside the arena, behind something that looks like a header. */
    predicate Plausible(p: nat)
      requires mem.Length == SIZE
      reads this, mem
    {
      && base + HDR <= p < base + SIZE
      && var block, size := WordAt(p - base - 32), WordAt(p - base - 24);
         (base <= block < base + SIZE && block + size <= base + SIZE && size >= HDR && WordAt(p - base - 8) == MAGIC)
    }

    /** `p` is the payload of live block `g`. */
    ghost predicate IsPayload(p: nat, g: nat)
      reads this
    {
      Live(blocks, g) && g in pay && p == base + pay[g].at
    }

    /** Put a live block back.  The kernel stops at a pointer that no header stands before, and over a list of more than
        4096 blocks, here or after the return. */
    method Release(p: nat, ghost g: nat) returns (ok: bool)
      requires Valid() && (p == 0 || IsPayload(p, g) || !Plausible(p))
      modifies this, mem
      ensures Valid()
      ensures p == 0 || !old(IsPayload(p, g)) ==>
                ok == (p == 0) && blocks == old(blocks) && pay == old(pay) && mem[..] == old(mem[..]) && inUse == old(inUse)
      ensures p != 0 && old(IsPayload(p, g)) ==>
                (ok <==> FreeCount(old(blocks)) + (if Alone(old(blocks), g) then 1 else 0) <= MAX_NODES)
      ensures p != 0 && old(IsPayload(p, g)) && ok ==> blocks == GivenBack(old(blocks), g) && pay == old(pay) - {g}
      ensures p != 0 && old(IsPayload(p, g)) && ok ==> inUse + old(pay)[g].len == old(inUse)
      ensures LiveKept(old(blocks), old(pay), old(mem[..]), blocks, pay, mem[..], g)
    {
      hide Word, NextFrom, PrevFrom, Recorded, LiveKept, Tiled, GivenBack, Total, FreeCount, Alone;
      NothingMoved(blocks, pay, mem[..]);
      FewerKept(blocks, pay, mem[..], blocks, pay, mem[..], g);
      if p == 0 {
        return true;
      }
      if IsPayload(p, g) {
        HeaderReads(g);
      }
      if !Plausible(p) {
        return false;
      }
      var header := p - base - HDR;
      var block, size, len := WordAt(header), WordAt(header + 8), WordAt(header + 16);
      CountAfterFree(blocks, SIZE, g);
      ok := ValidateWalk();
      if ok {
        GiveBack(block, size, len);
        ok := ValidateWalk();
      }
    }

    /** What free reads from a live block's header. */
    lemma HeaderReads(g: nat)
      requires Valid() && Live(blocks, g)
      ensures g in pay && g + HDR <= pay[g].at && pay[g].at < End(blocks, g) <= SIZE && blocks[g].size > HDR
      ensures WordAt(pay[g].at - 32) == base + g && WordAt(pay[g].at - 24) == blocks[g].size
      ensures WordAt(pay[g].at - 16) == pay[g].len && WordAt(pay[g].at - 8) == MAGIC
    {
      hide Word;
      assert Bounded(blocks, SIZE, g) && BlockOk(base, blocks, pay, mem[..], g);
    }

    /** free_inner between its walks: into the list, merged with what ends where it starts, or else with what follows. */
    method GiveBack(block: nat, size: nat, len: nat)
      requires Valid() && block >= base && Live(blocks, block - base) && block - base in pay
      requires size == blocks[block - base].size && len == pay[block - base].len
      modifies this, mem
      ensures Valid() && blocks == GivenBack(old(blocks), block - base) && pay == old(pay) - {block - base}
      ensures inUse + len == old(inUse)
      ensures LiveKept(old(blocks), old(pay), old(mem[..]), blocks, pay, mem[..], block - base)
    {
      hide Word, NextFrom, PrevFrom, Recorded, LiveKept, Tiled, GivenBack, Total, FreeWrites;
      ghost var bs, m, h, g := blocks, mem[..], head, block - base;
      RoomToReturn(g);
      LinkIn(block, size);
      ghost var m1 := mem[..];
      MergeUp(block, m, h);
      FreeComposed(base, bs, m, m1, mem[..], head, g);
      GivenRecorded(base, bs, pay, SIZE, m, mem[..], h, head, g);
      FreeKeeps(base, bs, pay, m, mem[..], head, g);
      GivenBackTiled(bs, SIZE, g);
      FreeCounts(bs, pay, g);
      blocks, pay := GivenBack(bs, g), pay - {g};
      inUse, frees := inUse - len, frees + 1;
    }

    lemma RoomToReturn(g: nat)
      requires Valid() && Live(blocks, g)
      ensures Returning(blocks, SIZE, g)
    {
      hide Word;
      HeaderReads(g);
      PrevFromIs(blocks, g);
      if MergesHigh(blocks, g) {
        assert BlockOk(base, blocks, pay, mem[..], End(blocks, g)) && Bounded(blocks, SIZE, End(blocks, g));
      }
      if PrevFrom(blocks, g).Some? {
        var p := PrevFrom(blocks, g).value;
        assert BlockOk(base, blocks, pay, mem[..], p) && Apart(blocks, p, g);
      }
    }

    /** Walk to the last free block below `block`, from the first one, which is below it. */
    method Around(block: nat) returns (cur: nat)
      requires Valid() && block >= base && Live(blocks, block - base) && 0 < head < block
      ensures PrevFrom(blocks, block - base).Some? && cur == Link(base, PrevFrom(blocks, block - base))
      ensures NextFrom(blocks, After(PrevFrom(blocks, block - base))) == NextFrom(blocks, block - base + 1)
    {
      hide Word, NextFrom, PrevFrom;
      ghost var g := block - base;
      ghost var r := ListReads(None);
      cur := head;
      ghost var q := r;
      r := ListReads(q);
      ghost var _ := ListReads(None);
      while WordAt(cur - base) != 0 && WordAt(cur - base) < block
        invariant q.Some? && q.value < g && Free(blocks, q.value) && q.value + NODE <= SIZE && cur == base + q.value
        invariant r == NextFrom(blocks, After(q)) && WordAt(q.value) == Link(base, r)
        decreases g - q.value
      {
        ghost var _ := ListReads(q);
        cur := WordAt(cur - base);
        q := r;
        r := ListReads(q);
      }
      ghost var _ := ListReads(q);
      assert Bounded(blocks, SIZE, g);
      StopsAround(blocks, g, q);
    }

    /** Into the list behind the free block at `cur`, or into that block where it ends at `block`. */
    method Behind(cur: nat, block: nat, size: nat)
      requires Valid() && block >= base && Live(blocks, block - base) && size == blocks[block - base].size
      requires Returning(blocks, SIZE, block - base) && PrevFrom(blocks, block - base).Some?
      requires cur == Link(base, PrevFrom(blocks, block - base))
      requires NextFrom(blocks, PrevFrom(blocks, block - base).value + 1) == NextFrom(blocks, block - base + 1)
      modifies mem
      ensures LinkedIn(base, blocks, old(mem[..]), mem[..], head, block - base)
    {
      hide Word, NextFrom, PrevFrom, Tiled, BlockOk;
      ghost var g, m, bs := block - base, mem[..], blocks;
      ghost var p := PrevFrom(bs, g).value;
      PrevReads(g);
      LinkFits(base, bs, p + 1);
      PutNode(block - base, WordAt(cur - base), size);
      ghost var m1 := mem[..];
      PutWord(cur - base, block);
      ghost var m2 := mem[..];
      WordSame(m, m2, p + 8);
      WordSame(m1, m2, g);
      WordSame(m1, m2, g + 8);
      if cur + WordAt(cur - base + 8) == block {
        PutNode(cur - base, WordAt(block - base), WordAt(cur - base + 8) + size);
        WordSame(m2, mem[..], g);
        WordSame(m2, mem[..], g + 8);
      }
    }

    /** The block's node, and the link or the node before it. */
    method LinkIn(block: nat, size: nat)
      requires Valid() && block >= base && Live(blocks, block - base) && size == blocks[block - base].size
      requires Returning(blocks, SIZE, block - base)
      modifies this`head, mem
      ensures LinkedIn(base, blocks, old(mem[..]), mem[..], head, block - base)
    {
      hide Word, NextFrom, PrevFrom, Tiled;
      ghost var g, m, bs := block - base, mem[..], blocks;
      ghost var r := ListReads(None);
      assert Bounded(bs, SIZE, g);
      if head == 0 || head > block {
        StopsAround(bs, g, None);
        PutNode(block - base, head, size);
        head := block;
      } else {
        assert head != block;
        var cur := Around(block);
        Behind(cur, block, size);
      }
    }

    lemma PrevReads(g: nat)
      requires Valid() && Live(blocks, g) && PrevFrom(blocks, g).Some?
      ensures var p := PrevFrom(blocks, g).value; p + NODE <= SIZE && p in blocks && WordAt(p + 8) == blocks[p].size <= SIZE
      ensures WordAt(PrevFrom(blocks, g).value) == Link(base, NextFrom(blocks, PrevFrom(blocks, g).value + 1))
    {
      hide Word;
      PrevFromIs(blocks, g);
      assert BlockOk(base, blocks, pay, mem[..], PrevFrom(blocks, g).value) && Bounded(blocks, SIZE, PrevFrom(blocks, g).value);
    }

    /** The block's node takes in the free block that follows. */
    method MergeUp(block: nat, ghost m: seq<byte>, ghost h: nat)
      requires mem.Length == SIZE == |m| && 0 < base && base + SIZE < U64 && block >= base
      requires Returning(blocks, SIZE, block - base) && Recorded(base, blocks, pay, m, h)
      requires LinkedIn(base, blocks, m, mem[..], head, block - base)
      modifies mem
      ensures MergedUp(base, blocks, m, old(mem[..]), mem[..], block - base)
    {
      hide Word, NextFrom, PrevFrom, Tiled;
      ghost var g, bs := block - base, blocks;
      HighIsNext(bs, SIZE, g);
      NextFromIs(bs, g + 1);
      var next := WordAt(block - base);
      if next != 0 && block + WordAt(block - base + 8) == next {
        ghost var u := next - base;
        assert u == End(bs, g) && BlockOk(base, bs, pay, m, u);
        LinkFits(base, bs, u + 1);
        WordSame(m, mem[..], u);
        WordSame(m, mem[..], u + 8);
        PutNode(block - base, WordAt(next - base), WordAt(block - base + 8) + WordAt(next - base + 8));
      }
    }
  }
}
