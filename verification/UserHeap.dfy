/** sbrk: the ring-3 heap, one page at a time on top of the virtual memory manager. */
module UserHeap {
  import opened Frames
  import opened PageTableSpec
  import opened ForkSpec
  import opened Vmm

  const USER_HEAP_BASE: nat := 0x2000_0000
  const USER_HEAP_MAX: nat := 0x3000_0000
  const WORD: nat := 0x1_0000_0000_0000_0000

  predicate Aligned(x: nat) {
    x % PAGE == 0
  }

  function AlignUp(x: nat): nat {
    (x + PAGE - 1) / PAGE * PAGE
  }

  /** The page address a path stands for; the inverse of PathOf. */
  function VirtOf(q: Path): nat
    requires |q| == 4
  {
    (((q[0] * 512 + q[1]) * 512 + q[2]) * 512 + q[3]) * PAGE
  }

  lemma VirtOfPath(v: nat)
    requires v < USER_LIMIT && Aligned(v)
    ensures VirtOf(PathOf(v)) == v
  {
    Digits(v);
  }

  lemma PathOfVirt(q: Path)
    requires UserPath(q)
    ensures PathOf(VirtOf(q)) == q && VirtOf(q) < USER_LIMIT && Aligned(VirtOf(q))
  {
    var p0 := ((q[0] * 512 + q[1]) * 512 + q[2]) * 512 + q[3];
    var v := VirtOf(q);
    assert v == p0 * PAGE;
    assert v / 0x1000 == p0 && v / 0x20_0000 == p0 / 512;
    assert v / 0x4000_0000 == p0 / 512 / 512 && v / 0x80_0000_0000 == p0 / 512 / 512 / 512;
    assert p0 / 512 == (q[0] * 512 + q[1]) * 512 + q[2];
    assert p0 / 512 / 512 == q[0] * 512 + q[1];
  }

  /** A page of the space at `root` whose address is in [from, until). */
  predicate InRange(root: nat, from: nat, until: nat, k: Node) {
    k.root == root && UserPath(k.path) && from <= VirtOf(k.path) < until
  }

  lemma NextPage(p: nat, end: nat)
    requires p < end && Aligned(p) && Aligned(end)
    ensures p + PAGE <= end && Aligned(p + PAGE)
  {
  }

  lemma OneMore(root: nat, from: nat, p: nat, k: Node)
    requires from <= p < USER_LIMIT && Aligned(p)
    ensures InRange(root, from, p + PAGE, k) <==> InRange(root, from, p, k) || k == Node(root, PathOf(p))
  {
    UserPathOf(p);
    VirtOfPath(p);
    if UserPath(k.path) {
      PathOfVirt(k.path);
    }
  }

  lemma OneFewer(root: nat, p: nat, until: nat, k: Node)
    requires p < until && p < USER_LIMIT && Aligned(p)
    ensures InRange(root, p, until, k) <==> InRange(root, p + PAGE, until, k) || k == Node(root, PathOf(p))
  {
    UserPathOf(p);
    VirtOfPath(p);
    if UserPath(k.path) {
      PathOfVirt(k.path);
    }
  }

  function Zeros(): (c: Content)
    ensures |c| == PAGE && forall i | 0 <= i < PAGE :: c[i] == 0
  {
    seq(PAGE, _ => 0)
  }

  /** A heap page as sbrk maps it. */
  function HeapEntry(frame: nat): Entry {
    Entry(true, true, true, false, false, true, frame)
  }

  /** Outside the range nothing changed. */
  ghost predicate SameOutside(was: map<Node, Entry>, now: map<Node, Entry>, root: nat, from: nat, until: nat) {
    forall k: Node | !InRange(root, from, until, k) :: Get(now, k) == Get(was, k)
  }

  /** Every page of the range is mapped, writable, not executable, owned once and zero. */
  ghost predicate FreshIn(now: map<Node, Entry>, mem: seq<Content>, root: nat, from: nat, until: nat) {
    forall k | InRange(root, from, until, k) ::
      k in now && now[k] == HeapEntry(now[k].frame) && now[k].frame < |mem| && mem[now[k].frame] == Zeros() &&
      OwnersOf(now, now[k].frame) == {k}
  }

  ghost predicate NoneIn(now: map<Node, Entry>, root: nat, from: nat, until: nat) {
    forall k | InRange(root, from, until, k) :: k !in now
  }

  ghost predicate AllIn(now: map<Node, Entry>, root: nat, from: nat, until: nat) {
    forall k | InRange(root, from, until, k) :: k in now
  }

  ghost function FreeFrames(used: seq<bool>): set<nat> {
    set f: nat | f < |used| && !used[f]
  }

  function EffectiveBreak(stored: nat): nat {
    if stored < USER_HEAP_BASE then USER_HEAP_BASE else stored
  }

  /** The mapped pages of the arena are exactly [USER_HEAP_BASE, AlignUp(break)). */
  ghost predicate ArenaExact(now: map<Node, Entry>, root: nat, stored: nat) {
    var brk := EffectiveBreak(stored);
    && brk <= USER_HEAP_MAX
    && AllIn(now, root, USER_HEAP_BASE, AlignUp(brk))
    && NoneIn(now, root, AlignUp(brk), USER_HEAP_MAX)
  }

  class Task {
    const m: Machine
    const root: nat
    var heapBreak: nat

    /** A fresh image: nothing mapped in the arena yet, the break at its base. */
    constructor (m: Machine, root: nat)
      requires m.Steady() && Node(root, []) in m.at && NoneIn(m.leaves, root, USER_HEAP_BASE, USER_HEAP_MAX)
      ensures this.m == m && this.root == root && ArenaExact(m.leaves, root, heapBreak)
    {
      this.m := m;
      this.root := root;
      heapBreak := USER_HEAP_BASE;
    }

    ghost predicate Valid()
      reads this, m, m.frames, m.frames.used, m.frames.refs, m.words, m.mem
    {
      m.Steady() && Node(root, []) in m.at && ArenaExact(m.leaves, root, heapBreak)
    }

    /** A zeroed frame nobody maps, for page `k`: alloc, then zero before the frame is published. */
    method TakeZeroed(ghost k: Node, ghost was: seq<bool>) returns (r: Option<nat>)
      requires m.Steady() && k !in m.leaves && Accounted(was, m.frames.used[..], m.pos, m.leaves)
      modifies m.frames, m.frames.used, m.mem
      ensures m.Steady() && SameBytes(m.leaves, old(m.mem[..]), m.leaves, m.mem[..])
      ensures r.None? ==> Accounted(was, m.frames.used[..], m.pos, m.leaves) && |FreeFrames(m.frames.used[..])| <= 1
      ensures r.Some? ==> IsData(m.frames.used[..], m.pos, m.kernelRoot, r.value) && OwnersOf(m.leaves, r.value) == {} &&
                          Accounted(was, m.frames.used[..][r.value := false], m.pos, m.leaves) &&
                          m.mem[r.value] == Zeros() &&
                          SameBytes(m.leaves, old(m.mem[..]), m.leaves[k := HeapEntry(r.value)], m.mem[..])
    {
      ghost var u0, mem0 := m.frames.used[..], m.mem[..];
      FramesBelow(m.words[..], u0, m.at, m.pos, m.leaves, m.kernelRoot);
      r := m.TakeDataFrame();
      if r.None? {
        NoneFree(m.frames.used[..]);
      } else {
        AccountedTake(was, u0, m.pos, m.leaves, r.value);
        FreshSameBytes(m.leaves, mem0, r.value, k, HeapEntry(r.value));
        ghost var w, u, c := m.words[..], m.frames.used[..], m.frames.refs[..];
        m.mem[r.value] := Zeros();
        assert m.words[..] == w && m.frames.used[..] == u && m.frames.refs[..] == c;
      }
    }

    /** Map a page onto a frame nobody else maps. */
    method Publish(p: nat, f: nat, ghost was: seq<bool>) returns (ok: bool)
      requires m.Steady() && Node(root, []) in m.at && p < USER_LIMIT && Aligned(p)
      requires Node(root, PathOf(p)) !in m.leaves
      requires IsData(m.frames.used[..], m.pos, m.kernelRoot, f) && OwnersOf(m.leaves, f) == {}
      requires Accounted(was, m.frames.used[..][f := false], m.pos, m.leaves)
      modifies m`at, m`pos, m`leaves, m.frames, m.frames.used, m.words
      ensures m.Steady() && Node(root, []) in m.at && m.mem[..] == old(m.mem[..])
      ensures ok ==> m.leaves == old(m.leaves)[Node(root, PathOf(p)) := HeapEntry(f)]
      ensures ok ==> Accounted(was, m.frames.used[..], m.pos, m.leaves)
      ensures !ok ==> m.leaves == old(m.leaves) && IsData(m.frames.used[..], m.pos, m.kernelRoot, f)
      ensures !ok ==> Accounted(was, m.frames.used[..][f := false], m.pos, m.leaves)
      ensures !ok ==> forall x | 0 <= x < MAX_FRAMES :: m.frames.used[x]
    {
      ghost var u1, p1, a1, leaves0 := m.frames.used[..], m.pos, m.at, m.leaves;
      CountedAdd(m.leaves, m.frames.refs[..], Node(root, PathOf(p)), HeapEntry(f));
      var status := m.Map(root, p, HeapEntry(f));
      ok := status == Ok;
      AccountedGrown(was, u1, m.frames.used[..], a1, m.at, p1, m.pos, leaves0, f, root);
      AccountedMapped(was, m.frames.used[..], m.pos, leaves0, f, Node(root, PathOf(p)));
    }

    /** free: the frame never got mapped. */
    method GiveBack(f: nat, ghost was: seq<bool>)
      requires m.Steady() && IsData(m.frames.used[..], m.pos, m.kernelRoot, f) && OwnersOf(m.leaves, f) == {}
      requires Accounted(was, m.frames.used[..][f := false], m.pos, m.leaves)
      requires forall x | 0 <= x < MAX_FRAMES :: m.frames.used[x]
      modifies m.frames.used
      ensures m.Steady() && Accounted(was, m.frames.used[..], m.pos, m.leaves) && |FreeFrames(m.frames.used[..])| <= 1
    {
      ghost var w, u, c := m.words[..], m.frames.used[..], m.frames.refs[..];
      WfGive(w, u, m.at, m.pos, m.leaves, m.kernelRoot, f);
      OneFree(u, f);
      m.frames.Free(f);
      assert m.words[..] == w && m.frames.refs[..] == c;
    }

    /** One page of a grow: a zeroed frame, mapped; or everything put back but the page tables. */
    method AddPage(p: nat, ghost was: seq<bool>) returns (ok: bool)
      requires m.Steady() && Node(root, []) in m.at && p < USER_LIMIT && Aligned(p)
      requires Node(root, PathOf(p)) !in m.leaves && Accounted(was, m.frames.used[..], m.pos, m.leaves)
      modifies m`at, m`pos, m`leaves, m.frames, m.frames.used, m.words, m.mem
      ensures m.Steady() && Node(root, []) in m.at && Accounted(was, m.frames.used[..], m.pos, m.leaves)
      ensures !ok ==> m.leaves == old(m.leaves) && |FreeFrames(m.frames.used[..])| <= 1
      ensures ok ==> Added(old(m.leaves), m.leaves, m.mem[..], Node(root, PathOf(p)))
      ensures SameBytes(old(m.leaves), old(m.mem[..]), m.leaves, m.mem[..])
    {
      var f := TakeZeroed(Node(root, PathOf(p)), was);
      if f.None? {
        return false;
      }
      ok := Publish(p, f.value, was);
      if !ok {
        GiveBack(f.value, was);
      }
    }

    /** unmap, then release: what shrink and rollback do with one page. */
    method DropPage(p: nat, ghost was: seq<bool>)
      requires m.Steady() && Node(root, []) in m.at && p < USER_LIMIT
      requires Accounted(was, m.frames.used[..], m.pos, m.leaves)
      modifies m`leaves, m.words, m.frames.used, m.frames.refs
      ensures m.Steady() && m.leaves == old(m.leaves) - {Node(root, PathOf(p))} && m.mem[..] == old(m.mem[..])
      ensures Accounted(was, m.frames.used[..], m.pos, m.leaves)
      ensures |FreeFrames(m.frames.used[..])| <= |FreeFrames(old(m.frames.used[..]))| + 1
    {
      ghost var k, leaves0 := Node(root, PathOf(p)), m.leaves;
      var f := UnmapPage(p);
      if f.Some? {
        CountedDrop(leaves0, m.frames.refs[..], k);
        ReleaseUnmapped(f.value, was, leaves0, k);
      }
    }

    method UnmapPage(p: nat) returns (f: Option<nat>)
      requires m.Steady() && Node(root, []) in m.at && p < USER_LIMIT
      modifies m`leaves, m.words
      ensures var k := Node(root, PathOf(p));
        && m.Valid() && m.leaves == old(m.leaves) - {k} && m.mem[..] == old(m.mem[..])
        && m.frames.used[..] == old(m.frames.used[..]) && m.frames.refs[..] == old(m.frames.refs[..])
        && (f.None? ==> m.Steady() && m.leaves == old(m.leaves))
        && (f.Some? ==> k in old(m.leaves) && old(m.leaves)[k].frame == f.value < MAX_FRAMES && f.value !in m.pos &&
                        f.value != m.kernelRoot)
    {
      ghost var k, leaves0, u := Node(root, PathOf(p)), m.leaves, m.frames.used[..];
      assert k in leaves0 ==> IsData(u, m.pos, m.kernelRoot, leaves0[k].frame);
      f := m.Unmap(root, p);
      if f.None? {
        assert m.leaves == leaves0;
      }
    }

    method ReleaseUnmapped(f: nat, ghost was: seq<bool>, ghost leaves0: map<Node, Entry>, ghost k: Node)
      requires m.Valid() && f < MAX_FRAMES && k in leaves0 && leaves0[k].frame == f && m.leaves == leaves0 - {k}
      requires f !in m.pos && f != m.kernelRoot
      requires Accounted(was, m.frames.used[..], m.pos, leaves0)
      requires m.frames.refs[f] == 0 ==> OwnersOf(m.leaves, f) == {} && Counted(m.leaves, m.frames.refs[..])
      requires m.frames.refs[f] > 0 ==>
                 OwnersOf(m.leaves, f) != {} && Counted(m.leaves, m.frames.refs[..][f := m.frames.refs[f] - 1])
      modifies m.frames.used, m.frames.refs
      ensures m.Steady() && Accounted(was, m.frames.used[..], m.pos, m.leaves)
      ensures |FreeFrames(m.frames.used[..])| <= |FreeFrames(old(m.frames.used[..]))| + 1
    {
      ghost var w, u := m.words[..], m.frames.used[..];
      OneMoreFree(u, f);
      AccountedDropped(was, u, m.pos, leaves0, k);
      if m.frames.refs[f] == 0 {
        WfGive(w, u, m.at, m.pos, m.leaves, m.kernelRoot, f);
      }
      var freed := m.frames.Release(f);
      assert m.words[..] == w;
    }

    /** Undo a partially applied grow. */
    method Rollback(from: nat, until: nat, ghost was: seq<bool>, ghost leaves0: map<Node, Entry>)
      requires m.Steady() && Node(root, []) in m.at && Accounted(was, m.frames.used[..], m.pos, m.leaves)
      requires from <= until <= USER_HEAP_MAX && Aligned(from) && Aligned(until)
      requires SameOutside(leaves0, m.leaves, root, from, until) && NoneIn(leaves0, root, from, until)
      requires |FreeFrames(m.frames.used[..])| <= 1
      modifies m`leaves, m.words, m.frames.used, m.frames.refs
      ensures m.Steady() && m.leaves == leaves0 && m.mem[..] == old(m.mem[..])
      ensures Accounted(was, m.frames.used[..], m.pos, m.leaves)
      ensures PAGE * |FreeFrames(m.frames.used[..])| <= PAGE + until - from
    {
      var p := from;
      while p < until
        invariant from <= p <= until && Aligned(p)
        invariant m.Steady() && Node(root, []) in m.at && Accounted(was, m.frames.used[..], m.pos, m.leaves)
        invariant SameOutside(leaves0, m.leaves, root, p, until) && m.mem[..] == old(m.mem[..])
        invariant PAGE * |FreeFrames(m.frames.used[..])| <= PAGE + p - from
      {
        NextPage(p, until);
        ghost var before := m.leaves;
        DropPage(p, was);
        DroppedOne(leaves0, before, root, from, p, until);
        p := p + PAGE;
      }
      SameEverywhere(leaves0, m.leaves, root, until);
    }

    /** The grow loop of sbrk: map [from, end) onto zeroed frames, or roll back. */
    method Grow(from: nat, end: nat) returns (ok: bool)
      requires m.Steady() && Node(root, []) in m.at && NoneIn(m.leaves, root, from, end)
      requires from <= end <= USER_HEAP_MAX && Aligned(from) && Aligned(end)
      modifies m`at, m`pos, m`leaves, m.frames, m.frames.used, m.frames.refs, m.words, m.mem
      ensures m.Steady() && Node(root, []) in m.at
      ensures Accounted(old(m.frames.used[..]), m.frames.used[..], m.pos, m.leaves)
      ensures SameBytes(old(m.leaves), old(m.mem[..]), m.leaves, m.mem[..])
      ensures ok ==> SameOutside(old(m.leaves), m.leaves, root, from, end)
      ensures ok ==> FreshIn(m.leaves, m.mem[..], root, from, end)
      ensures !ok ==> m.leaves == old(m.leaves) && PAGE * |FreeFrames(m.frames.used[..])| <= end - from
    {
      ghost var was, leaves0, mem0 := m.frames.used[..], m.leaves, m.mem[..];
      SameBytesStart(m.words[..], was, m.at, m.pos, leaves0, m.kernelRoot, mem0);
      ok := GrowLoop(from, end, was, leaves0, mem0);
    }

    method GrowLoop(from: nat, end: nat, ghost was: seq<bool>, ghost leaves0: map<Node, Entry>,
                    ghost mem0: seq<Content>) returns (ok: bool)
      requires from <= end <= USER_HEAP_MAX && Aligned(from) && Aligned(end)
      requires NoneIn(leaves0, root, from, end) && Growing(from, from, was, leaves0, mem0)
      modifies m`at, m`pos, m`leaves, m.frames, m.frames.used, m.frames.refs, m.words, m.mem
      ensures m.Steady() && Node(root, []) in m.at && Accounted(was, m.frames.used[..], m.pos, m.leaves)
      ensures SameBytes(leaves0, mem0, m.leaves, m.mem[..])
      ensures ok ==> Growing(from, end, was, leaves0, mem0)
      ensures !ok ==> m.leaves == leaves0 && PAGE * |FreeFrames(m.frames.used[..])| <= end - from
    {
      var p := from;
      while p < end
        invariant from <= p <= end && Aligned(p) && Growing(from, p, was, leaves0, mem0)
      {
        NextPage(p, end);
        ok := GrowPage(from, p, end, was, leaves0, mem0);
        if !ok {
          return;
        }
        p := p + PAGE;
      }
      return true;
    }

    /** Pages [from, p) were added to the map `leaves0`; the others kept their entries and bytes. */
    ghost predicate Growing(from: nat, p: nat, was: seq<bool>, leaves0: map<Node, Entry>, mem0: seq<Content>)
      reads this, m, m.frames, m.frames.used, m.frames.refs, m.words, m.mem
    {
      && m.Steady() && Node(root, []) in m.at && Accounted(was, m.frames.used[..], m.pos, m.leaves)
      && SameOutside(leaves0, m.leaves, root, from, p) && FreshIn(m.leaves, m.mem[..], root, from, p)
      && SameBytes(leaves0, mem0, m.leaves, m.mem[..])
    }

    /** One turn of the grow loop. */
    method GrowPage(from: nat, p: nat, ghost end: nat, ghost was: seq<bool>, ghost leaves0: map<Node, Entry>,
                    ghost mem0: seq<Content>) returns (ok: bool)
      requires from <= p < end <= USER_HEAP_MAX && Aligned(from) && Aligned(p) && Aligned(end)
      requires NoneIn(leaves0, root, from, end) && Growing(from, p, was, leaves0, mem0)
      modifies m`at, m`pos, m`leaves, m.frames, m.frames.used, m.frames.refs, m.words, m.mem
      ensures m.Steady() && Node(root, []) in m.at && Accounted(was, m.frames.used[..], m.pos, m.leaves)
      ensures SameBytes(leaves0, mem0, m.leaves, m.mem[..])
      ensures ok ==> Growing(from, p + PAGE, was, leaves0, mem0)
      ensures !ok ==> m.leaves == leaves0 && PAGE * |FreeFrames(m.frames.used[..])| <= end - from
    {
      NextPage(p, end);
      ghost var mid, midMem := m.leaves, m.mem[..];
      StillEmpty(leaves0, mid, root, from, p, end);
      ok := AddPage(p, was);
      ghost var mem1 := m.mem[..];
      SameBytesTrans(leaves0, mem0, mid, midMem, m.leaves, mem1);
      if ok {
        AddedOne(leaves0, mid, midMem, m.leaves, mem1, root, from, p);
      } else {
        SameBytesBack(leaves0, mem0, mid, mem1, root, from, p);
        Rollback(from, p, was, leaves0);
      }
    }

    /** The shrink loop of sbrk: unmap and release every page of [from, end). */
    method Shrink(from: nat, end: nat)
      requires m.Steady() && Node(root, []) in m.at
      requires from <= end <= USER_HEAP_MAX && Aligned(from) && Aligned(end)
      modifies m`leaves, m.words, m.frames.used, m.frames.refs
      ensures m.Steady() && m.mem[..] == old(m.mem[..])
      ensures SameOutside(old(m.leaves), m.leaves, root, from, end) && NoneIn(m.leaves, root, from, end)
      ensures Accounted(old(m.frames.used[..]), m.frames.used[..], m.pos, m.leaves)
    {
      ghost var was, leaves0 := m.frames.used[..], m.leaves;
      var p := from;
      while p < end
        invariant from <= p <= end && Aligned(p)
        invariant m.Steady() && Node(root, []) in m.at && Accounted(was, m.frames.used[..], m.pos, m.leaves)
        invariant SameOutside(leaves0, m.leaves, root, from, p) && NoneIn(m.leaves, root, from, p)
        invariant m.mem[..] == old(m.mem[..])
      {
        NextPage(p, end);
        ghost var mid := m.leaves;
        DropPage(p, was);
        ShrunkOne(leaves0, mid, root, from, p);
        p := p + PAGE;
      }
    }

    /** sbrk: the old break, or None when the request leaves the arena or memory is short. */
    method Sbrk(online: bool, inc: int) returns (r: Option<nat>)
      requires Valid()
      modifies this`heapBreak
      modifies m`at, m`pos, m`leaves, m.frames, m.frames.used, m.frames.refs, m.words, m.mem
      ensures Valid()
      ensures Accounted(old(m.frames.used[..]), m.frames.used[..], m.pos, m.leaves)
      ensures r.Some? ==> r.value == EffectiveBreak(old(heapBreak)) && heapBreak == r.value + inc
      ensures r.Some? ==> var a, b := AlignUp(r.value), AlignUp(heapBreak);
        && SameOutside(old(m.leaves), m.leaves, root, if a <= b then a else b, if a <= b then b else a)
        && (inc > 0 ==> FreshIn(m.leaves, m.mem[..], root, a, b))
      ensures r.None? ==> heapBreak == old(heapBreak) && m.leaves == old(m.leaves)
      ensures inc >= 0 || r.None? ==> SameBytes(old(m.leaves), old(m.mem[..]), m.leaves, m.mem[..])
      ensures inc < 0 ==> m.mem[..] == old(m.mem[..])
      ensures r.None? && online ==>
                var brk := EffectiveBreak(old(heapBreak)) + inc;
                brk < USER_HEAP_BASE || brk > USER_HEAP_MAX ||
                (inc > 0 && PAGE * |FreeFrames(m.frames.used[..])| <= AlignUp(brk) - AlignUp(EffectiveBreak(heapBreak)))
    {
      SameBytesStart(m.words[..], m.frames.used[..], m.at, m.pos, m.leaves, m.kernelRoot, m.mem[..]);
      if !online {
        return None;
      }
      var brk := EffectiveBreak(heapBreak);
      if brk + inc < 0 || brk + inc >= WORD {
        return None;
      }
      var newBreak := brk + inc;
      if newBreak < USER_HEAP_BASE || newBreak > USER_HEAP_MAX {
        return None;
      }
      if newBreak > brk {
        ghost var leaves0 := m.leaves;
        NoneBelow(leaves0, root, AlignUp(brk), AlignUp(newBreak));
        var ok := Grow(AlignUp(brk), AlignUp(newBreak));
        if !ok {
          return None;
        }
        ArenaGrown(leaves0, m.leaves, m.mem[..], root, brk, newBreak);
      } else if newBreak < brk {
        ghost var leaves0 := m.leaves;
        Shrink(AlignUp(newBreak), AlignUp(brk));
        ArenaShrunk(leaves0, m.leaves, root, brk, newBreak);
      }
      heapBreak := newBreak;
      return Some(brk);
    }
  }

  lemma DroppedOne(leaves0: map<Node, Entry>, before: map<Node, Entry>, root: nat, from: nat, p: nat, until: nat)
    requires SameOutside(leaves0, before, root, p, until) && NoneIn(leaves0, root, from, until)
    requires from <= p < until <= USER_HEAP_MAX && Aligned(p)
    ensures SameOutside(leaves0, before - {Node(root, PathOf(p))}, root, p + PAGE, until)
  {
    var k0 := Node(root, PathOf(p));
    forall k: Node | !InRange(root, p + PAGE, until, k) ensures Get(before - {k0}, k) == Get(leaves0, k) {
      OneFewer(root, p, until, k);
      assert k == k0 ==> InRange(root, from, until, k);
    }
  }

  lemma SameEverywhere(leaves0: map<Node, Entry>, now: map<Node, Entry>, root: nat, p: nat)
    requires SameOutside(leaves0, now, root, p, p)
    ensures now == leaves0
  {
    forall k ensures k in now <==> k in leaves0 {
      assert Get(now, k) == Get(leaves0, k);
    }
    forall k | k in now ensures now[k] == leaves0[k] {
      assert Get(now, k) == Get(leaves0, k);
    }
  }

  lemma SameBytesStart(w: seq<Row>, used: seq<bool>, at: map<Node, nat>, pos: map<nat, Node>, leaves: map<Node, Entry>,
                       kernelRoot: nat, mem: seq<Content>)
    requires Wf(w, used, at, pos, leaves, kernelRoot) && |mem| == |used|
    ensures SameBytes(leaves, mem, leaves, mem)
  {
  }

  lemma SameBytesTrans(l0: map<Node, Entry>, m0: seq<Content>, l1: map<Node, Entry>, m1: seq<Content>,
                       l2: map<Node, Entry>, m2: seq<Content>)
    requires SameBytes(l0, m0, l1, m1) && SameBytes(l1, m1, l2, m2)
    ensures SameBytes(l0, m0, l2, m2)
  {
  }

  /** Pages that were there before a grow kept their frames, so a rollback gives back their bytes. */
  lemma SameBytesBack(leaves0: map<Node, Entry>, mem0: seq<Content>, mid: map<Node, Entry>, mem1: seq<Content>,
                      root: nat, from: nat, p: nat)
    requires SameBytes(leaves0, mem0, mid, mem1) && SameOutside(leaves0, mid, root, from, p)
    requires NoneIn(leaves0, root, from, p)
    ensures SameBytes(leaves0, mem0, leaves0, mem1)
  {
    forall k | k in leaves0 ensures mid[k] == leaves0[k] {
      assert Get(mid, k) == Get(leaves0, k);
    }
  }

  lemma StillEmpty(leaves0: map<Node, Entry>, mid: map<Node, Entry>, root: nat, from: nat, p: nat, end: nat)
    requires SameOutside(leaves0, mid, root, from, p) && NoneIn(leaves0, root, from, end)
    requires from <= p < end <= USER_HEAP_MAX && Aligned(p)
    ensures Node(root, PathOf(p)) !in mid && NoneIn(leaves0, root, from, p)
  {
    var k := Node(root, PathOf(p));
    UserPathOf(p);
    VirtOfPath(p);
    assert InRange(root, from, end, k) && !InRange(root, from, p, k);
    assert Get(mid, k) == Get(leaves0, k);
    forall j | InRange(root, from, p, j) ensures j !in leaves0 {
      assert InRange(root, from, end, j);
    }
  }

  lemma AddedOne(leaves0: map<Node, Entry>, mid: map<Node, Entry>, midMem: seq<Content>, now: map<Node, Entry>,
                 mem: seq<Content>, root: nat, from: nat, p: nat)
    requires from <= p < USER_HEAP_MAX && Aligned(p)
    requires SameOutside(leaves0, mid, root, from, p) && FreshIn(mid, midMem, root, from, p)
    requires Added(mid, now, mem, Node(root, PathOf(p))) && SameBytes(mid, midMem, now, mem)
    requires Node(root, PathOf(p)) !in mid
    ensures SameOutside(leaves0, now, root, from, p + PAGE) && FreshIn(now, mem, root, from, p + PAGE)
  {
    var k0 := Node(root, PathOf(p));
    forall k: Node | !InRange(root, from, p + PAGE, k) ensures Get(now, k) == Get(leaves0, k) {
      OneMore(root, from, p, k);
    }
    AddOwner(mid, [], k0, now[k0], now[k0].frame);
    forall k | InRange(root, from, p + PAGE, k)
      ensures k in now && now[k] == HeapEntry(now[k].frame) && now[k].frame < |mem| && mem[now[k].frame] == Zeros()
      ensures OwnersOf(now, now[k].frame) == {k}
    {
      OneMore(root, from, p, k);
      if k != k0 {
        assert k in OwnersOf(mid, mid[k].frame);
      }
    }
  }

  lemma ShrunkOne(leaves0: map<Node, Entry>, mid: map<Node, Entry>, root: nat, from: nat, p: nat)
    requires from <= p < USER_HEAP_MAX && Aligned(p)
    requires SameOutside(leaves0, mid, root, from, p) && NoneIn(mid, root, from, p)
    ensures SameOutside(leaves0, mid - {Node(root, PathOf(p))}, root, from, p + PAGE)
    ensures NoneIn(mid - {Node(root, PathOf(p))}, root, from, p + PAGE)
  {
    var now := mid - {Node(root, PathOf(p))};
    forall k: Node | !InRange(root, from, p + PAGE, k) ensures Get(now, k) == Get(leaves0, k) {
      OneMore(root, from, p, k);
    }
    forall k | InRange(root, from, p + PAGE, k) ensures k !in now {
      OneMore(root, from, p, k);
    }
  }

  lemma NoneBelow(now: map<Node, Entry>, root: nat, from: nat, until: nat)
    requires NoneIn(now, root, from, USER_HEAP_MAX) && until <= USER_HEAP_MAX
    ensures NoneIn(now, root, from, until)
  {
    forall k | InRange(root, from, until, k) ensures k !in now {
      assert InRange(root, from, USER_HEAP_MAX, k);
    }
  }

  lemma ArenaGrown(was: map<Node, Entry>, now: map<Node, Entry>, mem: seq<Content>, root: nat, brk: nat, newBreak: nat)
    requires USER_HEAP_BASE <= brk <= newBreak <= USER_HEAP_MAX && ArenaExact(was, root, brk)
    requires SameOutside(was, now, root, AlignUp(brk), AlignUp(newBreak))
    requires FreshIn(now, mem, root, AlignUp(brk), AlignUp(newBreak))
    ensures ArenaExact(now, root, newBreak)
  {
    var a, b := AlignUp(brk), AlignUp(newBreak);
    forall k | InRange(root, USER_HEAP_BASE, b, k) ensures k in now {
      if !InRange(root, a, b, k) {
        assert InRange(root, USER_HEAP_BASE, a, k);
        assert Get(now, k) == Get(was, k);
      }
    }
    forall k | InRange(root, b, USER_HEAP_MAX, k) ensures k !in now {
      assert InRange(root, a, USER_HEAP_MAX, k) && !InRange(root, a, b, k);
      assert Get(now, k) == Get(was, k);
    }
  }

  lemma ArenaShrunk(was: map<Node, Entry>, now: map<Node, Entry>, root: nat, brk: nat, newBreak: nat)
    requires USER_HEAP_BASE <= newBreak <= brk <= USER_HEAP_MAX && ArenaExact(was, root, brk)
    requires SameOutside(was, now, root, AlignUp(newBreak), AlignUp(brk))
    requires NoneIn(now, root, AlignUp(newBreak), AlignUp(brk))
    ensures ArenaExact(now, root, newBreak)
  {
    var a, b := AlignUp(newBreak), AlignUp(brk);
    forall k | InRange(root, USER_HEAP_BASE, a, k) ensures k in now {
      assert InRange(root, USER_HEAP_BASE, b, k) && !InRange(root, a, b, k);
      assert Get(now, k) == Get(was, k);
    }
    forall k | InRange(root, a, USER_HEAP_MAX, k) ensures k !in now {
      if !InRange(root, a, b, k) {
        assert InRange(root, b, USER_HEAP_MAX, k);
        assert Get(now, k) == Get(was, k);
      }
    }
  }


  /** Dropping one owner: a count of 0 meant the last one. */
  lemma CountedDrop(leaves: map<Node, Entry>, refs: seq<nat>, k: Node)
    requires Counted(leaves, refs) && k in leaves && leaves[k].frame < |refs|
    ensures var f := leaves[k].frame; var left := leaves - {k};
      && (refs[f] == 0 ==> OwnersOf(left, f) == {} && Counted(left, refs))
      && (refs[f] > 0 ==> OwnersOf(left, f) != {} && Counted(left, refs[f := refs[f] - 1]))
  {
    var f := leaves[k].frame;
    DropOwner(leaves, k);
    assert k in OwnersOf(leaves, f);
    assert |OwnersOf(leaves - {k}, f)| == refs[f];
    assert refs[f] == 0 <==> OwnersOf(leaves - {k}, f) == {};
  }

  lemma OneMoreFree(used: seq<bool>, f: nat)
    requires f < |used|
    ensures |FreeFrames(used[f := false])| <= |FreeFrames(used)| + 1
  {
    assert FreeFrames(used[f := false]) == FreeFrames(used) + {f};
  }

  lemma AccountedDropped(was: seq<bool>, used: seq<bool>, pos: map<nat, Node>, leaves: map<Node, Entry>, k: Node)
    requires Accounted(was, used, pos, leaves) && k in leaves && leaves[k].frame < |used|
    ensures Accounted(was, used[leaves[k].frame := false], pos, leaves - {k})
    ensures OwnersOf(leaves - {k}, leaves[k].frame) != {} ==> Accounted(was, used, pos, leaves - {k})
  {
    DropOwner(leaves, k);
  }

  lemma FramesBelow(w: seq<Row>, used: seq<bool>, at: map<Node, nat>, pos: map<nat, Node>, leaves: map<Node, Entry>,
                    kernelRoot: nat)
    requires Wf(w, used, at, pos, leaves, kernelRoot)
    ensures forall k | k in leaves :: leaves[k].frame < |used|
  {
  }

  lemma FreshSameBytes(leaves: map<Node, Entry>, mem: seq<Content>, f: nat, k: Node, e: Entry)
    requires k !in leaves && OwnersOf(leaves, f) == {} && f < |mem| && forall j | j in leaves :: leaves[j].frame < |mem|
    ensures SameBytes(leaves, mem, leaves[k := e], mem[f := Zeros()])
    ensures SameBytes(leaves, mem, leaves, mem[f := Zeros()])
  {
    forall j | j in leaves ensures leaves[j].frame != f {
      assert j !in OwnersOf(leaves, f);
    }
  }

  lemma AccountedTake(was: seq<bool>, used: seq<bool>, pos: map<nat, Node>, leaves: map<Node, Entry>, f: nat)
    requires Accounted(was, used, pos, leaves) && f < |used| && !used[f]
    ensures Accounted(was, used[f := true][f := false], pos, leaves)
  {
  }

  /** Page tables were put on free frames. */
  lemma AccountedGrown(was: seq<bool>, u1: seq<bool>, u2: seq<bool>, a1: map<Node, nat>, a2: map<Node, nat>,
                       p1: map<nat, Node>, p2: map<nat, Node>, leaves: map<Node, Entry>, f: nat, root: nat)
    requires f < |u1| && Accounted(was, u1[f := false], p1, leaves) && Grown(root, u1, u2, a1, a2, p1, p2)
    ensures Accounted(was, u2[f := false], p2, leaves) && |u2| == |was|
  {
  }

  lemma NoneFree(used: seq<bool>)
    requires forall x | 0 <= x < |used| :: used[x]
    ensures |FreeFrames(used)| <= 1
  {
    assert FreeFrames(used) == {};
  }

  lemma AccountedMapped(was: seq<bool>, used: seq<bool>, pos: map<nat, Node>, leaves: map<Node, Entry>, f: nat, k: Node)
    requires f < |used| && Accounted(was, used[f := false], pos, leaves) && k !in leaves
    ensures Accounted(was, used, pos, leaves[k := HeapEntry(f)])
  {
    AddOwner(leaves, [], k, HeapEntry(f), f);
  }

  lemma OneFree(used: seq<bool>, f: nat)
    requires f < |used| && forall x | 0 <= x < |used| :: used[x]
    ensures |FreeFrames(used[f := false])| <= 1
  {
    assert FreeFrames(used[f := false]) == {f};
  }

  lemma CountedAdd(leaves: map<Node, Entry>, refs: seq<nat>, k: Node, e: Entry)
    requires Counted(leaves, refs) && k !in leaves && OwnersOf(leaves, e.frame) == {} && e.frame < |refs|
    ensures Counted(leaves[k := e], refs) && OwnersOf(leaves[k := e], e.frame) == {k}
  {
    AddOwner(leaves, refs, k, e, e.frame);
  }

  /** The page map gained one zero page on a frame of its own. */
  ghost predicate Added(was: map<Node, Entry>, now: map<Node, Entry>, mem: seq<Content>, k: Node) {
    k in now && now == was[k := now[k]] && now[k] == HeapEntry(now[k].frame) &&
    OwnersOf(was, now[k].frame) == {} && now[k].frame < |mem| && mem[now[k].frame] == Zeros()
  }

  /** Every frame taken since `was` is a page table or mapped. */
  ghost predicate Accounted(was: seq<bool>, used: seq<bool>, pos: map<nat, Node>, leaves: map<Node, Entry>) {
    |was| == |used| && forall f: nat | f < |used| && used[f] && !was[f] :: f in pos || OwnersOf(leaves, f) != {}
  }
}
