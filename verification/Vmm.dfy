/** The virtual memory manager: page tables rewritten in place, word by word. */
module Vmm {
  import opened Bytes
  import opened Frames
  import opened PageTableSpec
  import opened ForkSpec
  import opened TeardownSpec

  const PAGE: nat := 4096
  const KERNEL_HALF_BASE: nat := 0xFFFF_8000_0000_0000
  const USER_LIMIT: nat := 0x8000_0000_0000

  type Content = seq<byte>

  datatype Status = Ok | NotAligned | KernelHalf | NoFrames | AlreadyMapped

  /** The four table indices of a virtual address. */
  function PathOf(virt: nat): (q: Path)
    ensures |q| == 4 && forall k | 0 <= k < 4 :: q[k] < ENTRIES
  {
    [virt / 0x80_0000_0000 % 512, virt / 0x4000_0000 % 512, virt / 0x20_0000 % 512, virt / 0x1000 % 512]
  }

  lemma UserPathOf(virt: nat)
    requires virt < USER_LIMIT
    ensures UserPath(PathOf(virt))
  {
  }

  lemma Digits(a: nat)
    requires a < USER_LIMIT && a % PAGE == 0
    ensures a == (((PathOf(a)[0] * 512 + PathOf(a)[1]) * 512 + PathOf(a)[2]) * 512 + PathOf(a)[3]) * PAGE
  {
    var p0 := a / 0x1000;
    assert a == p0 * PAGE;
    assert a / 0x20_0000 == p0 / 512;
    assert a / 0x4000_0000 == p0 / 512 / 512;
    assert a / 0x80_0000_0000 == p0 / 512 / 512 / 512 < 256;
  }

  /** The guard of `map` rejects the kernel half by comparing with KERNEL_HALF_BASE.  Among the
      64-bit addresses it lets through, exactly the ones with bit 47 clear stay in the lower half. */
  lemma GuardKeepsLowerHalf(virt: nat)
    requires virt < KERNEL_HALF_BASE
    ensures PathOf(virt)[0] < USER_ENTRIES <==> virt / USER_LIMIT % 2 == 0
  {
  }

  /** The first address above the lower half passes the guard and would reach a kernel table. */
  lemma GuardGap()
    ensures USER_LIMIT < KERNEL_HALF_BASE && PathOf(USER_LIMIT)[0] >= USER_ENTRIES
  {
  }

  /** One page became privately writable, every other page kept its entry. */
  ghost predicate Resolved(was: map<Node, Entry>, now: map<Node, Entry>, m: Node) {
    && m in was && m in now && now == was[m := now[m]]
    && now[m].present && now[m].writable && !now[m].cow && now[m].user == was[m].user
    && now[m].noExec == was[m].noExec && OwnersOf(now, now[m].frame) == {m}
  }

  /** Every mapped page reads as it did. */
  ghost predicate SameBytes(was: map<Node, Entry>, m0: seq<Content>, now: map<Node, Entry>, m1: seq<Content>) {
    forall k | k in was ::
      k in now && was[k].frame < |m0| && now[k].frame < |m1| && m1[now[k].frame] == m0[was[k].frame]
  }

  /** A sole owner keeps its frame; any other gets a copy in a frame that was free. */
  ghost predicate KeptOrCopied(was: map<Node, Entry>, m0: seq<Content>, used: seq<bool>,
                               now: map<Node, Entry>, m1: seq<Content>, m: Node) {
    m in was && m in now && was[m].frame < |m0| && now[m].frame < |used| == |m0| &&
    if OwnersOf(was, was[m].frame) == {m} then now[m].frame == was[m].frame && m1 == m0
    else !used[now[m].frame] && m1 == m0[now[m].frame := m0[was[m].frame]]
  }

  lemma MovedIsResolved(was: map<Node, Entry>, m: Node, e: Entry)
    requires m in was && OwnersOf(was, e.frame) == {} && e.present && e.writable && !e.cow
    requires e.user == was[m].user && e.noExec == was[m].noExec
    ensures Resolved(was, was[m := e], m)
  {
    var now := was[m := e];
    forall k | k in now ensures now[k].frame == e.frame <==> k == m {
      assert k !in OwnersOf(was, e.frame);
    }
  }

  lemma MovedSameBytes(was: map<Node, Entry>, m0: seq<Content>, m1: seq<Content>, m: Node, e: Entry)
    requires m in was && OwnersOf(was, e.frame) == {} && e.frame < |m0|
    requires forall k | k in was :: was[k].frame < |m0|
    requires m1 == m0[e.frame := m0[was[m].frame]]
    ensures SameBytes(was, m0, was[m := e], m1)
  {
    forall k | k in was ensures was[k].frame != e.frame {
      assert k !in OwnersOf(was, e.frame);
    }
  }

  class Machine {
    const frames: FrameAllocator
    const words: array<Row>
    const mem: array<Content>
    const kernelRoot: nat
    ghost var at: map<Node, nat>
    ghost var pos: map<nat, Node>
    ghost var leaves: map<Node, Entry>

    ghost predicate Valid()
      reads this, frames, frames.used, frames.refs, words, mem
    {
      && frames.Valid() && words.Length == MAX_FRAMES && mem.Length == MAX_FRAMES
      && Wf(words[..], frames.used[..], at, pos, leaves, kernelRoot)
    }

    ghost predicate Steady()
      reads this, frames, frames.used, frames.refs, words, mem
    {
      Valid() && Counted(leaves, frames.refs[..])
    }

    /** Boot: no user space exists; the kernel's own root table is the only frame named here. */
    constructor (frames: FrameAllocator, kernelRoot: nat)
      requires frames.Valid() && kernelRoot < MAX_FRAMES && frames.used[kernelRoot]
      requires forall f | 0 <= f < MAX_FRAMES :: frames.refs[f] == 0
      ensures Steady() && leaves == map[] && at == map[]
      ensures this.frames == frames && this.kernelRoot == kernelRoot && fresh(words) && fresh(mem)
    {
      this.frames := frames;
      this.kernelRoot := kernelRoot;
      words := new Row[MAX_FRAMES](i => seq(ENTRIES, _ => EMPTY));
      mem := new Content[MAX_FRAMES](i => seq(PAGE, _ => 0));
      at, pos, leaves := map[], map[], map[];
    }

    /** Allocate a zeroed page-table frame. */
    method NewTable() returns (r: Option<nat>)
      requires Valid()
      modifies frames, frames.used, words
      ensures Valid()
      ensures r.None? ==> words[..] == old(words[..]) && frames.used[..] == old(frames.used[..]) &&
                          forall f | 0 <= f < MAX_FRAMES :: frames.used[f]
      ensures r.Some? ==> r.value < MAX_FRAMES && !old(frames.used[r.value]) && Blank(words[r.value]) &&
                          frames.used[..] == old(frames.used[..])[r.value := true] &&
                          words[..] == old(words[..])[r.value := words[r.value]] &&
                          r.value !in pos && r.value != kernelRoot &&
                          forall m | m in leaves :: leaves[m].frame != r.value
    {
      r := frames.Alloc();
      if r.Some? {
        var row := seq(ENTRIES, _ => EMPTY);
        WfTake(words[..], old(frames.used[..]), at, pos, leaves, kernelRoot, r.value, row);
        words[r.value] := row;
      }
    }

    /** Share (not copy) the kernel's upper-half tables with a new root. */
    method ShareKernelHalf(pml4: nat)
      requires words.Length == MAX_FRAMES && pml4 < MAX_FRAMES && kernelRoot < MAX_FRAMES && pml4 != kernelRoot
      requires Blank(words[pml4]) && |words[kernelRoot]| == ENTRIES
      modifies words
      ensures words[..] == old(words[..])[pml4 := words[pml4]] && |words[pml4]| == ENTRIES
      ensures forall j | 0 <= j < USER_ENTRIES :: !words[pml4][j].present
      ensures words[pml4][USER_ENTRIES..] == old(words[kernelRoot])[USER_ENTRIES..]
    {
      for i := USER_ENTRIES to ENTRIES
        invariant words[..] == old(words[..])[pml4 := words[pml4]] && |words[pml4]| == ENTRIES
        invariant words[kernelRoot] == old(words[kernelRoot])
        invariant forall j | 0 <= j < USER_ENTRIES :: !words[pml4][j].present
        invariant forall j | USER_ENTRIES <= j < i :: words[pml4][j] == words[kernelRoot][j]
      {
        words[pml4] := words[pml4][i := words[kernelRoot][i]];
      }
    }

    /** A fresh address space: empty lower half, the kernel's upper half shared. */
    method NewUser() returns (r: Option<nat>)
      requires Valid()
      modifies this`at, this`pos, frames, frames.used, words
      ensures Valid()
      ensures r.None? ==> at == old(at) && forall f | 0 <= f < MAX_FRAMES :: frames.used[f]
      ensures r.Some? ==> r.value < MAX_FRAMES && !old(frames.used[r.value]) && Node(r.value, []) !in old(at) &&
                          at == old(at)[Node(r.value, []) := r.value] &&
                          frames.used[..] == old(frames.used[..])[r.value := true] &&
                          frames.refs[..] == old(frames.refs[..])
      ensures r.Some? ==> NothingUnder(leaves, Node(r.value, [])) && forall i: nat :: Child(Node(r.value, []), i) !in at
      ensures r.Some? ==> |words[r.value]| == ENTRIES && |words[kernelRoot]| == ENTRIES &&
                          words[r.value][USER_ENTRIES..] == words[kernelRoot][USER_ENTRIES..]
    {
      r := NewTable();
      if r.Some? {
        var pml4 := r.value;
        ghost var w := words[..];
        assert |w[kernelRoot]| == ENTRIES;
        ShareKernelHalf(pml4);
        WfLinkRoot(w, frames.used[..], at, pos, leaves, kernelRoot, pml4, words[pml4]);
        at := at[Node(pml4, []) := pml4];
        pos := pos[pml4 := Node(pml4, [])];
      }
    }

    /** Write one word of a last-level table. */
    method SetEntry(ghost n: Node, t: nat, i: nat, e: Entry)
      requires Valid() && n in at && at[n] == t && |n.path| == 3 && i < ENTRIES
      requires e.present ==> IsData(frames.used[..], pos, kernelRoot, e.frame)
      modifies this`leaves, words
      ensures Valid() && leaves == SetLeaf(old(leaves), Child(n, i), e)
      ensures frames.used[..] == old(frames.used[..]) && frames.refs[..] == old(frames.refs[..])
    {
      WfWriteLeaf(words[..], frames.used[..], at, pos, leaves, kernelRoot, n, i, e);
      words[t] := words[t][i := e];
      leaves := SetLeaf(leaves, Child(n, i), e);
    }

    /** Put a new zeroed table under an entry that is not present. */
    method PlantTable(ghost n: Node, t: nat, i: nat) returns (r: Option<nat>)
      requires Valid() && n in at && at[n] == t && |n.path| < 3 && i < Fan(n.path) && Child(n, i) !in at
      modifies this`at, this`pos, frames, frames.used, words
      ensures Valid()
      ensures Grown(n.root, old(frames.used[..]), frames.used[..], old(at), at, old(pos), pos)
      ensures r.None? ==> at == old(at) && pos == old(pos) && words[..] == old(words[..]) &&
                          frames.used[..] == old(frames.used[..]) && forall f | 0 <= f < MAX_FRAMES :: frames.used[f]
      ensures frames.refs[..] == old(frames.refs[..])
      ensures r.Some? ==>
                at == old(at)[Child(n, i) := r.value] && pos == old(pos)[r.value := Child(n, i)] &&
                r.value < MAX_FRAMES && !old(frames.used[r.value]) &&
                frames.used[..] == old(frames.used[..])[r.value := true]
    {
      assert LinkOk(words[..], at, leaves, n, i);
      r := NewTable();
      if r.Some? {
        assert words[t] == old(words[t]);
        GrownOne(old(frames.used[..]), at, pos, Child(n, i), r.value);
        WfLinkTable(words[..], frames.used[..], at, pos, leaves, kernelRoot, n, i, r.value);
        words[t] := words[t][i := DirEntry(r.value)];
        at := at[Child(n, i) := r.value];
        pos := pos[r.value := Child(n, i)];
      }
    }

    /** The step `map` takes at each upper level: follow the entry, or put a new table there. */
    method EnsureTable(ghost n: Node, t: nat, i: nat) returns (r: Option<nat>)
      requires Valid() && n in at && at[n] == t && |n.path| < 3 && i < Fan(n.path)
      modifies this`at, this`pos, frames, frames.used, words
      ensures Valid()
      ensures Grown(n.root, old(frames.used[..]), frames.used[..], old(at), at, old(pos), pos)
      ensures r.None? ==> forall f | 0 <= f < MAX_FRAMES :: frames.used[f]
      ensures r.Some? ==> Child(n, i) in at && at[Child(n, i)] == r.value
    {
      assert LinkOk(words[..], at, leaves, n, i);
      var e := words[t][i];
      if e.present {
        return Some(e.frame);
      }
      r := PlantTable(n, t, i);
    }

    /** The table that holds the leaf entry of path `q`, built down from the root as needed. */
    method BuildPath(root: nat, q: Path) returns (r: Option<nat>)
      requires Valid() && Node(root, []) in at && UserPath(q)
      modifies this`at, this`pos, frames, frames.used, words
      ensures Valid()
      ensures Grown(root, old(frames.used[..]), frames.used[..], old(at), at, old(pos), pos)
      ensures r.None? ==> forall f | 0 <= f < MAX_FRAMES :: frames.used[f]
      ensures r.Some? ==> Node(root, [q[0], q[1], q[2]]) in at && at[Node(root, [q[0], q[1], q[2]])] == r.value
    {
      PathNodes(root, q);
      ghost var u0, a0, p0 := frames.used[..], at, pos;
      var t3 := EnsureTable(Node(root, []), root, q[0]);
      if t3.None? {
        return None;
      }
      ghost var u1, a1, p1 := frames.used[..], at, pos;
      var t2 := EnsureTable(Node(root, [q[0]]), t3.value, q[1]);
      GrownTrans(root, u0, u1, frames.used[..], a0, a1, at, p0, p1, pos);
      if t2.None? {
        return None;
      }
      ghost var u2, a2, p2 := frames.used[..], at, pos;
      r := EnsureTable(Node(root, [q[0], q[1]]), t2.value, q[2]);
      GrownTrans(root, u0, u2, frames.used[..], a0, a2, at, p0, p2, pos);
    }

    /** The last step of `map`: refuse a present entry, fill an empty one. */
    method FillEntry(ghost n: Node, t: nat, i: nat, e: Entry) returns (filled: bool)
      requires Valid() && n in at && at[n] == t && |n.path| == 3 && i < ENTRIES
      requires e.present && IsData(frames.used[..], pos, kernelRoot, e.frame)
      modifies this`leaves, words
      ensures Valid() && frames.used[..] == old(frames.used[..]) && filled == (Child(n, i) !in old(leaves))
      ensures filled ==> leaves == old(leaves)[Child(n, i) := e]
      ensures !filled ==> leaves == old(leaves)
    {
      assert LinkOk(words[..], at, leaves, n, i);
      if words[t][i].present {
        return false;
      }
      SetEntry(n, t, i, e);
      return true;
    }

    /** `map` below the address checks. */
    method MapPath(root: nat, q: Path, e: Entry) returns (status: Status)
      requires Valid() && Node(root, []) in at && UserPath(q)
      requires e.present && IsData(frames.used[..], pos, kernelRoot, e.frame)
      modifies this`at, this`pos, this`leaves, frames, frames.used, words
      ensures Valid() && (status == NoFrames || status == AlreadyMapped || status == Ok)
      ensures status == NoFrames ==> forall f | 0 <= f < MAX_FRAMES :: frames.used[f]
      ensures status == AlreadyMapped ==> Node(root, q) in leaves
      ensures status == Ok ==> Node(root, q) !in old(leaves) && leaves == old(leaves)[Node(root, q) := e]
      ensures status != Ok ==> leaves == old(leaves)
      ensures Grown(root, old(frames.used[..]), frames.used[..], old(at), at, old(pos), pos)
    {
      var t := BuildPath(root, q);
      if t.None? {
        return NoFrames;
      }
      PathNodes(root, q);
      assert IsData(frames.used[..], pos, kernelRoot, e.frame);
      ghost var n := Node(root, [q[0], q[1], q[2]]);
      assert Child(n, q[3]) == Node(root, q);
      var filled := FillEntry(n, t.value, q[3], e);
      if filled {
        return Ok;
      }
      return AlreadyMapped;
    }

    /** Map one page.  Success adds exactly one page to the map; every refusal leaves it alone. */
    method Map(root: nat, virt: nat, e: Entry) returns (status: Status)
      requires Valid() && Node(root, []) in at && (virt < USER_LIMIT || virt >= KERNEL_HALF_BASE)
      requires e.present && IsData(frames.used[..], pos, kernelRoot, e.frame)
      modifies this`at, this`pos, this`leaves, frames, frames.used, words
      ensures Valid()
      ensures status == NotAligned <==> virt % PAGE != 0
      ensures status == KernelHalf <==> virt % PAGE == 0 && virt >= KERNEL_HALF_BASE
      ensures status == NoFrames ==> forall f | 0 <= f < MAX_FRAMES :: frames.used[f]
      ensures status == AlreadyMapped ==> Node(root, PathOf(virt)) in leaves
      ensures status == Ok ==>
                Node(root, PathOf(virt)) !in old(leaves) && leaves == old(leaves)[Node(root, PathOf(virt)) := e]
      ensures status != Ok ==> leaves == old(leaves)
      ensures Grown(root, old(frames.used[..]), frames.used[..], old(at), at, old(pos), pos)
    {
      if virt % PAGE != 0 {
        return NotAligned;
      }
      if virt >= KERNEL_HALF_BASE {
        return KernelHalf;
      }
      UserPathOf(virt);
      status := MapPath(root, PathOf(virt), e);
    }

    /** Virtual to physical frame, by walking the tables. */
    method Translate(root: nat, virt: nat) returns (r: Option<nat>)
      requires Valid() && Node(root, []) in at && virt < USER_LIMIT
      ensures r == if Node(root, PathOf(virt)) in leaves then Some(leaves[Node(root, PathOf(virt))].frame) else None
    {
      var q := PathOf(virt);
      UserPathOf(virt);
      WalkIsLookup(words[..], at, pos, leaves, root, q);
      PathNodes(root, q);
      MappedHasTables(words[..], at, pos, leaves, root, q);
      assert LinkOk(words[..], at, leaves, Node(root, []), q[0]);
      var e := words[root][q[0]];
      if !e.present {
        return None;
      }
      assert LinkOk(words[..], at, leaves, Node(root, [q[0]]), q[1]);
      e := words[e.frame][q[1]];
      if !e.present {
        return None;
      }
      if e.huge {
        return Some(e.frame);
      }
      assert LinkOk(words[..], at, leaves, Node(root, [q[0], q[1]]), q[2]);
      e := words[e.frame][q[2]];
      if !e.present {
        return None;
      }
      if e.huge {
        return Some(e.frame);
      }
      assert LinkOk(words[..], at, leaves, Node(root, [q[0], q[1], q[2]]), q[3]);
      e := words[e.frame][q[3]];
      if !e.present {
        return None;
      }
      return Some(e.frame);
    }

    /** The leaf table of a page, if every level above it is there. */
    method WalkLeaf(root: nat, virt: nat) returns (r: Option<nat>)
      requires Valid() && Node(root, []) in at && virt < USER_LIMIT
      ensures var n := Node(root, PathOf(virt)[..3]);
        r == if n in at then Some(at[n]) else None
      ensures r.None? ==> Node(root, PathOf(virt)) !in leaves
    {
      var q := PathOf(virt);
      UserPathOf(virt);
      PathNodes(root, q);
      MappedHasTables(words[..], at, pos, leaves, root, q);
      assert q[..3] == [q[0], q[1], q[2]];
      assert LinkOk(words[..], at, leaves, Node(root, []), q[0]);
      var e := words[root][q[0]];
      if !e.present {
        return None;
      }
      assert LinkOk(words[..], at, leaves, Node(root, [q[0]]), q[1]);
      e := words[e.frame][q[1]];
      if !e.present || e.huge {
        return None;
      }
      assert LinkOk(words[..], at, leaves, Node(root, [q[0], q[1]]), q[2]);
      e := words[e.frame][q[2]];
      if !e.present || e.huge {
        return None;
      }
      return Some(e.frame);
    }

    /** Unmap one page, returning the frame it pointed at. */
    method Unmap(root: nat, virt: nat) returns (r: Option<nat>)
      requires Valid() && Node(root, []) in at && virt < USER_LIMIT
      modifies this`leaves, words
      ensures Valid()
      ensures var m := Node(root, PathOf(virt));
        && r == (if m in old(leaves) then Some(old(leaves)[m].frame) else None)
        && leaves == old(leaves) - {m}
    {
      var q := PathOf(virt);
      UserPathOf(virt);
      PathNodes(root, q);
      var t := WalkLeaf(root, virt);
      assert q[..3] == [q[0], q[1], q[2]];
      if t.None? {
        assert leaves == leaves - {Node(root, q)};
        return None;
      }
      ghost var n := Node(root, [q[0], q[1], q[2]]);
      assert LinkOk(words[..], at, leaves, n, q[3]);
      var e := words[t.value][q[3]];
      if !e.present {
        assert leaves == leaves - {Node(root, q)};
        return None;
      }
      SetEntry(n, t.value, q[3], EMPTY);
      return Some(e.frame);
    }
 
    // --- fork -------------------------------------------------------------------

    method RaiseCount(f: nat)
      requires Valid() && f < MAX_FRAMES
      modifies frames.refs
      ensures Valid() && frames.refs[..] == old(frames.refs[..])[f := old(frames.refs[f]) + 1]
    {
      ghost var w, u := words[..], frames.used[..];
      frames.AddRef(f);
      assert words[..] == w && frames.used[..] == u;
    }

    /** Both entries of one leaf of fork_cow. */
    method WriteBoth(ghost src: Node, s: nat, ghost dst: Node, d: nat, i: nat)
      requires Valid() && src in at && at[src] == s && dst in at && at[dst] == d
      requires |src.path| == 3 && dst.path == src.path && src.root != dst.root && i < ENTRIES
      requires Child(src, i) in leaves && words[s][i] == leaves[Child(src, i)]
      requires IsData(frames.used[..], pos, kernelRoot, words[s][i].frame)
      modifies this`leaves, words
      ensures Valid() && frames.refs[..] == old(frames.refs[..])
      ensures var e := Downgrade(old(leaves)[Child(src, i)]);
              leaves == old(leaves)[Child(src, i) := e][Child(dst, i) := e]
    {
      var e := words[s][i];
      if e.user && e.writable {
        SetEntry(src, s, i, e.(writable := false, cow := true));
        SetEntry(dst, d, i, e.(writable := false, cow := true));
      } else {
        assert leaves == leaves[Child(src, i) := e];
        SetEntry(dst, d, i, e);
      }
    }

    /** A present entry of a leaf table is a page, of a frame no table uses. */
    lemma LeafThere(n: Node, t: nat, i: nat)
      requires Valid() && n in at && at[n] == t && |n.path| == 3 && i < ENTRIES && words[t][i].present
      ensures t < words.Length && i < |words[t]| && Child(n, i) in leaves && leaves[Child(n, i)] == words[t][i]
      ensures IsData(frames.used[..], pos, kernelRoot, words[t][i].frame)
    {
      assert LinkOk(words[..], at, leaves, n, i);
    }

    lemma DowngradeKeepsFrame(e: Entry)
      ensures Downgrade(e).frame == e.frame
    {
    }

    /** One leaf of fork_cow: downgrade a page ring 3 can write in both spaces, share any other as it is. */
    method ShareLeaf(ghost src: Node, s: nat, ghost dst: Node, d: nat, i: nat)
      requires Steady() && src in at && at[src] == s && dst in at && at[dst] == d
      requires |src.path| == 3 && dst.path == src.path && src.root != dst.root && i < ENTRIES
      requires words[s][i].present && Child(dst, i) !in leaves
      modifies this`leaves, words, frames.refs
      ensures Steady() && Child(src, i) in old(leaves)
      ensures var e := Downgrade(old(leaves)[Child(src, i)]);
              leaves == old(leaves)[Child(src, i) := e][Child(dst, i) := e]
    {
      hide Wf, Counted, Downgrade, IsData;
      LeafThere(src, s, i);
      var e := words[s][i];
      DowngradeKeepsFrame(e);
      CountedFork(leaves, frames.refs[..], Child(src, i), Child(dst, i), Downgrade(e));
      WriteBoth(src, s, dst, d, i);
      RaiseCount(e.frame);
    }

    /** Index `i` of one table of fork_cow: skip, share a page, or build a child table and go down. */
    method ShareEntry(ghost src: Node, s: nat, ghost dst: Node, d: nat, level: nat, i: nat) returns (ok: bool)
      requires Steady() && src in at && at[src] == s && dst in at && at[dst] == d
      requires level + |src.path| == 3 && dst.path == src.path && src.root != dst.root && i < Fan(src.path)
      requires NothingUnder(leaves, Child(dst, i)) && Child(dst, i) !in at
      modifies this`at, this`pos, this`leaves, frames, frames.used, frames.refs, words
      ensures Steady()
      ensures Grown(dst.root, old(frames.used[..]), frames.used[..], old(at), at, old(pos), pos)
      ensures forall n | n in at && n !in old(at) :: Under(Child(dst, i), n)
      ensures ok ==> IsShared(old(leaves), leaves, src.root, dst.root, src.path + [i])
      ensures !ok ==> IsPartlyShared(old(leaves), leaves, src.root, dst.root, src.path + [i])
      ensures !ok ==> forall f | 0 <= f < MAX_FRAMES :: frames.used[f]
      decreases level, 1
    {
      ghost var was := leaves;
      assert LinkOk(words[..], at, leaves, src, i);
      var e := words[s][i];
      if !e.present || ((level == 1 || level == 2) && e.huge) {
        NoEntryBelow(src, i);
        SharedNothing(was, src.root, dst.root, src.path + [i]);
        return true;
      }
      if level == 0 {
        ShareLeaf(src, s, dst, d, i);
        SharedPage(was, src.root, dst.root, src.path + [i], was[Child(src, i)]);
        return true;
      }
      ok := ShareSubtree(src, i, e.frame, dst, d, level);
    }

    method ShareSubtree(ghost src: Node, i: nat, sc: nat, ghost dst: Node, d: nat, level: nat) returns (ok: bool)
      requires Steady() && Child(src, i) in at && at[Child(src, i)] == sc && dst in at && at[dst] == d
      requires level > 0 && level + |src.path| == 3 && dst.path == src.path && src.root != dst.root
      requires i < Fan(src.path) && NothingUnder(leaves, Child(dst, i)) && Child(dst, i) !in at
      modifies this`at, this`pos, this`leaves, frames, frames.used, frames.refs, words
      ensures Steady()
      ensures Grown(dst.root, old(frames.used[..]), frames.used[..], old(at), at, old(pos), pos)
      ensures forall n | n in at && n !in old(at) :: Under(Child(dst, i), n)
      ensures ok ==> IsShared(old(leaves), leaves, src.root, dst.root, src.path + [i])
      ensures !ok ==> IsPartlyShared(old(leaves), leaves, src.root, dst.root, src.path + [i])
      ensures !ok ==> forall f | 0 <= f < MAX_FRAMES :: frames.used[f]
      decreases level, 0
    {
      PartlyNothing(leaves, src.root, dst.root, src.path + [i]);
      ghost var a0, u0, p0 := at, frames.used[..], pos;
      var c := PlantTable(dst, d, i);
      if c.None? {
        return false;
      }
      ghost var a1, u1, p1 := at, frames.used[..], pos;
      ok := ShareTable(Child(src, i), sc, Child(dst, i), c.value, level - 1);
      GrownTrans(dst.root, u0, u1, frames.used[..], a0, a1, at, p0, p1, pos);
    }

    lemma NoEntryBelow(n: Node, i: nat)
      requires Valid() && n in at && i < Fan(n.path) && !words[at[n]][i].present
      ensures NothingUnder(leaves, Child(n, i))
    {
      assert LinkOk(words[..], at, leaves, n, i);
      if |n.path| < 3 {
        NothingBelow(words[..], at, pos, leaves, Child(n, i));
      } else {
        forall k | k in leaves ensures !Under(Child(n, i), k) {
          assert Under(Child(n, i), k) ==> k.path == n.path + [i];
        }
      }
    }

    /** fork_cow below one table: walk its entries; a last-level entry is shared, a link gets a table of its own in
        the child and the walk goes on below it.  A table that cannot be had abandons those built so far. */
    method ShareTable(ghost src: Node, s: nat, ghost dst: Node, d: nat, level: nat) returns (ok: bool)
      requires Steady() && src in at && at[src] == s && dst in at && at[dst] == d
      requires level + |src.path| == 3 && dst.path == src.path && src.root != dst.root
      requires NothingUnder(leaves, dst) && forall i: nat :: Child(dst, i) !in at
      modifies this`at, this`pos, this`leaves, frames, frames.used, frames.refs, words
      ensures Steady()
      ensures Grown(dst.root, old(frames.used[..]), frames.used[..], old(at), at, old(pos), pos)
      ensures forall n | n in at && n !in old(at) :: Under(dst, n)
      ensures ok ==> IsShared(old(leaves), leaves, src.root, dst.root, src.path)
      ensures !ok ==> IsPartlyShared(old(leaves), leaves, src.root, dst.root, src.path)
      ensures !ok ==> forall f | 0 <= f < MAX_FRAMES :: frames.used[f]
      decreases level, 2
    {
      ghost var was, a0, u0, p0 := leaves, at, frames.used[..], pos;
      SharedNone(was, src.root, dst.root, src.path);
      IndicesInRange(src.path);
      var fan := if level == 3 then USER_ENTRIES else ENTRIES;
      for i := 0 to fan
        invariant Steady() && src in at && at[src] == s && dst in at && at[dst] == d
        invariant Grown(dst.root, u0, frames.used[..], a0, at, p0, pos)
        invariant forall n | n in at && n !in a0 :: Under(dst, n) && |n.path| > |dst.path| && n.path[|dst.path|] < i
        invariant IsSharedUpTo(was, leaves, src.root, dst.root, src.path, i)
      {
        ghost var mid, a1, u1, p1 := leaves, at, frames.used[..], pos;
        ChildStillEmpty(was, mid, src.root, dst.root, src.path, i);
        assert Child(dst, i) !in at by {
          UnderChild(dst, i, Child(dst, i));
        }
        ok := ShareEntry(src, s, dst, d, level, i);
        GrownTrans(dst.root, u0, u1, frames.used[..], a0, a1, at, p0, p1, pos);
        forall n | n in at && n !in a0 ensures Under(dst, n) && |n.path| > |dst.path| && n.path[|dst.path|] < i + 1 {
          UnderChild(dst, i, n);
        }
        if !ok {
          PartlyStep(was, mid, leaves, src.root, dst.root, src.path, i);
          return;
        }
        SharedStep(was, mid, leaves, src.root, dst.root, src.path, i);
      }
      SharedAll(was, leaves, src.root, dst.root, src.path, fan);
      return true;
    }

    lemma IndicesInRange(p: Path)
      requires Valid() && |p| <= 3
      ensures forall k | k in leaves && p <= k.path :: Before(p, Fan(p), k)
    {
      forall k | k in leaves && p <= k.path ensures Before(p, Fan(p), k) {
        LeafTables(words[..], at, pos, leaves, k, |p|);
        assert k.path[..|p|] == p;
      }
    }
 
    /** fork: clone the lower half by sharing every frame.  On failure the child's tables stay behind,
        with their shares counted. */
    method ForkCow(root: nat) returns (r: Option<nat>, ghost child: nat)
      requires Steady() && Node(root, []) in at
      modifies this`at, this`pos, this`leaves, frames, frames.used, frames.refs, words
      ensures Steady()
      ensures r.Some? ==> r.value == child && Node(child, []) in at
      ensures r.Some? ==> IsShared(old(leaves), leaves, root, child, []) && Node(child, []) !in old(at)
      ensures r.None? ==> leaves == old(leaves) || IsPartlyShared(old(leaves), leaves, root, child, [])
      ensures r.None? ==> forall f | 0 <= f < MAX_FRAMES :: frames.used[f]
      ensures forall n | n in old(at) :: n in at && at[n] == old(at)[n]
    {
      child := 0;
      r := NewUser();
      if r.None? {
        return;
      }
      child := r.value;
      ghost var dst, a1 := Node(child, []), at;
      assert forall n | n in old(at) :: n in a1 && a1[n] == old(at)[n];
      var ok := ShareTable(Node(root, []), root, dst, r.value, 3);
      assert forall n | n in a1 :: n in at && at[n] == a1[n];
      if !ok {
        r := None;
      }
    }

    // --- teardown ---------------------------------------------------------------

    /** The tables are still whole, only counts and bitmap are moving. */
    ghost predicate Standing()
      reads this, frames, frames.used, frames.refs, words, mem
    {
      && frames.Valid() && words.Length == MAX_FRAMES && mem.Length == MAX_FRAMES
      && Tree(words[..], at, pos, leaves)
      && (forall m | m in leaves :: leaves[m].frame < MAX_FRAMES)
      && (forall t | t in pos :: t < MAX_FRAMES)
    }

    ghost predicate Tearing(was: seq<bool>, owned: map<Node, Entry>, gone: set<nat>)
      reads this, frames, frames.used, frames.refs, words, mem
    {
      Standing() && Counted(owned, frames.refs[..]) && UsedWhile(was, frames.used[..], leaves, owned, gone) &&
      |was| == MAX_FRAMES
    }

    /** free_all, one page: release its frame. */
    method ReleasePage(ghost was: seq<bool>, ghost owned: map<Node, Entry>, ghost gone: set<nat>, ghost k: Node, f: nat)
      requires Tearing(was, owned, gone) && k in owned && k in leaves && owned[k] == leaves[k] && leaves[k].frame == f
      modifies frames.used, frames.refs
      ensures Tearing(was, owned - {k}, gone)
    {
      ReleaseStep(was, frames.used[..], frames.refs[..], leaves, owned, gone, k);
      ghost var w := words[..];
      var freed := frames.Release(f);
      assert words[..] == w;
    }

    method FreeTableFrame(ghost was: seq<bool>, ghost owned: map<Node, Entry>, ghost gone: set<nat>, f: nat)
      requires Tearing(was, owned, gone) && f < MAX_FRAMES
      modifies frames.used
      ensures Tearing(was, owned, gone + {f})
    {
      FreeTableStep(was, frames.used[..], leaves, owned, gone, f);
      ghost var w, r := words[..], frames.refs[..];
      frames.Free(f);
      assert words[..] == w && frames.refs[..] == r;
    }

    /** free_all below one table: release every page, free every table under it (not the table itself). */
    method FreeTable(ghost n: Node, t: nat, level: nat, ghost was: seq<bool>, ghost owned0: map<Node, Entry>,
                     ghost gone0: set<nat>) returns (freed: nat, ghost owned: map<Node, Entry>, ghost gone: set<nat>)
      requires Tearing(was, owned0, gone0) && n in at && at[n] == t && level + |n.path| == 3
      requires forall k | k in owned0 :: k in leaves && owned0[k] == leaves[k]
      requires forall k | k in leaves && Under(n, k) :: k in owned0
      modifies frames.used, frames.refs
      ensures Tearing(was, owned, gone)
      ensures PagesGone(owned0, owned, n, Fan(n.path)) && TablesGone(pos, gone0, gone, n, Fan(n.path))
      ensures freed == |owned0| - |owned|
      decreases level, 2
    {
      freed, owned, gone := 0, owned0, gone0;
      var fan := if level == 3 then USER_ENTRIES else ENTRIES;
      for i := 0 to fan
        invariant Tearing(was, owned, gone)
        invariant PagesGone(owned0, owned, n, i) && TablesGone(pos, gone0, gone, n, i)
        invariant freed == |owned0| - |owned|
      {
        var more;
        more, owned, gone := FreeEntry(n, t, level, i, was, owned0, owned, gone0, gone);
        freed := freed + more;
      }
    }
 
    method FreeEntry(ghost n: Node, t: nat, level: nat, i: nat, ghost was: seq<bool>, ghost owned0: map<Node, Entry>,
                     ghost mid: map<Node, Entry>, ghost gone0: set<nat>, ghost goneMid: set<nat>)
      returns (freed: nat, ghost owned: map<Node, Entry>, ghost gone: set<nat>)
      requires Tearing(was, mid, goneMid) && n in at && at[n] == t && level + |n.path| == 3 && i < Fan(n.path)
      requires forall k | k in owned0 :: k in leaves && owned0[k] == leaves[k]
      requires forall k | k in leaves && Under(n, k) :: k in owned0
      requires PagesGone(owned0, mid, n, i) && TablesGone(pos, gone0, goneMid, n, i)
      modifies frames.used, frames.refs
      ensures Tearing(was, owned, gone)
      ensures PagesGone(owned0, owned, n, i + 1) && TablesGone(pos, gone0, gone, n, i + 1)
      ensures freed == |mid| - |owned|
      decreases level, 1
    {
      assert LinkOk(words[..], at, leaves, n, i);
      StillOwned(n, i, owned0, mid);
      var e := words[t][i];
      if !e.present || ((level == 1 || level == 2) && e.huge) {
        NothingToFree(n, i);
        PagesGoneLeaf(owned0, mid, mid, n, i);
        TablesGoneSkip(pos, gone0, goneMid, n, i);
        return 0, mid, goneMid;
      }
      if level == 0 {
        owned, gone := FreeLeaf(n, i, e.frame, was, owned0, mid, gone0, goneMid);
        freed := 1;
      } else {
        freed, owned, gone := FreeSubtree(n, i, e.frame, level, was, owned0, mid, gone0, goneMid);
      }
    }

    lemma StillOwned(n: Node, i: nat, owned0: map<Node, Entry>, mid: map<Node, Entry>)
      requires PagesGone(owned0, mid, n, i) && forall k | k in leaves && Under(n, k) :: k in owned0
      ensures forall k | k in leaves && Under(Child(n, i), k) :: k in mid
    {
      forall k | k in leaves && Under(Child(n, i), k) ensures k in mid {
        UnderChild(n, i, k);
      }
    }

    method FreeLeaf(ghost n: Node, ghost i: nat, f: nat, ghost was: seq<bool>, ghost owned0: map<Node, Entry>,
                    ghost mid: map<Node, Entry>, ghost gone0: set<nat>, ghost goneMid: set<nat>)
      returns (ghost owned: map<Node, Entry>, ghost gone: set<nat>)
      requires Tearing(was, mid, goneMid) && n in at && |n.path| == 3
      requires forall k | k in owned0 :: k in leaves && owned0[k] == leaves[k]
      requires Child(n, i) in mid && Child(n, i) in leaves && leaves[Child(n, i)].frame == f
      requires PagesGone(owned0, mid, n, i) && TablesGone(pos, gone0, goneMid, n, i)
      modifies frames.used, frames.refs
      ensures Tearing(was, owned, gone)
      ensures PagesGone(owned0, owned, n, i + 1) && TablesGone(pos, gone0, gone, n, i + 1)
      ensures |owned| == |mid| - 1
    {
      ghost var c := Child(n, i);
      ReleasePage(was, mid, goneMid, c, f);
      owned, gone := mid - {c}, goneMid;
      assert mid.Keys == owned.Keys + {c};
      NoTableThere(n, i);
      forall k | k in owned ensures !Under(c, k) {
        assert |k.path| == 4 && |c.path| == 4;
        assert c.path <= k.path <==> c.path == k.path;
      }
      PagesGoneLeaf(owned0, mid, owned, n, i);
      TablesGoneSkip(pos, gone0, gone, n, i);
    }

    method FreeSubtree(ghost n: Node, ghost i: nat, c: nat, level: nat, ghost was: seq<bool>,
                       ghost owned0: map<Node, Entry>, ghost mid: map<Node, Entry>, ghost gone0: set<nat>,
                       ghost goneMid: set<nat>)
      returns (freed: nat, ghost owned: map<Node, Entry>, ghost gone: set<nat>)
      requires Tearing(was, mid, goneMid) && level > 0 && level + |n.path| == 3
      requires Child(n, i) in at && at[Child(n, i)] == c
      requires forall k | k in owned0 :: k in leaves && owned0[k] == leaves[k]
      requires forall k | k in leaves && Under(Child(n, i), k) :: k in mid
      requires PagesGone(owned0, mid, n, i) && TablesGone(pos, gone0, goneMid, n, i)
      modifies frames.used, frames.refs
      ensures Tearing(was, owned, gone)
      ensures PagesGone(owned0, owned, n, i + 1) && TablesGone(pos, gone0, gone, n, i + 1)
      ensures freed == |mid| - |owned|
      decreases level, 0
    {
      ghost var m := Child(n, i);
      IndicesBelow(m);
      freed, owned, gone := FreeTable(m, c, level - 1, was, mid, goneMid);
      FreeTableFrame(was, owned, gone, c);
      PagesGoneStep(owned0, mid, owned, n, i, Fan(m.path));
      TablesGoneStep(pos, gone0, goneMid, gone, n, i, Fan(m.path), c);
      gone := gone + {c};
    }

    lemma NothingToFree(n: Node, i: nat)
      requires Standing() && n in at && i < Fan(n.path) && !words[at[n]][i].present
      ensures NothingUnder(leaves, Child(n, i)) && forall f | f in pos :: !Under(Child(n, i), pos[f])
    {
      assert LinkOk(words[..], at, leaves, n, i);
      if |n.path| < 3 {
        NothingBelow(words[..], at, pos, leaves, Child(n, i));
      } else {
        forall k | k in leaves ensures !Under(Child(n, i), k) {
          assert Under(Child(n, i), k) ==> k.path == n.path + [i];
        }
      }
      NoTableThere(n, i);
    }

    lemma NoTableThere(n: Node, i: nat)
      requires Standing() && (Child(n, i) !in at || |n.path| == 3)
      ensures forall f | f in pos :: !Under(Child(n, i), pos[f])
    {
      assert |Child(n, i).path| == |n.path| + 1;
      NoTablesBelow(words[..], at, Child(n, i));
      forall f | f in pos ensures pos[f] in at {}
    }

    lemma IndicesBelow(c: Node)
      requires Standing() && c in at
      ensures forall k | k in leaves && Under(c, k) :: Before(c.path, Fan(c.path), k)
      ensures forall f | f in pos && Under(c, pos[f]) && f != at[c] :: Before(c.path, Fan(c.path), pos[f])
      ensures forall f, g | f in pos && g in pos && pos[f] == pos[g] :: f == g
    {
      forall k | k in leaves && Under(c, k) ensures Before(c.path, Fan(c.path), k) {
        LeafTables(words[..], at, pos, leaves, k, |c.path|);
        assert k.path[..|c.path|] == c.path;
      }
      forall f | f in pos && Under(c, pos[f]) && f != at[c] ensures Before(c.path, Fan(c.path), pos[f]) {
        var k := pos[f];
        assert k in at && at[k] == f;
        assert |k.path| == |c.path| ==> k.path == c.path;
        TableTables(words[..], at, k, |c.path|);
        assert k.path[..|c.path|] == c.path;
      }
    }
 
    /** free_all: release every page, free every table, and the root unless it is to be leaked. */
    method FreeAll(root: nat, keepRoot: bool) returns (freed: nat, ghost owned: map<Node, Entry>)
      requires Steady() && Node(root, []) in at
      modifies frames.used, frames.refs
      ensures frames.Valid() && words[..] == old(words[..]) && Counted(owned, frames.refs[..])
      ensures freed + |owned| == |leaves|
      ensures owned == PagesWithout(leaves, root)
      ensures UsedAfter(old(frames.used[..]), frames.used[..], pos, leaves, root, keepRoot)
      ensures Wf(words[..], frames.used[..], TablesWithout(at, root), PlacesWithout(pos, root), owned, kernelRoot)
    {
      ghost var was, n := frames.used[..], Node(root, []);
      ghost var gone;
      PagesGoneStart(leaves, n);
      freed, owned, gone := FreeTable(n, root, 3, was, leaves, {});
      assert freed + |owned| == |leaves|;
      ghost var below := gone;
      if !keepRoot {
        FreeTableFrame(was, owned, gone, root);
        gone := gone + {root};
      }
      assert TablesGone(pos, {}, below, n, USER_ENTRIES);
      Finish(was, owned, gone, root, keepRoot);
    }

    /** destroy (keepRoot false) and destroy_keep_root: give back every table and page share of a space. */
    method Destroy(root: nat, keepRoot: bool) returns (freed: nat)
      requires Steady() && Node(root, []) in at
      modifies this`at, this`pos, this`leaves, frames.used, frames.refs
      ensures Steady()
      ensures leaves == PagesWithout(old(leaves), root) && at == TablesWithout(old(at), root)
      ensures UsedAfter(old(frames.used[..]), frames.used[..], old(pos), old(leaves), root, keepRoot)
      ensures freed + |leaves| == |old(leaves)|
    {
      ghost var owned;
      freed, owned := FreeAll(root, keepRoot);
      ghost var w, u, r := words[..], frames.used[..], frames.refs[..];
      ghost var p := PlacesWithout(pos, root);
      ghost var a := TablesWithout(at, root);
      leaves, pos, at := owned, p, a;
      assert words[..] == w && frames.used[..] == u && frames.refs[..] == r;
    }

    /** What is left after a teardown is a well-formed machine without the space. */
    lemma Finish(was: seq<bool>, owned: map<Node, Entry>, gone: set<nat>, root: nat, keepRoot: bool)
      requires Tearing(was, owned, gone) && Wf(words[..], was, at, pos, leaves, kernelRoot) && Node(root, []) in at
      requires PagesGone(leaves, owned, Node(root, []), USER_ENTRIES)
      requires exists below: set<nat> :: TablesGone(pos, {}, below, Node(root, []), USER_ENTRIES) &&
                                         gone == if keepRoot then below else below + {root}
      ensures owned == PagesWithout(leaves, root)
      ensures UsedAfter(was, frames.used[..], pos, leaves, root, keepRoot)
      ensures Wf(words[..], frames.used[..], TablesWithout(at, root), PlacesWithout(pos, root), owned, kernelRoot)
    {
      OwnedLeft(owned, root);
      TablesLeft(gone, root, keepRoot);
      WithoutRoot(words[..], was, at, pos, leaves, kernelRoot, root);
      GoneUnmapped(was, gone, root, keepRoot);
      WfShrink(words[..], was, frames.used[..], TablesWithout(at, root), PlacesWithout(pos, root), owned, kernelRoot,
               leaves, gone);
    }

    lemma OwnedLeft(owned: map<Node, Entry>, root: nat)
      requires Standing() && Node(root, []) in at && PagesGone(leaves, owned, Node(root, []), USER_ENTRIES)
      ensures owned == PagesWithout(leaves, root)
    {
      IndicesBelow(Node(root, []));
      forall k | k in leaves ensures k in owned <==> k.root != root {
        assert Under(Node(root, []), k) <==> k.root == root;
      }
    }

    lemma TablesLeft(gone: set<nat>, root: nat, keepRoot: bool)
      requires Standing() && Node(root, []) in at
      requires forall f :: f in gone <==>
                 (f in pos && BeforeIn(Node(root, []), USER_ENTRIES, pos[f])) || (f == root && !keepRoot)
      ensures forall f :: f in gone <==> Returned(pos, root, keepRoot, f)
    {
      var n := Node(root, []);
      IndicesBelow(n);
      assert at[n] == root && pos[root] == n;
      forall f | f in pos ensures (pos[f].root == root && f != root) <==> BeforeIn(n, USER_ENTRIES, pos[f]) {
        assert Under(n, pos[f]) <==> pos[f].root == root;
      }
    }

    lemma GoneUnmapped(was: seq<bool>, gone: set<nat>, root: nat, keepRoot: bool)
      requires Wf(words[..], was, at, pos, leaves, kernelRoot)
      requires forall f :: f in gone <==> Returned(pos, root, keepRoot, f)
      ensures forall f | f in gone ::
                f !in PlacesWithout(pos, root) && f != kernelRoot && OwnersOf(PagesWithout(leaves, root), f) == {}
      ensures forall k | k in leaves :: leaves[k].frame !in PlacesWithout(pos, root) && leaves[k].frame != kernelRoot
    {
      forall f | f in gone ensures OwnersOf(PagesWithout(leaves, root), f) == {} {
        forall k | k in leaves ensures leaves[k].frame != f {}
      }
    }
 
    // --- copy-on-write faults -------------------------------------------------------

    /** What cow_resolve answers: a present COW page, and a frame to copy to if the page is shared. */
    ghost predicate Resolvable(m: Node)
      requires Valid()
      reads this, frames, frames.used, frames.refs, words, mem
    {
      m in leaves && leaves[m].cow &&
      (OwnersOf(leaves, leaves[m].frame) == {m} || exists f | 0 <= f < MAX_FRAMES :: !frames.used[f])
    }

    /** Resolve a write fault on a COW page.  Afterwards this page is writable and not COW, it is the
        only owner of its frame, and no page of any space reads differently. */
    method CowResolve(root: nat, va: nat) returns (resolved: bool)
      requires Steady() && Node(root, []) in at && va < USER_LIMIT
      modifies this`leaves, words, mem, frames, frames.used, frames.refs
      ensures Steady()
      ensures resolved == old(Resolvable(Node(root, PathOf(va))))
      ensures !resolved ==> leaves == old(leaves) && mem[..] == old(mem[..])
      ensures resolved ==> Resolved(old(leaves), leaves, Node(root, PathOf(va)))
      ensures resolved ==> SameBytes(old(leaves), old(mem[..]), leaves, mem[..])
      ensures resolved ==> KeptOrCopied(old(leaves), old(mem[..]), old(frames.used[..]), leaves, mem[..], Node(root, PathOf(va)))
    {
      var q := PathOf(va);
      UserPathOf(va);
      PathNodes(root, q);
      ghost var n := Node(root, [q[0], q[1], q[2]]);
      assert q[..3] == [q[0], q[1], q[2]];
      var t := WalkLeaf(root, va);
      if t.None? {
        return false;
      }
      assert LinkOk(words[..], at, leaves, n, q[3]);
      var e := words[t.value][q[3]];
      if !e.present || !e.cow {
        return false;
      }
      ZeroIsAlone(leaves, frames.refs[..], Node(root, q));
      var count := frames.RefOf(e.frame);
      if count == 0 {
        assert forall k | k in leaves :: IsData(frames.used[..], pos, kernelRoot, leaves[k].frame);
        RestoreWrite(n, t.value, q[3], e);
        return true;
      }
      resolved := TakeCopy(n, t.value, q[3], e);
    }

    method RestoreWrite(ghost n: Node, t: nat, i: nat, e: Entry)
      requires Steady() && n in at && at[n] == t && |n.path| == 3 && i < ENTRIES
      requires Child(n, i) in leaves && leaves[Child(n, i)] == e && OwnersOf(leaves, e.frame) == {Child(n, i)}
      modifies this`leaves, words
      ensures Steady() && Resolved(old(leaves), leaves, Child(n, i)) && mem[..] == old(mem[..])
      ensures forall k | k in old(leaves) :: k in leaves && leaves[k].frame == old(leaves)[k].frame
    {
      var e' := e.(cow := false, writable := true);
      CountedFlags(leaves, frames.refs[..], Child(n, i), e');
      SameOwnerFlags(leaves, Child(n, i), e');
      SetEntry(n, t, i, e');
    }

    /** The shared case: copy to a new frame, repoint the entry, drop one share of the old frame. */
    method TakeCopy(ghost n: Node, t: nat, i: nat, e: Entry) returns (copied: bool)
      requires Steady() && n in at && at[n] == t && |n.path| == 3 && i < ENTRIES
      requires Child(n, i) in leaves && leaves[Child(n, i)] == e && e.frame < MAX_FRAMES && frames.refs[e.frame] > 0
      modifies this`leaves, words, mem, frames, frames.used, frames.refs
      ensures Steady()
      ensures copied == exists f | 0 <= f < MAX_FRAMES :: !old(frames.used[f])
      ensures !copied ==> leaves == old(leaves) && mem[..] == old(mem[..])
      ensures copied ==> Resolved(old(leaves), leaves, Child(n, i)) && SameBytes(old(leaves), old(mem[..]), leaves, mem[..])
      ensures copied ==> leaves[Child(n, i)].frame < MAX_FRAMES && !old(frames.used[..])[leaves[Child(n, i)].frame]
      ensures copied ==> mem[..] == old(mem[..])[leaves[Child(n, i)].frame := old(mem[..])[e.frame]]
    {
      ghost var was, m := leaves, Child(n, i);
      var newf := TakeDataFrame();
      if newf.None? {
        return false;
      }
      CopyFrame(e.frame, newf.value);
      var e' := e.(frame := newf.value, cow := false, writable := true);
      MovedIsResolved(leaves, m, e');
      MovedSameBytes(leaves, old(mem[..]), mem[..], m, e');
      MovePage(n, t, i, e', e.frame);
      return true;
    }

    method MovePage(ghost n: Node, t: nat, i: nat, e: Entry, f: nat)
      requires Steady() && n in at && at[n] == t && |n.path| == 3 && i < ENTRIES
      requires Child(n, i) in leaves && leaves[Child(n, i)].frame == f < MAX_FRAMES && frames.refs[f] > 0
      requires e.present && IsData(frames.used[..], pos, kernelRoot, e.frame) && OwnersOf(leaves, e.frame) == {}
      modifies this`leaves, words, frames.used, frames.refs
      ensures Steady() && leaves == old(leaves)[Child(n, i) := e] && mem[..] == old(mem[..])
    {
      CountedMove(leaves, frames.refs[..], Child(n, i), e);
      Repoint(n, t, i, e);
      LowerCount(f);
    }

    method Repoint(ghost n: Node, t: nat, i: nat, e: Entry)
      requires Valid() && n in at && at[n] == t && |n.path| == 3 && i < ENTRIES
      requires e.present && IsData(frames.used[..], pos, kernelRoot, e.frame)
      modifies this`leaves, words
      ensures Valid() && leaves == old(leaves)[Child(n, i) := e] && mem[..] == old(mem[..])
      ensures frames.refs[..] == old(frames.refs[..])
    {
      SetEntry(n, t, i, e);
    }

    method CopyFrame(from: nat, to: nat)
      requires Steady() && from < MAX_FRAMES && to < MAX_FRAMES
      modifies mem
      ensures Steady() && mem[..] == old(mem[..])[to := old(mem[from])]
    {
      ghost var w, u, r := words[..], frames.used[..], frames.refs[..];
      mem[to] := mem[from];
      assert words[..] == w && frames.used[..] == u && frames.refs[..] == r;
    }

    /** alloc for a page. */
    method TakeDataFrame() returns (r: Option<nat>)
      requires Valid()
      modifies frames, frames.used
      ensures Valid() && frames.refs[..] == old(frames.refs[..])
      ensures r.None? ==> frames.used[..] == old(frames.used[..]) && forall f | 0 <= f < MAX_FRAMES :: frames.used[f]
      ensures r.Some? ==> r.value < MAX_FRAMES && !old(frames.used[r.value]) && OwnersOf(leaves, r.value) == {} &&
                          IsData(frames.used[..], pos, kernelRoot, r.value) &&
                          frames.used[..] == old(frames.used[..])[r.value := true]
    {
      ghost var w := words[..];
      r := frames.Alloc();
      if r.Some? {
        WfTakeData(w, old(frames.used[..]), at, pos, leaves, kernelRoot, r.value);
      }
      assert words[..] == w;
    }

    /** release of a frame that other owners still hold. */
    method LowerCount(f: nat)
      requires Valid() && f < MAX_FRAMES && frames.refs[f] > 0
      requires Counted(leaves, frames.refs[..][f := frames.refs[f] - 1])
      modifies frames.used, frames.refs
      ensures Steady()
    {
      ghost var w, u := words[..], frames.used[..];
      var freed := frames.Release(f);
      assert words[..] == w && frames.used[..] == u;
    }
  }
}
