/** How each directory operation moves the tree: slots, names and clusters after one step. */
module FatTreeSteps {
  import opened Bytes
  import opened FatSpec
  import opened FatDirSpec
  import opened FatVolume
  import opened FatTreeSpec

  // -------------------------------------------------------------------------
  // Slots
  // -------------------------------------------------------------------------

  /** As far as directory `d` is concerned, nothing changed. */
  ghost predicate SameFor(s: Shape, s': Shape, d: Path) {
    && (forall q | q != [] && Parent(q) == d :: (q in s.items <==> q in s'.items) && (q in s.slotOf <==> q in s'.slotOf))
    && (forall q | q != [] && Parent(q) == d && q in s.items :: s'.items[q] == s.items[q])
    && (forall q | q != [] && Parent(q) == d && q in s.slotOf :: s'.slotOf[q] == s.slotOf[q])
    && d in s.items && d in s'.items && First(s'.items[d].chain) == First(s.items[d].chain)
    && (d != [] && Parent(d) in s.items ==>
          Parent(d) in s'.items && First(s'.items[Parent(d)].chain) == First(s.items[Parent(d)].chain))
  }

  /** The dot slots only depend on first clusters. */
  lemma DotsKept(s: Shape, s': Shape, d: Path, slots: seq<Slot>, slots': seq<Slot>)
    requires DotsOk(s, d, slots) && |slots'| >= |slots|
    requires d != [] ==> slots'[0] == slots[0] && slots'[1] == slots[1]
    requires d in s.items && d in s'.items && First(s'.items[d].chain) == First(s.items[d].chain)
    requires d != [] && Parent(d) in s.items ==>
               Parent(d) in s'.items && First(s'.items[Parent(d)].chain) == First(s.items[Parent(d)].chain)
    ensures DotsOk(s', d, slots')
  {
  }

  lemma SlotsSame(s: Shape, s': Shape, d: Path, slots: seq<Slot>)
    requires SlotsOk(s, d, slots) && SameFor(s, s', d)
    ensures SlotsOk(s', d, slots)
  {
    DotsKept(s, s', d, slots, slots);
    SlotsSameEach(s, s', d, slots);
    forall q | q in s'.items && q != [] && Parent(q) == d ensures IsNamed(s', slots, q) {
      assert IsNamed(s, slots, q);
    }
  }

  lemma SlotsSameEach(s: Shape, s': Shape, d: Path, slots: seq<Slot>)
    requires SlotsOk(s, d, slots) && SameFor(s, s', d)
    ensures forall i | 0 <= i < |slots| :: SlotOk(s', d, i, slots[i])
  {
    forall i | 0 <= i < |slots| ensures SlotOk(s', d, i, slots[i]) {
      assert SlotOk(s, d, i, slots[i]);
      SlotSame(s, s', d, i, slots[i]);
    }
  }

  lemma SlotSame(s: Shape, s': Shape, d: Path, i: nat, e: Slot)
    requires |e| == SLOT && SlotOk(s, d, i, e) && SameFor(s, s', d)
    ensures SlotOk(s', d, i, e)
  {
    ParentOfChild(d, SlotName(e));
  }

  lemma DirSame(disk: seq<Sector>, disk': seq<Sector>, g: Geo, s: Shape, s': Shape, d: Path)
    requires DirOk(disk, g, s, d) && SameFor(s, s', d) && s'.items[d].chain == s.items[d].chain
    requires forall i | 0 <= i < |s.items[d].chain| :: ClusterSame(disk, disk', g, s.items[d].chain[i])
    ensures DirOk(disk', g, s', d)
  {
    SlotsFrame(disk, disk', g, s.items[d].chain);
    SlotsSame(s, s', d, SlotsOf(disk, g, s.items[d].chain));
  }

  /** The slots the driver may write: the lowest that is deleted or past the end. */
  ghost predicate LowestFreeSlot(slots: seq<Slot>, idx: nat) {
    && idx < |slots| && (forall i | 0 <= i < |slots| :: |slots[i]| == SLOT)
    && !Live(slots[idx]) && (forall i | 0 <= i < idx :: Live(slots[i]))
  }

  /** A slot that names `n` and describes the item. */
  predicate ChildSlot(e: Slot, n: Name, it: Item) {
    |e| == SLOT && Live(e) && !IsDot(e) && !IsLabel(e) && Clean(e) && SlotName(e) == n && Describes(e, it)
  }

  /** Directory `d` kept everything but what it says about its child `q`. */
  ghost predicate SameExcept(s: Shape, s': Shape, d: Path, q: Path) {
    && q != [] && Parent(q) == d
    && (forall r | r != [] && Parent(r) == d && r != q ::
          (r in s.items <==> r in s'.items) && (r in s.slotOf <==> r in s'.slotOf))
    && (forall r | r != [] && Parent(r) == d && r != q && r in s.items :: s'.items[r] == s.items[r])
    && (forall r | r != [] && Parent(r) == d && r != q && r in s.slotOf :: s'.slotOf[r] == s.slotOf[r])
    && d in s.items && d in s'.items && First(s'.items[d].chain) == First(s.items[d].chain)
    && (d != [] && Parent(d) in s.items ==>
          Parent(d) in s'.items && First(s'.items[Parent(d)].chain) == First(s.items[Parent(d)].chain))
  }

  /** A slot that does not name `q` still says what it said. */
  lemma OtherSlot(s: Shape, s': Shape, d: Path, i: nat, e: Slot, q: Path)
    requires |e| == SLOT && SlotOk(s, d, i, e) && SameExcept(s, s', d, q)
    requires q in s.items ==> q in s.slotOf && s.slotOf[q] != i
    ensures SlotOk(s', d, i, e)
  {
    ParentOfChild(d, SlotName(e));
  }

  /** Every slot but `idx` still says what it said; slot `idx` is `e`. */
  lemma OtherSlots(s: Shape, s': Shape, d: Path, slots: seq<Slot>, idx: nat, q: Path, e: Slot, slots': seq<Slot>)
    requires SlotsOk(s, d, slots) && idx < |slots| && |e| == SLOT && SameExcept(s, s', d, q) && SlotOk(s', d, idx, e)
    requires (q in s.items ==> q in s.slotOf && s.slotOf[q] == idx) && slots' == slots[idx := e]
    ensures forall i | 0 <= i < |slots| :: SlotOk(s', d, i, slots'[i])
  {
    forall i | 0 <= i < |slots| ensures SlotOk(s', d, i, slots'[i]) {
      assert SlotOk(s, d, i, slots[i]);
      if i != idx {
        OtherSlot(s, s', d, i, slots[i], q);
      }
    }
  }

  /** A child other than `q` keeps its slot when slot `idx` is rewritten. */
  lemma OtherName(s: Shape, s': Shape, d: Path, slots: seq<Slot>, idx: nat, q: Path, e: Slot, r: Path)
    requires idx < |slots| && |slots[idx]| == SLOT && |e| == SLOT && SameExcept(s, s', d, q)
    requires r in s'.items && r != [] && Parent(r) == d && r != q && IsNamed(s, slots, r)
    requires q in s.items ==> IsNamed(s, slots, q) && s.slotOf[q] == idx
    requires q !in s.items ==> !Live(slots[idx])
    ensures IsNamed(s', slots[idx := e], r)
  {
    ChildOfParent(r);
    ChildOfParent(q);
  }

  /** Every child but `q` is still named. */
  lemma OtherNames(s: Shape, s': Shape, d: Path, slots: seq<Slot>, idx: nat, q: Path, e: Slot)
    requires SlotsOk(s, d, slots) && idx < |slots| && |e| == SLOT && SameExcept(s, s', d, q)
    requires q in s.items ==> IsNamed(s, slots, q) && s.slotOf[q] == idx
    requires q !in s.items ==> !Live(slots[idx])
    ensures forall r | r in s'.items && r != [] && Parent(r) == d && r != q :: IsNamed(s', slots[idx := e], r)
  {
    forall r | r in s'.items && r != [] && Parent(r) == d && r != q ensures IsNamed(s', slots[idx := e], r) {
      assert IsNamed(s, slots, r);
      OtherName(s, s', d, slots, idx, q, e, r);
    }
  }

  /** A slot for a new child, in the lowest free place. */
  lemma SlotsAdd(s: Shape, s': Shape, d: Path, slots: seq<Slot>, idx: nat, q: Path, e: Slot)
    requires SlotsOk(s, d, slots) && LowestFreeSlot(slots, idx) && SameExcept(s, s', d, q) && q !in s.items && q in s'.items
    requires q in s'.slotOf && s'.slotOf[q] == idx && NameOk(Leaf(q)) && ChildSlot(e, Leaf(q), s'.items[q])
    ensures SlotsOk(s', d, slots[idx := e])
  {
    hide Clean, LabelOk, Describes;
    ChildOfParent(q);
    assert d != [] ==> idx >= 2;
    DotsKept(s, s', d, slots, slots[idx := e]);
    OtherSlots(s, s', d, slots, idx, q, e, slots[idx := e]);
    OtherNames(s, s', d, slots, idx, q, e);
  }

  /** The slot of an existing child was rewritten. */
  lemma SlotsReplace(s: Shape, s': Shape, d: Path, slots: seq<Slot>, q: Path, e: Slot)
    requires SlotsOk(s, d, slots) && SameExcept(s, s', d, q) && q in s.items && q in s'.items && q in s.slotOf && q in s'.slotOf
    requires s'.slotOf[q] == s.slotOf[q] < |slots| && NameOk(Leaf(q)) && ChildSlot(e, Leaf(q), s'.items[q])
    ensures SlotsOk(s', d, slots[s.slotOf[q] := e])
  {
    hide Clean, LabelOk, Describes;
    var idx := s.slotOf[q];
    ChildOfParent(q);
    assert IsNamed(s, slots, q);
    assert d != [] ==> idx >= 2;
    DotsKept(s, s', d, slots, slots[idx := e]);
    OtherSlots(s, s', d, slots, idx, q, e, slots[idx := e]);
    OtherNames(s, s', d, slots, idx, q, e);
  }

  /** The slot of a child became a tombstone. */
  lemma SlotsRemove(s: Shape, s': Shape, d: Path, slots: seq<Slot>, q: Path, e: Slot)
    requires SlotsOk(s, d, slots) && SameExcept(s, s', d, q) && q in s.items && q !in s'.items && q !in s'.slotOf
    requires |e| == SLOT && e[0] == DELETED
    ensures q in s.slotOf && s.slotOf[q] < |slots| && SlotsOk(s', d, slots[s.slotOf[q] := e])
  {
    assert IsNamed(s, slots, q);
    var idx := s.slotOf[q];
    assert d != [] ==> idx >= 2;
    DotsKept(s, s', d, slots, slots[idx := e]);
    OtherSlots(s, s', d, slots, idx, q, e, slots[idx := e]);
    OtherNames(s, s', d, slots, idx, q, e);
  }

  /** A directory without free slots grew by a zeroed cluster. */
  lemma SlotsGrow(s: Shape, s': Shape, d: Path, slots: seq<Slot>, more: seq<Slot>)
    requires SlotsOk(s, d, slots) && SameFor(s, s', d) && (forall i | 0 <= i < |slots| :: Live(slots[i]))
    requires forall i | 0 <= i < |more| :: |more[i]| == SLOT && more[i][0] == END
    ensures SlotsOk(s', d, slots + more)
    ensures more != [] ==> LowestFreeSlot(slots + more, |slots|)
  {
    SlotsSame(s, s', d, slots);
    forall q | q in s'.items && q != [] && Parent(q) == d ensures IsNamed(s', slots + more, q) {
      assert IsNamed(s', slots, q);
    }
    forall i | 0 <= i < |slots + more| ensures SlotOk(s', d, i, (slots + more)[i]) {
      if i < |slots| {
        assert SlotOk(s', d, i, slots[i]);
      }
    }
  }

  /** A directory as mkdir leaves it: "." and "..", then nothing. */
  lemma SlotsNew(s: Shape, d: Path, slots: seq<Slot>)
    requires d != [] && d in s.items && Parent(d) in s.items && DotsOk(s, d, slots)
    requires forall i | 0 <= i < |slots| :: |slots[i]| == SLOT && (i >= 2 ==> slots[i][0] == END)
    requires forall q | q in s.items && q != [] :: Parent(q) != d
    ensures SlotsOk(s, d, slots)
  {
  }

  // -------------------------------------------------------------------------
  // Names
  // -------------------------------------------------------------------------

  lemma KeysAdd(s: Shape, q: Path, it: Item, idx: nat)
    requires KeysOk(s) && q != [] && Parent(q) in s.items && s.items[Parent(q)].isDir && NameOk(Leaf(q)) && ItemOk(it)
    requires q in s.items ==> s.items[q].isDir == it.isDir
    ensures KeysOk(WithItem(s, q, it).(slotOf := s.slotOf[q := idx]))
  {
    var s' := WithItem(s, q, it).(slotOf := s.slotOf[q := idx]);
    forall r | r in s'.items && r != [] ensures ParentOk(s', r) {
      assert r != q ==> ParentOk(s, r);
    }
  }

  lemma KeysRemove(s: Shape, q: Path)
    requires KeysOk(s) && q != [] && forall r | r in s.items && r != [] :: Parent(r) != q
    ensures KeysOk(WithoutItem(s, q))
  {
    var s' := WithoutItem(s, q);
    forall r | r in s'.items && r != [] ensures ParentOk(s', r) {
      assert ParentOk(s, r);
    }
  }

  // -------------------------------------------------------------------------
  // The whole tree
  // -------------------------------------------------------------------------

  /** Chains of different items share no cluster. */
  lemma ChainsDisjoint(s: Shape, q: Path, r: Path, i: nat, j: nat)
    requires OwnsAll(s) && q in s.items && r in s.items && q != r && i < |s.items[q].chain| && j < |s.items[r].chain|
    ensures s.items[q].chain[i] != s.items[r].chain[j]
  {
    assert OwnedBy(s, s.items[q].chain[i], q) && OwnedBy(s, s.items[r].chain[j], r);
  }

  lemma NodeSame(disk: seq<Sector>, disk': seq<Sector>, g: Geo, it: Item)
    requires it.isDir || forall i | 0 <= i < |it.chain| :: ClusterSame(disk, disk', g, it.chain[i])
    ensures NodeOf(disk', g, it) == NodeOf(disk, g, it)
  {
    if !it.isDir {
      ChainBytesFrame(disk, disk', g, it.chain);
    }
  }

  lemma ViewSame(disk: seq<Sector>, disk': seq<Sector>, g: Geo, s: Shape, s': Shape)
    requires s'.items == s.items
    requires forall q, i | q in s.items && 0 <= i < |s.items[q].chain| :: ClusterSame(disk, disk', g, s.items[q].chain[i])
    ensures View(disk', g, s') == View(disk, g, s)
  {
    forall q | q in s.items ensures NodeOf(disk', g, s.items[q]) == NodeOf(disk, g, s.items[q]) {
      NodeSame(disk, disk', g, s.items[q]);
    }
  }

  /** Disk changes that touch no owned cluster leave the tree and what it says. */
  lemma TreeFrame(disk: seq<Sector>, disk': seq<Sector>, fat: Table, fat': Table, g: Geo, root: nat, s: Shape, s': Shape)
    requires TreeOk(disk, fat, g, root, s) && VolumeOk(disk', fat', g)
    requires s'.items == s.items && s'.slotOf == s.slotOf && OwnersOk(fat', s')
    requires forall q, i | q in s.items && 0 <= i < |s.items[q].chain| :: ClusterSame(disk, disk', g, s.items[q].chain[i])
    ensures TreeOk(disk', fat', g, root, s') && View(disk', g, s') == View(disk, g, s)
  {
    forall d | d in s.items && s.items[d].isDir ensures DirOk(disk', g, s', d) {
      assert DirOk(disk, g, s, d);
      ParentIsItem(s, d);
      DirSame(disk, disk', g, s, s', d);
    }
    forall q | q in s'.items && q != [] ensures ParentOk(s', q) {
      assert ParentOk(s, q);
    }
    ViewSame(disk, disk', g, s, s');
  }

  lemma ParentIsItem(s: Shape, d: Path)
    requires KeysOk(s) && d in s.items
    ensures d != [] ==> Parent(d) in s.items && s.items[Parent(d)].isDir && NameOk(Leaf(d))
  {
    assert d != [] ==> ParentOk(s, d);
  }

  /** write_chain: the new clusters are taken, nothing refers to them. */
  lemma TreeTake(disk: seq<Sector>, disk': seq<Sector>, fat: Table, fat': Table, g: Geo, root: nat, s: Shape, p: seq<nat>)
    requires TreeOk(disk, fat, g, root, s) && VolumeOk(disk', fat', g)
    requires AddedChain(fat, fat', p) && DataOnly(disk, disk', g, |fat|, p)
    ensures var s' := s.(lost := s.lost + Members(p));
      TreeOk(disk', fat', g, root, s') && View(disk', g, s') == View(disk, g, s)
  {
    OwnersTake(fat, fat', s, p);
    OwnedSame(disk, disk', fat, g, s, p);
    TreeFrame(disk, disk', fat, fat', g, root, s, s.(lost := s.lost + Members(p)));
  }

  /** Clusters that were free are nobody's. */
  lemma OwnedSame(disk: seq<Sector>, disk': seq<Sector>, fat: Table, g: Geo, s: Shape, p: seq<nat>)
    requires OwnersOk(fat, s) && DataOnly(disk, disk', g, |fat|, p)
    requires forall c | c in p :: c < |fat| && fat[c] == 0
    ensures forall q, i | q in s.items && 0 <= i < |s.items[q].chain| :: ClusterSame(disk, disk', g, s.items[q].chain[i])
  {
    forall q, i | q in s.items && 0 <= i < |s.items[q].chain| ensures ClusterSame(disk, disk', g, s.items[q].chain[i]) {
      OwnedIsTaken(fat, s, q, i);
    }
  }

  /** Every path but `q` kept its item and its slot. */
  ghost predicate SameElsewhere(s: Shape, s': Shape, q: Path) {
    && (forall r | r != q :: (r in s.items <==> r in s'.items) && (r in s.slotOf <==> r in s'.slotOf))
    && (forall r | r != q && r in s.items :: s'.items[r] == s.items[r])
    && (forall r | r != q && r in s.slotOf :: s'.slotOf[r] == s.slotOf[r])
  }

  ghost predicate Childless(s: Shape, q: Path) {
    forall r | r in s.items && r != [] :: Parent(r) != q
  }

  lemma DirElsewhere(disk: seq<Sector>, disk': seq<Sector>, g: Geo, s: Shape, s': Shape, q: Path, d: Path)
    requires KeysOk(s) && DirOk(disk, g, s, d) && SameElsewhere(s, s', q) && Childless(s, q)
    requires q != [] && d != q && Parent(q) != d
    requires forall i | 0 <= i < |s.items[d].chain| :: ClusterSame(disk, disk', g, s.items[d].chain[i])
    ensures DirOk(disk', g, s', d)
  {
    DirSame(disk, disk', g, s, s', d);
  }

  /** One name appeared, changed or went; its directory's slots say so; the rest is untouched. */
  lemma TreeChange(disk: seq<Sector>, disk': seq<Sector>, fat: Table, fat': Table, g: Geo, root: nat, s: Shape, s': Shape,
                   q: Path)
    requires TreeOk(disk, fat, g, root, s) && VolumeOk(disk', fat', g)
    requires KeysOk(s') && OwnersOk(fat', s') && q != [] && SameElsewhere(s, s', q) && Childless(s, q)
    requires DirOk(disk', g, s', Parent(q)) && (q in s'.items && s'.items[q].isDir ==> DirOk(disk', g, s', q))
    requires forall r, i | r in s.items && r != Parent(q) && r != q && 0 <= i < |s.items[r].chain| ::
               ClusterSame(disk, disk', g, s.items[r].chain[i])
    requires Parent(q) in s.items && s.items[Parent(q)].isDir
    ensures TreeOk(disk', fat', g, root, s')
    ensures View(disk', g, s') == if q in s'.items then View(disk, g, s)[q := NodeOf(disk', g, s'.items[q])]
                                  else View(disk, g, s) - {q}
  {
    forall d | d in s'.items && s'.items[d].isDir ensures DirOk(disk', g, s', d) {
      if d != q && d != Parent(q) {
        assert DirOk(disk, g, s, d);
        DirElsewhere(disk, disk', g, s, s', q, d);
      }
    }
    ViewChange(disk, disk', g, s, s', q);
  }

  lemma ViewChange(disk: seq<Sector>, disk': seq<Sector>, g: Geo, s: Shape, s': Shape, q: Path)
    requires q != [] && SameElsewhere(s, s', q) && Parent(q) in s.items && s.items[Parent(q)].isDir
    requires forall r, i | r in s.items && r != Parent(q) && r != q && 0 <= i < |s.items[r].chain| ::
               ClusterSame(disk, disk', g, s.items[r].chain[i])
    ensures View(disk', g, s') == if q in s'.items then View(disk, g, s)[q := NodeOf(disk', g, s'.items[q])]
                                  else View(disk, g, s) - {q}
  {
    forall r | r in s.items && r != q ensures NodeOf(disk', g, s'.items[r]) == NodeOf(disk, g, s.items[r]) {
      NodeSame(disk, disk', g, s.items[r]);
    }
  }

  // --- one slot on disk -------------------------------------------------------------------

  /** The bytes of a sector with slot `k` replaced. */
  function WithSlot(b: seq<byte>, k: nat, e: Slot): (r: seq<byte>)
    requires SLOT * k + SLOT <= |b| && |e| == SLOT
    ensures |r| == |b|
  {
    b[..SLOT * k] + e + b[SLOT * k + SLOT..]
  }

  lemma SlotInPatched(b: seq<byte>, k: nat, e: Slot, j: nat)
    requires SLOT * k + SLOT <= |b| && |e| == SLOT && SLOT * j + SLOT <= |b|
    ensures SlotIn(WithSlot(b, k, e), j) == if j == k then e else SlotIn(b, j)
  {
  }

  /** Rewriting 32 bytes of one sector rewrites one slot of the directory. */
  lemma PatchedSlots(disk: seq<Sector>, disk': seq<Sector>, g: Geo, p: seq<nat>, idx: nat, e: Slot)
    requires DirOnDisk(disk, g, p) && NoRepeat(p) && idx < SLOTS_PER_SECTOR * |p| && |e| == SLOT
    requires ClusterBytes(disk', g, p[idx / SLOTS_PER_SECTOR]) ==
             WithSlot(ClusterBytes(disk, g, p[idx / SLOTS_PER_SECTOR]), idx % SLOTS_PER_SECTOR, e)
    requires forall i | 0 <= i < |p| && i != idx / SLOTS_PER_SECTOR :: ClusterSame(disk, disk', g, p[i])
    ensures DirOnDisk(disk', g, p) && SlotsOf(disk', g, p) == SlotsOf(disk, g, p)[idx := e]
  {
    var k := idx / SLOTS_PER_SECTOR;
    forall i | 0 <= i < |p| && i != k ensures ClusterBytes(disk', g, p[i]) == ClusterBytes(disk, g, p[i]) {
      assert ClusterSame(disk, disk', g, p[i]);
    }
    forall i | 0 <= i < SLOTS_PER_SECTOR * |p| ensures SlotsOf(disk', g, p)[i] == SlotsOf(disk, g, p)[idx := e][i] {
      if i / SLOTS_PER_SECTOR == k {
        SlotInPatched(ClusterBytes(disk, g, p[k]), idx % SLOTS_PER_SECTOR, e, i % SLOTS_PER_SECTOR);
      }
    }
  }
}
