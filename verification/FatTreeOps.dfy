/** The tree after adding, replacing and removing a name, and after growing a directory. */
module FatTreeOps {
  import opened Bytes
  import opened FatSpec
  import opened FatDirSpec
  import opened FatVolume
  import opened FatTreeSpec
  import opened FatTreeSteps

  lemma OwnersSlotOf(fat: Table, s: Shape, slotOf: map<Path, nat>)
    requires OwnersOk(fat, s)
    ensures OwnersOk(fat, s.(slotOf := slotOf))
  {
    var s' := s.(slotOf := slotOf);
    forall q, i | q in s'.items && 0 <= i < |s'.items[q].chain| ensures OwnedBy(s', s'.items[q].chain[i], q) {
      assert OwnedBy(s, s.items[q].chain[i], q);
    }
  }

  /** Slot `idx` of directory `d` became `e`, on one cluster of its chain; all other clusters are as they were. */
  ghost predicate Patched(disk: seq<Sector>, disk': seq<Sector>, g: Geo, entries: nat, p: seq<nat>, idx: nat, e: Slot) {
    && DirOnDisk(disk, g, p) && DirOnDisk(disk', g, p) && idx < SLOTS_PER_SECTOR * |p| && |e| == SLOT
    && SlotsOf(disk', g, p) == SlotsOf(disk, g, p)[idx := e]
    && forall c | 2 <= c < entries && c !in p :: ClusterSame(disk, disk', g, c)
  }

  /** Clusters outside directory `d` kept their sectors. */
  lemma PatchedOthers(disk: seq<Sector>, disk': seq<Sector>, fat: Table, g: Geo, s: Shape, d: Path, idx: nat, e: Slot)
    requires OwnersOk(fat, s) && d in s.items && Patched(disk, disk', g, |fat|, s.items[d].chain, idx, e)
    ensures forall r, i | r in s.items && r != d && 0 <= i < |s.items[r].chain| ::
              ClusterSame(disk, disk', g, s.items[r].chain[i])
  {
    forall r, i | r in s.items && r != d && 0 <= i < |s.items[r].chain|
      ensures ClusterSame(disk, disk', g, s.items[r].chain[i])
    {
      OwnedIsTaken(fat, s, r, i);
      var c := s.items[r].chain[i];
      forall j | 0 <= j < |s.items[d].chain| ensures s.items[d].chain[j] != c {
        ChainsDisjoint(s, r, d, i, j);
      }
    }
  }

  function AddName(s: Shape, q: Path, it: Item, idx: nat): Shape {
    WithItem(s, q, it).(slotOf := s.slotOf[q := idx])
  }

  /** Only directories have children. */
  lemma ChildlessIfNoDir(s: Shape, q: Path)
    requires KeysOk(s) && (q !in s.items || !s.items[q].isDir)
    ensures Childless(s, q)
  {
    forall r | r in s.items && r != [] ensures Parent(r) != q {
      assert ParentOk(s, r);
    }
  }

  lemma AddSameExcept(s: Shape, q: Path, it: Item, idx: nat)
    requires KeysOk(s) && q != [] && q !in s.items && Parent(q) in s.items
    ensures SameExcept(s, AddName(s, q, it, idx), Parent(q), q) && SameElsewhere(s, AddName(s, q, it, idx), q)
    ensures Childless(s, q)
  {
    ChildlessIfNoDir(s, q);
    ParentIsItem(s, Parent(q));
  }

  lemma AddDirOk(disk: seq<Sector>, disk': seq<Sector>, entries: nat, g: Geo, s: Shape, q: Path, it: Item, idx: nat, e: Slot)
    requires KeysOk(s) && q != [] && q !in s.items && Parent(q) in s.items && DirOk(disk, g, s, Parent(q))
    requires NameOk(Leaf(q)) && ChildSlot(e, Leaf(q), it)
    requires Patched(disk, disk', g, entries, s.items[Parent(q)].chain, idx, e)
    requires LowestFreeSlot(SlotsOf(disk, g, s.items[Parent(q)].chain), idx)
    ensures DirOk(disk', g, AddName(s, q, it, idx), Parent(q))
  {
    AddSameExcept(s, q, it, idx);
    SlotsAdd(s, AddName(s, q, it, idx), Parent(q), SlotsOf(disk, g, s.items[Parent(q)].chain), idx, q, e);
  }

  /** A new name whose chain belonged to nobody. */
  lemma TreeAdd(disk: seq<Sector>, disk': seq<Sector>, fat: Table, g: Geo, root: nat, s: Shape, q: Path, it: Item,
                idx: nat, e: Slot)
    requires TreeOk(disk, fat, g, root, s) && VolumeOk(disk', fat, g)
    requires q != [] && q !in s.items && Parent(q) in s.items && s.items[Parent(q)].isDir
    requires NameOk(Leaf(q)) && ItemOk(it) && ChildSlot(e, Leaf(q), it)
    requires Members(it.chain) <= s.lost && (it.chain != [] ==> IsChain(fat, it.chain))
    requires Patched(disk, disk', g, |fat|, s.items[Parent(q)].chain, idx, e)
    requires LowestFreeSlot(SlotsOf(disk, g, s.items[Parent(q)].chain), idx)
    requires it.isDir ==> DirOk(disk', g, AddName(s, q, it, idx), q)
    ensures TreeOk(disk', fat, g, root, AddName(s, q, it, idx))
    ensures View(disk', g, AddName(s, q, it, idx)) == View(disk, g, s)[q := NodeOf(disk', g, it)]
  {
    var s', d := AddName(s, q, it, idx), Parent(q);
    OwnersWithItem(fat, s, q, it);
    OwnersSlotOf(fat, WithItem(s, q, it), s.slotOf[q := idx]);
    KeysAdd(s, q, it, idx);
    assert DirOk(disk, g, s, d);
    AddSameExcept(s, q, it, idx);
    AddDirOk(disk, disk', |fat|, g, s, q, it, idx, e);
    PatchedOthers(disk, disk', fat, g, s, d, idx, e);
    TreeChange(disk, disk', fat, fat, g, root, s, s', q);
  }

  /** The file `q` after its old clusters were freed. */
  function ReplaceName(s: Shape, q: Path, it: Item): Shape {
    var t := WithItem(s, q, it);
    t.(lost := t.lost - Members(OldChain(s, q)))
  }

  function FreedTable(fat: Table, chain: seq<nat>): Table {
    if chain == [] then fat else Zeroed(fat, chain)
  }

  lemma OwnersReplace(fat: Table, s: Shape, q: Path, it: Item)
    requires OwnersOk(fat, s) && q in s.items
    requires Members(it.chain) <= s.lost && (it.chain != [] ==> IsChain(fat, it.chain))
    ensures OwnersOk(FreedTable(fat, s.items[q].chain), ReplaceName(s, q, it))
  {
    var t, old_ := WithItem(s, q, it), s.items[q].chain;
    OwnersWithItem(fat, s, q, it);
    OldOwners(fat, s, q);
    if old_ == [] {
      assert t.lost - Members(old_) == t.lost;
    } else {
      OwnersDrop(fat, t, old_);
    }
  }

  lemma ReplaceSameExcept(s: Shape, q: Path, it: Item)
    requires KeysOk(s) && q in s.items && q != [] && !s.items[q].isDir
    ensures SameExcept(s, ReplaceName(s, q, it), Parent(q), q) && SameElsewhere(s, ReplaceName(s, q, it), q)
    ensures Childless(s, q)
  {
    ChildlessIfNoDir(s, q);
    ParentIsItem(s, q);
    ParentIsItem(s, Parent(q));
  }

  lemma ReplaceDirOk(disk: seq<Sector>, disk': seq<Sector>, entries: nat, g: Geo, s: Shape, q: Path, it: Item, e: Slot)
    requires KeysOk(s) && q != [] && q in s.items && q in s.slotOf && !s.items[q].isDir && Parent(q) in s.items
    requires DirOk(disk, g, s, Parent(q)) && ChildSlot(e, Leaf(q), it)
    requires Patched(disk, disk', g, entries, s.items[Parent(q)].chain, s.slotOf[q], e)
    ensures DirOk(disk', g, ReplaceName(s, q, it), Parent(q))
  {
    ReplaceSameExcept(s, q, it);
    ParentIsItem(s, q);
    SlotsReplace(s, ReplaceName(s, q, it), Parent(q), SlotsOf(disk, g, s.items[Parent(q)].chain), q, e);
  }

  /** An existing file got a new chain; the old one was freed. */
  lemma TreeReplace(disk: seq<Sector>, disk': seq<Sector>, fat: Table, g: Geo, root: nat, s: Shape, q: Path, it: Item,
                    e: Slot)
    requires TreeOk(disk, fat, g, root, s) && q in s.items && q != [] && !s.items[q].isDir && !it.isDir
    requires VolumeOk(disk', FreedTable(fat, s.items[q].chain), g) && q in s.slotOf
    requires ItemOk(it) && ChildSlot(e, Leaf(q), it)
    requires Members(it.chain) <= s.lost && (it.chain != [] ==> IsChain(fat, it.chain))
    requires Parent(q) in s.items && Patched(disk, disk', g, |fat|, s.items[Parent(q)].chain, s.slotOf[q], e)
    ensures TreeOk(disk', FreedTable(fat, s.items[q].chain), g, root, ReplaceName(s, q, it))
    ensures View(disk', g, ReplaceName(s, q, it)) == View(disk, g, s)[q := NodeOf(disk', g, it)]
  {
    var s', d, fat' := ReplaceName(s, q, it), Parent(q), FreedTable(fat, s.items[q].chain);
    OwnersReplace(fat, s, q, it);
    KeysReplace(s, q, it);
    ParentIsItem(s, q);
    assert DirOk(disk, g, s, d);
    ReplaceSameExcept(s, q, it);
    ReplaceDirOk(disk, disk', |fat|, g, s, q, it, e);
    PatchedOthers(disk, disk', fat, g, s, d, s.slotOf[q], e);
    TreeChange(disk, disk', fat, fat', g, root, s, s', q);
  }

  lemma KeysReplace(s: Shape, q: Path, it: Item)
    requires KeysOk(s) && q in s.items && q in s.slotOf && q != [] && ItemOk(it) && s.items[q].isDir == it.isDir
    ensures KeysOk(ReplaceName(s, q, it))
  {
    var s' := ReplaceName(s, q, it);
    forall r | r in s'.items && r != [] ensures ParentOk(s', r) {
      assert ParentOk(s, r);
    }
  }

  /** `q` after its clusters were freed and its slot became a tombstone. */
  function RemoveName(s: Shape, q: Path): Shape {
    var t := WithoutItem(s, q);
    t.(lost := t.lost - Members(OldChain(s, q)))
  }

  lemma OwnersRemove(fat: Table, s: Shape, q: Path)
    requires OwnersOk(fat, s) && q in s.items
    ensures OwnersOk(FreedTable(fat, s.items[q].chain), RemoveName(s, q))
  {
    var t, old_ := WithoutItem(s, q), s.items[q].chain;
    OwnersWithoutItem(fat, s, q);
    OldOwners(fat, s, q);
    if old_ == [] {
      assert t.lost - Members(old_) == t.lost;
    } else {
      OwnersDrop(fat, t, old_);
    }
  }

  lemma RemoveKeys(s: Shape, q: Path)
    requires KeysOk(WithoutItem(s, q))
    ensures KeysOk(RemoveName(s, q))
  {
    var t, s' := WithoutItem(s, q), RemoveName(s, q);
    forall r | r in s'.items && r != [] ensures ParentOk(s', r) {
      assert ParentOk(t, r);
    }
  }

  lemma RemoveSameExcept(s: Shape, q: Path)
    requires KeysOk(s) && q in s.items && q != [] && Childless(s, q)
    ensures SameExcept(s, RemoveName(s, q), Parent(q), q) && SameElsewhere(s, RemoveName(s, q), q)
  {
    ParentIsItem(s, q);
    ParentIsItem(s, Parent(q));
    assert Parent(q) != q;
    assert Parent(q) != [] ==> Parent(Parent(q)) != q;
  }

  lemma RemoveDirOk(disk: seq<Sector>, disk': seq<Sector>, entries: nat, g: Geo, s: Shape, q: Path, e: Slot)
    requires KeysOk(s) && q != [] && q in s.items && q in s.slotOf && Childless(s, q) && Parent(q) in s.items
    requires DirOk(disk, g, s, Parent(q)) && |e| == SLOT && e[0] == DELETED
    requires Patched(disk, disk', g, entries, s.items[Parent(q)].chain, s.slotOf[q], e)
    ensures DirOk(disk', g, RemoveName(s, q), Parent(q))
  {
    RemoveSameExcept(s, q);
    SlotsRemove(s, RemoveName(s, q), Parent(q), SlotsOf(disk, g, s.items[Parent(q)].chain), q, e);
  }

  /** A file, or a directory without children, was removed. */
  lemma TreeRemove(disk: seq<Sector>, disk': seq<Sector>, fat: Table, g: Geo, root: nat, s: Shape, q: Path, e: Slot)
    requires TreeOk(disk, fat, g, root, s) && q in s.items && q != [] && Childless(s, q)
    requires VolumeOk(disk', FreedTable(fat, s.items[q].chain), g) && q in s.slotOf
    requires |e| == SLOT && e[0] == DELETED
    requires Parent(q) in s.items && Patched(disk, disk', g, |fat|, s.items[Parent(q)].chain, s.slotOf[q], e)
    ensures TreeOk(disk', FreedTable(fat, s.items[q].chain), g, root, RemoveName(s, q))
    ensures View(disk', g, RemoveName(s, q)) == View(disk, g, s) - {q}
  {
    var s', d, fat' := RemoveName(s, q), Parent(q), FreedTable(fat, s.items[q].chain);
    OwnersRemove(fat, s, q);
    KeysRemove(s, q);
    RemoveKeys(s, q);
    ParentIsItem(s, q);
    assert DirOk(disk, g, s, d);
    RemoveSameExcept(s, q);
    RemoveDirOk(disk, disk', |fat|, g, s, q, e);
    PatchedOthers(disk, disk', fat, g, s, d, s.slotOf[q], e);
    TreeChange(disk, disk', fat, fat', g, root, s, s', q);
  }

  // -------------------------------------------------------------------------
  // A directory grows by one cluster
  // -------------------------------------------------------------------------

  function Longer(it: Item, c: nat): Item {
    it.(chain := it.chain + [c])
  }

  function GrowDir(s: Shape, d: Path, c: nat): Shape
    requires d in s.items
  {
    s.(items := s.items[d := Longer(s.items[d], c)], owner := s.owner[c := d], lost := s.lost - {c})
  }

  lemma GrownChain(fat: Table, p: seq<nat>, c: nat)
    requires IsChain(fat, p) && IsChain(fat, [c]) && c !in p
    ensures IsChain(fat[p[|p| - 1] := c], p + [c])
  {
    var fat', q := fat[p[|p| - 1] := c], p + [c];
    forall i | 0 <= i < |q| - 1 ensures fat'[q[i]] == q[i + 1] {
      assert i < |p| - 1 ==> p[i] != p[|p| - 1] && fat[p[i]] == p[i + 1];
    }
  }

  lemma OwnersGrow(fat: Table, s: Shape, d: Path, c: nat)
    requires OwnersOk(fat, s) && d in s.items && s.items[d].chain != [] && c in s.lost && IsChain(fat, [c])
    ensures var tail := s.items[d].chain[|s.items[d].chain| - 1];
      tail < |fat| && OwnersOk(fat[tail := c], GrowDir(s, d, c))
  {
    var ch := s.items[d].chain;
    var tail := ch[|ch| - 1];
    OwnedIsTaken(fat, s, d, |ch| - 1);
    forall i | 0 <= i < |ch| ensures ch[i] != c {
      OwnedIsTaken(fat, s, d, i);
    }
    GrownChain(fat, ch, c);
    GrowChainsOk(fat, s, d, c, tail);
    GrowOwnsAll(fat, s, d, c);
    GrowReal(s, d, c);
  }

  lemma GrowChainsOk(fat: Table, s: Shape, d: Path, c: nat, tail: nat)
    requires OwnersOk(fat, s) && d in s.items && s.items[d].chain != [] && c < |fat|
    requires tail == s.items[d].chain[|s.items[d].chain| - 1] < |fat| && IsChain(fat[tail := c], s.items[d].chain + [c])
    ensures ChainsOk(fat[tail := c], GrowDir(s, d, c))
  {
    var fat' := fat[tail := c];
    forall q | q in s.items && q != d && s.items[q].chain != [] ensures IsChain(fat', s.items[q].chain) {
      OtherChain(fat, s, d, c, tail, q);
    }
  }

  lemma OtherChain(fat: Table, s: Shape, d: Path, c: nat, tail: nat, q: Path)
    requires ChainsOk(fat, s) && OwnsAll(s) && d in s.items && s.items[d].chain != []
    requires tail == s.items[d].chain[|s.items[d].chain| - 1] < |fat|
    requires q in s.items && q != d && s.items[q].chain != []
    ensures IsChain(fat[tail := c], s.items[q].chain)
  {
    var p := s.items[q].chain;
    forall i | 0 <= i < |p| ensures p[i] != tail {
      ChainsDisjoint(s, q, d, i, |s.items[d].chain| - 1);
    }
  }

  lemma GrowOwnsAll(fat: Table, s: Shape, d: Path, c: nat)
    requires OwnersOk(fat, s) && d in s.items && c in s.lost
    ensures OwnsAll(GrowDir(s, d, c))
  {
    var s' := GrowDir(s, d, c);
    forall q, i | q in s'.items && 0 <= i < |s'.items[q].chain| ensures OwnedBy(s', s'.items[q].chain[i], q) {
      if i < |s.items[q].chain| {
        OwnedIsTaken(fat, s, q, i);
        assert OwnedBy(s, s.items[q].chain[i], q);
      }
    }
  }

  lemma GrowReal(s: Shape, d: Path, c: nat)
    requires OwnersReal(s) && d in s.items
    ensures OwnersReal(GrowDir(s, d, c))
  {
    var s' := GrowDir(s, d, c);
    forall k | k in s'.owner ensures s'.owner[k] in s'.items && k in s'.items[s'.owner[k]].chain && k !in s'.lost {
      if k != c && s.owner[k] == d {
        var i :| 0 <= i < |s.items[d].chain| && s.items[d].chain[i] == k;
        assert s'.items[d].chain[i] == k;
      }
      assert k == c ==> s'.items[d].chain[|s.items[d].chain|] == c;
    }
  }

  lemma GrowKeys(s: Shape, d: Path, c: nat)
    requires KeysOk(s) && d in s.items && s.items[d].isDir && |s.items[d].chain| < GUARD
    ensures KeysOk(GrowDir(s, d, c))
  {
    var s' := GrowDir(s, d, c);
    forall r | r in s'.items && r != [] ensures ParentOk(s', r) {
      assert ParentOk(s, r);
    }
  }

  /** The slots of the grown directory: the old ones, then sixteen empty ones. */
  lemma GrownSlots(disk: seq<Sector>, disk': seq<Sector>, g: Geo, p: seq<nat>, c: nat)
    requires DirOnDisk(disk, g, p) && forall i | 0 <= i < |p| :: ClusterSame(disk, disk', g, p[i])
    requires ClusterBytes(disk', g, c) == Padded([], 0, SECTOR)
    ensures DirOnDisk(disk', g, p + [c]) && |SlotsOf(disk', g, p + [c])| == |SlotsOf(disk, g, p)| + SLOTS_PER_SECTOR
    ensures SlotsOf(disk', g, p + [c])[..|SlotsOf(disk, g, p)|] == SlotsOf(disk, g, p)
    ensures forall i | |SlotsOf(disk, g, p)| <= i < |SlotsOf(disk', g, p + [c])| :: SlotsOf(disk', g, p + [c])[i][0] == END
  {
    SlotsFrame(disk, disk', g, p);
    var q := p + [c];
    forall i | 0 <= i < |q| ensures |ClusterBytes(disk', g, q[i])| == SECTOR {
      assert i < |p| ==> q[i] == p[i];
    }
    var old_, new_ := SlotsOf(disk', g, p), SlotsOf(disk', g, q);
    forall i | 0 <= i < |old_| ensures new_[i] == old_[i] {
      assert q[i / SLOTS_PER_SECTOR] == p[i / SLOTS_PER_SECTOR];
    }
    assert new_[..|old_|] == old_;
  }

  lemma GrowSameFor(s: Shape, d: Path, c: nat)
    requires KeysOk(s) && d in s.items && s.items[d].chain != []
    ensures SameFor(s, GrowDir(s, d, c), d)
  {
    forall q | q != [] && Parent(q) == d ensures q != d {
      assert |q| == |d| + 1;
    }
  }

  lemma GrowDirOk(disk: seq<Sector>, disk': seq<Sector>, g: Geo, s: Shape, d: Path, c: nat)
    requires KeysOk(s) && DirOk(disk, g, s, d) && s.items[d].chain != []
    requires forall i | 0 <= i < |s.items[d].chain| :: ClusterSame(disk, disk', g, s.items[d].chain[i])
    requires ClusterBytes(disk', g, c) == Padded([], 0, SECTOR)
    requires forall e | e in SlotsOf(disk, g, s.items[d].chain) :: Live(e)
    ensures DirOk(disk', g, GrowDir(s, d, c), d) && DirOnDisk(disk', g, s.items[d].chain + [c])
    ensures LowestFreeSlot(SlotsOf(disk', g, s.items[d].chain + [c]), |SlotsOf(disk, g, s.items[d].chain)|)
  {
    var p, s' := s.items[d].chain, GrowDir(s, d, c);
    GrownSlots(disk, disk', g, p, c);
    var slots, slots' := SlotsOf(disk, g, p), SlotsOf(disk', g, p + [c]);
    var more := slots'[|slots|..];
    assert slots' == slots + more;
    GrowSameFor(s, d, c);
    forall i | 0 <= i < |slots| ensures Live(slots[i]) {
      assert slots[i] in slots;
    }
    SlotsGrow(s, s', d, slots, more);
  }

  lemma GrowElsewhere(disk: seq<Sector>, disk': seq<Sector>, g: Geo, s: Shape, d: Path, c: nat, r: Path)
    requires KeysOk(s) && d in s.items && s.items[d].chain != [] && r != d && DirOk(disk, g, s, r)
    requires forall i | 0 <= i < |s.items[r].chain| :: ClusterSame(disk, disk', g, s.items[r].chain[i])
    requires s.items[d].isDir
    ensures DirOk(disk', g, GrowDir(s, d, c), r)
  {
    var s' := GrowDir(s, d, c);
    SlotsFrame(disk, disk', g, s.items[r].chain);
    var slots := SlotsOf(disk, g, s.items[r].chain);
    GrowDescribes(s, d, c, r, slots);
  }

  /** Nothing a slot says about `d` depends on more than its first cluster. */
  lemma GrowDescribes(s: Shape, d: Path, c: nat, r: Path, slots: seq<Slot>)
    requires SlotsOk(s, r, slots) && d in s.items && s.items[d].chain != []
    ensures SlotsOk(GrowDir(s, d, c), r, slots)
  {
    var s' := GrowDir(s, d, c);
    forall i | 0 <= i < |slots| ensures SlotOk(s', r, i, slots[i]) {
      assert SlotOk(s, r, i, slots[i]);
    }
    forall q | q in s'.items && q != [] && Parent(q) == r ensures IsNamed(s', slots, q) {
      assert IsNamed(s, slots, q);
    }
  }

  /** take_dir_slot on a full directory. */
  lemma TreeGrow(disk: seq<Sector>, disk': seq<Sector>, fat: Table, fat': Table, g: Geo, root: nat, s: Shape, d: Path, c: nat)
    requires TreeOk(disk, fat, g, root, s) && d in s.items && s.items[d].isDir && |s.items[d].chain| < GUARD
    requires c in s.lost && IsChain(fat, [c]) && VolumeOk(disk', fat', g)
    requires var ch := s.items[d].chain; ch != [] && ch[|ch| - 1] < |fat| && fat' == fat[ch[|ch| - 1] := c]
    requires forall k | 2 <= k < |fat| && k != c :: ClusterSame(disk, disk', g, k)
    requires ClusterBytes(disk', g, c) == Padded([], 0, SECTOR)
    requires DirOnDisk(disk, g, s.items[d].chain) && forall e | e in SlotsOf(disk, g, s.items[d].chain) :: Live(e)
    ensures TreeOk(disk', fat', g, root, GrowDir(s, d, c))
    ensures View(disk', g, GrowDir(s, d, c)) == View(disk, g, s)
    ensures DirOnDisk(disk', g, s.items[d].chain + [c])
    ensures LowestFreeSlot(SlotsOf(disk', g, s.items[d].chain + [c]), |SlotsOf(disk, g, s.items[d].chain)|)
  {
    hide View, Padded, ChainBytes, SlotsOf, SlotsOk;
    var s' := GrowDir(s, d, c);
    forall q, i | q in s.items && 0 <= i < |s.items[q].chain| ensures ClusterSame(disk, disk', g, s.items[q].chain[i]) {
      OwnedIsTaken(fat, s, q, i);
    }
    OwnersGrow(fat, s, d, c);
    GrowKeys(s, d, c);
    assert DirOk(disk, g, s, d);
    GrowDirOk(disk, disk', g, s, d, c);
    forall r | r in s'.items && s'.items[r].isDir ensures DirOk(disk', g, s', r) {
      assert DirOk(disk, g, s, r);
      if r != d {
        GrowElsewhere(disk, disk', g, s, d, c, r);
      }
    }
    GrowView(disk, disk', g, s, d, c);
  }

  lemma GrowView(disk: seq<Sector>, disk': seq<Sector>, g: Geo, s: Shape, d: Path, c: nat)
    requires d in s.items && s.items[d].isDir
    requires forall q, i | q in s.items && 0 <= i < |s.items[q].chain| :: ClusterSame(disk, disk', g, s.items[q].chain[i])
    ensures View(disk', g, GrowDir(s, d, c)) == View(disk, g, s)
  {
    var s' := GrowDir(s, d, c);
    forall q | q in s.items ensures NodeOf(disk', g, s'.items[q]) == NodeOf(disk, g, s.items[q]) {
      NodeSame(disk, disk', g, s.items[q]);
    }
  }
}
