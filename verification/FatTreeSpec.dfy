/** When the sectors and the table form a tree of short names, and what the tree says. */
module FatTreeSpec {
  import opened Bytes
  import opened FatSpec
  import opened FatDirSpec
  import opened FatVolume

  type Path = seq<Name>

  /** A file or directory: its chain (empty for an empty file) and its recorded size. */
  datatype Item = Item(isDir: bool, chain: seq<nat>, size: nat)

  /** The tree behind the bytes: every item by path, the slot that names it, the item each cluster belongs
      to, and the clusters that are taken without belonging to any. */
  datatype Shape = Shape(items: map<Path, Item>, slotOf: map<Path, nat>, owner: map<nat, Path>, lost: set<nat>)

  function Parent(q: Path): Path
    requires q != []
  {
    q[..|q| - 1]
  }

  function Leaf(q: Path): Name
    requires q != []
  {
    q[|q| - 1]
  }

  lemma ParentOfChild(d: Path, n: Name)
    ensures Parent(d + [n]) == d && Leaf(d + [n]) == n && d + [n] != []
  {
  }

  lemma ChildOfParent(q: Path)
    requires q != []
    ensures Parent(q) + [Leaf(q)] == q
  {
  }

  function First(chain: seq<nat>): nat {
    if chain == [] then 0 else chain[0]
  }

  // -------------------------------------------------------------------------
  // Slots of a directory: one sector per cluster
  // -------------------------------------------------------------------------

  function SlotIn(b: seq<byte>, k: nat): Slot
    requires SLOT * k + SLOT <= |b|
  {
    b[SLOT * k..SLOT * k + SLOT]
  }

  predicate DirOnDisk(disk: seq<Sector>, g: Geo, p: seq<nat>) {
    forall i | 0 <= i < |p| :: |ClusterBytes(disk, g, p[i])| == SECTOR
  }

  function SlotsOf(disk: seq<Sector>, g: Geo, p: seq<nat>): (slots: seq<Slot>)
    requires DirOnDisk(disk, g, p)
    ensures |slots| == SLOTS_PER_SECTOR * |p| && forall i | 0 <= i < |slots| :: |slots[i]| == SLOT
  {
    seq(SLOTS_PER_SECTOR * |p|, i requires 0 <= i < SLOTS_PER_SECTOR * |p| =>
      SlotIn(ClusterBytes(disk, g, p[i / SLOTS_PER_SECTOR]), i % SLOTS_PER_SECTOR))
  }

  /** With one sector per cluster, a cluster is its sector. */
  lemma OneSector(disk: seq<Sector>, fat: Table, g: Geo, c: nat)
    requires VolumeOk(disk, fat, g) && g.spc == 1 && 2 <= c < |fat|
    ensures ClusterLba(g, c) < |disk| && ClusterBytes(disk, g, c) == disk[ClusterLba(g, c)]
  {
    ClusterInData(g, |disk|, |fat|, c);
    var lba := ClusterLba(g, c);
    assert ClusterSectors(disk, g, c) == [disk[lba]];
    assert [disk[lba]][1..] == [];
    assert Join([disk[lba]]) == disk[lba] + Join([disk[lba]][1..]);
    assert disk[lba] + [] == disk[lba];
  }

  lemma ChainDirOnDisk(disk: seq<Sector>, fat: Table, g: Geo, p: seq<nat>)
    requires VolumeOk(disk, fat, g) && g.spc == 1 && forall i | 0 <= i < |p| :: 2 <= p[i] < |fat|
    ensures DirOnDisk(disk, g, p)
  {
    forall i | 0 <= i < |p| ensures |ClusterBytes(disk, g, p[i])| == SECTOR {
      OneSector(disk, fat, g, p[i]);
    }
  }

  lemma SlotsFrame(disk: seq<Sector>, disk': seq<Sector>, g: Geo, p: seq<nat>)
    requires DirOnDisk(disk, g, p) && forall i | 0 <= i < |p| :: ClusterSame(disk, disk', g, p[i])
    ensures DirOnDisk(disk', g, p) && SlotsOf(disk', g, p) == SlotsOf(disk, g, p)
  {
    forall i | 0 <= i < |p| ensures ClusterBytes(disk', g, p[i]) == ClusterBytes(disk, g, p[i]) {
      assert ClusterSame(disk, disk', g, p[i]);
    }
  }

  // -------------------------------------------------------------------------
  // The tree
  // -------------------------------------------------------------------------

  /** Slot `e` describes the item. */
  predicate Describes(e: Slot, it: Item)
    requires |e| == SLOT
  {
    IsDirSlot(e) == it.isDir && SlotFirst(e) == First(it.chain) && SlotSize(e) == it.size
  }

  /** Slot `i` of directory `d` names a child. */
  predicate NamesChild(s: Shape, d: Path, i: nat, e: Slot)
    requires |e| == SLOT
  {
    var q := d + [SlotName(e)];
    && NameOk(SlotName(e)) && Clean(e) && !IsLabel(e)
    && q in s.items && q in s.slotOf && s.slotOf[q] == i && Describes(e, s.items[q])
  }

  /** A volume label in ASCII, of any name. */
  predicate LabelOk(e: Slot)
    requires |e| == SLOT
  {
    IsLabel(e) && !IsLongName(e) && forall k | 0 <= k < 11 :: e[k] < 0x80
  }

  predicate SlotOk(s: Shape, d: Path, i: nat, e: Slot)
    requires |e| == SLOT
  {
    Live(e) ==> if IsDot(e) then d != [] && i < 2 else if IsLabel(e) then LabelOk(e) else NamesChild(s, d, i, e)
  }

  /** "." and "..": this directory and the one above. */
  predicate DotsOk(s: Shape, d: Path, slots: seq<Slot>) {
    d != [] ==>
      && |slots| >= 2 && |slots[0]| == SLOT && |slots[1]| == SLOT && d in s.items && Parent(d) in s.items
      && IsDot(slots[0]) && IsDot(slots[1]) && SlotName(slots[0]) == DOT_NAME && SlotName(slots[1]) == DOTS_NAME
      && SlotFirst(slots[0]) == First(s.items[d].chain) && SlotFirst(slots[1]) == First(s.items[Parent(d)].chain)
  }

  /** The slot that names `q` in its directory. */
  predicate IsNamed(s: Shape, slots: seq<Slot>, q: Path) {
    && q != [] && q in s.slotOf && s.slotOf[q] < |slots| && |slots[s.slotOf[q]]| == SLOT
    && Live(slots[s.slotOf[q]]) && !IsDot(slots[s.slotOf[q]]) && !IsLabel(slots[s.slotOf[q]])
    && SlotName(slots[s.slotOf[q]]) == Leaf(q)
  }

  predicate Tailed(slots: seq<Slot>) {
    forall i, j | 0 <= i < j < |slots| && |slots[i]| == SLOT && |slots[j]| == SLOT && slots[i][0] == END :: slots[j][0] == END
  }

  ghost predicate SlotsOk(s: Shape, d: Path, slots: seq<Slot>) {
    && (forall i | 0 <= i < |slots| :: |slots[i]| == SLOT)
    && Tailed(slots) && DotsOk(s, d, slots)
    && (forall i {:trigger SlotOk(s, d, i, slots[i])} | 0 <= i < |slots| :: SlotOk(s, d, i, slots[i]))
    && (forall q {:trigger IsNamed(s, slots, q)} | q in s.items && q != [] && Parent(q) == d :: IsNamed(s, slots, q))
  }

  ghost predicate DirOk(disk: seq<Sector>, g: Geo, s: Shape, d: Path) {
    d in s.items && DirOnDisk(disk, g, s.items[d].chain) && SlotsOk(s, d, SlotsOf(disk, g, s.items[d].chain))
  }

  predicate ItemOk(it: Item) {
    && |it.chain| <= GUARD && it.size < U32 && (it.isDir ==> it.chain != [])
    && (!it.isDir ==> it.size <= Span(|it.chain|, SECTOR))
  }

  /** Every name stands in a directory. */
  predicate ParentOk(s: Shape, q: Path)
    requires q != []
  {
    Parent(q) in s.items && s.items[Parent(q)].isDir && NameOk(Leaf(q))
  }

  ghost predicate KeysOk(s: Shape) {
    && [] in s.items && s.items[[]].isDir && s.items[[]].size == 0
    && (forall q | q in s.items :: ItemOk(s.items[q]))
    && (forall q {:trigger ParentOk(s, q)} | q in s.items && q != [] :: ParentOk(s, q))
    && (forall q {:trigger q in s.slotOf} | q in s.slotOf :: q in s.items && q != [])
  }

  ghost predicate ChainsOk(fat: Table, s: Shape) {
    forall q | q in s.items && s.items[q].chain != [] :: IsChain(fat, s.items[q].chain)
  }

  predicate OwnedBy(s: Shape, c: nat, q: Path) {
    c in s.owner && s.owner[c] == q
  }

  ghost predicate OwnsAll(s: Shape) {
    forall q, i | q in s.items && 0 <= i < |s.items[q].chain| :: OwnedBy(s, s.items[q].chain[i], q)
  }

  ghost predicate OwnersReal(s: Shape) {
    forall c | c in s.owner :: s.owner[c] in s.items && c in s.items[s.owner[c]].chain && c !in s.lost
  }

  ghost predicate TakenOk(fat: Table, s: Shape) {
    && (forall c: nat | 2 <= c < |fat| :: fat[c] == 0 <==> c !in s.owner && c !in s.lost)
    && (forall c | c in s.lost :: 2 <= c < |fat|)
  }

  /** Chains are acyclic, disjoint and end-marked; every cluster that is not free belongs to one item, or is lost. */
  ghost predicate OwnersOk(fat: Table, s: Shape) {
    ChainsOk(fat, s) && OwnsAll(s) && OwnersReal(s) && TakenOk(fat, s)
  }

  ghost predicate TreeOk(disk: seq<Sector>, fat: Table, g: Geo, root: nat, s: Shape) {
    && VolumeOk(disk, fat, g) && g.spc == 1 && KeysOk(s) && OwnersOk(fat, s) && First(s.items[[]].chain) == root
    && (forall d {:trigger DirOk(disk, g, s, d)} | d in s.items && s.items[d].isDir :: DirOk(disk, g, s, d))
  }

  // -------------------------------------------------------------------------
  // What the tree says
  // -------------------------------------------------------------------------

  datatype Node = Dir | File(bytes: seq<byte>)

  function Cut(b: seq<byte>, n: nat): seq<byte> {
    b[..Min(n, |b|)]
  }

  function NodeOf(disk: seq<Sector>, g: Geo, it: Item): Node {
    if it.isDir then Dir else File(Cut(ChainBytes(disk, g, it.chain), it.size))
  }

  /** Names to bytes: the file system a user sees. */
  function View(disk: seq<Sector>, g: Geo, s: Shape): map<Path, Node> {
    map q | q in s.items :: NodeOf(disk, g, s.items[q])
  }

  // -------------------------------------------------------------------------
  // A formatted volume
  // -------------------------------------------------------------------------

  function EmptyShape(root: nat): Shape {
    Shape(map[[] := Item(true, [root], 0)], map[], map[root := []], {})
  }

  /** Nothing but the root directory's cluster is taken, and that holds a volume label at most. */
  ghost predicate Formatted(disk: seq<Sector>, fat: Table, g: Geo, root: nat) {
    && VolumeOk(disk, fat, g) && g.spc == 1 && 2 <= root < |fat| && fat[root] >= EOC_MIN
    && (forall c | 2 <= c < |fat| && c != root :: fat[c] == 0)
    && |ClusterBytes(disk, g, root)| == SECTOR
    && (forall k | 0 <= k < SLOTS_PER_SECTOR :: var e := SlotIn(ClusterBytes(disk, g, root), k);
          e[0] == END || (k == 0 && Live(e) && !IsDot(e) && LabelOk(e)))
  }

  /** A formatted volume is a tree with nothing in it. */
  lemma {:induction false} FormattedIsEmptyTree(disk: seq<Sector>, fat: Table, g: Geo, root: nat)
    requires Formatted(disk, fat, g, root)
    ensures TreeOk(disk, fat, g, root, EmptyShape(root)) && View(disk, g, EmptyShape(root)) == map[[] := Dir]
  {
    hide VolumeOk, SlotsOk, OwnersOk, KeysOk;
    FormattedSlots(disk, fat, g, root);
    FormattedOwners(fat, root);
    FormattedKeys(root);
  }

  lemma FormattedSlots(disk: seq<Sector>, fat: Table, g: Geo, root: nat)
    requires Formatted(disk, fat, g, root)
    ensures DirOnDisk(disk, g, [root]) && SlotsOk(EmptyShape(root), [], SlotsOf(disk, g, [root]))
  {
    hide VolumeOk, LabelOk;
    var s, slots := EmptyShape(root), SlotsOf(disk, g, [root]);
    forall i | 0 <= i < |slots|
      ensures slots[i][0] == END || (i == 0 && Live(slots[i]) && !IsDot(slots[i]) && LabelOk(slots[i]))
    {
      assert slots[i] == SlotIn(ClusterBytes(disk, g, root), i);
    }
    forall i | 0 <= i < |slots| ensures SlotOk(s, [], i, slots[i]) {
      LabelReads(slots[i]);
    }
  }

  lemma LabelReads(e: Slot)
    requires |e| == SLOT
    ensures LabelOk(e) ==> IsLabel(e)
  {
  }

  lemma FormattedOwners(fat: Table, root: nat)
    requires 2 <= root < |fat| && fat[root] >= EOC_MIN && forall c | 2 <= c < |fat| && c != root :: fat[c] == 0
    ensures OwnersOk(fat, EmptyShape(root))
  {
    assert IsChain(fat, [root]);
  }

  lemma FormattedKeys(root: nat)
    ensures KeysOk(EmptyShape(root))
  {
  }

  // -------------------------------------------------------------------------
  // Clusters changing hands
  // -------------------------------------------------------------------------

  lemma InMembers(p: seq<nat>, c: nat)
    ensures c in Members(p) <==> c in p
  {
    if c in p {
      var i :| 0 <= i < |p| && p[i] == c;
    }
  }

  /** Clusters of an item are taken. */
  lemma OwnedIsTaken(fat: Table, s: Shape, q: Path, i: nat)
    requires OwnersOk(fat, s) && q in s.items && i < |s.items[q].chain|
    ensures var c := s.items[q].chain[i]; 2 <= c < |fat| && fat[c] != 0 && c in s.owner && c !in s.lost
  {
    assert IsChain(fat, s.items[q].chain);
    assert OwnedBy(s, s.items[q].chain[i], q);
  }

  /** Entries outside the items' clusters may change. */
  lemma ChainsFrame(fat: Table, fat': Table, s: Shape)
    requires OwnersOk(fat, s) && |fat'| == |fat|
    requires forall c | c in s.owner && c < |fat| :: fat'[c] == fat[c]
    ensures forall q | q in s.items && s.items[q].chain != [] :: IsChain(fat', s.items[q].chain)
  {
    forall q | q in s.items && s.items[q].chain != [] ensures IsChain(fat', s.items[q].chain) {
      var ch := s.items[q].chain;
      assert IsChain(fat, ch);
      forall i | 0 <= i < |ch| ensures fat'[ch[i]] == fat[ch[i]] {
        OwnedIsTaken(fat, s, q, i);
      }
    }
  }

  lemma OwnerInRange(fat: Table, s: Shape, c: nat)
    requires OwnersOk(fat, s) && c in s.owner
    ensures 2 <= c < |fat| && fat[c] != 0
  {
    var q := s.owner[c];
    var i :| 0 <= i < |s.items[q].chain| && s.items[q].chain[i] == c;
    OwnedIsTaken(fat, s, q, i);
  }

  /** A chain was allocated and nothing refers to it yet. */
  lemma OwnersTake(fat: Table, fat': Table, s: Shape, p: seq<nat>)
    requires OwnersOk(fat, s) && AddedChain(fat, fat', p)
    ensures OwnersOk(fat', s.(lost := s.lost + Members(p)))
  {
    var s' := s.(lost := s.lost + Members(p));
    forall c | c in s.owner ensures c !in p && c < |fat| && fat'[c] == fat[c] {
      OwnerInRange(fat, s, c);
    }
    ChainsFrame(fat, fat', s);
    AddedTaken(fat, fat', p);
    forall c: nat | 2 <= c < |fat'| ensures fat'[c] == 0 <==> c !in s'.owner && c !in s'.lost {
      InMembers(p, c);
    }
    forall c | c in s.owner ensures c !in s'.lost {
      InMembers(p, c);
    }
  }

  lemma AddedTaken(fat: Table, fat': Table, p: seq<nat>)
    requires AddedChain(fat, fat', p)
    ensures forall c | c in p :: c < |fat'| && fat'[c] != 0
  {
    forall c | c in p ensures c < |fat'| && fat'[c] != 0 {
      var i :| 0 <= i < |p| && p[i] == c;
      assert i < |p| - 1 ==> fat'[p[i]] == p[i + 1];
    }
  }

  /** A chain that belonged to nobody was freed. */
  lemma OwnersDrop(fat: Table, s: Shape, p: seq<nat>)
    requires OwnersOk(fat, s) && IsChain(fat, p) && Members(p) <= s.lost
    ensures OwnersOk(Zeroed(fat, p), s.(lost := s.lost - Members(p)))
  {
    var fat', s' := Zeroed(fat, p), s.(lost := s.lost - Members(p));
    forall c | c in s.owner && c < |fat| ensures fat'[c] == fat[c] {
      InMembers(p, c);
    }
    ChainsFrame(fat, fat', s);
    forall c: nat | 2 <= c < |fat'| ensures fat'[c] == 0 <==> c !in s'.owner && c !in s'.lost {
      InMembers(p, c);
    }
  }

  function OwnersWithout(s: Shape, q: Path): map<nat, Path> {
    map c | c in s.owner && s.owner[c] != q :: s.owner[c]
  }

  function Given(p: seq<nat>, q: Path): map<nat, Path> {
    map c | c in Members(p) :: q
  }

  function OldChain(s: Shape, q: Path): seq<nat> {
    if q in s.items then s.items[q].chain else []
  }

  /** Item `q` is replaced or created; its old chain belongs to nobody, the new one came from nobody. */
  function WithItem(s: Shape, q: Path, it: Item): Shape {
    s.(items := s.items[q := it], owner := OwnersWithout(s, q) + Given(it.chain, q),
       lost := s.lost + Members(OldChain(s, q)) - Members(it.chain))
  }

  function WithoutItem(s: Shape, q: Path): Shape {
    s.(items := s.items - {q}, slotOf := s.slotOf - {q}, owner := OwnersWithout(s, q),
       lost := s.lost + Members(OldChain(s, q)))
  }

  lemma OwnersWithItem(fat: Table, s: Shape, q: Path, it: Item)
    requires OwnersOk(fat, s) && Members(it.chain) <= s.lost && (it.chain != [] ==> IsChain(fat, it.chain))
    ensures OwnersOk(fat, WithItem(s, q, it))
  {
    OldOwners(fat, s, q);
    WithItemOwnsAll(fat, s, q, it);
    WithItemReal(fat, s, q, it);
  }

  lemma WithItemOwnsAll(fat: Table, s: Shape, q: Path, it: Item)
    requires OwnersOk(fat, s) && Members(it.chain) <= s.lost
    ensures OwnsAll(WithItem(s, q, it))
  {
    var s' := WithItem(s, q, it);
    forall r, i | r in s'.items && 0 <= i < |s'.items[r].chain| ensures OwnedBy(s', s'.items[r].chain[i], r) {
      var c := s'.items[r].chain[i];
      if r == q {
        assert c in Members(it.chain);
      } else {
        OwnedIsTaken(fat, s, r, i);
        assert OwnedBy(s, c, r);
      }
    }
  }

  lemma WithItemReal(fat: Table, s: Shape, q: Path, it: Item)
    requires OwnersOk(fat, s) && Members(it.chain) <= s.lost
    ensures OwnersReal(WithItem(s, q, it))
  {
    var s' := WithItem(s, q, it);
    OldOwners(fat, s, q);
    forall c | c in s'.owner ensures s'.owner[c] in s'.items && c in s'.items[s'.owner[c]].chain && c !in s'.lost {
      InMembers(it.chain, c);
    }
  }

  /** The clusters owned by `q` are those of its chain. */
  lemma OldOwners(fat: Table, s: Shape, q: Path)
    requires OwnersOk(fat, s)
    ensures forall c :: (c in s.owner && s.owner[c] == q) <==> c in Members(OldChain(s, q))
    ensures forall c | c in Members(OldChain(s, q)) :: 2 <= c < |fat| && c !in s.lost
  {
    forall c ensures (c in s.owner && s.owner[c] == q) <==> c in Members(OldChain(s, q)) {
      InMembers(OldChain(s, q), c);
      if c in OldChain(s, q) {
        var i :| 0 <= i < |OldChain(s, q)| && OldChain(s, q)[i] == c;
        assert OwnedBy(s, c, q);
      }
    }
    forall c | c in Members(OldChain(s, q)) ensures 2 <= c < |fat| && c !in s.lost {
      OwnerInRange(fat, s, c);
    }
  }

  lemma OwnersWithoutItem(fat: Table, s: Shape, q: Path)
    requires OwnersOk(fat, s)
    ensures OwnersOk(fat, WithoutItem(s, q))
  {
    OldOwners(fat, s, q);
    WithoutItemOwnsAll(s, q);
  }

  lemma WithoutItemOwnsAll(s: Shape, q: Path)
    requires OwnsAll(s)
    ensures OwnsAll(WithoutItem(s, q))
  {
    var s' := WithoutItem(s, q);
    forall r, i | r in s'.items && 0 <= i < |s'.items[r].chain| ensures OwnedBy(s', s'.items[r].chain[i], r) {
      assert OwnedBy(s, s.items[r].chain[i], r);
    }
  }
}
