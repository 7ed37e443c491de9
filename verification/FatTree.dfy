/** The file system on top of the volume: paths, directories and files, updated in place. */
module FatTree {
  import opened Bytes
  import opened Frames
  import opened FatSpec
  import opened FatDirSpec
  import opened FatVolume
  import opened FatTreeSpec
  import opened FatTreeSteps
  import opened FatTreeOps

  datatype Entry = Entry(first: nat, size: nat, isDir: bool)

  /** An entry of a directory listing. */
  datatype Listed = Listed(name: Name, entry: Entry)

  datatype Status = Done | ReadOnly | BadPath | NoDirectory | NotADirectory | DiskFull | NameExists |
                    NotFound | IsADirectory | NotEmpty | NoShortName

  function EntryOf(it: Item): Entry {
    Entry(First(it.chain), it.size, it.isDir)
  }

  function Resolve(s: Shape, path: Path): Option<Entry> {
    if path in s.items then Some(EntryOf(s.items[path])) else None
  }

  // --- reading a directory -------------------------------------------------------------

  lemma TailSlice(a: seq<byte>, b: seq<byte>, lo: nat, hi: nat)
    requires lo <= hi <= |b|
    ensures (a + b)[|a| + lo..|a| + hi] == b[lo..hi]
  {
  }

  lemma {:induction false} ChainSlice(disk: seq<Sector>, g: Geo, p: seq<nat>, k: nat)
    requires DirOnDisk(disk, g, p) && k < |p|
    ensures |ChainBytes(disk, g, p)| == SECTOR * |p|
    ensures ChainBytes(disk, g, p)[SECTOR * k..SECTOR * k + SECTOR] == ClusterBytes(disk, g, p[k])
  {
    hide ClusterBytes;
    var head, rest := ClusterBytes(disk, g, p[0]), ChainBytes(disk, g, p[1..]);
    assert |head| == SECTOR;
    forall i | 0 <= i < |p[1..]| ensures |ClusterBytes(disk, g, p[1..][i])| == SECTOR {
      assert p[1..][i] == p[i + 1];
    }
    if |p| == 1 {
      assert p[1..] == [];
    } else {
      ChainSlice(disk, g, p[1..], if k == 0 then 0 else k - 1);
      if k > 0 {
        TailSlice(head, rest, SECTOR * (k - 1), SECTOR * (k - 1) + SECTOR);
      }
    }
  }

  lemma RawSlot(disk: seq<Sector>, g: Geo, p: seq<nat>, i: nat)
    requires DirOnDisk(disk, g, p) && i < SLOTS_PER_SECTOR * |p|
    ensures |ChainBytes(disk, g, p)| == SECTOR * |p|
    ensures ChainBytes(disk, g, p)[SLOT * i..SLOT * i + SLOT] == SlotsOf(disk, g, p)[i]
  {
    var k, o := i / SLOTS_PER_SECTOR, i % SLOTS_PER_SECTOR;
    ChainSlice(disk, g, p, k);
    var raw := ChainBytes(disk, g, p);
    assert SLOT * i == SECTOR * k + SLOT * o;
    SliceOfSlice(raw, SECTOR * k, SECTOR * k + SECTOR, SLOT * o, SLOT);
  }

  lemma SliceOfSlice(s: seq<byte>, lo: nat, hi: nat, off: nat, len: nat)
    requires lo <= hi <= |s| && off + len <= hi - lo
    ensures s[lo..hi][off..off + len] == s[lo + off..lo + off + len]
  {
    var a, b := s[lo..hi][off..off + len], s[lo + off..lo + off + len];
    forall k | 0 <= k < len ensures a[k] == b[k] {
      assert s[lo..hi][off + k] == s[lo + off + k];
    }
  }

  /** The first slot with this name, up to the end mark; tombstones and labels are skipped. */
  method FindName(slots: seq<Slot>, n: Name) returns (r: Option<nat>)
    requires (forall i | 0 <= i < |slots| :: |slots[i]| == SLOT) && Tailed(slots)
    ensures r.Some? ==> r.value < |slots| && Live(slots[r.value]) && !IsLabel(slots[r.value]) && SlotName(slots[r.value]) == n
    ensures r.None? ==> forall i | 0 <= i < |slots| && Live(slots[i]) && !IsLabel(slots[i]) :: SlotName(slots[i]) != n
  {
    for i := 0 to |slots|
      invariant forall k | 0 <= k < i && Live(slots[k]) && !IsLabel(slots[k]) :: SlotName(slots[k]) != n
    {
      if slots[i][0] == END {
        return None;
      }
      if slots[i][0] != DELETED && !IsLabel(slots[i]) && SlotName(slots[i]) == n {
        return Some(i);
      }
    }
    return None;
  }

  /** Some slot, a volume label included, carries the short name. */
  predicate Taken(slots: seq<Slot>, n: Name)
    requires forall i | 0 <= i < |slots| :: |slots[i]| == SLOT
  {
    exists i | 0 <= i < |slots| :: Live(slots[i]) && !IsLongName(slots[i]) && SameShortName(slots[i], n)
  }

  predicate LabelNamed(slots: seq<Slot>, n: Name) {
    exists i | 0 <= i < |slots| :: |slots[i]| == SLOT && Live(slots[i]) && !IsDot(slots[i]) && IsLabel(slots[i]) && SameShortName(slots[i], n)
  }

  /** short_name_taken: unlike FindName it does not pass over volume labels, nor stop at an end mark. */
  method ShortNameTaken(slots: seq<Slot>, n: Name) returns (taken: bool)
    requires forall i | 0 <= i < |slots| :: |slots[i]| == SLOT
    ensures taken == Taken(slots, n)
  {
    for i := 0 to |slots|
      invariant forall k | 0 <= k < i && Live(slots[k]) && !IsLongName(slots[k]) :: !SameShortName(slots[k], n)
    {
      if slots[i][0] != END && slots[i][0] != DELETED && !IsLongName(slots[i]) && SameShortName(slots[i], n) {
        return true;
      }
    }
    return false;
  }

  /** The first alias from number `k` on that is not taken. */
  function FreeAlias(slots: seq<Slot>, n: Name, k: nat): (r: Option<Name>)
    requires 1 <= k <= 10 && forall i | 0 <= i < |slots| :: |slots[i]| == SLOT
    decreases 10 - k
  {
    if k == 10 then None else if Taken(slots, Alias(n, k)) then FreeAlias(slots, n, k + 1) else Some(Alias(n, k))
  }

  /** The short name a new file gets: its own, or an alias if that is taken. */
  function NewName(slots: seq<Slot>, n: Name): (r: Option<Name>)
    requires forall i | 0 <= i < |slots| :: |slots[i]| == SLOT
  {
    if Taken(slots, n) then FreeAlias(slots, n, 1) else Some(n)
  }

  lemma {:induction false} FreeAliasIsFree(slots: seq<Slot>, n: Name, k: nat)
    requires 1 <= k <= 10 && (forall i | 0 <= i < |slots| :: |slots[i]| == SLOT) && NameOk(n)
    ensures var r := FreeAlias(slots, n, k); r.Some? ==> NameOk(r.value) && !Taken(slots, r.value)
    decreases 10 - k
  {
    if k < 10 {
      AliasIsProper(n, k);
      FreeAliasIsFree(slots, n, k + 1);
    }
  }

  /** The name loop of write_file. */
  method PickName(slots: seq<Slot>, n: Name) returns (r: Option<Name>)
    requires forall i | 0 <= i < |slots| :: |slots[i]| == SLOT
    ensures r == NewName(slots, n)
  {
    hide Taken, Alias;
    var name := n;
    var taken := ShortNameTaken(slots, name);
    if !taken {
      return Some(n);
    }
    name := Alias(n, 1);
    taken := ShortNameTaken(slots, name);
    var k: nat := 1;
    while taken && k < 10
      invariant 1 <= k <= 10 && taken == Taken(slots, name) && name == Alias(n, if k == 1 then 1 else k - 1)
      invariant FreeAlias(slots, n, 1) == if taken then FreeAlias(slots, n, k) else Some(name)
      decreases 10 - k
    {
      name := Alias(n, k);
      taken := ShortNameTaken(slots, name);
      k := k + 1;
    }
    r := if taken then None else Some(name);
  }

  lemma TakenByChild(s: Shape, d: Path, slots: seq<Slot>, n: Name)
    requires SlotsOk(s, d, slots) && NameOk(n) && d + [n] in s.items
    ensures Taken(slots, n)
  {
    hide Clean, SameShortName, Describes, NameOk;
    ChildHasSlot(s, d, slots, n);
    var i := s.slotOf[d + [n]];
    CleanMatches(slots[i], n);
    assert !IsLongName(slots[i]);
  }

  lemma TakenByLabel(s: Shape, d: Path, slots: seq<Slot>, n: Name)
    requires SlotsOk(s, d, slots) && LabelNamed(slots, n)
    ensures Taken(slots, n)
  {
    hide Clean, SameShortName, Describes, NameOk;
    var i :| 0 <= i < |slots| && |slots[i]| == SLOT && Live(slots[i]) && !IsDot(slots[i]) && IsLabel(slots[i])
             && SameShortName(slots[i], n);
    assert SlotOk(s, d, i, slots[i]);
  }

  /** In a well-formed directory a short name is taken by a child or by a volume label. */
  lemma TakenIff(s: Shape, d: Path, slots: seq<Slot>, n: Name)
    requires SlotsOk(s, d, slots) && NameOk(n)
    ensures Taken(slots, n) <==> d + [n] in s.items || LabelNamed(slots, n)
  {
    hide Clean, SameShortName, Describes, NameOk;
    if Taken(slots, n) {
      var i :| 0 <= i < |slots| && Live(slots[i]) && !IsLongName(slots[i]) && SameShortName(slots[i], n);
      assert SlotOk(s, d, i, slots[i]);
      if IsDot(slots[i]) {
        DotMatchesNone(slots[i], n);
      } else if !IsLabel(slots[i]) {
        CleanMatches(slots[i], n);
      }
    } else {
      if d + [n] in s.items {
        TakenByChild(s, d, slots, n);
      }
      if LabelNamed(slots, n) {
        TakenByLabel(s, d, slots, n);
      }
    }
  }

  lemma DotIsNoName(e: Slot)
    requires |e| == SLOT && IsDot(e)
    ensures !NameOk(SlotName(e))
  {
    assert e[0..8][0] == e[0];
    assert SlotName(e).base[0] == DOT;
  }

  /** In a well-formed directory a scan finds exactly the children. */
  lemma FoundIsChild(s: Shape, d: Path, slots: seq<Slot>, i: nat, n: Name)
    requires SlotsOk(s, d, slots) && i < |slots| && Live(slots[i]) && !IsLabel(slots[i]) && SlotName(slots[i]) == n && NameOk(n)
    ensures d + [n] in s.items && d + [n] in s.slotOf && s.slotOf[d + [n]] == i && Describes(slots[i], s.items[d + [n]])
  {
    assert SlotOk(s, d, i, slots[i]);
    if IsDot(slots[i]) {
      DotIsNoName(slots[i]);
    }
  }

  lemma ChildHasSlot(s: Shape, d: Path, slots: seq<Slot>, n: Name)
    requires SlotsOk(s, d, slots) && d + [n] in s.items
    ensures d + [n] in s.slotOf && s.slotOf[d + [n]] < |slots|
    ensures var e := slots[s.slotOf[d + [n]]]; Live(e) && !IsDot(e) && !IsLabel(e) && SlotName(e) == n && Clean(e) && NameOk(n)
  {
    ParentOfChild(d, n);
    assert IsNamed(s, slots, d + [n]);
    assert SlotOk(s, d, s.slotOf[d + [n]], slots[s.slotOf[d + [n]]]);
  }

  /** Every prefix of an item's path is a directory. */
  lemma {:induction false} PrefixIsDir(s: Shape, path: Path, i: nat)
    requires KeysOk(s) && path in s.items && i < |path|
    ensures path[..i] in s.items && s.items[path[..i]].isDir
    decreases |path| - i
  {
    if i == |path| - 1 {
      assert ParentOk(s, path);
    } else {
      PrefixIsDir(s, path, i + 1);
      assert ParentOk(s, path[..i + 1]);
      assert Parent(path[..i + 1]) == path[..i];
    }
  }

  lemma MissingBelow(disk: seq<Sector>, fat: Table, g: Geo, root: nat, s: Shape, path: Path, i: nat)
    requires TreeOk(disk, fat, g, root, s) && i < |path|
    requires path[..i + 1] !in s.items || (path[..i] in s.items && !s.items[path[..i]].isDir)
    ensures path !in s.items
  {
    assert i + 1 == |path| ==> path[..i + 1] == path;
    if path in s.items {
      PrefixIsDir(s, path, i);
      if i + 1 < |path| {
        PrefixIsDir(s, path, i + 1);
      }
    }
  }

  /** What every method needs to know about one item. */
  lemma ItemFacts(disk: seq<Sector>, fat: Table, g: Geo, root: nat, s: Shape, q: Path)
    requires TreeOk(disk, fat, g, root, s) && q in s.items
    ensures ItemOk(s.items[q]) && VolumeOk(disk, fat, g)
    ensures s.items[q].chain != [] ==> IsChain(fat, s.items[q].chain) && s.items[q].chain[0] >= 2
    ensures s.items[q].isDir ==> DirOk(disk, g, s, q)
    ensures q != [] ==> Parent(q) in s.items && s.items[Parent(q)].isDir && NameOk(Leaf(q))
  {
    ParentIsItem(s, q);
    assert q != [] ==> ParentOk(s, q);
  }

  lemma RootFacts(disk: seq<Sector>, fat: Table, g: Geo, root: nat, s: Shape)
    requires TreeOk(disk, fat, g, root, s)
    ensures VolumeOk(disk, fat, g) && g.spc == 1 && ClusterSize(g) == SECTOR
    ensures [] in s.items && EntryOf(s.items[[]]) == Entry(root, 0, true)
  {
    assert Span(0, SECTOR) == 0;
  }

  class Filesystem {
    const vol: Fat32
    const writable: bool
    ghost var shape: Shape

    ghost predicate Valid()
      reads this, vol, vol.disk, vol.fat
    {
      TreeOk(vol.disk[..], vol.fat[..], vol.geo, vol.rootCluster, shape) && BootsAs(vol.disk[..], vol.geo, vol.rootCluster)
    }

    ghost function Contents(): map<Path, Node>
      reads this, vol, vol.disk, vol.fat
    {
      View(vol.disk[..], vol.geo, shape)
    }

    ghost function FreeCount(): nat
      reads vol, vol.fat
    {
      |FreeSet(vol.fat[..])|
    }

    /** Must the directory of `path` grow before the name can be entered? */
    ghost predicate Grows(path: Path)
      reads this, vol, vol.disk
    {
      path != [] && path !in shape.items && DirFull(vol.disk[..], vol.geo, shape, Parent(path))
    }

    /** How writing a file of `n` clusters at `path` ends. */
    ghost function WriteStatus(path: Path, n: nat): Status
      reads this, vol, vol.disk, vol.fat
    {
      if !writable then ReadOnly
      else if ParentStatus(shape, path) != Done then ParentStatus(shape, path)
      else PlaceStatus(FreeCount(), n, Target(vol.disk[..], vol.geo, shape, path), Grows(path))
    }

    /** Its data takes the last free clusters, and then its directory cannot grow. */
    ghost predicate Strands(path: Path, n: nat)
      reads this, vol, vol.disk, vol.fat
    {
      && writable && ParentStatus(shape, path) == Done && Target(vol.disk[..], vol.geo, shape, path).Some?
      && Grows(path) && FreeCount() == n
    }

    /** How creating a directory at `path` ends. */
    ghost function MkdirStatus(path: Path): Status
      reads this, vol, vol.disk, vol.fat
    {
      if !writable then ReadOnly
      else if ParentStatus(shape, path) != Done then ParentStatus(shape, path)
      else if path in shape.items || DirLabelNamed(vol.disk[..], vol.geo, shape, path) then NameExists
      else if FreeCount() < (if Grows(path) then 2 else 1) then DiskFull else Done
    }

    constructor (vol: Fat32, writable: bool, ghost shape: Shape)
      requires TreeOk(vol.disk[..], vol.fat[..], vol.geo, vol.rootCluster, shape)
      requires BootsAs(vol.disk[..], vol.geo, vol.rootCluster)
      ensures Valid() && this.vol == vol && this.writable == writable && this.shape == shape
    {
      hide TreeOk;
      this.vol := vol;
      this.writable := writable;
      this.shape := shape;
    }

    /** Mounting the device again, whatever operations went before, cannot fail and finds the same file system. */
    method Remount() returns (again: Filesystem)
      requires Valid()
      ensures fresh(again) && fresh(again.vol) && fresh(again.vol.fat)
      ensures again.vol.disk == vol.disk && again.vol.geo == vol.geo && again.vol.rootCluster == vol.rootCluster
      ensures again.vol.fat[..] == vol.fat[..] && again.shape == shape && again.writable == writable
      ensures again.Valid() && again.Contents() == Contents()
    {
      RootFacts(vol.disk[..], vol.fat[..], vol.geo, vol.rootCluster, shape);
      RemountFindsTable(vol.disk[..], vol.fat[..], vol.geo);
      var error, geo, root, fat := Fat32.Mount(vol.disk);
      assert error.None?;
      var v := new Fat32(vol.disk, fat, geo, root);
      again := new Filesystem(v, writable, shape);
    }

    /** The slots of a directory, read through its chain. */
    method DirSlots(cluster: nat, ghost d: Path) returns (slots: seq<Slot>)
      requires Valid() && d in shape.items && shape.items[d].isDir && First(shape.items[d].chain) == cluster
      ensures DirOk(vol.disk[..], vol.geo, shape, d)
      ensures slots == SlotsOf(vol.disk[..], vol.geo, shape.items[d].chain)
    {
      hide TreeOk;
      ghost var p, disk := shape.items[d].chain, vol.disk[..];
      ItemFacts(disk, vol.fat[..], vol.geo, vol.rootCluster, shape, d);
      var raw := vol.ReadChain(cluster, p);
      assert p[..Min(|p|, GUARD)] == p;
      slots := SplitSlots(raw, disk, vol.geo, p);
    }

    /** Components of a path, one lookup step each. */
    method Step(current: Entry, ghost d: Path, n: Name) returns (r: Option<Entry>)
      requires Valid() && d in shape.items && shape.items[d].isDir && current == EntryOf(shape.items[d]) && NameOk(n)
      ensures r == Resolve(shape, d + [n])
    {
      hide TreeOk;
      var slots := DirSlots(current.first, d);
      var found := FindName(slots, n);
      if found.None? {
        if d + [n] in shape.items {
          ChildHasSlot(shape, d, slots, n);
        }
        return None;
      }
      FoundIsChild(shape, d, slots, found.value, n);
      var e := slots[found.value];
      return Some(Entry(SlotFirst(e), SlotSize(e), IsDirSlot(e)));
    }

    /** Resolve a path, one component at a time. */
    method Lookup(path: Path) returns (r: Option<Entry>)
      requires Valid() && forall i | 0 <= i < |path| :: NameOk(path[i])
      ensures r == Resolve(shape, path)
    {
      hide TreeOk;
      RootFacts(vol.disk[..], vol.fat[..], vol.geo, vol.rootCluster, shape);
      var current := Entry(vol.rootCluster, 0, true);
      assert path[..0] == [];
      for i := 0 to |path|
        invariant path[..i] in shape.items && current == EntryOf(shape.items[path[..i]])
      {
        assert path[..i] + [path[i]] == path[..i + 1];
        if !current.isDir {
          MissingBelow(vol.disk[..], vol.fat[..], vol.geo, vol.rootCluster, shape, path, i);
          return None;
        }
        r := Step(current, path[..i], path[i]);
        if r.None? {
          MissingBelow(vol.disk[..], vol.fat[..], vol.geo, vol.rootCluster, shape, path, i);
          return;
        }
        current := r.value;
      }
      assert path[..|path|] == path;
      return Some(current);
    }

    /** Read a file. */
    method Cat(path: Path) returns (status: Status, data: seq<byte>)
      requires Valid() && forall i | 0 <= i < |path| :: NameOk(path[i])
      ensures status == if path !in Contents() then NotFound else if Contents()[path].Dir? then IsADirectory else Done
      ensures status == Done ==> Contents()[path] == File(data)
    {
      hide TreeOk;
      var r := Lookup(path);
      if r.None? {
        return NotFound, [];
      }
      if r.value.isDir {
        return IsADirectory, [];
      }
      ghost var p := shape.items[path].chain;
      ItemFacts(vol.disk[..], vol.fat[..], vol.geo, vol.rootCluster, shape, path);
      data := vol.ReadChain(r.value.first, p);
      assert p[..Min(|p|, GUARD)] == p;
      data := data[..Min(|data|, r.value.size)];
      return Done, data;
    }

    // --- directory slots on disk -----------------------------------------------------

    /** The sectors of a directory, one per cluster. */
    method DirLbas(cluster: nat, ghost p: seq<nat>) returns (lbas: seq<nat>)
      requires vol.Valid() && IsChain(vol.fat[..], p) && p[0] == cluster && |p| <= GUARD
      ensures IsLbas(vol.geo, p, lbas)
    {
      hide TreeOk;
      lbas := [];
      var c, guard := cluster, 0;
      while c >= 2 && guard < GUARD
        invariant guard < |p| && guard <= GUARD && c == p[guard] && IsLbas(vol.geo, p[..guard], lbas)
        decreases GUARD - guard
      {
        ghost var before := lbas;
        lbas := lbas + [ClusterLba(vol.geo, c)];
        assert lbas[..guard] == before;
        ChainStep(vol.fat[..], p, guard);
        LbaStep(vol.geo, p, guard, lbas);
        var next := vol.NextCluster(c);
        if next.None? {
          break;
        }
        guard := guard + 1;
        c := next.value;
      }
    }

    /** Rewrite one slot of a directory on disk. */
    method PatchSlot(lbas: seq<nat>, ghost p: seq<nat>, idx: nat, e: Slot) returns (ok: bool)
      requires vol.Valid() && vol.geo.spc == 1 && Linked(vol.fat[..], p) && NoRepeat(p) && IsLbas(vol.geo, p, lbas)
      requires |e| == SLOT
      modifies vol.disk
      ensures vol.Valid() && ok == (idx < SLOTS_PER_SECTOR * |p|)
      ensures ok ==> Patched(old(vol.disk[..]), vol.disk[..], vol.geo, vol.fat.Length, p, idx, e)
      ensures ok ==> OnlyClusters(old(vol.disk[..]), vol.disk[..], vol.geo, vol.fat.Length, [p[idx / SLOTS_PER_SECTOR]])
      ensures !ok ==> vol.disk[..] == old(vol.disk[..])
    {
      hide TreeOk;
      var off := idx * SLOT;
      var secI, inOff := off / SECTOR, off % SECTOR;
      SlotPlace(idx, |lbas|);
      if secI >= |lbas| {
        return false;
      }
      ghost var was, table := vol.disk[..], vol.fat[..];
      OneSector(was, table, vol.geo, p[secI]);
      var lba := lbas[secI];
      var sec := vol.disk[lba];
      var patched := sec[..inOff] + e + sec[inOff + SLOT..];
      vol.disk[lba] := patched;
      assert vol.fat[..] == table && vol.disk[..] == was[lba := patched];
      SlotPatched(was, vol.disk[..], table, vol.geo, p, idx, e, p[secI]);
      return true;
    }

    /** Store data in a fresh chain that nothing refers to yet. */
    method StoreData(data: seq<byte>) returns (r: Option<nat>, ghost p: seq<nat>)
      requires Valid()
      modifies this`shape, vol.disk, vol.fat
      ensures Valid() && Contents() == old(Contents())
      ensures r.Some? <==> Clusters(|data|, SECTOR) <= |FreeSet(old(vol.fat[..]))|
      ensures r.None? ==> shape == old(shape) && vol.fat[..] == old(vol.fat[..])
      ensures r.Some? ==> shape == old(shape).(lost := old(shape).lost + Members(p)) && r.value == First(p)
      ensures r.Some? ==> AddedChain(old(vol.fat[..]), vol.fat[..], p) && Stored(vol.disk[..], vol.geo, p, data)
      ensures r.Some? ==> |p| == Clusters(|data|, SECTOR)
      ensures KeepsOwned(old(vol.disk[..]), vol.disk[..], vol.geo, old(shape))
      ensures r.Some? ==> Members(p) !! old(shape).lost && |Members(p)| == |p|
      ensures r.Some? ==> |FreeSet(vol.fat[..])| + |p| == |FreeSet(old(vol.fat[..]))|
    {
      hide TreeOk;
      ghost var disk0, fat0, s0 := vol.disk[..], vol.fat[..], shape;
      RootFacts(disk0, fat0, vol.geo, vol.rootCluster, s0);
      r, p := vol.WriteChain(data);
      if r.Some? {
        StoredTree(disk0, vol.disk[..], fat0, vol.fat[..], vol.geo, vol.rootCluster, s0, p);
        shape := s0.(lost := s0.lost + Members(p));
      } else {
        FailedTree(disk0, vol.disk[..], fat0, vol.geo, vol.rootCluster, s0);
      }
    }

    /** A cluster that belongs to nobody, filled with `content` and zeros. */
    method TakeCluster(content: nat --> seq<byte>, ghost d: Path) returns (c: Option<nat>)
      requires Valid() && d in shape.items && shape.items[d].isDir && DirOk(vol.disk[..], vol.geo, shape, d)
      requires forall k | 0 <= k < FAT_CACHE_MAX :: content.requires(k)
      modifies this`shape, vol.disk, vol.fat
      ensures Valid() && Contents() == old(Contents())
      ensures c.None? ==> shape == old(shape) && vol.fat[..] == old(vol.fat[..]) && FreeSet(vol.fat[..]) == {}
      ensures c.Some? ==> shape == old(shape).(lost := old(shape).lost + {c.value}) && c.value !in old(shape).lost
      ensures c.Some? ==> IsChain(vol.fat[..], [c.value]) && c.value < |old(vol.fat[..])| &&
                          vol.fat[..] == old(vol.fat[..])[c.value := EOC]
      ensures c.Some? ==> |FreeSet(vol.fat[..])| + 1 == |FreeSet(old(vol.fat[..]))|
      ensures c.Some? ==> c.value < FAT_CACHE_MAX && content.requires(c.value) &&
                          ClusterBytes(vol.disk[..], vol.geo, c.value) == Padded(content(c.value), 0, ClusterSize(vol.geo))
      ensures DirOnDisk(vol.disk[..], vol.geo, shape.items[d].chain) &&
              SlotsOf(vol.disk[..], vol.geo, shape.items[d].chain) == old(SlotsOf(vol.disk[..], vol.geo, shape.items[d].chain))
      ensures KeepsLost(old(vol.disk[..]), vol.disk[..], vol.geo, old(vol.fat[..]), vol.fat[..], old(shape).lost)
    {
      hide TreeOk, BootsAs;
      ghost var disk0, fat0, s0 := vol.disk[..], vol.fat[..], shape;
      RootFacts(disk0, fat0, vol.geo, vol.rootCluster, s0);
      TakenInRange(disk0, fat0, vol.geo, vol.rootCluster, s0);
      c := vol.AllocCluster();
      if c.None? {
        FailedTree(disk0, vol.disk[..], fat0, vol.geo, vol.rootCluster, s0);
        OnlyFatClusters(disk0, vol.disk[..], fat0, vol.geo);
        assert forall i | 0 <= i < |s0.items[d].chain| :: ClusterSame(disk0, vol.disk[..], vol.geo, s0.items[d].chain[i]);
        SlotsFrame(disk0, vol.disk[..], vol.geo, s0.items[d].chain);
        return;
      }
      ghost var mid := vol.disk[..];
      vol.WriteCluster(c.value, content(c.value), 0);
      OnlyBoth(disk0, mid, vol.disk[..], vol.geo, vol.fat[..], [c.value]);
      ClusterTaken(disk0, vol.disk[..], fat0, vol.fat[..], vol.geo, vol.rootCluster, s0, d, c.value);
      AddedSingle(fat0, vol.fat[..], c.value);
      AddedChainFree(fat0, vol.fat[..], [c.value]);
      shape := s0.(lost := s0.lost + {c.value});
    }

    /** Link a zeroed cluster behind the chain of a full directory. */
    method LinkCluster(slots: seq<Slot>, lbas: seq<nat>, ghost d: Path, c: nat) returns (lbas': seq<nat>)
      requires Valid() && d in shape.items && shape.items[d].isDir && |shape.items[d].chain| < GUARD
      requires DirOnDisk(vol.disk[..], vol.geo, shape.items[d].chain)
      requires slots == SlotsOf(vol.disk[..], vol.geo, shape.items[d].chain) && forall e | e in slots :: Live(e)
      requires IsLbas(vol.geo, shape.items[d].chain, lbas) && c in shape.lost && IsChain(vol.fat[..], [c])
      requires ClusterBytes(vol.disk[..], vol.geo, c) == Padded([], 0, ClusterSize(vol.geo))
      modifies this`shape, vol.disk, vol.fat
      ensures Valid() && Contents() == old(Contents()) && shape == GrowDir(old(shape), d, c)
      ensures DirOnDisk(vol.disk[..], vol.geo, shape.items[d].chain) &&
              LowestFreeSlot(SlotsOf(vol.disk[..], vol.geo, shape.items[d].chain), |slots|)
      ensures IsLbas(vol.geo, shape.items[d].chain, lbas') && FreeSet(vol.fat[..]) == FreeSet(old(vol.fat[..]))
      ensures KeepsLost(old(vol.disk[..]), vol.disk[..], vol.geo, old(vol.fat[..]), vol.fat[..], old(shape).lost)
    {
      hide TreeOk, BootsAs;
      ghost var disk1, fat1, s1 := vol.disk[..], vol.fat[..], shape;
      TailCluster(disk1, fat1, vol.geo, vol.rootCluster, s1, d, lbas);
      var tail := (lbas[|lbas| - 1] - DataBegin(vol.geo)) / vol.geo.spc + 2;
      var ok := vol.FatSet(tail, c);
      ClusterLinked(disk1, vol.disk[..], fat1, vol.fat[..], vol.geo, vol.rootCluster, s1, d, c, tail);
      OnlyFatClusters(disk1, vol.disk[..], fat1, vol.geo);
      shape := GrowDir(s1, d, c);
      lbas' := lbas + [ClusterLba(vol.geo, c)];
    }

    /** A free slot of a directory: the lowest deleted or unused one, else the first of a fresh zeroed
        cluster.  Chains that belong to nobody stay as they are. */
    method TakeDirSlot(slots: seq<Slot>, lbas: seq<nat>, ghost d: Path) returns (idx: Option<nat>, lbas': seq<nat>)
      requires Valid() && d in shape.items && shape.items[d].isDir && |shape.items[d].chain| < GUARD
      requires DirOk(vol.disk[..], vol.geo, shape, d)
      requires slots == SlotsOf(vol.disk[..], vol.geo, shape.items[d].chain)
      requires IsLbas(vol.geo, shape.items[d].chain, lbas)
      modifies this`shape, vol.disk, vol.fat
      ensures Valid() && Contents() == old(Contents()) && SameButChain(old(shape), shape, d)
      ensures idx.None? ==> shape == old(shape) && vol.fat[..] == old(vol.fat[..])
      ensures idx.None? <==> Full(slots) && FreeSet(old(vol.fat[..])) == {}
      ensures idx.Some? ==> DirOnDisk(vol.disk[..], vol.geo, shape.items[d].chain) &&
                            LowestFreeSlot(SlotsOf(vol.disk[..], vol.geo, shape.items[d].chain), idx.value)
      ensures idx.Some? ==> IsLbas(vol.geo, shape.items[d].chain, lbas')
      ensures idx.Some? ==> Grew(old(shape), shape, d, old(vol.fat[..]), vol.fat[..], Full(slots))
      ensures KeepsLost(old(vol.disk[..]), vol.disk[..], vol.geo, old(vol.fat[..]), vol.fat[..], old(shape).lost)
    {
      hide TreeOk;
      TakenInRange(vol.disk[..], vol.fat[..], vol.geo, vol.rootCluster, shape);
      idx := FirstFreeSlot(slots);
      lbas' := lbas;
      if idx.None? {
        idx, lbas' := GrowDirectory(slots, lbas, d);
      }
    }

    method GrowDirectory(slots: seq<Slot>, lbas: seq<nat>, ghost d: Path) returns (idx: Option<nat>, lbas': seq<nat>)
      requires Valid() && d in shape.items && shape.items[d].isDir && |shape.items[d].chain| < GUARD
      requires DirOk(vol.disk[..], vol.geo, shape, d)
      requires slots == SlotsOf(vol.disk[..], vol.geo, shape.items[d].chain) && forall e | e in slots :: Live(e)
      requires IsLbas(vol.geo, shape.items[d].chain, lbas)
      modifies this`shape, vol.disk, vol.fat
      ensures Valid() && Contents() == old(Contents()) && SameButChain(old(shape), shape, d)
      ensures idx.None? ==> shape == old(shape) && vol.fat[..] == old(vol.fat[..]) && FreeSet(vol.fat[..]) == {}
      ensures idx.Some? ==> DirOnDisk(vol.disk[..], vol.geo, shape.items[d].chain) &&
                            LowestFreeSlot(SlotsOf(vol.disk[..], vol.geo, shape.items[d].chain), idx.value)
      ensures idx.Some? ==> IsLbas(vol.geo, shape.items[d].chain, lbas')
      ensures idx.Some? ==> Grew(old(shape), shape, d, old(vol.fat[..]), vol.fat[..], true)
      ensures KeepsLost(old(vol.disk[..]), vol.disk[..], vol.geo, old(vol.fat[..]), vol.fat[..], old(shape).lost)
    {
      hide TreeOk;
      ghost var disk0, fat0, s0 := vol.disk[..], vol.fat[..], shape;
      var c := TakeCluster(k => [], d);
      if c.None? {
        return None, lbas;
      }
      ghost var disk1, fat1 := vol.disk[..], vol.fat[..];
      GrowSameButChain(s0, d, c.value);
      lbas' := LinkCluster(slots, lbas, d, c.value);
      LostTrans(disk0, disk1, vol.disk[..], vol.geo, fat0, fat1, vol.fat[..], s0.lost, c.value);
      idx := Some(|slots|);
    }

    /** Enter a new item in its directory, or find no room for its slot. */
    method AddEntry(path: Path, e: Slot, ghost it: Item, slots: seq<Slot>, lbas: seq<nat>) returns (ok: bool)
      requires Valid() && MayAdd(shape, path, it, e) && ReadAs(vol.disk[..], vol.geo, shape, Parent(path), slots, lbas)
      requires Members(it.chain) <= shape.lost && (it.chain != [] ==> IsChain(vol.fat[..], it.chain))
      requires it.isDir ==> NewDir(vol.disk[..], vol.geo, shape, path, it)
      modifies this`shape, vol.disk, vol.fat
      ensures Valid()
      ensures ok ==> Contents() == old(Contents())[path := old(NodeOf(vol.disk[..], vol.geo, it))]
      ensures ok ==> shape.lost == old(shape).lost - Members(it.chain)
      ensures ok ==> Entered(old(shape), shape, path, it, old(vol.fat[..]), vol.fat[..], Full(slots))
      ensures !ok ==> shape == old(shape) && Contents() == old(Contents()) && vol.fat[..] == old(vol.fat[..])
      ensures ok <==> !(Full(slots) && FreeSet(old(vol.fat[..])) == {})
    {
      hide TreeOk;
      hide BootsAs, Entered, Grew, Full, Placed;
      ghost var disk0, fat0, s0 := vol.disk[..], vol.fat[..], shape;
      ItemFacts(disk0, fat0, vol.geo, vol.rootCluster, s0, Parent(path));
      var idx, lbas' := TakeDirSlot(slots, lbas, Parent(path));
      if idx.None? {
        return false;
      }
      ghost var disk1, fat1, s1 := vol.disk[..], vol.fat[..], shape;
      Carried(disk0, disk1, vol.geo, fat0, fat1, s0, s1, path, it);
      ReadyToEnter(disk1, fat1, vol.geo, vol.rootCluster, s0, s1, path, it, e, lbas', idx.value);
      EnterSlot(path, e, it, lbas', idx.value);
      EnteredByName(s0, s1, path, it, idx.value, fat0, fat1, Full(slots));
      ok := true;
    }

    /** Write the slot of a new item. */
    method EnterSlot(path: Path, e: Slot, ghost it: Item, lbas: seq<nat>, idx: nat)
      requires Valid() && MayEnter(vol.disk[..], vol.fat[..], vol.geo, shape, path, it, e, lbas, idx)
      modifies this`shape, vol.disk
      ensures Valid() && shape == AddName(old(shape), path, it, idx) && vol.fat[..] == old(vol.fat[..])
      ensures Contents() == old(Contents())[path := old(NodeOf(vol.disk[..], vol.geo, it))]
    {
      hide TreeOk, BootsAs;
      ghost var disk1, fat1, s1, ch := vol.disk[..], vol.fat[..], shape, shape.items[Parent(path)].chain;
      RootFacts(disk1, fat1, vol.geo, vol.rootCluster, s1);
      var ok := PatchSlot(lbas, ch, idx, e);
      EnteredTree(disk1, vol.disk[..], fat1, vol.geo, vol.rootCluster, s1, path, it, e, lbas, idx);
      shape := AddName(s1, path, it, idx);
    }

    // --- the operations --------------------------------------------------------------------

    /** The directory that holds the last component of a path. */
    method FindParent(path: Path) returns (status: Status, cluster: nat)
      requires Valid() && forall i | 0 <= i < |path| :: NameOk(path[i])
      ensures status == ParentStatus(shape, path)
      ensures status == Done ==> cluster == First(shape.items[Parent(path)].chain)
    {
      hide TreeOk;
      RootFacts(vol.disk[..], vol.fat[..], vol.geo, vol.rootCluster, shape);
      if path == [] {
        return BadPath, 0;
      }
      if |path| == 1 {
        assert Parent(path) == [];
        return Done, vol.rootCluster;
      }
      var r := Lookup(path[..|path| - 1]);
      if r.None? {
        return NoDirectory, 0;
      }
      if !r.value.isDir {
        return NotADirectory, 0;
      }
      return Done, r.value.first;
    }

    method ReadDir(cluster: nat, ghost d: Path) returns (slots: seq<Slot>, lbas: seq<nat>)
      requires Valid() && d in shape.items && shape.items[d].isDir && First(shape.items[d].chain) == cluster
      ensures ReadAs(vol.disk[..], vol.geo, shape, d, slots, lbas)
    {
      hide TreeOk;
      slots := DirSlots(cluster, d);
      ItemFacts(vol.disk[..], vol.fat[..], vol.geo, vol.rootCluster, shape, d);
      lbas := DirLbas(cluster, shape.items[d].chain);
    }

    /** Give back the clusters of an item. */
    method FreeItem(first: nat, ghost q: Path)
      requires Valid() && q in shape.items && first == First(shape.items[q].chain)
      modifies vol.disk, vol.fat
      ensures vol.Valid() && OnlyFat(old(vol.disk[..]), vol.disk[..], vol.geo)
      ensures vol.fat[..] == FreedTable(old(vol.fat[..]), shape.items[q].chain)
    {
      hide TreeOk;
      ghost var p := shape.items[q].chain;
      ItemFacts(vol.disk[..], vol.fat[..], vol.geo, vol.rootCluster, shape, q);
      if first >= 2 {
        assert p[..Min(|p|, GUARD)] == p;
        vol.FreeChain(first, p);
      }
    }

    /** Replace a file: its old clusters go, its slot gets the new first cluster and size. */
    method Overwrite(path: Path, first: nat, size: nat, ghost p: seq<nat>, slots: seq<Slot>, lbas: seq<nat>, idx: nat)
      requires Valid() && path != [] && path in shape.items && !shape.items[path].isDir && Parent(path) in shape.items
      requires ReadAs(vol.disk[..], vol.geo, shape, Parent(path), slots, lbas) && idx < |slots|
      requires path in shape.slotOf && shape.slotOf[path] == idx && SlotName(slots[idx]) == Leaf(path)
      requires Describes(slots[idx], shape.items[path]) && ItemOk(Item(false, p, size)) && first == First(p) && first < U32
      requires Members(p) <= shape.lost && (p != [] ==> IsChain(vol.fat[..], p))
      modifies this`shape, vol.disk, vol.fat
      ensures Valid() && shape == ReplaceName(old(shape), path, Item(false, p, size))
      ensures |FreeSet(vol.fat[..])| == |FreeSet(old(vol.fat[..]))| + |old(shape).items[path].chain|
      ensures Contents() == old(Contents())[path := old(NodeOf(vol.disk[..], vol.geo, Item(false, p, size)))]
    {
      hide TreeOk, BootsAs;
      ghost var disk1, fat1, s1, it := vol.disk[..], vol.fat[..], shape, Item(false, p, size);
      ItemFacts(disk1, fat1, vol.geo, vol.rootCluster, s1, path);
      FreeItem(SlotFirst(slots[idx]), path);
      ghost var disk2 := vol.disk[..];
      var e := MakeDirent(SlotName(slots[idx]), first, size, ARCHIVE);
      FileSlot(Leaf(path), p, size);
      StillLinked(disk1, fat1, vol.geo, vol.rootCluster, s1, path, Parent(path));
      var ok := PatchSlot(lbas, s1.items[Parent(path)].chain, idx, e);
      ReplacedTree(disk1, disk2, vol.disk[..], fat1, vol.geo, vol.rootCluster, s1, path, it, e);
      ItemRemovable(disk1, fat1, vol.geo, vol.rootCluster, s1, path);
      shape := ReplaceName(s1, path, it);
    }

    /** Create or replace a file. */
    method WriteFile(path: Path, data: seq<byte>) returns (status: Status, ghost leaked: set<nat>)
      requires Valid() && (forall i | 0 <= i < |path| :: NameOk(path[i])) && BelowGuard(shape, path)
      requires Clusters(|data|, SECTOR) <= GUARD && !(path in shape.items && shape.items[path].isDir)
      modifies this`shape, vol.disk, vol.fat
      ensures Valid() && status == old(WriteStatus(path, Clusters(|data|, SECTOR)))
      ensures status != Done ==> Contents() == old(Contents()) && FreeCount() + |leaked| == old(FreeCount())
      ensures status == Done ==> var q := Target(old(vol.disk[..]), vol.geo, old(shape), path).value;
        && Contents() == old(Contents())[q := File(data)] && (q in old(shape).items ==> q == path)
        && Placed(old(shape), shape, q, false, |data|, Clusters(|data|, SECTOR))
        && Accounts(old(shape), shape, q, old(vol.fat[..]), vol.fat[..],
                    DirFull(old(vol.disk[..]), vol.geo, old(shape), Parent(path)))
      ensures shape.lost == old(shape).lost + leaked
      ensures |leaked| == if old(Strands(path, Clusters(|data|, SECTOR))) then Clusters(|data|, SECTOR) else 0
    {
      hide TreeOk, BootsAs;
      leaked := {};
      if !writable {
        return ReadOnly, leaked;
      }
      var cluster;
      status, cluster := FindParent(path);
      if status != Done {
        return;
      }
      ghost var d, disk0, fat0, s0 := Parent(path), vol.disk[..], vol.fat[..], shape;
      var slots, lbas := ReadDir(cluster, d);
      var leaf := path[|path| - 1];
      var existing := FindName(slots, leaf);
      FindIsItem(s0, path, slots, existing);
      status, leaked := PlaceFile(path, data, existing, slots, lbas);
    }

    /** Store the data, then point a slot at it. */
    method PlaceFile(path: Path, data: seq<byte>, existing: Option<nat>, slots: seq<Slot>, lbas: seq<nat>)
      returns (status: Status, ghost leaked: set<nat>)
      requires Valid() && path != [] && NameOk(Leaf(path)) && ParentStatus(shape, path) == Done && BelowGuard(shape, path)
      requires Clusters(|data|, SECTOR) <= GUARD && !(path in shape.items && shape.items[path].isDir)
      requires ReadAs(vol.disk[..], vol.geo, shape, Parent(path), slots, lbas)
      requires existing.Some? <==> path in shape.items
      requires existing.Some? ==> existing.value < |slots| && Live(slots[existing.value]) &&
                                  !IsLabel(slots[existing.value]) && SlotName(slots[existing.value]) == Leaf(path)
      modifies this`shape, vol.disk, vol.fat
      ensures Valid() && shape.lost == old(shape).lost + leaked
      ensures status == PlaceStatus(|FreeSet(old(vol.fat[..]))|, Clusters(|data|, SECTOR), TargetIn(old(shape), slots, path),
                                    path !in old(shape).items && Full(slots))
      ensures status != Done ==> Contents() == old(Contents()) && |FreeSet(vol.fat[..])| + |leaked| == |FreeSet(old(vol.fat[..]))|
      ensures status == Done ==> var q := TargetIn(old(shape), slots, path).value;
        && Contents() == old(Contents())[q := File(data)] && (q in old(shape).items ==> q == path)
        && Placed(old(shape), shape, q, false, |data|, Clusters(|data|, SECTOR))
        && Accounts(old(shape), shape, q, old(vol.fat[..]), vol.fat[..], Full(slots))
      ensures |leaked| == if status == DiskFull && |FreeSet(old(vol.fat[..]))| >= Clusters(|data|, SECTOR)
                          then Clusters(|data|, SECTOR) else 0
    {
      hide TreeOk, BootsAs, Entered, Full, Placed, Accounts, View, KeepsOwned;
      ghost var disk0, fat0, s0 := vol.disk[..], vol.fat[..], shape;
      var first;
      ghost var p;
      first, p := StoreData(data);
      leaked := {};
      if first.None? {
        return DiskFull, leaked;
      }
      RootFacts(vol.disk[..], vol.fat[..], vol.geo, vol.rootCluster, shape);
      StillReads(disk0, vol.disk[..], vol.fat[..], vol.geo, vol.rootCluster, s0, shape, Parent(path), slots, lbas);
      StoredItem(vol.disk[..], vol.fat[..], vol.geo, p, data);
      if existing.Some? {
        PlaceOld(path, first.value, p, data, slots, lbas, existing.value, s0, fat0);
        return Done, leaked;
      }
      status, leaked := PlaceNew(path, first.value, p, data, slots, lbas, s0, fat0);
    }

    /** The stored chain takes the place of an existing file's. */
    method PlaceOld(path: Path, first: nat, ghost p: seq<nat>, data: seq<byte>, slots: seq<Slot>, lbas: seq<nat>, idx: nat,
                    ghost s0: Shape, ghost fat0: Table)
      requires Valid() && ReadyToPlace(vol.disk[..], vol.fat[..], vol.geo, s0, shape, fat0, path, first, p, data, slots, lbas)
      requires path in shape.items && !shape.items[path].isDir && idx < |slots|
      requires |slots[idx]| == SLOT && Live(slots[idx]) && !IsLabel(slots[idx]) && SlotName(slots[idx]) == Leaf(path)
      modifies this`shape, vol.disk, vol.fat
      ensures Valid() && shape.lost == s0.lost && Contents() == old(Contents())[path := File(data)]
      ensures Placed(s0, shape, path, false, |data|, |p|) && Accounts(s0, shape, path, fat0, vol.fat[..], Full(slots))
    {
      hide TreeOk, BootsAs, Full, Placed, Accounts, View;
      ghost var s1, fat1 := shape, vol.fat[..];
      ReadSlots(vol.disk[..], vol.geo, shape, Parent(path), slots, lbas);
      ChildOfParent(path);
      FoundIsChild(shape, Parent(path), slots, idx, Leaf(path));
      LostAgain(vol.disk[..], vol.fat[..], vol.geo, vol.rootCluster, shape, s0.lost, path, p, |data|);
      Overwrite(path, first, |data|, p, slots, lbas, idx);
      AccountedReplace(s0, s1, path, p, |data|, fat0, fat1, vol.fat[..], Full(slots));
    }

    /** The stored chain becomes a new file. */
    method PlaceNew(path: Path, first: nat, ghost p: seq<nat>, data: seq<byte>, slots: seq<Slot>, lbas: seq<nat>,
                    ghost s0: Shape, ghost fat0: Table) returns (status: Status, ghost leaked: set<nat>)
      requires Valid() && ReadyToPlace(vol.disk[..], vol.fat[..], vol.geo, s0, shape, fat0, path, first, p, data, slots, lbas)
      requires path !in shape.items && BelowGuard(shape, path)
      modifies this`shape, vol.disk, vol.fat
      ensures Valid() && (status == Done || status == DiskFull || status == NoShortName)
      ensures shape.lost == s0.lost + leaked && leaked == if status == DiskFull then Members(p) else {}
      ensures status != Done ==> Contents() == old(Contents())
      ensures status == NoShortName ==> |FreeSet(vol.fat[..])| == |FreeSet(fat0)|
      ensures status == DiskFull ==> FreeSet(vol.fat[..]) == {} && |FreeSet(fat0)| == |p|
      ensures status != NoShortName ==> (status == DiskFull <==> Full(slots) && |FreeSet(fat0)| == |p|)
      ensures forall i | 0 <= i < |slots| :: |slots[i]| == SLOT
      ensures status == NoShortName ==> NewName(slots, Leaf(path)).None?
      ensures status == Done ==> NewName(slots, Leaf(path)).Some? && var q := Parent(path) + [NewName(slots, Leaf(path)).value];
        && Contents() == old(Contents())[q := File(data)] && Placed(s0, shape, q, false, |data|, |p|)
        && Accounts(s0, shape, q, fat0, vol.fat[..], Full(slots)) && q !in s0.items
      ensures status == DiskFull ==> NewName(slots, Leaf(path)).Some?
    {
      hide TreeOk, BootsAs, Entered, Full, Placed, Accounts, View, NewName;
      ghost var s1, fat1 := shape, vol.fat[..];
      ReadSlots(vol.disk[..], vol.geo, shape, Parent(path), slots, lbas);
      status := EnterNew(path, first, p, |data|, slots, lbas);
      if status == Done {
        ghost var q := Parent(path) + [NewName(slots, Leaf(path)).value];
        AccountedEntry(s0, s1, shape, q, Item(false, p, |data|), fat0, fat1, vol.fat[..], Full(slots));
      }
      leaked := if status == DiskFull then Members(p) else {};
    }

    /** Find a free short name for a new file and enter it, or give the data back. */
    method EnterNew(path: Path, first: nat, ghost p: seq<nat>, size: nat, slots: seq<Slot>, lbas: seq<nat>) returns (status: Status)
      requires Valid() && path != [] && path !in shape.items && ParentStatus(shape, path) == Done && BelowGuard(shape, path)
      requires NameOk(Leaf(path)) && ReadAs(vol.disk[..], vol.geo, shape, Parent(path), slots, lbas)
      requires ItemOk(Item(false, p, size)) && first == First(p) && first < U32
      requires Members(p) <= shape.lost && (p != [] ==> IsChain(vol.fat[..], p))
      modifies this`shape, vol.disk, vol.fat
      ensures Valid() && (status == Done || status == DiskFull || status == NoShortName)
      ensures status == NoShortName ==> NewName(slots, Leaf(path)).None? && shape == old(shape).(lost := old(shape).lost - Members(p))
      ensures status == NoShortName ==> Contents() == old(Contents()) && |FreeSet(vol.fat[..])| == |FreeSet(old(vol.fat[..]))| + |p|
      ensures status != NoShortName ==> NewName(slots, Leaf(path)).Some?
      ensures status == Done ==> var q := Parent(path) + [NewName(slots, Leaf(path)).value];
        && q !in old(shape).items && shape.lost == old(shape).lost - Members(p)
        && Contents() == old(Contents())[q := old(NodeOf(vol.disk[..], vol.geo, Item(false, p, size)))]
        && Entered(old(shape), shape, q, Item(false, p, size), old(vol.fat[..]), vol.fat[..], Full(slots))
      ensures status == DiskFull ==> shape == old(shape) && Contents() == old(Contents()) && vol.fat[..] == old(vol.fat[..])
      ensures status != NoShortName ==> (status == DiskFull <==> Full(slots) && FreeSet(old(vol.fat[..])) == {})
    {
      hide TreeOk, BootsAs, Entered, Full, ReadAs;
      assert forall i | 0 <= i < |slots| :: |slots[i]| == SLOT by {
        ReadSlots(vol.disk[..], vol.geo, shape, Parent(path), slots, lbas);
      }
      var name := PickName(slots, path[|path| - 1]);
      if name.None? {
        DropChain(first, p);
        return NoShortName;
      }
      NewNameIsFree(vol.disk[..], vol.geo, shape, path, slots, lbas);
      var ok := EnterFile(path[..|path| - 1] + [name.value], first, p, size, slots, lbas);
      status := if ok then Done else DiskFull;
    }

    /** free_chain on data that got no name. */
    method DropChain(first: nat, ghost p: seq<nat>)
      requires Valid() && first == First(p) && |p| <= GUARD && Members(p) <= shape.lost && (p != [] ==> IsChain(vol.fat[..], p))
      modifies this`shape, vol.disk, vol.fat
      ensures Valid() && shape == old(shape).(lost := old(shape).lost - Members(p)) && Contents() == old(Contents())
      ensures |FreeSet(vol.fat[..])| == |FreeSet(old(vol.fat[..]))| + |p|
    {
      hide TreeOk;
      ghost var disk1, fat1, s1 := vol.disk[..], vol.fat[..], shape;
      RootFacts(disk1, fat1, vol.geo, vol.rootCluster, s1);
      if first >= 2 {
        assert p[..Min(|p|, GUARD)] == p;
        vol.FreeChain(first, p);
        ZeroedFree(fat1, p);
        DroppedTree(disk1, vol.disk[..], fat1, vol.geo, vol.rootCluster, s1, p);
        shape := s1.(lost := s1.lost - Members(p));
      } else {
        assert p == [];
        assert s1.lost - Members(p) == s1.lost;
      }
    }

    method EnterFile(path: Path, first: nat, ghost p: seq<nat>, size: nat, slots: seq<Slot>, lbas: seq<nat>) returns (ok: bool)
      requires Valid() && path != [] && path !in shape.items && ParentStatus(shape, path) == Done && BelowGuard(shape, path)
      requires NameOk(Leaf(path)) && ReadAs(vol.disk[..], vol.geo, shape, Parent(path), slots, lbas)
      requires ItemOk(Item(false, p, size)) && first == First(p) && first < U32
      requires Members(p) <= shape.lost && (p != [] ==> IsChain(vol.fat[..], p))
      modifies this`shape, vol.disk, vol.fat
      ensures Valid()
      ensures ok ==> Contents() == old(Contents())[path := old(NodeOf(vol.disk[..], vol.geo, Item(false, p, size)))]
      ensures ok ==> shape.lost == old(shape).lost - Members(p)
      ensures ok ==> Entered(old(shape), shape, path, Item(false, p, size), old(vol.fat[..]), vol.fat[..], Full(slots))
      ensures !ok ==> shape == old(shape) && Contents() == old(Contents()) && vol.fat[..] == old(vol.fat[..])
      ensures ok <==> !(Full(slots) && FreeSet(old(vol.fat[..])) == {})
    {
      hide TreeOk;
      FileSlot(Leaf(path), p, size);
      ok := AddEntry(path, MakeDirent(path[|path| - 1], first, size, ARCHIVE), Item(false, p, size), slots, lbas);
    }

    /** Create a directory: a cluster with "." and "..", then a slot for it. */
    method Mkdir(path: Path) returns (status: Status)
      requires Valid() && (forall i | 0 <= i < |path| :: NameOk(path[i])) && BelowGuard(shape, path)
      modifies this`shape, vol.disk, vol.fat
      ensures Valid() && shape.lost == old(shape).lost && status == old(MkdirStatus(path))
      ensures status == Done ==> Contents() == old(Contents())[path := Dir]
      ensures status == Done ==> Placed(old(shape), shape, path, true, 0, 1)
      ensures status == Done ==> path != [] && Accounts(old(shape), shape, path, old(vol.fat[..]), vol.fat[..],
                                          DirFull(old(vol.disk[..]), vol.geo, old(shape), Parent(path)))
      ensures status != Done ==> Contents() == old(Contents()) && shape == old(shape)
    {
      hide TreeOk, BootsAs;
      if !writable {
        return ReadOnly;
      }
      var cluster;
      status, cluster := FindParent(path);
      if status != Done {
        return;
      }
      var slots, lbas := ReadDir(cluster, Parent(path));
      var taken := ShortNameTaken(slots, path[|path| - 1]);
      ChildOfParent(path);
      TakenIff(shape, Parent(path), slots, Leaf(path));
      if taken {
        return NameExists;
      }
      status := MakeDirectory(path, cluster, slots, lbas);
    }

    method MakeDirectory(path: Path, cluster: nat, slots: seq<Slot>, lbas: seq<nat>) returns (status: Status)
      requires Valid() && path != [] && path !in shape.items && ParentStatus(shape, path) == Done && BelowGuard(shape, path)
      requires NameOk(Leaf(path)) && ReadAs(vol.disk[..], vol.geo, shape, Parent(path), slots, lbas)
      requires cluster == First(shape.items[Parent(path)].chain)
      modifies this`shape, vol.disk, vol.fat
      ensures Valid() && shape.lost == old(shape).lost && (status == Done || status == DiskFull)
      ensures status == Done ==> Contents() == old(Contents())[path := Dir]
      ensures status == Done ==> Placed(old(shape), shape, path, true, 0, 1)
      ensures status == Done ==> Accounts(old(shape), shape, path, old(vol.fat[..]), vol.fat[..], Full(slots))
      ensures status == DiskFull ==> Contents() == old(Contents()) && shape == old(shape)
      ensures status == DiskFull <==> |FreeSet(old(vol.fat[..]))| < (if Full(slots) then 2 else 1)
    {
      hide TreeOk;
      hide BootsAs, Entered, Full, Placed, Accounts;
      ghost var fat0, s0 := vol.fat[..], shape;
      var c := TakeDirCluster(path, cluster, slots, lbas);
      if c.None? {
        return DiskFull;
      }
      ghost var fat1, s1 := vol.fat[..], shape;
      DirSlot(Leaf(path), c.value);
      SingleMember(c.value);
      var ok := AddEntry(path, MakeDirent(path[|path| - 1], c.value, 0, DIRECTORY), Item(true, [c.value], 0), slots, lbas);
      if ok {
        assert s0.lost + {c.value} - {c.value} == s0.lost;
        AccountedEntry(s0, s1, shape, path, Item(true, [c.value], 0), fat0, fat1, vol.fat[..], Full(slots));
        return Done;
      }
      OneWasFree(fat0, fat1, c.value);
      DropChain(c.value, [c.value]);
      assert s0.lost + {c.value} - {c.value} == s0.lost;
      return DiskFull;
    }

    /** The cluster of a new directory, with its dot slots. */
    method TakeDirCluster(path: Path, cluster: nat, ghost slots: seq<Slot>, ghost lbas: seq<nat>) returns (c: Option<nat>)
      requires Valid() && path != [] && ParentStatus(shape, path) == Done
      requires ReadAs(vol.disk[..], vol.geo, shape, Parent(path), slots, lbas)
      requires cluster == First(shape.items[Parent(path)].chain)
      modifies this`shape, vol.disk, vol.fat
      ensures Valid() && Contents() == old(Contents())
      ensures c.None? ==> shape == old(shape) && FreeSet(old(vol.fat[..])) == {}
      ensures c.Some? ==> shape == old(shape).(lost := old(shape).lost + {c.value}) && c.value !in old(shape).lost
      ensures c.Some? ==> c.value < U32 && IsChain(vol.fat[..], [c.value]) && c.value < |old(vol.fat[..])| &&
                          vol.fat[..] == old(vol.fat[..])[c.value := EOC]
      ensures c.Some? ==> |FreeSet(vol.fat[..])| + 1 == |FreeSet(old(vol.fat[..]))|
      ensures c.Some? ==> NewDir(vol.disk[..], vol.geo, shape, path, Item(true, [c.value], 0))
      ensures ReadAs(vol.disk[..], vol.geo, shape, Parent(path), slots, lbas)
    {
      hide TreeOk;
      ParentCluster(vol.disk[..], vol.fat[..], vol.geo, vol.rootCluster, shape, Parent(path));
      c := TakeCluster((k: nat) requires k < U32 => DotSlots(k, cluster), Parent(path));
      ItemFacts(vol.disk[..], vol.fat[..], vol.geo, vol.rootCluster, shape, Parent(path));
      if c.Some? {
        DirContent(vol.disk[..], vol.fat[..], vol.geo, vol.rootCluster, shape, path, c.value, cluster);
      }
    }

    /** Give back an item's clusters and turn its slot into a tombstone. */
    method RemoveEntry(path: Path, slots: seq<Slot>, lbas: seq<nat>, idx: nat)
      requires Valid() && path != [] && path in shape.items && Parent(path) in shape.items && Childless(shape, path)
      requires ReadAs(vol.disk[..], vol.geo, shape, Parent(path), slots, lbas) && idx < |slots|
      requires path in shape.slotOf && shape.slotOf[path] == idx && Describes(slots[idx], shape.items[path])
      modifies this`shape, vol.disk, vol.fat
      ensures Valid() && shape == RemoveName(old(shape), path) && shape.lost == old(shape).lost
      ensures Contents() == old(Contents()) - {path}
      ensures vol.fat[..] == FreedTable(old(vol.fat[..]), old(shape).items[path].chain)
    {
      hide TreeOk, BootsAs;
      ghost var disk1, fat1, s1 := vol.disk[..], vol.fat[..], shape;
      ItemFacts(disk1, fat1, vol.geo, vol.rootCluster, s1, path);
      FreeItem(SlotFirst(slots[idx]), path);
      ghost var disk2 := vol.disk[..];
      var tomb := [DELETED] + slots[idx][1..];
      StillLinked(disk1, fat1, vol.geo, vol.rootCluster, s1, path, Parent(path));
      var ok := PatchSlot(lbas, s1.items[Parent(path)].chain, idx, tomb);
      RemoveLost(disk1, fat1, vol.geo, vol.rootCluster, s1, path);
      RemovedTree(disk1, disk2, vol.disk[..], fat1, vol.geo, vol.rootCluster, s1, path, tomb);
      shape := RemoveName(s1, path);
    }

    /** Delete a file. */
    method Delete(path: Path) returns (status: Status)
      requires Valid() && forall i | 0 <= i < |path| :: NameOk(path[i])
      modifies this`shape, vol.disk, vol.fat
      ensures Valid() && shape.lost == old(shape).lost
      ensures !writable ==> status == ReadOnly
      ensures writable && ParentStatus(old(shape), path) != Done ==> status == ParentStatus(old(shape), path)
      ensures writable && ParentStatus(old(shape), path) == Done ==>
                status == if path !in old(Contents()) then NotFound else if old(Contents())[path].Dir? then IsADirectory else Done
      ensures status == Done ==> Contents() == old(Contents()) - {path}
      ensures status == Done ==> path in old(shape).items && shape == RemoveName(old(shape), path)
      ensures status == Done ==> |FreeSet(vol.fat[..])| == |FreeSet(old(vol.fat[..]))| + |old(shape).items[path].chain|
      ensures status != Done ==> Contents() == old(Contents()) && shape == old(shape) && vol.fat[..] == old(vol.fat[..])
    {
      hide TreeOk, BootsAs;
      if !writable {
        return ReadOnly;
      }
      var cluster;
      status, cluster := FindParent(path);
      if status != Done {
        return;
      }
      var slots, lbas := ReadDir(cluster, Parent(path));
      var found := FindName(slots, path[|path| - 1]);
      FindIsItem(shape, path, slots, found);
      if found.None? {
        return NotFound;
      }
      ChildOfParent(path);
      FoundIsChild(shape, Parent(path), slots, found.value, path[|path| - 1]);
      if IsDirSlot(slots[found.value]) {
        return IsADirectory;
      }
      ItemRemovable(vol.disk[..], vol.fat[..], vol.geo, vol.rootCluster, shape, path);
      RemoveEntry(path, slots, lbas, found.value);
      status := Done;
    }

    /** Remove an empty directory. */
    method Rmdir(path: Path) returns (status: Status)
      requires Valid() && forall i | 0 <= i < |path| :: NameOk(path[i])
      modifies this`shape, vol.disk, vol.fat
      ensures Valid() && shape.lost == old(shape).lost
      ensures !writable ==> status == ReadOnly
      ensures writable && ParentStatus(old(shape), path) != Done ==> status == ParentStatus(old(shape), path)
      ensures writable && ParentStatus(old(shape), path) == Done ==>
                status == if path !in old(Contents()) then NotFound else if !old(Contents())[path].Dir? then NotADirectory
                          else if Childless(old(shape), path) then Done else NotEmpty
      ensures status == Done ==> Contents() == old(Contents()) - {path}
      ensures status == Done ==> path in old(shape).items && shape == RemoveName(old(shape), path)
      ensures status == Done ==> |FreeSet(vol.fat[..])| == |FreeSet(old(vol.fat[..]))| + |old(shape).items[path].chain|
      ensures status != Done ==> Contents() == old(Contents()) && shape == old(shape) && vol.fat[..] == old(vol.fat[..])
    {
      hide TreeOk, BootsAs;
      if !writable {
        return ReadOnly;
      }
      var cluster;
      status, cluster := FindParent(path);
      if status != Done {
        return;
      }
      var target := Lookup(path);
      if target.None? {
        return NotFound;
      }
      if !target.value.isDir {
        return NotADirectory;
      }
      var content := DirSlots(target.value.first, path);
      var empty := OnlyDots(content);
      EmptyIsChildless(shape, path, content, empty);
      if !empty {
        return NotEmpty;
      }
      var slots, lbas := ReadDir(cluster, Parent(path));
      var found := FindName(slots, path[|path| - 1]);
      FindIsItem(shape, path, slots, found);
      ChildOfParent(path);
      FoundIsChild(shape, Parent(path), slots, found.value, path[|path| - 1]);
      ItemRemovable(vol.disk[..], vol.fat[..], vol.geo, vol.rootCluster, shape, path);
      RemoveEntry(path, slots, lbas, found.value);
      status := Done;
    }

    /** The entries of a directory, in slot order, "." and ".." included. */
    method Ls(path: Path) returns (status: Status, list: seq<Listed>)
      requires Valid() && forall i | 0 <= i < |path| :: NameOk(path[i])
      ensures status == if path !in Contents() then NotFound else if !Contents()[path].Dir? then NotADirectory else Done
      ensures status == Done ==> ListsDir(shape, path, list)
    {
      hide TreeOk;
      var r := Lookup(path);
      if r.None? {
        return NotFound, [];
      }
      if !r.value.isDir {
        return NotADirectory, [];
      }
      var slots := DirSlots(r.value.first, path);
      ghost var at;
      list, at := ListEntries(slots);
      SlotsAreItems(vol.disk[..], vol.fat[..], vol.geo, vol.rootCluster, shape);
      ListedAreChildren(shape, path, slots, list, at);
      status := Done;
    }
  }

  lemma RemovedTree(disk1: seq<Sector>, disk2: seq<Sector>, disk3: seq<Sector>, fat: Table, g: Geo, root: nat, s: Shape,
                    q: Path, e: Slot)
    requires TreeOk(disk1, fat, g, root, s) && q in s.items && q != [] && Childless(s, q) && q in s.slotOf
    requires OnlyFat(disk1, disk2, g) && VolumeOk(disk3, FreedTable(fat, s.items[q].chain), g)
    requires |e| == SLOT && e[0] == DELETED
    requires Parent(q) in s.items && Patched(disk2, disk3, g, |fat|, s.items[Parent(q)].chain, s.slotOf[q], e)
    ensures TreeOk(disk3, FreedTable(fat, s.items[q].chain), g, root, RemoveName(s, q))
    ensures View(disk3, g, RemoveName(s, q)) == View(disk1, g, s) - {q}
  {
    hide Mirrored, DirOk, View;
    ParentIsItem(s, q);
    PatchedAcross(disk1, disk2, disk3, fat, g, s.items[Parent(q)].chain, s.slotOf[q], e);
    TreeRemove(disk1, disk3, fat, g, root, s, q, e);
  }

  lemma RemoveLost(disk: seq<Sector>, fat: Table, g: Geo, root: nat, s: Shape, q: Path)
    requires TreeOk(disk, fat, g, root, s)
    ensures RemoveName(s, q).lost == s.lost
  {
    OldOwners(fat, s, q);
  }

  /** What removing an item gives back. */
  lemma ItemRemovable(disk: seq<Sector>, fat: Table, g: Geo, root: nat, s: Shape, q: Path)
    requires TreeOk(disk, fat, g, root, s) && q in s.items
    ensures !s.items[q].isDir ==> Childless(s, q)
    ensures |FreeSet(FreedTable(fat, s.items[q].chain))| == |FreeSet(fat)| + |s.items[q].chain|
  {
    if !s.items[q].isDir {
      ChildlessIfNoDir(s, q);
    }
    if s.items[q].chain != [] {
      ZeroedFree(fat, s.items[q].chain);
    }
  }

  /** parse_dir finds no name but "." and "..". */
  method OnlyDots(slots: seq<Slot>) returns (empty: bool)
    requires (forall i | 0 <= i < |slots| :: |slots[i]| == SLOT) && Tailed(slots)
    ensures empty <==> forall i | 0 <= i < |slots| && Live(slots[i]) && !IsLabel(slots[i]) :: DotName(slots[i])
  {
    for i := 0 to |slots|
      invariant forall k | 0 <= k < i && Live(slots[k]) && !IsLabel(slots[k]) :: DotName(slots[k])
    {
      if slots[i][0] == END {
        return true;
      }
      if slots[i][0] != DELETED && !IsLabel(slots[i]) && !DotName(slots[i]) {
        return false;
      }
    }
    return true;
  }

  predicate DotName(e: Slot)
    requires |e| == SLOT
  {
    SlotName(e) == DOT_NAME || SlotName(e) == DOTS_NAME
  }

  lemma EmptyIsChildless(s: Shape, d: Path, slots: seq<Slot>, empty: bool)
    requires SlotsOk(s, d, slots)
    requires empty <==> forall i | 0 <= i < |slots| && Live(slots[i]) && !IsLabel(slots[i]) :: DotName(slots[i])
    ensures empty <==> Childless(s, d)
  {
    if !Childless(s, d) {
      var r :| r in s.items && r != [] && Parent(r) == d;
      ChildOfParent(r);
      ChildHasSlot(s, d, slots, Leaf(r));
      var i := s.slotOf[r];
      assert SlotOk(s, d, i, slots[i]);
      NoDotName(slots[i]);
    }
    if !empty {
      var i :| 0 <= i < |slots| && Live(slots[i]) && !IsLabel(slots[i]) && !DotName(slots[i]);
      assert SlotOk(s, d, i, slots[i]);
      ParentOfChild(d, SlotName(slots[i]));
    }
  }

  lemma NoDotName(e: Slot)
    requires |e| == SLOT && NameOk(SlotName(e))
    ensures !DotName(e)
  {
    assert NameChar(SlotName(e).base[0]);
  }

  /** parse_dir: the live entries up to the end mark, labels passed over. */
  method ListEntries(slots: seq<Slot>) returns (list: seq<Listed>, ghost at: seq<nat>)
    requires (forall i | 0 <= i < |slots| :: |slots[i]| == SLOT) && Tailed(slots)
    ensures Lists(slots, list, at)
    ensures forall i | 0 <= i < |slots| && Live(slots[i]) && !IsLabel(slots[i]) :: i in at
  {
    list, at := [], [];
    for i := 0 to |slots|
      invariant Lists(slots, list, at) && (forall k | 0 <= k < |at| :: at[k] < i)
      invariant forall k | 0 <= k < i && Live(slots[k]) && !IsLabel(slots[k]) :: k in at
    {
      if slots[i][0] == END {
        return;
      }
      if slots[i][0] != DELETED && !IsLabel(slots[i]) {
        list := list + [ListedAs(slots[i])];
        at := at + [i];
        assert at[|at| - 1] == i;
      }
    }
  }

  function ListedAs(e: Slot): Listed
    requires |e| == SLOT
  {
    Listed(SlotName(e), Entry(SlotFirst(e), SlotSize(e), IsDirSlot(e)))
  }

  ghost predicate Lists(slots: seq<Slot>, list: seq<Listed>, at: seq<nat>) {
    && |at| == |list| && (forall k, l | 0 <= k < l < |at| :: at[k] < at[l])
    && forall k | 0 <= k < |at| ::
         at[k] < |slots| && |slots[at[k]]| == SLOT && Live(slots[at[k]]) && !IsLabel(slots[at[k]]) && list[k] == ListedAs(slots[at[k]])
  }

  /** A listed entry is a child with its first cluster, size and kind, or one of the two dot entries. */
  predicate ListedOk(s: Shape, d: Path, x: Listed) {
    if x.name == DOT_NAME || x.name == DOTS_NAME then d != []
    else d + [x.name] in s.items && d + [x.name] in s.slotOf && x.entry == EntryOf(s.items[d + [x.name]])
  }

  /** A listing of directory `d`: all children and nothing else, each once, in the order of their slots. */
  ghost predicate ListsDir(s: Shape, d: Path, list: seq<Listed>) {
    && (forall i | 0 <= i < |list| :: ListedOk(s, d, list[i]))
    && (forall n | d + [n] in s.items :: exists i :: 0 <= i < |list| && list[i].name == n)
    && (forall i, j | 0 <= i < j < |list| :: list[i].name != list[j].name)
    && (forall i, j | 0 <= i < j < |list| && d + [list[i].name] in s.slotOf && d + [list[j].name] in s.slotOf ::
          s.slotOf[d + [list[i].name]] < s.slotOf[d + [list[j].name]])
  }

  lemma ListedIsOk(s: Shape, d: Path, slots: seq<Slot>, i: nat)
    requires SlotsOk(s, d, slots) && i < |slots| && Live(slots[i]) && !IsLabel(slots[i])
    ensures ListedOk(s, d, ListedAs(slots[i]))
    ensures d + [SlotName(slots[i])] in s.items ==> d + [SlotName(slots[i])] in s.slotOf && s.slotOf[d + [SlotName(slots[i])]] == i
  {
    hide NameOk, Clean;
    assert SlotOk(s, d, i, slots[i]);
    if IsDot(slots[i]) {
      DotIsNoName(slots[i]);
      if d + [SlotName(slots[i])] in s.items {
        ChildHasSlot(s, d, slots, SlotName(slots[i]));
      }
    } else {
      DotsAreNoNames();
      FoundIsChild(s, d, slots, i, SlotName(slots[i]));
    }
  }

  lemma DotsAreNoNames()
    ensures !NameOk(DOT_NAME) && !NameOk(DOTS_NAME)
  {
    assert DOT_NAME.base[0] == DOT && DOTS_NAME.base[0] == DOT;
  }

  lemma SlotsAreItems(disk: seq<Sector>, fat: Table, g: Geo, root: nat, s: Shape)
    requires TreeOk(disk, fat, g, root, s)
    ensures forall q | q in s.slotOf :: q in s.items
  {
  }

  lemma ListedAreChildren(s: Shape, d: Path, slots: seq<Slot>, list: seq<Listed>, at: seq<nat>)
    requires SlotsOk(s, d, slots) && Lists(slots, list, at) && (forall q | q in s.slotOf :: q in s.items)
    requires forall i | 0 <= i < |slots| && Live(slots[i]) && !IsLabel(slots[i]) :: i in at
    ensures ListsDir(s, d, list)
  {
    hide NameOk, Clean, Describes;
    forall i | 0 <= i < |list| ensures ListedOk(s, d, list[i])
        && (d + [list[i].name] in s.slotOf ==> s.slotOf[d + [list[i].name]] == at[i]) {
      ListedIsOk(s, d, slots, at[i]);
    }
    forall n | d + [n] in s.items ensures exists i :: 0 <= i < |list| && list[i].name == n {
      ChildHasSlot(s, d, slots, n);
      var i :| 0 <= i < |at| && at[i] == s.slotOf[d + [n]];
      assert list[i].name == n;
    }
    forall i, j | 0 <= i < j < |list| ensures list[i].name != list[j].name {
      OneSlotPerName(s, d, slots, at[i], at[j]);
    }
  }

  /** No two slots of a directory carry the same name. */
  lemma OneSlotPerName(s: Shape, d: Path, slots: seq<Slot>, i: nat, j: nat)
    requires SlotsOk(s, d, slots) && i < j < |slots| && Live(slots[i]) && Live(slots[j]) && !IsLabel(slots[i]) && !IsLabel(slots[j])
    ensures SlotName(slots[i]) != SlotName(slots[j])
  {
    assert SlotOk(s, d, i, slots[i]) && SlotOk(s, d, j, slots[j]);
    if IsDot(slots[i]) {
      DotIsNoName(slots[i]);
    }
    if IsDot(slots[j]) {
      DotIsNoName(slots[j]);
    }
  }

  /** The first two slots of a new directory. */
  function DotSlots(first: nat, parent: nat): (b: seq<byte>)
    requires first < U32
    ensures |b| == 2 * SLOT
  {
    MakeDirent(DOT_NAME, first, 0, DIRECTORY) +
    MakeDirent(DOTS_NAME, if parent < U32 then parent else 0, 0, DIRECTORY)
  }

  lemma SingleMember(c: nat)
    ensures Members([c]) == {c}
  {
    assert [c][0] == c;
  }

  lemma DirSlot(n: Name, c: nat)
    requires NameOk(n) && c < U32
    ensures ChildSlot(MakeDirent(n, c, 0, DIRECTORY), n, Item(true, [c], 0)) && ItemOk(Item(true, [c], 0))
  {
    DirentIsLive(n, c, 0, DIRECTORY);
  }

  lemma ParentCluster(disk: seq<Sector>, fat: Table, g: Geo, root: nat, s: Shape, d: Path)
    requires TreeOk(disk, fat, g, root, s) && d in s.items && s.items[d].isDir
    ensures 2 <= First(s.items[d].chain) < |fat| <= FAT_CACHE_MAX
  {
    hide TreeOk;
    ItemFacts(disk, fat, g, root, s, d);
    assert IsChain(fat, s.items[d].chain);
  }

  /** What the dot slots read as. */
  lemma DotSlotsRead(c: nat, parent: nat)
    requires c < U32 && parent < U32
    ensures var b := Padded(DotSlots(c, parent), 0, SECTOR);
      && IsDot(SlotIn(b, 0)) && SlotFirst(SlotIn(b, 0)) == c && SlotName(SlotIn(b, 0)) == DOT_NAME
      && IsDot(SlotIn(b, 1)) && SlotFirst(SlotIn(b, 1)) == parent && SlotName(SlotIn(b, 1)) == DOTS_NAME
      && forall k | 2 <= k < SLOTS_PER_SECTOR :: SlotIn(b, k)[0] == END
  {
    var b := Padded(DotSlots(c, parent), 0, SECTOR);
    var dot, dots := MakeDirent(DOT_NAME, c, 0, DIRECTORY), MakeDirent(DOTS_NAME, parent, 0, DIRECTORY);
    assert SlotIn(b, 0) == dot && SlotIn(b, 1) == dots;
    DirentRoundTrip(DOT_NAME, c, 0, DIRECTORY);
    DirentRoundTrip(DOTS_NAME, parent, 0, DIRECTORY);
    DirentNameBytes(DOT_NAME, c, 0, DIRECTORY);
    DirentNameBytes(DOTS_NAME, parent, 0, DIRECTORY);
    assert dot[0] == dot[0..8][0] && dots[0] == dots[0..8][0];
    forall k | 2 <= k < SLOTS_PER_SECTOR ensures SlotIn(b, k)[0] == END {
      assert SlotIn(b, k)[0] == b[SLOT * k];
    }
  }

  lemma DirContent(disk: seq<Sector>, fat: Table, g: Geo, root: nat, s: Shape, path: Path, c: nat, cluster: nat)
    requires TreeOk(disk, fat, g, root, s) && path != [] && Parent(path) in s.items
    requires cluster == First(s.items[Parent(path)].chain) < U32 && c < U32
    requires ClusterBytes(disk, g, c) == Padded(DotSlots(c, cluster), 0, ClusterSize(g))
    ensures NewDir(disk, g, s, path, Item(true, [c], 0))
  {
    hide TreeOk, DotSlots, Padded;
    RootFacts(disk, fat, g, root, s);
    assert DirOnDisk(disk, g, [c]);
    DotSlotsRead(c, cluster);
    var slots := SlotsOf(disk, g, [c]);
    forall i | 0 <= i < |slots| ensures slots[i] == SlotIn(ClusterBytes(disk, g, c), i) {}
  }

  lemma DroppedTree(disk: seq<Sector>, disk': seq<Sector>, fat: Table, g: Geo, root: nat, s: Shape, p: seq<nat>)
    requires TreeOk(disk, fat, g, root, s) && Members(p) <= s.lost && IsChain(fat, p)
    requires VolumeOk(disk', Zeroed(fat, p), g) && OnlyFat(disk, disk', g)
    ensures var s' := s.(lost := s.lost - Members(p));
      TreeOk(disk', Zeroed(fat, p), g, root, s') && View(disk', g, s') == View(disk, g, s)
  {
    var s' := s.(lost := s.lost - Members(p));
    OwnersDrop(fat, s, p);
    OnlyFatClusters(disk, disk', fat, g);
    forall q, i | q in s.items && 0 <= i < |s.items[q].chain| ensures ClusterSame(disk, disk', g, s.items[q].chain[i]) {
      OwnedIsTaken(fat, s, q, i);
    }
    TreeFrame(disk, disk', fat, Zeroed(fat, p), g, root, s, s');
  }

  lemma OneWasFree(fat0: Table, fat1: Table, c: nat)
    requires c < |fat0| && fat1 == fat0[c := EOC] && FreeSet(fat1) == {}
    ensures |FreeSet(fat0)| <= 1
  {
    assert FreeSet(fat0) <= {c} by {
      forall k | k in FreeSet(fat0) ensures k == c {
        assert k != c ==> k in FreeSet(fat1);
      }
    }
    assert FreeSet(fat0) == {} || FreeSet(fat0) == {c};
  }

  /** The chain of the directory of `path` can still grow below the step guard. */
  predicate BelowGuard(s: Shape, path: Path) {
    path != [] && Parent(path) in s.items ==> |s.items[Parent(path)].chain| < GUARD
  }

  /** After a replacement only what was lost before is lost. */
  lemma LostAgain(disk: seq<Sector>, fat: Table, g: Geo, root: nat, s: Shape, lost0: set<nat>, q: Path, p: seq<nat>, size: nat)
    requires TreeOk(disk, fat, g, root, s) && s.lost == lost0 + Members(p) && Members(p) !! lost0
    ensures ReplaceName(s, q, Item(false, p, size)).lost == lost0
  {
    OldOwners(fat, s, q);
  }

  lemma FindIsItem(s: Shape, path: Path, slots: seq<Slot>, found: Option<nat>)
    requires path != [] && SlotsOk(s, Parent(path), slots) && NameOk(Leaf(path))
    requires found.Some? ==> found.value < |slots| && Live(slots[found.value]) && !IsLabel(slots[found.value]) && SlotName(slots[found.value]) == Leaf(path)
    requires found.None? ==> forall i | 0 <= i < |slots| && Live(slots[i]) && !IsLabel(slots[i]) :: SlotName(slots[i]) != Leaf(path)
    ensures found.Some? <==> path in s.items
  {
    ChildOfParent(path);
    if found.Some? {
      FoundIsChild(s, Parent(path), slots, found.value, Leaf(path));
    } else if path in s.items {
      ChildHasSlot(s, Parent(path), slots, Leaf(path));
    }
  }

  lemma StillReads(disk0: seq<Sector>, disk1: seq<Sector>, fat1: Table, g: Geo, root: nat, s0: Shape, s1: Shape, d: Path,
                   slots: seq<Slot>, lbas: seq<nat>)
    requires ReadAs(disk0, g, s0, d, slots, lbas) && KeepsOwned(disk0, disk1, g, s0) && s1.items == s0.items
    requires TreeOk(disk1, fat1, g, root, s1) && s0.items[d].isDir
    ensures ReadAs(disk1, g, s1, d, slots, lbas)
  {
    hide TreeOk;
    ItemFacts(disk1, fat1, g, root, s1, d);
    SlotsFrame(disk0, disk1, g, s0.items[d].chain);
  }

  /** The file item for freshly stored data. */
  lemma StoredItem(disk: seq<Sector>, fat: Table, g: Geo, p: seq<nat>, data: seq<byte>)
    requires Stored(disk, g, p, data) && |p| == Clusters(|data|, SECTOR) <= GUARD && ClusterSize(g) == SECTOR
    requires (p != [] ==> IsChain(fat, p)) && |fat| <= FAT_CACHE_MAX
    ensures ItemOk(Item(false, p, |data|)) && First(p) < U32
    ensures NodeOf(disk, g, Item(false, p, |data|)) == File(data)
  {
    SpanIsProduct(|p|, SECTOR);
    assert |ChainBytes(disk, g, p)| >= |data|;
  }

  function ParentStatus(s: Shape, path: Path): Status {
    if path == [] then BadPath
    else if Parent(path) !in s.items then NoDirectory
    else if !s.items[Parent(path)].isDir then NotADirectory
    else Done
  }

  /** The slot of a file. */
  lemma FileSlot(n: Name, p: seq<nat>, size: nat)
    requires NameOk(n) && First(p) < U32 && size < U32
    ensures ChildSlot(MakeDirent(n, First(p), size, ARCHIVE), n, Item(false, p, size))
  {
    DirentIsLive(n, First(p), size, ARCHIVE);
  }

  /** Freeing one item leaves the chain of another. */
  lemma StillLinked(disk: seq<Sector>, fat: Table, g: Geo, root: nat, s: Shape, q: Path, d: Path)
    requires TreeOk(disk, fat, g, root, s) && q in s.items && d in s.items && q != d && s.items[d].isDir
    ensures IsChain(FreedTable(fat, s.items[q].chain), s.items[d].chain) && g.spc == 1
  {
    var old_, p := s.items[q].chain, s.items[d].chain;
    forall i | 0 <= i < |p| ensures p[i] !in old_ {
      forall j | 0 <= j < |old_| ensures old_[j] != p[i] {
        ChainsDisjoint(s, q, d, j, i);
      }
    }
  }

  /** FAT sectors changed, then a slot. */
  lemma PatchedAcross(disk1: seq<Sector>, disk2: seq<Sector>, disk3: seq<Sector>, fat: Table, g: Geo, p: seq<nat>, idx: nat,
                      e: Slot)
    requires VolumeOk(disk1, fat, g) && OnlyFat(disk1, disk2, g) && Patched(disk2, disk3, g, |fat|, p, idx, e)
    requires forall i | 0 <= i < |p| :: 2 <= p[i] < |fat|
    ensures Patched(disk1, disk3, g, |fat|, p, idx, e)
  {
    OnlyFatClusters(disk1, disk2, fat, g);
    SlotsBack(disk1, disk2, g, p);
    forall c | 2 <= c < |fat| && c !in p ensures ClusterSame(disk1, disk3, g, c) {
      assert ClusterSame(disk1, disk2, g, c) && ClusterSame(disk2, disk3, g, c);
    }
  }

  lemma SlotsBack(disk1: seq<Sector>, disk2: seq<Sector>, g: Geo, p: seq<nat>)
    requires DirOnDisk(disk2, g, p) && forall i | 0 <= i < |p| :: ClusterSame(disk1, disk2, g, p[i])
    ensures DirOnDisk(disk1, g, p) && SlotsOf(disk1, g, p) == SlotsOf(disk2, g, p)
  {
    forall i | 0 <= i < |p| ensures |ClusterBytes(disk1, g, p[i])| == SECTOR {
      assert ClusterSame(disk1, disk2, g, p[i]);
    }
    SlotsFrame(disk1, disk2, g, p);
  }

  lemma ReplacedTree(disk1: seq<Sector>, disk2: seq<Sector>, disk3: seq<Sector>, fat: Table, g: Geo, root: nat, s: Shape,
                     q: Path, it: Item, e: Slot)
    requires TreeOk(disk1, fat, g, root, s) && q in s.items && q != [] && !s.items[q].isDir && !it.isDir
    requires OnlyFat(disk1, disk2, g) && VolumeOk(disk3, FreedTable(fat, s.items[q].chain), g)
    requires ItemOk(it) && ChildSlot(e, Leaf(q), it) && q in s.slotOf
    requires Members(it.chain) <= s.lost && (it.chain != [] ==> IsChain(fat, it.chain))
    requires Parent(q) in s.items && Patched(disk2, disk3, g, |fat|, s.items[Parent(q)].chain, s.slotOf[q], e)
    requires OnlyClusters(disk2, disk3, g, |fat|, [s.items[Parent(q)].chain[s.slotOf[q] / SLOTS_PER_SECTOR]])
    ensures TreeOk(disk3, FreedTable(fat, s.items[q].chain), g, root, ReplaceName(s, q, it))
    ensures View(disk3, g, ReplaceName(s, q, it)) == View(disk1, g, s)[q := NodeOf(disk1, g, it)]
  {
    ParentIsItem(s, q);
    PatchedAcross(disk1, disk2, disk3, fat, g, s.items[Parent(q)].chain, s.slotOf[q], e);
    TreeReplace(disk1, disk3, fat, g, root, s, q, it, e);
    OnlyFatClusters(disk1, disk2, fat, g);
    LostSame(disk2, disk3, g, fat, s, Parent(q), it.chain, s.slotOf[q] / SLOTS_PER_SECTOR);
    forall i | 0 <= i < |it.chain| ensures ClusterSame(disk1, disk3, g, it.chain[i]) {
      assert ClusterSame(disk2, disk3, g, it.chain[i]);
      assert it.chain[i] in Members(it.chain);
    }
    NodeSame(disk1, disk3, g, it);
  }

  lemma EnteredTree(disk: seq<Sector>, disk': seq<Sector>, fat: Table, g: Geo, root: nat, s: Shape, path: Path, it: Item,
                    e: Slot, lbas: seq<nat>, idx: nat)
    requires TreeOk(disk, fat, g, root, s) && MayEnter(disk, fat, g, s, path, it, e, lbas, idx) && VolumeOk(disk', fat, g)
    requires Patched(disk, disk', g, |fat|, s.items[Parent(path)].chain, idx, e)
    requires OnlyClusters(disk, disk', g, |fat|, [s.items[Parent(path)].chain[idx / SLOTS_PER_SECTOR]])
    ensures TreeOk(disk', fat, g, root, AddName(s, path, it, idx))
    ensures View(disk', g, AddName(s, path, it, idx)) == View(disk, g, s)[path := NodeOf(disk, g, it)]
  {
    LostSame(disk, disk', g, fat, s, Parent(path), it.chain, idx / SLOTS_PER_SECTOR);
    if it.isDir {
      NewDirOk(disk, disk', g, s, path, it, idx);
    }
    TreeAdd(disk, disk', fat, g, root, s, path, it, idx, e);
    NodeSame(disk, disk', g, it);
  }

  /** `slots` and `lbas` are what directory `d` reads as. */
  ghost predicate ReadAs(disk: seq<Sector>, g: Geo, s: Shape, d: Path, slots: seq<Slot>, lbas: seq<nat>) {
    && DirOk(disk, g, s, d) && slots == SlotsOf(disk, g, s.items[d].chain) && IsLbas(g, s.items[d].chain, lbas)
  }

  ghost predicate MayAdd(s: Shape, path: Path, it: Item, e: Slot) {
    && path != [] && path !in s.items && Parent(path) in s.items && s.items[Parent(path)].isDir
    && |s.items[Parent(path)].chain| < GUARD && NameOk(Leaf(path)) && ItemOk(it) && ChildSlot(e, Leaf(path), it)
  }

  ghost predicate MayEnter(disk: seq<Sector>, fat: Table, g: Geo, s: Shape, path: Path, it: Item, e: Slot,
                           lbas: seq<nat>, idx: nat)
  {
    && path != [] && path !in s.items && Parent(path) in s.items && s.items[Parent(path)].isDir
    && NameOk(Leaf(path)) && ItemOk(it) && ChildSlot(e, Leaf(path), it)
    && Members(it.chain) <= s.lost && (it.chain != [] ==> IsChain(fat, it.chain))
    && (it.isDir ==> NewDir(disk, g, s, path, it))
    && DirOnDisk(disk, g, s.items[Parent(path)].chain)
    && LowestFreeSlot(SlotsOf(disk, g, s.items[Parent(path)].chain), idx)
    && IsLbas(g, s.items[Parent(path)].chain, lbas) && IsChain(fat, s.items[Parent(path)].chain)
  }

  lemma ReadyToEnter(disk: seq<Sector>, fat: Table, g: Geo, root: nat, s0: Shape, s: Shape, path: Path, it: Item, e: Slot,
                     lbas: seq<nat>, idx: nat)
    requires TreeOk(disk, fat, g, root, s) && MayAdd(s0, path, it, e) && SameButChain(s0, s, Parent(path))
    requires Members(it.chain) <= s0.lost && (it.chain != [] ==> IsChain(fat, it.chain))
    requires it.isDir ==> NewDir(disk, g, s, path, it)
    requires DirOnDisk(disk, g, s.items[Parent(path)].chain)
    requires LowestFreeSlot(SlotsOf(disk, g, s.items[Parent(path)].chain), idx)
    requires IsLbas(g, s.items[Parent(path)].chain, lbas)
    ensures MayEnter(disk, fat, g, s, path, it, e, lbas, idx)
  {
    ItemFacts(disk, fat, g, root, s, Parent(path));
  }

  /** The content of a directory about to be entered at `path`. */
  ghost predicate NewDir(disk: seq<Sector>, g: Geo, s: Shape, path: Path, it: Item) {
    && path != [] && Parent(path) in s.items && DirOnDisk(disk, g, it.chain) && it.chain != []
    && var slots := SlotsOf(disk, g, it.chain);
      && IsDot(slots[0]) && IsDot(slots[1]) && SlotName(slots[0]) == DOT_NAME && SlotName(slots[1]) == DOTS_NAME
      && SlotFirst(slots[0]) == First(it.chain)
      && SlotFirst(slots[1]) == First(s.items[Parent(path)].chain)
      && forall i | 2 <= i < |slots| :: slots[i][0] == END
  }

  /** Clusters that belong to nobody are not in a directory's sector. */
  lemma LostSame(disk: seq<Sector>, disk': seq<Sector>, g: Geo, fat: Table, s: Shape, d: Path, p: seq<nat>, k: nat)
    requires OwnersOk(fat, s) && Members(p) <= s.lost && d in s.items && k < |s.items[d].chain|
    requires OnlyClusters(disk, disk', g, |fat|, [s.items[d].chain[k]])
    ensures forall i | 0 <= i < |p| :: ClusterSame(disk, disk', g, p[i])
  {
    OwnedIsTaken(fat, s, d, k);
    forall i | 0 <= i < |p| ensures ClusterSame(disk, disk', g, p[i]) {
      assert p[i] in Members(p);
    }
  }

  /** A chain that belongs to nobody survives the search for a slot. */
  lemma Carried(disk0: seq<Sector>, disk1: seq<Sector>, g: Geo, fat0: Table, fat1: Table, s0: Shape, s1: Shape, q: Path,
                it: Item)
    requires KeepsLost(disk0, disk1, g, fat0, fat1, s0.lost) && Members(it.chain) <= s0.lost
    requires (it.chain != [] ==> IsChain(fat0, it.chain)) && q != [] && SameButChain(s0, s1, Parent(q))
    requires s0.items[Parent(q)].chain != [] && (it.isDir ==> NewDir(disk0, g, s0, q, it))
    ensures it.chain != [] ==> IsChain(fat1, it.chain)
    ensures NodeOf(disk1, g, it) == NodeOf(disk0, g, it) && (it.isDir ==> NewDir(disk1, g, s1, q, it))
  {
    forall i | 0 <= i < |it.chain|
      ensures ClusterSame(disk0, disk1, g, it.chain[i]) && it.chain[i] < |fat1| && fat1[it.chain[i]] == fat0[it.chain[i]]
    {
      assert it.chain[i] in Members(it.chain);
    }
    NodeSame(disk0, disk1, g, it);
    if it.isDir {
      SlotsFrame(disk0, disk1, g, it.chain);
      assert First(s1.items[Parent(q)].chain) == First(s0.items[Parent(q)].chain);
    }
  }

  lemma NewDirOk(disk: seq<Sector>, disk': seq<Sector>, g: Geo, s: Shape, q: Path, it: Item, idx: nat)
    requires NewDir(disk, g, s, q, it) && KeysOk(s) && q !in s.items
    requires forall i | 0 <= i < |it.chain| :: ClusterSame(disk, disk', g, it.chain[i])
    ensures DirOk(disk', g, AddName(s, q, it, idx), q)
  {
    var s' := AddName(s, q, it, idx);
    SlotsFrame(disk, disk', g, it.chain);
    ChildlessIfNoDir(s, q);
    forall r | r in s'.items && r != [] ensures Parent(r) != q {
      assert r == q ==> |Parent(r)| < |q|;
    }
    SlotsNew(s', q, SlotsOf(disk', g, it.chain));
  }

  /** The scan of take_dir_slot. */
  method FirstFreeSlot(slots: seq<Slot>) returns (idx: Option<nat>)
    requires forall i | 0 <= i < |slots| :: |slots[i]| == SLOT
    ensures idx.Some? ==> LowestFreeSlot(slots, idx.value)
    ensures idx.None? ==> forall e | e in slots :: Live(e)
  {
    for i := 0 to |slots|
      invariant forall k | 0 <= k < i :: Live(slots[k])
    {
      if slots[i][0] == DELETED || slots[i][0] == END {
        return Some(i);
      }
    }
    return None;
  }

  lemma GrowSameButChain(s: Shape, d: Path, c: nat)
    requires d in s.items && c !in s.lost
    ensures SameButChain(s, GrowDir(s.(lost := s.lost + {c}), d, c), d)
  {
    var s' := GrowDir(s.(lost := s.lost + {c}), d, c);
    assert s'.lost == s.lost;
    assert s'.items.Keys == s.items.Keys;
  }

  lemma LostTrans(d0: seq<Sector>, d1: seq<Sector>, d2: seq<Sector>, g: Geo, f0: Table, f1: Table, f2: Table,
                  lost: set<nat>, c: nat)
    requires KeepsLost(d0, d1, g, f0, f1, lost) && KeepsLost(d1, d2, g, f1, f2, lost + {c})
    ensures KeepsLost(d0, d2, g, f0, f2, lost)
  {
    forall k | k in lost ensures k < |f0| && f2[k] == f0[k] && ClusterSame(d0, d2, g, k) {
      assert k in lost + {c};
      assert ClusterSame(d0, d1, g, k) && ClusterSame(d1, d2, g, k);
    }
  }

  /** Every cluster an item owns kept its sectors. */
  ghost predicate KeepsOwned(was: seq<Sector>, now: seq<Sector>, g: Geo, s: Shape) {
    forall q, i | q in s.items && 0 <= i < |s.items[q].chain| :: ClusterSame(was, now, g, s.items[q].chain[i])
  }

  lemma StoredTree(disk: seq<Sector>, disk': seq<Sector>, fat: Table, fat': Table, g: Geo, root: nat, s: Shape, p: seq<nat>)
    requires TreeOk(disk, fat, g, root, s) && VolumeOk(disk', fat', g)
    requires AddedChain(fat, fat', p) && DataOnly(disk, disk', g, |fat|, p)
    ensures var s' := s.(lost := s.lost + Members(p));
      TreeOk(disk', fat', g, root, s') && View(disk', g, s') == View(disk, g, s) && KeepsOwned(disk, disk', g, s)
    ensures Members(p) !! s.lost && |Members(p)| == |p| && |FreeSet(fat')| + |p| == |FreeSet(fat)|
  {
    TreeTake(disk, disk', fat, fat', g, root, s, p);
    OwnedSame(disk, disk', fat, g, s, p);
    AddedChainFree(fat, fat', p);
    MemberCount(p);
    assert forall c | c in FreeSet(fat) :: c !in s.lost;
  }

  /** Only FAT sectors changed, and not the table. */
  lemma FailedTree(disk: seq<Sector>, disk': seq<Sector>, fat: Table, g: Geo, root: nat, s: Shape)
    requires TreeOk(disk, fat, g, root, s) && VolumeOk(disk', fat, g) && OnlyFat(disk, disk', g)
    ensures TreeOk(disk', fat, g, root, s) && View(disk', g, s) == View(disk, g, s) && KeepsOwned(disk, disk', g, s)
  {
    OnlyFatClusters(disk, disk', fat, g);
    forall q, i | q in s.items && 0 <= i < |s.items[q].chain| ensures ClusterSame(disk, disk', g, s.items[q].chain[i]) {
      OwnedIsTaken(fat, s, q, i);
    }
    TreeFrame(disk, disk', fat, fat, g, root, s, s);
  }

  lemma OnlyFatClusters(disk: seq<Sector>, disk': seq<Sector>, fat: Table, g: Geo)
    requires VolumeOk(disk, fat, g) && OnlyFat(disk, disk', g)
    ensures forall c | 2 <= c < |fat| :: ClusterSame(disk, disk', g, c)
  {
    forall c | 2 <= c < |fat| ensures ClusterSame(disk, disk', g, c) {
      ClusterInData(g, |disk|, |fat|, c);
    }
  }

  /** Only the chain of directory `d` may have grown. */
  ghost predicate SameButChain(s: Shape, s': Shape, d: Path) {
    && d in s.items && s'.items.Keys == s.items.Keys && s'.slotOf == s.slotOf && s'.lost == s.lost
    && (forall q | q in s.items && q != d :: s'.items[q] == s.items[q])
    && s.items[d].chain <= s'.items[d].chain && s'.items[d].(chain := []) == s.items[d].(chain := [])
  }

  // --- accounting ----------------------------------------------------------------------------

  predicate Full(slots: seq<Slot>) {
    forall i | 0 <= i < |slots| :: |slots[i]| == SLOT && Live(slots[i])
  }

  /** The directory of `path` holds a volume label that reads like its last name. */
  predicate DirLabelNamed(disk: seq<Sector>, g: Geo, s: Shape, path: Path) {
    path != [] && Parent(path) in s.items && DirOnDisk(disk, g, s.items[Parent(path)].chain) &&
    LabelNamed(SlotsOf(disk, g, s.items[Parent(path)].chain), Leaf(path))
  }

  /** Where a file asked for at `path` goes, by the slots of its directory: an existing file is replaced; a new one gets
      its own name, or an alias if a label has taken that, or no place. */
  function TargetIn(s: Shape, slots: seq<Slot>, path: Path): Option<Path>
    requires path != [] && forall i | 0 <= i < |slots| :: |slots[i]| == SLOT
  {
    if path in s.items then Some(path)
    else match NewName(slots, Leaf(path)) case None => None case Some(n) => Some(Parent(path) + [n])
  }

  function Target(disk: seq<Sector>, g: Geo, s: Shape, path: Path): Option<Path> {
    if path != [] && Parent(path) in s.items && DirOnDisk(disk, g, s.items[Parent(path)].chain)
    then TargetIn(s, SlotsOf(disk, g, s.items[Parent(path)].chain), path) else None
  }

  /** The file written is the file asked for exactly when it exists already, or no label of its directory reads like it. */
  lemma {:induction false} TargetIsPathIff(disk: seq<Sector>, fat: Table, g: Geo, root: nat, s: Shape, path: Path)
    requires TreeOk(disk, fat, g, root, s) && ParentStatus(s, path) == Done && NameOk(Leaf(path))
    ensures Target(disk, g, s, path) == Some(path) <==> path in s.items || !DirLabelNamed(disk, g, s, path)
  {
    hide TreeOk, Taken, LabelNamed, NameOk, SlotsOk;
    ItemFacts(disk, fat, g, root, s, Parent(path));
    ChildOfParent(path);
    var slots := SlotsOf(disk, g, s.items[Parent(path)].chain);
    TakenIff(s, Parent(path), slots, Leaf(path));
    FreeAliasIsFree(slots, Leaf(path), 1);
    if Target(disk, g, s, path) == Some(path) && path !in s.items {
      assert Leaf(Parent(path) + [NewName(slots, Leaf(path)).value]) == NewName(slots, Leaf(path)).value;
    }
  }

  /** Data was stored in chain `p`, which belongs to nobody yet, since the state `s0`, `fat0`. */
  ghost predicate ReadyToPlace(disk: seq<Sector>, fat: Table, g: Geo, s0: Shape, s: Shape, fat0: Table, path: Path, first: nat,
                               p: seq<nat>, data: seq<byte>, slots: seq<Slot>, lbas: seq<nat>)
  {
    && path != [] && NameOk(Leaf(path)) && ParentStatus(s, path) == Done
    && ReadAs(disk, g, s, Parent(path), slots, lbas)
    && s == s0.(lost := s0.lost + Members(p)) && Members(p) !! s0.lost
    && (p != [] ==> IsChain(fat, p)) && first == First(p) && first < U32 && ItemOk(Item(false, p, |data|))
    && NodeOf(disk, g, Item(false, p, |data|)) == File(data) && |FreeSet(fat)| + |p| == |FreeSet(fat0)|
  }

  lemma ReadSlots(disk: seq<Sector>, g: Geo, s: Shape, d: Path, slots: seq<Slot>, lbas: seq<nat>)
    requires ReadAs(disk, g, s, d, slots, lbas)
    ensures SlotsOk(s, d, slots)
  {
  }

  /** The name picked for a new file is proper and no child has it. */
  lemma NewNameIsFree(disk: seq<Sector>, g: Geo, s: Shape, path: Path, slots: seq<Slot>, lbas: seq<nat>)
    requires path != [] && ReadAs(disk, g, s, Parent(path), slots, lbas) && NameOk(Leaf(path))
    requires (forall i | 0 <= i < |slots| :: |slots[i]| == SLOT) && NewName(slots, Leaf(path)).Some?
    ensures var n := NewName(slots, Leaf(path)).value; var q := Parent(path) + [n];
      NameOk(n) && q !in s.items && Parent(q) == Parent(path) && Leaf(q) == n
  {
    FreeAliasIsFree(slots, Leaf(path), 1);
    TakenIff(s, Parent(path), slots, NewName(slots, Leaf(path)).value);
  }

  /** No slot of directory `d` is free. */
  predicate DirFull(disk: seq<Sector>, g: Geo, s: Shape, d: Path) {
    d in s.items && DirOnDisk(disk, g, s.items[d].chain) && Full(SlotsOf(disk, g, s.items[d].chain))
  }

  /** How writing `n` clusters of data ends with `free` clusters free; `grows` if the name finds its directory full. */
  function PlaceStatus(free: nat, n: nat, target: Option<Path>, grows: bool): Status {
    if free < n then DiskFull else if target.None? then NoShortName else if free == n && grows then DiskFull else Done
  }

  /** Directory `d` gained one cluster, which was free, exactly if it was full. */
  ghost predicate Grew(s: Shape, s': Shape, d: Path, fat: Table, fat': Table, full: bool) {
    var grown := if full then 1 else 0;
    && d in s.items && d in s'.items && |s'.items[d].chain| == |s.items[d].chain| + grown
    && |FreeSet(fat')| + grown == |FreeSet(fat)|
  }

  /** Item `path` is as given; every other item is as it was, but that the chain of its directory may be longer. */
  ghost predicate PlacedAs(s: Shape, s': Shape, path: Path, it: Item) {
    && path != [] && s'.items.Keys == s.items.Keys + {path} && s'.items[path] == it
    && (forall q | q in s.items && q != path && q != Parent(path) :: s'.items[q] == s.items[q])
    && Parent(path) in s.items && s.items[Parent(path)].chain <= s'.items[Parent(path)].chain
    && s'.items[Parent(path)].(chain := []) == s.items[Parent(path)].(chain := [])
  }

  /** The same, told without the chain: `path` has so many clusters. */
  ghost predicate Placed(s: Shape, s': Shape, path: Path, isDir: bool, size: nat, clusters: nat) {
    && path in s'.items && |s'.items[path].chain| == clusters
    && PlacedAs(s, s', path, Item(isDir, s'.items[path].chain, size))
  }

  /** A new item was entered, and its directory grew if it had to. */
  ghost predicate Entered(s: Shape, s': Shape, path: Path, it: Item, fat: Table, fat': Table, full: bool) {
    path != [] && PlacedAs(s, s', path, it) && Grew(s, s', Parent(path), fat, fat', full)
  }

  /** Free clusters before plus the item's old chain are free clusters after plus its new chain plus the directory's
      growth, which is one cluster when a new name found the directory full. */
  ghost predicate Accounts(s: Shape, s': Shape, path: Path, fat: Table, fat': Table, full: bool) {
    var grown := if path !in s.items && full then 1 else 0;
    && path != [] && path in s'.items && Parent(path) in s.items && Parent(path) in s'.items
    && |s'.items[Parent(path)].chain| == |s.items[Parent(path)].chain| + grown
    && |FreeSet(fat')| + |s'.items[path].chain| + grown == |FreeSet(fat)| + |OldChain(s, path)|
  }

  lemma ShorterParent(path: Path)
    requires path != []
    ensures Parent(path) != path
  {
    assert |Parent(path)| < |path|;
  }

  lemma EnteredByName(s0: Shape, s1: Shape, path: Path, it: Item, idx: nat, fat0: Table, fat1: Table, full: bool)
    requires path != [] && path !in s0.items && SameButChain(s0, s1, Parent(path))
    requires Grew(s0, s1, Parent(path), fat0, fat1, full)
    ensures Entered(s0, AddName(s1, path, it, idx), path, it, fat0, fat1, full)
  {
    ShorterParent(path);
    assert AddName(s1, path, it, idx).items == s1.items[path := it];
    assert s1.items[path := it].Keys == s1.items.Keys + {path};
  }

  /** A fresh chain was stored, then its item entered. */
  lemma AccountedEntry(s0: Shape, s1: Shape, s2: Shape, path: Path, it: Item, fat0: Table, fat1: Table, fat2: Table,
                       full: bool)
    requires s1.items == s0.items && path !in s0.items && Entered(s1, s2, path, it, fat1, fat2, full)
    requires |FreeSet(fat1)| + |it.chain| == |FreeSet(fat0)|
    ensures Placed(s0, s2, path, it.isDir, it.size, |it.chain|) && Accounts(s0, s2, path, fat0, fat2, full)
  {
  }

  /** A fresh chain was stored, then it replaced the old one. */
  lemma AccountedReplace(s0: Shape, s1: Shape, path: Path, p: seq<nat>, size: nat, fat0: Table, fat1: Table, fat2: Table,
                         full: bool)
    requires path != [] && path in s0.items && Parent(path) in s0.items && s1.items == s0.items
    requires |FreeSet(fat1)| + |p| == |FreeSet(fat0)| && |FreeSet(fat2)| == |FreeSet(fat1)| + |s0.items[path].chain|
    ensures var s2 := ReplaceName(s1, path, Item(false, p, size));
      Placed(s0, s2, path, false, size, |p|) && Accounts(s0, s2, path, fat0, fat2, full)
  {
    ShorterParent(path);
    var it := Item(false, p, size);
    assert ReplaceName(s1, path, it).items == s1.items[path := it];
    assert s1.items[path := it].Keys == s1.items.Keys + {path};
  }

  /** Clusters that belonged to nobody kept their entries and sectors. */
  ghost predicate KeepsLost(was: seq<Sector>, now: seq<Sector>, g: Geo, fat: Table, fat': Table, lost: set<nat>) {
    |fat'| == |fat| && forall c | c in lost :: c < |fat| && fat'[c] == fat[c] && ClusterSame(was, now, g, c)
  }

  lemma TakenInRange(disk: seq<Sector>, fat: Table, g: Geo, root: nat, s: Shape)
    requires TreeOk(disk, fat, g, root, s)
    ensures forall c | c in s.lost :: 2 <= c < |fat| && fat[c] != 0
  {
  }

  /** cluster_of_lba inverts cluster_lba. */
  lemma LbaBack(g: Geo, c: nat)
    requires g.spc == 1 && c >= 2
    ensures ClusterLba(g, c) >= DataBegin(g) && (ClusterLba(g, c) - DataBegin(g)) / g.spc + 2 == c
  {
    SpanIsProduct(c - 2, 1);
  }

  /** The last cluster of a directory, found from its last sector. */
  lemma TailCluster(disk: seq<Sector>, fat: Table, g: Geo, root: nat, s: Shape, d: Path, lbas: seq<nat>)
    requires TreeOk(disk, fat, g, root, s) && d in s.items && s.items[d].isDir && IsLbas(g, s.items[d].chain, lbas)
    ensures VolumeOk(disk, fat, g) && g.spc == 1
    ensures s.items[d].chain != [] && lbas[|lbas| - 1] >= DataBegin(g)
    ensures (lbas[|lbas| - 1] - DataBegin(g)) / g.spc + 2 == s.items[d].chain[|s.items[d].chain| - 1] < |fat|
    ensures fat[s.items[d].chain[|s.items[d].chain| - 1]] != 0
    ensures forall c | c in s.lost :: 2 <= c < |fat| && c != s.items[d].chain[|s.items[d].chain| - 1]
  {
    var k := |s.items[d].chain| - 1;
    LbaBack(g, s.items[d].chain[k]);
    OwnedIsTaken(fat, s, d, k);
  }

  /** A cluster was taken and zeroed. */
  lemma ClusterTaken(disk0: seq<Sector>, disk1: seq<Sector>, fat0: Table, fat1: Table, g: Geo, root: nat, s: Shape, d: Path,
                     c: nat)
    requires TreeOk(disk0, fat0, g, root, s) && d in s.items && s.items[d].isDir && DirOk(disk0, g, s, d)
    requires IsLowestFree(fat0, c) && fat1 == fat0[c := EOC]
    requires VolumeOk(disk1, fat1, g) && DataOnly(disk0, disk1, g, |fat0|, [c])
    ensures var s1 := s.(lost := s.lost + {c});
      TreeOk(disk1, fat1, g, root, s1) && View(disk1, g, s1) == View(disk0, g, s)
    ensures DirOnDisk(disk1, g, s.items[d].chain) &&
            SlotsOf(disk1, g, s.items[d].chain) == SlotsOf(disk0, g, s.items[d].chain)
  {
    AddedSingle(fat0, fat1, c);
    TreeTake(disk0, disk1, fat0, fat1, g, root, s, [c]);
    assert Members([c]) == {c};
    OwnedSame(disk0, disk1, fat0, g, s, [c]);
    forall i | 0 <= i < |s.items[d].chain| ensures ClusterSame(disk0, disk1, g, s.items[d].chain[i]) {}
    SlotsFrame(disk0, disk1, g, s.items[d].chain);
  }

  /** A zeroed cluster was linked behind the chain of `d`. */
  lemma ClusterLinked(disk1: seq<Sector>, disk2: seq<Sector>, fat1: Table, fat2: Table, g: Geo, root: nat, s: Shape, d: Path,
                      c: nat, tail: nat)
    requires TreeOk(disk1, fat1, g, root, s) && d in s.items && s.items[d].isDir && |s.items[d].chain| < GUARD
    requires DirOnDisk(disk1, g, s.items[d].chain) && forall e | e in SlotsOf(disk1, g, s.items[d].chain) :: Live(e)
    requires s.items[d].chain != [] && tail == s.items[d].chain[|s.items[d].chain| - 1] < |fat1|
    requires c in s.lost && IsChain(fat1, [c]) && fat2 == fat1[tail := c]
    requires VolumeOk(disk2, fat2, g) && OnlyFat(disk1, disk2, g)
    requires ClusterBytes(disk1, g, c) == Padded([], 0, ClusterSize(g))
    ensures TreeOk(disk2, fat2, g, root, GrowDir(s, d, c)) && View(disk2, g, GrowDir(s, d, c)) == View(disk1, g, s)
    ensures DirOnDisk(disk2, g, s.items[d].chain + [c])
    ensures LowestFreeSlot(SlotsOf(disk2, g, s.items[d].chain + [c]), |SlotsOf(disk1, g, s.items[d].chain)|)
  {
    OnlyFatClusters(disk1, disk2, fat1, g);
    assert Span(0, SECTOR) == 0 && ClusterSize(g) == SECTOR;
    assert ClusterSame(disk1, disk2, g, c);
    TreeGrow(disk1, disk2, fat1, fat2, g, root, s, d, c);
  }

  lemma AddedSingle(fat: Table, fat': Table, c: nat)
    requires IsLowestFree(fat, c) && fat' == fat[c := EOC]
    ensures AddedChain(fat, fat', [c]) && IsChain(fat', [c])
  {
  }

  lemma SlotPlace(idx: nat, clusters: nat)
    ensures idx * SLOT / SECTOR == idx / SLOTS_PER_SECTOR && idx * SLOT % SECTOR == SLOT * (idx % SLOTS_PER_SECTOR)
    ensures idx / SLOTS_PER_SECTOR < clusters <==> idx < SLOTS_PER_SECTOR * clusters
  {
  }

  lemma ChainStep(fat: Table, p: seq<nat>, k: nat)
    requires IsChain(fat, p) && k < |p| && |fat| <= FAT_CACHE_MAX
    ensures HasNext(fat, p[k]) <==> k < |p| - 1
    ensures k < |p| - 1 ==> fat[p[k]] == p[k + 1]
  {
    assert k < |p| - 1 ==> fat[p[k]] == p[k + 1] < |fat|;
  }

  lemma LbaStep(g: Geo, p: seq<nat>, k: nat, lbas: seq<nat>)
    requires k < |p| && p[k] >= 2 && |lbas| == k + 1 && IsLbas(g, p[..k], lbas[..k]) && lbas[k] == ClusterLba(g, p[k])
    ensures IsLbas(g, p[..k + 1], lbas) && (k + 1 == |p| ==> IsLbas(g, p, lbas))
  {
    forall i | 0 <= i < k ensures p[i] >= 2 && lbas[i] == ClusterLba(g, p[i]) {
      assert p[i] == p[..k][i] && lbas[i] == lbas[..k][i];
    }
  }

  predicate IsLbas(g: Geo, p: seq<nat>, lbas: seq<nat>) {
    |lbas| == |p| && forall i | 0 <= i < |p| :: p[i] >= 2 && lbas[i] == ClusterLba(g, p[i])
  }

  lemma SlotPatched(was: seq<Sector>, now: seq<Sector>, fat: Table, g: Geo, p: seq<nat>, idx: nat, e: Slot, c: nat)
    requires VolumeOk(was, fat, g) && g.spc == 1 && Linked(fat, p) && NoRepeat(p)
    requires idx < SLOTS_PER_SECTOR * |p| && |e| == SLOT
    requires c == p[idx / SLOTS_PER_SECTOR] >= 2 && ClusterLba(g, c) < |was| && |was[ClusterLba(g, c)]| == SECTOR
    requires now == was[ClusterLba(g, c) := WithSlot(was[ClusterLba(g, c)], idx % SLOTS_PER_SECTOR, e)]
    ensures VolumeOk(now, fat, g) && Patched(was, now, g, |fat|, p, idx, e)
    ensures OnlyClusters(was, now, g, |fat|, [c])
  {
    DataKeepsVolume(was, now, fat, g);
    OneClusterOnly(was, now, g, |fat|, c);
    ChainDirOnDisk(was, fat, g, p);
    OneSector(was, fat, g, c);
    OneSector(now, fat, g, c);
    forall i | 0 <= i < |p| && i != idx / SLOTS_PER_SECTOR ensures ClusterSame(was, now, g, p[i]) {
      assert p[i] != c;
    }
    PatchedSlots(was, now, g, p, idx, e);
  }

  /** Cut the bytes of a directory into its slots. */
  method SplitSlots(raw: seq<byte>, ghost disk: seq<Sector>, ghost g: Geo, ghost p: seq<nat>) returns (slots: seq<Slot>)
    requires DirOnDisk(disk, g, p) && p != [] && raw == ChainBytes(disk, g, p)
    ensures slots == SlotsOf(disk, g, p)
  {
    RawSlot(disk, g, p, 0);
    assert |SlotsOf(disk, g, p)| == |raw| / SLOT;
    hide ChainBytes, SlotsOf;
    slots := [];
    for i := 0 to |raw| / SLOT
      invariant |slots| == i && slots == SlotsOf(disk, g, p)[..i]
    {
      RawSlot(disk, g, p, i);
      slots := slots + [raw[SLOT * i..SLOT * i + SLOT]];
    }
  }
}
