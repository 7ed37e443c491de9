/** The FAT32 driver below directories: the cached table, its mirrors on disk, and cluster chains. */
module FatVolume {
  import opened Bytes
  import opened Frames
  import opened FatSpec

  /** Nothing outside the FAT area moved. */
  ghost predicate OnlyFat(disk: seq<Sector>, disk': seq<Sector>, g: Geo) {
    |disk'| == |disk| &&
    forall i | 0 <= i < |disk| && (i < g.fatBegin || i >= DataBegin(g)) :: disk'[i] == disk[i]
  }

  /** Copies below `upto` hold the new sector `s`; every other FAT sector is as it was. */
  ghost predicate PartlyMirrored(was: seq<Sector>, now: seq<Sector>, g: Geo, s: nat, sec: Sector, upto: nat) {
    && |now| == |was| >= DataBegin(g) && s < g.fatSize && OnlyFat(was, now, g)
    && (forall copy | 0 <= copy < upto && copy < g.numFats :: Holds(now, FatLba(g, copy, s), sec))
    && (forall copy, t | 0 <= copy < g.numFats && 0 <= t < g.fatSize && t != s :: Same(was, now, FatLba(g, copy, t)))
    && (forall i | 0 <= i < |now| :: |was[i]| == SECTOR ==> |now[i]| == SECTOR)
  }

  predicate Holds(disk: seq<Sector>, i: nat, sec: Sector) {
    i < |disk| && disk[i] == sec
  }

  predicate Same(was: seq<Sector>, now: seq<Sector>, i: nat) {
    i < |was| && i < |now| && now[i] == was[i]
  }

  lemma MirrorOne(was: seq<Sector>, now: seq<Sector>, g: Geo, s: nat, sec: Sector, copy: nat)
    requires PartlyMirrored(was, now, g, s, sec, copy) && copy < g.numFats && |sec| == SECTOR
    ensures FatLba(g, copy, s) < |now|
    ensures PartlyMirrored(was, now[FatLba(g, copy, s) := sec], g, s, sec, copy + 1)
  {
    FatLbaInFat(g, copy, s);
    var lba := FatLba(g, copy, s);
    var now' := now[lba := sec];
    forall c | 0 <= c < copy + 1 && c < g.numFats ensures Holds(now', FatLba(g, c, s), sec) {
      if c < copy {
        FatLbasDiffer(g, c, s, copy, s);
        assert Holds(now, FatLba(g, c, s), sec);
      }
    }
    forall c, t | 0 <= c < g.numFats && 0 <= t < g.fatSize && t != s ensures Same(was, now', FatLba(g, c, t)) {
      FatLbasDiffer(g, c, t, copy, s);
      assert Same(was, now, FatLba(g, c, t));
    }
  }

  /** Rewriting the sector of one entry in every copy keeps all copies equal to the cache. */
  lemma MirrorDone(was: seq<Sector>, now: seq<Sector>, fat: Table, g: Geo, c: nat, val: nat)
    requires VolumeOk(was, fat, g) && c < |fat| && val < U32
    requires EntriesOk(fat[c := val]) && (c / ENTS + 1) * ENTS <= |fat|
    requires PartlyMirrored(was, now, g, c / ENTS, FatSector(fat[c := val], c / ENTS), g.numFats)
    ensures VolumeOk(now, fat[c := val], g)
  {
    var fat' := fat[c := val];
    forall copy, s | 0 <= copy < g.numFats && 0 <= s < g.fatSize
      ensures FatLba(g, copy, s) < |now| && SectorIs(now[FatLba(g, copy, s)], fat', s)
    {
      if s == c / ENTS {
        assert Holds(now, FatLba(g, copy, s), FatSector(fat', s));
      } else {
        assert Same(was, now, FatLba(g, copy, s));
        assert SectorIs(was[FatLba(g, copy, s)], fat, s);
        assert fat'[s * ENTS..(s + 1) * ENTS] == fat[s * ENTS..(s + 1) * ENTS];
      }
    }
  }

  class Fat32 {
    const disk: array<Sector>
    const fat: array<nat>
    const geo: Geo
    const rootCluster: nat

    ghost predicate Valid()
      reads this, disk, fat
    {
      VolumeOk(disk[..], fat[..], geo) && BootsAs(disk[..], geo, rootCluster)
    }

    /** The bytes of the FAT sector that holds entry `c`, built from the cache. */
    method BuildSector(s: nat) returns (sec: Sector)
      requires (s + 1) * ENTS <= fat.Length && EntriesOk(fat[..])
      ensures sec == FatSector(fat[..], s)
    {
      sec := [];
      ghost var ents := fat[..][s * ENTS..(s + 1) * ENTS];
      for k := 0 to ENTS
        invariant sec == EntryBytes(ents[..k])
      {
        assert ents[k] == fat[..][s * ENTS + k];
        assert ents[..k + 1][..k] == ents[..k];
        sec := sec + Le32(fat[s * ENTS + k]);
      }
      assert ents[..ENTS] == ents;
    }

    /** Set one entry in the cache and rewrite its sector in every copy on disk. */
    method FatSet(c: nat, val: nat) returns (ok: bool)
      requires Valid() && val < U32
      modifies disk, fat
      ensures Valid() && ok == (c < fat.Length)
      ensures fat[..] == if ok then old(fat[..])[c := val] else old(fat[..])
      ensures OnlyFat(old(disk[..]), disk[..], geo)
    {
      if c >= fat.Length {
        return false;
      }
      ghost var was, table := disk[..], fat[..];
      fat[c] := val;
      assert disk[..] == was && fat[..] == table[c := val];
      var s := c / ENTS;
      var sec := BuildSector(s);
      for copy := 0 to geo.numFats
        invariant fat[..] == table[c := val]
        invariant PartlyMirrored(was, disk[..], geo, s, sec, copy)
      {
        MirrorOne(was, disk[..], geo, s, sec, copy);
        disk[FatLba(geo, copy, s)] := sec;
      }
      MirrorDone(was, disk[..], table, geo, c, val);
      return true;
    }

    constructor (disk: array<Sector>, fat: array<nat>, geo: Geo, rootCluster: nat)
      requires VolumeOk(disk[..], fat[..], geo) && BootsAs(disk[..], geo, rootCluster)
      ensures Valid() && this.disk == disk && this.fat == fat && this.geo == geo && this.rootCluster == rootCluster
    {
      this.disk, this.fat, this.geo, this.rootCluster := disk, fat, geo, rootCluster;
    }

    /** Parse the parameter block and cache the first FAT copy. */
    static method Mount(disk: array<Sector>) returns (error: Option<MountError>, geo: Geo, root: nat, fat: array<nat>)
      requires forall i | 0 <= i < disk.Length :: |disk[i]| == SECTOR
      ensures error.Some? <==> disk.Length == 0 || ParseBpb(disk[0]).Bad? ||
                               ParseBpb(disk[0]).geo.fatBegin + ParseBpb(disk[0]).geo.fatSize > disk.Length
      ensures error.Some? && disk.Length > 0 && ParseBpb(disk[0]).Bad? ==> error.value == ParseBpb(disk[0]).error
      ensures error.None? ==> Good(geo, root) == ParseBpb(disk[0]) && fat[..] == Decoded(disk[..], geo)
      ensures fresh(fat)
    {
      geo, root := Geo(0, 0, 0, 0), 0;
      fat := new nat[0];
      if disk.Length == 0 {
        return Some(ReadFailed), geo, root, fat;
      }
      var bpb := ParseBpb(disk[0]);
      if bpb.Bad? {
        return Some(bpb.error), geo, root, fat;
      }
      if bpb.geo.fatBegin + bpb.geo.fatSize > disk.Length {
        return Some(ReadFailed), geo, root, fat;
      }
      geo, root := bpb.geo, bpb.root;
      fat := new nat[geo.fatSize * ENTS];
      for i := 0 to fat.Length
        invariant forall k | 0 <= k < i :: fat[k] == Decoded(disk[..], geo)[k]
      {
        fat[i] := EntryAt(disk[geo.fatBegin + i / ENTS], i % ENTS);
      }
      assert fat[..] == Decoded(disk[..], geo);
      error := None;
    }

    // --- clusters ---------------------------------------------------------------------

    /** Take the lowest free cluster and mark it as the end of a chain. */
    method AllocCluster() returns (r: Option<nat>)
      requires Valid()
      modifies disk, fat
      ensures Valid() && OnlyFat(old(disk[..]), disk[..], geo)
      ensures r.None? ==> fat[..] == old(fat[..]) && forall c | 2 <= c < fat.Length :: fat[c] != 0
      ensures r.Some? ==> IsLowestFree(old(fat[..]), r.value) && fat[..] == old(fat[..])[r.value := EOC]
    {
      for c := 2 to fat.Length
        invariant fat[..] == old(fat[..]) && disk[..] == old(disk[..])
        invariant forall d | 2 <= d < c :: fat[d] != 0
      {
        if fat[c] == 0 {
          var ok := FatSet(c, EOC);
          return Some(c);
        }
      }
      return None;
    }

    /** Free a chain: every member becomes 0, up to the step guard. */
    method FreeChain(start: nat, ghost p: seq<nat>)
      requires Valid() && IsWalk(fat[..], p) && p[0] == start
      modifies disk, fat
      ensures Valid() && OnlyFat(old(disk[..]), disk[..], geo)
      ensures fat[..] == Zeroed(old(fat[..]), p[..Min(|p|, GUARD)])
    {
      var c, guard := start, 0;
      ghost var was := fat[..];
      assert Zeroed(was, p[..0]) == was;
      while c >= 2 && c < fat.Length && guard < GUARD
        invariant Valid() && OnlyFat(old(disk[..]), disk[..], geo)
        invariant guard < |p| && guard <= GUARD && c == p[guard] && fat[..] == Zeroed(was, p[..guard])
        decreases GUARD - guard
      {
        WalkNext(was, p, guard);
        ZeroedStep(was, p, guard);
        var next := fat[c];
        assert next == fat[..][c];
        FreeOne(c);
        if next >= EOC_MIN || next < 2 {
          break;
        }
        guard := guard + 1;
        c := next;
      }
    }

    method FreeOne(c: nat)
      requires Valid() && c < fat.Length
      modifies disk, fat
      ensures Valid() && OnlyFat(old(disk[..]), disk[..], geo) && fat[..] == old(fat[..])[c := 0]
    {
      var ok := FatSet(c, 0);
    }

    /** Link a fresh cluster behind the chain built so far. */
    method Extend(ghost was: Table, p: seq<nat>) returns (c: Option<nat>)
      requires Valid() && AddedChain(was, fat[..], p)
      modifies disk, fat
      ensures Valid() && OnlyFat(old(disk[..]), disk[..], geo)
      ensures c.None? ==> fat[..] == old(fat[..]) && FreeSet(fat[..]) == {}
      ensures c.Some? ==> AddedChain(was, fat[..], p + [c.value])
    {
      ghost var mid := fat[..];
      c := AllocCluster();
      if c.Some? {
        if |p| > 0 {
          var ok := FatSet(p[|p| - 1], c.value);
        }
        AddOneCluster(was, mid, fat[..], p, c.value);
      }
    }

    /** Free what a failed allocation took, one member at a time although the members are linked. */
    method Rollback(ghost was: Table, p: seq<nat>)
      requires Valid() && AddedChain(was, fat[..], p)
      modifies disk, fat
      ensures Valid() && OnlyFat(old(disk[..]), disk[..], geo) && fat[..] == was
    {
      ghost var full, j := fat[..], 0;
      assert Zeroed(full, p[..0]) == full;
      for k := 0 to |p|
        invariant Valid() && OnlyFat(old(disk[..]), disk[..], geo)
        invariant k <= j <= |p| && fat[..] == Zeroed(full, p[..j])
      {
        j := RollbackOne(full, p, k, j);
      }
      assert p[..j] == p;
      ZeroedUndoes(was, full, p);
    }

    method RollbackOne(ghost full: Table, p: seq<nat>, k: nat, ghost j: nat) returns (ghost j': nat)
      requires Valid() && IsChain(full, p) && k < |p| && k <= j <= |p| && fat[..] == Zeroed(full, p[..j])
      modifies disk, fat
      ensures Valid() && OnlyFat(old(disk[..]), disk[..], geo)
      ensures k + 1 <= j' <= |p| && fat[..] == Zeroed(full, p[..j'])
    {
      hide BootsAs, VolumeOk;
      ghost var q := if j > k then [p[k]] else p[k..];
      if j > k {
        assert p[k] == p[..j][k];
      } else {
        ChainSuffix(full, p, k);
      }
      FreeChain(p[k], q);
      if j > k {
        assert q[..1] == q;
        assert Zeroed(Zeroed(full, p[..j]), q) == Zeroed(full, p[..j]);
        j' := j;
      } else {
        ZeroedZeroed(full, p, k, Min(|p| - k, GUARD));
        j' := k + Min(|p| - k, GUARD);
      }
    }

    /** Take and link `need` clusters, or none. */
    method AllocChain(need: nat) returns (r: Option<seq<nat>>)
      requires Valid()
      modifies disk, fat
      ensures Valid() && OnlyFat(old(disk[..]), disk[..], geo)
      ensures r.Some? <==> need <= |FreeSet(old(fat[..]))|
      ensures r.Some? ==> |r.value| == need && AddedChain(old(fat[..]), fat[..], r.value)
      ensures r.None? ==> fat[..] == old(fat[..])
    {
      var p: seq<nat> := [];
      ghost var was := fat[..];
      for i := 0 to need
        invariant Valid() && OnlyFat(old(disk[..]), disk[..], geo) && |p| == i && AddedChain(was, fat[..], p)
      {
        var c := Extend(was, p);
        if c.None? {
          AddedChainFree(was, fat[..], p);
          Rollback(was, p);
          return None;
        }
        p := p + [c.value];
      }
      AddedChainFree(was, fat[..], p);
      return Some(p);
    }

    // --- data -------------------------------------------------------------------------

    /** One sector of a file: data from `off` on, zeros past the end. */
    method WriteSector(lba: nat, data: seq<byte>, off: nat)
      requires Valid() && DataBegin(geo) <= lba < disk.Length
      modifies disk
      ensures Valid() && disk[..] == old(disk[..])[lba := Padded(data, off, SECTOR)]
    {
      ghost var was, table := disk[..], fat[..];
      var n := if off < |data| then Min(SECTOR, |data| - off) else 0;
      var sec := (if n > 0 then data[off..off + n] else []) + seq(SECTOR - n, _ => 0);
      assert sec == Padded(data, off, SECTOR);
      disk[lba] := sec;
      assert fat[..] == table && disk[..] == was[lba := sec];
      DataKeepsVolume(was, disk[..], table, geo);
    }

    /** One cluster of a file. */
    method WriteCluster(c: nat, data: seq<byte>, off: nat)
      requires Valid() && 2 <= c < fat.Length
      modifies disk
      ensures Valid()
      ensures ClusterBytes(disk[..], geo, c) == Padded(data, off, ClusterSize(geo))
      ensures OnlyClusters(old(disk[..]), disk[..], geo, fat.Length, [c])
    {
      ClusterInData(geo, disk.Length, fat.Length, c);
      var lba := ClusterLba(geo, c);
      ghost var was := disk[..];
      for s := 0 to geo.spc
        invariant Valid() && Join(disk[lba..lba + s]) == Padded(data, off, Span(s, SECTOR))
        invariant forall i | 0 <= i < disk.Length && !(lba <= i < lba + s) :: disk[i] == was[i]
      {
        ghost var front := disk[lba..lba + s];
        WriteSector(lba + s, data, off + Span(s, SECTOR));
        SectorStep(front, disk[lba + s], data, off, s);
        assert disk[lba..lba + s] == front;
        assert disk[lba..lba + s + 1] == front + [disk[lba + s]];
      }
      OneClusterOnly(was, disk[..], geo, fat.Length, c);
    }

    /** The second half of write_chain: fill the clusters of a chain. */
    method WriteData(p: seq<nat>, data: seq<byte>)
      requires Valid() && Linked(fat[..], p) && NoRepeat(p)
      modifies disk
      ensures Valid() && OnlyClusters(old(disk[..]), disk[..], geo, fat.Length, p)
      ensures ChainBytes(disk[..], geo, p) == Padded(data, 0, Span(|p|, ClusterSize(geo)))
    {
      hide BootsAs, VolumeOk;
      ghost var was := disk[..];
      for i := 0 to |p|
        invariant Valid() && OnlyClusters(was, disk[..], geo, fat.Length, p[..i])
        invariant ChainBytes(disk[..], geo, p[..i]) == Padded(data, 0, Span(i, ClusterSize(geo)))
      {
        WriteNext(was, p[..i], p[i], data, Span(i, ClusterSize(geo)));
        assert p[..i] + [p[i]] == p[..i + 1];
      }
      assert p[..|p|] == p;
    }

    method WriteNext(ghost was: seq<Sector>, ghost q: seq<nat>, c: nat, data: seq<byte>, off: nat)
      requires Valid() && 2 <= c < fat.Length && c !in q && forall k | 0 <= k < |q| :: 2 <= q[k] < fat.Length
      requires OnlyClusters(was, disk[..], geo, fat.Length, q) && off == Span(|q|, ClusterSize(geo))
      requires ChainBytes(disk[..], geo, q) == Padded(data, 0, off)
      modifies disk
      ensures Valid() && OnlyClusters(was, disk[..], geo, fat.Length, q + [c])
      ensures ChainBytes(disk[..], geo, q + [c]) == Padded(data, 0, Span(|q| + 1, ClusterSize(geo)))
    {
      ghost var mid := disk[..];
      WriteCluster(c, data, off);
      DataStep(mid, disk[..], geo, fat.Length, q, c, data);
      OnlyTrans(was, mid, disk[..], geo, fat.Length, q, c);
    }

    /** Store `data` in a fresh chain; the first cluster, 0 for empty data, None for a full disk.  A full
        disk leaves the table as it was. */
    method WriteChain(data: seq<byte>) returns (r: Option<nat>, ghost p: seq<nat>)
      requires Valid()
      modifies disk, fat
      ensures Valid()
      ensures r.Some? <==> Clusters(|data|, ClusterSize(geo)) <= |FreeSet(old(fat[..]))|
      ensures r.None? ==> fat[..] == old(fat[..]) && OnlyFat(old(disk[..]), disk[..], geo)
      ensures r.Some? ==> |p| == Clusters(|data|, ClusterSize(geo)) && AddedChain(old(fat[..]), fat[..], p)
      ensures r.Some? ==> r.value == if p == [] then 0 else p[0]
      ensures r.Some? ==> DataOnly(old(disk[..]), disk[..], geo, fat.Length, p)
      ensures r.Some? ==> Stored(disk[..], geo, p, data)
    {
      var need := Clusters(|data|, ClusterSize(geo));
      EnoughClusters(|data|, ClusterSize(geo));
      if need == 0 {
        p := [];
        return Some(0), p;
      }
      var chain := AllocChain(need);
      if chain.None? {
        p := [];
        return None, p;
      }
      p := chain.value;
      ghost var mid := disk[..];
      WriteData(chain.value, data);
      OnlyBoth(old(disk[..]), mid, disk[..], geo, fat[..], p);
      PaddedKeeps(data, Span(|p|, ClusterSize(geo)));
      r := Some(chain.value[0]);
    }

    /** Next cluster of a chain from the cached table. */
    method NextCluster(c: nat) returns (r: Option<nat>)
      ensures r == if HasNext(fat[..], c) then Some(fat[..][c]) else None
    {
      if c >= fat.Length {
        return None;
      }
      var v := fat[c];
      if v >= EOC_MIN || v == BAD || v < 2 {
        return None;
      }
      return Some(v);
    }

    method ReadCluster(c: nat) returns (bytes: seq<byte>)
      requires Valid() && 2 <= c < fat.Length
      ensures bytes == ClusterBytes(disk[..], geo, c)
    {
      ClusterInData(geo, disk.Length, fat.Length, c);
      var lba := ClusterLba(geo, c);
      bytes := [];
      for s := 0 to geo.spc
        invariant bytes == Join(disk[lba..lba + s])
      {
        assert disk[lba..lba + s + 1] == disk[lba..lba + s] + [disk[lba + s]];
        JoinAppend(disk[lba..lba + s], disk[lba + s]);
        bytes := bytes + disk[lba + s];
      }
    }

    /** Read a chain into memory, up to the step guard; an empty file has start 0. */
    method ReadChain(start: nat, ghost p: seq<nat>) returns (bytes: seq<byte>)
      requires Valid() && (start < 2 || (IsChain(fat[..], p) && p[0] == start))
      ensures start < 2 ==> bytes == []
      ensures start >= 2 ==> bytes == ChainBytes(disk[..], geo, p[..Min(|p|, GUARD)])
    {
      hide BootsAs, Mirrored;
      bytes := [];
      var c, guard := start, 0;
      while c >= 2 && guard < GUARD
        invariant start < 2 ==> bytes == [] && c == start
        invariant start >= 2 ==> guard < |p| && guard <= GUARD && c == p[guard]
        invariant start >= 2 ==> bytes == ChainBytes(disk[..], geo, p[..guard])
        decreases GUARD - guard
      {
        var block := ReadCluster(c);
        bytes := bytes + block;
        ReadStep(disk[..], geo, fat[..], p, guard);
        var next := NextCluster(c);
        if next.None? {
          break;
        }
        guard := guard + 1;
        c := next.value;
      }
    }
  }

  lemma ReadStep(disk: seq<Sector>, g: Geo, fat: Table, p: seq<nat>, k: nat)
    requires IsChain(fat, p) && k < |p| && |fat| <= FAT_CACHE_MAX
    ensures ChainBytes(disk, g, p[..k + 1]) == ChainBytes(disk, g, p[..k]) + ClusterBytes(disk, g, p[k])
    ensures HasNext(fat, p[k]) <==> k < |p| - 1
    ensures k < |p| - 1 ==> fat[p[k]] == p[k + 1]
  {
    ChainBytesAppend(disk, g, p[..k], p[k]);
    assert p[..k] + [p[k]] == p[..k + 1];
    assert k < |p| - 1 ==> fat[p[k]] == p[k + 1] < |fat|;
  }

  /** One more sector of a cluster. */
  lemma SectorStep(front: seq<Sector>, sec: Sector, data: seq<byte>, off: nat, s: nat)
    requires Join(front) == Padded(data, off, Span(s, SECTOR))
    requires sec == Padded(data, off + Span(s, SECTOR), SECTOR)
    ensures Join(front + [sec]) == Padded(data, off, Span(s + 1, SECTOR))
  {
    JoinAppend(front, sec);
    PaddedSplit(data, off, Span(s, SECTOR), SECTOR);
  }

  /** How many clusters hold `n` bytes. */
  function Clusters(n: nat, cs: nat): nat
    requires cs > 0
  {
    (n + cs - 1) / cs
  }

  lemma EnoughClusters(n: nat, cs: nat)
    requires cs > 0
    ensures n <= Span(Clusters(n, cs), cs) < n + cs
  {
    var q := Clusters(n, cs);
    SpanIsProduct(q, cs);
    assert n + cs - 1 == q * cs + (n + cs - 1) % cs;
  }

  function Truncate(b: seq<byte>, n: nat): seq<byte> {
    b[..Min(n, |b|)]
  }

  lemma {:induction false} ChainBytesLength(disk: seq<Sector>, g: Geo, p: seq<nat>)
    requires forall i | 0 <= i < |p| :: |ClusterBytes(disk, g, p[i])| == ClusterSize(g)
    ensures |ChainBytes(disk, g, p)| == Span(|p|, ClusterSize(g))
  {
    if p != [] {
      assert forall i | 0 <= i < |p[1..]| :: p[1..][i] == p[i + 1];
      ChainBytesLength(disk, g, p[1..]);
    }
  }

  /** Reading a stored chain back, cut to the length of the data, gives the data if and only if the chain is
      no longer than the step guard of read_chain. */
  lemma ReadBackIff(disk: seq<Sector>, g: Geo, p: seq<nat>, data: seq<byte>)
    requires Stored(disk, g, p, data) && ClusterSize(g) > 0 && |p| == Clusters(|data|, ClusterSize(g))
    requires forall i | 0 <= i < |p| :: |ClusterBytes(disk, g, p[i])| == ClusterSize(g)
    ensures Truncate(ChainBytes(disk, g, p[..Min(|p|, GUARD)]), |data|) == data <==> |p| <= GUARD
  {
    if |p| <= GUARD {
      assert p[..|p|] == p;
    } else {
      ChainBytesLength(disk, g, p[..GUARD]);
      EnoughClusters(|data|, ClusterSize(g));
      SpanStep(GUARD, |p|, ClusterSize(g));
    }
  }

  /** Of the data area, only the clusters of `p` changed. */
  ghost predicate DataOnly(was: seq<Sector>, now: seq<Sector>, g: Geo, entries: nat, p: seq<nat>) {
    && |now| == |was| && (forall i | 0 <= i < |was| && i < g.fatBegin :: now[i] == was[i])
    && (forall c | 2 <= c < entries && c !in p :: ClusterSame(was, now, g, c))
  }

  /** The chain holds the data, zero-padded. */
  ghost predicate Stored(disk: seq<Sector>, g: Geo, p: seq<nat>, data: seq<byte>) {
    && ChainBytes(disk, g, p) == Padded(data, 0, Span(|p|, ClusterSize(g)))
    && |data| <= Span(|p|, ClusterSize(g)) && ChainBytes(disk, g, p)[..|data|] == data
  }

  /** One more cluster of file data. */
  lemma DataStep(mid: seq<Sector>, now: seq<Sector>, g: Geo, entries: nat, q: seq<nat>, c: nat, data: seq<byte>)
    requires c !in q && (forall k | 0 <= k < |q| :: 2 <= q[k] < entries) && OnlyClusters(mid, now, g, entries, [c])
    requires ChainBytes(mid, g, q) == Padded(data, 0, Span(|q|, ClusterSize(g)))
    requires ClusterBytes(now, g, c) == Padded(data, Span(|q|, ClusterSize(g)), ClusterSize(g))
    ensures ChainBytes(now, g, q + [c]) == Padded(data, 0, Span(|q| + 1, ClusterSize(g)))
  {
    forall k | 0 <= k < |q| ensures ClusterSame(mid, now, g, q[k]) {
      assert q[k] !in [c];
    }
    ChainBytesFrame(mid, now, g, q);
    ChainBytesAppend(now, g, q, c);
    PaddedSplit(data, 0, Span(|q|, ClusterSize(g)), ClusterSize(g));
  }

  lemma OnlyTrans(was: seq<Sector>, mid: seq<Sector>, now: seq<Sector>, g: Geo, entries: nat, q: seq<nat>, c: nat)
    requires OnlyClusters(was, mid, g, entries, q) && OnlyClusters(mid, now, g, entries, [c])
    ensures OnlyClusters(was, now, g, entries, q + [c])
  {
    forall d | 2 <= d < entries && d !in q + [c] ensures ClusterSame(was, now, g, d) {
      assert ClusterSame(was, mid, g, d) && ClusterSame(mid, now, g, d);
    }
  }

  lemma OnlyBoth(was: seq<Sector>, mid: seq<Sector>, now: seq<Sector>, g: Geo, fat: Table, p: seq<nat>)
    requires VolumeOk(was, fat, g) || VolumeOk(mid, fat, g)
    requires OnlyFat(was, mid, g) && OnlyClusters(mid, now, g, |fat|, p)
    ensures DataOnly(was, now, g, |fat|, p)
  {
    forall c | 2 <= c < |fat| && c !in p ensures ClusterSame(was, now, g, c) {
      ClusterInData(g, |mid|, |fat|, c);
      assert ClusterSame(mid, now, g, c);
    }
  }

  /** Writing whole sectors above the FAT area keeps the volume. */
  lemma DataKeepsVolume(was: seq<Sector>, now: seq<Sector>, fat: Table, g: Geo)
    requires VolumeOk(was, fat, g) && |now| == |was|
    requires forall i | 0 <= i < |was| && i < DataBegin(g) :: now[i] == was[i]
    requires forall i | 0 <= i < |now| :: |now[i]| == SECTOR
    ensures VolumeOk(now, fat, g)
  {
    forall copy, s | 0 <= copy < g.numFats && 0 <= s < g.fatSize
      ensures FatLba(g, copy, s) < |now| && SectorIs(now[FatLba(g, copy, s)], fat, s)
    {
      FatLbaInFat(g, copy, s);
      assert SectorIs(was[FatLba(g, copy, s)], fat, s);
    }
  }

  lemma OneClusterOnly(was: seq<Sector>, now: seq<Sector>, g: Geo, entries: nat, c: nat)
    requires Fits(g, |was|, entries) && 2 <= c < entries && |now| == |was|
    requires forall i | 0 <= i < |was| && !(ClusterLba(g, c) <= i < ClusterLba(g, c) + g.spc) :: now[i] == was[i]
    requires forall i | 0 <= i < |now| :: |was[i]| == SECTOR ==> |now[i]| == SECTOR
    ensures OnlyClusters(was, now, g, entries, [c])
  {
    ClusterInData(g, |was|, entries, c);
    forall d | 2 <= d < entries && d !in [c] ensures ClusterSame(was, now, g, d) {
      assert d != c;
      ClusterInData(g, |was|, entries, d);
      ClustersDiffer(g, c, d);
    }
  }
}
