/** FAT32 on disk, as values: entries and their sectors, cluster chains, and the bytes of a chain. */
module FatSpec {
  import opened Bytes

  const SECTOR: nat := 512
  const ENTS: nat := 128
  const EOC: nat := 0x0FFF_FFFF
  const EOC_MIN: nat := 0x0FFF_FFF8
  const BAD: nat := 0x0FFF_FFF7
  const FAT_CACHE_MAX: nat := 0x10_0000
  const GUARD: nat := 1_000_000
  const U32: nat := 0x1_0000_0000

  type Sector = seq<byte>

  /** The cached FAT: one 32-bit value per cluster number. */
  type Table = seq<nat>

  datatype Geo = Geo(spc: nat, fatBegin: nat, numFats: nat, fatSize: nat)

  /** `n` blocks of `size`: the product, built up one block at a time. */
  function Span(n: nat, size: nat): nat {
    if n == 0 then 0 else Span(n - 1, size) + size
  }

  lemma {:induction false} SpanIsProduct(n: nat, size: nat)
    ensures Span(n, size) == n * size
  {
    if n > 0 {
      SpanIsProduct(n - 1, size);
      assert n * size == (n - 1) * size + size;
    }
  }

  lemma {:induction false} SpanStep(a: nat, b: nat, size: nat)
    requires a < b
    ensures Span(a, size) + size <= Span(b, size)
    decreases b
  {
    if a < b - 1 {
      SpanStep(a, b - 1, size);
    }
  }

  function FatLba(g: Geo, copy: nat, s: nat): nat {
    g.fatBegin + Span(copy, g.fatSize) + s
  }

  function DataBegin(g: Geo): nat {
    g.fatBegin + Span(g.numFats, g.fatSize)
  }

  function ClusterLba(g: Geo, c: nat): nat
    requires c >= 2
  {
    DataBegin(g) + Span(c - 2, g.spc)
  }

  function ClusterSize(g: Geo): nat {
    Span(g.spc, SECTOR)
  }

  /** Every FAT index has a place on the device. */
  predicate Fits(g: Geo, sectors: nat, entries: nat) {
    && g.spc > 0 && g.numFats > 0 && g.fatSize > 0
    && entries == g.fatSize * ENTS && entries <= FAT_CACHE_MAX
    && sectors >= DataBegin(g) + Span(entries - 2, g.spc)
  }

  // --- places on the device ----------------------------------------------------

  lemma FatLbaInFat(g: Geo, copy: nat, s: nat)
    requires copy < g.numFats && s < g.fatSize
    ensures g.fatBegin <= FatLba(g, copy, s) < DataBegin(g)
  {
    SpanStep(copy, g.numFats, g.fatSize);
  }

  lemma FatLbasDiffer(g: Geo, copy: nat, s: nat, copy': nat, s': nat)
    requires s < g.fatSize && s' < g.fatSize && (copy != copy' || s != s')
    ensures FatLba(g, copy, s) != FatLba(g, copy', s')
  {
    if copy < copy' {
      SpanStep(copy, copy', g.fatSize);
    } else if copy' < copy {
      SpanStep(copy', copy, g.fatSize);
    }
  }

  lemma ClusterInData(g: Geo, sectors: nat, entries: nat, c: nat)
    requires Fits(g, sectors, entries) && 2 <= c < entries
    ensures DataBegin(g) <= ClusterLba(g, c) && ClusterLba(g, c) + g.spc <= sectors
  {
    SpanStep(c - 2, entries - 2, g.spc);
  }

  lemma ClustersDiffer(g: Geo, c: nat, d: nat)
    requires c >= 2 && d >= 2 && c != d
    ensures ClusterLba(g, c) + g.spc <= ClusterLba(g, d) || ClusterLba(g, d) + g.spc <= ClusterLba(g, c)
  {
    if c < d {
      SpanStep(c - 2, d - 2, g.spc);
    } else {
      SpanStep(d - 2, c - 2, g.spc);
    }
  }

  // --- entries as bytes -----------------------------------------------------------

  /** The little-endian bytes of a 32-bit value. */
  function Le32(v: nat): (b: seq<byte>)
    requires v < U32
    ensures |b| == 4
  {
    [(v % 256) as byte, (v / 0x100 % 256) as byte, (v / 0x1_0000 % 256) as byte, (v / 0x100_0000 % 256) as byte]
  }

  function FromLe32(b: seq<byte>): (v: nat)
    requires |b| == 4
    ensures v < U32
  {
    b[0] as int + b[1] as int * 0x100 + b[2] as int * 0x1_0000 + b[3] as int * 0x100_0000
  }

  lemma Le32RoundTrip(v: nat)
    requires v < U32
    ensures FromLe32(Le32(v)) == v
  {
    var q1, q2, q3 := v / 0x100, v / 0x1_0000, v / 0x100_0000;
    assert q2 == q1 / 0x100 && q3 == q2 / 0x100;
  }

  predicate EntriesOk(fat: Table) {
    forall i | 0 <= i < |fat| :: fat[i] < U32
  }

  function EntryBytes(ents: Table): (b: seq<byte>)
    requires EntriesOk(ents)
    ensures |b| == 4 * |ents|
  {
    if ents == [] then [] else EntryBytes(ents[..|ents| - 1]) + Le32(ents[|ents| - 1])
  }

  function FatSector(fat: Table, s: nat): (b: Sector)
    requires (s + 1) * ENTS <= |fat| && EntriesOk(fat)
    ensures |b| == SECTOR
  {
    EntryBytes(fat[s * ENTS..(s + 1) * ENTS])
  }

  function EntryAt(b: Sector, k: nat): nat
    requires |b| == SECTOR && k < ENTS
  {
    FromLe32(b[4 * k..4 * k + 4])
  }

  lemma {:induction false} EntryBytesAt(ents: Table, k: nat)
    requires k < |ents| && EntriesOk(ents)
    ensures EntryBytes(ents)[4 * k..4 * k + 4] == Le32(ents[k])
  {
    var n := |ents| - 1;
    if k < n {
      EntryBytesAt(ents[..n], k);
      assert EntryBytes(ents)[4 * k..4 * k + 4] == EntryBytes(ents[..n])[4 * k..4 * k + 4];
    }
  }

  /** Decoding a FAT sector gives back the entries it was built from. */
  lemma FatSectorRoundTrip(fat: Table, s: nat, k: nat)
    requires (s + 1) * ENTS <= |fat| && EntriesOk(fat) && k < ENTS
    ensures EntryAt(FatSector(fat, s), k) == fat[s * ENTS + k]
  {
    var ents := fat[s * ENTS..(s + 1) * ENTS];
    EntryBytesAt(ents, k);
    Le32RoundTrip(ents[k]);
  }

  // --- all copies of the FAT equal the cache ------------------------------------------

  ghost predicate Mirrored(disk: seq<Sector>, fat: Table, g: Geo) {
    && |fat| == g.fatSize * ENTS && EntriesOk(fat) && |disk| >= DataBegin(g)
    && forall copy, s | 0 <= copy < g.numFats && 0 <= s < g.fatSize ::
         FatLba(g, copy, s) < |disk| && SectorIs(disk[FatLba(g, copy, s)], fat, s)
  }

  predicate SectorIs(b: Sector, fat: Table, s: nat)
    requires EntriesOk(fat)
  {
    (s + 1) * ENTS <= |fat| && b == FatSector(fat, s)
  }

  ghost predicate VolumeOk(disk: seq<Sector>, fat: Table, g: Geo) {
    Fits(g, |disk|, |fat|) && (forall i | 0 <= i < |disk| :: |disk[i]| == SECTOR) && Mirrored(disk, fat, g)
  }

  // --- chains ---------------------------------------------------------------------------

  predicate Linked(fat: Table, p: seq<nat>) {
    && (forall i | 0 <= i < |p| :: 2 <= p[i] < |fat|)
    && (forall i | 0 <= i < |p| - 1 :: fat[p[i]] == p[i + 1])
  }

  predicate NoRepeat(p: seq<nat>) {
    forall i, j | 0 <= i < j < |p| :: p[i] != p[j]
  }

  /** An acyclic, end-marked chain. */
  predicate IsChain(fat: Table, p: seq<nat>) {
    p != [] && Linked(fat, p) && NoRepeat(p) && fat[p[|p| - 1]] >= EOC_MIN
  }

  /** What free_chain can follow to its end: a chain, or a cluster that is free already. */
  predicate IsWalk(fat: Table, p: seq<nat>) {
    p != [] && Linked(fat, p) && NoRepeat(p) && (fat[p[|p| - 1]] >= EOC_MIN || fat[p[|p| - 1]] < 2)
  }

  /** The value read at step `k` says whether the walk ends there. */
  lemma WalkNext(fat: Table, p: seq<nat>, k: nat)
    requires IsWalk(fat, p) && k < |p| && |fat| <= FAT_CACHE_MAX
    ensures var next := Zeroed(fat, p[..k])[p[k]];
      && (next >= EOC_MIN || next < 2 <==> k == |p| - 1)
      && (k < |p| - 1 ==> next == p[k + 1] && 2 <= next < |fat|)
  {
    assert p[k] !in p[..k];
    assert k < |p| - 1 ==> fat[p[k]] == p[k + 1];
  }

  /** What the driver follows: not past an end mark, a bad cluster or a free one. */
  predicate HasNext(fat: Table, c: nat) {
    c < |fat| && fat[c] < EOC_MIN && fat[c] != BAD && fat[c] >= 2
  }

  ghost function FreeSet(fat: Table): set<nat> {
    set c: nat | 2 <= c < |fat| && fat[c] == 0
  }

  function Zeroed(fat: Table, p: seq<nat>): (r: Table)
    ensures |r| == |fat|
  {
    seq(|fat|, i requires 0 <= i < |fat| => if i in p then 0 else fat[i])
  }

  // --- the bytes of a chain ----------------------------------------------------------------

  function Join(ss: seq<Sector>): (b: seq<byte>)
  {
    if ss == [] then [] else ss[0] + Join(ss[1..])
  }

  /** The sectors of a cluster. */
  function ClusterSectors(disk: seq<Sector>, g: Geo, c: nat): seq<Sector> {
    if c >= 2 && ClusterLba(g, c) + g.spc <= |disk| then disk[ClusterLba(g, c)..ClusterLba(g, c) + g.spc] else []
  }

  function ClusterBytes(disk: seq<Sector>, g: Geo, c: nat): seq<byte> {
    Join(ClusterSectors(disk, g, c))
  }

  /** What reading the clusters of `p` one after the other gives. */
  function ChainBytes(disk: seq<Sector>, g: Geo, p: seq<nat>): seq<byte> {
    if p == [] then [] else ClusterBytes(disk, g, p[0]) + ChainBytes(disk, g, p[1..])
  }

  lemma {:induction false} JoinAppend(ss: seq<Sector>, s: Sector)
    ensures Join(ss + [s]) == Join(ss) + s
  {
    if ss == [] {
      assert ss + [s] == [s];
      assert Join([s]) == s + Join([]);
    } else {
      assert (ss + [s])[1..] == ss[1..] + [s];
      JoinAppend(ss[1..], s);
      assert ss[0] + (Join(ss[1..]) + s) == (ss[0] + Join(ss[1..])) + s;
    }
  }

  lemma {:induction false} ChainBytesAppend(disk: seq<Sector>, g: Geo, p: seq<nat>, c: nat)
    ensures ChainBytes(disk, g, p + [c]) == ChainBytes(disk, g, p) + ClusterBytes(disk, g, c)
  {
    if p == [] {
      assert p + [c] == [c];
      assert ChainBytes(disk, g, [c][1..]) == [];
    } else {
      assert (p + [c])[1..] == p[1..] + [c];
      ChainBytesAppend(disk, g, p[1..], c);
      assert ClusterBytes(disk, g, p[0]) + (ChainBytes(disk, g, p[1..]) + ClusterBytes(disk, g, c)) ==
             (ClusterBytes(disk, g, p[0]) + ChainBytes(disk, g, p[1..])) + ClusterBytes(disk, g, c);
    }
  }

  /** A cluster keeps its sectors. */
  predicate ClusterSame(was: seq<Sector>, now: seq<Sector>, g: Geo, c: nat) {
    |now| == |was| && ClusterSectors(now, g, c) == ClusterSectors(was, g, c)
  }

  /** Sectors outside the clusters of a chain do not matter to its bytes. */
  lemma {:induction false} ChainBytesFrame(disk: seq<Sector>, disk': seq<Sector>, g: Geo, p: seq<nat>)
    requires forall i | 0 <= i < |p| :: ClusterSame(disk, disk', g, p[i])
    ensures ChainBytes(disk', g, p) == ChainBytes(disk, g, p)
  {
    if p != [] {
      assert ClusterSame(disk, disk', g, p[0]);
      forall i | 0 <= i < |p[1..]| ensures ClusterSame(disk, disk', g, p[1..][i]) {
        assert p[1..][i] == p[i + 1];
      }
      ChainBytesFrame(disk, disk', g, p[1..]);
    }
  }

  // --- growing and shrinking chains ---------------------------------------------------------

  predicate IsLowestFree(fat: Table, c: nat) {
    2 <= c < |fat| && fat[c] == 0 && forall d | 2 <= d < c :: fat[d] != 0
  }

  /** `now` is `old` with one more chain `p`, on clusters that were free. */
  ghost predicate AddedChain(was: Table, now: Table, p: seq<nat>) {
    && |now| == |was| && (p != [] ==> IsChain(now, p) && now[p[|p| - 1]] == EOC)
    && (forall i | 0 <= i < |was| && i !in p :: now[i] == was[i])
    && (forall j | 0 <= j < |p| :: 2 <= p[j] < |was| && was[p[j]] == 0)
  }

  function Members(p: seq<nat>): set<nat> {
    set i | 0 <= i < |p| :: p[i]
  }

  lemma {:induction false} MemberCount(p: seq<nat>)
    requires NoRepeat(p)
    ensures |Members(p)| == |p|
  {
    if p != [] {
      var n := |p| - 1;
      MemberCount(p[..n]);
      assert p[n] !in Members(p[..n]);
      assert Members(p) == Members(p[..n]) + {p[n]};
    }
  }

  /** One more cluster at the end of a chain under construction. */
  lemma AddOneCluster(was: Table, mid: Table, now: Table, p: seq<nat>, c: nat)
    requires AddedChain(was, mid, p) && 2 <= c < |was| <= FAT_CACHE_MAX && mid[c] == 0
    requires now == if p == [] then mid[c := EOC] else mid[c := EOC][p[|p| - 1] := c]
    ensures AddedChain(was, now, p + [c])
  {
    var q := p + [c];
    assert c !in p by {
      if i :| 0 <= i < |p| && p[i] == c {
        assert i < |p| - 1 ==> mid[p[i]] == p[i + 1];
      }
    }
    forall i | 0 <= i < |q| - 1 ensures now[q[i]] == q[i + 1] {
      if i < |p| - 1 {
        assert mid[p[i]] == p[i + 1] && p[i] != p[|p| - 1];
      }
    }
  }

  /** The free count falls by exactly the length of the new chain. */
  lemma AddedChainFree(was: Table, now: Table, p: seq<nat>)
    requires AddedChain(was, now, p)
    ensures FreeSet(now) == FreeSet(was) - Members(p) && Members(p) <= FreeSet(was)
    ensures |FreeSet(now)| + |p| == |FreeSet(was)|
  {
    forall c | c in Members(p) ensures now[c] != 0 {
      var i :| 0 <= i < |p| && p[i] == c;
      assert i < |p| - 1 ==> now[p[i]] == p[i + 1];
    }
    assert FreeSet(now) == FreeSet(was) - Members(p);
    if p != [] {
      MemberCount(p);
    }
  }

  lemma ZeroedStep(fat: Table, p: seq<nat>, k: nat)
    requires k < |p| && p[k] < |fat|
    ensures Zeroed(fat, p[..k])[p[k] := 0] == Zeroed(fat, p[..k + 1])
  {
    assert p[..k + 1] == p[..k] + [p[k]];
  }

  lemma ZeroedZeroed(fat: Table, p: seq<nat>, j: nat, n: nat)
    requires j + n <= |p|
    ensures Zeroed(Zeroed(fat, p[..j]), p[j..][..n]) == Zeroed(fat, p[..j + n])
  {
    assert p[..j + n] == p[..j] + p[j..][..n];
  }

  /** What is left of a chain after its first clusters were freed is still a chain. */
  lemma ChainSuffix(fat: Table, p: seq<nat>, k: nat)
    requires IsChain(fat, p) && k < |p|
    ensures IsChain(Zeroed(fat, p[..k]), p[k..])
  {
    var fat', q := Zeroed(fat, p[..k]), p[k..];
    forall i | 0 <= i < |q| ensures fat'[q[i]] == fat[q[i]] {
      assert q[i] == p[k + i] && q[i] !in p[..k];
    }
  }

  /** Freeing every cluster of a new chain gives back the table as it was. */
  lemma ZeroedUndoes(was: Table, now: Table, p: seq<nat>)
    requires AddedChain(was, now, p)
    ensures Zeroed(now, p) == was
  {
  }

  /** Freeing a chain gives back exactly its clusters. */
  lemma ZeroedFree(fat: Table, p: seq<nat>)
    requires IsChain(fat, p)
    ensures FreeSet(Zeroed(fat, p)) == FreeSet(fat) + Members(p) && FreeSet(fat) !! Members(p)
    ensures |FreeSet(Zeroed(fat, p))| == |FreeSet(fat)| + |p|
  {
    forall c | c in Members(p) ensures fat[c] != 0 {
      var i :| 0 <= i < |p| && p[i] == c;
      assert i < |p| - 1 ==> fat[p[i]] == p[i + 1];
    }
    MemberCount(p);
  }

  // --- file data on sectors ----------------------------------------------------------------------

  /** `len` bytes of `data` from `off` on, zeros past its end. */
  function Padded(data: seq<byte>, off: nat, len: nat): (b: seq<byte>)
    ensures |b| == len && forall k | 0 <= k < len :: b[k] == if off + k < |data| then data[off + k] else 0
  {
    seq(len, k requires 0 <= k < len => if off + k < |data| then data[off + k] else 0)
  }

  lemma PaddedSplit(data: seq<byte>, off: nat, a: nat, b: nat)
    ensures Padded(data, off, a) + Padded(data, off + a, b) == Padded(data, off, a + b)
  {
  }

  lemma PaddedKeeps(data: seq<byte>, len: nat)
    requires |data| <= len
    ensures Padded(data, 0, len)[..|data|] == data
  {
  }

  /** Below the data area, and in every cluster outside `p`, the device is as it was. */
  ghost predicate OnlyClusters(was: seq<Sector>, now: seq<Sector>, g: Geo, entries: nat, p: seq<nat>) {
    && |now| == |was| && (forall i | 0 <= i < |was| && i < DataBegin(g) :: now[i] == was[i])
    && (forall c | 2 <= c < entries && c !in p :: ClusterSame(was, now, g, c))
    && (forall i | 0 <= i < |now| :: |was[i]| == SECTOR ==> |now[i]| == SECTOR)
  }

  // --- mounting ------------------------------------------------------------------------------------

  datatype MountError = ReadFailed | UnsupportedSector | BadBpb | TooLarge
  datatype Bpb = Bad(error: MountError) | Good(geo: Geo, root: nat)

  function Le16At(b: Sector, off: nat): nat
    requires off + 2 <= |b|
  {
    b[off] as int + b[off + 1] as int * 0x100
  }

  function Le32At(b: Sector, off: nat): nat
    requires off + 4 <= |b|
  {
    FromLe32(b[off..off + 4])
  }

  /** The BIOS parameter block in sector 0. */
  function ParseBpb(b: Sector): Bpb
    requires |b| == SECTOR
  {
    var spc, numFats, fatSize := b[0x0D] as int, b[0x10] as int, Le32At(b, 0x24);
    if Le16At(b, 0x0B) != SECTOR then Bad(UnsupportedSector)
    else if spc == 0 || numFats == 0 || fatSize == 0 then Bad(BadBpb)
    else if fatSize * SECTOR / 4 > FAT_CACHE_MAX then Bad(TooLarge)
    else Good(Geo(spc, Le16At(b, 0x0E), numFats, fatSize), Le32At(b, 0x2C))
  }

  /** Sector 0 says where everything is, and the FAT area does not cover it. */
  predicate BootsAs(disk: seq<Sector>, g: Geo, root: nat) {
    g.fatBegin > 0 && |disk| > 0 && |disk[0]| == SECTOR && ParseBpb(disk[0]) == Good(g, root)
  }

  /** What mounting reads out of the first FAT copy. */
  function Decoded(disk: seq<Sector>, g: Geo): (fat: Table)
    requires g.fatBegin + g.fatSize <= |disk| && forall i | 0 <= i < |disk| :: |disk[i]| == SECTOR
    ensures EntriesOk(fat)
  {
    seq(g.fatSize * ENTS, i requires 0 <= i < g.fatSize * ENTS => EntryAt(disk[g.fatBegin + i / ENTS], i % ENTS))
  }

  lemma RemountEntry(disk: seq<Sector>, fat: Table, g: Geo, i: nat)
    requires VolumeOk(disk, fat, g) && i < |fat|
    ensures g.fatBegin + i / ENTS < |disk| && EntryAt(disk[g.fatBegin + i / ENTS], i % ENTS) == fat[i]
  {
    var s := i / ENTS;
    assert FatLba(g, 0, s) == g.fatBegin + s;
    assert SectorIs(disk[FatLba(g, 0, s)], fat, s);
    FatSectorRoundTrip(fat, s, i % ENTS);
  }

  /** Remounting finds the table the driver had in memory. */
  lemma RemountFindsTable(disk: seq<Sector>, fat: Table, g: Geo)
    requires VolumeOk(disk, fat, g)
    ensures g.fatBegin + g.fatSize <= |disk| && Decoded(disk, g) == fat
  {
    FatLbaInFat(g, 0, g.fatSize - 1);
    var now := Decoded(disk, g);
    forall i | 0 <= i < |fat| ensures now[i] == fat[i] {
      RemountEntry(disk, fat, g, i);
    }
  }
}
