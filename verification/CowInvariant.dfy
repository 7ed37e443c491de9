/** Every step of the copy-on-write protocol keeps the share-count invariant. */
module CowInvariant {
  import opened CowProtocol

  /** Steps that neither touch an entry nor start or finish a release leave the owners alone. */
  lemma SameOwners(st: State, st': State)
    requires st'.leaves == st.leaves
    requires forall k | k in st.leaves :: Uncounted(st', k) == Uncounted(st, k)
    requires forall s, f :: (s in st'.pcs && Drops(st'.pcs[s], f)) <==> (s in st.pcs && Drops(st.pcs[s], f))
    ensures forall f :: Mapped(st', f) == Mapped(st, f) && InFlight(st', f) == InFlight(st, f)
  {
  }

  ghost predicate SameLeaves(st: State, st': State, s: Space) {
    forall page {:trigger (s, page) in st'.leaves} {:trigger (s, page) in st.leaves} ::
      ((s, page) in st'.leaves <==> (s, page) in st.leaves) &&
      ((s, page) in st.leaves ==> st'.leaves[(s, page)] == st.leaves[(s, page)])
  }

  predicate InFork(pc: Pc) {
    pc.Forking? || pc.Adding?
  }

  predicate Plain(pc: Pc) {
    !InFork(pc) && !pc.Embryo?
  }

  ghost predicate SameRoles(st: State, st': State) {
    && (forall k | k in st.leaves :: Uncounted(st', k) == Uncounted(st, k))
    && (forall s, f :: (s in st'.pcs && Drops(st'.pcs[s], f)) <==> (s in st.pcs && Drops(st.pcs[s], f)))
    && (forall s, f :: (s in st'.pcs && Holds(st'.pcs[s], f)) <==> (s in st.pcs && Holds(st.pcs[s], f)))
  }

  lemma QuietNoLeak(st: State, st': State, data: set<Frame>)
    requires NoLeak(st) && data == st.used - st.kernel && data == st'.used - st'.kernel
    requires forall f :: Owners(st', f) == Owners(st, f)
    requires forall s, f :: (s in st'.pcs && Holds(st'.pcs[s], f)) <==> (s in st.pcs && Holds(st.pcs[s], f))
    ensures NoLeak(st')
  {
    forall f | f in st'.used - st'.kernel && Owners(st', f) == 0
      ensures exists t :: t in st'.pcs && Holds(st'.pcs[t], f)
    {
      var t :| t in st.pcs && Holds(st.pcs[t], f);
      assert t in st'.pcs && Holds(st'.pcs[t], f);
    }
  }

  /** Counts, bitmap and frames of the entries untouched. */
  lemma QuietCounts(st: State, st': State)
    requires CountsMatch(st) && HeldAlone(st) && NoLeak(st) && SameRoles(st, st')
    requires st'.refs == st.refs && st'.used == st.used && st'.kernel == st.kernel
    requires forall f :: Mapped(st', f) == Mapped(st, f) && InFlight(st', f) == InFlight(st, f)
    requires st'.leaves.Keys == st.leaves.Keys
    requires forall k | k in st.leaves :: st'.leaves[k].frame == st.leaves[k].frame
    ensures CountsMatch(st') && HeldAlone(st') && NoLeak(st')
  {
    QuietNoLeak(st, st', st.used - st.kernel);
    assert CountsMatch(st') by {
      forall f: Frame | f < |st.refs| ensures Owners(st', f) == Owners(st, f) {}
    }
  }

  /** A step that leaves entries, counts and bitmap alone keeps everything but the per-space conditions. */
  lemma InvQuiet(st: State, st': State)
    requires Inv(st) && SameRoles(st, st')
    requires st'.leaves == st.leaves && st'.refs == st.refs && st'.used == st.used && st'.kernel == st.kernel
    requires |st'.mem| == |st.mem| && forall k | k in st.leaves :: Has(st', k.0)
    requires PcsOk(st')
    ensures Inv(st')
  {
    SameOwners(st, st');
    QuietCounts(st, st');
  }

  /** A step that only moves the program counter of `s`, in or out of no fork, release or fetch. */
  lemma InvPcOnly(st: State, st': State, s: Space, pc: Pc)
    requires Inv(st)
    requires st' == st.(pcs := st.pcs[s := pc])
    requires Plain(pc) && Plain(PcOf(st, s))
    requires forall f :: Drops(pc, f) == Drops(PcOf(st, s), f) && Holds(pc, f) == Holds(PcOf(st, s), f)
    requires PcOk(st', s)
    ensures Inv(st')
  {
    PcOnlyPcs(st, st', s, pc);
    InvQuiet(st, st');
  }

  lemma PcOnlyPcs(st: State, st': State, s: Space, pc: Pc)
    requires PcsOk(st)
    requires st' == st.(pcs := st.pcs[s := pc])
    requires Plain(pc) && Plain(PcOf(st, s))
    requires forall f :: Drops(pc, f) == Drops(PcOf(st, s), f) && Holds(pc, f) == Holds(PcOf(st, s), f)
    requires PcOk(st', s)
    ensures SameRoles(st, st') && PcsOk(st')
  {
    SameOwners(st, st');
    forall t | t in st'.pcs && t != s ensures PcOk(st', t) {
      PcOnlyOther(st, st', s, t);
    }
  }

  lemma PcOnlyOther(st: State, st': State, s: Space, t: Space)
    requires Has(st, t) && PcOk(st, t) && t != s && Has(st', s)
    requires st' == st.(pcs := st.pcs[s := st'.pcs[s]])
    requires Plain(st'.pcs[s]) && Plain(PcOf(st, s))
    requires forall f :: Mapped(st', f) == Mapped(st, f) && InFlight(st', f) == InFlight(st, f)
    ensures PcOk(st', t)
  {
  }

  lemma UncountedParent(st: State, k: Key)
    requires PcsOk(st) && k in st.leaves && Uncounted(st, k)
    ensures Has(st, k.0) && st.pcs[k.0].Embryo?
    ensures var l := (st.pcs[k.0].parent, k.1);
            Has(st, l.0) && st.pcs[l.0].Adding? && l in st.leaves && !Uncounted(st, l) &&
            st.leaves[l].frame == st.leaves[k].frame && !Writer(st.leaves[k]) && !Writer(st.leaves[l]) &&
            l in Mapped(st, st.leaves[k].frame)
  {
    assert PcOk(st, st.pcs[k.0].parent);
  }

  /** `t` relies on knowing exactly who owns `f`. */
  predicate Settled(pc: Pc, f: Frame) {
    (pc.Sole? && pc.entry.frame == f) || (pc.Seen? && pc.count == 0 && pc.frame == f)
  }

  ghost predicate SameOwnersOf(st: State, st': State, f: Frame) {
    Mapped(st', f) == Mapped(st, f) && InFlight(st', f) == InFlight(st, f)
  }

  /** A step of `s` on its own entries: what the other spaces rely on. */
  ghost predicate LocalTo(st: State, st': State, s: Space) {
    && Has(st, s) && Has(st', s) && st'.pcs == st.pcs[s := st'.pcs[s]]
    && Plain(st.pcs[s]) && Plain(st'.pcs[s])
    && |st'.refs| == |st.refs| && |st'.mem| == |st.mem|
    && (forall k | k in st'.leaves && k.0 != s :: k in st.leaves && st'.leaves[k] == st.leaves[k])
    && (forall k | k in st.leaves && k.0 != s :: k in st'.leaves)
  }

  lemma OtherPcKept(st: State, st': State, s: Space, t: Space)
    requires LocalTo(st, st', s) && t != s && Has(st, t) && PcOk(st, t)
    requires forall f | Settled(st.pcs[t], f) :: SameOwnersOf(st, st', f)
    requires st.pcs[t].Copied? ==>
      var pc := st.pcs[t];
      st'.mem[pc.target] == st.mem[pc.target] && st'.mem[pc.entry.frame] == st.mem[pc.entry.frame]
    ensures PcOk(st', t)
  {
    if st.pcs[t].Sole? {
      assert Settled(st.pcs[t], st.pcs[t].entry.frame);
    }
    if st.pcs[t].Seen? && st.pcs[t].count == 0 {
      assert Settled(st.pcs[t], st.pcs[t].frame);
    }
  }

  lemma PcsKept(st: State, st': State, s: Space)
    requires PcsOk(st) && LocalTo(st, st', s) && PcOk(st', s)
    requires forall t, f | t in st.pcs && t != s && Settled(st.pcs[t], f) :: SameOwnersOf(st, st', f)
    requires forall t | t in st.pcs && t != s && st.pcs[t].Copied? && PcOk(st, t) ::
      var pc := st.pcs[t];
      st'.mem[pc.target] == st.mem[pc.target] && st'.mem[pc.entry.frame] == st.mem[pc.entry.frame]
    ensures PcsOk(st')
  {
    forall t | t in st'.pcs && t != s ensures PcOk(st', t) {
      OtherPcKept(st, st', s, t);
    }
  }

  // --- Restore ---------------------------------------------------------------

  /** A handler that read a count of 0 has the only entry there is, counted or not. */
  lemma SoleIsAlone(st: State, s: Space, k: Key)
    requires PcsOk(st) && Has(st, s) && st.pcs[s].Sole?
    requires k in st.leaves && st.leaves[k].frame == st.pcs[s].entry.frame
    ensures k == (s, st.pcs[s].page)
  {
    assert PcOk(st, s);
    if Uncounted(st, k) {
      UncountedParent(st, k);
    } else {
      assert k in Mapped(st, st.pcs[s].entry.frame);
    }
  }

  lemma RestoreOwners(st: State, st': State, s: Space)
    requires PcsOk(st) && RestoreOk(st, s) && st' == Restored(st, s)
    ensures forall f :: Mapped(st', f) == Mapped(st, f) && InFlight(st', f) == InFlight(st, f)
    ensures SameRoles(st, st')
  {
    assert PcOk(st, s);
  }

  lemma RestorePcs(st: State, st': State, s: Space)
    requires PcsOk(st) && RestoreOk(st, s) && st' == Restored(st, s)
    ensures PcsOk(st')
  {
    assert PcOk(st, s);
    RestoreOwners(st, st', s);
    PcsKept(st, st', s);
  }

  lemma RestoreWriters(st: State, st': State, s: Space)
    requires PcsOk(st) && WritersAlone(st) && RestoreOk(st, s) && st' == Restored(st, s)
    ensures WritersAlone(st')
  {
    assert PcOk(st, s);
    var f := st.pcs[s].entry.frame;
    forall k | k in st.leaves && st.leaves[k].frame == f ensures k == (s, st.pcs[s].page) {
      SoleIsAlone(st, s, k);
    }
    forall t | t in st.pcs ensures !Drops(st.pcs[t], f) {
      assert t !in InFlight(st, f);
    }
  }

  lemma RestoreCounts(st: State, st': State, s: Space)
    requires PcsOk(st) && RestoreOk(st, s) && st' == Restored(st, s)
    requires CountsMatch(st) && HeldAlone(st) && NoLeak(st)
    ensures CountsMatch(st') && HeldAlone(st') && NoLeak(st')
  {
    assert PcOk(st, s);
    RestoreOwners(st, st', s);
    QuietCounts(st, st');
  }

  lemma RestoreShape(st: State, st': State, s: Space)
    requires PcsOk(st) && Shape(st) && RestoreOk(st, s) && st' == Restored(st, s)
    ensures Shape(st')
  {
    assert PcOk(st, s);
  }

  lemma InvRestore(st: State, s: Space)
    requires Inv(st) && RestoreOk(st, s)
    ensures Inv(Restored(st, s))
  {
    var st' := Restored(st, s);
    RestoreShape(st, st', s);
    RestoreCounts(st, st', s);
    RestorePcs(st, st', s);
    RestoreWriters(st, st', s);
  }

  // --- Steps that only move a program counter -----------------------------------

  lemma InvSpawned(st: State, s: Space)
    requires Inv(st) && NewSpaceOk(st, s)
    ensures Inv(Spawned(st, s))
  {
    InvPcOnly(st, Spawned(st, s), s, Idle);
  }

  lemma InvFault(st: State, s: Space, page: Page)
    requires Inv(st) && FaultTaken(st, s, page)
    ensures Inv(AfterFault(st, s, page))
  {
    var st' := AfterFault(st, s, page);
    InvPcOnly(st, st', s, st'.pcs[s]);
  }

  lemma InvStarved(st: State, s: Space)
    requires Inv(st) && StarvedOk(st, s)
    ensures Inv(Starved(st, s))
  {
    InvPcOnly(st, Starved(st, s), s, Tearing);
  }

  lemma InvExited(st: State, s: Space)
    requires Inv(st) && ExitOk(st, s)
    ensures Inv(Exited(st, s))
  {
    InvPcOnly(st, Exited(st, s), s, Tearing);
  }

  /** A count of 0 read inside release: the reader is the last owner. */
  lemma ZeroMeansLast(st: State, s: Space, f: Frame)
    requires CountsMatch(st) && Has(st, s) && Drops(st.pcs[s], f) && f < |st.refs| && st.refs[f] == 0
    ensures Mapped(st, f) == {} && InFlight(st, f) == {s}
  {
    assert s in InFlight(st, f);
    assert InFlight(st, f) == {s} + (InFlight(st, f) - {s});
  }

  lemma InvLoad(st: State, s: Space)
    requires Inv(st) && (LoadOk(st, s) || RetryOk(st, s))
    ensures Inv(AfterLoad(st, s))
  {
    var st' := AfterLoad(st, s);
    var f := st.pcs[s].frame;
    LoadRoles(st, st', s);
    if st.refs[f] == 0 {
      ZeroMeansLast(st, s, f);
    }
    InvPcOnly(st, st', s, st'.pcs[s]);
  }

  lemma LoadRoles(st: State, st': State, s: Space)
    requires (LoadOk(st, s) || RetryOk(st, s)) && st' == AfterLoad(st, s)
    ensures forall f :: SameOwnersOf(st, st', f)
  {
    SameOwners(st, st');
  }

  /** A count of 0 read by the fault handler: its entry is the only owner. */
  lemma ZeroMeansSole(st: State, s: Space, page: Page, entry: Leaf)
    requires CountsMatch(st) && FaultOk(st, s, page, entry) && !Uncounted(st, (s, page))
    requires entry.frame < |st.refs| && st.refs[entry.frame] == 0
    ensures Mapped(st, entry.frame) == {(s, page)} && InFlight(st, entry.frame) == {}
  {
    var f := entry.frame;
    assert (s, page) in Mapped(st, f);
    assert Mapped(st, f) == {(s, page)} + (Mapped(st, f) - {(s, page)});
  }

  lemma ReadCountRoles(st: State, st': State, s: Space)
    requires ReadCountOk(st, s) && st' == AfterReadCount(st, s)
    ensures forall f :: SameOwnersOf(st, st', f)
  {
    SameOwners(st, st');
  }

  lemma InvReadCount(st: State, s: Space)
    requires Inv(st) && ReadCountOk(st, s)
    ensures Inv(AfterReadCount(st, s))
  {
    var st' := AfterReadCount(st, s);
    var pc := st.pcs[s];
    assert PcOk(st, s);
    ReadCountRoles(st, st', s);
    if st.refs[pc.entry.frame] == 0 {
      ZeroMeansSole(st, s, pc.page, pc.entry);
    }
    InvPcOnly(st, st', s, st'.pcs[s]);
  }
}
