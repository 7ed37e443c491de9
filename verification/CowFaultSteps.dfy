/** Invariant proofs for the steps that change frames, entries or counts outside fork. */
module CowFaultSteps {
  import opened Bytes
  import opened CowProtocol
  import opened CowInvariant

  /** The frame a handler has filled is in nobody else's reach. */
  lemma HeldApart(st: State, t: Space)
    requires HeldAlone(st) && Has(st, t) && (st.pcs[t].Fetched? || st.pcs[t].Copied?)
    ensures forall k | k in st.leaves :: st.leaves[k].frame != st.pcs[t].target
    ensures forall u | u in st.pcs && u != t :: !Holds(st.pcs[u], st.pcs[t].target)
    ensures st.pcs[t].target in st.used - st.kernel && Owners(st, st.pcs[t].target) == 0
  {
    assert PrivateTo(st, t, st.pcs[t].target);
  }

  // --- A store ----------------------------------------------------------------

  lemma StorePcs(st: State, st': State, s: Space, page: Page, off: nat, value: byte)
    requires PcsOk(st) && WritersAlone(st) && HeldAlone(st) && StoreOk(st, s, page, off)
    requires st' == Stored(st, s, page, off, value)
    ensures PcsOk(st')
  {
    SameOwners(st, st');
    forall t | t in st.pcs ensures PcOk(st', t) {
      assert PcOk(st, t);
      if st.pcs[t].Copied? {
        HeldApart(st, t);
        assert st.leaves[(t, st.pcs[t].page)] == st.pcs[t].entry;
      }
    }
  }

  lemma InvStored(st: State, s: Space, page: Page, off: nat, value: byte)
    requires Inv(st) && StoreOk(st, s, page, off)
    ensures Inv(Stored(st, s, page, off, value))
  {
    var st' := Stored(st, s, page, off, value);
    StorePcs(st, st', s, page, off, value);
    InvQuiet(st, st');
  }

  // --- The copy ---------------------------------------------------------------

  lemma CopyPcs(st: State, st': State, s: Space)
    requires PcsOk(st) && HeldAlone(st) && CopyOk(st, s) && st' == AfterCopy(st, s)
    ensures PcsOk(st') && SameRoles(st, st')
  {
    assert PcOk(st, s);
    SameOwners(st, st');
    HeldApart(st, s);
    forall t | t in st.pcs && t != s && st.pcs[t].Copied? && PcOk(st, t)
      ensures st.pcs[t].target != st.pcs[s].target && st.pcs[t].entry.frame != st.pcs[s].target
    {
      assert !Holds(st.pcs[t], st.pcs[s].target);
      assert st.leaves[(t, st.pcs[t].page)] == st.pcs[t].entry;
    }
    PcsKept(st, st', s);
  }

  lemma InvCopied(st: State, s: Space)
    requires Inv(st) && CopyOk(st, s)
    ensures Inv(AfterCopy(st, s))
  {
    var st' := AfterCopy(st, s);
    CopyPcs(st, st', s);
    InvQuiet(st, st');
  }

  // --- Fetching a frame ---------------------------------------------------------

  lemma FetchRoles(st: State, st': State, s: Space, target: Frame)
    requires FetchOk(st, s, target) && st' == AfterFetch(st, s, target)
    ensures forall f :: SameOwnersOf(st, st', f)
    ensures forall t, f :: t in st'.pcs && Holds(st'.pcs[t], f) <==>
                           (t in st.pcs && Holds(st.pcs[t], f)) || (t == s && f == target)
  {
    SameOwners(st, st');
  }

  lemma FetchPcs(st: State, st': State, s: Space, target: Frame)
    requires PcsOk(st) && FetchOk(st, s, target) && st' == AfterFetch(st, s, target)
    ensures PcsOk(st')
  {
    assert PcOk(st, s);
    FetchRoles(st, st', s, target);
    PcsKept(st, st', s);
  }

  lemma FetchCounts(st: State, st': State, s: Space, target: Frame)
    requires Shape(st) && CountsMatch(st) && HeldAlone(st) && NoLeak(st)
    requires FetchOk(st, s, target) && st' == AfterFetch(st, s, target)
    ensures CountsMatch(st') && HeldAlone(st') && NoLeak(st')
  {
    FetchRoles(st, st', s, target);
    forall f: Frame ensures Owners(st', f) == Owners(st, f) {
      assert SameOwnersOf(st, st', f);
    }
    assert Owners(st, target) == 0;
    forall f | f in st'.used - st'.kernel && Owners(st', f) == 0
      ensures exists t :: t in st'.pcs && Holds(st'.pcs[t], f)
    {
      if f == target {
        assert Holds(st'.pcs[s], target);
      } else {
        var t :| t in st.pcs && Holds(st.pcs[t], f);
        assert t in st'.pcs && Holds(st'.pcs[t], f);
      }
    }
  }

  lemma FetchRest(st: State, st': State, s: Space, target: Frame)
    requires Shape(st) && WritersAlone(st) && FetchOk(st, s, target) && st' == AfterFetch(st, s, target)
    ensures Shape(st') && WritersAlone(st')
  {
  }

  lemma InvFetched(st: State, s: Space, target: Frame)
    requires Inv(st) && FetchOk(st, s, target)
    ensures Inv(AfterFetch(st, s, target))
  {
    var st' := AfterFetch(st, s, target);
    FetchPcs(st, st', s, target);
    FetchCounts(st, st', s, target);
    FetchRest(st, st', s, target);
  }

  // --- Mapping a new frame --------------------------------------------------------

  lemma MapOwners(st: State, st': State, s: Space, page: Page, target: Frame, bytes: Content, w: bool, u: bool)
    requires Shape(st) && CountsMatch(st)
    requires MapOk(st, s, page, target) && st' == MappedFresh(st, s, page, target, bytes, w, u)
    ensures forall f | f != target :: SameOwnersOf(st, st', f)
    ensures Mapped(st', target) == {(s, page)} && InFlight(st', target) == {} && st.refs[target] == 0
    ensures Mapped(st, target) == {} && InFlight(st, target) == {}
  {
    assert Owners(st, target) == 0;
    assert Mapped(st, target) == {} && InFlight(st, target) == {};
    assert Mapped(st', target) == Mapped(st, target) + {(s, page)};
    forall f | f != target ensures SameOwnersOf(st, st', f) {
      assert Mapped(st', f) == Mapped(st, f);
    }
  }

  lemma MapPcs(st: State, st': State, s: Space, page: Page, target: Frame, bytes: Content, w: bool, u: bool)
    requires Shape(st) && CountsMatch(st) && HeldAlone(st) && PcsOk(st)
    requires MapOk(st, s, page, target) && st' == MappedFresh(st, s, page, target, bytes, w, u)
    ensures PcsOk(st')
  {
    MapOwners(st, st', s, page, target, bytes, w, u);
    forall t | t in st.pcs && t != s && st.pcs[t].Copied? && PcOk(st, t)
      ensures st.pcs[t].target != target && st.pcs[t].entry.frame != target
    {
      assert Holds(st.pcs[t], st.pcs[t].target);
    }
    forall t, f | t in st.pcs && t != s && Settled(st.pcs[t], f) ensures SameOwnersOf(st, st', f) {
      assert PcOk(st, t);
    }
    PcsKept(st, st', s);
  }

  lemma MapCounts(st: State, st': State, s: Space, page: Page, target: Frame, bytes: Content, w: bool, u: bool)
    requires Shape(st) && CountsMatch(st) && HeldAlone(st) && NoLeak(st)
    requires MapOk(st, s, page, target) && st' == MappedFresh(st, s, page, target, bytes, w, u)
    ensures CountsMatch(st') && HeldAlone(st') && NoLeak(st')
  {
    MapOwners(st, st', s, page, target, bytes, w, u);
    forall f: Frame | f < |st.refs| && f != target ensures Owners(st', f) == Owners(st, f) {
      assert SameOwnersOf(st, st', f);
    }
    assert Owners(st', target) == 1;
    forall f | f in st'.used - st'.kernel && Owners(st', f) == 0
      ensures exists t :: t in st'.pcs && Holds(st'.pcs[t], f)
    {
      assert SameOwnersOf(st, st', f);
      var t :| t in st.pcs && Holds(st.pcs[t], f);
      assert t in st'.pcs && Holds(st'.pcs[t], f);
    }
  }

  lemma MapRest(st: State, st': State, s: Space, page: Page, target: Frame, bytes: Content, w: bool, u: bool)
    requires Shape(st) && WritersAlone(st) && CountsMatch(st)
    requires MapOk(st, s, page, target) && st' == MappedFresh(st, s, page, target, bytes, w, u)
    ensures Shape(st') && WritersAlone(st')
  {
    MapOwners(st, st', s, page, target, bytes, w, u);
    forall t | t in st'.pcs ensures !Drops(st'.pcs[t], target) {
      assert t !in InFlight(st', target);
    }
  }

  lemma InvMapped(st: State, s: Space, page: Page, target: Frame, bytes: Content, w: bool, u: bool)
    requires Inv(st) && MapOk(st, s, page, target)
    ensures Inv(MappedFresh(st, s, page, target, bytes, w, u))
  {
    var st' := MappedFresh(st, s, page, target, bytes, w, u);
    MapPcs(st, st', s, page, target, bytes, w, u);
    MapCounts(st, st', s, page, target, bytes, w, u);
    MapRest(st, st', s, page, target, bytes, w, u);
  }

  // --- Rewriting the entry to the private copy --------------------------------------

  lemma RewriteSets(st: State, st': State, s: Space)
    requires RewriteOk(st, s) && PcOk(st, s) && st' == Rewritten(st, s)
    requires forall k | k in st.leaves :: st.leaves[k].frame != st.pcs[s].target
    ensures var pc := st.pcs[s]; var k := (s, pc.page);
      && k in Mapped(st, pc.entry.frame) && s !in InFlight(st, pc.entry.frame)
      && (forall f :: Mapped(st', f) == if f == pc.target then {k} else Mapped(st, f) - {k})
      && (forall f :: InFlight(st', f) == if f == pc.entry.frame then InFlight(st, f) + {s} else InFlight(st, f))
  {
  }

  lemma RewriteOwners(st: State, st': State, s: Space)
    requires PcsOk(st) && HeldAlone(st) && RewriteOk(st, s) && st' == Rewritten(st, s)
    ensures var pc := st.pcs[s]; var k := (s, pc.page); var was := pc.entry.frame;
      && was != pc.target && k in Mapped(st, was) && s !in InFlight(st, was)
      && Mapped(st', was) == Mapped(st, was) - {k} && InFlight(st', was) == InFlight(st, was) + {s}
      && Mapped(st, pc.target) == {} && InFlight(st, pc.target) == {}
      && Mapped(st', pc.target) == {k} && InFlight(st', pc.target) == {}
      && forall f | f != was && f != pc.target :: SameOwnersOf(st, st', f)
  {
    assert PcOk(st, s);
    var pc := st.pcs[s];
    HeldApart(st, s);
    RewriteSets(st, st', s);
    forall f | f != pc.entry.frame && f != pc.target ensures SameOwnersOf(st, st', f) {
      assert (s, pc.page) !in Mapped(st, f);
    }
  }

  lemma RewritePcs(st: State, st': State, s: Space)
    requires PcsOk(st) && Shape(st) && HeldAlone(st) && RewriteOk(st, s) && st' == Rewritten(st, s)
    ensures PcsOk(st')
  {
    assert PcOk(st, s);
    RewriteOwners(st, st', s);
    forall t, f | t in st.pcs && t != s && Settled(st.pcs[t], f) ensures SameOwnersOf(st, st', f) {
      assert PcOk(st, t);
      assert Mapped(st, f) != {} || InFlight(st, f) != {};
    }
    PcsKept(st, st', s);
  }

  lemma RewriteOwnerCounts(st: State, st': State, s: Space)
    requires PcsOk(st) && HeldAlone(st) && RewriteOk(st, s) && st' == Rewritten(st, s)
    ensures forall f: Frame | f != st.pcs[s].target :: Owners(st', f) == Owners(st, f)
    ensures Owners(st', st.pcs[s].target) == 1
  {
    RewriteOwners(st, st', s);
    var pc := st.pcs[s];
    forall f: Frame | f != pc.target ensures Owners(st', f) == Owners(st, f) {
      assert f == pc.entry.frame || SameOwnersOf(st, st', f);
    }
  }

  lemma RewriteCounts(st: State, st': State, s: Space)
    requires PcsOk(st) && CountsMatch(st) && HeldAlone(st) && RewriteOk(st, s) && st' == Rewritten(st, s)
    ensures CountsMatch(st')
  {
    RewriteOwnerCounts(st, st', s);
    HeldApart(st, s);
  }

  lemma RewriteNoLeak(st: State, st': State, s: Space)
    requires PcsOk(st) && HeldAlone(st) && NoLeak(st) && RewriteOk(st, s) && st' == Rewritten(st, s)
    ensures NoLeak(st')
  {
    RewriteOwnerCounts(st, st', s);
    forall f | f in st'.used - st'.kernel && Owners(st', f) == 0
      ensures exists t :: t in st'.pcs && Holds(st'.pcs[t], f)
    {
      var t :| t in st.pcs && Holds(st.pcs[t], f);
      assert t in st'.pcs && Holds(st'.pcs[t], f);
    }
  }

  lemma RewriteHeld(st: State, st': State, s: Space)
    requires PcsOk(st) && HeldAlone(st) && RewriteOk(st, s) && st' == Rewritten(st, s)
    ensures HeldAlone(st')
  {
    RewriteOwners(st, st', s);
    var pc := st.pcs[s];
    assert Holds(pc, pc.target);
    forall t, f: Frame | t in st'.pcs && Holds(st'.pcs[t], f)
      ensures Owners(st', f) == 0 && f != pc.target && t != s
    {
      assert Holds(st.pcs[t], f);
      assert Owners(st, f) == 0;
      assert Mapped(st, f) == {};
      assert f != pc.entry.frame;
      assert SameOwnersOf(st, st', f);
    }
  }

  lemma RewriteRest(st: State, st': State, s: Space)
    requires PcsOk(st) && Shape(st) && HeldAlone(st) && WritersAlone(st) && RewriteOk(st, s) && st' == Rewritten(st, s)
    ensures Shape(st') && WritersAlone(st')
  {
    assert PcOk(st, s);
    RewriteOwners(st, st', s);
    var pc := st.pcs[s];
    assert Holds(pc, pc.target);
    forall t | t in st'.pcs ensures !Drops(st'.pcs[t], pc.target) {
      assert t !in InFlight(st', pc.target);
    }
  }

  lemma InvRewritten(st: State, s: Space)
    requires Inv(st) && RewriteOk(st, s)
    ensures Inv(Rewritten(st, s))
  {
    var st' := Rewritten(st, s);
    RewritePcs(st, st', s);
    RewriteCounts(st, st', s);
    RewriteNoLeak(st, st', s);
    RewriteHeld(st, st', s);
    RewriteRest(st, st', s);
  }

  // --- Taking an entry out ------------------------------------------------------------

  lemma UnmapOwners(st: State, st': State, s: Space, page: Page, after: After)
    requires UnmapOk(st, s, page, after) && st' == Unmapped(st, s, page, after)
    ensures var k := (s, page); var f := st.leaves[k].frame;
      && k in Mapped(st, f) && s !in InFlight(st, f)
      && Mapped(st', f) == Mapped(st, f) - {k} && InFlight(st', f) == InFlight(st, f) + {s}
      && forall g | g != f :: SameOwnersOf(st, st', g)
  {
    var k := (s, page);
    forall f ensures Mapped(st', f) == Mapped(st, f) - {k} {}
    forall g | g != st.leaves[k].frame ensures SameOwnersOf(st, st', g) {
      assert k !in Mapped(st, g);
    }
  }

  lemma UnmapPcs(st: State, st': State, s: Space, page: Page, after: After)
    requires PcsOk(st) && Shape(st) && UnmapOk(st, s, page, after) && st' == Unmapped(st, s, page, after)
    ensures PcsOk(st')
  {
    UnmapOwners(st, st', s, page, after);
    forall t, f | t in st.pcs && t != s && Settled(st.pcs[t], f) ensures SameOwnersOf(st, st', f) {
      assert PcOk(st, t);
    }
    PcsKept(st, st', s);
  }

  lemma UnmapCounts(st: State, st': State, s: Space, page: Page, after: After)
    requires CountsMatch(st) && HeldAlone(st) && NoLeak(st)
    requires UnmapOk(st, s, page, after) && st' == Unmapped(st, s, page, after)
    ensures CountsMatch(st') && HeldAlone(st') && NoLeak(st')
  {
    UnmapOwners(st, st', s, page, after);
    forall f: Frame ensures Owners(st', f) == Owners(st, f) {
      assert f == st.leaves[(s, page)].frame || SameOwnersOf(st, st', f);
    }
    QuietNoLeak(st, st', st'.used - st'.kernel);
  }

  lemma UnmapRest(st: State, st': State, s: Space, page: Page, after: After)
    requires Shape(st) && WritersAlone(st) && UnmapOk(st, s, page, after) && st' == Unmapped(st, s, page, after)
    ensures Shape(st') && WritersAlone(st')
  {
  }

  lemma InvUnmapped(st: State, s: Space, page: Page, after: After)
    requires Inv(st) && UnmapOk(st, s, page, after)
    ensures Inv(Unmapped(st, s, page, after))
  {
    var st' := Unmapped(st, s, page, after);
    UnmapPcs(st, st', s, page, after);
    UnmapCounts(st, st', s, page, after);
    UnmapRest(st, st', s, page, after);
  }

  // --- Release ------------------------------------------------------------------------

  lemma LowerOwners(st: State, st': State, s: Space)
    requires LowerOk(st, s) && st' == Lowered(st, s)
    ensures var f := st.pcs[s].frame;
      && Mapped(st', f) == Mapped(st, f) && s in InFlight(st, f) && InFlight(st', f) == InFlight(st, f) - {s}
      && forall g | g != f :: SameOwnersOf(st, st', g)
  {
    forall f ensures Mapped(st', f) == Mapped(st, f) && InFlight(st', f) == InFlight(st, f) - {s} {}
    forall g | g != st.pcs[s].frame ensures SameOwnersOf(st, st', g) {
      assert s !in InFlight(st, g);
    }
  }

  lemma LowerPcs(st: State, st': State, s: Space)
    requires PcsOk(st) && LowerOk(st, s) && st' == Lowered(st, s)
    ensures PcsOk(st')
  {
    LowerOwners(st, st', s);
    forall t, f | t in st.pcs && t != s && Settled(st.pcs[t], f) ensures SameOwnersOf(st, st', f) {
      assert PcOk(st, t);
    }
    PcsKept(st, st', s);
  }

  lemma LowerCounts(st: State, st': State, s: Space)
    requires CountsMatch(st) && NoLeak(st) && HeldAlone(st) && LowerOk(st, s) && st' == Lowered(st, s)
    ensures CountsMatch(st') && NoLeak(st') && HeldAlone(st')
  {
    LowerOwners(st, st', s);
    var f := st.pcs[s].frame;
    assert Owners(st, f) > 0 && Owners(st', f) == Owners(st, f) - 1;
    forall g: Frame | g != f ensures Owners(st', g) == Owners(st, g) {
      assert SameOwnersOf(st, st', g);
    }
    forall g | g in st'.used - st'.kernel && Owners(st', g) == 0
      ensures exists t :: t in st'.pcs && Holds(st'.pcs[t], g)
    {
      var t :| t in st.pcs && Holds(st.pcs[t], g);
      assert t in st'.pcs && Holds(st'.pcs[t], g);
    }
    forall t, g: Frame | t in st'.pcs && Holds(st'.pcs[t], g) ensures t in st.pcs && Holds(st.pcs[t], g) {}
  }

  lemma InvLowered(st: State, s: Space)
    requires Inv(st) && LowerOk(st, s)
    ensures Inv(Lowered(st, s))
  {
    var st' := Lowered(st, s);
    LowerPcs(st, st', s);
    LowerCounts(st, st', s);
    LowerRest(st, st', s);
  }

  lemma LowerRest(st: State, st': State, s: Space)
    requires Shape(st) && WritersAlone(st) && LowerOk(st, s) && st' == Lowered(st, s)
    ensures Shape(st') && WritersAlone(st')
  {
  }

  /** A frame about to be freed has no entry left anywhere, counted or not. */
  lemma LastReleaseUnmapped(st: State, s: Space)
    requires PcsOk(st) && FreeOk(st, s)
    ensures forall k | k in st.leaves :: st.leaves[k].frame != st.pcs[s].frame
    ensures forall t | t in st.pcs && Drops(st.pcs[t], st.pcs[s].frame) :: t == s
  {
    var f := st.pcs[s].frame;
    assert PcOk(st, s);
    forall k | k in st.leaves ensures st.leaves[k].frame != f {
      assert k !in Mapped(st, f);
      if st.leaves[k].frame == f {
        UncountedParent(st, k);
      }
    }
    forall t | t in st.pcs && Drops(st.pcs[t], f) ensures t == s {
      assert t in InFlight(st, f);
    }
  }

  lemma FreeOwners(st: State, st': State, s: Space)
    requires PcsOk(st) && FreeOk(st, s) && st' == Freed(st, s)
    ensures var f := st.pcs[s].frame;
      && Mapped(st, f) == {} && InFlight(st, f) == {s} && Mapped(st', f) == {} && InFlight(st', f) == {}
      && forall g | g != f :: SameOwnersOf(st, st', g)
  {
    assert PcOk(st, s);
    forall f ensures Mapped(st', f) == Mapped(st, f) && InFlight(st', f) == InFlight(st, f) - {s} {}
    forall g | g != st.pcs[s].frame ensures SameOwnersOf(st, st', g) {
      assert s !in InFlight(st, g);
    }
  }

  lemma FreePcs(st: State, st': State, s: Space)
    requires PcsOk(st) && FreeOk(st, s) && st' == Freed(st, s)
    ensures PcsOk(st')
  {
    FreeOwners(st, st', s);
    forall t, f | t in st.pcs && t != s && Settled(st.pcs[t], f) ensures SameOwnersOf(st, st', f) {
      assert PcOk(st, t);
    }
    PcsKept(st, st', s);
  }

  lemma FreeCounts(st: State, st': State, s: Space)
    requires CountsMatch(st) && NoLeak(st) && HeldAlone(st) && PcsOk(st) && FreeOk(st, s) && st' == Freed(st, s)
    ensures CountsMatch(st') && NoLeak(st') && HeldAlone(st')
  {
    assert PcOk(st, s);
    FreeOwners(st, st', s);
    var f := st.pcs[s].frame;
    assert Owners(st, f) == 1 && Owners(st', f) == 0;
    forall g: Frame | g != f ensures Owners(st', g) == Owners(st, g) {
      assert SameOwnersOf(st, st', g);
    }
    forall g | g in st'.used - st'.kernel && Owners(st', g) == 0
      ensures exists t :: t in st'.pcs && Holds(st'.pcs[t], g)
    {
      var t :| t in st.pcs && Holds(st.pcs[t], g);
      assert t in st'.pcs && Holds(st'.pcs[t], g);
    }
    forall t, g: Frame | t in st'.pcs && Holds(st'.pcs[t], g) ensures t in st.pcs && Holds(st.pcs[t], g) {}
  }

  lemma FreeRest(st: State, st': State, s: Space)
    requires PcsOk(st) && CountsMatch(st) && Shape(st) && WritersAlone(st) && FreeOk(st, s) && st' == Freed(st, s)
    ensures Shape(st') && WritersAlone(st')
  {
    assert PcOk(st, s);
    LastReleaseUnmapped(st, s);
    FreeOwners(st, st', s);
    assert Owners(st, st.pcs[s].frame) == 1;
  }

  lemma InvFreed(st: State, s: Space)
    requires Inv(st) && FreeOk(st, s)
    ensures Inv(Freed(st, s))
  {
    var st' := Freed(st, s);
    FreePcs(st, st', s);
    FreeCounts(st, st', s);
    FreeRest(st, st', s);
  }

  // --- Kernel frames --------------------------------------------------------------------

  lemma KernelRoles(st: State, st': State)
    requires PcsOk(st) && WritersAlone(st)
    requires st'.leaves == st.leaves && st'.pcs == st.pcs && st'.refs == st.refs && st'.mem == st.mem
    ensures forall f :: Owners(st', f) == Owners(st, f)
    ensures PcsOk(st') && WritersAlone(st')
  {
    SameOwners(st, st');
    forall t | t in st'.pcs ensures PcOk(st', t) {
      assert PcOk(st, t);
    }
  }

  /** Frames enter and leave kernel use without ever having been a data frame in between. */
  lemma KernelCounts(st: State, st': State)
    requires Shape(st) && CountsMatch(st) && HeldAlone(st) && NoLeak(st)
    requires st'.leaves == st.leaves && st'.pcs == st.pcs && st'.refs == st.refs && st'.mem == st.mem
    requires st'.used - st'.kernel == st.used - st.kernel
    requires forall f :: Owners(st', f) == Owners(st, f)
    ensures CountsMatch(st') && HeldAlone(st') && NoLeak(st')
  {
    QuietNoLeak(st, st', st'.used - st'.kernel);
  }

  lemma InvKernelTook(st: State, target: Frame)
    requires Inv(st) && IsFree(st, target)
    ensures Inv(KernelTook(st, target))
  {
    var st' := KernelTook(st, target);
    assert st'.used - st'.kernel == st.used - st.kernel;
    KernelRoles(st, st');
    KernelCounts(st, st');
  }

  lemma InvKernelGave(st: State, frame: Frame)
    requires Inv(st) && frame in st.kernel
    ensures Inv(KernelGave(st, frame))
  {
    var st' := KernelGave(st, frame);
    assert st'.used - st'.kernel == st.used - st.kernel;
    KernelRoles(st, st');
    KernelCounts(st, st');
  }
}
