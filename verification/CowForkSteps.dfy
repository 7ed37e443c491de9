/** Invariant proofs for the steps of fork and for the end of a teardown. */
module CowForkSteps {
  import opened CowProtocol
  import opened CowInvariant

  // --- fork begins ------------------------------------------------------------

  lemma BeginRoles(st: State, st': State, s: Space, child: Space)
    requires Shape(st) && PcsOk(st) && ForkBeginOk(st, s, child) && st' == ForkBegun(st, s, child)
    ensures SameRoles(st, st')
    ensures forall f :: SameOwnersOf(st, st', f)
  {
    forall k | k in st.leaves ensures Uncounted(st', k) == Uncounted(st, k) {
      assert Has(st, k.0) && PcOk(st, k.0);
    }
    SameOwners(st, st');
  }

  lemma BeginPcs(st: State, st': State, s: Space, child: Space)
    requires Shape(st) && PcsOk(st) && ForkBeginOk(st, s, child) && st' == ForkBegun(st, s, child)
    ensures PcsOk(st')
  {
    BeginRoles(st, st', s, child);
    forall t | t in st'.pcs ensures PcOk(st', t) {
      if t == s {
        BeginForkOk(st, st', s, child);
      } else if t != child {
        BeginOther(st, st', s, child, t);
      }
    }
  }

  lemma BeginForkOk(st: State, st': State, s: Space, child: Space)
    requires Shape(st) && ForkBeginOk(st, s, child) && st' == ForkBegun(st, s, child)
    ensures PcOk(st', s)
  {
    forall page ensures page in PagesOf(st, s) <==> (s, page) in st.leaves {
      if (s, page) in st.leaves {
        var k := (s, page);
        assert k in st.leaves && k.0 == s && k.1 == page;
      }
    }
    forall k | k in st.leaves ensures k.0 != child {}
  }

  lemma BeginOther(st: State, st': State, s: Space, child: Space, t: Space)
    requires ForkBeginOk(st, s, child) && st' == ForkBegun(st, s, child)
    requires t != s && t != child && Has(st, t) && PcOk(st, t)
    requires forall f :: SameOwnersOf(st, st', f)
    ensures PcOk(st', t)
  {
    if st.pcs[t].Sole? {
      assert SameOwnersOf(st, st', st.pcs[t].entry.frame);
    }
    if st.pcs[t].Seen? {
      assert SameOwnersOf(st, st', st.pcs[t].frame);
    }
  }

  lemma InvForkBegun(st: State, s: Space, child: Space)
    requires Inv(st) && ForkBeginOk(st, s, child)
    ensures Inv(ForkBegun(st, s, child))
  {
    var st' := ForkBegun(st, s, child);
    BeginRoles(st, st', s, child);
    BeginPcs(st, st', s, child);
    InvQuiet(st, st');
  }

  // --- fork writes both entries of one page --------------------------------------

  lemma PageRoles(st: State, st': State, s: Space, page: Page)
    requires PcsOk(st) && ForkPageOk(st, s, page) && st' == ForkedPage(st, s, page)
    ensures var c := st.pcs[s].child;
      && c != s && Has(st, c) && st.pcs[c] == Embryo(s) && (c, page) !in st.leaves && Uncounted(st', (c, page))
      && forall k | k in st.leaves :: !(k == (c, page)) && Uncounted(st', k) == Uncounted(st, k)
  {
    assert PcOk(st, s);
    var c := st.pcs[s].child;
    forall k | k in st.leaves ensures Uncounted(st', k) == Uncounted(st, k) {
      assert k != (c, page);
    }
  }

  lemma PageOwners(st: State, st': State, s: Space, page: Page)
    requires PcsOk(st) && ForkPageOk(st, s, page) && st' == ForkedPage(st, s, page)
    ensures forall f :: SameOwnersOf(st, st', f)
  {
    PageRoles(st, st', s, page);
    forall f ensures SameOwnersOf(st, st', f) {
      assert Mapped(st', f) == Mapped(st, f);
      assert InFlight(st', f) == InFlight(st, f);
    }
  }

  lemma PageOther(st: State, st': State, s: Space, page: Page, t: Space)
    requires ForkPageOk(st, s, page) && st' == ForkedPage(st, s, page)
    requires PcOk(st, s) && t != s && Has(st, t) && PcOk(st, t)
    requires forall f :: SameOwnersOf(st, st', f)
    ensures PcOk(st', t)
  {
    if st.pcs[t].Sole? {
      assert SameOwnersOf(st, st', st.pcs[t].entry.frame);
    }
    if st.pcs[t].Seen? {
      assert SameOwnersOf(st, st', st.pcs[t].frame);
    }
  }

  lemma PageSelf(st: State, st': State, s: Space, page: Page)
    requires Shape(st) && ForkPageOk(st, s, page) && st' == ForkedPage(st, s, page) && PcOk(st, s)
    ensures PcOk(st', s)
  {
  }

  lemma PagePcs(st: State, st': State, s: Space, page: Page)
    requires Shape(st) && PcsOk(st) && ForkPageOk(st, s, page) && st' == ForkedPage(st, s, page)
    ensures PcsOk(st')
  {
    assert PcOk(st, s);
    PageOwners(st, st', s, page);
    PageSelf(st, st', s, page);
    forall t | t in st'.pcs && t != s ensures PcOk(st', t) {
      PageOther(st, st', s, page, t);
    }
  }

  lemma PageShape(st: State, st': State, s: Space, page: Page)
    requires Shape(st) && ForkPageOk(st, s, page) && PcOk(st, s) && st' == ForkedPage(st, s, page)
    ensures Shape(st')
  {
  }

  lemma PageWriters(st: State, st': State, s: Space, page: Page)
    requires ForkPageOk(st, s, page) && Shape(st) && WritersAlone(st) && PcOk(st, s)
    requires st' == ForkedPage(st, s, page)
    ensures WritersAlone(st')
  {
    var c := st.pcs[s].child;
    forall k | k in st'.leaves && Writer(st'.leaves[k])
      ensures k in st.leaves && st.leaves[k] == st'.leaves[k] && k != (s, page) && k != (c, page)
    {}
  }

  lemma PageCounts(st: State, st': State, s: Space, page: Page)
    requires CountsMatch(st) && HeldAlone(st) && NoLeak(st)
    requires PcsOk(st) && ForkPageOk(st, s, page) && st' == ForkedPage(st, s, page)
    ensures CountsMatch(st') && HeldAlone(st') && NoLeak(st')
  {
    PageOwners(st, st', s, page);
    forall f: Frame ensures Owners(st', f) == Owners(st, f) {
      assert SameOwnersOf(st, st', f);
    }
    QuietNoLeak(st, st', st.used - st.kernel);
    forall t, f: Frame | t in st'.pcs && Holds(st'.pcs[t], f) ensures PrivateTo(st', t, f) {
      assert PrivateTo(st, t, f);
    }
  }

  lemma InvForkedPage(st: State, s: Space, page: Page)
    requires Inv(st) && ForkPageOk(st, s, page)
    ensures Inv(ForkedPage(st, s, page))
  {
    var st' := ForkedPage(st, s, page);
    PagePcs(st, st', s, page);
    assert PcOk(st, s);
    PageShape(st, st', s, page);
    PageWriters(st, st', s, page);
    PageCounts(st, st', s, page);
  }

  // --- fork raises the count -------------------------------------------------------

  lemma CountOwners(st: State, st': State, s: Space)
    requires PcsOk(st) && ForkCountOk(st, s) && st' == ForkCounted(st, s)
    ensures var pc := st.pcs[s]; var f := st.leaves[(s, pc.page)].frame; var k := (pc.child, pc.page);
      && (s, pc.page) in Mapped(st, f) && k !in Mapped(st, f)
      && Mapped(st', f) == Mapped(st, f) + {k} && InFlight(st', f) == InFlight(st, f)
      && forall g | g != f :: SameOwnersOf(st, st', g)
  {
    assert PcOk(st, s);
    var k := (st.pcs[s].child, st.pcs[s].page);
    assert Uncounted(st, k) && !Uncounted(st', k);
    forall l | l in st.leaves && l != k ensures Uncounted(st', l) == Uncounted(st, l) {}
    forall g ensures InFlight(st', g) == InFlight(st, g) {}
    forall g | g != st.leaves[k].frame ensures SameOwnersOf(st, st', g) {
      assert Mapped(st', g) == Mapped(st, g);
    }
  }

  lemma CountOther(st: State, st': State, s: Space, t: Space)
    requires ForkCountOk(st, s) && st' == ForkCounted(st, s)
    requires PcOk(st, s) && t != s && Has(st, t) && PcOk(st, t)
    requires forall f | Settled(st.pcs[t], f) :: SameOwnersOf(st, st', f)
    ensures PcOk(st', t)
  {
    if st.pcs[t].Sole? {
      assert Settled(st.pcs[t], st.pcs[t].entry.frame);
    }
    if st.pcs[t].Seen? && st.pcs[t].count == 0 {
      assert Settled(st.pcs[t], st.pcs[t].frame);
    }
  }

  lemma CountPcs(st: State, st': State, s: Space)
    requires PcsOk(st) && ForkCountOk(st, s) && st' == ForkCounted(st, s)
    ensures PcsOk(st')
  {
    assert PcOk(st, s);
    CountOwners(st, st', s);
    forall t | t in st'.pcs && t != s ensures PcOk(st', t) {
      forall f | Settled(st.pcs[t], f) ensures SameOwnersOf(st, st', f) {
        assert PcOk(st, t);
      }
      CountOther(st, st', s, t);
    }
  }

  lemma CountCounts(st: State, st': State, s: Space)
    requires CountsMatch(st) && HeldAlone(st) && PcsOk(st) && ForkCountOk(st, s) && st' == ForkCounted(st, s)
    ensures CountsMatch(st') && HeldAlone(st')
  {
    CountOwners(st, st', s);
    var f := st.leaves[(s, st.pcs[s].page)].frame;
    assert Owners(st, f) > 0 && Owners(st', f) == Owners(st, f) + 1;
    forall g: Frame | g != f ensures Owners(st', g) == Owners(st, g) {
      assert SameOwnersOf(st, st', g);
    }
    forall t, g: Frame | t in st'.pcs && Holds(st'.pcs[t], g) ensures PrivateTo(st', t, g) {
      assert PrivateTo(st, t, g);
    }
  }

  lemma CountNoLeak(st: State, st': State, s: Space)
    requires NoLeak(st) && PcsOk(st) && ForkCountOk(st, s) && st' == ForkCounted(st, s)
    ensures NoLeak(st')
  {
    CountOwners(st, st', s);
    forall g | g in st'.used - st'.kernel && Owners(st', g) == 0
      ensures exists t :: t in st'.pcs && Holds(st'.pcs[t], g)
    {
      assert g != st.leaves[(s, st.pcs[s].page)].frame;
      assert SameOwnersOf(st, st', g);
      var t :| t in st.pcs && Holds(st.pcs[t], g);
      assert t in st'.pcs && Holds(st'.pcs[t], g);
    }
  }

  lemma CountRest(st: State, st': State, s: Space)
    requires Shape(st) && WritersAlone(st) && ForkCountOk(st, s) && st' == ForkCounted(st, s)
    ensures Shape(st') && WritersAlone(st')
  {
  }

  lemma InvForkCounted(st: State, s: Space)
    requires Inv(st) && ForkCountOk(st, s)
    ensures Inv(ForkCounted(st, s))
  {
    var st' := ForkCounted(st, s);
    CountPcs(st, st', s);
    CountCounts(st, st', s);
    CountNoLeak(st, st', s);
    CountRest(st, st', s);
  }

  // --- fork ends, well or badly -----------------------------------------------------

  /** Parent and child leave the fork together; every child entry has been counted. */
  lemma CloseRoles(st: State, st': State, s: Space, last: Pc)
    requires PcsOk(st) && Has(st, s) && st.pcs[s].Forking? && (last.Idle? || last.Phantom?)
    requires st' == st.(pcs := st.pcs[s := Idle][st.pcs[s].child := last])
    ensures SameRoles(st, st') && Has(st, st.pcs[s].child) && st.pcs[s].child != s
    ensures forall f :: SameOwnersOf(st, st', f)
  {
    assert PcOk(st, s);
    var c := st.pcs[s].child;
    forall k | k in st.leaves ensures Uncounted(st', k) == Uncounted(st, k) {
      if k.0 != c && PcOf(st, k.0).Embryo? {
        assert PcOk(st, k.0);
      }
    }
    SameOwners(st, st');
  }

  lemma CloseOther(st: State, st': State, s: Space, last: Pc, t: Space)
    requires Has(st, s) && st.pcs[s].Forking? && PcOk(st, s) && (last.Idle? || last.Phantom?)
    requires st' == st.(pcs := st.pcs[s := Idle][st.pcs[s].child := last])
    requires t != s && t != st.pcs[s].child && Has(st, t) && PcOk(st, t)
    requires forall f :: SameOwnersOf(st, st', f)
    ensures PcOk(st', t)
  {
    if st.pcs[t].Sole? {
      assert SameOwnersOf(st, st', st.pcs[t].entry.frame);
    }
    if st.pcs[t].Seen? {
      assert SameOwnersOf(st, st', st.pcs[t].frame);
    }
  }

  lemma ClosePcs(st: State, st': State, s: Space, last: Pc)
    requires PcsOk(st) && Has(st, s) && st.pcs[s].Forking? && (last.Idle? || last.Phantom?)
    requires st' == st.(pcs := st.pcs[s := Idle][st.pcs[s].child := last])
    ensures PcsOk(st')
  {
    assert PcOk(st, s);
    CloseRoles(st, st', s, last);
    forall t | t in st'.pcs && t != s && t != st.pcs[s].child ensures PcOk(st', t) {
      CloseOther(st, st', s, last, t);
    }
  }

  lemma InvForkClosed(st: State, st': State, s: Space, last: Pc)
    requires Inv(st) && Has(st, s) && st.pcs[s].Forking? && (last.Idle? || last.Phantom?)
    requires st' == st.(pcs := st.pcs[s := Idle][st.pcs[s].child := last])
    ensures Inv(st')
  {
    CloseRoles(st, st', s, last);
    ClosePcs(st, st', s, last);
    InvQuiet(st, st');
  }

  // --- the end of a teardown ----------------------------------------------------------

  lemma TearPcs(st: State, st': State, s: Space)
    requires PcsOk(st) && TearEndOk(st, s) && st' == TornDown(st, s)
    ensures PcsOk(st') && SameRoles(st, st')
  {
    SameOwners(st, st');
    forall t | t in st'.pcs ensures PcOk(st', t) {
      assert PcOk(st, t);
    }
  }

  lemma InvTornDown(st: State, s: Space)
    requires Inv(st) && TearEndOk(st, s)
    ensures Inv(TornDown(st, s))
  {
    var st' := TornDown(st, s);
    TearPcs(st, st', s);
    InvQuiet(st, st');
  }
}
