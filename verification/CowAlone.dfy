/** An operation of the memory manager that runs alone is a run of the protocol: what `Vmm` computes on real tables is
    what the interleaved steps of `CowProtocol` compute on the map the tables implement. */
module CowAlone {
  import opened CowProtocol
  import opened CowInvariant
  import opened CowRefinement
  import P = PageTableSpec
  import F = ForkSpec
  import T = TeardownSpec
  import V = Vmm

  // -------------------------------------------------------------------------
  // Tables and protocol states
  // -------------------------------------------------------------------------

  function LeafOf(e: P.Entry): Leaf {
    Leaf(e.frame, e.writable, e.user, e.cow)
  }

  /** The entries of the protocol state are those of the tables. */
  ghost predicate Implements(st: State, leaves: map<P.Node, P.Entry>) {
    && (forall m: P.Node :: (m.root, m.path) in st.leaves <==> m in leaves)
    && (forall m: P.Node | m in leaves :: (m.root, m.path) in st.leaves && st.leaves[(m.root, m.path)] == LeafOf(leaves[m]))
  }

  /** No operation is under way. */
  ghost predicate Quiet(st: State) {
    forall s | s in st.pcs :: st.pcs[s].Idle? || st.pcs[s].Phantom?
  }

  lemma RunsOn(st: State, a: seq<Step>, b: seq<Step>)
    requires Runs(st, a) && Runs(Exec(st, a), b)
    ensures Runs(st, a + b) && Exec(st, a + b) == Exec(Exec(st, a), b)
    decreases |a|
  {
    if a == [] {
      assert a + b == b;
    } else {
      assert (a + b)[1..] == a[1..] + b;
      RunsOn(Apply(st, a[0]), a[1..], b);
    }
  }

  lemma OneStep(st: State, step: Step)
    requires Enabled(st, step)
    ensures Runs(st, [step]) && Exec(st, [step]) == Apply(st, step)
  {
    assert [step][1..] == [];
  }

  /** Between operations the counts are those the page tables require. */
  lemma QuietIsCounted(st: State, leaves: map<P.Node, P.Entry>)
    requires CountsMatch(st) && Quiet(st) && Implements(st, leaves)
    ensures P.Counted(leaves, st.refs)
  {
    hide Implements, CountsMatch, Quiet;
    forall f: nat | f < |st.refs|
      ensures if P.OwnersOf(leaves, f) == {} then st.refs[f] == 0 else st.refs[f] + 1 == |P.OwnersOf(leaves, f)|
    {
      QuietOwners(st, leaves, f);
      assert st.refs[f] == (if Owners(st, f) > 0 then Owners(st, f) - 1 else 0) by {
        CountOf(st, f);
      }
    }
  }

  lemma CountOf(st: State, f: Frame)
    requires CountsMatch(st) && f < |st.refs|
    ensures if Owners(st, f) > 0 then st.refs[f] + 1 == Owners(st, f) else st.refs[f] == 0
  {
    hide Owners;
  }

  lemma QuietOwners(st: State, leaves: map<P.Node, P.Entry>, f: Frame)
    requires Quiet(st) && Implements(st, leaves)
    ensures Owners(st, f) == |P.OwnersOf(leaves, f)|
  {
    assert InFlight(st, f) == {};
    var keys := set m | m in P.OwnersOf(leaves, f) :: (m.root, m.path);
    forall k | k in Mapped(st, f) ensures k in keys {
      var m := P.Node(k.0, k.1);
      assert (m.root, m.path) in st.leaves;
      assert m in P.OwnersOf(leaves, f);
    }
    forall k | k in keys ensures k in Mapped(st, f) {
      var m :| m in P.OwnersOf(leaves, f) && k == (m.root, m.path);
      assert (m.root, m.path) in st.leaves && !PcOf(st, k.0).Embryo?;
    }
    assert keys == Mapped(st, f);
    SameSize(P.OwnersOf(leaves, f), keys);
  }

  lemma {:induction false} SameSize(nodes: set<P.Node>, keys: set<Key>)
    requires keys == set m | m in nodes :: (m.root, m.path)
    ensures |keys| == |nodes|
    decreases |nodes|
  {
    if nodes != {} {
      var n :| n in nodes;
      var rest := set m | m in nodes - {n} :: (m.root, m.path);
      forall k | k in keys - {(n.root, n.path)} ensures k in rest {
        var m :| m in nodes && k == (m.root, m.path);
        assert m in nodes - {n};
      }
      forall k | k in rest ensures k in keys && k != (n.root, n.path) {
        var m :| m in nodes - {n} && k == (m.root, m.path);
        assert m != n;
      }
      assert rest == keys - {(n.root, n.path)};
      SameSize(nodes - {n}, rest);
    }
  }

  // -------------------------------------------------------------------------
  // fork
  // -------------------------------------------------------------------------

  /** After the pages of `todo` were shared; those of `left` are still to be. */
  ghost predicate SharedPages(st: State, st': State, s: Space, child: Space, todo: set<Page>, left: set<Page>) {
    && st'.mem == st.mem && st'.used == st.used && st'.kernel == st.kernel
    && st'.pcs == st.pcs[s := Forking(child, left)]
    && (forall k: Key :: k in st'.leaves <==> k in st.leaves || (k.0 == child && k.1 in todo))
    && (forall k: Key | k in st.leaves && !(k.1 in todo && (k.0 == s || k.0 == child)) :: st'.leaves[k] == st.leaves[k])
    && (forall page | page in todo :: (s, page) in st.leaves &&
          st'.leaves[(s, page)] == Downgrade(st.leaves[(s, page)]) && st'.leaves[(child, page)] == Downgrade(st.leaves[(s, page)]))
  }

  ghost function Forked(st: State, s: Space, page: Page): State
    requires ForkPageOk(st, s, page)
  {
    var e, child := Downgrade(st.leaves[(s, page)]), st.pcs[s].child;
    st.(leaves := st.leaves[(s, page) := e][(child, page) := e], pcs := st.pcs[s := Forking(child, st.pcs[s].todo - {page})])
  }

  lemma InvParts(st: State)
    requires Inv(st)
    ensures Shape(st) && PcsOk(st) && CountsMatch(st) && HeldAlone(st)
  {
  }

  lemma CountNext(st: State, s: Space, page: Page)
    requires ForkPageOk(st, s, page) && s != st.pcs[s].child && Shape(ForkedPage(st, s, page))
    ensures ForkCountOk(ForkedPage(st, s, page), s)
    ensures var st2 := ForkCounted(ForkedPage(st, s, page), s); st2 == Forked(st, s, page).(refs := st2.refs)
  {
    var st1 := ForkedPage(st, s, page);
    assert (s, page) in st1.leaves;
    assert ForkCounted(st1, s).pcs == Forked(st, s, page).pcs;
  }

  /** One page: both entries, then the count. */
  lemma ForkOnePage(st: State, s: Space, page: Page) returns (st': State)
    requires Inv(st) && ForkPageOk(st, s, page) && s != st.pcs[s].child
    ensures Inv(st') && st' == Forked(st, s, page).(refs := st'.refs)
    ensures Runs(st, [ForkPage(s, page), ForkCount(s)]) && Exec(st, [ForkPage(s, page), ForkCount(s)]) == st'
  {
    hide Inv, Shape, Runs, Exec, ForkCountOk, Forked, ForkPageOk;
    var st1 := ForkedPage(st, s, page);
    StepKeepsInv(st, ForkPage(s, page));
    InvParts(st1);
    CountNext(st, s, page);
    st' := ForkCounted(st1, s);
    StepKeepsInv(st1, ForkCount(s));
    OneStep(st, ForkPage(s, page));
    OneStep(st1, ForkCount(s));
    RunsOn(st, [ForkPage(s, page)], [ForkCount(s)]);
    assert [ForkPage(s, page)] + [ForkCount(s)] == [ForkPage(s, page), ForkCount(s)];
  }

  lemma SharedMore(st: State, st2: State, st3: State, s: Space, child: Space, pages: set<Page>, left: set<Page>, page: Page)
    requires Has(st, s) && st.pcs[s].Forking? && st.pcs[s].child == child && page in pages && s != child && ForkPageOk(st, s, page)
    requires st2 == Forked(st, s, page).(refs := st2.refs) && SharedPages(st2, st3, s, child, pages - {page}, left)
    ensures SharedPages(st, st3, s, child, pages, left)
  {
    hide Downgrade;
    assert st3.pcs == st.pcs[s := Forking(child, left)];
  }

  lemma ForkReady(st: State, s: Space, page: Page)
    requires Inv(st) && Has(st, s) && st.pcs[s].Forking? && page in st.pcs[s].todo
    ensures ForkPageOk(st, s, page)
  {
    assert PcOk(st, s);
  }

  lemma ForkedPc(st: State, st2: State, s: Space, page: Page)
    requires ForkPageOk(st, s, page) && st2 == Forked(st, s, page).(refs := st2.refs) && s != st.pcs[s].child
    ensures Has(st2, s) && st2.pcs[s] == Forking(st.pcs[s].child, st.pcs[s].todo - {page})
  {
  }

  lemma SharedNone(st: State, s: Space)
    requires Has(st, s) && st.pcs[s].Forking?
    ensures SharedPages(st, st, s, st.pcs[s].child, {}, st.pcs[s].todo)
  {
    assert st.pcs[s := Forking(st.pcs[s].child, st.pcs[s].todo)] == st.pcs;
  }

  lemma ForkFirst(st: State, s: Space, child: Space, pages: set<Page>, left: set<Page>, page: Page) returns (st2: State)
    requires Inv(st) && Has(st, s) && st.pcs[s] == Forking(child, pages + left) && pages !! left && s != child && page in pages
    ensures ForkPageOk(st, s, page) && st2 == Forked(st, s, page).(refs := st2.refs)
    ensures Runs(st, [ForkPage(s, page), ForkCount(s)]) && Exec(st, [ForkPage(s, page), ForkCount(s)]) == st2
    ensures Inv(st2) && Has(st2, s) && st2.pcs[s] == Forking(child, (pages - {page}) + left) && (pages - {page}) !! left
  {
    hide Inv, ForkPageOk, Forked, Runs, Exec;
    ForkReady(st, s, page);
    st2 := ForkOnePage(st, s, page);
    ForkedPc(st, st2, s, page);
    assert pages + left - {page} == (pages - {page}) + left;
  }

  /** Any of the pages still to be shared, one after the other. */
  lemma {:induction false} ForkPages(st: State, s: Space, child: Space, pages: set<Page>, left: set<Page>)
      returns (steps: seq<Step>)
    requires Inv(st) && Has(st, s) && st.pcs[s] == Forking(child, pages + left) && pages !! left && s != child
    ensures Runs(st, steps) && Inv(Exec(st, steps)) && SharedPages(st, Exec(st, steps), s, child, pages, left)
    decreases |pages|
  {
    if pages == {} {
      assert pages + left == left;
      SharedNone(st, s);
      RunNone(st);
      steps := [];
    } else {
      hide Inv, SharedPages, ForkPageOk, Forked, Runs, Exec;
      var page :| page in pages;
      var st2 := ForkFirst(st, s, child, pages, left, page);
      var rest := ForkPages(st2, s, child, pages - {page}, left);
      SharedMore(st, st2, Exec(st2, rest), s, child, pages, left, page);
      RunsOn(st, [ForkPage(s, page), ForkCount(s)], rest);
      steps := [ForkPage(s, page), ForkCount(s)] + rest;
    }
  }

  lemma RunNone(st: State)
    ensures Runs(st, []) && Exec(st, []) == st
  {
  }

  /** fork_cow alone: from the tables `was` to the tables `now` the protocol has a run, and it is fork's. */
  lemma {:induction false} ForkIsRun(st: State, was: map<P.Node, P.Entry>, now: map<P.Node, P.Entry>, s: Space, child: Space)
      returns (steps: seq<Step>)
    requires Inv(st) && Quiet(st) && Implements(st, was) && Has(st, s) && st.pcs[s].Idle? && !Has(st, child)
    requires F.IsShared(was, now, s, child, [])
    ensures Runs(st, steps) && Inv(Exec(st, steps)) && Quiet(Exec(st, steps)) && Implements(Exec(st, steps), now)
    ensures Exec(st, steps).mem == st.mem && Exec(st, steps).used == st.used && Exec(st, steps).pcs == st.pcs[child := Idle]
    ensures |steps| >= 2 && steps[0] == ForkBegin(s, child) && steps[|steps| - 1] == ForkEnd(s, child)
  {
    InvParts(st);
    hide Inv, Runs, Exec, Implements, F.IsShared, Shape;
    var first, last := ForkBegin(s, child), ForkEnd(s, child);
    var st1 := ForkBegun(st, s, child);
    StepKeepsInv(st, first);
    OneStep(st, first);
    assert PagesOf(st, s) + {} == PagesOf(st, s);
    var pages := ForkPages(st1, s, child, PagesOf(st, s), {});
    var st2 := Exec(st1, pages);
    SharedImplements(st, st1, st2, was, now, s, child);
    EndsFork(st, st2, s, child);
    hide SharedPages, Quiet;
    StepKeepsInv(st2, last);
    OneStep(st2, last);
    RunsOn(st, [first], pages);
    RunsOn(st, [first] + pages, [last]);
    steps := [first] + pages + [last];
    SameEntries(st2, ForkEnded(st2, s, child), now);
  }

  lemma EndsFork(st: State, st2: State, s: Space, child: Space)
    requires ForkBeginOk(st, s, child) && Quiet(st) && SharedPages(ForkBegun(st, s, child), st2, s, child, PagesOf(st, s), {})
    ensures ForkEndOk(st2, s, child) && Quiet(ForkEnded(st2, s, child))
    ensures var st3 := ForkEnded(st2, s, child); st3.mem == st.mem && st3.used == st.used && st3.pcs == st.pcs[child := Idle]
  {
    assert st2.pcs[s] == Forking(child, {});
    assert ForkEnded(st2, s, child).pcs == st.pcs[child := Idle];
  }

  lemma SameEntries(st: State, st': State, leaves: map<P.Node, P.Entry>)
    requires Implements(st, leaves) && st'.leaves == st.leaves
    ensures Implements(st', leaves)
  {
  }

  lemma SharedImplements(st: State, st1: State, st2: State, was: map<P.Node, P.Entry>, now: map<P.Node, P.Entry>,
                         s: Space, child: Space)
    requires Shape(st) && Implements(st, was) && !Has(st, child) && s != child && st1.leaves == st.leaves
    requires SharedPages(st1, st2, s, child, PagesOf(st, s), {}) && F.IsShared(was, now, s, child, [])
    ensures Implements(st2, now)
  {
    hide Implements, SharedPages, F.IsShared, Shape;
    forall m: P.Node
      ensures (m.root, m.path) in st2.leaves <==> m in now
      ensures m in now ==> st2.leaves[(m.root, m.path)] == LeafOf(now[m])
    {
      SharedNode(st, st1, st2, was, now, s, child, m);
    }
    ImplementsIf(st2, now);
  }

  lemma ImplementsIf(st: State, leaves: map<P.Node, P.Entry>)
    requires forall m: P.Node :: (m.root, m.path) in st.leaves <==> m in leaves
    requires forall m: P.Node | m in leaves :: st.leaves[(m.root, m.path)] == LeafOf(leaves[m])
    ensures Implements(st, leaves)
  {
  }

  lemma SharedNode(st: State, st1: State, st2: State, was: map<P.Node, P.Entry>, now: map<P.Node, P.Entry>,
                   s: Space, child: Space, m: P.Node)
    requires Shape(st) && Implements(st, was) && !Has(st, child) && s != child && st1.leaves == st.leaves
    requires SharedPages(st1, st2, s, child, PagesOf(st, s), {}) && F.IsShared(was, now, s, child, [])
    ensures (m.root, m.path) in st2.leaves <==> m in now
    ensures m in now ==> st2.leaves[(m.root, m.path)] == LeafOf(now[m])
  {
    var k, p := (m.root, m.path), P.Node(s, m.path);
    assert F.Get(now, m) == if m.root == s || m.root == child then F.Downgraded(F.Get(was, p)) else F.Get(was, m);
    assert (p.root, p.path) in st.leaves <==> p in was;
    assert (m.root, m.path) in st.leaves <==> m in was;
    assert m.path in PagesOf(st, s) <==> (s, m.path) in st.leaves;
  }

  /** The pages a fork that failed had shared. */
  ghost function Given(now: map<P.Node, P.Entry>, child: Space): set<Page> {
    set m | m in now && m.root == child :: m.path
  }

  /** A fork_cow that ran out of frames is a run too: the pages the child has are the pages the parent shares. */
  lemma {:induction false} FailedForkIsRun(st: State, was: map<P.Node, P.Entry>, now: map<P.Node, P.Entry>,
                                           s: Space, child: Space) returns (steps: seq<Step>)
    requires Inv(st) && Quiet(st) && Implements(st, was) && Has(st, s) && st.pcs[s].Idle? && !Has(st, child)
    requires F.IsPartlyShared(was, now, s, child, [])
    ensures Runs(st, steps) && Inv(Exec(st, steps)) && Quiet(Exec(st, steps)) && Implements(Exec(st, steps), now)
    ensures Exec(st, steps).mem == st.mem && Exec(st, steps).used == st.used && Exec(st, steps).pcs == st.pcs[child := Phantom]
    ensures |steps| >= 2 && steps[0] == ForkBegin(s, child) && steps[|steps| - 1] == ForkFail(s)
  {
    InvParts(st);
    hide Inv, Runs, Exec, Implements, F.IsPartlyShared, Shape;
    var first, last := ForkBegin(s, child), ForkFail(s);
    var st1 := ForkBegun(st, s, child);
    StepKeepsInv(st, first);
    OneStep(st, first);
    GivenIsMapped(st, was, now, s, child);
    var left := PagesOf(st, s) - Given(now, child);
    assert Given(now, child) + left == PagesOf(st, s);
    var pages := ForkPages(st1, s, child, Given(now, child), left);
    var st2 := Exec(st1, pages);
    PartlyImplements(st, st1, st2, was, now, s, child, left);
    FailsFork(st, st2, s, child, Given(now, child), left);
    hide SharedPages, Quiet;
    StepKeepsInv(st2, last);
    OneStep(st2, last);
    RunsOn(st, [first], pages);
    RunsOn(st, [first] + pages, [last]);
    steps := [first] + pages + [last];
    SameEntries(st2, ForkFailed(st2, s), now);
  }

  lemma FailsFork(st: State, st2: State, s: Space, child: Space, pages: set<Page>, left: set<Page>)
    requires ForkBeginOk(st, s, child) && Quiet(st) && SharedPages(ForkBegun(st, s, child), st2, s, child, pages, left)
    ensures ForkFailOk(st2, s) && Quiet(ForkFailed(st2, s))
    ensures var st3 := ForkFailed(st2, s); st3.mem == st.mem && st3.used == st.used && st3.pcs == st.pcs[child := Phantom]
  {
    assert st2.pcs[s] == Forking(child, left);
    assert ForkFailed(st2, s).pcs == st.pcs[child := Phantom];
  }

  lemma GivenIsMapped(st: State, was: map<P.Node, P.Entry>, now: map<P.Node, P.Entry>, s: Space, child: Space)
    requires Implements(st, was) && F.IsPartlyShared(was, now, s, child, [])
    ensures Given(now, child) <= PagesOf(st, s)
  {
    forall page | page in Given(now, child) ensures page in PagesOf(st, s) {
      var m :| m in now && m.root == child && m.path == page;
      assert F.BothOrNeither(was, now, s, child, page) && m == P.Node(child, page);
      ImplementsAt(st, was, s, page);
      assert P.Node(s, page) in was;
    }
  }

  lemma PartlyImplements(st: State, st1: State, st2: State, was: map<P.Node, P.Entry>, now: map<P.Node, P.Entry>,
                         s: Space, child: Space, left: set<Page>)
    requires Shape(st) && Implements(st, was) && !Has(st, child) && s != child && st1.leaves == st.leaves
    requires SharedPages(st1, st2, s, child, Given(now, child), left) && F.IsPartlyShared(was, now, s, child, [])
    ensures Implements(st2, now)
  {
    hide Implements, SharedPages, F.IsPartlyShared, Shape;
    forall m: P.Node
      ensures (m.root, m.path) in st2.leaves <==> m in now
      ensures m in now ==> st2.leaves[(m.root, m.path)] == LeafOf(now[m])
    {
      PartlyNode(st, st1, st2, was, now, s, child, left, m);
    }
    ImplementsIf(st2, now);
  }

  lemma PartlyNode(st: State, st1: State, st2: State, was: map<P.Node, P.Entry>, now: map<P.Node, P.Entry>,
                   s: Space, child: Space, left: set<Page>, m: P.Node)
    requires Shape(st) && Implements(st, was) && !Has(st, child) && s != child && st1.leaves == st.leaves
    requires SharedPages(st1, st2, s, child, Given(now, child), left) && F.IsPartlyShared(was, now, s, child, [])
    ensures (m.root, m.path) in st2.leaves <==> m in now
    ensures m in now ==> st2.leaves[(m.root, m.path)] == LeafOf(now[m])
  {
    var page, c := m.path, P.Node(child, m.path);
    assert F.BothOrNeither(was, now, s, child, page);
    ImplementsAt(st, was, s, page);
    ImplementsAt(st, was, m.root, page);
    assert page in Given(now, child) <==> c in now by {
      if c in now {
        assert c.root == child && c.path == page;
      }
    }
    if m.root != s && m.root != child {
      assert F.Get(now, m) == F.Get(was, m);
    }
  }

  // -------------------------------------------------------------------------
  // A copy-on-write fault
  // -------------------------------------------------------------------------

  /** The entries after `page` of `s` got entry `e`. */
  lemma Repointed(st: State, st': State, was: map<P.Node, P.Entry>, now: map<P.Node, P.Entry>, s: Space, page: Page)
    requires Implements(st, was) && P.Node(s, page) in was && P.Node(s, page) in now
    requires now == was[P.Node(s, page) := now[P.Node(s, page)]]
    requires st'.leaves == st.leaves[(s, page) := LeafOf(now[P.Node(s, page)])]
    ensures Implements(st', now)
  {
    forall m: P.Node
      ensures (m.root, m.path) in st'.leaves <==> m in now
      ensures m in now ==> st'.leaves[(m.root, m.path)] == LeafOf(now[m])
    {
      assert (m.root, m.path) in st.leaves <==> m in was;
      assert (m.root, m.path) == (s, page) <==> m == P.Node(s, page);
    }
    ImplementsIf(st', now);
  }

  /** A sole owner: read the count, set the bit. */
  lemma RestoreRun(st: State, s: Space, page: Page) returns (steps: seq<Step>)
    requires Inv(st) && FaultTaken(st, s, page) && st.leaves[(s, page)].frame < |st.refs|
    requires st.refs[st.leaves[(s, page)].frame] == 0
    ensures steps == [Fault(s, page), ReadCount(s), Restore(s)]
    ensures Runs(st, steps)
    ensures Exec(st, steps) == st.(leaves := st.leaves[(s, page) := st.leaves[(s, page)].(cow := false, writable := true)])
  {
    hide Inv, Runs, Exec;
    var st1 := AfterFault(st, s, page);
    var st2 := AfterReadCount(st1, s);
    var st3 := Restored(st2, s);
    OneStep(st, Fault(s, page));
    OneStep(st1, ReadCount(s));
    OneStep(st2, Restore(s));
    RunsOn(st1, [ReadCount(s)], [Restore(s)]);
    RunsOn(st, [Fault(s, page)], [ReadCount(s)] + [Restore(s)]);
    steps := [Fault(s, page)] + ([ReadCount(s)] + [Restore(s)]);
    assert st3.pcs == st.pcs;
  }

  /** The old frame loses one share: the tail of a fault on a shared page. */
  lemma DropRun(st: State, s: Space) returns (steps: seq<Step>)
    requires Has(st, s) && st.pcs[s].Dropping? && st.pcs[s].frame < |st.refs| && st.refs[st.pcs[s].frame] > 0
    ensures steps == [LoadCount(s), LowerCount(s)] && Runs(st, steps)
    ensures var f := st.pcs[s].frame;
      Exec(st, steps) == st.(refs := st.refs[f := st.refs[f] - 1], pcs := st.pcs[s := Return(st.pcs[s].after)])
  {
    hide Runs, Exec;
    var st1 := AfterLoad(st, s);
    var st2 := Lowered(st1, s);
    OneStep(st, LoadCount(s));
    OneStep(st1, LowerCount(s));
    RunsOn(st, [LoadCount(s)], [LowerCount(s)]);
    steps := [LoadCount(s)] + [LowerCount(s)];
    assert st2.pcs == st.pcs[s := Return(st.pcs[s].after)];
  }

  /** A shared page: fetch a frame, copy, repoint. */
  lemma CopyRun(st: State, s: Space, page: Page, target: Frame) returns (steps: seq<Step>, st': State)
    requires FaultTaken(st, s, page) && IsFree(st, target) && |st.mem| == |st.refs|
    requires st.leaves[(s, page)].frame < |st.refs| && st.refs[st.leaves[(s, page)].frame] > 0
    ensures steps == [Fault(s, page), ReadCount(s), Fetch(s, target), Copy(s), Rewrite(s)] && Runs(st, steps)
    ensures Exec(st, steps) == st'
    ensures var e := st.leaves[(s, page)];
      st' == st.(leaves := st.leaves[(s, page) := e.(frame := target, cow := false, writable := true)],
                 mem := st.mem[target := st.mem[e.frame]], used := st.used + {target}, pcs := st.pcs[s := Dropping(e.frame, Resume)])
  {
    hide Runs, Exec;
    var st1 := AfterFault(st, s, page);
    var st2 := AfterReadCount(st1, s);
    var st3 := AfterFetch(st2, s, target);
    var st4 := AfterCopy(st3, s);
    st' := Rewritten(st4, s);
    OneStep(st, Fault(s, page));
    OneStep(st1, ReadCount(s));
    OneStep(st2, Fetch(s, target));
    OneStep(st3, Copy(s));
    OneStep(st4, Rewrite(s));
    RunsOn(st3, [Copy(s)], [Rewrite(s)]);
    RunsOn(st2, [Fetch(s, target)], [Copy(s)] + [Rewrite(s)]);
    RunsOn(st1, [ReadCount(s)], [Fetch(s, target)] + ([Copy(s)] + [Rewrite(s)]));
    RunsOn(st, [Fault(s, page)], [ReadCount(s)] + ([Fetch(s, target)] + ([Copy(s)] + [Rewrite(s)])));
    steps := [Fault(s, page)] + ([ReadCount(s)] + ([Fetch(s, target)] + ([Copy(s)] + [Rewrite(s)])));
    assert st'.pcs == st.pcs[s := Dropping(st.leaves[(s, page)].frame, Resume)];
  }

  lemma ResolveSole(st: State, was: map<P.Node, P.Entry>, now: map<P.Node, P.Entry>, s: Space, page: Page)
      returns (steps: seq<Step>)
    requires Inv(st) && Implements(st, was) && FaultTaken(st, s, page) && st.leaves[(s, page)].frame < |st.refs|
    requires st.refs[st.leaves[(s, page)].frame] == 0 && V.Resolved(was, now, P.Node(s, page))
    requires now[P.Node(s, page)].frame == was[P.Node(s, page)].frame
    ensures Runs(st, steps) && Inv(Exec(st, steps)) && Implements(Exec(st, steps), now)
    ensures Exec(st, steps).mem == st.mem && Exec(st, steps).pcs == st.pcs
    ensures steps != [] && steps[0] == Fault(s, page)
  {
    ImplementsAt(st, was, s, page);
    hide Inv, Runs, Exec, Implements, P.OwnersOf;
    steps := RestoreRun(st, s, page);
    Repointed(st, Exec(st, steps), was, now, s, page);
    RunKeeps(st, steps);
  }

  /** The whole fault on a shared page. */
  lemma SharedRun(st: State, s: Space, page: Page, target: Frame) returns (steps: seq<Step>)
    requires FaultTaken(st, s, page) && IsFree(st, target) && |st.mem| == |st.refs|
    requires st.leaves[(s, page)].frame < |st.refs| && st.refs[st.leaves[(s, page)].frame] > 0
    ensures steps != [] && steps[0] == Fault(s, page) && Runs(st, steps)
    ensures var e, st' := st.leaves[(s, page)], Exec(st, steps);
      && st'.leaves == st.leaves[(s, page) := e.(frame := target, cow := false, writable := true)]
      && st'.mem == st.mem[target := st.mem[e.frame]] && st'.pcs == st.pcs
  {
    hide Runs, Exec;
    var copy, st1 := CopyRun(st, s, page, target);
    var drop := DropRun(st1, s);
    RunsOn(st, copy, drop);
    steps := copy + drop;
    assert st1.pcs[s := Idle] == st.pcs;
  }

  lemma ResolveShared(st: State, was: map<P.Node, P.Entry>, now: map<P.Node, P.Entry>, s: Space, page: Page)
      returns (steps: seq<Step>)
    requires Inv(st) && Implements(st, was) && FaultTaken(st, s, page) && st.leaves[(s, page)].frame < |st.refs| == |st.mem|
    requires st.refs[st.leaves[(s, page)].frame] > 0 && V.Resolved(was, now, P.Node(s, page))
    requires IsFree(st, now[P.Node(s, page)].frame)
    ensures Runs(st, steps) && Inv(Exec(st, steps)) && Implements(Exec(st, steps), now)
    ensures Exec(st, steps).mem == st.mem[now[P.Node(s, page)].frame := st.mem[was[P.Node(s, page)].frame]]
    ensures Exec(st, steps).pcs == st.pcs
    ensures steps != [] && steps[0] == Fault(s, page)
  {
    ImplementsAt(st, was, s, page);
    hide Inv, Runs, Exec, Implements, P.OwnersOf, FaultTaken, IsFree;
    steps := SharedRun(st, s, page, now[P.Node(s, page)].frame);
    Repointed(st, Exec(st, steps), was, now, s, page);
    RunKeeps(st, steps);
  }

  lemma ImplementsAt(st: State, leaves: map<P.Node, P.Entry>, s: Space, page: Page)
    requires Implements(st, leaves)
    ensures (s, page) in st.leaves <==> P.Node(s, page) in leaves
    ensures P.Node(s, page) in leaves ==> st.leaves[(s, page)] == LeafOf(leaves[P.Node(s, page)])
  {
    var m := P.Node(s, page);
    assert (m.root, m.path) in st.leaves <==> m in leaves;
  }

  /** cow_resolve alone: from the tables and memory before to those after, the protocol has a run, and it is the fault's. */
  lemma {:induction false} ResolveIsRun(st: State, was: map<P.Node, P.Entry>, now: map<P.Node, P.Entry>, used: seq<bool>,
                                        mem: seq<Content>, s: Space, page: Page) returns (steps: seq<Step>)
    requires Inv(st) && Quiet(st) && Implements(st, was) && Has(st, s) && st.pcs[s].Idle?
    requires P.Node(s, page) in was && was[P.Node(s, page)].cow && V.Resolved(was, now, P.Node(s, page))
    requires |used| == |st.refs| && forall f: nat | f < |used| :: used[f] <==> f in st.used
    requires V.KeptOrCopied(was, st.mem, used, now, mem, P.Node(s, page))
    ensures Runs(st, steps) && Inv(Exec(st, steps)) && Implements(Exec(st, steps), now)
    ensures Exec(st, steps).mem == mem && Exec(st, steps).pcs == st.pcs
    ensures steps != [] && steps[0] == Fault(s, page)
  {
    assert st.leaves[(s, page)].frame < |st.refs| == |st.mem| && (st.refs[st.leaves[(s, page)].frame] == 0 <==>
             P.OwnersOf(was, was[P.Node(s, page)].frame) == {P.Node(s, page)}) && FaultTaken(st, s, page) by {
      ImplementsAt(st, was, s, page);
      InvParts(st);
      QuietIsCounted(st, was);
      SoleIffZero(was, st.refs, P.Node(s, page));
    }
    hide Inv, Runs, Exec, Implements, Quiet, P.OwnersOf;
    if st.refs[st.leaves[(s, page)].frame] == 0 {
      steps := ResolveSole(st, was, now, s, page);
    } else {
      steps := ResolveShared(st, was, now, s, page);
    }
  }

  lemma SoleIffZero(leaves: map<P.Node, P.Entry>, refs: seq<nat>, m: P.Node)
    requires P.Counted(leaves, refs) && m in leaves && leaves[m].frame < |refs|
    ensures refs[leaves[m].frame] == 0 <==> P.OwnersOf(leaves, leaves[m].frame) == {m}
  {
    F.ZeroIsAlone(leaves, refs, m);
  }

  lemma RunKeeps(st: State, steps: seq<Step>)
    requires Inv(st) && Runs(st, steps)
    ensures Inv(Exec(st, steps))
  {
    RunRefines(st, steps);
  }

  // -------------------------------------------------------------------------
  // Teardown
  // -------------------------------------------------------------------------

  /** The last share goes: the frame is free. */
  lemma FreeRun(st: State, s: Space) returns (steps: seq<Step>)
    requires Has(st, s) && st.pcs[s].Dropping? && st.pcs[s].frame < |st.refs| && st.refs[st.pcs[s].frame] == 0
    ensures steps == [LoadCount(s), FreeFrame(s)] && Runs(st, steps)
    ensures Exec(st, steps) == st.(used := st.used - {st.pcs[s].frame}, pcs := st.pcs[s := Return(st.pcs[s].after)])
  {
    hide Runs, Exec;
    var st1 := AfterLoad(st, s);
    var st2 := Freed(st1, s);
    OneStep(st, LoadCount(s));
    OneStep(st1, FreeFrame(s));
    RunsOn(st, [LoadCount(s)], [FreeFrame(s)]);
    steps := [LoadCount(s)] + [FreeFrame(s)];
    assert st2.pcs == st.pcs[s := Return(st.pcs[s].after)];
  }

  /** A release alone, whichever way it ends. */
  lemma ReleaseRun(st: State, s: Space) returns (steps: seq<Step>)
    requires Has(st, s) && st.pcs[s].Dropping? && st.pcs[s].frame < |st.refs|
    ensures Runs(st, steps)
    ensures var st' := Exec(st, steps);
      st'.leaves == st.leaves && st'.mem == st.mem && st'.pcs == st.pcs[s := Return(st.pcs[s].after)]
  {
    hide Runs, Exec;
    if st.refs[st.pcs[s].frame] > 0 {
      steps := DropRun(st, s);
    } else {
      steps := FreeRun(st, s);
    }
  }

  lemma EntryInRange(st: State, k: Key)
    requires Inv(st) && k in st.leaves
    ensures st.leaves[k].frame < |st.refs|
  {
  }

  /** One page of a dying space: its entry goes, then its share. */
  lemma TearOne(st: State, s: Space, page: Page) returns (steps: seq<Step>)
    requires Inv(st) && Has(st, s) && st.pcs[s].Tearing? && (s, page) in st.leaves
    ensures Runs(st, steps) && Inv(Exec(st, steps))
    ensures var st' := Exec(st, steps); st'.leaves == st.leaves - {(s, page)} && st'.mem == st.mem && st'.pcs == st.pcs
  {
    hide Inv, Runs, Exec;
    EntryInRange(st, (s, page));
    var st1 := Unmapped(st, s, page, Teardown);
    OneStep(st, TearPage(s, page));
    var drop := ReleaseRun(st1, s);
    RunsOn(st, [TearPage(s, page)], drop);
    steps := [TearPage(s, page)] + drop;
    RunKeeps(st, steps);
    assert st1.pcs[s := Tearing] == st.pcs;
  }

  ghost function EntriesWithout(st: State, s: Space): map<Key, Leaf> {
    map k | k in st.leaves && k.0 != s :: st.leaves[k]
  }

  lemma FewerPages(st: State, st': State, s: Space, page: Page)
    requires (s, page) in st.leaves && st'.leaves == st.leaves - {(s, page)}
    ensures EntriesWithout(st', s) == EntriesWithout(st, s) && |PagesOf(st', s)| < |PagesOf(st, s)|
  {
    assert PagesOf(st', s) == PagesOf(st, s) - {page};
    assert page in PagesOf(st, s);
  }

  /** All pages of a dying space, one after the other. */
  lemma {:induction false} TearPages(st: State, s: Space) returns (steps: seq<Step>)
    requires Inv(st) && Has(st, s) && st.pcs[s].Tearing?
    ensures Runs(st, steps) && Inv(Exec(st, steps))
    ensures var st' := Exec(st, steps); st'.mem == st.mem && st'.pcs == st.pcs && st'.leaves == EntriesWithout(st, s)
    decreases |PagesOf(st, s)|
  {
    if PagesOf(st, s) != {} {
      var page :| page in PagesOf(st, s);
      hide Inv, Runs, Exec;
      var first := TearOne(st, s, page);
      var st1 := Exec(st, first);
      FewerPages(st, st1, s, page);
      var rest := TearPages(st1, s);
      RunsOn(st, first, rest);
      steps := first + rest;
    } else {
      forall k | k in st.leaves ensures k.0 != s {
        assert k.0 == s ==> k.1 in PagesOf(st, s);
      }
      assert EntriesWithout(st, s) == st.leaves;
      steps := [];
    }
  }

  lemma WithoutImplements(st: State, st': State, was: map<P.Node, P.Entry>, s: Space)
    requires Implements(st, was) && st'.leaves == EntriesWithout(st, s)
    ensures Implements(st', T.PagesWithout(was, s))
  {
    var now := T.PagesWithout(was, s);
    forall m: P.Node
      ensures (m.root, m.path) in st'.leaves <==> m in now
      ensures m in now ==> st'.leaves[(m.root, m.path)] == LeafOf(now[m])
    {
      ImplementsAt(st, was, m.root, m.path);
    }
    ImplementsIf(st', now);
  }

  /** destroy alone: the protocol has a run from the tables before to the tables without the space, and it is exit's. */
  lemma {:induction false} DestroyIsRun(st: State, was: map<P.Node, P.Entry>, s: Space) returns (steps: seq<Step>)
    requires Inv(st) && Quiet(st) && Implements(st, was) && Has(st, s) && st.pcs[s].Idle?
    ensures Runs(st, steps) && Inv(Exec(st, steps)) && Quiet(Exec(st, steps))
    ensures Implements(Exec(st, steps), T.PagesWithout(was, s))
    ensures Exec(st, steps).mem == st.mem && Exec(st, steps).pcs == st.pcs - {s}
    ensures |steps| >= 2 && steps[0] == Exit(s) && steps[|steps| - 1] == TearEnd(s)
  {
    hide Inv, Runs, Exec, Implements;
    var st1 := Exited(st, s);
    StepKeepsInv(st, Exit(s));
    OneStep(st, Exit(s));
    var pages := TearPages(st1, s);
    var st2 := Exec(st1, pages);
    WithoutImplements(st, st2, was, s);
    OneStep(st2, TearEnd(s));
    RunsOn(st, [Exit(s)], pages);
    RunsOn(st, [Exit(s)] + pages, [TearEnd(s)]);
    steps := [Exit(s)] + pages + [TearEnd(s)];
    RunKeeps(st, steps);
    SameEntries(st2, TornDown(st2, s), T.PagesWithout(was, s));
    assert TornDown(st2, s).pcs == st.pcs - {s};
  }
}
