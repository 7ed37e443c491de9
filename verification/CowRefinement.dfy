/** The protocol against the kernel that copies every page at fork. */
module CowRefinement {
  import opened Bytes
  import opened CowProtocol
  import opened CowInvariant
  import opened CowFaultSteps
  import opened CowForkSteps

  /** A page as its program sees it: what it reads, and whether it may store. */
  datatype Shown = Shown(bytes: Content, writable: bool)

  /** The naive kernel: every visible space owns its pages outright. */
  datatype Eager = Eager(spaces: set<Space>, pages: map<Key, Shown>)

  /** The program was given the page to write; the write bit itself may be withheld. */
  predicate MayWrite(e: Leaf) {
    e.user && (e.writable || e.cow)
  }

  ghost predicate Shows(st: State, s: Space) {
    Has(st, s) && Visible(st.pcs[s])
  }

  ghost predicate InRange(st: State) {
    forall k | k in st.leaves :: st.leaves[k].frame < |st.mem|
  }

  /** What every user program reads and may write. */
  ghost function View(st: State): Eager
    requires InRange(st)
  {
    Eager(set s | s in st.pcs && Shows(st, s),
          map k | k in st.leaves && Shows(st, k.0) :: Shown(st.mem[st.leaves[k].frame], MayWrite(st.leaves[k])))
  }

  ghost function Without(e: Eager, s: Space): Eager {
    Eager(e.spaces - {s}, map k | k in e.pages && k.0 != s :: e.pages[k])
  }

  ghost function ChildKeys(e: Eager, s: Space, child: Space): (keys: set<Key>)
    ensures forall k :: k in keys <==> k.0 == child && (s, k.1) in e.pages
  {
    var keys := set l | l in e.pages && l.0 == s :: (child, l.1);
    assert forall k: Key | k.0 == child && (s, k.1) in e.pages :: (child, (s, k.1).1) in keys;
    keys
  }

  ghost function Duplicate(e: Eager, s: Space, child: Space): Eager {
    Eager(e.spaces + {child},
          map k | k in e.pages.Keys + ChildKeys(e, s, child) ::
            if k in ChildKeys(e, s, child) then e.pages[(s, k.1)] else e.pages[k])
  }

  /** The same step in the naive kernel.  Faults, copies, counts and releases are invisible to it;
      fork copies every page at the moment the child comes alive. */
  ghost function Eagerly(e: Eager, step: Step): Eager {
    match step
    case Spawn(s) => e.(spaces := e.spaces + {s})
    case MapFresh(s, page, _, bytes, w, u) => e.(pages := e.pages[(s, page) := Shown(bytes, u && w)])
    case Store(s, page, off, value) =>
      if (s, page) in e.pages && e.pages[(s, page)].writable && off < |e.pages[(s, page)].bytes|
      then e.(pages := e.pages[(s, page) := Shown(e.pages[(s, page)].bytes[off := value], true)]) else e
    case Unmap(s, page) => e.(pages := e.pages - {(s, page)})
    case ForkEnd(s, child) => Duplicate(e, s, child)
    case Exit(s) => Without(e, s)
    case OutOfFrames(s) => Without(e, s)
    case _ => e
  }

  lemma InvInRange(st: State)
    requires Shape(st)
    ensures InRange(st)
  {
  }

  /** Every step of the code keeps the share-count invariant. */
  lemma StepKeepsInv(st: State, step: Step)
    requires Inv(st) && Enabled(st, step)
    ensures Inv(Apply(st, step))
  {
    match step
    case Spawn(s) => InvSpawned(st, s);
    case MapFresh(s, page, target, bytes, writable, user) => InvMapped(st, s, page, target, bytes, writable, user);
    case Store(s, page, off, value) => InvStored(st, s, page, off, value);
    case Fault(s, page) => InvFault(st, s, page);
    case ReadCount(s) => InvReadCount(st, s);
    case Restore(s) => InvRestore(st, s);
    case Fetch(s, target) => InvFetched(st, s, target);
    case OutOfFrames(s) => InvStarved(st, s);
    case Copy(s) => InvCopied(st, s);
    case Rewrite(s) => InvRewritten(st, s);
    case LoadCount(s) => InvLoad(st, s);
    case LowerCount(s) => InvLowered(st, s);
    case FreeFrame(s) => InvFreed(st, s);
    case Unmap(s, page) => InvUnmapped(st, s, page, Resume);
    case ForkBegin(s, child) => InvForkBegun(st, s, child);
    case ForkPage(s, page) => InvForkedPage(st, s, page);
    case ForkCount(s) => InvForkCounted(st, s);
    case ForkEnd(s, child) => InvForkClosed(st, ForkEnded(st, s, child), s, Idle);
    case ForkFail(s) => InvForkClosed(st, ForkFailed(st, s), s, Phantom);
    case Exit(s) => InvExited(st, s);
    case TearPage(s, page) => InvUnmapped(st, s, page, Teardown);
    case TearEnd(s) => InvTornDown(st, s);
    case KernelAlloc(target) => InvKernelTook(st, target);
    case KernelFree(frame) => InvKernelGave(st, frame);
  }

  // -------------------------------------------------------------------------
  // Refinement
  // -------------------------------------------------------------------------

  ghost predicate SameView(st: State, st': State) {
    && (forall s :: Shows(st', s) <==> Shows(st, s))
    && (forall k :: (k in st'.leaves && Shows(st', k.0)) <==> (k in st.leaves && Shows(st, k.0)))
    && InRange(st) && InRange(st')
    && (forall k | k in st.leaves && Shows(st, k.0) ::
          st'.mem[st'.leaves[k].frame] == st.mem[st.leaves[k].frame] && MayWrite(st'.leaves[k]) == MayWrite(st.leaves[k]))
  }

  lemma SilentStep(st: State, st': State)
    requires SameView(st, st')
    ensures View(st') == View(st)
  {
  }

  /** Nothing else maps the frame a store goes to. */
  lemma StoreAlone(st: State, s: Space, page: Page, off: nat, k: Key)
    requires WritersAlone(st) && StoreOk(st, s, page, off) && k in st.leaves && k != (s, page)
    ensures st.leaves[k].frame != st.leaves[(s, page)].frame
  {
  }

  lemma StorePages(st: State, st': State, s: Space, page: Page, off: nat, value: byte)
    requires WritersAlone(st) && InRange(st) && StoreOk(st, s, page, off) && st' == Stored(st, s, page, off, value)
    ensures InRange(st') && View(st').spaces == View(st).spaces
    ensures View(st').pages == View(st).pages[(s, page) := Shown(st.mem[st.leaves[(s, page)].frame][off := value], true)]
  {
    hide WritersAlone;
    forall k | k in st.leaves && k != (s, page) ensures st'.mem[st.leaves[k].frame] == st.mem[st.leaves[k].frame] {
      StoreAlone(st, s, page, off, k);
    }
  }

  lemma RefinesStore(st: State, s: Space, page: Page, off: nat, value: byte)
    requires WritersAlone(st) && InRange(st) && StoreOk(st, s, page, off)
    ensures InRange(Stored(st, s, page, off, value))
    ensures View(Stored(st, s, page, off, value)) == Eagerly(View(st), Store(s, page, off, value))
  {
    StorePages(st, Stored(st, s, page, off, value), s, page, off, value);
    assert View(st).pages[(s, page)] == Shown(st.mem[st.leaves[(s, page)].frame], true);
  }

  lemma RefinesMap(st: State, s: Space, page: Page, target: Frame, bytes: Content, w: bool, u: bool)
    requires Shape(st) && InRange(st) && MapOk(st, s, page, target)
    requires InRange(MappedFresh(st, s, page, target, bytes, w, u))
    ensures View(MappedFresh(st, s, page, target, bytes, w, u)) ==
            Eagerly(View(st), MapFresh(s, page, target, bytes, w, u))
  {
    var st' := MappedFresh(st, s, page, target, bytes, w, u);
    assert View(st').pages == View(st).pages[(s, page) := Shown(bytes, u && w)];
  }

  lemma RefinesForkEnd(st: State, s: Space, child: Space)
    requires PcsOk(st) && InRange(st) && ForkEndOk(st, s, child)
    ensures InRange(ForkEnded(st, s, child))
    ensures View(ForkEnded(st, s, child)) == Eagerly(View(st), ForkEnd(s, child))
  {
    var st' := ForkEnded(st, s, child);
    assert PcOk(st, s);
    forall t ensures Shows(st', t) <==> Shows(st, t) || t == child {}
    assert View(st').spaces == View(st).spaces + {child};
    var keys := ChildKeys(View(st), s, child);
    forall k ensures k in View(st').pages <==> k in View(st).pages || k in keys {}
    forall k | k in View(st').pages
      ensures View(st').pages[k] == Eagerly(View(st), ForkEnd(s, child)).pages[k]
    {
      if k in keys {
        assert st.leaves[k] == st.leaves[(s, k.1)];
      }
    }
    assert View(st').pages == Eagerly(View(st), ForkEnd(s, child)).pages;
  }

  /** A space that stops running disappears with all its pages. */
  lemma RefinesGone(st: State, st': State, s: Space)
    requires InRange(st) && Has(st, s) && st' == st.(pcs := st.pcs[s := Tearing])
    ensures InRange(st') && View(st') == Without(View(st), s)
  {
    assert View(st').spaces == View(st).spaces - {s};
  }

  lemma RefinesRewrite(st: State, s: Space)
    requires PcsOk(st) && Shape(st) && HeldAlone(st) && RewriteOk(st, s)
    ensures SameView(st, Rewritten(st, s))
  {
    assert PcOk(st, s);
    HeldApart(st, s);
  }

  lemma RefinesCopy(st: State, s: Space)
    requires PcsOk(st) && Shape(st) && HeldAlone(st) && CopyOk(st, s)
    ensures SameView(st, AfterCopy(st, s))
  {
    HeldApart(st, s);
  }

  lemma RefinesForkPage(st: State, s: Space, page: Page)
    requires PcsOk(st) && Shape(st) && ForkPageOk(st, s, page)
    ensures SameView(st, ForkedPage(st, s, page))
  {
    assert PcOk(st, s);
  }

  lemma RefinesRestore(st: State, s: Space)
    requires PcsOk(st) && Shape(st) && RestoreOk(st, s)
    ensures SameView(st, Restored(st, s))
  {
    assert PcOk(st, s);
  }

  lemma RefinesForkBegin(st: State, s: Space, child: Space)
    requires Shape(st) && ForkBeginOk(st, s, child)
    ensures SameView(st, ForkBegun(st, s, child))
  {
  }

  lemma RefinesForkFail(st: State, s: Space)
    requires PcsOk(st) && Shape(st) && ForkFailOk(st, s)
    ensures SameView(st, ForkFailed(st, s))
  {
    assert PcOk(st, s);
  }

  /** Steps of a running handler, of release and of a dying space show nothing. */
  lemma RefinesInside(st: State, st': State, s: Space, pc: Pc)
    requires Shape(st) && Has(st, s) && Visible(pc) == Visible(st.pcs[s])
    requires st'.pcs == st.pcs[s := pc] && st'.leaves == st.leaves && st'.mem == st.mem
    ensures SameView(st, st')
  {
  }

  lemma RefinesUnmap(st: State, s: Space, page: Page)
    requires Shape(st) && InRange(st) && UnmapOk(st, s, page, Resume)
    ensures InRange(Unmapped(st, s, page, Resume))
    ensures View(Unmapped(st, s, page, Resume)) == Eagerly(View(st), Unmap(s, page))
  {
    var st' := Unmapped(st, s, page, Resume);
    assert View(st').spaces == View(st).spaces;
    assert View(st').pages == View(st).pages - {(s, page)};
  }

  lemma RefinesTear(st: State, s: Space, page: Page)
    requires Shape(st) && UnmapOk(st, s, page, Teardown)
    ensures SameView(st, Unmapped(st, s, page, Teardown))
  {
  }

  lemma RefinesTearEnd(st: State, s: Space)
    requires Shape(st) && TearEndOk(st, s)
    ensures SameView(st, TornDown(st, s))
  {
  }

  lemma RefinesSpawn(st: State, s: Space)
    requires Shape(st) && InRange(st) && NewSpaceOk(st, s)
    ensures View(Spawned(st, s)) == Eagerly(View(st), Spawn(s))
  {
    var st' := Spawned(st, s);
    assert View(st').spaces == View(st).spaces + {s};
    assert View(st').pages == View(st).pages;
  }

  /** Steps that the naive kernel does not have leave every byte that every program reads alone. */
  lemma SilentStepRefines(st: State, step: Step)
    requires PcsOk(st) && Shape(st) && HeldAlone(st) && Enabled(st, step)
    requires !step.Spawn? && !step.MapFresh? && !step.Store? && !step.Unmap? && !step.ForkEnd? && !step.Exit? &&
             !step.OutOfFrames?
    ensures SameView(st, Apply(st, step))
  {
    var st' := Apply(st, step);
    match step
    case Fault(s, page) => RefinesInside(st, st', s, st'.pcs[s]);
    case ReadCount(s) => RefinesInside(st, st', s, st'.pcs[s]);
    case Restore(s) => RefinesRestore(st, s);
    case Fetch(s, target) => RefinesInside(st, st', s, st'.pcs[s]);
    case Copy(s) => RefinesCopy(st, s);
    case Rewrite(s) => RefinesRewrite(st, s);
    case LoadCount(s) => RefinesInside(st, st', s, st'.pcs[s]);
    case LowerCount(s) => RefinesInside(st, st', s, st'.pcs[s]);
    case FreeFrame(s) => RefinesInside(st, st', s, st'.pcs[s]);
    case ForkBegin(s, child) => RefinesForkBegin(st, s, child);
    case ForkPage(s, page) => RefinesForkPage(st, s, page);
    case ForkCount(s) => RefinesInside(st, st', s, st'.pcs[s]);
    case ForkFail(s) => RefinesForkFail(st, s);
    case TearPage(s, page) => RefinesTear(st, s, page);
    case TearEnd(s) => RefinesTearEnd(st, s);
    case KernelAlloc(target) =>
    case KernelFree(frame) =>
  }

  /** One step of the copy-on-write kernel is one step, or none, of the kernel that copies at fork. */
  lemma StepRefines(st: State, step: Step)
    requires Inv(st) && Enabled(st, step)
    ensures InRange(st) && InRange(Apply(st, step))
    ensures View(Apply(st, step)) == Eagerly(View(st), step)
  {
    hide View, SameView, Without, Duplicate;
    InvInRange(st);
    StepKeepsInv(st, step);
    InvInRange(Apply(st, step));
    match step
    case Spawn(s) => RefinesSpawn(st, s);
    case MapFresh(s, page, target, bytes, w, u) => RefinesMap(st, s, page, target, bytes, w, u);
    case Store(s, page, off, value) => RefinesStore(st, s, page, off, value);
    case Unmap(s, page) => RefinesUnmap(st, s, page);
    case ForkEnd(s, child) => RefinesForkEnd(st, s, child);
    case Exit(s) => RefinesGone(st, Exited(st, s), s);
    case OutOfFrames(s) => RefinesGone(st, Starved(st, s), s);
    case _ =>
      SilentStepRefines(st, step);
      SilentStep(st, Apply(st, step));
  }

  // -------------------------------------------------------------------------
  // Whole runs
  // -------------------------------------------------------------------------

  ghost predicate Runs(st: State, steps: seq<Step>)
    decreases |steps|
  {
    steps == [] || (Enabled(st, steps[0]) && Runs(Apply(st, steps[0]), steps[1..]))
  }

  ghost function Exec(st: State, steps: seq<Step>): State
    requires Runs(st, steps)
    decreases |steps|
  {
    if steps == [] then st else Exec(Apply(st, steps[0]), steps[1..])
  }

  ghost function EagerExec(e: Eager, steps: seq<Step>): Eager
    decreases |steps|
  {
    if steps == [] then e else EagerExec(Eagerly(e, steps[0]), steps[1..])
  }

  /** Boot: nothing but kernel frames is taken and no space exists. */
  ghost predicate Booted(st: State) {
    && st.leaves == map[] && st.pcs == map[] && st.used == st.kernel && |st.mem| == |st.refs|
    && (forall f | f in st.used :: f < |st.refs|)
    && (forall f: Frame | f < |st.refs| :: st.refs[f] == 0)
  }

  lemma BootedInv(st: State)
    requires Booted(st)
    ensures Inv(st)
  {
    forall f ensures Owners(st, f) == 0 {
      assert Mapped(st, f) == {} && InFlight(st, f) == {};
    }
  }

  /** Every run: the counts stay right and every program reads what it would under eager copying. */
  lemma {:induction false} RunRefines(st: State, steps: seq<Step>)
    requires Inv(st) && Runs(st, steps)
    ensures InRange(st) && Inv(Exec(st, steps)) && InRange(Exec(st, steps))
    ensures View(Exec(st, steps)) == EagerExec(View(st), steps)
    decreases |steps|
  {
    InvInRange(st);
    if steps != [] {
      StepKeepsInv(st, steps[0]);
      StepRefines(st, steps[0]);
      RunRefines(Apply(st, steps[0]), steps[1..]);
    }
  }
}
