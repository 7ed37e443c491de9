/** What the copy-on-write protocol promises its users, over every run from boot. */
module CowTheorems {
  import opened Bytes
  import opened CowProtocol
  import opened CowInvariant
  import opened CowFaultSteps
  import opened CowRefinement

  /** Fork is indistinguishable from copying every byte, whatever the interleaving. */
  lemma CowRefinesEagerCopy(boot: State, steps: seq<Step>)
    requires Booted(boot) && Runs(boot, steps)
    ensures InRange(Exec(boot, steps))
    ensures View(Exec(boot, steps)) == EagerExec(Eager({}, map[]), steps)
  {
    BootedInv(boot);
    RunRefines(boot, steps);
    assert View(boot) == Eager({}, map[]);
  }

  /** A store changes one page of one space and no other page of any space. */
  lemma StoreIsIsolated(boot: State, steps: seq<Step>, s: Space, page: Page, off: nat, value: byte, k: Key)
    requires Booted(boot) && Runs(boot, steps) && StoreOk(Exec(boot, steps), s, page, off)
    requires InRange(Exec(boot, steps)) && k in View(Exec(boot, steps)).pages
    ensures var st := Exec(boot, steps);
      && InRange(Stored(st, s, page, off, value)) && k in View(Stored(st, s, page, off, value)).pages
      && View(Stored(st, s, page, off, value)).pages[k] ==
         if k == (s, page) then Shown(View(st).pages[k].bytes[off := value], true) else View(st).pages[k]
  {
    BootedInv(boot);
    RunRefines(boot, steps);
    RefinesStore(Exec(boot, steps), s, page, off, value);
  }

  /** Sharing takes no permission away: between handlers, a page that the copying kernel would let a program write is
      one it can write now, or one whose write fault it takes; any other page it cannot write. */
  lemma StoresSurviveSharing(boot: State, steps: seq<Step>, s: Space, page: Page, off: nat)
    requires Booted(boot) && Runs(boot, steps)
    requires var st := Exec(boot, steps); Has(st, s) && st.pcs[s].Idle?
    requires (s, page) in EagerExec(Eager({}, map[]), steps).pages
    requires off < |EagerExec(Eager({}, map[]), steps).pages[(s, page)].bytes|
    ensures var st, seen := Exec(boot, steps), EagerExec(Eager({}, map[]), steps).pages[(s, page)];
      seen.writable <==> StoreOk(st, s, page, off) || (FaultTaken(st, s, page) && st.leaves[(s, page)].user)
  {
    CowRefinesEagerCopy(boot, steps);
    ViewShows(Exec(boot, steps), s, page);
  }

  // -------------------------------------------------------------------------
  // Share counts
  // -------------------------------------------------------------------------

  /** All entries that name `f`, abandoned child tables included. */
  ghost function Entries(st: State, f: Frame): set<Key> {
    set k | k in st.leaves && st.leaves[k].frame == f
  }

  /** Entries whose add_ref is the next step of their fork. */
  ghost function Pending(st: State, f: Frame): set<Key> {
    set k | k in st.leaves && st.leaves[k].frame == f && Uncounted(st, k)
  }

  lemma EntriesSplit(st: State, f: Frame)
    ensures |Entries(st, f)| == |Mapped(st, f)| + |Pending(st, f)|
  {
    assert Entries(st, f) == Mapped(st, f) + Pending(st, f);
    assert Mapped(st, f) !! Pending(st, f);
  }

  /** The count of a frame anybody owns is entries, plus releases under way, minus counts still to be
      raised, minus one; every other frame, free ones included, has count 0. */
  lemma ShareCountFormula(boot: State, steps: seq<Step>, f: Frame)
    requires Booted(boot) && Runs(boot, steps) && f < |Exec(boot, steps).refs|
    ensures var st := Exec(boot, steps);
      if Entries(st, f) == {} && InFlight(st, f) == {} then st.refs[f] == 0
      else f in st.used && f !in st.kernel &&
           st.refs[f] + 1 + |Pending(st, f)| == |Entries(st, f)| + |InFlight(st, f)|
  {
    BootedInv(boot);
    RunRefines(boot, steps);
    var st := Exec(boot, steps);
    EntriesSplit(st, f);
    if Entries(st, f) == {} {
      assert Mapped(st, f) == {};
    } else {
      assert Mapped(st, f) != {} by {
        var k :| k in Entries(st, f);
        if Uncounted(st, k) {
          UncountedParent(st, k);
        } else {
          assert k in Mapped(st, f);
        }
      }
    }
    if Entries(st, f) != {} || InFlight(st, f) != {} {
      assert Owners(st, f) > 0;
    } else {
      assert Owners(st, f) == 0;
    }
  }

  /** An entry ring 3 can write through is the only owner its frame has. */
  lemma WriterIsOnlyOwner(boot: State, steps: seq<Step>, k: Key)
    requires Booted(boot) && Runs(boot, steps)
    requires k in Exec(boot, steps).leaves && Writer(Exec(boot, steps).leaves[k])
    ensures var st := Exec(boot, steps); var f := st.leaves[k].frame;
      Entries(st, f) == {k} && InFlight(st, f) == {} && f < |st.refs| && st.refs[f] == 0
  {
    BootedInv(boot);
    RunRefines(boot, steps);
    var st := Exec(boot, steps);
    var f := st.leaves[k].frame;
    forall l | l in Entries(st, f) ensures l == k {}
    assert Entries(st, f) == {k};
    forall t | t in InFlight(st, f) ensures false {}
    ShareCountFormula(boot, steps, f);
    if Uncounted(st, k) {
      UncountedParent(st, k);
    }
    assert Pending(st, f) == {};
  }

  /** When release hands a frame back it is taken, nobody maps it, nobody else is releasing it and
      its count is 0: no frame is freed twice or while mapped. */
  lemma FreeIsSafe(boot: State, steps: seq<Step>, s: Space)
    requires Booted(boot) && Runs(boot, steps) && FreeOk(Exec(boot, steps), s)
    ensures var st := Exec(boot, steps); var f := st.pcs[s].frame;
      && f in st.used && f !in st.kernel && f < |st.refs| && st.refs[f] == 0
      && Entries(st, f) == {} && InFlight(st, f) == {s}
      && f !in Freed(st, s).used
  {
    BootedInv(boot);
    RunRefines(boot, steps);
    var st := Exec(boot, steps);
    LastReleaseUnmapped(st, s);
    assert PcOk(st, s);
    assert Entries(st, st.pcs[s].frame) == {};
    assert Pending(st, st.pcs[s].frame) == {};
    ShareCountFormula(boot, steps, st.pcs[s].frame);
  }

  /** Once every space is gone and no fork failed, every frame the spaces ever took is back. */
  lemma NothingLeaks(boot: State, steps: seq<Step>)
    requires Booted(boot) && Runs(boot, steps) && Exec(boot, steps).pcs == map[]
    ensures var st := Exec(boot, steps);
      st.used == st.kernel && st.leaves == map[] && forall f: Frame | f < |st.refs| :: st.refs[f] == 0
  {
    BootedInv(boot);
    RunRefines(boot, steps);
    var st := Exec(boot, steps);
    forall k | k in st.leaves ensures false {}
    forall f ensures Owners(st, f) == 0 {
      assert Mapped(st, f) == {} && InFlight(st, f) == {};
    }
    assert st.leaves.Keys == {};
    forall f | f in st.used ensures f in st.kernel {
      assert f in st.used - st.kernel || f in st.kernel;
    }
  }

  // -------------------------------------------------------------------------
  // One resolved fault is enough
  // -------------------------------------------------------------------------

  /** The steps cow_resolve(page) makes on behalf of `s`, success path. */
  predicate HandlerStep(step: Step, s: Space) {
    match step
    case ReadCount(t) => t == s
    case Restore(t) => t == s
    case Fetch(t, _) => t == s
    case Copy(t) => t == s
    case Rewrite(t) => t == s
    case LoadCount(t) => t == s
    case LowerCount(t) => t == s
    case FreeFrame(t) => t == s
    case _ => false
  }

  function Actor(step: Step): (s: Space) {
    match step
    case KernelAlloc(_) => 0
    case KernelFree(_) => 0
    case _ => step.s
  }

  predicate ByOther(step: Step, s: Space) {
    step.KernelAlloc? || step.KernelFree? || Actor(step) != s
  }

  /** A step of the handler, of another space, or a store to another page. */
  predicate Beside(step: Step, s: Space, page: Page) {
    HandlerStep(step, s) || ByOther(step, s) || (step.Store? && step.page != page)
  }

  /** The handler of `s` for `page` is at work, or has made the page writable. */
  ghost predicate Resolving(st: State, s: Space, page: Page) {
    Has(st, s) &&
    match st.pcs[s]
    case Faulted(p, _) => p == page
    case Sole(p, _) => p == page
    case Shared(p, _) => p == page
    case Fetched(p, _, _) => p == page
    case Copied(p, _, _) => p == page
    case Dropping(_, after) => after.Resume? && (s, page) in st.leaves && Writer(st.leaves[(s, page)])
    case Seen(_, _, after) => after.Resume? && (s, page) in st.leaves && Writer(st.leaves[(s, page)])
    case Idle => (s, page) in st.leaves && Writer(st.leaves[(s, page)])
    case _ => false
  }

  lemma HandlerKeepsResolving(st: State, step: Step, s: Space, page: Page)
    requires Shape(st) && PcsOk(st) && Enabled(st, step) && HandlerStep(step, s) && Resolving(st, s, page)
    ensures Resolving(Apply(st, step), s, page)
  {
    assert PcOk(st, s);
  }

  lemma StoreKeepsResolving(st: State, step: Step, s: Space, page: Page)
    requires Enabled(st, step) && step.Store? && Resolving(st, s, page)
    ensures Resolving(Apply(st, step), s, page)
  {
  }

  /** Nobody but `s` touches the entries or the program counter of a running `s`. */
  lemma OthersKeepEntries(st: State, step: Step, s: Space)
    requires PcsOk(st) && Enabled(st, step) && Has(st, s) && Visible(st.pcs[s]) && ByOther(step, s)
    ensures Has(Apply(st, step), s) && Apply(st, step).pcs[s] == st.pcs[s]
    ensures SameLeaves(st, Apply(st, step), s)
  {
    if (step.ForkPage? || step.ForkEnd? || step.ForkFail?) {
      assert PcOk(st, step.s);
    }
  }

  /** Whatever the other spaces do and other threads store meanwhile, the page a fault was taken on ends up writable, so the
      retried store goes through, and it reads what it read before the fault. */
  lemma {:induction false} OneFaultIsEnough(st: State, steps: seq<Step>, s: Space, page: Page)
    requires Inv(st) && Runs(st, steps) && Resolving(st, s, page)
    requires forall i | 0 <= i < |steps| :: HandlerStep(steps[i], s) || ByOther(steps[i], s) || steps[i].Store?
    ensures Inv(Exec(st, steps)) && Resolving(Exec(st, steps), s, page)
    ensures Exec(st, steps).pcs[s].Idle? ==>
      var last := Exec(st, steps);
      var f := last.leaves[(s, page)].frame;
      f < |last.mem| && forall off: nat | off < |last.mem[f]| :: StoreOk(last, s, page, off)
    decreases |steps|
  {
    hide Apply, Enabled, CountsMatch, NoLeak, HeldAlone, WritersAlone, PcsOk;
    if steps != [] {
      var next := Apply(st, steps[0]);
      StepKeepsInv(st, steps[0]);
      if HandlerStep(steps[0], s) {
        HandlerKeepsResolving(st, steps[0], s, page);
      } else if steps[0].Store? {
        StoreKeepsResolving(st, steps[0], s, page);
      } else {
        OthersKeepEntries(st, steps[0], s);
      }
      OneFaultIsEnough(next, steps[1..], s, page);
    }
  }

  /** Until something is stored there, such a run leaves the bytes of the page as they were. */
  lemma {:induction false} FaultKeepsBytes(st: State, steps: seq<Step>, s: Space, page: Page)
    requires Inv(st) && Runs(st, steps) && Resolving(st, s, page) && (s, page) in st.leaves
    requires forall i | 0 <= i < |steps| :: Beside(steps[i], s, page)
    ensures InRange(st) && InRange(Exec(st, steps)) && (s, page) in Exec(st, steps).leaves
    ensures Exec(st, steps).mem[Exec(st, steps).leaves[(s, page)].frame] == st.mem[st.leaves[(s, page)].frame]
    decreases |steps|
  {
    hide Apply, View, Eagerly, Enabled, PcsOk, CountsMatch, NoLeak, HeldAlone;
    InvInRange(st);
    if steps != [] {
      var next := Apply(st, steps[0]);
      StepKeepsInv(st, steps[0]);
      StepRefines(st, steps[0]);
      if HandlerStep(steps[0], s) {
        HandlerKeepsResolving(st, steps[0], s, page);
      } else if steps[0].Store? {
        StoreKeepsResolving(st, steps[0], s, page);
      } else {
        OthersKeepEntries(st, steps[0], s);
      }
      StepKeepsPage(st, steps[0], s, page);
      FaultKeepsBytes(next, steps[1..], s, page);
    }
  }

  /** In the naive kernel, nobody else's step and no fault changes a page of `s`. */
  lemma EagerKeepsPage(e: Eager, step: Step, s: Space, page: Page)
    requires (s, page) in e.pages && Beside(step, s, page)
    requires step.ForkEnd? ==> step.child != s
    ensures (s, page) in Eagerly(e, step).pages && Eagerly(e, step).pages[(s, page)] == e.pages[(s, page)]
  {
  }

  /** A fork's child is not visible before the fork ends. */
  lemma ChildIsHidden(st: State, step: Step, s: Space)
    requires Inv(st) && Enabled(st, step) && step.ForkEnd? && Has(st, s) && Visible(st.pcs[s])
    ensures step.child != s
  {
    assert PcOk(st, step.s);
  }

  /** What the view shows of a page is what memory holds. */
  lemma ViewShows(st: State, s: Space, page: Page)
    requires InRange(st)
    ensures (s, page) in View(st).pages <==> (s, page) in st.leaves && Shows(st, s)
    ensures (s, page) in View(st).pages ==>
              View(st).pages[(s, page)] == Shown(st.mem[st.leaves[(s, page)].frame], MayWrite(st.leaves[(s, page)]))
  {
  }

  lemma StepKeepsPage(st: State, step: Step, s: Space, page: Page)
    requires Inv(st) && Enabled(st, step) && Has(st, s) && Visible(st.pcs[s]) && (s, page) in st.leaves
    requires Beside(step, s, page)
    requires InRange(st) && InRange(Apply(st, step))
    requires View(Apply(st, step)) == Eagerly(View(st), step)
    ensures (s, page) in Apply(st, step).leaves
    ensures Apply(st, step).mem[Apply(st, step).leaves[(s, page)].frame] == st.mem[st.leaves[(s, page)].frame]
  {
    if step.ForkEnd? {
      ChildIsHidden(st, step, s);
    }
    ViewShows(st, s, page);
    EagerKeepsPage(View(st), step, s, page);
    ViewShows(Apply(st, step), s, page);
  }
}
