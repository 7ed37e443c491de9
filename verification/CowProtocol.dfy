/** Copy-on-write address spaces as interleaved steps.

    Every space has at most one kernel operation under way; the operations of
    different spaces, and the stores of all threads of all spaces, interleave
    freely, one memory access or one atomic read-modify-write at a time.  The
    tables of a space appear here as the partial map they implement (module
    PageTableSpec proves that they do).

    The result is that the protocol refines the naive kernel in which `fork`
    copies every page. */
module CowProtocol {
  import opened Bytes

  type Space = nat
  /** The path of table indices that leads to the page. */
  type Page = seq<nat>
  type Frame = nat
  type Key = (Space, Page)

  /** One page of memory, byte by byte. */
  type Content = seq<byte>

  /** A present leaf entry: the frame it names and the flags the protocol reads. */
  datatype Leaf = Leaf(frame: Frame, writable: bool, user: bool, cow: bool)

  /** What a finished release goes back to. */
  datatype After = Resume | Teardown

  /** Where the operation of one space stands. */
  datatype Pc =
    | Idle                                                  // user code runs
    | Faulted(page: Page, entry: Leaf)                      // entry read, count not read yet
    | Sole(page: Page, entry: Leaf)                         // read a count of 0
    | Shared(page: Page, entry: Leaf)                       // read a count above 0
    | Fetched(page: Page, entry: Leaf, target: Frame)        // new frame allocated
    | Copied(page: Page, entry: Leaf, target: Frame)         // new frame filled
    | Dropping(frame: Frame, after: After)                   // release called, nothing read
    | Seen(frame: Frame, count: nat, after: After)           // release read this count
    | Forking(child: Space, todo: set<Page>)                // between two pages of fork
    | Adding(child: Space, todo: set<Page>, page: Page)     // both entries written, count not raised
    | Tearing                                               // free_all
    | Embryo(parent: Space)                                 // child of a fork under way
    | Phantom                                               // child tables of a failed fork

  datatype State = State(
    leaves: map<Key, Leaf>,
    refs: seq<nat>,             // owners minus one, per frame
    used: set<Frame>,           // frames the bitmap marks as taken
    kernel: set<Frame>,         // taken for tables and other kernel use
    mem: seq<Content>,
    pcs: map<Space, Pc>)

  datatype Step =
    | Spawn(s: Space)
    | MapFresh(s: Space, page: Page, target: Frame, bytes: Content, writable: bool, user: bool)
    | Store(s: Space, page: Page, off: nat, value: byte)
    | Fault(s: Space, page: Page)
    | ReadCount(s: Space)
    | Restore(s: Space)
    | Fetch(s: Space, target: Frame)
    | OutOfFrames(s: Space)
    | Copy(s: Space)
    | Rewrite(s: Space)
    | LoadCount(s: Space)
    | LowerCount(s: Space)
    | FreeFrame(s: Space)
    | Unmap(s: Space, page: Page)
    | ForkBegin(s: Space, child: Space)
    | ForkPage(s: Space, page: Page)
    | ForkCount(s: Space)
    | ForkEnd(s: Space, child: Space)
    | ForkFail(s: Space)
    | Exit(s: Space)
    | TearPage(s: Space, page: Page)
    | TearEnd(s: Space)
    | KernelAlloc(target: Frame)
    | KernelFree(frame: Frame)

  // -------------------------------------------------------------------------
  // Transitions
  // -------------------------------------------------------------------------

  function PcOf(st: State, s: Space): Pc {
    if s in st.pcs then st.pcs[s] else Idle
  }

  ghost predicate Has(st: State, s: Space) {
    s in st.pcs
  }

  predicate IsFree(st: State, f: Frame) {
    f < |st.refs| && f !in st.used
  }

  /** Ring 3 can store through this entry. */
  predicate Writer(e: Leaf) {
    e.user && e.writable
  }

  /** fork_cow: a user-writable entry loses the write bit and gains the COW bit. */
  function Downgrade(e: Leaf): Leaf {
    if Writer(e) then e.(writable := false, cow := true) else e
  }

  ghost function PagesOf(st: State, s: Space): set<Page> {
    set k | k in st.leaves && k.0 == s :: k.1
  }

  ghost predicate NewSpaceOk(st: State, s: Space) {
    !Has(st, s)
  }

  /** new_user: an empty lower half. */
  ghost function Spawned(st: State, s: Space): State
    requires NewSpaceOk(st, s)
  {
    st.(pcs := st.pcs[s := Idle])
  }

  /** alloc, fill the frame through the direct map, then `map`. */
  ghost predicate MapOk(st: State, s: Space, page: Page, target: Frame) {
    Has(st, s) && st.pcs[s].Idle? && (s, page) !in st.leaves &&
    IsFree(st, target) && target < |st.mem|
  }

  ghost function MappedFresh(st: State, s: Space, page: Page, target: Frame, bytes: Content,
                             writable: bool, user: bool): State
    requires MapOk(st, s, page, target)
  {
    st.(leaves := st.leaves[(s, page) := Leaf(target, writable, user, false)],
        used := st.used + {target},
        mem := st.mem[target := bytes])
  }

  /** Threads of the space may be running, beside its kernel operation if there is one. */
  predicate Visible(pc: Pc) {
    !pc.Embryo? && !pc.Phantom? && !pc.Tearing? && !((pc.Dropping? || pc.Seen?) && pc.after.Teardown?)
  }

  /** A ring-3 store that the page tables allow, by any thread of the space. */
  ghost predicate StoreOk(st: State, s: Space, page: Page, off: nat) {
    Has(st, s) && Visible(st.pcs[s]) && (s, page) in st.leaves &&
    var e := st.leaves[(s, page)];
    Writer(e) && e.frame < |st.mem| && off < |st.mem[e.frame]|
  }

  ghost function Stored(st: State, s: Space, page: Page, off: nat, value: byte): State
    requires StoreOk(st, s, page, off)
  {
    var f := st.leaves[(s, page)].frame;
    st.(mem := st.mem[f := st.mem[f][off := value]])
  }

  /** A ring-3 store to a present COW page enters cow_resolve, which reads the entry. */
  ghost predicate FaultTaken(st: State, s: Space, page: Page) {
    Has(st, s) && st.pcs[s].Idle? && (s, page) in st.leaves &&
    !st.leaves[(s, page)].writable && st.leaves[(s, page)].cow
  }

  ghost function AfterFault(st: State, s: Space, page: Page): State
    requires FaultTaken(st, s, page)
  {
    st.(pcs := st.pcs[s := Faulted(page, st.leaves[(s, page)])])
  }

  ghost predicate ReadCountOk(st: State, s: Space) {
    Has(st, s) && st.pcs[s].Faulted? && st.pcs[s].entry.frame < |st.refs|
  }

  /** ref_of(phys) == 0 decides which way the handler goes. */
  ghost function AfterReadCount(st: State, s: Space): State
    requires ReadCountOk(st, s)
  {
    var pc := st.pcs[s];
    st.(pcs := st.pcs[s := if st.refs[pc.entry.frame] == 0 then Sole(pc.page, pc.entry)
                           else Shared(pc.page, pc.entry)])
  }

  ghost predicate RestoreOk(st: State, s: Space) {
    Has(st, s) && st.pcs[s].Sole?
  }

  /** Sole owner: the write bit comes back in place. */
  ghost function Restored(st: State, s: Space): State
    requires RestoreOk(st, s)
  {
    var pc := st.pcs[s];
    st.(leaves := st.leaves[(s, pc.page) := pc.entry.(cow := false, writable := true)],
        pcs := st.pcs[s := Idle])
  }

  ghost predicate FetchOk(st: State, s: Space, target: Frame) {
    Has(st, s) && st.pcs[s].Shared? && IsFree(st, target)
  }

  ghost function AfterFetch(st: State, s: Space, target: Frame): State
    requires FetchOk(st, s, target)
  {
    var pc := st.pcs[s];
    st.(used := st.used + {target}, pcs := st.pcs[s := Fetched(pc.page, pc.entry, target)])
  }

  /** The allocator has nothing left: cow_resolve returns false and the task is killed. */
  ghost predicate StarvedOk(st: State, s: Space) {
    Has(st, s) && st.pcs[s].Shared?
  }

  ghost function Starved(st: State, s: Space): State
    requires StarvedOk(st, s)
  {
    st.(pcs := st.pcs[s := Tearing])
  }

  ghost predicate CopyOk(st: State, s: Space) {
    Has(st, s) && st.pcs[s].Fetched? && st.pcs[s].target < |st.mem| && st.pcs[s].entry.frame < |st.mem|
  }

  ghost function AfterCopy(st: State, s: Space): State
    requires CopyOk(st, s)
  {
    var pc := st.pcs[s];
    st.(mem := st.mem[pc.target := st.mem[pc.entry.frame]],
        pcs := st.pcs[s := Copied(pc.page, pc.entry, pc.target)])
  }

  ghost predicate RewriteOk(st: State, s: Space) {
    Has(st, s) && st.pcs[s].Copied?
  }

  /** The entry moves to the private copy; the old frame is about to be released. */
  ghost function Rewritten(st: State, s: Space): State
    requires RewriteOk(st, s)
  {
    var pc := st.pcs[s];
    st.(leaves := st.leaves[(s, pc.page) := pc.entry.(frame := pc.target, cow := false, writable := true)],
        pcs := st.pcs[s := Dropping(pc.entry.frame, Resume)])
  }

  /** release: the first load, and the reload after a compare-exchange that lost. */
  ghost predicate LoadOk(st: State, s: Space) {
    Has(st, s) && st.pcs[s].Dropping? && st.pcs[s].frame < |st.refs|
  }

  ghost predicate RetryOk(st: State, s: Space) {
    Has(st, s) && st.pcs[s].Seen? && st.pcs[s].count > 0 && st.pcs[s].frame < |st.refs| &&
    st.refs[st.pcs[s].frame] != st.pcs[s].count
  }

  ghost function AfterLoad(st: State, s: Space): State
    requires LoadOk(st, s) || RetryOk(st, s)
  {
    var pc := st.pcs[s];
    st.(pcs := st.pcs[s := Seen(pc.frame, st.refs[pc.frame], pc.after)])
  }

  function Return(after: After): Pc {
    if after.Resume? then Idle else Tearing
  }

  ghost predicate LowerOk(st: State, s: Space) {
    Has(st, s) && st.pcs[s].Seen? && st.pcs[s].count > 0 && st.pcs[s].frame < |st.refs| &&
    st.refs[st.pcs[s].frame] == st.pcs[s].count
  }

  /** release: the compare-exchange that takes one owner off. */
  ghost function Lowered(st: State, s: Space): State
    requires LowerOk(st, s)
  {
    var pc := st.pcs[s];
    st.(refs := st.refs[pc.frame := pc.count - 1], pcs := st.pcs[s := Return(pc.after)])
  }

  ghost predicate FreeOk(st: State, s: Space) {
    Has(st, s) && st.pcs[s].Seen? && st.pcs[s].count == 0
  }

  /** release: a count of 0 was read, so the frame goes back to the bitmap. */
  ghost function Freed(st: State, s: Space): State
    requires FreeOk(st, s)
  {
    var pc := st.pcs[s];
    st.(used := st.used - {pc.frame}, pcs := st.pcs[s := Return(pc.after)])
  }

  /** unmap in a running space (`Resume`) or free_all in a dying one (`Teardown`). */
  ghost predicate UnmapOk(st: State, s: Space, page: Page, after: After) {
    Has(st, s) && (if after.Resume? then st.pcs[s].Idle? else st.pcs[s].Tearing?) && (s, page) in st.leaves
  }

  ghost function Unmapped(st: State, s: Space, page: Page, after: After): State
    requires UnmapOk(st, s, page, after)
  {
    st.(leaves := st.leaves - {(s, page)},
        pcs := st.pcs[s := Dropping(st.leaves[(s, page)].frame, after)])
  }

  ghost predicate ForkBeginOk(st: State, s: Space, child: Space) {
    Has(st, s) && st.pcs[s].Idle? && !Has(st, child)
  }

  ghost function ForkBegun(st: State, s: Space, child: Space): State
    requires ForkBeginOk(st, s, child)
  {
    st.(pcs := st.pcs[s := Forking(child, PagesOf(st, s))][child := Embryo(s)])
  }

  ghost predicate ForkPageOk(st: State, s: Space, page: Page) {
    Has(st, s) && st.pcs[s].Forking? && page in st.pcs[s].todo && (s, page) in st.leaves
  }

  /** fork_cow, one leaf: parent and child entries are written with the same downgraded flags. */
  ghost function ForkedPage(st: State, s: Space, page: Page): State
    requires ForkPageOk(st, s, page)
  {
    var pc := st.pcs[s];
    var e := Downgrade(st.leaves[(s, page)]);
    st.(leaves := st.leaves[(s, page) := e][(pc.child, page) := e],
        pcs := st.pcs[s := Adding(pc.child, pc.todo - {page}, page)])
  }

  ghost predicate ForkCountOk(st: State, s: Space) {
    Has(st, s) && st.pcs[s].Adding? && (s, st.pcs[s].page) in st.leaves &&
    st.leaves[(s, st.pcs[s].page)].frame < |st.refs|
  }

  /** fork_cow, one leaf: add_ref. */
  ghost function ForkCounted(st: State, s: Space): State
    requires ForkCountOk(st, s)
  {
    var pc := st.pcs[s];
    var f := st.leaves[(s, pc.page)].frame;
    st.(refs := st.refs[f := st.refs[f] + 1], pcs := st.pcs[s := Forking(pc.child, pc.todo)])
  }

  ghost predicate ForkEndOk(st: State, s: Space, child: Space) {
    Has(st, s) && st.pcs[s].Forking? && st.pcs[s].todo == {} && st.pcs[s].child == child
  }

  ghost function ForkEnded(st: State, s: Space, child: Space): State
    requires ForkEndOk(st, s, child)
  {
    st.(pcs := st.pcs[s := Idle][child := Idle])
  }

  /** new_table fails inside fork_cow: the child tables built so far are simply abandoned. */
  ghost predicate ForkFailOk(st: State, s: Space) {
    Has(st, s) && st.pcs[s].Forking?
  }

  ghost function ForkFailed(st: State, s: Space): State
    requires ForkFailOk(st, s)
  {
    st.(pcs := st.pcs[s := Idle][st.pcs[s].child := Phantom])
  }

  ghost predicate ExitOk(st: State, s: Space) {
    Has(st, s) && st.pcs[s].Idle?
  }

  ghost function Exited(st: State, s: Space): State
    requires ExitOk(st, s)
  {
    st.(pcs := st.pcs[s := Tearing])
  }

  ghost predicate TearEndOk(st: State, s: Space) {
    Has(st, s) && st.pcs[s].Tearing? && forall k | k in st.leaves :: k.0 != s
  }

  ghost function TornDown(st: State, s: Space): State
    requires TearEndOk(st, s)
  {
    st.(pcs := st.pcs - {s})
  }

  /** Page tables and other kernel frames come from the same bitmap. */
  ghost function KernelTook(st: State, target: Frame): State
    requires IsFree(st, target)
  {
    st.(used := st.used + {target}, kernel := st.kernel + {target})
  }

  ghost function KernelGave(st: State, frame: Frame): State
    requires frame in st.kernel
  {
    st.(used := st.used - {frame}, kernel := st.kernel - {frame})
  }

  ghost predicate Enabled(st: State, step: Step) {
    match step
    case Spawn(s) => NewSpaceOk(st, s)
    case MapFresh(s, page, target, _, _, _) => MapOk(st, s, page, target)
    case Store(s, page, off, _) => StoreOk(st, s, page, off)
    case Fault(s, page) => FaultTaken(st, s, page)
    case ReadCount(s) => ReadCountOk(st, s)
    case Restore(s) => RestoreOk(st, s)
    case Fetch(s, target) => FetchOk(st, s, target)
    case OutOfFrames(s) => StarvedOk(st, s)
    case Copy(s) => CopyOk(st, s)
    case Rewrite(s) => RewriteOk(st, s)
    case LoadCount(s) => LoadOk(st, s) || RetryOk(st, s)
    case LowerCount(s) => LowerOk(st, s)
    case FreeFrame(s) => FreeOk(st, s)
    case Unmap(s, page) => UnmapOk(st, s, page, Resume)
    case ForkBegin(s, child) => ForkBeginOk(st, s, child)
    case ForkPage(s, page) => ForkPageOk(st, s, page)
    case ForkCount(s) => ForkCountOk(st, s)
    case ForkEnd(s, child) => ForkEndOk(st, s, child)
    case ForkFail(s) => ForkFailOk(st, s)
    case Exit(s) => ExitOk(st, s)
    case TearPage(s, page) => UnmapOk(st, s, page, Teardown)
    case TearEnd(s) => TearEndOk(st, s)
    case KernelAlloc(target) => IsFree(st, target)
    case KernelFree(frame) => frame in st.kernel
  }

  /** The state after one step of the code. */
  ghost function Apply(st: State, step: Step): State
    requires Enabled(st, step)
  {
    match step
    case Spawn(s) => Spawned(st, s)
    case MapFresh(s, page, target, bytes, writable, user) => MappedFresh(st, s, page, target, bytes, writable, user)
    case Store(s, page, off, value) => Stored(st, s, page, off, value)
    case Fault(s, page) => AfterFault(st, s, page)
    case ReadCount(s) => AfterReadCount(st, s)
    case Restore(s) => Restored(st, s)
    case Fetch(s, target) => AfterFetch(st, s, target)
    case OutOfFrames(s) => Starved(st, s)
    case Copy(s) => AfterCopy(st, s)
    case Rewrite(s) => Rewritten(st, s)
    case LoadCount(s) => AfterLoad(st, s)
    case LowerCount(s) => Lowered(st, s)
    case FreeFrame(s) => Freed(st, s)
    case Unmap(s, page) => Unmapped(st, s, page, Resume)
    case ForkBegin(s, child) => ForkBegun(st, s, child)
    case ForkPage(s, page) => ForkedPage(st, s, page)
    case ForkCount(s) => ForkCounted(st, s)
    case ForkEnd(s, child) => ForkEnded(st, s, child)
    case ForkFail(s) => ForkFailed(st, s)
    case Exit(s) => Exited(st, s)
    case TearPage(s, page) => Unmapped(st, s, page, Teardown)
    case TearEnd(s) => TornDown(st, s)
    case KernelAlloc(target) => KernelTook(st, target)
    case KernelFree(frame) => KernelGave(st, frame)
  }

  // -------------------------------------------------------------------------
  // The share-count invariant
  // -------------------------------------------------------------------------

  /** The one child entry that fork has written but not counted yet. */
  predicate Uncounted(st: State, k: Key) {
    PcOf(st, k.0).Embryo? &&
    var pc := PcOf(st, st.pcs[k.0].parent);
    pc.Adding? && pc.child == k.0 && pc.page == k.1
  }

  predicate Drops(pc: Pc, f: Frame) {
    (pc.Dropping? || pc.Seen?) && pc.frame == f
  }

  /** Entries mapping `f` that the count knows about. */
  ghost function Mapped(st: State, f: Frame): set<Key> {
    set k | k in st.leaves && st.leaves[k].frame == f && !Uncounted(st, k)
  }

  /** Spaces that are inside `release(f)`. */
  ghost function InFlight(st: State, f: Frame): set<Space> {
    set s | s in st.pcs && Drops(st.pcs[s], f)
  }

  ghost function Owners(st: State, f: Frame): nat {
    |Mapped(st, f)| + |InFlight(st, f)|
  }

  predicate Holds(pc: Pc, f: Frame) {
    (pc.Fetched? || pc.Copied?) && pc.target == f
  }

  ghost predicate Shape(st: State) {
    && |st.mem| == |st.refs|
    && st.kernel <= st.used
    && (forall f | f in st.used :: f < |st.refs|)
    && (forall k | k in st.leaves :: Has(st, k.0) && st.leaves[k].frame in st.used - st.kernel)
    && (forall k | k in st.leaves :: st.leaves[k].cow ==> st.leaves[k].user && !st.leaves[k].writable)
  }

  ghost predicate CountsMatch(st: State) {
    forall f: Frame | f < |st.refs| ::
      if Owners(st, f) > 0 then f in st.used - st.kernel && st.refs[f] + 1 == Owners(st, f)
      else st.refs[f] == 0
  }

  /** A frame that ring 3 can write through one entry has no other entry and no release under way. */
  ghost predicate WritersAlone(st: State) {
    && (forall k, l | k in st.leaves && l in st.leaves && Writer(st.leaves[k]) &&
                      st.leaves[k].frame == st.leaves[l].frame :: k == l)
    && (forall k, s | k in st.leaves && Writer(st.leaves[k]) && s in st.pcs ::
          !Drops(st.pcs[s], st.leaves[k].frame))
  }

  ghost predicate PrivateTo(st: State, s: Space, f: Frame) {
    && f in st.used - st.kernel && Owners(st, f) == 0
    && (forall k | k in st.leaves :: st.leaves[k].frame != f)
    && (forall t | t in st.pcs && t != s :: !Holds(st.pcs[t], f))
  }

  /** A frame fetched by a fault handler belongs to that handler alone. */
  ghost predicate HeldAlone(st: State) {
    forall s, f: Frame | s in st.pcs && Holds(st.pcs[s], f) :: PrivateTo(st, s, f)
  }

  ghost predicate NoLeak(st: State) {
    forall f | f in st.used - st.kernel ::
      Owners(st, f) > 0 || exists s :: s in st.pcs && Holds(st.pcs[s], f)
  }

  ghost predicate FaultOk(st: State, s: Space, page: Page, entry: Leaf) {
    (s, page) in st.leaves && st.leaves[(s, page)] == entry && entry.cow && !entry.writable && entry.user
  }

  /** The child tables hold exactly the pages already walked, entry for entry. */
  ghost predicate ForkOk(st: State, s: Space, child: Space, todo: set<Page>) {
    && Has(st, child) && st.pcs[child] == Embryo(s)
    && (forall page :: (child, page) in st.leaves <==> (s, page) in st.leaves && page !in todo)
    && (forall page | (child, page) in st.leaves ::
          st.leaves[(child, page)] == st.leaves[(s, page)] && !Writer(st.leaves[(s, page)]))
    && (forall page | page in todo :: (s, page) in st.leaves)
  }

  ghost predicate PcOk(st: State, s: Space)
    requires Has(st, s)
  {
    match st.pcs[s]
    case Faulted(page, entry) => FaultOk(st, s, page, entry)
    case Sole(page, entry) => FaultOk(st, s, page, entry) && Mapped(st, entry.frame) == {(s, page)} &&
                              InFlight(st, entry.frame) == {}
    case Shared(page, entry) => FaultOk(st, s, page, entry)
    case Fetched(page, entry, _) => FaultOk(st, s, page, entry)
    case Copied(page, entry, target) =>
      FaultOk(st, s, page, entry) && target < |st.mem| && entry.frame < |st.mem| &&
      st.mem[target] == st.mem[entry.frame]
    case Dropping(f, _) => f < |st.refs|
    case Seen(f, count, _) =>
      f < |st.refs| && (count == 0 ==> Mapped(st, f) == {} && InFlight(st, f) == {s})
    case Forking(child, todo) => ForkOk(st, s, child, todo)
    case Adding(child, todo, page) => ForkOk(st, s, child, todo) && (child, page) in st.leaves
    case Embryo(parent) =>
      Has(st, parent) && (st.pcs[parent].Forking? || st.pcs[parent].Adding?) && st.pcs[parent].child == s
    case _ => true
  }

  ghost predicate PcsOk(st: State) {
    forall s | s in st.pcs :: PcOk(st, s)
  }

  ghost predicate Inv(st: State) {
    Shape(st) && CountsMatch(st) && WritersAlone(st) && HeldAlone(st) && NoLeak(st) && PcsOk(st)
  }
}
