/** What fork_cow does to the map of pages, as a function of the map before. */
module ForkSpec {
  import opened Frames
  import opened PageTableSpec

  function Get(leaves: map<Node, Entry>, k: Node): Option<Entry> {
    if k in leaves then Some(leaves[k]) else None
  }

  /** A page ring 3 can write becomes read-only and copy-on-write; any other entry is kept. */
  function Downgrade(e: Entry): Entry {
    if e.user && e.writable then e.(writable := false, cow := true) else e
  }

  function Downgraded(e: Option<Entry>): Option<Entry> {
    if e.Some? then Some(Downgrade(e.value)) else None
  }

  /** Page `k` lies under one of the first `i` entries of the table at path `p`. */
  predicate Before(p: Path, i: nat, k: Node) {
    p <= k.path && |k.path| > |p| && k.path[|p|] < i
  }

  /** Page `k` after the first `i` entries of table `p` of `parent` were shared with `child`. */
  function SharedUpTo(was: map<Node, Entry>, parent: nat, child: nat, p: Path, i: nat, k: Node): Option<Entry> {
    if Before(p, i, k) && (k.root == parent || k.root == child) then Downgraded(Get(was, Node(parent, k.path)))
    else Get(was, k)
  }

  ghost predicate IsSharedUpTo(was: map<Node, Entry>, now: map<Node, Entry>, parent: nat, child: nat, p: Path, i: nat) {
    forall k: Node :: Get(now, k) == SharedUpTo(was, parent, child, p, i, k)
  }

  /** The whole subtree at `p` was shared. */
  ghost predicate IsShared(was: map<Node, Entry>, now: map<Node, Entry>, parent: nat, child: nat, p: Path) {
    forall k: Node :: Get(now, k) ==
      if p <= k.path && (k.root == parent || k.root == child) then Downgraded(Get(was, Node(parent, k.path)))
      else Get(was, k)
  }

  /** The page at `q` is as it was in both spaces, or shared in both. */
  ghost predicate BothOrNeither(was: map<Node, Entry>, now: map<Node, Entry>, parent: nat, child: nat, q: Path) {
    var k, m, e := Node(parent, q), Node(child, q), Downgraded(Get(was, Node(parent, q)));
    (Get(now, k) == Get(was, k) && Get(now, m) == None) || (Get(now, k) == e && Get(now, m) == e)
  }

  /** Fork ran out of frames somewhere under `p`: each page was either shared or left as it was. */
  ghost predicate IsPartlyShared(was: map<Node, Entry>, now: map<Node, Entry>, parent: nat, child: nat, p: Path) {
    && (forall q | p <= q :: BothOrNeither(was, now, parent, child, q))
    && (forall k: Node | !(p <= k.path) || (k.root != parent && k.root != child) :: Get(now, k) == Get(was, k))
  }

  ghost predicate NothingUnder(leaves: map<Node, Entry>, n: Node) {
    forall k | k in leaves :: !Under(n, k)
  }

  lemma SharedNone(was: map<Node, Entry>, parent: nat, child: nat, p: Path)
    ensures IsSharedUpTo(was, was, parent, child, p, 0)
  {
  }

  /** One more subtree. */
  lemma SharedStep(was: map<Node, Entry>, mid: map<Node, Entry>, now: map<Node, Entry>,
                   parent: nat, child: nat, p: Path, i: nat)
    requires parent != child
    requires IsSharedUpTo(was, mid, parent, child, p, i)
    requires IsShared(mid, now, parent, child, p + [i])
    ensures IsSharedUpTo(was, now, parent, child, p, i + 1)
  {
    forall k: Node ensures Get(now, k) == SharedUpTo(was, parent, child, p, i + 1, k) {
      UnderChild(Node(k.root, p), i, k);
      var j := Node(parent, k.path);
      assert Get(mid, k) == SharedUpTo(was, parent, child, p, i, k);
      assert Get(mid, j) == SharedUpTo(was, parent, child, p, i, j);
    }
  }

  /** Nothing below in either space: sharing is the identity. */
  lemma SharedNothing(was: map<Node, Entry>, parent: nat, child: nat, p: Path)
    requires NothingUnder(was, Node(parent, p)) && NothingUnder(was, Node(child, p))
    ensures IsShared(was, was, parent, child, p)
  {
    forall k: Node | p <= k.path && (k.root == parent || k.root == child)
      ensures k !in was && Node(parent, k.path) !in was
    {
      assert Under(Node(k.root, p), k) && Under(Node(parent, p), Node(parent, k.path));
    }
  }

  /** A single page. */
  lemma SharedPage(was: map<Node, Entry>, parent: nat, child: nat, q: Path, e: Entry)
    requires parent != child && |q| == 4 && (forall k | k in was :: |k.path| == 4)
    requires Get(was, Node(parent, q)) == Some(e)
    ensures IsShared(was, was[Node(parent, q) := Downgrade(e)][Node(child, q) := Downgrade(e)], parent, child, q)
  {
    var now := was[Node(parent, q) := Downgrade(e)][Node(child, q) := Downgrade(e)];
    forall k: Node | q <= k.path && (k.root == parent || k.root == child)
      ensures Get(now, k) == Downgraded(Get(was, Node(parent, k.path)))
    {
      if |k.path| == 4 {
        assert k.path == q;
      }
    }
  }

  lemma PartlyNothing(was: map<Node, Entry>, parent: nat, child: nat, p: Path)
    requires NothingUnder(was, Node(child, p))
    ensures IsPartlyShared(was, was, parent, child, p)
  {
    forall q | p <= q ensures BothOrNeither(was, was, parent, child, q) {
      assert Node(child, q) in was ==> !Under(Node(child, p), Node(child, q));
    }
  }

  /** What the loop at `p` still finds empty in the child. */
  lemma ChildStillEmpty(was: map<Node, Entry>, mid: map<Node, Entry>, parent: nat, child: nat, p: Path, i: nat)
    requires parent != child && NothingUnder(was, Node(child, p))
    requires IsSharedUpTo(was, mid, parent, child, p, i)
    ensures NothingUnder(mid, Node(child, p + [i]))
  {
    forall k | k in mid ensures !Under(Node(child, p + [i]), k) {
      UnderChild(Node(child, p), i, k);
      assert Get(mid, k) == SharedUpTo(was, parent, child, p, i, k);
      if Under(Node(child, p), k) {
        assert Get(was, k) == None;
      }
    }
  }

  /** All entries done: the subtree is shared. */
  lemma SharedAll(was: map<Node, Entry>, now: map<Node, Entry>, parent: nat, child: nat, p: Path, fan: nat)
    requires IsSharedUpTo(was, now, parent, child, p, fan)
    requires forall k | k in was && p <= k.path :: Before(p, fan, k)
    ensures IsShared(was, now, parent, child, p)
  {
  }

  lemma PartlyStep(was: map<Node, Entry>, mid: map<Node, Entry>, now: map<Node, Entry>,
                   parent: nat, child: nat, p: Path, i: nat)
    requires parent != child && NothingUnder(was, Node(child, p))
    requires IsSharedUpTo(was, mid, parent, child, p, i)
    requires IsPartlyShared(mid, now, parent, child, p + [i])
    ensures IsPartlyShared(was, now, parent, child, p)
  {
    forall q | p <= q ensures BothOrNeither(was, now, parent, child, q) {
      var k, m := Node(parent, q), Node(child, q);
      UnderChild(Node(parent, p), i, k);
      assert Get(mid, k) == SharedUpTo(was, parent, child, p, i, k);
      assert Get(mid, m) == SharedUpTo(was, parent, child, p, i, m);
      assert Get(was, m) == None by {
        assert m in was ==> !Under(Node(child, p), m);
      }
      if p + [i] <= q {
        assert BothOrNeither(mid, now, parent, child, q);
      }
    }
    forall k: Node | !(p <= k.path) || (k.root != parent && k.root != child) ensures Get(now, k) == Get(was, k) {
      UnderChild(Node(k.root, p), i, k);
      assert Get(mid, k) == SharedUpTo(was, parent, child, p, i, k);
    }
  }

  /** Counting one more owner of a page that already has one. */
  lemma CountedShare(leaves: map<Node, Entry>, refs: seq<nat>, k: Node, m: Node, e: Entry)
    requires Counted(leaves, refs) && k in leaves && m !in leaves && e.frame == leaves[k].frame && e.frame < |refs|
    ensures Counted(leaves[m := e], refs[e.frame := refs[e.frame] + 1])
  {
    AddOwner(leaves, refs, m, e, e.frame);
    assert k in OwnersOf(leaves, e.frame);
  }

  /** Changing flags moves no share. */
  lemma CountedFlags(leaves: map<Node, Entry>, refs: seq<nat>, k: Node, e: Entry)
    requires Counted(leaves, refs) && k in leaves && e.frame == leaves[k].frame
    ensures Counted(leaves[k := e], refs)
  {
    SameOwnerFlags(leaves, k, e);
  }

  /** Both writes of one leaf of fork, and the count. */
  lemma CountedFork(leaves: map<Node, Entry>, refs: seq<nat>, k: Node, m: Node, e: Entry)
    requires Counted(leaves, refs) && k in leaves && m !in leaves && e.frame == leaves[k].frame && e.frame < |refs|
    ensures Counted(leaves[k := e][m := e], refs[e.frame := refs[e.frame] + 1])
  {
    SameOwnerFlags(leaves, k, e);
    CountedShare(leaves[k := e], refs, k, m, e);
  }

  /** A handler moves one owner to a private frame and takes its share off the old one. */
  lemma CountedMove(leaves: map<Node, Entry>, refs: seq<nat>, m: Node, e: Entry)
    requires Counted(leaves, refs) && m in leaves && leaves[m].frame < |refs| && e.frame < |refs|
    requires refs[leaves[m].frame] > 0 && OwnersOf(leaves, e.frame) == {}
    ensures Counted(leaves[m := e], refs[leaves[m].frame := refs[leaves[m].frame] - 1])
  {
    var f, f' := leaves[m].frame, e.frame;
    var leaves' := leaves[m := e];
    assert m in OwnersOf(leaves, f);
    assert m !in OwnersOf(leaves, f');
    assert OwnersOf(leaves', f) == OwnersOf(leaves, f) - {m};
    assert OwnersOf(leaves', f') == {m};
    forall g | g != f && g != f' ensures OwnersOf(leaves', g) == OwnersOf(leaves, g) {}
    assert refs[f'] == 0;
  }

  /** A count of 0 means the entry is alone. */
  lemma ZeroIsAlone(leaves: map<Node, Entry>, refs: seq<nat>, m: Node)
    requires Counted(leaves, refs) && m in leaves && leaves[m].frame < |refs|
    ensures refs[leaves[m].frame] == 0 <==> OwnersOf(leaves, leaves[m].frame) == {m}
  {
    var owners := OwnersOf(leaves, leaves[m].frame);
    assert m in owners;
    assert owners == {m} + (owners - {m});
  }
}
