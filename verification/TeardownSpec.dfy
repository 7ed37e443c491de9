/** What free_all does to counts and bitmap, one release at a time. */
module TeardownSpec {
  import opened Frames
  import opened PageTableSpec
  import opened ForkSpec

  predicate BeforeIn(n: Node, i: nat, k: Node) {
    k.root == n.root && Before(n.path, i, k)
  }

  /** `owned` is `all` without the pages under the first `i` entries of table `n`. */
  ghost predicate PagesGone(all: map<Node, Entry>, owned: map<Node, Entry>, n: Node, i: nat) {
    && (forall k | k in owned :: k in all && owned[k] == all[k] && !BeforeIn(n, i, k))
    && (forall k | k in all && !BeforeIn(n, i, k) :: k in owned)
  }

  /** `gone` is `before` with the tables under the first `i` entries of table `n`. */
  ghost predicate TablesGone(pos: map<nat, Node>, before: set<nat>, gone: set<nat>, n: Node, i: nat) {
    forall f :: f in gone <==> f in before || (f in pos && BeforeIn(n, i, pos[f]))
  }

  /** The bitmap during a teardown: tables in `gone` and pages that lost their last owner are free,
      everything else is as it was. */
  ghost predicate UsedWhile(was: seq<bool>, now: seq<bool>, all: map<Node, Entry>, owned: map<Node, Entry>,
                            gone: set<nat>)
  {
    |now| == |was| && forall f: nat | f < |was| ::
      now[f] == (was[f] && f !in gone && (OwnersOf(all, f) != {} ==> OwnersOf(owned, f) != {}))
  }

  lemma ReleaseStep(was: seq<bool>, now: seq<bool>, refs: seq<nat>, all: map<Node, Entry>, owned: map<Node, Entry>,
                    gone: set<nat>, k: Node)
    requires Counted(owned, refs) && UsedWhile(was, now, all, owned, gone) && |refs| == |was|
    requires k in owned && k in all && all[k] == owned[k] && owned[k].frame < |refs|
    ensures var f := owned[k].frame; var owned' := owned - {k};
      && (refs[f] == 0 ==> Counted(owned', refs) && UsedWhile(was, now[f := false], all, owned', gone))
      && (refs[f] > 0 ==> Counted(owned', refs[f := refs[f] - 1]) && UsedWhile(was, now, all, owned', gone))
  {
    var f := owned[k].frame;
    DropOwner(owned, k);
    assert k in OwnersOf(owned, f) && k in OwnersOf(all, f);
    assert |OwnersOf(owned - {k}, f)| == refs[f];
    assert refs[f] == 0 <==> OwnersOf(owned - {k}, f) == {};
  }

  lemma FreeTableStep(was: seq<bool>, now: seq<bool>, all: map<Node, Entry>, owned: map<Node, Entry>,
                      gone: set<nat>, f: nat)
    requires UsedWhile(was, now, all, owned, gone) && f < |was|
    ensures UsedWhile(was, now[f := false], all, owned, gone + {f})
  {
  }

  lemma PagesGoneStart(all: map<Node, Entry>, n: Node)
    ensures PagesGone(all, all, n, 0)
  {
  }

  /** One more entry: everything under the child table went. */
  lemma PagesGoneStep(all: map<Node, Entry>, mid: map<Node, Entry>, now: map<Node, Entry>, n: Node, i: nat, fan: nat)
    requires PagesGone(all, mid, n, i) && PagesGone(mid, now, Child(n, i), fan)
    requires forall k | k in all && Under(Child(n, i), k) :: Before(n.path + [i], fan, k)
    ensures PagesGone(all, now, n, i + 1)
  {
    forall k: Node ensures BeforeIn(n, i + 1, k) <==> BeforeIn(n, i, k) || Under(Child(n, i), k) {
      UnderChild(n, i, k);
    }
  }

  /** One more entry that held a page, or nothing. */
  lemma PagesGoneLeaf(all: map<Node, Entry>, mid: map<Node, Entry>, now: map<Node, Entry>, n: Node, i: nat)
    requires PagesGone(all, mid, n, i) && (forall k | k in all :: |k.path| == 4)
    requires now == mid || (|n.path| == 3 && now == mid - {Child(n, i)})
    requires forall k | k in now :: !Under(Child(n, i), k)
    ensures PagesGone(all, now, n, i + 1)
  {
    forall k: Node ensures BeforeIn(n, i + 1, k) <==> BeforeIn(n, i, k) || Under(Child(n, i), k) {
      UnderChild(n, i, k);
    }
    forall k | k in all && !BeforeIn(n, i + 1, k) ensures k in now {
      assert k != Child(n, i) || Under(Child(n, i), k);
    }
  }

  lemma TablesGoneStep(pos: map<nat, Node>, before: set<nat>, mid: set<nat>, now: set<nat>, n: Node, i: nat,
                       fan: nat, c: nat)
    requires TablesGone(pos, before, mid, n, i) && TablesGone(pos, mid, now, Child(n, i), fan)
    requires c in pos && pos[c] == Child(n, i)
    requires forall f, g | f in pos && g in pos && pos[f] == pos[g] :: f == g
    requires forall f | f in pos && Under(Child(n, i), pos[f]) && f != c :: Before(n.path + [i], fan, pos[f])
    ensures TablesGone(pos, before, now + {c}, n, i + 1)
  {
    forall k: Node ensures BeforeIn(n, i + 1, k) <==> BeforeIn(n, i, k) || Under(Child(n, i), k) {
      UnderChild(n, i, k);
    }
  }

  lemma TablesGoneSkip(pos: map<nat, Node>, before: set<nat>, mid: set<nat>, n: Node, i: nat)
    requires TablesGone(pos, before, mid, n, i)
    requires forall f | f in pos :: !Under(Child(n, i), pos[f])
    ensures TablesGone(pos, before, mid, n, i + 1)
  {
    forall k: Node ensures BeforeIn(n, i + 1, k) <==> BeforeIn(n, i, k) || Under(Child(n, i), k) {
      UnderChild(n, i, k);
    }
  }

  ghost function TablesWithout(at: map<Node, nat>, root: nat): map<Node, nat> {
    map m | m in at && m.root != root :: at[m]
  }

  ghost function PlacesWithout(pos: map<nat, Node>, root: nat): map<nat, Node> {
    map t | t in pos && pos[t].root != root :: pos[t]
  }

  ghost function PagesWithout(leaves: map<Node, Entry>, root: nat): map<Node, Entry> {
    map k | k in leaves && k.root != root :: leaves[k]
  }

  /** A table frame of the space that teardown gives back. */
  predicate Returned(pos: map<nat, Node>, root: nat, keepRoot: bool, f: nat) {
    f in pos && pos[f].root == root && !(keepRoot && f == root)
  }

  /** The bitmap after a teardown: exactly the tables of the space and the pages that lost their last
      owner are free. */
  ghost predicate UsedAfter(was: seq<bool>, now: seq<bool>, pos: map<nat, Node>, all: map<Node, Entry>, root: nat,
                            keepRoot: bool)
  {
    |now| == |was| && forall f: nat | f < |was| ::
      now[f] == (was[f] && !Returned(pos, root, keepRoot, f) &&
                 (OwnersOf(all, f) != {} ==> OwnersOf(PagesWithout(all, root), f) != {}))
  }

  /** Forgetting one space leaves the trees of the others. */
  lemma WithoutRoot(w: seq<Row>, used: seq<bool>, at: map<Node, nat>, pos: map<nat, Node>, leaves: map<Node, Entry>,
                    kernelRoot: nat, root: nat)
    requires Wf(w, used, at, pos, leaves, kernelRoot)
    ensures Wf(w, used, TablesWithout(at, root), PlacesWithout(pos, root), PagesWithout(leaves, root), kernelRoot)
  {
    var at', leaves' := TablesWithout(at, root), PagesWithout(leaves, root);
    forall n, i: nat | n in at' && i < Fan(n.path) ensures LinkOk(w, at', leaves', n, i) {
      assert LinkOk(w, at, leaves, n, i);
    }
  }

  /** Frames that stop being used must be neither tables nor mapped. */
  lemma WfShrink(w: seq<Row>, was: seq<bool>, now: seq<bool>, at: map<Node, nat>, pos: map<nat, Node>,
                 leaves: map<Node, Entry>, kernelRoot: nat, all: map<Node, Entry>, gone: set<nat>)
    requires Wf(w, was, at, pos, leaves, kernelRoot) && UsedWhile(was, now, all, leaves, gone)
    requires forall f | f in gone :: f !in pos && f != kernelRoot && OwnersOf(leaves, f) == {}
    requires forall k | k in all :: all[k].frame !in pos && all[k].frame != kernelRoot
    ensures Wf(w, now, at, pos, leaves, kernelRoot)
  {
    forall t | t in pos ensures now[t] {
      assert OwnersOf(all, t) == {} by {
        forall k | k in OwnersOf(all, t) ensures false {}
      }
    }
    assert now[kernelRoot] by {
      forall k | k in OwnersOf(all, kernelRoot) ensures false {}
      assert OwnersOf(all, kernelRoot) == {};
    }
    forall m | m in leaves ensures IsData(now, pos, kernelRoot, leaves[m].frame) {
      assert m in OwnersOf(leaves, leaves[m].frame);
    }
  }
}
