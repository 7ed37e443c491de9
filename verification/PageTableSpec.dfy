/** Four-level page tables as values: what it means for the words in memory to form one tree per
    address space, and for that tree to implement a partial map from pages to entries. */
module PageTableSpec {
  import opened Frames

  datatype Entry = Entry(present: bool, writable: bool, user: bool, huge: bool, cow: bool, noExec: bool, frame: nat)

  const EMPTY: Entry := Entry(false, false, false, false, false, false, 0)
  const ENTRIES: nat := 512
  const USER_ENTRIES: nat := 256

  /** One 4 KiB frame read as page-table words. */
  type Row = seq<Entry>
  type Path = seq<nat>

  /** A table (path of length 0 to 3) or a page (path of length 4) of the space rooted at `root`. */
  datatype Node = Node(root: nat, path: Path)

  function DirEntry(frame: nat): Entry {
    Entry(true, true, true, false, false, false, frame)
  }

  function Fan(path: Path): nat {
    if path == [] then USER_ENTRIES else ENTRIES
  }

  function Child(n: Node, i: nat): Node {
    Node(n.root, n.path + [i])
  }

  predicate Under(n: Node, m: Node) {
    m.root == n.root && n.path <= m.path
  }

  lemma UnderChild(n: Node, i: nat, m: Node)
    ensures Under(Child(n, i), m) <==> Under(n, m) && |m.path| > |n.path| && m.path[|n.path|] == i
  {
    if Under(n, m) && |m.path| > |n.path| && m.path[|n.path|] == i {
      assert m.path[..|n.path| + 1] == n.path + [i];
    }
    if Under(Child(n, i), m) {
      assert m.path[..|n.path| + 1][..|n.path|] == m.path[..|n.path|];
      assert m.path[|n.path|] == (n.path + [i])[|n.path|];
    }
  }

  /** Where the tables are: `at` finds the frame of a table, `pos` the table in a frame. */
  ghost predicate Inverse(at: map<Node, nat>, pos: map<nat, Node>) {
    && (forall n | n in at :: at[n] in pos && pos[at[n]] == n)
    && (forall t | t in pos :: pos[t] in at && at[pos[t]] == t)
  }

  ghost predicate Shaped(w: seq<Row>, at: map<Node, nat>) {
    && (forall t | 0 <= t < |w| :: |w[t]| == ENTRIES)
    && (forall n | n in at :: at[n] < |w| && |n.path| <= 3 && Node(n.root, []) in at)
    && (forall n | n in at && n.path == [] :: at[n] == n.root)
    && (forall n, i: nat | Child(n, i) in at :: n in at && i < Fan(n.path))
  }

  ghost predicate LinkOk(w: seq<Row>, at: map<Node, nat>, leaves: map<Node, Entry>, n: Node, i: nat)
    requires n in at && at[n] < |w| && i < |w[at[n]]|
  {
    var e := w[at[n]][i];
    if |n.path| < 3 then (e.present <==> Child(n, i) in at) && (e.present ==> e.frame == at[Child(n, i)] && !e.huge)
    else (e.present <==> Child(n, i) in leaves) && (e.present ==> leaves[Child(n, i)] == e)
  }

  ghost predicate LeavesOk(pos: map<nat, Node>, at: map<Node, nat>, leaves: map<Node, Entry>) {
    && (forall m | m in leaves :: |m.path| == 4 && leaves[m].present && leaves[m].frame !in pos)
    && (forall n, i: nat | Child(n, i) in leaves :: n in at && i < ENTRIES)
  }

  /** The words form one tree per root, and the trees implement `leaves`. */
  ghost predicate Tree(w: seq<Row>, at: map<Node, nat>, pos: map<nat, Node>, leaves: map<Node, Entry>) {
    && Inverse(at, pos) && Shaped(w, at) && LeavesOk(pos, at, leaves)
    && (forall n, i: nat | n in at && i < Fan(n.path) :: LinkOk(w, at, leaves, n, i))
  }

  // -------------------------------------------------------------------------
  // Walking
  // -------------------------------------------------------------------------

  /** The entry a hardware walk ends at, huge pages aside. */
  function Walk(w: seq<Row>, root: nat, q: Path): Option<Entry>
    requires |q| == 4 && forall k | 0 <= k < 4 :: q[k] < ENTRIES
    requires forall t | 0 <= t < |w| :: |w[t]| == ENTRIES
  {
    if root >= |w| then None else
    var e4 := w[root][q[0]];
    if !e4.present || e4.frame >= |w| then None else
    var e3 := w[e4.frame][q[1]];
    if !e3.present || e3.frame >= |w| then None else
    var e2 := w[e3.frame][q[2]];
    if !e2.present || e2.frame >= |w| then None else
    var e1 := w[e2.frame][q[3]];
    if e1.present then Some(e1) else None
  }

  predicate UserPath(q: Path) {
    |q| == 4 && q[0] < USER_ENTRIES && q[1] < ENTRIES && q[2] < ENTRIES && q[3] < ENTRIES
  }

  /** The tables above a page, found one level at a time. */
  lemma PathNodes(root: nat, q: Path)
    requires |q| == 4
    ensures Child(Node(root, []), q[0]) == Node(root, [q[0]])
    ensures Child(Node(root, [q[0]]), q[1]) == Node(root, [q[0], q[1]])
    ensures Child(Node(root, [q[0], q[1]]), q[2]) == Node(root, [q[0], q[1], q[2]])
    ensures Child(Node(root, [q[0], q[1], q[2]]), q[3]) == Node(root, q)
  {
    assert [q[0], q[1], q[2]] + [q[3]] == q;
  }

  /** A walk finds exactly the mapped entry. */
  lemma WalkIsLookup(w: seq<Row>, at: map<Node, nat>, pos: map<nat, Node>, leaves: map<Node, Entry>, root: nat, q: Path)
    requires Tree(w, at, pos, leaves) && Node(root, []) in at && UserPath(q)
    ensures Walk(w, root, q) == if Node(root, q) in leaves then Some(leaves[Node(root, q)]) else None
  {
    PathNodes(root, q);
    var n3, n2, n1 := Node(root, [q[0]]), Node(root, [q[0], q[1]]), Node(root, [q[0], q[1], q[2]]);
    assert LinkOk(w, at, leaves, Node(root, []), q[0]);
    if n3 in at {
      assert LinkOk(w, at, leaves, n3, q[1]);
      if n2 in at {
        assert LinkOk(w, at, leaves, n2, q[2]);
        if n1 in at {
          assert LinkOk(w, at, leaves, n1, q[3]);
        }
      }
    }
    MappedHasTables(w, at, pos, leaves, root, q);
  }

  lemma MappedHasTables(w: seq<Row>, at: map<Node, nat>, pos: map<nat, Node>, leaves: map<Node, Entry>, root: nat, q: Path)
    requires Tree(w, at, pos, leaves) && UserPath(q)
    ensures Node(root, q) in leaves ==> Node(root, [q[0], q[1], q[2]]) in at
    ensures Node(root, [q[0], q[1], q[2]]) in at ==> Node(root, [q[0], q[1]]) in at
    ensures Node(root, [q[0], q[1]]) in at ==> Node(root, [q[0]]) in at
  {
    PathNodes(root, q);
    assert Child(Node(root, [q[0], q[1], q[2]]), q[3]) == Node(root, q);
    assert Child(Node(root, [q[0], q[1]]), q[2]) == Node(root, [q[0], q[1], q[2]]);
    assert Child(Node(root, [q[0]]), q[1]) == Node(root, [q[0], q[1]]);
  }

  // -------------------------------------------------------------------------
  // Writing one word
  // -------------------------------------------------------------------------

  ghost function SetLeaf(leaves: map<Node, Entry>, m: Node, e: Entry): map<Node, Entry> {
    if e.present then leaves[m := e] else leaves - {m}
  }

  /** Writing a word of a last-level table updates the map at one page. */
  lemma WriteLeaf(w: seq<Row>, at: map<Node, nat>, pos: map<nat, Node>, leaves: map<Node, Entry>, n: Node, i: nat, e: Entry)
    requires Tree(w, at, pos, leaves) && n in at && |n.path| == 3 && i < ENTRIES
    requires e.present ==> e.frame !in pos
    ensures Tree(w[at[n] := w[at[n]][i := e]], at, pos, SetLeaf(leaves, Child(n, i), e))
  {
    var t := at[n];
    var w' := w[t := w[t][i := e]];
    var leaves' := SetLeaf(leaves, Child(n, i), e);
    assert Shaped(w', at);
    forall m, j: nat | Child(m, j) in leaves' ensures m in at && j < ENTRIES {
      if Child(m, j) == Child(n, i) {
        assert (n.path + [i])[..|n.path|] == n.path && (m.path + [j])[..|m.path|] == m.path;
        assert (n.path + [i])[|n.path|] == i && (m.path + [j])[|m.path|] == j;
      } else {
        assert Child(m, j) in leaves;
      }
    }
    forall m, j: nat | m in at && j < Fan(m.path) ensures LinkOk(w', at, leaves', m, j) {
      assert LinkOk(w, at, leaves, m, j);
      if Child(m, j) == Child(n, i) {
        assert (n.path + [i])[..|n.path|] == n.path && (m.path + [j])[..|m.path|] == m.path;
        assert (n.path + [i])[|n.path|] == i && (m.path + [j])[|m.path|] == j;
      }
    }
  }

  ghost predicate Blank(row: Row) {
    |row| == ENTRIES && forall i | 0 <= i < ENTRIES :: !row[i].present
  }

  /** Linking a zeroed frame as a new table leaves the map as it was. */
  lemma LinkTable(w: seq<Row>, at: map<Node, nat>, pos: map<nat, Node>, leaves: map<Node, Entry>, n: Node, i: nat, f: nat)
    requires Tree(w, at, pos, leaves) && n in at && |n.path| < 3 && i < Fan(n.path)
    requires f < |w| && f !in pos && Blank(w[f]) && !w[at[n]][i].present
    requires forall m | m in leaves :: leaves[m].frame != f
    ensures f != at[n]
    ensures Tree(w[at[n] := w[at[n]][i := DirEntry(f)]], at[Child(n, i) := f], pos[f := Child(n, i)], leaves)
  {
    var w' := w[at[n] := w[at[n]][i := DirEntry(f)]];
    var c := Child(n, i);
    var at', pos' := at[c := f], pos[f := c];
    assert LinkOk(w, at, leaves, n, i);
    assert c !in at;
    assert (n.path + [i])[..|n.path|] == n.path && (n.path + [i])[|n.path|] == i;
    assert Inverse(at', pos');
    forall m, j: nat | Child(m, j) in at' ensures m in at' && j < Fan(m.path) {
      if Child(m, j) == c {
        assert (m.path + [j])[..|m.path|] == m.path && (m.path + [j])[|m.path|] == j;
      } else {
        assert Child(m, j) in at;
      }
    }
    assert Shaped(w', at');
    forall m, j: nat | m in at' && j < Fan(m.path) ensures LinkOk(w', at', leaves, m, j) {
      if m == c {
        NoLinkBelow(w, at, pos, leaves, c, j);
      } else {
        assert LinkOk(w, at, leaves, m, j);
        if Child(m, j) == c {
          assert (m.path + [j])[..|m.path|] == m.path && (m.path + [j])[|m.path|] == j;
        }
      }
    }
  }

  /** Below a missing table there is neither a table nor a page. */
  lemma NoLinkBelow(w: seq<Row>, at: map<Node, nat>, pos: map<nat, Node>, leaves: map<Node, Entry>, c: Node, j: nat)
    requires Tree(w, at, pos, leaves) && c !in at
    ensures Child(c, j) !in at && Child(c, j) !in leaves
  {
  }

  /** A zeroed root starts an empty space. */
  lemma LinkRoot(w: seq<Row>, at: map<Node, nat>, pos: map<nat, Node>, leaves: map<Node, Entry>, f: nat, row: Row)
    requires Tree(w, at, pos, leaves)
    requires f < |w| && f !in pos && |row| == ENTRIES && forall i | 0 <= i < USER_ENTRIES :: !row[i].present
    requires forall m | m in leaves :: leaves[m].frame != f
    ensures Node(f, []) !in at
    ensures Tree(w[f := row], at[Node(f, []) := f], pos[f := Node(f, [])], leaves)
  {
    var r := Node(f, []);
    var w', at', pos' := w[f := row], at[r := f], pos[f := r];
    assert r !in at;
    forall m, j: nat | Child(m, j) in at' ensures m in at' && j < Fan(m.path) {
      assert Child(m, j) != r;
      assert Child(m, j) in at;
    }
    assert Shaped(w', at');
    forall m, j: nat | m in at' && j < Fan(m.path) ensures LinkOk(w', at', leaves, m, j) {
      assert Child(m, j) != r;
      if m == r {
        NoLinkBelow(w, at, pos, leaves, r, j);
      } else {
        assert LinkOk(w, at, leaves, m, j);
      }
    }
  }

  /** Rewriting a frame that is no table changes nothing. */
  lemma WriteElsewhere(w: seq<Row>, at: map<Node, nat>, pos: map<nat, Node>, leaves: map<Node, Entry>, f: nat, row: Row)
    requires Tree(w, at, pos, leaves) && f < |w| && f !in pos && |row| == ENTRIES
    ensures Tree(w[f := row], at, pos, leaves)
  {
    var w' := w[f := row];
    forall n, i: nat | n in at && i < Fan(n.path) ensures LinkOk(w', at, leaves, n, i) {
      assert LinkOk(w, at, leaves, n, i);
    }
  }

  // -------------------------------------------------------------------------
  // Share counts of the whole machine, at rest
  // -------------------------------------------------------------------------

  ghost function OwnersOf(leaves: map<Node, Entry>, f: nat): set<Node> {
    set m | m in leaves && leaves[m].frame == f
  }

  /** ref == N means N + 1 owners; a frame nobody maps has count 0. */
  ghost predicate Counted(leaves: map<Node, Entry>, refs: seq<nat>) {
    forall f: nat | f < |refs| ::
      if OwnersOf(leaves, f) == {} then refs[f] == 0 else refs[f] + 1 == |OwnersOf(leaves, f)|
  }

  lemma AddOwner(leaves: map<Node, Entry>, refs: seq<nat>, m: Node, e: Entry, f: nat)
    requires m !in leaves && e.frame == f
    ensures OwnersOf(leaves[m := e], f) == OwnersOf(leaves, f) + {m}
    ensures forall g | g != f :: OwnersOf(leaves[m := e], g) == OwnersOf(leaves, g)
  {
  }

  lemma SameOwnerFlags(leaves: map<Node, Entry>, m: Node, e: Entry)
    requires m in leaves && e.frame == leaves[m].frame
    ensures forall f :: OwnersOf(leaves[m := e], f) == OwnersOf(leaves, f)
  {
  }

  lemma DropOwner(leaves: map<Node, Entry>, m: Node)
    requires m in leaves
    ensures OwnersOf(leaves - {m}, leaves[m].frame) == OwnersOf(leaves, leaves[m].frame) - {m}
    ensures forall g | g != leaves[m].frame :: OwnersOf(leaves - {m}, g) == OwnersOf(leaves, g)
  {
  }

  // -------------------------------------------------------------------------
  // The machine: tables, bitmap and map together
  // -------------------------------------------------------------------------

  /** A frame that holds a page: taken, and neither a table nor the kernel's root. */
  predicate IsData(used: seq<bool>, pos: map<nat, Node>, kernelRoot: nat, f: nat) {
    f < |used| && used[f] && f !in pos && f != kernelRoot
  }

  ghost predicate Wf(w: seq<Row>, used: seq<bool>, at: map<Node, nat>, pos: map<nat, Node>,
                     leaves: map<Node, Entry>, kernelRoot: nat)
  {
    && |w| == |used| && Tree(w, at, pos, leaves)
    && kernelRoot < |used| && used[kernelRoot] && kernelRoot !in pos
    && (forall t | t in pos :: t < |used| && used[t])
    && (forall m | m in leaves :: IsData(used, pos, kernelRoot, leaves[m].frame))
  }

  /** Taking a free frame and overwriting it disturbs nothing. */
  lemma WfTake(w: seq<Row>, used: seq<bool>, at: map<Node, nat>, pos: map<nat, Node>, leaves: map<Node, Entry>,
               kernelRoot: nat, f: nat, row: Row)
    requires Wf(w, used, at, pos, leaves, kernelRoot) && f < |used| && !used[f] && |row| == ENTRIES
    ensures Wf(w[f := row], used[f := true], at, pos, leaves, kernelRoot)
    ensures f !in pos && f != kernelRoot && forall m | m in leaves :: leaves[m].frame != f
  {
    WriteElsewhere(w, at, pos, leaves, f, row);
  }

  /** Taking a free frame for data. */
  lemma WfTakeData(w: seq<Row>, used: seq<bool>, at: map<Node, nat>, pos: map<nat, Node>, leaves: map<Node, Entry>,
                   kernelRoot: nat, f: nat)
    requires Wf(w, used, at, pos, leaves, kernelRoot) && f < |used| && !used[f]
    ensures Wf(w, used[f := true], at, pos, leaves, kernelRoot)
    ensures IsData(used[f := true], pos, kernelRoot, f) && OwnersOf(leaves, f) == {}
  {
    WfTake(w, used, at, pos, leaves, kernelRoot, f, w[f]);
    assert w[f := w[f]] == w;
  }

  /** Giving back a frame that nobody maps and that is no table. */
  lemma WfGive(w: seq<Row>, used: seq<bool>, at: map<Node, nat>, pos: map<nat, Node>, leaves: map<Node, Entry>,
               kernelRoot: nat, f: nat)
    requires Wf(w, used, at, pos, leaves, kernelRoot) && f < |used| && f !in pos && f != kernelRoot
    requires OwnersOf(leaves, f) == {}
    ensures Wf(w, used[f := false], at, pos, leaves, kernelRoot)
  {
    forall m | m in leaves ensures leaves[m].frame != f {
      assert m !in OwnersOf(leaves, f);
    }
  }

  lemma WfLinkTable(w: seq<Row>, used: seq<bool>, at: map<Node, nat>, pos: map<nat, Node>, leaves: map<Node, Entry>,
                    kernelRoot: nat, n: Node, i: nat, f: nat)
    requires Wf(w, used, at, pos, leaves, kernelRoot)
    requires n in at && |n.path| < 3 && i < Fan(n.path) && f < |w| && used[f] && f !in pos && f != kernelRoot
    requires Blank(w[f]) && !w[at[n]][i].present && forall m | m in leaves :: leaves[m].frame != f
    ensures Child(n, i) !in at
    ensures Wf(w[at[n] := w[at[n]][i := DirEntry(f)]], used, at[Child(n, i) := f], pos[f := Child(n, i)], leaves,
               kernelRoot)
  {
    assert LinkOk(w, at, leaves, n, i);
    LinkTable(w, at, pos, leaves, n, i, f);
  }

  lemma WfLinkRoot(w: seq<Row>, used: seq<bool>, at: map<Node, nat>, pos: map<nat, Node>, leaves: map<Node, Entry>,
                   kernelRoot: nat, f: nat, row: Row)
    requires Wf(w, used, at, pos, leaves, kernelRoot)
    requires f < |w| && used[f] && f !in pos && f != kernelRoot && |row| == ENTRIES
    requires forall i | 0 <= i < USER_ENTRIES :: !row[i].present
    requires forall m | m in leaves :: leaves[m].frame != f
    ensures Node(f, []) !in at
    ensures Wf(w[f := row], used, at[Node(f, []) := f], pos[f := Node(f, [])], leaves, kernelRoot)
    ensures forall i: nat :: Child(Node(f, []), i) !in at[Node(f, []) := f]
    ensures forall k | k in leaves :: !Under(Node(f, []), k)
  {
    LinkRoot(w, at, pos, leaves, f, row);
    NothingBelow(w, at, pos, leaves, Node(f, []));
    forall i: nat ensures Child(Node(f, []), i) !in at && Child(Node(f, []), i) != Node(f, []) {}
  }

  lemma WfWriteLeaf(w: seq<Row>, used: seq<bool>, at: map<Node, nat>, pos: map<nat, Node>, leaves: map<Node, Entry>,
                    kernelRoot: nat, n: Node, i: nat, e: Entry)
    requires Wf(w, used, at, pos, leaves, kernelRoot) && n in at && |n.path| == 3 && i < ENTRIES
    requires e.present ==> IsData(used, pos, kernelRoot, e.frame)
    ensures Wf(w[at[n] := w[at[n]][i := e]], used, at, pos, SetLeaf(leaves, Child(n, i), e), kernelRoot)
  {
    WriteLeaf(w, at, pos, leaves, n, i, e);
  }

  /** Tables were only added, in the space of `root`, on frames that were free, and nothing else was taken. */
  ghost predicate Grown(root: nat, used: seq<bool>, used': seq<bool>, at: map<Node, nat>, at': map<Node, nat>,
                        pos: map<nat, Node>, pos': map<nat, Node>)
  {
    && |used| == |used'|
    && (forall f | 0 <= f < |used| && used[f] :: used'[f])
    && (forall n | n in at :: n in at' && at'[n] == at[n])
    && (forall n | n in at' && n !in at :: n.root == root)
    && (forall t | t in pos' && t !in pos :: t < |used| && !used[t])
    && (forall t | t in pos :: t in pos' && pos'[t] == pos[t])
    && (forall f | 0 <= f < |used| && used'[f] && !used[f] :: f in pos')
  }

  lemma GrownOne(used: seq<bool>, at: map<Node, nat>, pos: map<nat, Node>, n: Node, f: nat)
    requires f < |used| && !used[f] && n !in at && f !in pos
    ensures Grown(n.root, used, used[f := true], at, at[n := f], pos, pos[f := n])
  {
  }

  lemma GrownTrans(root: nat, u0: seq<bool>, u1: seq<bool>, u2: seq<bool>, a0: map<Node, nat>, a1: map<Node, nat>,
                   a2: map<Node, nat>, p0: map<nat, Node>, p1: map<nat, Node>, p2: map<nat, Node>)
    requires Grown(root, u0, u1, a0, a1, p0, p1) && Grown(root, u1, u2, a1, a2, p1, p2)
    ensures Grown(root, u0, u2, a0, a2, p0, p2)
  {
  }

  /** Every table on the way to a mapped page exists, and every index on the way is in range. */
  lemma LeafTables(w: seq<Row>, at: map<Node, nat>, pos: map<nat, Node>, leaves: map<Node, Entry>, k: Node, d: nat)
    requires Tree(w, at, pos, leaves) && k in leaves && d <= 3
    ensures |k.path| == 4 && Node(k.root, k.path[..d]) in at && k.path[d] < Fan(k.path[..d])
    decreases 3 - d
  {
    var n := Node(k.root, k.path[..d]);
    assert k.path[..d] + [k.path[d]] == k.path[..d + 1];
    if d == 3 {
      assert k.path[..4] == k.path;
      assert Child(n, k.path[3]) == k;
    } else {
      LeafTables(w, at, pos, leaves, k, d + 1);
      assert Child(n, k.path[d]) in at;
    }
  }

  /** No page is mapped below a table that does not exist. */
  lemma NothingBelow(w: seq<Row>, at: map<Node, nat>, pos: map<nat, Node>, leaves: map<Node, Entry>, c: Node)
    requires Tree(w, at, pos, leaves) && c !in at && |c.path| <= 3
    ensures forall k | k in leaves :: !Under(c, k)
  {
    forall k | k in leaves ensures !Under(c, k) {
      LeafTables(w, at, pos, leaves, k, |c.path|);
      var above := k.path[..|c.path|];
      assert c.path <= k.path <==> above == c.path;
    }
  }

  /** Likewise for tables. */
  lemma TableTables(w: seq<Row>, at: map<Node, nat>, k: Node, d: nat)
    requires Shaped(w, at) && k in at && d < |k.path|
    ensures Node(k.root, k.path[..d]) in at && k.path[d] < Fan(k.path[..d])
    decreases |k.path| - d
  {
    var n := Node(k.root, k.path[..d]);
    assert k.path[..d] + [k.path[d]] == k.path[..d + 1];
    if d + 1 == |k.path| {
      assert k.path[..d + 1] == k.path;
      assert Child(n, k.path[d]) == k;
    } else {
      TableTables(w, at, k, d + 1);
      assert Child(n, k.path[d]) in at;
    }
  }

  /** No table lies below a table that does not exist. */
  lemma NoTablesBelow(w: seq<Row>, at: map<Node, nat>, c: Node)
    requires Shaped(w, at) && c !in at
    ensures forall k | k in at :: !Under(c, k)
  {
    forall k | k in at ensures !Under(c, k) {
      if c.path <= k.path && |c.path| < |k.path| {
        TableTables(w, at, k, |c.path|);
      }
      assert c.path <= k.path && |c.path| == |k.path| ==> c.path == k.path;
      assert c.path <= k.path ==> k.path[..|c.path|] == c.path;
    }
  }
}
