/** What every part of an interrupt keeps: who runs where, names, pins, the idle homes, and the life of address
    spaces.  Inside a step the CPU that took the interrupt is open: its current task may have stopped running. */
module SchedInvariant {
  import opened Frames
  import opened SchedSpec

  // -------------------------------------------------------------------------
  // The invariant
  // -------------------------------------------------------------------------

  ghost predicate PidsOk(tasks: seq<Task>, nextPid: nat) {
    && (forall i | 0 <= i < |tasks| && !tasks[i].state.Dead? :: 0 < tasks[i].pid < nextPid)
    && (forall i, j | 0 <= i < j < |tasks| && !tasks[i].state.Dead? && !tasks[j].state.Dead? :: tasks[i].pid != tasks[j].pid)
  }

  predicate PinOk(x: Task, c: nat) {
    x.pinned.None? || x.pinned.value == c
  }

  /** A Running task is current on the CPU it names. */
  ghost predicate RunningOk(tasks: seq<Task>, cur: seq<nat>) {
    forall i | 0 <= i < |tasks| && tasks[i].state.Running? ::
      tasks[i].onCpu.Some? && tasks[i].onCpu.value < |cur| && cur[tasks[i].onCpu.value] == i
  }

  predicate Runs(tasks: seq<Task>, cur: seq<nat>, c: nat)
    requires c < |cur|
  {
    cur[c] < |tasks| && tasks[cur[c]].state.Running? && tasks[cur[c]].onCpu == Some(c) && PinOk(tasks[cur[c]], c)
  }

  /** The current task of an open CPU. */
  predicate Open(tasks: seq<Task>, cur: seq<nat>, c: nat)
    requires c < |cur|
  {
    && cur[c] < |tasks| && !tasks[cur[c]].state.Dead? && PinOk(tasks[cur[c]], c)
    && (tasks[cur[c]].onCpu == Some(c) || tasks[cur[c]].state.Zombie?)
  }

  /** The resident idle task of each CPU is there and ready to run. */
  predicate IsHome(x: Task, c: nat) {
    x.isIdle && !x.isUser && x.pinned == Some(c) && (x.state.Ready? || x.state.Running?)
  }

  /** No process exit ever marks a resident idle task. */
  ghost predicate IdlesOk(tasks: seq<Task>) {
    forall i | 0 <= i < |tasks| && tasks[i].isIdle && !tasks[i].isUser :: !tasks[i].dieFlag
  }

  /** There are no resident idle tasks but the one of each CPU. */
  ghost predicate OnlyHomes(tasks: seq<Task>, home: seq<nat>) {
    forall i: nat | i < |tasks| && tasks[i].isIdle && !tasks[i].isUser :: i in home
  }

  ghost predicate HomesOk(tasks: seq<Task>, home: seq<nat>, cpus: nat) {
    IdlesOk(tasks) && OnlyHomes(tasks, home) && |home| == cpus && forall c | 0 <= c < cpus :: home[c] < |tasks| && IsHome(tasks[home[c]], c)
  }

  /** Everything but the open CPU is as it is between steps. */
  ghost predicate Mid(tasks: seq<Task>, cur: seq<nat>, home: seq<nat>, nextPid: nat, cpu: nat) {
    && |tasks| == MAX_TASKS && cpu < |cur| && PidsOk(tasks, nextPid) && RunningOk(tasks, cur)
    && HomesOk(tasks, home, |cur|) && Open(tasks, cur, cpu)
    && (forall c | 0 <= c < |cur| && c != cpu :: Runs(tasks, cur, c))
  }

  predicate Held(tasks: seq<Task>, space: nat) {
    exists i | 0 <= i < |tasks| :: tasks[i].space == Some(space)
  }

  ghost predicate NoGhosts(tasks: seq<Task>) {
    forall i | 0 <= i < |tasks| && (tasks[i].state.Zombie? || tasks[i].state.Dead?) :: tasks[i].space.None?
  }

  /** Every space ever installed is held by a task, or was destroyed exactly once; never both. */
  ghost predicate SpacesOk(t: Table, nextSpace: nat) {
    NoGhosts(t.tasks) && forall a: nat ::
      if a < nextSpace then t.gone[a] == (if Held(t.tasks, a) then 0 else 1) else !Held(t.tasks, a) && t.gone[a] == 0
  }

  // -------------------------------------------------------------------------
  // Changes that keep the scheduling part
  // -------------------------------------------------------------------------

  predicate Alert(x: Task) {
    x.state.Ready? || x.state.Running?
  }

  /** A slot changed without starting to run; a slot other than `me` did not stop running either. */
  predicate Fine(x: Task, y: Task, isMe: bool) {
    && y.pid == x.pid && y.pinned == x.pinned && y.isIdle == x.isIdle && y.isUser == x.isUser
    && (y.state.Running? ==> x.state.Running?) && (!isMe && x.state.Running? ==> y.state.Running?)
    && (!isMe && x.state.Ready? ==> y.state.Ready? || y.state.Zombie?)
    && (y.onCpu == x.onCpu || y.state.Zombie?) && (x.state.Zombie? ==> y.state.Zombie?)
    && (y.state.Dead? <==> x.state.Dead?)
    && (x.isIdle && !x.isUser && Alert(x) ==> Alert(y)) && (x.isIdle && !x.isUser ==> y.dieFlag == x.dieFlag)
  }

  /** A slot was freed: it did not run, was not the current task, and was no idle home. */
  predicate FreedOk(x: Task, y: Task, isMe: bool) {
    y.state.Dead? && !y.isIdle && !isMe && !x.state.Running? && !(x.isIdle && !x.isUser && Alert(x))
  }

  ghost predicate Keeps(tasks: seq<Task>, tasks': seq<Task>, me: nat) {
    |tasks'| == |tasks| && forall i | 0 <= i < |tasks| ::
      Fine(tasks[i], tasks'[i], i == me) || FreedOk(tasks[i], tasks'[i], i == me)
  }

  lemma KeepsMid(tasks: seq<Task>, tasks': seq<Task>, cur: seq<nat>, home: seq<nat>, nextPid: nat, cpu: nat)
    requires Mid(tasks, cur, home, nextPid, cpu) && Keeps(tasks, tasks', cur[cpu])
    ensures Mid(tasks', cur, home, nextPid, cpu)
  {
    forall c | 0 <= c < |cur| && c != cpu ensures Runs(tasks', cur, c) && cur[c] != cur[cpu] {
      assert Runs(tasks, cur, c);
    }
    forall c | 0 <= c < |cur| ensures home[c] < |tasks'| && IsHome(tasks'[home[c]], c) {
      assert IsHome(tasks[home[c]], c);
    }
    forall i | 0 <= i < |tasks'| && tasks'[i].isIdle && !tasks'[i].isUser ensures !tasks'[i].dieFlag {
      assert Fine(tasks[i], tasks'[i], i == cur[cpu]) || FreedOk(tasks[i], tasks'[i], i == cur[cpu]);
    }
  }

  lemma KeepsTrans(a: seq<Task>, b: seq<Task>, c: seq<Task>, me: nat)
    requires Keeps(a, b, me) && Keeps(b, c, me)
    ensures Keeps(a, c, me)
  {
    forall i | 0 <= i < |a| ensures Fine(a[i], c[i], i == me) || FreedOk(a[i], c[i], i == me) {
      assert Fine(a[i], b[i], i == me) || FreedOk(a[i], b[i], i == me);
      assert Fine(b[i], c[i], i == me) || FreedOk(b[i], c[i], i == me);
    }
  }

  lemma KeepsPut(tasks: seq<Task>, i: nat, y: Task, me: nat)
    requires i < |tasks| && (Fine(tasks[i], y, i == me) || FreedOk(tasks[i], y, i == me))
    ensures Keeps(tasks, tasks[i := y], me)
  {
  }

  // --- spaces -----------------------------------------------------------------

  lemma SpacesSame(t: Table, tasks': seq<Task>, nextSpace: nat)
    requires SpacesOk(t, nextSpace) && |tasks'| == |t.tasks| && NoGhosts(tasks')
    requires forall i | 0 <= i < |tasks'| :: tasks'[i].space == t.tasks[i].space
    ensures SpacesOk(t.(tasks := tasks'), nextSpace)
  {
    forall a: nat ensures Held(tasks', a) <==> Held(t.tasks, a) {
      if Held(tasks', a) {
        var i :| 0 <= i < |tasks'| && tasks'[i].space == Some(a);
        assert t.tasks[i].space == Some(a);
      }
      if Held(t.tasks, a) {
        var i :| 0 <= i < |t.tasks| && t.tasks[i].space == Some(a);
        assert tasks'[i].space == Some(a);
      }
    }
  }

  /** Dropping a reference destroys the space exactly when nobody else holds it. */
  lemma SpacesDrop(t: Table, i: nat, nextSpace: nat)
    requires SpacesOk(t, nextSpace) && i < |t.tasks|
    ensures SpacesOk(DropSpace(t, i), nextSpace)
  {
    var t' := DropSpace(t, i);
    var x := t.tasks[i].space;
    forall a: nat ensures Held(t'.tasks, a) <==> Held(t.tasks, a) && !(x == Some(a) && LastHolder(t.tasks, i)) {
      if Held(t'.tasks, a) {
        var j :| 0 <= j < |t'.tasks| && t'.tasks[j].space == Some(a);
        assert j != i && t.tasks[j].space == Some(a);
      }
      if Held(t.tasks, a) && !(x == Some(a) && LastHolder(t.tasks, i)) {
        var j :| 0 <= j < |t.tasks| && t.tasks[j].space == Some(a);
        if j == i {
          var k :| 0 <= k < |t.tasks| && k != i && t.tasks[k].space == x;
          assert t'.tasks[k].space == Some(a);
        } else {
          assert t'.tasks[j].space == Some(a);
        }
      }
    }
    forall a: nat ensures if a < nextSpace then t'.gone[a] == (if Held(t'.tasks, a) then 0 else 1)
                          else !Held(t'.tasks, a) && t'.gone[a] == 0
    {
      assert x == Some(a) ==> Held(t.tasks, a);
    }
  }
}
