/** Each part of an interrupt keeps the open invariant and the life of address spaces. */
module SchedParts {
  import opened Frames
  import opened SchedSpec
  import opened SchedInvariant

  predicate Resident(x: Task) {
    x.isIdle && !x.isUser
  }

  /** The table after a part: scheduling facts of `tasks` kept, spaces still in order. */
  ghost predicate Kept(t: Table, t': Table, me: nat, nextSpace: nat) {
    Keeps(t.tasks, t'.tasks, me) && SpacesOk(t', nextSpace)
  }

  lemma KeptTrans(a: Table, b: Table, c: Table, me: nat, nextSpace: nat)
    requires Kept(a, b, me, nextSpace) && Kept(b, c, me, nextSpace)
    ensures Kept(a, c, me, nextSpace)
  {
    KeepsTrans(a.tasks, b.tasks, c.tasks, me);
  }

  lemma KeptSelf(t: Table, me: nat, nextSpace: nat)
    requires SpacesOk(t, nextSpace)
    ensures Kept(t, t, me, nextSpace)
  {
  }

  /** One slot changed, its space reference did not. */
  lemma KeptPut(t: Table, i: nat, y: Task, me: nat, nextSpace: nat)
    requires SpacesOk(t, nextSpace) && i < |t.tasks| && y.space == t.tasks[i].space
    requires Fine(t.tasks[i], y, i == me) || (FreedOk(t.tasks[i], y, i == me) && y.space.None?)
    requires y.state.Zombie? ==> y.space.None?
    ensures Kept(t, Put(t, i, y), me, nextSpace)
  {
    KeepsPut(t.tasks, i, y, me);
    SpacesSame(t, t.tasks[i := y], nextSpace);
  }

  lemma KeptDrop(t: Table, i: nat, me: nat, nextSpace: nat)
    requires SpacesOk(t, nextSpace) && i < |t.tasks|
    ensures Kept(t, DropSpace(t, i), me, nextSpace)
  {
    SpacesDrop(t, i, nextSpace);
    KeepsPut(t.tasks, i, t.tasks[i].(space := None), me);
  }

  // --- ending -----------------------------------------------------------------

  lemma {:induction false} WakeParentKept(t: Table, from: nat, parent: nat, pid: nat, code: int, me: nat, nextSpace: nat)
    requires SpacesOk(t, nextSpace)
    ensures Kept(t, t.(tasks := WakeParent(t.tasks, from, parent, pid, code)), me, nextSpace)
    decreases |t.tasks| - from
  {
    if from < |t.tasks| {
      if WaitsFor(t.tasks[from], parent, pid) {
        KeptPut(t, from, Delivered(t.tasks[from], code).(waitTarget := 0), me, nextSpace);
      } else {
        WakeParentKept(t, from + 1, parent, pid, code, me, nextSpace);
      }
    }
  }

  lemma {:induction false} WakeJoinerKept(t: Table, from: nat, tgid: nat, pid: nat, code: int, me: nat, nextSpace: nat)
    requires SpacesOk(t, nextSpace)
    ensures Kept(t, t.(tasks := WakeJoiner(t.tasks, from, tgid, pid, code)), me, nextSpace)
    decreases |t.tasks| - from
  {
    if from < |t.tasks| {
      if JoinsFor(t.tasks[from], tgid, pid) {
        KeptPut(t, from, Delivered(t.tasks[from], code).(joinTarget := 0), me, nextSpace);
      } else {
        WakeJoinerKept(t, from + 1, tgid, pid, code, me, nextSpace);
      }
    }
  }

  /** A task that may be ended here: the current one, or one that is not running; never a resident idle. */
  predicate MayEnd(x: Task, isMe: bool) {
    !x.state.Dead? && !Resident(x) && (isMe || !x.state.Running?)
  }

  lemma FinishKept(t: Table, i: nat, code: int, me: nat, nextSpace: nat)
    requires SpacesOk(t, nextSpace) && i < |t.tasks| && MayEnd(t.tasks[i], i == me)
    ensures Kept(t, Finish(t, i, code), me, nextSpace) && Finish(t, i, code).tasks[i].state.Zombie?
  {
    var x, t1, z := t.tasks[i], DropSpace(t, i), Zombied(t, i, code);
    KeptDrop(t, i, me, nextSpace);
    KeptPut(t1, i, t1.tasks[i].(exitCode := code, state := Zombie, onCpu := None), me, nextSpace);
    KeptTrans(t, t1, z, me, nextSpace);
    WakeParentKept(z, 0, x.parent, x.pid, code, me, nextSpace);
    WakeJoinerKept(z, 0, x.tgid, x.pid, code, me, nextSpace);
    KeptTrans(t, z, Finish(t, i, code), me, nextSpace);
    assert Fine(z.tasks[i], Finish(t, i, code).tasks[i], i == me) || FreedOk(z.tasks[i], Finish(t, i, code).tasks[i], i == me);
    WakeLeaves(z.tasks, 0, x.parent, x.tgid, x.pid, code, i);
  }

  lemma {:induction false} WakeLeaves(tasks: seq<Task>, from: nat, parent: nat, tgid: nat, pid: nat, code: int, i: nat)
    requires i < |tasks| && tasks[i].state.Zombie?
    ensures WakeParent(tasks, from, parent, pid, code)[i] == tasks[i] && WakeJoiner(tasks, from, tgid, pid, code)[i] == tasks[i]
    decreases |tasks| - from
  {
    if from < |tasks| {
      WakeLeaves(tasks, from + 1, parent, tgid, pid, code, i);
    }
  }

  lemma {:induction false} SweepKept(t: Table, me: nat, tgid: nat, from: nat, nextSpace: nat)
    requires SpacesOk(t, nextSpace) && me < |t.tasks|
    ensures Kept(t, Sweep(t, me, tgid, from), me, nextSpace)
    ensures Sweep(t, me, tgid, from).tasks[me].isUser == t.tasks[me].isUser
    decreases |t.tasks| - from
  {
    if from < |t.tasks| {
      var x := t.tasks[from];
      if from == me || x.state.Dead? || x.state.Zombie? || !x.isUser || x.tgid != tgid {
        SweepKept(t, me, tgid, from + 1, nextSpace);
      } else if x.state.Running? {
        KeptPut(t, from, x.(dieFlag := true), me, nextSpace);
        SweepKept(Put(t, from, x.(dieFlag := true)), me, tgid, from + 1, nextSpace);
        KeptTrans(t, Put(t, from, x.(dieFlag := true)), Sweep(t, me, tgid, from), me, nextSpace);
      } else {
        FinishKept(t, from, THREAD_KILLED_CODE, me, nextSpace);
        SweepKept(Finish(t, from, THREAD_KILLED_CODE), me, tgid, from + 1, nextSpace);
        KeptTrans(t, Finish(t, from, THREAD_KILLED_CODE), Sweep(t, me, tgid, from), me, nextSpace);
        assert Fine(t.tasks[me], Finish(t, from, THREAD_KILLED_CODE).tasks[me], true) ||
               FreedOk(t.tasks[me], Finish(t, from, THREAD_KILLED_CODE).tasks[me], true);
      }
    }
  }

  lemma ExitKept(t: Table, me: nat, code: int, nextSpace: nat)
    requires SpacesOk(t, nextSpace) && me < |t.tasks| && MayEnd(t.tasks[me], true)
    ensures Kept(t, ExitProcess(t, me, code), me, nextSpace) && Kept(t, ExitThread(t, me, code), me, nextSpace)
    ensures ExitProcess(t, me, code).tasks[me].state.Zombie?
  {
    var swept := if t.tasks[me].isUser then Sweep(t, me, t.tasks[me].tgid, 0) else t;
    SweepKept(t, me, t.tasks[me].tgid, 0, nextSpace);
    KeptSelf(t, me, nextSpace);
    assert Fine(t.tasks[me], swept.tasks[me], true) || FreedOk(t.tasks[me], swept.tasks[me], true);
    FinishKept(swept, me, code, me, nextSpace);
    KeptTrans(t, swept, ExitProcess(t, me, code), me, nextSpace);
    FinishKept(t, me, code, me, nextSpace);
  }

  lemma FreedKept(t: Table, i: nat, me: nat, nextSpace: nat)
    requires SpacesOk(t, nextSpace) && i < |t.tasks| && i != me && t.tasks[i].space.None?
    requires !t.tasks[i].state.Running? && (Resident(t.tasks[i]) ==> !Alert(t.tasks[i]))
    ensures Kept(t, Freed(t, i), me, nextSpace)
  {
    KeptPut(t, i, DEAD, me, nextSpace);
  }

  /** The name belongs to no resident idle task that is off its CPU; kill refuses the running ones itself. */
  predicate SparesIdle(tasks: seq<Task>, pid: nat) {
    forall i | 0 <= i < |tasks| && !tasks[i].state.Dead? && !tasks[i].state.Running? && tasks[i].pid == pid ::
      !Resident(tasks[i])
  }

  lemma KillKept(t: Table, me: nat, pid: nat, nextSpace: nat)
    requires SpacesOk(t, nextSpace) && me < |t.tasks| && SparesIdle(t.tasks, pid)
    ensures Kept(t, Kill(t, me, pid), me, nextSpace)
  {
    KeptSelf(t, me, nextSpace);
    if pid != t.tasks[me].pid {
      var i := FindPid(t.tasks, 0, pid);
      if i.Some? && !t.tasks[i.value].state.Running? {
        KeptDrop(t, i.value, me, nextSpace);
        if t.tasks[i.value].state.Zombie? {
          FreedKept(t, i.value, me, nextSpace);
        } else {
          var d := DropSpace(t, i.value);
          FreedKept(d, i.value, me, nextSpace);
          KeptTrans(t, d, Freed(d, i.value), me, nextSpace);
        }
      }
    }
  }

  // --- waking and waiting -------------------------------------------------------

  lemma SignalKept(t: Table, me: nat, pid: nat, sig: nat, nextSpace: nat)
    requires SpacesOk(t, nextSpace) && me < |t.tasks|
    ensures Kept(t, Signal(t, me, pid, sig), me, nextSpace)
  {
    KeptSelf(t, me, nextSpace);
    if sig < NSIG && pid != t.tasks[me].pid {
      var i := FindPid(t.tasks, 0, pid);
      if i.Some? && t.tasks[i.value].isUser && !t.tasks[i.value].state.Zombie? {
        var x := t.tasks[i.value];
        KeptPut(t, i.value, x.(pending := x.pending + {sig}, state := if Parked(x.state) then Ready else x.state), me, nextSpace);
      }
    }
  }

  lemma WakeWaiterKept(t: Table, waiter: nat, parkedIn: RunState, me: nat, nextSpace: nat)
    requires SpacesOk(t, nextSpace) && ParkState(parkedIn)
    ensures Kept(t, WakeWaiter(t, waiter, parkedIn), me, nextSpace)
  {
    KeptSelf(t, me, nextSpace);
    if waiter != 0 && waiter - 1 < |t.tasks| && t.tasks[waiter - 1].state == parkedIn {
      KeptPut(t, waiter - 1, t.tasks[waiter - 1].(state := Ready), me, nextSpace);
    }
  }

  lemma WaitKept(t: Table, me: nat, target: nat, mailbox: bool, nextSpace: nat)
    requires SpacesOk(t, nextSpace) && me < |t.tasks| && t.tasks[me].state.Running? && !Resident(t.tasks[me])
    ensures Kept(t, Wait(t, me, target, mailbox), me, nextSpace) && Kept(t, Join(t, me, target, mailbox), me, nextSpace)
  {
    KeptSelf(t, me, nextSpace);
    var x := t.tasks[me];
    KeptPut(t, me, x.(waitTarget := target, state := WaitingChild), me, nextSpace);
    KeptPut(t, me, x.(joinTarget := target, state := BlockedJoin), me, nextSpace);
    var z := FirstSiblingDone(t.tasks, 0, x.tgid, x.pid, target);
    if z.Some? {
      FreedKept(t, z.value, me, nextSpace);
    }
  }

  lemma SleepersKept(t: Table, now: nat, me: nat, nextSpace: nat)
    requires SpacesOk(t, nextSpace)
    ensures Kept(t, t.(tasks := WakeSleepers(t.tasks, now)), me, nextSpace)
  {
    SpacesSame(t, WakeSleepers(t.tasks, now), nextSpace);
  }

  lemma {:induction false} GiveKeyKept(t: Table, from: nat, key: Option<int>, me: nat, nextSpace: nat)
    requires SpacesOk(t, nextSpace)
    ensures Kept(t, t.(tasks := GiveKey(t.tasks, from, key)), me, nextSpace)
    decreases |t.tasks| - from
  {
    if from < |t.tasks| {
      if t.tasks[from].state.BlockedInput? {
        if key.Some? {
          KeptPut(t, from, Delivered(t.tasks[from], key.value), me, nextSpace);
        }
      } else {
        GiveKeyKept(t, from + 1, key, me, nextSpace);
      }
    }
  }

  lemma TimerKept(t: Table, me: nat, now: nat, key: Option<int>, nextSpace: nat)
    requires SpacesOk(t, nextSpace) && me < |t.tasks|
    ensures Kept(t, TimerDuties(t, me, now, key), me, nextSpace)
  {
    var t1 := t.(tasks := WakeSleepers(t.tasks, now));
    var t2 := t1.(tasks := GiveKey(t1.tasks, 0, key));
    SleepersKept(t, now, me, nextSpace);
    GiveKeyKept(t1, 0, key, me, nextSpace);
    KeptTrans(t, t1, t2, me, nextSpace);
    KeptSelf(t2, me, nextSpace);
    if Preempts(t2, me) {
      KeptPut(t2, me, t2.tasks[me].(state := Ready), me, nextSpace);
    }
    KeptTrans(t, t2, TimerDuties(t, me, now, key), me, nextSpace);
  }

  // --- the switching core -----------------------------------------------------------

  lemma ReapKept(t: Table, me: nat, nextSpace: nat)
    requires SpacesOk(t, nextSpace) && me < |t.tasks|
    ensures Kept(t, Reap(t, me), me, nextSpace)
  {
    SpacesSame(t, Reap(t, me).tasks, nextSpace);
  }

  lemma DeliverKept(t: Table, i: nat, me: nat, nextSpace: nat)
    requires SpacesOk(t, nextSpace) && i < |t.tasks| && i != me && t.tasks[i].state.Ready?
    ensures Kept(t, Deliver(t, i).0, me, nextSpace)
    ensures !Deliver(t, i).1.Terminated? ==>
              Deliver(t, i).0.tasks[i].state.Ready? && Deliver(t, i).0.tasks[i].pinned == t.tasks[i].pinned
  {
    KeptSelf(t, me, nextSpace);
    var x := t.tasks[i];
    if x.isUser && x.pending != {} && x.space.Some? {
      assert exists k :: k in x.pending;
      var sig := Lowest(x.pending, 0);
      if sig == SIGKILL || sig !in x.handlers || x.sigDepth >= 4 {
        FinishKept(t, i, 128 + (sig as int), me, nextSpace);
      } else if x.stackOk && x.started {
        KeptPut(t, i, x.(pending := x.pending - {sig}, sigDepth := x.sigDepth + 1), me, nextSpace);
      } else {
        FinishKept(t, i, 139, me, nextSpace);
      }
    }
  }

  /** Choosing keeps everything, and what it finds is ready and may run here. */
  lemma {:induction false} ChooseKept(t: Table, me: nat, cpu: nat, nextSpace: nat)
    requires SpacesOk(t, nextSpace) && me < |t.tasks|
    ensures Kept(t, Choose(t, me, cpu).0, me, nextSpace)
    ensures var c := Choose(t, me, cpu);
      c.1.Some? ==> c.1.value != me && c.0.tasks[c.1.value].state.Ready? && PinOk(c.0.tasks[c.1.value], cpu)
    ensures Choose(t, me, cpu).1.None? ==> Pick(Choose(t, me, cpu).0.tasks, me, cpu).None?
    decreases Alive(t.tasks)
  {
    KeptSelf(t, me, nextSpace);
    var c := Pick(t.tasks, me, cpu);
    if c.Some? {
      ScanEligible(t.tasks, me, cpu, |t.tasks|);
      DeliverKept(t, c.value, me, nextSpace);
      var d := Deliver(t, c.value);
      if d.1.Terminated? {
        DeliverTerminated(t, c.value);
        ChooseKept(d.0, me, cpu, nextSpace);
        KeptTrans(t, d.0, Choose(t, me, cpu).0, me, nextSpace);
      }
    }
  }

  /** Nothing found means nobody else is eligible. */
  lemma {:induction false} PickNone(tasks: seq<Task>, me: nat, cpu: nat, n: nat)
    requires me < |tasks| && n <= |tasks| && Scan(tasks, me, cpu, n) == Best(None, None)
    ensures forall i | 0 <= i < n && i != me :: !Eligible(tasks[i], cpu)
  {
    if n > 0 {
      PickNone(tasks, me, cpu, n - 1);
    }
  }
}
