/** Whole runs of the scheduler: exclusion, the life of address spaces, and bounded waiting. */
module SchedTheorems {
  import opened Frames
  import opened SchedSpec
  import opened SchedInvariant
  import opened SchedParts

  /** Between steps: on every online CPU its current task runs, on no other; names are unique; every resident
      idle task is ready or running; every address space is held or was destroyed once. */
  ghost predicate Inv(s: Sched, home: seq<nat>) {
    && |s.t.tasks| == MAX_TASKS && |s.req| == |s.cur| > 0
    && PidsOk(s.t.tasks, s.nextPid) && RunningOk(s.t.tasks, s.cur) && HomesOk(s.t.tasks, home, |s.cur|)
    && (forall c | 0 <= c < |s.cur| :: Runs(s.t.tasks, s.cur, c))
    && SpacesOk(s.t, s.nextSpace)
  }

  /** What may happen next.  Resident idle tasks only yield, and kill names none that is off its CPU. */
  predicate Allowed(s: Sched, i: Interrupt) {
    && i.cpu < |s.cur| && s.cur[i.cpu] < |s.t.tasks|
    && (i.action.KillPid? ==> SparesIdle(s.t.tasks, i.action.pid))
    && (Resident(s.t.tasks[s.cur[i.cpu]]) ==> i.action.Nothing_? || i.action.Yield?)
  }

  ghost predicate MidS(s: Sched, home: seq<nat>, cpu: nat) {
    |s.req| == |s.cur| && Mid(s.t.tasks, s.cur, home, s.nextPid, cpu) && SpacesOk(s.t, s.nextSpace)
  }

  lemma InvIsMid(s: Sched, home: seq<nat>, cpu: nat)
    requires Inv(s, home) && cpu < |s.cur|
    ensures MidS(s, home, cpu)
  {
    assert Runs(s.t.tasks, s.cur, cpu);
  }

  lemma KeptMidS(s: Sched, t': Table, home: seq<nat>, cpu: nat)
    requires MidS(s, home, cpu) && Kept(s.t, t', s.cur[cpu], s.nextSpace)
    ensures MidS(s.(t := t'), home, cpu)
  {
    KeepsMid(s.t.tasks, t'.tasks, s.cur, home, s.nextPid, cpu);
  }

  // --- the handler ------------------------------------------------------------------

  lemma InstallMid(s: Sched, task: Task, freshSpace: bool, home: seq<nat>, cpu: nat)
    requires MidS(s, home, cpu) && task.state.Ready? && !task.isIdle && s.nextPid > 0
    requires if freshSpace then task.space == Some(s.nextSpace)
             else task.space.None? || Held(s.t.tasks, task.space.value)
    ensures MidS(Install(s, task, freshSpace), home, cpu)
  {
    var slot := FirstDead(s.t.tasks, 0);
    if slot.Some? {
      var s' := Install(s, task, freshSpace);
      forall c | 0 <= c < |s.cur| && c != cpu ensures Runs(s'.t.tasks, s.cur, c) {
        assert Runs(s.t.tasks, s.cur, c);
      }
      forall c | 0 <= c < |s.cur| ensures home[c] < |s'.t.tasks| && IsHome(s'.t.tasks[home[c]], c) {
        assert IsHome(s.t.tasks[home[c]], c);
      }
      InstallSpaces(s, task, freshSpace);
    }
  }

  lemma InstallSpaces(s: Sched, task: Task, freshSpace: bool)
    requires SpacesOk(s.t, s.nextSpace) && task.state.Ready?
    requires if freshSpace then task.space == Some(s.nextSpace)
             else task.space.None? || Held(s.t.tasks, task.space.value)
    ensures SpacesOk(Install(s, task, freshSpace).t, Install(s, task, freshSpace).nextSpace)
  {
    var slot := FirstDead(s.t.tasks, 0);
    if slot.Some? {
      var s' := Install(s, task, freshSpace);
      forall a: nat ensures Held(s'.t.tasks, a) <==> Held(s.t.tasks, a) || task.space == Some(a) {
        if Held(s.t.tasks, a) {
          var j :| 0 <= j < |s.t.tasks| && s.t.tasks[j].space == Some(a);
          assert s'.t.tasks[j].space == Some(a);
        }
        if task.space == Some(a) {
          assert s'.t.tasks[slot.value].space == Some(a);
        }
        if Held(s'.t.tasks, a) {
          var j :| 0 <= j < |s'.t.tasks| && s'.t.tasks[j].space == Some(a);
          assert j != slot.value ==> s.t.tasks[j].space == Some(a);
        }
      }
    }
  }

  lemma ExecMid(s: Sched, home: seq<nat>, cpu: nat)
    requires MidS(s, home, cpu) && s.t.tasks[s.cur[cpu]].state.Running?
    ensures MidS(ExecImage(s, s.cur[cpu]), home, cpu)
  {
    var me := s.cur[cpu];
    var s' := ExecImage(s, me);
    if s' != s {
      KeptDrop(s.t, me, me, s.nextSpace);
      var t1 := DropSpace(s.t, me);
      KeptMidS(s, t1, home, cpu);
      var y := t1.tasks[me].(space := Some(s.nextSpace), handlers := {}, pending := {}, sigDepth := 0);
      KeepsPut(t1.tasks, me, y, me);
      KeepsMid(t1.tasks, s'.t.tasks, s.cur, home, s.nextPid, cpu);
      FreshSpace(t1, me, y, s.nextSpace);
    }
  }

  /** A slot without a space takes a new one. */
  lemma FreshSpace(t: Table, i: nat, y: Task, nextSpace: nat)
    requires SpacesOk(t, nextSpace) && i < |t.tasks| && t.tasks[i].space.None?
    requires y.space == Some(nextSpace) && !y.state.Zombie? && !y.state.Dead?
    ensures SpacesOk(Put(t, i, y), nextSpace + 1)
  {
    var t' := Put(t, i, y);
    forall a: nat ensures Held(t'.tasks, a) <==> Held(t.tasks, a) || a == nextSpace {
      if Held(t.tasks, a) {
        var j :| 0 <= j < |t.tasks| && t.tasks[j].space == Some(a);
        assert t'.tasks[j].space == Some(a);
      }
      if Held(t'.tasks, a) {
        var j :| 0 <= j < |t'.tasks| && t'.tasks[j].space == Some(a);
        assert j != i ==> t.tasks[j].space == Some(a);
      }
      assert t'.tasks[i].space == Some(nextSpace);
    }
  }

  /** Calls that change the table only. */
  lemma CallKept(s: Sched, home: seq<nat>, i: Interrupt)
    requires Inv(s, home) && Allowed(s, i)
    requires i.action.Sleep? || i.action.Park? || i.action.WaitChild? || i.action.JoinThread? || i.action.SetHandler?
    ensures Kept(s.t, Act(s, s.cur[i.cpu], i.action).t, s.cur[i.cpu], s.nextSpace)
  {
    var me := s.cur[i.cpu];
    var x := s.t.tasks[me];
    assert Runs(s.t.tasks, s.cur, i.cpu);
    KeptSelf(s.t, me, s.nextSpace);
    match i.action
    case Sleep(until) => KeptPut(s.t, me, x.(wakeAt := until, state := Sleeping), me, s.nextSpace);
    case Park(state) =>
      if ParkState(state) {
        KeptPut(s.t, me, x.(state := state), me, s.nextSpace);
      }
    case WaitChild(target, mailbox) => WaitKept(s.t, me, target, mailbox, s.nextSpace);
    case JoinThread(target, mailbox) => WaitKept(s.t, me, target, mailbox, s.nextSpace);
    case SetHandler(sig, installed) =>
      KeptPut(s.t, me, x.(handlers := if installed then x.handlers + {sig} else x.handlers - {sig}), me, s.nextSpace);
  }

  lemma ExitCallKept(s: Sched, home: seq<nat>, i: Interrupt, code: int)
    requires Inv(s, home) && Allowed(s, i) && (i.action == Exit(code) || i.action == ThreadExit(code))
    ensures Kept(s.t, Act(s, s.cur[i.cpu], i.action).t, s.cur[i.cpu], s.nextSpace)
  {
    assert Runs(s.t.tasks, s.cur, i.cpu);
    ExitKept(s.t, s.cur[i.cpu], code, s.nextSpace);
  }

  lemma EndCallKept(s: Sched, home: seq<nat>, i: Interrupt)
    requires Inv(s, home) && Allowed(s, i)
    requires i.action.KillPid? || i.action.SendSignal? || i.action.WakeTask?
    ensures Kept(s.t, Act(s, s.cur[i.cpu], i.action).t, s.cur[i.cpu], s.nextSpace)
  {
    var me := s.cur[i.cpu];
    KeptSelf(s.t, me, s.nextSpace);
    match i.action
    case KillPid(pid) => KillKept(s.t, me, pid, s.nextSpace);
    case SendSignal(pid, sig) => SignalKept(s.t, me, pid, sig, s.nextSpace);
    case WakeTask(waiter, parkedIn) =>
      if ParkState(parkedIn) {
        WakeWaiterKept(s.t, waiter, parkedIn, me, s.nextSpace);
      }
  }

  lemma BirthMid(s: Sched, home: seq<nat>, i: Interrupt)
    requires Inv(s, home) && Allowed(s, i) && s.nextPid > 0
    requires i.action.Clone? || i.action.Spawn? || i.action.Fork? || i.action.Exec?
    ensures MidS(Act(s, s.cur[i.cpu], i.action), home, i.cpu)
  {
    var x := s.t.tasks[s.cur[i.cpu]];
    InvIsMid(s, home, i.cpu);
    assert Runs(s.t.tasks, s.cur, i.cpu);
    match i.action
    case Clone(stackFree) =>
      if x.isUser && stackFree && x.space.Some? {
        assert Held(s.t.tasks, x.space.value);
        InstallMid(s, NewTask(0, None, true, x.space, x.tgid, x.tgid, x.handlers), false, home, i.cpu);
      }
    case Spawn(isUser, pinned, stackFree) =>
      if stackFree {
        InstallMid(s, NewTask(0, pinned, isUser, if isUser then Some(s.nextSpace) else None, x.pid, 0, {}), isUser, home, i.cpu);
      }
    case Fork(stackFree) =>
      if x.isUser && stackFree {
        InstallMid(s, NewTask(0, None, true, Some(s.nextSpace), x.pid, 0, x.handlers), true, home, i.cpu);
      }
    case Exec => ExecMid(s, home, i.cpu);
  }

  lemma ActMid(s: Sched, home: seq<nat>, i: Interrupt)
    requires Inv(s, home) && Allowed(s, i) && s.nextPid > 0
    ensures MidS(Act(s, s.cur[i.cpu], i.action), home, i.cpu)
  {
    InvIsMid(s, home, i.cpu);
    var s1 := Act(s, s.cur[i.cpu], i.action);
    if i.action.Clone? || i.action.Spawn? || i.action.Fork? || i.action.Exec? {
      BirthMid(s, home, i);
    } else if !i.action.Nothing_? && !i.action.Yield? {
      if i.action.Sleep? || i.action.Park? || i.action.WaitChild? || i.action.JoinThread? || i.action.SetHandler? {
        CallKept(s, home, i);
      } else if i.action.Exit? || i.action.ThreadExit? {
        ExitCallKept(s, home, i, i.action.code);
      } else {
        EndCallKept(s, home, i);
      }
      KeptMidS(s, s1.t, home, i.cpu);
    }
  }

  // --- the switching code --------------------------------------------------------------

  lemma DutiesMid(s: Sched, home: seq<nat>, i: Interrupt)
    requires MidS(s, home, i.cpu)
    ensures MidS(s.(t := Ticked(s, i)), home, i.cpu)
  {
    var me := s.cur[i.cpu];
    if i.timer {
      TimerKept(s.t, me, i.now, i.key, s.nextSpace);
      KeptMidS(s, TimerDuties(s.t, me, i.now, i.key), home, i.cpu);
    }
  }

  /** The table after the timer duties, if the interrupt was the timer's. */
  function Ticked(s: Sched, i: Interrupt): (r: Table)
    requires i.cpu < |s.cur| && s.cur[i.cpu] < |s.t.tasks|
    ensures |r.tasks| == |s.t.tasks|
  {
    if i.timer then TimerDuties(s.t, s.cur[i.cpu], i.now, i.key) else s.t
  }

  lemma DieMid(s: Sched, home: seq<nat>, cpu: nat)
    requires MidS(s, home, cpu)
    ensures MidS(s.(t := DieIfFlagged(s.t, s.cur[cpu])), home, cpu)
  {
    var me := s.cur[cpu];
    if s.t.tasks[me].dieFlag && s.t.tasks[me].state.Running? {
      FinishKept(s.t, me, THREAD_KILLED_CODE, me, s.nextSpace);
      KeptMidS(s, Finish(s.t, me, THREAD_KILLED_CODE), home, cpu);
    }
  }

  /** A current task that still runs closes the CPU. */
  lemma CloseMid(s: Sched, home: seq<nat>, cpu: nat)
    requires MidS(s, home, cpu) && s.t.tasks[s.cur[cpu]].state.Running?
    ensures Inv(s, home)
  {
    forall c | 0 <= c < |s.cur| ensures Runs(s.t.tasks, s.cur, c) {}
  }

  /** Park, reap and choose. */
  lemma ChosenMid(s: Sched, home: seq<nat>, cpu: nat)
    requires MidS(s, home, cpu)
    ensures var me := s.cur[cpu]; var c := Choose(Reap(ParkMe(s.t, me), me), me, cpu);
      && MidS(s.(t := c.0), home, cpu) && !c.0.tasks[me].state.Running?
      && (c.1.Some? ==> c.1.value != me && c.0.tasks[c.1.value].state.Ready? && PinOk(c.0.tasks[c.1.value], cpu))
      && (c.1.None? ==> Pick(c.0.tasks, me, cpu).None?)
  {
    var me := s.cur[cpu];
    var x := s.t.tasks[me];
    var t1, n := ParkMe(s.t, me), s.nextSpace;
    var t2 := Reap(t1, me);
    var t3 := Choose(t2, me, cpu).0;
    KeptPut(s.t, me, x.(started := true, state := if x.state.Running? then Ready else x.state), me, n);
    ReapKept(t1, me, n);
    KeptTrans(s.t, t1, t2, me, n);
    ChooseKept(t2, me, cpu, n);
    KeptTrans(s.t, t2, t3, me, n);
    KeptMidS(s, t3, home, cpu);
    assert Fine(t2.tasks[me], t3.tasks[me], true);
  }

  lemma SwitchInv(s: Sched, home: seq<nat>, cpu: nat)
    requires MidS(s, home, cpu)
    ensures Inv(Switch(s, cpu), home)
  {
    var me := s.cur[cpu];
    var c := Choose(Reap(ParkMe(s.t, me), me), me, cpu);
    var s1 := s.(t := c.0);
    ChosenMid(s, home, cpu);
    if c.1.None? {
      HomeStays(s1, home, cpu);
      RunInv(s1, home, cpu, me);
      SameRun(s1, home, cpu);
    } else {
      RunInv(s1, home, cpu, c.1.value);
    }
  }

  function Started(s: Sched, cpu: nat, who: nat): Sched
    requires cpu < |s.cur| && who < |s.t.tasks|
  {
    s.(t := Put(s.t, who, s.t.tasks[who].(state := Running, onCpu := Some(cpu))), cur := s.cur[cpu := who])
  }

  lemma SameRun(s: Sched, home: seq<nat>, cpu: nat)
    requires cpu < |s.cur| && s.cur[cpu] < |s.t.tasks| && s.t.tasks[s.cur[cpu]].onCpu == Some(cpu)
    ensures s.(t := Put(s.t, s.cur[cpu], s.t.tasks[s.cur[cpu]].(state := Running))) == Started(s, cpu, s.cur[cpu])
  {
    assert s.cur[cpu := s.cur[cpu]] == s.cur;
  }

  /** With nobody else eligible the current task is the resident idle of this CPU. */
  lemma HomeStays(s: Sched, home: seq<nat>, cpu: nat)
    requires MidS(s, home, cpu) && !s.t.tasks[s.cur[cpu]].state.Running? && Pick(s.t.tasks, s.cur[cpu], cpu).None?
    ensures s.cur[cpu] == home[cpu] && s.t.tasks[s.cur[cpu]].onCpu == Some(cpu) && s.t.tasks[s.cur[cpu]].state.Ready?
  {
    var h := home[cpu];
    assert IsHome(s.t.tasks[h], cpu);
    PickNone(s.t.tasks, s.cur[cpu], cpu, |s.t.tasks|);
    if s.t.tasks[h].state.Running? {
      HomeRunsHere(s, home, cpu);
    }
  }

  lemma HomeRunsHere(s: Sched, home: seq<nat>, cpu: nat)
    requires MidS(s, home, cpu) && s.t.tasks[home[cpu]].state.Running?
    ensures s.cur[cpu] == home[cpu]
  {
    var h := home[cpu];
    assert IsHome(s.t.tasks[h], cpu);
    var c := s.t.tasks[h].onCpu.value;
    assert c != cpu ==> Runs(s.t.tasks, s.cur, c);
  }

  lemma RunInv(s: Sched, home: seq<nat>, cpu: nat, who: nat)
    requires MidS(s, home, cpu) && who < |s.t.tasks| && s.t.tasks[who].state.Ready? && PinOk(s.t.tasks[who], cpu)
    requires !s.t.tasks[s.cur[cpu]].state.Running?
    ensures Inv(Started(s, cpu, who), home)
  {
    var s' := Started(s, cpu, who);
    SpacesSame(s.t, s'.t.tasks, s.nextSpace);
    forall c | 0 <= c < |s'.cur| ensures Runs(s'.t.tasks, s'.cur, c) {
      assert c != cpu ==> Runs(s.t.tasks, s.cur, c);
    }
    forall c | 0 <= c < |s'.cur| ensures home[c] < |s'.t.tasks| && IsHome(s'.t.tasks[home[c]], c) {
      assert IsHome(s.t.tasks[home[c]], c);
    }
  }

  /** The scheduler theorem for one interrupt: whatever the current task asked for, exclusion, pins, names, idle
      homes and the life of every address space are in order again when the interrupt is over. */
  lemma StepKeepsInv(s: Sched, home: seq<nat>, i: Interrupt)
    requires Inv(s, home) && Allowed(s, i) && s.nextPid > 0
    ensures Inv(Step(s, i), home) && Step(s, i).nextPid > 0
  {
    ActMid(s, home, i);
    var s1 := Act(s, s.cur[i.cpu], i.action);
    var s2 := s1.(req := s1.req[i.cpu := s1.req[i.cpu] || i.action.Yield?]);
    DutiesMid(s2, home, i);
    var s3 := s2.(t := Ticked(s2, i));
    DieMid(s3, home, i.cpu);
    var s4 := s3.(t := DieIfFlagged(s3.t, s3.cur[i.cpu]), req := s3.req[i.cpu := false]);
    assert MidS(s4, home, i.cpu);
    if Step(s, i) == s4 && s4.t.tasks[s4.cur[i.cpu]].state.Running? {
      CloseMid(s4, home, i.cpu);
    } else {
      SwitchInv(s4, home, i.cpu);
    }
  }
}
