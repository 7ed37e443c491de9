/** Where the scheduler does not do what it is for, and exactly when. */
module SchedLimits {
  import opened Frames
  import opened SchedSpec
  import opened SchedInvariant
  import opened SchedParts
  import opened SchedTheorems
  import opened SchedFairness

  // -------------------------------------------------------------------------
  // A marked thread
  // -------------------------------------------------------------------------

  /** A thread marked by a process exit and still running after whatever it asked for is ended by the interrupt if and
      only if that is not the timer's: the timer first takes it off the CPU, and the mark is only looked at while it
      runs.  After a timer interrupt it is as marked as before, and ready or running. */
  lemma {:induction false} MarkedEndsIffNoTimer(s: Sched, home: seq<nat>, i: Interrupt)
    requires Inv(s, home) && Allowed(s, i)
    requires var x := Act(s, s.cur[i.cpu], i.action).t.tasks[s.cur[i.cpu]]; x.state.Running? && x.isUser && x.dieFlag
    ensures var y := Step(s, i).t.tasks[s.cur[i.cpu]];
      && (y.state.Zombie? <==> !i.timer) && (i.timer ==> y.dieFlag && (y.state.Ready? || y.state.Running?))
  {
    hide Act, Switch, Inv, MidS;
    var me := s.cur[i.cpu];
    var s1 := Act(s, me, i.action);
    assert s.nextPid > 0 && s1.cur == s.cur by {
      InvHasPids(s, home, i.cpu);
    }
    ActMid(s, home, i);
    var s2 := s1.(req := s1.req[i.cpu := s1.req[i.cpu] || i.action.Yield?]);
    assert MidS(s2, home, i.cpu) by {
      SameTableMid(s1, s2, home, i.cpu);
    }
    if i.timer {
      TimerSpares(s2, i);
    } else {
      MarkEnds(s2, home, i);
    }
  }

  lemma InvHasPids(s: Sched, home: seq<nat>, cpu: nat)
    requires Inv(s, home) && cpu < |s.cur|
    ensures s.nextPid > 0
  {
    assert Runs(s.t.tasks, s.cur, cpu);
  }

  lemma SameTableMid(s: Sched, s': Sched, home: seq<nat>, cpu: nat)
    requires MidS(s, home, cpu) && s'.t == s.t && s'.cur == s.cur && |s'.req| == |s.req| && s'.nextPid == s.nextPid
    requires s'.nextSpace == s.nextSpace
    ensures MidS(s', home, cpu)
  {
  }

  /** The timer's interrupt: the marked thread is put back in line. */
  lemma TimerSpares(s: Sched, i: Interrupt)
    requires i.cpu < |s.cur| == |s.req| && s.cur[i.cpu] < |s.t.tasks| && i.timer
    requires var x := s.t.tasks[s.cur[i.cpu]]; x.state.Running? && x.isUser && x.dieFlag
    ensures var y := PostDispatch(s, i).t.tasks[s.cur[i.cpu]]; y.dieFlag && (y.state.Ready? || y.state.Running?)
  {
    hide Choose;
    var me := s.cur[i.cpu];
    KeyElsewhere(WakeSleepers(s.t.tasks, i.now), 0, i.key, me);
    var t1 := Ticked(s, i);
    assert t1.tasks[me] == s.t.tasks[me].(state := Ready) && DieIfFlagged(t1, me) == t1;
    ChooseSparesMe(Reap(ParkMe(t1, me), me), me, i.cpu);
  }

  /** Choosing somebody else leaves a ready current task alone. */
  lemma {:induction false} ChooseSparesMe(t: Table, me: nat, cpu: nat)
    requires me < |t.tasks| && t.tasks[me].state.Ready?
    ensures Choose(t, me, cpu).0.tasks[me] == t.tasks[me] && Choose(t, me, cpu).1 != Some(me)
    decreases Alive(t.tasks)
  {
    ScanEligible(t.tasks, me, cpu, |t.tasks|);
    var c := Pick(t.tasks, me, cpu);
    if c.Some? && Deliver(t, c.value).1.Terminated? {
      DeliverTerminated(t, c.value);
      EndedElsewhere(t, c.value, me);
      ChooseSparesMe(Deliver(t, c.value).0, me, cpu);
    }
  }

  /** Any other interrupt ends it, and its CPU goes to somebody else. */
  lemma MarkEnds(s: Sched, home: seq<nat>, i: Interrupt)
    requires MidS(s, home, i.cpu) && !i.timer
    requires var x := s.t.tasks[s.cur[i.cpu]]; x.state.Running? && x.isUser && x.dieFlag
    ensures PostDispatch(s, i).t.tasks[s.cur[i.cpu]].state.Zombie?
  {
    hide Switch, Finish;
    var me := s.cur[i.cpu];
    var t2 := DieIfFlagged(s.t, me);
    assert t2.tasks[me].state.Zombie? by {
      FinishEnds(s.t, me, THREAD_KILLED_CODE);
    }
    DieMid(s, home, i.cpu);
    var s2 := s.(t := t2, req := s.req[i.cpu := false]);
    assert MidS(s2, home, i.cpu);
    EndedStaysEnded(s2, home, i.cpu);
  }

  lemma FinishEnds(t: Table, me: nat, code: int)
    requires me < |t.tasks|
    ensures Finish(t, me, code).tasks[me].state.Zombie?
  {
    var z, x := Zombied(t, me, code), t.tasks[me];
    WakesElsewhere(z.tasks, 0, x.parent, x.tgid, x.pid, code, me);
  }

  lemma EndedStaysEnded(s: Sched, home: seq<nat>, cpu: nat)
    requires MidS(s, home, cpu) && s.t.tasks[s.cur[cpu]].state.Zombie?
    ensures Switch(s, cpu).t.tasks[s.cur[cpu]].state.Zombie?
  {
    hide Choose, Reap, ParkMe;
    var me, h := s.cur[cpu], home[cpu];
    assert IsHome(s.t.tasks[h], cpu);
    forall c | 0 <= c < |s.cur| ensures s.cur[c] != h {
      assert c != cpu ==> Runs(s.t.tasks, s.cur, c);
    }
    EndedLeavesForHome(s, home, cpu, s.nextSpace);
    ChosenMid(s, home, cpu);
    EndedChoice(s, home, cpu);
  }

  lemma EndedChoice(s: Sched, home: seq<nat>, cpu: nat)
    requires MidS(s, home, cpu) && s.t.tasks[s.cur[cpu]].state.Zombie?
    ensures var me := s.cur[cpu]; Choose(Reap(ParkMe(s.t, me), me), me, cpu).0.tasks[me].state.Zombie?
  {
    var me, n := s.cur[cpu], s.nextSpace;
    var t1 := ParkMe(s.t, me);
    KeptPut(s.t, me, s.t.tasks[me].(started := true), me, n);
    ReapKept(t1, me, n);
    ChooseKept(Reap(t1, me), me, cpu, n);
    assert Fine(Reap(t1, me).tasks[me], Choose(Reap(t1, me), me, cpu).0.tasks[me], true);
  }

  lemma {:induction false} KeyElsewhere(tasks: seq<Task>, from: nat, key: Option<int>, me: nat)
    requires me < |tasks| && !tasks[me].state.BlockedInput?
    ensures GiveKey(tasks, from, key)[me] == tasks[me]
    decreases |tasks| - from
  {
    if from < |tasks| && !tasks[from].state.BlockedInput? {
      KeyElsewhere(tasks, from + 1, key, me);
    }
  }

  // -------------------------------------------------------------------------
  // Killing a resident idle task
  // -------------------------------------------------------------------------

  /** kill leaves every CPU its resident idle task exactly when it does not name one that is off its CPU. */
  lemma {:induction false} KillSparesHomesIff(t: Table, home: seq<nat>, me: nat, pid: nat, nextPid: nat)
    requires HomesOk(t.tasks, home, |home|) && PidsOk(t.tasks, nextPid)
    requires me < |t.tasks| && t.tasks[me].state.Running?
    ensures HomesOk(Kill(t, me, pid).tasks, home, |home|) <==> SparesIdle(t.tasks, pid)
  {
    var t' := Kill(t, me, pid);
    var found := FindPid(t.tasks, 0, pid);
    if SparesIdle(t.tasks, pid) {
      forall c | 0 <= c < |home| ensures home[c] < |t'.tasks| && IsHome(t'.tasks[home[c]], c) {
        assert IsHome(t.tasks[home[c]], c);
      }
    } else {
      var i :| 0 <= i < |t.tasks| && !t.tasks[i].state.Dead? && !t.tasks[i].state.Running? && t.tasks[i].pid == pid &&
               Resident(t.tasks[i]);
      assert found == Some(i);
      var c :| 0 <= c < |home| && home[c] == i;
      assert IsHome(t.tasks[home[c]], c) && !IsHome(t'.tasks[home[c]], c);
    }
  }

  // -------------------------------------------------------------------------
  // An ended task on its CPU
  // -------------------------------------------------------------------------

  /** The pending signals of `x` end it the moment it is chosen. */
  predicate Doomed(x: Task) {
    x.isUser && x.pending != {} && x.space.Some? &&
    (assert exists k :: k in x.pending;
     var sig := Lowest(x.pending, 0);
     sig == SIGKILL || sig !in x.handlers || x.sigDepth >= 4 || !x.stackOk || !x.started)
  }

  /** Somebody is parked until `x` ends. */
  predicate Awaited(tasks: seq<Task>, x: Task) {
    exists i | 0 <= i < |tasks| ::
      if x.pid == x.tgid then WaitsFor(tasks[i], x.parent, x.pid) else JoinsFor(tasks[i], x.tgid, x.pid)
  }

  /** Every other task that may run here will be ended by its signals instead. */
  ghost predicate NobodyElse(tasks: seq<Task>, me: nat, cpu: nat) {
    forall i | 0 <= i < |tasks| && i != me && Eligible(tasks[i], cpu) :: Doomed(tasks[i])
  }

  /** Ending those wakes nobody. */
  ghost predicate EndsWakeNobody(tasks: seq<Task>, me: nat, cpu: nat) {
    forall i | 0 <= i < |tasks| && i != me && Eligible(tasks[i], cpu) && Doomed(tasks[i]) :: !Awaited(tasks, tasks[i])
  }

  lemma DoomedIff(t: Table, i: nat)
    requires i < |t.tasks|
    ensures Deliver(t, i).1.Terminated? <==> Doomed(t.tasks[i])
  {
  }

  /** Ending a task nobody awaits changes its own slot only. */
  lemma EndsAlone(t: Table, i: nat)
    requires i < |t.tasks| && t.tasks[i].state.Ready? && Doomed(t.tasks[i]) && !Awaited(t.tasks, t.tasks[i])
    ensures var after := Deliver(t, i).0.tasks;
      after[i].state.Zombie? && forall j | 0 <= j < |after| && j != i :: after[j] == t.tasks[j]
  {
    var x := t.tasks[i];
    assert exists k :: k in x.pending;
    var sig := Lowest(x.pending, 0);
    var code: int := if sig == SIGKILL || sig !in x.handlers || x.sigDepth >= 4 then 128 + sig as int else 139;
    var z := Zombied(t, i, code);
    assert Deliver(t, i).0 == Finish(t, i, code);
    forall j | 0 <= j < |z.tasks|
      ensures if x.pid == x.tgid then !WaitsFor(z.tasks[j], x.parent, x.pid) else !JoinsFor(z.tasks[j], x.tgid, x.pid)
    {
      assert j != i ==> z.tasks[j] == t.tasks[j];
    }
    NoneWoken(z.tasks, 0, x.parent, x.tgid, x.pid, code);
  }

  lemma {:induction false} NoneWoken(tasks: seq<Task>, from: nat, parent: nat, tgid: nat, pid: nat, code: int)
    ensures (forall j | 0 <= j < |tasks| :: !WaitsFor(tasks[j], parent, pid)) ==> WakeParent(tasks, from, parent, pid, code) == tasks
    ensures (forall j | 0 <= j < |tasks| :: !JoinsFor(tasks[j], tgid, pid)) ==> WakeJoiner(tasks, from, tgid, pid, code) == tasks
    decreases |tasks| - from
  {
    if from < |tasks| {
      NoneWoken(tasks, from + 1, parent, tgid, pid, code);
    }
  }

  /** A task that may run here and survives its signals: then somebody is chosen, whoever ends on the way. */
  lemma {:induction false} SomebodyIsChosen(t: Table, me: nat, cpu: nat, x: nat)
    requires me < |t.tasks| && x < |t.tasks| && x != me && Eligible(t.tasks[x], cpu) && !Doomed(t.tasks[x])
    ensures Choose(t, me, cpu).1.Some?
    decreases Alive(t.tasks)
  {
    ScanEligible(t.tasks, me, cpu, |t.tasks|);
    var c := Pick(t.tasks, me, cpu);
    if c.None? {
      PickNone(t.tasks, me, cpu, |t.tasks|);
    }
    DoomedIff(t, c.value);
    if Deliver(t, c.value).1.Terminated? {
      DeliverTerminated(t, c.value);
      EndedElsewhere(t, c.value, x);
      SomebodyIsChosen(Deliver(t, c.value).0, me, cpu, x);
    }
  }

  /** Nobody is chosen exactly when nobody else may run here and live, provided the ends wake nobody. */
  lemma {:induction false} NobodyIsChosenIff(t: Table, me: nat, cpu: nat)
    requires me < |t.tasks| && EndsWakeNobody(t.tasks, me, cpu)
    ensures Choose(t, me, cpu).1.None? <==> NobodyElse(t.tasks, me, cpu)
    decreases Alive(t.tasks)
  {
    if !NobodyElse(t.tasks, me, cpu) {
      var x :| 0 <= x < |t.tasks| && x != me && Eligible(t.tasks[x], cpu) && !Doomed(t.tasks[x]);
      SomebodyIsChosen(t, me, cpu, x);
    } else {
      ScanEligible(t.tasks, me, cpu, |t.tasks|);
      var c := Pick(t.tasks, me, cpu);
      if c.Some? {
        var after := Deliver(t, c.value).0;
        DoomedIff(t, c.value);
        DeliverTerminated(t, c.value);
        EndsAlone(t, c.value);
        StillNobody(t.tasks, after.tasks, me, cpu, c.value);
        NobodyIsChosenIff(after, me, cpu);
      }
    }
  }

  lemma StillNobody(tasks: seq<Task>, after: seq<Task>, me: nat, cpu: nat, i: nat)
    requires NobodyElse(tasks, me, cpu) && EndsWakeNobody(tasks, me, cpu)
    requires i < |tasks| == |after| && after[i].state.Zombie? && forall j | 0 <= j < |after| && j != i :: after[j] == tasks[j]
    ensures NobodyElse(after, me, cpu) && EndsWakeNobody(after, me, cpu)
  {
    forall j | 0 <= j < |after| && j != me && Eligible(after[j], cpu) && Doomed(after[j]) ensures !Awaited(after, after[j]) {
      assert !Awaited(tasks, tasks[j]);
    }
  }

  /** The table a switch chooses from: for the tasks that may run, the table before it. */
  lemma SameCandidates(t: Table, me: nat, cpu: nat)
    requires me < |t.tasks| && t.tasks[me].state.Zombie?
    ensures var t2 := Reap(ParkMe(t, me), me).tasks;
      && |t2| == |t.tasks| && (NobodyElse(t2, me, cpu) <==> NobodyElse(t.tasks, me, cpu))
      && (EndsWakeNobody(t.tasks, me, cpu) ==> EndsWakeNobody(t2, me, cpu))
      && forall i | 0 <= i < |t2| && i != me && Eligible(t.tasks[i], cpu) :: t2[i] == t.tasks[i]
  {
    var t2 := Reap(ParkMe(t, me), me).tasks;
    forall i | 0 <= i < |t2| && i != me ensures Eligible(t2[i], cpu) <==> Eligible(t.tasks[i], cpu) {}
    forall i | 0 <= i < |t2| && i != me && Eligible(t.tasks[i], cpu) ensures t2[i] == t.tasks[i] {}
    if EndsWakeNobody(t.tasks, me, cpu) {
      forall i | 0 <= i < |t2| && i != me && Eligible(t2[i], cpu) && Doomed(t2[i]) ensures !Awaited(t2, t2[i]) {
        assert !Awaited(t.tasks, t.tasks[i]);
        forall j | 0 <= j < |t2|
          ensures (WaitsFor(t2[j], t2[i].parent, t2[i].pid) ==> WaitsFor(t.tasks[j], t2[i].parent, t2[i].pid))
               && (JoinsFor(t2[j], t2[i].tgid, t2[i].pid) ==> JoinsFor(t.tasks[j], t2[i].tgid, t2[i].pid))
        {
        }
      }
    }
  }

  /** What a switch does with an ended current task, from what it chose. */
  lemma EndedByChoice(s: Sched, cpu: nat, nextSpace: nat)
    requires cpu < |s.cur| && s.cur[cpu] < |s.t.tasks| && s.t.tasks[s.cur[cpu]].state.Zombie? && SpacesOk(s.t, nextSpace)
    ensures var me := s.cur[cpu];
      Switch(s, cpu).t.tasks[me].state.Running? <==> Choose(Reap(ParkMe(s.t, me), me), me, cpu).1.None?
  {
    var me, n := s.cur[cpu], nextSpace;
    var t1 := ParkMe(s.t, me);
    KeptPut(s.t, me, s.t.tasks[me].(started := true), me, n);
    ReapKept(t1, me, n);
    ChooseKept(Reap(t1, me), me, cpu, n);
    assert Fine(Reap(t1, me).tasks[me], Choose(Reap(t1, me), me, cpu).0.tasks[me], true);
  }

  /** An ended current task is put back on its CPU if and only if every other task that may run there is about to be
      ended by its signals, where the ends wake nobody. */
  lemma {:induction false} EndedRunsIffNobodyElse(s: Sched, cpu: nat, nextSpace: nat)
    requires cpu < |s.cur| && s.cur[cpu] < |s.t.tasks| && s.t.tasks[s.cur[cpu]].state.Zombie? && SpacesOk(s.t, nextSpace)
    requires EndsWakeNobody(s.t.tasks, s.cur[cpu], cpu)
    ensures Switch(s, cpu).t.tasks[s.cur[cpu]].state.Running? <==> NobodyElse(s.t.tasks, s.cur[cpu], cpu)
  {
    var me := s.cur[cpu];
    SameCandidates(s.t, me, cpu);
    NobodyIsChosenIff(Reap(ParkMe(s.t, me), me), me, cpu);
    EndedByChoice(s, cpu, nextSpace);
  }

  /** In particular never while the resident idle task of the CPU waits there: nothing can end that. */
  lemma {:induction false} EndedLeavesForHome(s: Sched, home: seq<nat>, cpu: nat, nextSpace: nat)
    requires cpu < |s.cur| && s.cur[cpu] < |s.t.tasks| && s.t.tasks[s.cur[cpu]].state.Zombie? && SpacesOk(s.t, nextSpace)
    requires HomesOk(s.t.tasks, home, |s.cur|) && s.t.tasks[home[cpu]].state.Ready?
    ensures !Switch(s, cpu).t.tasks[s.cur[cpu]].state.Running?
  {
    var me := s.cur[cpu];
    assert IsHome(s.t.tasks[home[cpu]], cpu);
    SameCandidates(s.t, me, cpu);
    SomebodyIsChosen(Reap(ParkMe(s.t, me), me), me, cpu, home[cpu]);
    EndedByChoice(s, cpu, nextSpace);
  }

  // --- the run that gets there ---------------------------------------------------------

  /** A kernel task that runs on CPU 0, its resident idle task beside it, every other slot free. */
  function TwoTasks(): (s: Sched)
    ensures |s.t.tasks| == MAX_TASKS && |s.cur| == |s.req| == 1 && s.cur[0] == 1
    ensures s.t.tasks[0] == NewTask(1, Some(0), false, None, 0, 1, {}).(isIdle := true)
    ensures s.t.tasks[1] == NewTask(2, None, false, None, 0, 2, {}).(state := Running, onCpu := Some(0))
    ensures s.nextPid == 3 && s.nextSpace == 0 && !s.req[0] && s.t.gone == multiset{}
    ensures forall i | 2 <= i < MAX_TASKS :: s.t.tasks[i] == DEAD
  {
    Sched(Table([NewTask(1, Some(0), false, None, 0, 1, {}).(isIdle := true),
                 NewTask(2, None, false, None, 0, 2, {}).(state := Running, onCpu := Some(0))] + seq(MAX_TASKS - 2, i => DEAD),
                multiset{}), [1], [false], 3, 0)
  }

  function Plain(action: Action): Interrupt {
    Interrupt(0, action, false, 0, None)
  }

  /** From boot, a kill of the idle task and then an exit leave the ended task running: Exclusion fails. */
  lemma {:induction false} KilledIdleRevivesTheEnded()
    ensures Booted(TwoTasks(), [0]) && !SparesIdle(TwoTasks().t.tasks, 1)
    ensures var s1 := Step(TwoTasks(), Plain(KillPid(1)));
      && s1.cur == [1] && |s1.req| == 1 && s1.t.tasks[0] == DEAD && s1.t.tasks[1].state.Running?
      && Act(s1, 1, Exit(0)).t.tasks[1].state.Zombie?
      && Step(s1, Plain(Exit(0))).cur == [1] && Step(s1, Plain(Exit(0))).t.tasks[1].state.Running?
  {
    hide Step, Act, Kill, Switch;
    TwoTasksBooted();
    KillFreesIdle();
    StepRunsOn(TwoTasks(), Plain(KillPid(1)));
    LoneExit(Step(TwoTasks(), Plain(KillPid(1))));
  }

  lemma TwoTasksBooted()
    ensures Booted(TwoTasks(), [0]) && !SparesIdle(TwoTasks().t.tasks, 1)
  {
    var s := TwoTasks();
    assert 1 in s.cur && 0 in [0];
    assert Runs(s.t.tasks, s.cur, 0) && IsHome(s.t.tasks[0], 0);
    assert Resident(s.t.tasks[0]) && s.t.tasks[0].pid == 1;
  }

  lemma KillFreesIdle()
    ensures var s := TwoTasks(); Act(s, 1, KillPid(1)) == s.(t := Table(s.t.tasks[0 := DEAD], multiset{}))
  {
    var s := TwoTasks();
    assert FindPid(s.t.tasks, 0, 1) == Some(0);
    assert s.t.tasks[0 := s.t.tasks[0].(space := None)] == s.t.tasks;
  }

  /** Without a timer, a switch request or a mark, a current task that still runs keeps its CPU. */
  lemma StepRunsOn(s: Sched, i: Interrupt)
    requires i.cpu < |s.cur| == |s.req| && s.cur[i.cpu] < |s.t.tasks| && !i.timer && !i.action.Yield? && !s.req[i.cpu]
    requires var x := Act(s, s.cur[i.cpu], i.action).t.tasks[s.cur[i.cpu]]; x.state.Running? && !x.dieFlag
    ensures Step(s, i) == Act(s, s.cur[i.cpu], i.action)
  {
    hide Act, Switch;
    var s1 := Act(s, s.cur[i.cpu], i.action);
    assert s1.req[i.cpu := false] == s1.req;
  }

  /** A current task that ended gives up its CPU. */
  lemma StepSwitches(s: Sched, i: Interrupt)
    requires i.cpu < |s.cur| == |s.req| && s.cur[i.cpu] < |s.t.tasks| && !i.timer
    requires Act(s, s.cur[i.cpu], i.action).t.tasks[s.cur[i.cpu]].state.Zombie?
    ensures var s1 := Act(s, s.cur[i.cpu], i.action); Step(s, i) == Switch(s1.(req := s1.req[i.cpu := false]), i.cpu)
  {
    hide Act, Switch;
    var s1 := Act(s, s.cur[i.cpu], i.action);
    assert s1.req[i.cpu := s1.req[i.cpu] || i.action.Yield?][i.cpu := false] == s1.req[i.cpu := false];
  }

  lemma LoneExit(s: Sched)
    requires |s.t.tasks| == MAX_TASKS && s.cur == [1] && |s.req| == 1 && s.t.gone == multiset{} && s.nextSpace == 0
    requires s.t.tasks[1].state.Running? && !s.t.tasks[1].isUser && s.t.tasks[1].space.None?
    requires forall i | 0 <= i < MAX_TASKS && i != 1 :: s.t.tasks[i] == DEAD
    ensures Act(s, 1, Exit(0)).t.tasks[1].state.Zombie?
    ensures Step(s, Plain(Exit(0))).cur == [1] && Step(s, Plain(Exit(0))).t.tasks[1].state.Running?
  {
    hide Step, Switch;
    ExitAlone(s);
    StepSwitches(s, Plain(Exit(0)));
    var s1 := Act(s, 1, Exit(0));
    var s2 := s1.(req := s1.req[0 := false]);
    EndedRunsIffNobodyElse(s2, 0, 0);
    SwitchStays(s2);
  }

  lemma SwitchStays(s: Sched)
    requires |s.cur| == 1 && s.cur[0] < |s.t.tasks| && Switch(s, 0).t.tasks[s.cur[0]].state.Running?
    requires s.t.tasks[s.cur[0]].state.Zombie? && SpacesOk(s.t, s.nextSpace)
    ensures Switch(s, 0).cur == s.cur
  {
    hide Choose, Reap, ParkMe;
    EndedByChoice(s, 0, s.nextSpace);
  }

  lemma ExitAlone(s: Sched)
    requires |s.t.tasks| == MAX_TASKS && s.cur == [1] && s.t.gone == multiset{} && s.nextSpace == 0
    requires s.t.tasks[1].state.Running? && !s.t.tasks[1].isUser && s.t.tasks[1].space.None?
    requires forall i | 0 <= i < MAX_TASKS && i != 1 :: s.t.tasks[i] == DEAD
    ensures var s1 := Act(s, 1, Exit(0));
      && s1.t.tasks[1].state.Zombie? && (forall i | 0 <= i < MAX_TASKS && i != 1 :: s1.t.tasks[i] == DEAD)
      && SpacesOk(s1.t, 0) && s1.nextSpace == 0
  {
    var x := s.t.tasks[1];
    var z := Zombied(s.t, 1, 0);
    NoneWoken(z.tasks, 0, x.parent, x.tgid, x.pid, 0);
    assert Act(s, 1, Exit(0)).t == z && z.gone == multiset{};
    assert forall i | 0 <= i < MAX_TASKS :: z.tasks[i].space.None?;
  }
}
