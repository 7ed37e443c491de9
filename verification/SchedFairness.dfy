/** Runs of the scheduler: what holds after every one of them, and how long a ready task can wait. */
module SchedFairness {
  import opened Frames
  import opened SchedSpec
  import opened SchedInvariant
  import opened SchedParts
  import opened SchedTheorems

  // -------------------------------------------------------------------------
  // Whole runs
  // -------------------------------------------------------------------------

  ghost predicate Run(s: Sched, steps: seq<Interrupt>)
    decreases |steps|
  {
    steps == [] ||
    (Allowed(s, steps[0]) && |s.cur| == |s.req| && Run(Step(s, steps[0]), steps[1..]))
  }

  ghost function Exec(s: Sched, steps: seq<Interrupt>): Sched
    requires Run(s, steps)
    decreases |steps|
  {
    if steps == [] then s else Exec(Step(s, steps[0]), steps[1..])
  }

  /** Boot: every CPU runs a task of its own, idle tasks are resident, no user program was ever loaded. */
  ghost predicate Booted(s: Sched, home: seq<nat>) {
    && |s.t.tasks| == MAX_TASKS && |s.req| == |s.cur| > 0 && s.nextPid > 0 && s.nextSpace == 0 && s.t.gone == multiset{}
    && PidsOk(s.t.tasks, s.nextPid) && HomesOk(s.t.tasks, home, |s.cur|)
    && (forall c | 0 <= c < |s.cur| :: Runs(s.t.tasks, s.cur, c))
    && (forall i | 0 <= i < MAX_TASKS :: s.t.tasks[i].space.None?)
    && (forall i | 0 <= i < MAX_TASKS && s.t.tasks[i].state.Running? :: i in s.cur)
  }

  lemma BootedInv(s: Sched, home: seq<nat>)
    requires Booted(s, home)
    ensures Inv(s, home)
  {
    forall i | 0 <= i < |s.t.tasks| && s.t.tasks[i].state.Running?
      ensures s.t.tasks[i].onCpu.Some? && s.t.tasks[i].onCpu.value < |s.cur| && s.cur[s.t.tasks[i].onCpu.value] == i
    {
      var c :| 0 <= c < |s.cur| && s.cur[c] == i;
      assert Runs(s.t.tasks, s.cur, c);
    }
  }

  lemma {:induction false} RunKeepsInv(s: Sched, home: seq<nat>, steps: seq<Interrupt>)
    requires Inv(s, home) && s.nextPid > 0 && Run(s, steps)
    ensures Inv(Exec(s, steps), home) && |Exec(s, steps).cur| == |s.cur|
    decreases |steps|
  {
    if steps != [] {
      StepKeepsInv(s, home, steps[0]);
      RunKeepsInv(Step(s, steps[0]), home, steps[1..]);
    }
  }

  /** Exclusion: after every run each CPU runs its current task, no other CPU runs it, it may run there, and it is
      neither ended nor parked; nobody else runs. */
  lemma Exclusion(boot: Sched, home: seq<nat>, steps: seq<Interrupt>, c: nat, d: nat)
    requires Booted(boot, home) && Run(boot, steps) && c < |boot.cur| && d < |boot.cur| && c != d
    ensures var s := Exec(boot, steps);
      && c < |s.cur| && d < |s.cur| && s.cur[c] != s.cur[d]
      && s.cur[c] < |s.t.tasks| && s.t.tasks[s.cur[c]].state.Running? && PinOk(s.t.tasks[s.cur[c]], c)
      && forall i | 0 <= i < |s.t.tasks| && s.t.tasks[i].state.Running? :: i in s.cur
  {
    BootedInv(boot, home);
    RunKeepsInv(boot, home, steps);
    var s := Exec(boot, steps);
    assert Runs(s.t.tasks, s.cur, c) && Runs(s.t.tasks, s.cur, d);
    forall i | 0 <= i < |s.t.tasks| && s.t.tasks[i].state.Running? ensures i in s.cur {
      assert s.cur[s.t.tasks[i].onCpu.value] == i;
    }
  }

  /** Address spaces: each one ever installed is destroyed at most once, and exactly when no task holds it; so
      never under a running task. */
  lemma SpacesLiveAndDieOnce(boot: Sched, home: seq<nat>, steps: seq<Interrupt>, space: nat)
    requires Booted(boot, home) && Run(boot, steps)
    ensures var s := Exec(boot, steps);
      && (space < s.nextSpace ==> (s.t.gone[space] == 1 <==> !Held(s.t.tasks, space)))
      && s.t.gone[space] <= 1
      && forall i | 0 <= i < |s.t.tasks| && s.t.tasks[i].space == Some(space) :: s.t.gone[space] == 0
  {
    BootedInv(boot, home);
    RunKeepsInv(boot, home, steps);
  }

  // -------------------------------------------------------------------------
  // Bounded waiting
  // -------------------------------------------------------------------------

  predicate Spawns(a: Action) {
    a.Clone? || a.Spawn? || a.Fork?
  }

  /** Nobody new: each slot is free or still carries the same name. */
  ghost predicate NoneNew(tasks: seq<Task>, tasks': seq<Task>) {
    |tasks'| == |tasks| && forall i | 0 <= i < |tasks| ::
      tasks'[i].state.Dead? || (tasks'[i].pid == tasks[i].pid && !tasks[i].state.Dead?)
  }

  lemma KeepsNoneNew(tasks: seq<Task>, tasks': seq<Task>, me: nat)
    requires Keeps(tasks, tasks', me)
    ensures NoneNew(tasks, tasks')
  {
    forall i | 0 <= i < |tasks|
      ensures tasks'[i].state.Dead? || (tasks'[i].pid == tasks[i].pid && !tasks[i].state.Dead?)
    {
      assert Fine(tasks[i], tasks'[i], i == me) || FreedOk(tasks[i], tasks'[i], i == me);
    }
  }

  predicate Waits(s: Sched, x: nat, c: nat) {
    x < |s.t.tasks| && c < |s.cur| && Eligible(s.t.tasks[x], c) && !s.t.tasks[x].isIdle
  }

  /** The live tasks that round robin on CPU `c` prefers to `x`. */
  ghost function Ahead(tasks: seq<Task>, cur: nat, x: nat): set<nat>
    requires cur < |tasks| && x < |tasks|
  {
    set i | 0 <= i < |tasks| && !tasks[i].state.Dead? && i != x && i != cur && Better(tasks[i].pid, tasks[x].pid, tasks[cur].pid)
  }

  lemma AheadShrinks(tasks: seq<Task>, tasks': seq<Task>, cur: nat, x: nat)
    requires NoneNew(tasks, tasks') && cur < |tasks| && x < |tasks|
    requires !tasks'[cur].state.Dead? && !tasks'[x].state.Dead?
    ensures Ahead(tasks', cur, x) <= Ahead(tasks, cur, x)
  {
  }

  /** Moving on to a task ahead of `x` leaves fewer ahead of it. */
  lemma AheadFalls(tasks: seq<Task>, cur: nat, x: nat, y: nat, nextPid: nat)
    requires PidsOk(tasks, nextPid) && cur < |tasks| && x < |tasks| && y in Ahead(tasks, cur, x) && x != cur
    requires !tasks[cur].state.Dead? && !tasks[x].state.Dead?
    ensures y < |tasks| && Ahead(tasks, y, x) <= Ahead(tasks, cur, x) - {y}
  {
  }

  lemma SubsetSize(a: set<nat>, b: set<nat>)
    requires a <= b
    ensures |a| <= |b|
  {
    assert b == a + (b - a);
  }

  lemma AheadBound(tasks: seq<Task>, cur: nat, x: nat)
    requires |tasks| == MAX_TASKS && cur < MAX_TASKS && x < MAX_TASKS && cur != x
    ensures |Ahead(tasks, cur, x)| <= MAX_TASKS - 2
  {
    var all := Slots(MAX_TASKS);
    forall i | i in Ahead(tasks, cur, x) ensures i in all {}
    TwoFewer(Ahead(tasks, cur, x), all, cur, x);
  }

  lemma TwoFewer(a: set<nat>, all: set<nat>, p: nat, q: nat)
    requires a <= all && p in all && q in all && p !in a && q !in a && p != q
    ensures |a| + 2 <= |all|
  {
    SubsetSize(a + {p, q}, all);
    assert |a + {p}| == |a| + 1;
    assert a + {p, q} == a + {p} + {q};
  }

  function Slots(n: nat): (r: set<nat>)
    ensures |r| == n && forall i: nat :: i in r <==> i < n
  {
    if n == 0 then {} else Slots(n - 1) + {n - 1}
  }

  /** The scan prefers what round robin prefers. */
  lemma {:induction false} ScanBest(tasks: seq<Task>, me: nat, cpu: nat, n: nat, x: nat, nextPid: nat)
    requires me < |tasks| && n <= |tasks| && PidsOk(tasks, nextPid)
    requires x < n && x != me && Eligible(tasks[x], cpu) && !tasks[x].isIdle
    ensures var b := Scan(tasks, me, cpu, n).task;
      b.Some? && (b.value == x || Better(tasks[b.value].pid, tasks[x].pid, tasks[me].pid))
    decreases n
  {
    var b := Scan(tasks, me, cpu, n - 1).task;
    ScanEligible(tasks, me, cpu, n - 1);
    if x < n - 1 {
      ScanBest(tasks, me, cpu, n - 1, x, nextPid);
    }
  }

  /** The task chosen is `x` or one ahead of it, whatever signals ended on the way. */
  lemma {:induction false} ChooseBest(t: Table, me: nat, cpu: nat, x: nat, nextPid: nat, nextSpace: nat)
    requires SpacesOk(t, nextSpace) && me < |t.tasks| && PidsOk(t.tasks, nextPid) && x < |t.tasks| && x != me
    requires !t.tasks[me].state.Dead?
    requires Eligible(Choose(t, me, cpu).0.tasks[x], cpu) && !Choose(t, me, cpu).0.tasks[x].isIdle
    requires Eligible(t.tasks[x], cpu) && !t.tasks[x].isIdle
    ensures var c := Choose(t, me, cpu);
      c.1.Some? && (c.1.value == x || c.1.value in Ahead(c.0.tasks, me, x))
    decreases Alive(t.tasks)
  {
    ScanBest(t.tasks, me, cpu, |t.tasks|, x, nextPid);
    ScanEligible(t.tasks, me, cpu, |t.tasks|);
    var c := Pick(t.tasks, me, cpu);
    var d := Deliver(t, c.value);
    DeliverKept(t, c.value, me, nextSpace);
    if d.1.Terminated? {
      DeliverTerminated(t, c.value);
      StaysPids(t.tasks, d.0.tasks, me, nextPid);
      ChooseKept(d.0, me, cpu, nextSpace);
      assert Fine(t.tasks[me], d.0.tasks[me], true);
      EndedElsewhere(t, c.value, x);
      assert x == c.value ==> Fine(d.0.tasks[x], Choose(t, me, cpu).0.tasks[x], false) ||
                              FreedOk(d.0.tasks[x], Choose(t, me, cpu).0.tasks[x], false);
      ChooseBest(d.0, me, cpu, x, nextPid, nextSpace);
    }
  }

  /** A task ended by its signal does not touch another ready task. */
  lemma EndedElsewhere(t: Table, i: nat, x: nat)
    requires i < |t.tasks| && x < |t.tasks| && t.tasks[x].state.Ready? && t.tasks[i].state.Ready?
    requires Deliver(t, i).1.Terminated?
    ensures if x == i then Deliver(t, i).0.tasks[x].state.Zombie? else Deliver(t, i).0.tasks[x] == t.tasks[x]
  {
    var y := t.tasks[i];
    assert exists k :: k in y.pending;
    var sig := Lowest(y.pending, 0);
    if sig == SIGKILL || sig !in y.handlers || y.sigDepth >= 4 {
      FinishElsewhere(t, i, 128 + (sig as int), x);
    } else {
      FinishElsewhere(t, i, 139, x);
    }
  }

  lemma FinishElsewhere(t: Table, i: nat, code: int, x: nat)
    requires i < |t.tasks| && x < |t.tasks| && t.tasks[x].state.Ready?
    ensures if x == i then Finish(t, i, code).tasks[x].state.Zombie? else Finish(t, i, code).tasks[x] == t.tasks[x]
  {
    var z, me := Zombied(t, i, code), t.tasks[i];
    WakesElsewhere(z.tasks, 0, me.parent, me.tgid, me.pid, code, x);
  }

  lemma {:induction false} WakesElsewhere(tasks: seq<Task>, from: nat, parent: nat, tgid: nat, pid: nat, code: int, x: nat)
    requires x < |tasks| && !tasks[x].state.WaitingChild? && !tasks[x].state.BlockedJoin?
    ensures WakeParent(tasks, from, parent, pid, code)[x] == tasks[x] && WakeJoiner(tasks, from, tgid, pid, code)[x] == tasks[x]
    decreases |tasks| - from
  {
    if from < |tasks| {
      WakesElsewhere(tasks, from + 1, parent, tgid, pid, code, x);
    }
  }

  lemma StaysPids(tasks: seq<Task>, tasks': seq<Task>, me: nat, nextPid: nat)
    requires PidsOk(tasks, nextPid) && Keeps(tasks, tasks', me)
    ensures PidsOk(tasks', nextPid)
  {
  }

  // --- one step ---------------------------------------------------------------------

  /** The machine just before the switching decision. */
  function Before(s: Sched, i: Interrupt): (r: Sched)
    requires i.cpu < |s.cur| == |s.req| && s.cur[i.cpu] < |s.t.tasks|
    ensures |r.t.tasks| == |s.t.tasks| && r.cur == s.cur && |r.req| == |s.req|
  {
    var s1 := Act(s, s.cur[i.cpu], i.action);
    var s2 := s1.(req := s1.req[i.cpu := s1.req[i.cpu] || i.action.Yield?]);
    var s3 := s2.(t := Ticked(s2, i));
    s3.(t := DieIfFlagged(s3.t, s3.cur[i.cpu]), req := s3.req[i.cpu := false])
  }

  /** A step ends with the current task still running, or with a switch. */
  lemma StepSplits(s: Sched, home: seq<nat>, i: Interrupt)
    requires Inv(s, home) && Allowed(s, i)
    ensures Step(s, i) == Before(s, i) || Step(s, i) == Switch(Before(s, i), i.cpu)
  {
  }

  lemma ActKeeps(s: Sched, home: seq<nat>, i: Interrupt)
    requires Inv(s, home) && Allowed(s, i) && !Spawns(i.action)
    ensures Keeps(s.t.tasks, Act(s, s.cur[i.cpu], i.action).t.tasks, s.cur[i.cpu])
  {
    var me := s.cur[i.cpu];
    assert Runs(s.t.tasks, s.cur, i.cpu);
    if i.action.Sleep? || i.action.Park? || i.action.WaitChild? || i.action.JoinThread? || i.action.SetHandler? {
      CallKept(s, home, i);
    } else if i.action.Exit? || i.action.ThreadExit? {
      ExitCallKept(s, home, i, i.action.code);
    } else if i.action.KillPid? || i.action.SendSignal? || i.action.WakeTask? {
      EndCallKept(s, home, i);
    }
  }

  /** The machine after the handler. */
  function Called(s: Sched, i: Interrupt): (r: Sched)
    requires i.cpu < |s.cur| == |s.req| && s.cur[i.cpu] < |s.t.tasks|
    ensures |r.t.tasks| == |s.t.tasks| && r.cur == s.cur && |r.req| == |s.req|
  {
    var s1 := Act(s, s.cur[i.cpu], i.action);
    s1.(req := s1.req[i.cpu := s1.req[i.cpu] || i.action.Yield?])
  }

  lemma CalledKeeps(s: Sched, home: seq<nat>, i: Interrupt)
    requires Inv(s, home) && Allowed(s, i) && !Spawns(i.action) && s.nextPid > 0
    ensures Keeps(s.t.tasks, Called(s, i).t.tasks, s.cur[i.cpu]) && MidS(Called(s, i), home, i.cpu)
  {
    ActKeeps(s, home, i);
    ActMid(s, home, i);
  }

  lemma DutiesKeep(s: Sched, home: seq<nat>, i: Interrupt)
    requires MidS(s, home, i.cpu)
    ensures var me := s.cur[i.cpu]; var t3 := DieIfFlagged(Ticked(s, i), me);
      Keeps(s.t.tasks, t3.tasks, me) && MidS(s.(t := t3), home, i.cpu)
  {
    var me := s.cur[i.cpu];
    var t2 := Ticked(s, i);
    DutiesMid(s, home, i);
    DieMid(s.(t := t2), home, i.cpu);
    if i.timer {
      TimerKept(s.t, me, i.now, i.key, s.nextSpace);
    } else {
      KeptSelf(s.t, me, s.nextSpace);
    }
    if t2.tasks[me].dieFlag && t2.tasks[me].state.Running? {
      FinishKept(t2, me, THREAD_KILLED_CODE, me, s.nextSpace);
    } else {
      KeptSelf(t2, me, s.nextSpace);
    }
    KeepsTrans(s.t.tasks, t2.tasks, DieIfFlagged(t2, me).tasks, me);
  }

  lemma BeforeKeeps(s: Sched, home: seq<nat>, i: Interrupt)
    requires Inv(s, home) && Allowed(s, i) && !Spawns(i.action) && s.nextPid > 0
    ensures Keeps(s.t.tasks, Before(s, i).t.tasks, s.cur[i.cpu]) && MidS(Before(s, i), home, i.cpu)
  {
    CalledKeeps(s, home, i);
    DutiesKeep(Called(s, i), home, i);
    KeepsTrans(s.t.tasks, Called(s, i).t.tasks, Before(s, i).t.tasks, s.cur[i.cpu]);
  }

  /** While `x` waits, a step of another CPU puts nobody ahead of it, and each switch of its CPU takes one away. */
  lemma StepBrings(s: Sched, home: seq<nat>, i: Interrupt, x: nat, c: nat)
    requires Inv(s, home) && Allowed(s, i) && !Spawns(i.action) && s.nextPid > 0
    requires Waits(s, x, c) && Waits(Step(s, i), x, c)
    ensures c < |Step(s, i).cur| && Step(s, i).cur[c] < |s.t.tasks|
    ensures Step(s, i).cur[c] == s.cur[c] ==>
              |Ahead(Step(s, i).t.tasks, s.cur[c], x)| <= |Ahead(s.t.tasks, s.cur[c], x)|
    ensures Step(s, i).cur[c] != s.cur[c] ==>
              |Ahead(Step(s, i).t.tasks, Step(s, i).cur[c], x)| < |Ahead(s.t.tasks, s.cur[c], x)|
  {
    var b := Before(s, i);
    StepSplits(s, home, i);
    StepKeepsInv(s, home, i);
    assert Runs(Step(s, i).t.tasks, Step(s, i).cur, c);
    BeforeBrings(s, home, i, x, c);
    if Step(s, i) != b {
      SwitchBrings(b, home, i.cpu, x, c);
    }
  }

  /** The part of a step before the switch. */
  lemma BeforeBrings(s: Sched, home: seq<nat>, i: Interrupt, x: nat, c: nat)
    requires Inv(s, home) && Allowed(s, i) && !Spawns(i.action) && s.nextPid > 0 && Waits(s, x, c)
    requires Waits(Before(s, i), x, c) || Waits(Switch(Before(s, i), i.cpu), x, c)
    ensures var b := Before(s, i);
      && MidS(b, home, i.cpu) && b.cur[c] == s.cur[c] < |b.t.tasks| && x != b.cur[c]
      && (c != i.cpu ==> Runs(b.t.tasks, b.cur, c)) && b.t.tasks[x].state.Ready?
      && |Ahead(b.t.tasks, b.cur[c], x)| <= |Ahead(s.t.tasks, s.cur[c], x)|
  {
    var b, me := Before(s, i), s.cur[i.cpu];
    BeforeKeeps(s, home, i);
    assert Runs(s.t.tasks, s.cur, c) && Runs(s.t.tasks, s.cur, i.cpu);
    assert Fine(s.t.tasks[x], b.t.tasks[x], false) || FreedOk(s.t.tasks[x], b.t.tasks[x], false);
    if !b.t.tasks[x].state.Ready? {
      EndedStays(b, home, i.cpu, x);
    }
    KeepsNoneNew(s.t.tasks, b.t.tasks, me);
    AheadShrinks(s.t.tasks, b.t.tasks, s.cur[c], x);
    SubsetSize(Ahead(b.t.tasks, s.cur[c], x), Ahead(s.t.tasks, s.cur[c], x));
  }

  /** An ended task is not made ready by a switch. */
  lemma EndedStays(s: Sched, home: seq<nat>, cpu: nat, x: nat)
    requires MidS(s, home, cpu) && x < |s.t.tasks| && x != s.cur[cpu]
    requires s.t.tasks[x].state.Zombie? || s.t.tasks[x].state.Dead?
    ensures !Switch(s, cpu).t.tasks[x].state.Ready?
  {
    var me := s.cur[cpu];
    var t2 := Reap(ParkMe(s.t, me), me);
    var ch := Choose(t2, me, cpu);
    ChosenKeeps(s, home, cpu);
    ChosenMid(s, home, cpu);
    assert Fine(s.t.tasks[x], t2.tasks[x], false) || FreedOk(s.t.tasks[x], t2.tasks[x], false);
    assert Fine(t2.tasks[x], ch.0.tasks[x], false) || FreedOk(t2.tasks[x], ch.0.tasks[x], false);
  }

  lemma SwitchBrings(s: Sched, home: seq<nat>, cpu: nat, x: nat, c: nat)
    requires MidS(s, home, cpu) && c < |s.cur| && s.cur[c] < |s.t.tasks| && x < |s.t.tasks| && x != s.cur[c]
    requires (c != cpu ==> Runs(s.t.tasks, s.cur, c)) && s.t.tasks[x].state.Ready? && Waits(Switch(s, cpu), x, c)
    ensures Switch(s, cpu).cur[c] < |s.t.tasks|
    ensures Switch(s, cpu).cur[c] == s.cur[c] ==>
              |Ahead(Switch(s, cpu).t.tasks, s.cur[c], x)| <= |Ahead(s.t.tasks, s.cur[c], x)|
    ensures Switch(s, cpu).cur[c] != s.cur[c] ==>
              |Ahead(Switch(s, cpu).t.tasks, Switch(s, cpu).cur[c], x)| < |Ahead(s.t.tasks, s.cur[c], x)|
  {
    var after, y := Switch(s, cpu).t.tasks, Switch(s, cpu).cur[c];
    SwitchInv(s, home, cpu);
    assert Runs(after, Switch(s, cpu).cur, c);
    SwitchNames(s, home, cpu);
    CurStays(s, home, cpu, c);
    AheadShrinks(s.t.tasks, after, s.cur[c], x);
    SubsetSize(Ahead(after, s.cur[c], x), Ahead(s.t.tasks, s.cur[c], x));
    if y != s.cur[c] {
      SwitchAhead(s, home, c, x);
      SubsetSize(Ahead(after, y, x), Ahead(after, s.cur[c], x) - {y});
    }
  }

  /** The slot that was current is not freed by the switch. */
  lemma CurStays(s: Sched, home: seq<nat>, cpu: nat, c: nat)
    requires MidS(s, home, cpu) && c < |s.cur| && s.cur[c] < |s.t.tasks| && (c != cpu ==> Runs(s.t.tasks, s.cur, c))
    ensures !Switch(s, cpu).t.tasks[s.cur[c]].state.Dead?
  {
    SwitchInv(s, home, cpu);
    if c == cpu {
      ChosenMid(s, home, cpu);
    } else {
      assert Runs(Switch(s, cpu).t.tasks, Switch(s, cpu).cur, c);
    }
  }

  lemma SwitchNames(s: Sched, home: seq<nat>, cpu: nat)
    requires MidS(s, home, cpu)
    ensures NoneNew(s.t.tasks, Switch(s, cpu).t.tasks)
  {
    var me := s.cur[cpu];
    var t2 := Reap(ParkMe(s.t, me), me);
    var ch := Choose(t2, me, cpu);
    ChosenKeeps(s, home, cpu);
    ChosenMid(s, home, cpu);
    KeepsTrans(s.t.tasks, t2.tasks, ch.0.tasks, me);
    KeepsNoneNew(s.t.tasks, ch.0.tasks, me);
  }

  /** A switch that leaves `x` waiting moves on to a task ahead of it. */
  lemma SwitchAhead(s: Sched, home: seq<nat>, c: nat, x: nat)
    requires MidS(s, home, c) && Waits(Switch(s, c), x, c) && x != s.cur[c] && Inv(Switch(s, c), home)
    requires !s.t.tasks[x].state.Dead? && (s.t.tasks[x].state.Ready? || s.t.tasks[x].state.Zombie?)
    requires Switch(s, c).cur[c] != s.cur[c]
    ensures var y, after := Switch(s, c).cur[c], Switch(s, c).t.tasks;
      y < |after| && Ahead(after, y, x) <= Ahead(after, s.cur[c], x) - {y} && y in Ahead(after, s.cur[c], x)
  {
    var me, after := s.cur[c], Switch(s, c).t.tasks;
    var t2 := Reap(ParkMe(s.t, me), me);
    var ch := Choose(t2, me, c);
    ChosenKeeps(s, home, c);
    ChosenMid(s, home, c);
    assert Fine(t2.tasks[x], ch.0.tasks[x], false) || FreedOk(t2.tasks[x], ch.0.tasks[x], false);
    ChooseBest(t2, me, c, x, s.nextPid, s.nextSpace);
    assert Ahead(after, me, x) == Ahead(ch.0.tasks, me, x);
    AheadFalls(after, me, x, ch.1.value, Switch(s, c).nextPid);
  }

  lemma ChosenKeeps(s: Sched, home: seq<nat>, cpu: nat)
    requires MidS(s, home, cpu)
    ensures var me := s.cur[cpu]; var t2 := Reap(ParkMe(s.t, me), me);
      && Keeps(s.t.tasks, t2.tasks, me) && Keeps(t2.tasks, Choose(t2, me, cpu).0.tasks, me)
      && SpacesOk(t2, s.nextSpace) && PidsOk(t2.tasks, s.nextPid) && !t2.tasks[me].state.Dead?
  {
    var me := s.cur[cpu];
    var x := s.t.tasks[me];
    var t1, n := ParkMe(s.t, me), s.nextSpace;
    var t2 := Reap(t1, me);
    KeptPut(s.t, me, x.(started := true, state := if x.state.Running? then Ready else x.state), me, n);
    ReapKept(t1, me, n);
    KeptTrans(s.t, t1, t2, me, n);
    ChooseKept(t2, me, cpu, n);
    StaysPids(s.t.tasks, t2.tasks, me, s.nextPid);
  }

  // --- the bound ------------------------------------------------------------------------

  /** `x` is ready, and may run on CPU `c`, at every step of the run. */
  ghost predicate WaitsThroughout(s: Sched, steps: seq<Interrupt>, x: nat, c: nat)
    requires Run(s, steps)
    decreases |steps|
  {
    Waits(s, x, c) && (steps == [] || (!Spawns(steps[0].action) && WaitsThroughout(Step(s, steps[0]), steps[1..], x, c)))
  }

  ghost function Switches(s: Sched, steps: seq<Interrupt>, c: nat): nat
    requires Run(s, steps) && c < |s.cur|
    decreases |steps|
  {
    if steps == [] then 0
    else (if Step(s, steps[0]).cur[c] != s.cur[c] then 1 else 0) + Switches(Step(s, steps[0]), steps[1..], c)
  }

  lemma {:induction false} WaitFalls(s: Sched, home: seq<nat>, steps: seq<Interrupt>, x: nat, c: nat)
    requires Inv(s, home) && s.nextPid > 0 && Run(s, steps) && WaitsThroughout(s, steps, x, c)
    ensures s.cur[c] < |s.t.tasks| && Switches(s, steps, c) <= |Ahead(s.t.tasks, s.cur[c], x)|
    decreases |steps|
  {
    assert Runs(s.t.tasks, s.cur, c);
    if steps != [] {
      StepKeepsInv(s, home, steps[0]);
      StepBrings(s, home, steps[0], x, c);
      WaitFalls(Step(s, steps[0]), home, steps[1..], x, c);
    }
  }

  /** Bounded waiting: a ready task that may run on `c` and is no idle task stays unchosen for at most
      MAX_TASKS - 2 switches of `c` while nothing is created, whatever the other CPUs do. */
  lemma BoundedWaiting(s: Sched, home: seq<nat>, steps: seq<Interrupt>, x: nat, c: nat)
    requires Inv(s, home) && s.nextPid > 0 && Run(s, steps) && WaitsThroughout(s, steps, x, c)
    ensures Switches(s, steps, c) <= MAX_TASKS - 2
  {
    WaitFalls(s, home, steps, x, c);
    assert Runs(s.t.tasks, s.cur, c);
    AheadBound(s.t.tasks, s.cur[c], x);
  }
}
