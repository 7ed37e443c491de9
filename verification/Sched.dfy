/** The scheduler as the kernel keeps it: one task table updated in place, one current slot and one switch
    request per CPU. */
module Scheduler {
  import opened Frames
  import opened SchedSpec

  class Machine {
    const tasks: array<Task>
    const cur: array<nat>
    const req: array<bool>
    var nextPid: nat
    var nextSpace: nat
    ghost var gone: multiset<nat>

    ghost predicate Valid()
      reads this, cur
    {
      && tasks.Length == MAX_TASKS && cur.Length == req.Length
      && forall c | 0 <= c < cur.Length :: cur[c] < MAX_TASKS
    }

    ghost function Now(): (t: Table)
      reads this, tasks
      ensures |t.tasks| == tasks.Length
    {
      Table(tasks[..], gone)
    }

    ghost function Model(): Sched
      reads this, tasks, cur, req
    {
      Sched(Now(), cur[..], req[..], nextPid, nextSpace)
    }

    // --- ending tasks ------------------------------------------------------------

    method DropReference(i: nat)
      requires i < tasks.Length
      modifies this`gone, tasks
      ensures Now() == DropSpace(old(Now()), i)
    {
      gone := gone + SpaceGone(tasks[..], i);
      tasks[i] := tasks[i].(space := None);
    }

    method WakeWaitingParent(parent: nat, pid: nat, code: int)
      modifies tasks
      ensures tasks[..] == WakeParent(old(tasks[..]), 0, parent, pid, code)
    {
      ghost var was := tasks[..];
      for i := 0 to tasks.Length
        invariant tasks[..] == was && WakeParent(was, i, parent, pid, code) == WakeParent(was, 0, parent, pid, code)
      {
        if WaitsFor(tasks[i], parent, pid) {
          tasks[i] := Delivered(tasks[i], code).(waitTarget := 0);
          return;
        }
      }
    }

    method WakeJoiningSibling(tgid: nat, pid: nat, code: int)
      modifies tasks
      ensures tasks[..] == WakeJoiner(old(tasks[..]), 0, tgid, pid, code)
    {
      ghost var was := tasks[..];
      for i := 0 to tasks.Length
        invariant tasks[..] == was && WakeJoiner(was, i, tgid, pid, code) == WakeJoiner(was, 0, tgid, pid, code)
      {
        if JoinsFor(tasks[i], tgid, pid) {
          tasks[i] := Delivered(tasks[i], code).(joinTarget := 0);
          return;
        }
      }
    }

    /** finish_zombie_locked. */
    method FinishZombie(slot: nat, code: int)
      requires slot < tasks.Length
      modifies this`gone, tasks
      ensures Now() == Finish(old(Now()), slot, code)
    {
      var me := tasks[slot];
      DropReference(slot);
      tasks[slot] := tasks[slot].(exitCode := code, state := Zombie, onCpu := None);
      assert Now() == Zombied(old(Now()), slot, code);
      if me.pid == me.tgid {
        WakeWaitingParent(me.parent, me.pid, code);
      } else {
        WakeJoiningSibling(me.tgid, me.pid, code);
      }
    }

    /** exit_current: the thread group first, then the caller. */
    method ExitCurrent(me: nat, code: int)
      requires me < tasks.Length
      modifies this`gone, tasks
      ensures Now() == ExitProcess(old(Now()), me, code)
    {
      var tgid := tasks[me].tgid;
      if tasks[me].isUser {
        ghost var t0 := Now();
        for i := 0 to tasks.Length
          invariant Sweep(Now(), me, tgid, i) == Sweep(t0, me, tgid, 0)
        {
          var x := tasks[i];
          if i != me && !x.state.Dead? && !x.state.Zombie? && x.isUser && x.tgid == tgid {
            if x.state.Running? {
              ghost var t := Now();
              tasks[i] := x.(dieFlag := true);
              assert Now() == Put(t, i, x.(dieFlag := true));
            } else {
              FinishZombie(i, THREAD_KILLED_CODE);
            }
          }
        }
      }
      FinishZombie(me, code);
    }

    /** kill by pid, from the task in slot `me`. */
    method KillTask(me: nat, pid: nat)
      requires me < tasks.Length
      modifies this`gone, tasks
      ensures Now() == Kill(old(Now()), me, pid)
    {
      if pid == tasks[me].pid {
        return;
      }
      ghost var t0 := Now();
      for i := 0 to tasks.Length
        invariant Now() == t0 && FindPid(t0.tasks, i, pid) == FindPid(t0.tasks, 0, pid)
      {
        if !tasks[i].state.Dead? && tasks[i].pid == pid {
          if tasks[i].state.Running? {
            return;
          }
          if !tasks[i].state.Zombie? {
            DropReference(i);
          }
          ghost var t1 := Now();
          tasks[i] := DEAD;
          assert Now() == Freed(t1, i);
          return;
        }
      }
    }

    /** send_signal: queue it, and wake a parked target. */
    method SendSignal(me: nat, pid: nat, sig: nat)
      requires me < tasks.Length
      modifies tasks
      ensures Now() == Signal(old(Now()), me, pid, sig)
    {
      if sig >= NSIG || pid == tasks[me].pid {
        return;
      }
      ghost var t0 := Now();
      for i := 0 to tasks.Length
        invariant Now() == t0 && FindPid(t0.tasks, i, pid) == FindPid(t0.tasks, 0, pid)
      {
        if !tasks[i].state.Dead? && tasks[i].pid == pid {
          if !tasks[i].isUser || tasks[i].state.Zombie? {
            return;
          }
          var x := tasks[i];
          tasks[i] := x.(pending := x.pending + {sig}, state := if Parked(x.state) then Ready else x.state);
          return;
        }
      }
    }

    // --- timer duties -------------------------------------------------------------

    method WakeAllSleepers(now: nat)
      modifies tasks
      ensures tasks[..] == WakeSleepers(old(tasks[..]), now)
    {
      ghost var was := tasks[..];
      for i := 0 to tasks.Length
        invariant forall k | 0 <= k < i :: tasks[k] == WakeSleepers(was, now)[k]
        invariant forall k | i <= k < tasks.Length :: tasks[k] == was[k]
      {
        if tasks[i].state.Sleeping? && tasks[i].wakeAt <= now {
          tasks[i] := tasks[i].(state := Ready);
        }
      }
      assert tasks[..] == WakeSleepers(was, now);
    }

    method DeliverKey(key: Option<int>)
      modifies tasks
      ensures tasks[..] == GiveKey(old(tasks[..]), 0, key)
    {
      ghost var was := tasks[..];
      for i := 0 to tasks.Length
        invariant tasks[..] == was && GiveKey(was, i, key) == GiveKey(was, 0, key)
      {
        if tasks[i].state.BlockedInput? {
          if key.Some? {
            tasks[i] := Delivered(tasks[i], key.value);
          }
          return;
        }
      }
    }

    /** Wake sleepers, hand out one key, take a running user task off the CPU. */
    method TimerDuties(cpu: nat, now: nat, key: Option<int>)
      requires Valid() && cpu < cur.Length
      modifies tasks, req
      ensures Valid()
      ensures Now() == SchedSpec.TimerDuties(old(Now()), cur[cpu], now, key)
      ensures req[..] == old(req[..])[cpu := old(req[cpu]) ||
                Preempts(Table(GiveKey(WakeSleepers(old(tasks[..]), now), 0, key), gone), cur[cpu])]
    {
      WakeAllSleepers(now);
      DeliverKey(key);
      var me := cur[cpu];
      ghost var t := Now();
      if tasks[me].isUser && tasks[me].state.Running? {
        tasks[me] := tasks[me].(state := Ready);
        assert Now() == Put(t, me, t.tasks[me].(state := Ready));
        req[cpu] := true;
      }
    }

    // --- choosing -------------------------------------------------------------------

    /** pick_next: one read-only pass over the table. */
    method PickNext(cpu: nat) returns (r: Option<nat>)
      requires Valid() && cpu < cur.Length
      ensures r == Pick(tasks[..], cur[cpu], cpu)
    {
      var me := cur[cpu];
      var curPid := tasks[me].pid;
      var best: Option<nat>, bestIdle: Option<nat> := None, None;
      for i := 0 to tasks.Length
        invariant Best(best, bestIdle) == Scan(tasks[..], me, cpu, i)
      {
        var t := tasks[i];
        if t.state.Ready? && i != me && (t.pinned.None? || t.pinned.value == cpu) {
          if t.isIdle {
            bestIdle := Some(i);
          } else {
            var better := true;
            if best.Some? {
              var bp := tasks[best.value].pid;
              var aAfter, bAfter := t.pid > curPid, bp > curPid;
              better := if aAfter != bAfter then aAfter else t.pid < bp;
            }
            if better {
              best := Some(i);
            }
          }
        }
      }
      r := if best.Some? then best else bestIdle;
    }

    /** The lowest pending signal: trailing zeros of the bitmap. */
    method LowestPending(s: set<Sig>) returns (sig: Sig)
      requires s != {}
      ensures (exists k :: k in s) && sig == Lowest(s, 0)
    {
      assert exists k :: k in s;
      var k: nat := 0;
      while k < NSIG && k !in s
        invariant k <= NSIG && (exists j :: j in s && j >= k) && Lowest(s, k) == Lowest(s, 0)
      {
        k := k + 1;
      }
      sig := k;
    }

    /** deliver_pending_locked. */
    method DeliverPending(slot: nat) returns (d: Delivery)
      requires slot < tasks.Length
      modifies this`gone, tasks
      ensures (Now(), d) == Deliver(old(Now()), slot)
    {
      var x := tasks[slot];
      if !x.isUser || x.pending == {} || x.space.None? {
        return Nothing;
      }
      var sig := LowestPending(x.pending);
      if sig == SIGKILL || sig !in x.handlers || x.sigDepth >= 4 {
        FinishZombie(slot, 128 + (sig as int));
        return Terminated;
      }
      if x.stackOk && x.started {
        tasks[slot] := x.(pending := x.pending - {sig}, sigDepth := x.sigDepth + 1);
        return Handled;
      }
      FinishZombie(slot, 139);
      return Terminated;
    }

    /** The pick and deliver loop: it ends, although ending a task may wake another. */
    method ChooseNext(cpu: nat) returns (r: Option<nat>)
      requires Valid() && cpu < cur.Length
      modifies this`gone, tasks
      ensures Valid() && (Now(), r) == Choose(old(Now()), cur[cpu], cpu)
    {
      var me := cur[cpu];
      ghost var t0 := Now();
      while true
        invariant Valid() && cur[cpu] == me && Choose(Now(), me, cpu) == Choose(t0, me, cpu)
        decreases Alive(tasks[..])
      {
        ghost var t := Now();
        r := PickNext(cpu);
        if r.None? {
          return;
        }
        ScanEligible(t.tasks, me, cpu, |t.tasks|);
        DeliverTerminated(t, r.value);
        var d := DeliverPending(r.value);
        if !d.Terminated? {
          return;
        }
      }
    }

    // --- the switching core ------------------------------------------------------------

    method ReapZombies(me: nat)
      requires me < tasks.Length
      modifies tasks
      ensures Now() == Reap(old(Now()), me)
    {
      ghost var was := Now();
      for i := 0 to tasks.Length
        invariant forall k | 0 <= k < i :: tasks[k] == Reap(was, me).tasks[k]
        invariant forall k | i <= k < tasks.Length :: tasks[k] == was.tasks[k]
        invariant tasks[me].pid == was.tasks[me].pid
      {
        if tasks[i].state.Zombie? && tasks[i].pid != tasks[me].pid {
          tasks[i] := DEAD;
        }
      }
      assert tasks[..] == Reap(was, me).tasks;
    }

    /** Park the current task, reap, choose, run. */
    method SwitchTasks(cpu: nat)
      requires Valid() && cpu < cur.Length
      modifies this`gone, tasks, cur
      ensures Valid() && Model() == Switch(old(Model()), cpu)
    {
      var me := cur[cpu];
      ghost var s0 := Model();
      var x := tasks[me];
      tasks[me] := x.(started := true, state := if x.state.Running? then Ready else x.state);
      assert Now() == ParkMe(s0.t, me);
      ReapZombies(me);
      var next := ChooseNext(cpu);
      ghost var t := Now();
      if next.None? {
        tasks[me] := tasks[me].(state := Running);
        assert Now() == Put(t, me, t.tasks[me].(state := Running));
      } else {
        tasks[next.value] := tasks[next.value].(state := Running, onCpu := Some(cpu));
        assert Now() == Put(t, next.value, t.tasks[next.value].(state := Running, onCpu := Some(cpu)));
        cur[cpu] := next.value;
      }
    }

    /** post_dispatch: the tail of every interrupt. */
    method PostDispatch(i: Interrupt)
      requires Valid() && i.cpu < cur.Length
      modifies this`gone, tasks, cur, req
      ensures Valid() && Model() == SchedSpec.PostDispatch(old(Model()), i)
    {
      ghost var s0 := Model();
      var me := cur[i.cpu];
      if i.timer {
        TimerDuties(i.cpu, i.now, i.key);
      }
      if tasks[me].dieFlag && tasks[me].state.Running? {
        FinishZombie(me, THREAD_KILLED_CODE);
      }
      var asked := req[i.cpu];
      req[i.cpu] := false;
      assert req[..] == s0.req[i.cpu := false];
      if asked || !tasks[me].state.Running? {
        SwitchTasks(i.cpu);
      }
    }
  }
}
