/** The SMP scheduler as functions on the task table: one interrupt on one CPU is one step, from the system
    call the current task made to the choice of the next task. */
module SchedSpec {
  import opened Frames

  const MAX_TASKS: nat := 16
  const NSIG: nat := 16
  const SIGKILL: nat := 9
  const THREAD_KILLED_CODE: int := 143

  type Sig = k: nat | k < NSIG

  datatype RunState =
    Running | Ready | Sleeping | BlockedInput | BlockedChan | BlockedSock | WaitingChild | BlockedJoin | Zombie | Dead

  /** A slot of the task table.  `space` is the shared address space, by identity; `result` what the parked
      frame will return; `stackOk` whether a signal frame can be pushed on the user stack. */
  datatype Task = Task(
    pid: nat, state: RunState, pinned: Option<nat>, onCpu: Option<nat>, isIdle: bool, isUser: bool,
    space: Option<nat>, parent: nat, tgid: nat, waitTarget: nat, joinTarget: nat, dieFlag: bool,
    exitCode: int, wakeAt: nat, pending: set<Sig>, handlers: set<Sig>, sigDepth: nat, stackOk: bool,
    started: bool, result: int)

  const DEAD: Task := Task(0, Dead, None, None, false, false, None, 0, 0, 0, 0, false, 0, 0, {}, {}, 0, false, false, 0)

  /** The table, and every address space destroyed so far. */
  datatype Table = Table(tasks: seq<Task>, gone: multiset<nat>)

  predicate Sized(t: Table) {
    |t.tasks| == MAX_TASKS
  }

  function Put(t: Table, i: nat, task: Task): Table
    requires i < |t.tasks|
  {
    t.(tasks := t.tasks[i := task])
  }

  // -------------------------------------------------------------------------
  // Ending a task
  // -------------------------------------------------------------------------

  /** No other slot refers to the space of slot `i`: the reference is the last one. */
  predicate LastHolder(tasks: seq<Task>, i: nat)
    requires i < |tasks|
  {
    forall j | 0 <= j < |tasks| && j != i :: tasks[j].space != tasks[i].space
  }

  function SpaceGone(tasks: seq<Task>, i: nat): multiset<nat>
    requires i < |tasks|
  {
    if tasks[i].space.Some? && LastHolder(tasks, i) then multiset{tasks[i].space.value} else multiset{}
  }

  /** Drop the reference of slot `i`; the last reference destroys the space. */
  function DropSpace(t: Table, i: nat): Table
    requires i < |t.tasks|
  {
    Table(t.tasks[i := t.tasks[i].(space := None)], t.gone + SpaceGone(t.tasks, i))
  }

  predicate WaitsFor(task: Task, parent: nat, pid: nat) {
    task.state.WaitingChild? && task.pid == parent && (task.waitTarget == 0 || task.waitTarget == pid)
  }

  predicate JoinsFor(task: Task, tgid: nat, pid: nat) {
    task.state.BlockedJoin? && task.tgid == tgid && (task.joinTarget == pid || task.joinTarget == 0)
  }

  function Delivered(task: Task, code: int): Task {
    if task.started then task.(result := code, state := Ready) else task.(state := Ready)
  }

  /** Wake the first parent parked in wait for `pid`. */
  function WakeParent(tasks: seq<Task>, from: nat, parent: nat, pid: nat, code: int): (r: seq<Task>)
    ensures |r| == |tasks|
    decreases |tasks| - from
  {
    if from >= |tasks| then tasks
    else if WaitsFor(tasks[from], parent, pid) then tasks[from := Delivered(tasks[from], code).(waitTarget := 0)]
    else WakeParent(tasks, from + 1, parent, pid, code)
  }

  /** Wake the first sibling parked in join for `pid`. */
  function WakeJoiner(tasks: seq<Task>, from: nat, tgid: nat, pid: nat, code: int): (r: seq<Task>)
    ensures |r| == |tasks|
    decreases |tasks| - from
  {
    if from >= |tasks| then tasks
    else if JoinsFor(tasks[from], tgid, pid) then tasks[from := Delivered(tasks[from], code).(joinTarget := 0)]
    else WakeJoiner(tasks, from + 1, tgid, pid, code)
  }

  function Zombied(t: Table, i: nat, code: int): Table
    requires i < |t.tasks|
  {
    var t1 := DropSpace(t, i);
    Put(t1, i, t1.tasks[i].(exitCode := code, state := Zombie, onCpu := None))
  }

  /** Turn slot `i` into a zombie and wake whoever waits for it. */
  function Finish(t: Table, i: nat, code: int): (r: Table)
    requires i < |t.tasks|
    ensures |r.tasks| == |t.tasks|
  {
    var me := t.tasks[i];
    var z := Zombied(t, i, code);
    if me.pid == me.tgid then z.(tasks := WakeParent(z.tasks, 0, me.parent, me.pid, code))
    else z.(tasks := WakeJoiner(z.tasks, 0, me.tgid, me.pid, code))
  }

  function Freed(t: Table, i: nat): Table
    requires i < |t.tasks|
  {
    Put(t, i, DEAD)
  }

  /** A process exit takes its thread group along: parked threads now, running ones at their next interrupt. */
  function Sweep(t: Table, me: nat, tgid: nat, from: nat): (r: Table)
    requires me < |t.tasks|
    ensures |r.tasks| == |t.tasks|
    decreases |t.tasks| - from
  {
    if from >= |t.tasks| then t
    else
      var x := t.tasks[from];
      if from == me || x.state.Dead? || x.state.Zombie? || !x.isUser || x.tgid != tgid then Sweep(t, me, tgid, from + 1)
      else if x.state.Running? then Sweep(Put(t, from, x.(dieFlag := true)), me, tgid, from + 1)
      else Sweep(Finish(t, from, THREAD_KILLED_CODE), me, tgid, from + 1)
  }

  function ExitProcess(t: Table, me: nat, code: int): (r: Table)
    requires me < |t.tasks|
    ensures |r.tasks| == |t.tasks|
  {
    var swept := if t.tasks[me].isUser then Sweep(t, me, t.tasks[me].tgid, 0) else t;
    Finish(swept, me, code)
  }

  function ExitThread(t: Table, me: nat, code: int): (r: Table)
    requires me < |t.tasks|
    ensures |r.tasks| == |t.tasks|
  {
    if t.tasks[me].pid == t.tasks[me].tgid then ExitProcess(t, me, code) else Finish(t, me, code)
  }

  /** The first slot that is not free and carries `pid`. */
  function FindPid(tasks: seq<Task>, from: nat, pid: nat): (r: Option<nat>)
    ensures r.Some? ==> from <= r.value < |tasks| && !tasks[r.value].state.Dead? && tasks[r.value].pid == pid
    ensures r.None? ==> forall i | from <= i < |tasks| :: tasks[i].state.Dead? || tasks[i].pid != pid
    decreases |tasks| - from
  {
    if from >= |tasks| then None
    else if !tasks[from].state.Dead? && tasks[from].pid == pid then Some(from)
    else FindPid(tasks, from + 1, pid)
  }

  /** kill: running tasks are refused, zombies reaped, others lose their space reference and their slot. */
  function Kill(t: Table, me: nat, pid: nat): (r: Table)
    requires me < |t.tasks|
    ensures |r.tasks| == |t.tasks|
  {
    if pid == t.tasks[me].pid then t else
    var i := FindPid(t.tasks, 0, pid);
    if i.None? || t.tasks[i.value].state.Running? then t
    else if t.tasks[i.value].state.Zombie? then Freed(t, i.value)
    else Freed(DropSpace(t, i.value), i.value)
  }

  // -------------------------------------------------------------------------
  // Signals and wake-ups
  // -------------------------------------------------------------------------

  predicate Parked(s: RunState) {
    s.BlockedInput? || s.BlockedChan? || s.BlockedSock? || s.WaitingChild? || s.BlockedJoin? || s.Sleeping?
  }

  function Signal(t: Table, me: nat, pid: nat, sig: nat): (r: Table)
    requires me < |t.tasks|
    ensures |r.tasks| == |t.tasks|
  {
    if sig >= NSIG || pid == t.tasks[me].pid then t else
    var i := FindPid(t.tasks, 0, pid);
    if i.None? || !t.tasks[i.value].isUser || t.tasks[i.value].state.Zombie? then t
    else
      var x := t.tasks[i.value];
      Put(t, i.value, x.(pending := x.pending + {sig}, state := if Parked(x.state) then Ready else x.state))
  }

  /** wake_chan_waiter and wake_sock_waiter: slot numbers are stored plus one. */
  function WakeWaiter(t: Table, waiter: nat, parkedIn: RunState): (r: Table)
    ensures |r.tasks| == |t.tasks|
  {
    if waiter == 0 || waiter - 1 >= |t.tasks| || t.tasks[waiter - 1].state != parkedIn then t
    else Put(t, waiter - 1, t.tasks[waiter - 1].(state := Ready))
  }

  // -------------------------------------------------------------------------
  // Creating tasks
  // -------------------------------------------------------------------------

  function FirstDead(tasks: seq<Task>, from: nat): (r: Option<nat>)
    ensures r.Some? ==> from <= r.value < |tasks| && tasks[r.value].state.Dead?
    ensures r.None? ==> forall i | from <= i < |tasks| :: !tasks[i].state.Dead?
    decreases |tasks| - from
  {
    if from >= |tasks| then None else if tasks[from].state.Dead? then Some(from) else FirstDead(tasks, from + 1)
  }

  function NewTask(pid: nat, pinned: Option<nat>, isUser: bool, space: Option<nat>, parent: nat, tgid: nat,
                   handlers: set<Sig>): Task
  {
    Task(pid, Ready, pinned, None, false, isUser, space, parent, tgid, 0, 0, false, 0, 0, {}, handlers, 0, true, true, 0)
  }

  // -------------------------------------------------------------------------
  // Waiting
  // -------------------------------------------------------------------------

  predicate ChildDone(x: Task, me: nat, target: nat) {
    x.state.Zombie? && x.parent == me && x.pid == x.tgid && (target == 0 || target == x.pid)
  }

  predicate SiblingDone(x: Task, tgid: nat, pid: nat, target: nat) {
    x.state.Zombie? && x.tgid == tgid && x.pid != pid && (target == 0 || target == x.pid)
  }

  predicate SiblingAlive(x: Task, tgid: nat, pid: nat, target: nat) {
    !x.state.Dead? && !x.state.Zombie? && x.isUser && x.tgid == tgid && x.pid != pid && (target == 0 || target == x.pid)
  }

  function FirstSiblingDone(tasks: seq<Task>, from: nat, tgid: nat, pid: nat, target: nat): (r: Option<nat>)
    ensures r.Some? ==> from <= r.value < |tasks| && SiblingDone(tasks[r.value], tgid, pid, target)
    decreases |tasks| - from
  {
    if from >= |tasks| then None
    else if SiblingDone(tasks[from], tgid, pid, target) then Some(from)
    else FirstSiblingDone(tasks, from + 1, tgid, pid, target)
  }

  /** wait: a child that is a zombie, or a code in the mailbox, answers at once; else park. */
  function Wait(t: Table, me: nat, target: nat, mailbox: bool): (r: Table)
    requires me < |t.tasks|
    ensures |r.tasks| == |t.tasks|
  {
    var x := t.tasks[me];
    if (exists i | 0 <= i < |t.tasks| :: ChildDone(t.tasks[i], x.pid, target)) || (target != 0 && mailbox) then t
    else Put(t, me, x.(waitTarget := target, state := WaitingChild))
  }

  /** join: a zombie sibling is reaped, a code in the mailbox or no live sibling answers at once; else park. */
  function Join(t: Table, me: nat, target: nat, mailbox: bool): (r: Table)
    requires me < |t.tasks|
    ensures |r.tasks| == |t.tasks|
  {
    var x := t.tasks[me];
    if !x.isUser then t else
    var z := FirstSiblingDone(t.tasks, 0, x.tgid, x.pid, target);
    if z.Some? then Freed(t, z.value)
    else if target != 0 && mailbox then t
    else if !(exists i | 0 <= i < |t.tasks| :: SiblingAlive(t.tasks[i], x.tgid, x.pid, target)) then t
    else Put(t, me, x.(joinTarget := target, state := BlockedJoin))
  }

  // -------------------------------------------------------------------------
  // Timer duties
  // -------------------------------------------------------------------------

  function WakeSleepers(tasks: seq<Task>, now: nat): (r: seq<Task>)
    ensures |r| == |tasks|
    ensures forall i | 0 <= i < |tasks| :: r[i] ==
              if tasks[i].state.Sleeping? && tasks[i].wakeAt <= now then tasks[i].(state := Ready) else tasks[i]
  {
    seq(|tasks|, i requires 0 <= i < |tasks| =>
      if tasks[i].state.Sleeping? && tasks[i].wakeAt <= now then tasks[i].(state := Ready) else tasks[i])
  }

  /** One key goes to the first task that waits for input. */
  function GiveKey(tasks: seq<Task>, from: nat, key: Option<int>): (r: seq<Task>)
    ensures |r| == |tasks|
    decreases |tasks| - from
  {
    if from >= |tasks| then tasks
    else if tasks[from].state.BlockedInput? then
      if key.Some? then tasks[from := Delivered(tasks[from], key.value)] else tasks
    else GiveKey(tasks, from + 1, key)
  }

  /** Preempt a user task that was still running. */
  function Preempt(t: Table, me: nat): (r: Table)
    requires me < |t.tasks|
    ensures |r.tasks| == |t.tasks|
  {
    if t.tasks[me].isUser && t.tasks[me].state.Running? then Put(t, me, t.tasks[me].(state := Ready)) else t
  }

  predicate Preempts(t: Table, me: nat)
    requires me < |t.tasks|
  {
    t.tasks[me].isUser && t.tasks[me].state.Running?
  }

  // -------------------------------------------------------------------------
  // Choosing
  // -------------------------------------------------------------------------

  predicate Eligible(x: Task, cpu: nat) {
    x.state.Ready? && (x.pinned.None? || x.pinned.value == cpu)
  }

  /** Round robin: pids after the current one first, then lower pids first. */
  predicate Better(a: nat, b: nat, cur: nat) {
    if (a > cur) != (b > cur) then a > cur else a < b
  }

  datatype Best = Best(task: Option<nat>, idle: Option<nat>)

  /** The scan of pick_next over the first `n` slots. */
  function Scan(tasks: seq<Task>, me: nat, cpu: nat, n: nat): (b: Best)
    requires me < |tasks| && n <= |tasks|
    ensures b.task.Some? ==> b.task.value < n
    ensures b.idle.Some? ==> b.idle.value < n
  {
    if n == 0 then Best(None, None) else
    var b := Scan(tasks, me, cpu, n - 1);
    var i := n - 1;
    if i == me || !Eligible(tasks[i], cpu) then b
    else if tasks[i].isIdle then b.(idle := Some(i))
    else if b.task.None? || Better(tasks[i].pid, tasks[b.task.value].pid, tasks[me].pid) then b.(task := Some(i))
    else b
  }

  function Pick(tasks: seq<Task>, me: nat, cpu: nat): (r: Option<nat>)
    requires me < |tasks|
    ensures r.Some? ==> r.value < |tasks|
  {
    var b := Scan(tasks, me, cpu, |tasks|);
    if b.task.Some? then b.task else b.idle
  }

  // -------------------------------------------------------------------------
  // Delivering signals to the candidate
  // -------------------------------------------------------------------------

  /** The lowest pending signal. */
  function Lowest(s: set<Sig>, from: nat): (r: Sig)
    requires exists k | k in s :: k >= from
    ensures r in s && r >= from && forall k | k in s && k >= from :: r <= k
    decreases NSIG - from
  {
    if from < NSIG && from in s then from else Lowest(s, from + 1)
  }

  datatype Delivery = Nothing | Handled | Terminated

  function Deliver(t: Table, i: nat): (r: (Table, Delivery))
    requires i < |t.tasks|
    ensures |r.0.tasks| == |t.tasks|
  {
    var x := t.tasks[i];
    if !x.isUser || x.pending == {} || x.space.None? then (t, Nothing) else
    assert exists k :: k in x.pending;
    var sig := Lowest(x.pending, 0);
    if sig == SIGKILL || sig !in x.handlers || x.sigDepth >= 4 then (Finish(t, i, 128 + sig), Terminated)
    else if x.stackOk && x.started then (Put(t, i, x.(pending := x.pending - {sig}, sigDepth := x.sigDepth + 1)), Handled)
    else (Finish(t, i, 139), Terminated)
  }

  /** Tasks that can still be ended. */
  function Alive(tasks: seq<Task>): nat {
    if tasks == [] then 0
    else (if tasks[0].state.Dead? || tasks[0].state.Zombie? then 0 else 1) + Alive(tasks[1..])
  }

  lemma {:induction false} AliveUpdate(tasks: seq<Task>, i: nat, x: Task)
    requires i < |tasks|
    ensures Alive(tasks[i := x]) == Alive(tasks)
              - (if tasks[i].state.Dead? || tasks[i].state.Zombie? then 0 else 1)
              + (if x.state.Dead? || x.state.Zombie? then 0 else 1)
  {
    if i == 0 {
      assert tasks[0 := x][1..] == tasks[1..];
    } else {
      assert tasks[i := x][1..] == tasks[1..][i - 1 := x];
      AliveUpdate(tasks[1..], i - 1, x);
    }
  }

  lemma {:induction false} WakeParentAlive(tasks: seq<Task>, from: nat, parent: nat, pid: nat, code: int)
    ensures Alive(WakeParent(tasks, from, parent, pid, code)) == Alive(tasks)
    decreases |tasks| - from
  {
    if from < |tasks| {
      if WaitsFor(tasks[from], parent, pid) {
        AliveUpdate(tasks, from, Delivered(tasks[from], code).(waitTarget := 0));
      } else {
        WakeParentAlive(tasks, from + 1, parent, pid, code);
      }
    }
  }

  lemma {:induction false} WakeJoinerAlive(tasks: seq<Task>, from: nat, tgid: nat, pid: nat, code: int)
    ensures Alive(WakeJoiner(tasks, from, tgid, pid, code)) == Alive(tasks)
    decreases |tasks| - from
  {
    if from < |tasks| {
      if JoinsFor(tasks[from], tgid, pid) {
        AliveUpdate(tasks, from, Delivered(tasks[from], code).(joinTarget := 0));
      } else {
        WakeJoinerAlive(tasks, from + 1, tgid, pid, code);
      }
    }
  }

  /** Ending a live task leaves fewer, although it may wake its parent. */
  lemma FinishAlive(t: Table, i: nat, code: int)
    requires i < |t.tasks| && !t.tasks[i].state.Dead? && !t.tasks[i].state.Zombie?
    ensures Alive(Finish(t, i, code).tasks) == Alive(t.tasks) - 1
  {
    var me, t1, z := t.tasks[i], DropSpace(t, i), Zombied(t, i, code);
    AliveUpdate(t.tasks, i, me.(space := None));
    AliveUpdate(t1.tasks, i, t1.tasks[i].(exitCode := code, state := Zombie, onCpu := None));
    WakeParentAlive(z.tasks, 0, me.parent, me.pid, code);
    WakeJoinerAlive(z.tasks, 0, me.tgid, me.pid, code);
  }

  lemma {:induction false} ScanEligible(tasks: seq<Task>, me: nat, cpu: nat, n: nat)
    requires me < |tasks| && n <= |tasks|
    ensures var b := Scan(tasks, me, cpu, n);
      && (b.task.Some? ==> b.task.value != me && Eligible(tasks[b.task.value], cpu) && !tasks[b.task.value].isIdle)
      && (b.idle.Some? ==> b.idle.value != me && Eligible(tasks[b.idle.value], cpu) && tasks[b.idle.value].isIdle)
  {
    if n > 0 {
      ScanEligible(tasks, me, cpu, n - 1);
    }
  }

  /** Pick, deliver, and pick again while the candidate is ended by its signal. */
  function Choose(t: Table, me: nat, cpu: nat): (r: (Table, Option<nat>))
    requires me < |t.tasks|
    ensures |r.0.tasks| == |t.tasks| && (r.1.Some? ==> r.1.value < |t.tasks|)
    decreases Alive(t.tasks)
  {
    var c := Pick(t.tasks, me, cpu);
    if c.None? then (t, None) else
    var d := Deliver(t, c.value);
    if d.1.Terminated? then
      ScanEligible(t.tasks, me, cpu, |t.tasks|);
      DeliverTerminated(t, c.value);
      Choose(d.0, me, cpu)
    else (d.0, c)
  }

  lemma DeliverTerminated(t: Table, i: nat)
    requires i < |t.tasks| && t.tasks[i].state.Ready?
    ensures Deliver(t, i).1.Terminated? ==> Alive(Deliver(t, i).0.tasks) < Alive(t.tasks)
  {
    var x := t.tasks[i];
    if x.isUser && x.pending != {} && x.space.Some? {
      assert exists k :: k in x.pending;
      FinishAlive(t, i, 128 + Lowest(x.pending, 0));
      FinishAlive(t, i, 139);
    }
  }

  // -------------------------------------------------------------------------
  // One interrupt
  // -------------------------------------------------------------------------

  /** The machine: the table, the current task and the switch request of each CPU, and the counters that
      name new tasks and new address spaces. */
  datatype Sched = Sched(t: Table, cur: seq<nat>, req: seq<bool>, nextPid: nat, nextSpace: nat)

  /** What the current task asked for before the switching code ran. */
  datatype Action =
    | Nothing_
    | Yield
    | Sleep(until: nat)
    | Park(state: RunState)
    | WaitChild(target: nat, mailbox: bool)
    | JoinThread(target: nat, mailbox: bool)
    | Exit(code: int)
    | ThreadExit(code: int)
    | KillPid(pid: nat)
    | SendSignal(pid: nat, sig: nat)
    | WakeTask(waiter: nat, parkedIn: RunState)
    | Clone(stackFree: bool)
    | Spawn(isUser: bool, pinned: Option<nat>, stackFree: bool)
    | Fork(stackFree: bool)
    | Exec
    | SetHandler(handled: Sig, installed: bool)

  predicate ParkState(s: RunState) {
    s.BlockedInput? || s.BlockedChan? || s.BlockedSock?
  }

  /** A new task in the first free slot; without a free slot or a kernel stack nothing is installed. */
  function Install(s: Sched, task: Task, freshSpace: bool): (r: Sched)
    ensures |r.t.tasks| == |s.t.tasks| && r.cur == s.cur && r.req == s.req
  {
    var slot := FirstDead(s.t.tasks, 0);
    if slot.None? then s
    else s.(t := Put(s.t, slot.value, task.(pid := s.nextPid, tgid := if task.tgid == 0 then s.nextPid else task.tgid)),
            nextPid := s.nextPid + 1, nextSpace := if freshSpace then s.nextSpace + 1 else s.nextSpace)
  }

  /** exec: refused beside other tasks of the group the caller leads; otherwise the old space loses a reference. */
  function ExecImage(s: Sched, me: nat): (r: Sched)
    requires me < |s.t.tasks|
    ensures |r.t.tasks| == |s.t.tasks| && r.cur == s.cur && r.req == s.req
  {
    var x := s.t.tasks[me];
    if !x.isUser ||
       (exists i | 0 <= i < |s.t.tasks| :: s.t.tasks[i].pid != x.pid && s.t.tasks[i].tgid == x.pid && !s.t.tasks[i].state.Dead?)
    then s
    else
      var t1 := DropSpace(s.t, me);
      s.(t := Put(t1, me, t1.tasks[me].(space := Some(s.nextSpace), handlers := {}, pending := {}, sigDepth := 0)),
         nextSpace := s.nextSpace + 1)
  }

  /** The system call of the current task `me`. */
  function Act(s: Sched, me: nat, a: Action): (r: Sched)
    requires me < |s.t.tasks|
    ensures |r.t.tasks| == |s.t.tasks| && r.cur == s.cur && r.req == s.req
  {
    var x := s.t.tasks[me];
    match a
    case Nothing_ => s
    case Yield => s
    case Sleep(until) => s.(t := Put(s.t, me, x.(wakeAt := until, state := Sleeping)))
    case Park(state) => if ParkState(state) then s.(t := Put(s.t, me, x.(state := state))) else s
    case WaitChild(target, mailbox) => s.(t := Wait(s.t, me, target, mailbox))
    case JoinThread(target, mailbox) => s.(t := Join(s.t, me, target, mailbox))
    case Exit(code) => s.(t := ExitProcess(s.t, me, code))
    case ThreadExit(code) => s.(t := ExitThread(s.t, me, code))
    case KillPid(pid) => s.(t := Kill(s.t, me, pid))
    case SendSignal(pid, sig) => s.(t := Signal(s.t, me, pid, sig))
    case WakeTask(waiter, parkedIn) => if ParkState(parkedIn) then s.(t := WakeWaiter(s.t, waiter, parkedIn)) else s
    case Clone(stackFree) =>
      if x.isUser && stackFree && x.space.Some?
      then Install(s, NewTask(0, None, true, x.space, x.tgid, x.tgid, x.handlers), false) else s
    case Spawn(isUser, pinned, stackFree) =>
      if stackFree then Install(s, NewTask(0, pinned, isUser, if isUser then Some(s.nextSpace) else None, x.pid, 0, {}), isUser)
      else s
    case Fork(stackFree) =>
      if x.isUser && stackFree then Install(s, NewTask(0, None, true, Some(s.nextSpace), x.pid, 0, x.handlers), true) else s
    case Exec => ExecImage(s, me)
    case SetHandler(sig, installed) =>
      if x.isUser
      then s.(t := Put(s.t, me, x.(handlers := if installed then x.handlers + {sig} else x.handlers - {sig})))
      else s
  }

  /** The interrupt that brought the CPU into the kernel. */
  datatype Interrupt = Interrupt(cpu: nat, action: Action, timer: bool, now: nat, key: Option<int>)

  function TimerDuties(t: Table, me: nat, now: nat, key: Option<int>): (r: Table)
    requires me < |t.tasks|
    ensures |r.tasks| == |t.tasks|
  {
    Preempt(t.(tasks := GiveKey(WakeSleepers(t.tasks, now), 0, key)), me)
  }

  function DieIfFlagged(t: Table, me: nat): (r: Table)
    requires me < |t.tasks|
    ensures |r.tasks| == |t.tasks|
  {
    if t.tasks[me].dieFlag && t.tasks[me].state.Running? then Finish(t, me, THREAD_KILLED_CODE) else t
  }

  function ParkMe(t: Table, me: nat): (r: Table)
    requires me < |t.tasks|
    ensures |r.tasks| == |t.tasks|
  {
    var x := t.tasks[me];
    Put(t, me, x.(started := true, state := if x.state.Running? then Ready else x.state))
  }

  function Reap(t: Table, me: nat): (r: Table)
    requires me < |t.tasks|
    ensures |r.tasks| == |t.tasks|
    ensures forall i | 0 <= i < |t.tasks| :: r.tasks[i] ==
              if t.tasks[i].state.Zombie? && t.tasks[i].pid != t.tasks[me].pid then DEAD else t.tasks[i]
  {
    t.(tasks := seq(|t.tasks|, i requires 0 <= i < |t.tasks| =>
      if t.tasks[i].state.Zombie? && t.tasks[i].pid != t.tasks[me].pid then DEAD else t.tasks[i]))
  }

  /** Park, reap, choose and run. */
  function Switch(s: Sched, cpu: nat): (r: Sched)
    requires cpu < |s.cur| && s.cur[cpu] < |s.t.tasks|
    ensures |r.t.tasks| == |s.t.tasks| && |r.cur| == |s.cur| && |r.req| == |s.req|
  {
    var me := s.cur[cpu];
    var c := Choose(Reap(ParkMe(s.t, me), me), me, cpu);
    if c.1.None? then s.(t := Put(c.0, me, c.0.tasks[me].(state := Running)))
    else s.(t := Put(c.0, c.1.value, c.0.tasks[c.1.value].(state := Running, onCpu := Some(cpu))),
            cur := s.cur[cpu := c.1.value])
  }

  function PostDispatch(s: Sched, i: Interrupt): (r: Sched)
    requires i.cpu < |s.cur| == |s.req| && s.cur[i.cpu] < |s.t.tasks|
    ensures |r.t.tasks| == |s.t.tasks| && |r.cur| == |s.cur| && |r.req| == |s.req|
  {
    var me := s.cur[i.cpu];
    var t1 := if i.timer then TimerDuties(s.t, me, i.now, i.key) else s.t;
    var asked := s.req[i.cpu] || (i.timer && Preempts(s.t.(tasks := GiveKey(WakeSleepers(s.t.tasks, i.now), 0, i.key)), me));
    var t2 := DieIfFlagged(t1, me);
    var s2 := s.(t := t2, req := s.req[i.cpu := false]);
    if asked || !t2.tasks[me].state.Running? then Switch(s2, i.cpu) else s2
  }

  /** One atomic step: the handler, then the switching code. */
  function Step(s: Sched, i: Interrupt): (r: Sched)
    requires i.cpu < |s.cur| == |s.req| && s.cur[i.cpu] < |s.t.tasks|
    ensures |r.t.tasks| == |s.t.tasks| && |r.cur| == |s.cur| && |r.req| == |s.req|
  {
    var me := s.cur[i.cpu];
    var s1 := Act(s, me, i.action);
    PostDispatch(s1.(req := s1.req[i.cpu := s1.req[i.cpu] || i.action.Yield?]), i)
  }
}
