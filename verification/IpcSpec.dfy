/** One IPC channel as a value, and the parking protocol around it: register, then park, then be woken by
    a wake-up that is sent after the lock is gone. */
module IpcSpec {
  import opened Bytes

  const CAP: nat := 256
  const MAXMSG: nat := 64

  /** A channel; the waiter slots hold a task slot plus one, zero for nobody. */
  datatype Channel = Channel(ring: seq<byte>, waitRecv: nat, waitSend: nat)

  predicate Room(c: Channel, len: nat) {
    |c.ring| + len <= CAP
  }

  function Enqueued(c: Channel, msg: seq<byte>): Channel {
    c.(ring := c.ring + msg, waitRecv := 0)
  }

  /** The bytes one recv takes out. */
  function Front(c: Channel, len: nat): seq<byte> {
    c.ring[..Min(len, |c.ring|)]
  }

  /** recv whose copy-out fails: the bytes are gone, the waiting sender is not touched. */
  function Drained(c: Channel, len: nat): Channel {
    c.(ring := c.ring[Min(len, |c.ring|)..])
  }

  function Dequeued(c: Channel, len: nat): Channel {
    Drained(c, len).(waitSend := 0)
  }

  // -------------------------------------------------------------------------
  // The machine
  // -------------------------------------------------------------------------

  /** What a task slot is doing, as far as channels go. */
  datatype Task = Awake | InRecv(chan: nat) | InSend(chan: nat, len: nat)

  /** One sender and one receiver slot per channel; `wakes` are the wake-ups on their way. */
  datatype State = State(chans: seq<Channel>, tasks: seq<Task>, wakes: multiset<nat>,
                         senders: seq<nat>, receivers: seq<nat>,
                         accepted: seq<seq<byte>>, consumed: seq<seq<byte>>)

  datatype Step =
    | Send(c: nat, msg: seq<byte>)
    | Recv(c: nat, len: nat, copied: bool)
    | Wake(slot: nat)
    | Signal(slot: nat)

  predicate Sized(st: State) {
    && |st.senders| == |st.chans| && |st.receivers| == |st.chans|
    && |st.accepted| == |st.chans| && |st.consumed| == |st.chans|
    && (forall c | 0 <= c < |st.chans| :: st.senders[c] < |st.tasks| && st.receivers[c] < |st.tasks|)
  }

  function WakeFor(waiter: nat): multiset<nat> {
    if waiter == 0 then multiset{} else multiset{(waiter - 1) as nat}
  }

  function SendOn(st: State, c: nat, msg: seq<byte>): State
    requires Sized(st) && c < |st.chans|
  {
    var ch := st.chans[c];
    if Room(ch, |msg|) then
      st.(chans := st.chans[c := Enqueued(ch, msg)], wakes := st.wakes + WakeFor(ch.waitRecv),
          accepted := st.accepted[c := st.accepted[c] + msg])
    else
      st.(chans := st.chans[c := ch.(waitSend := st.senders[c] + 1)],
          tasks := st.tasks[st.senders[c] := InSend(c, |msg|)])
  }

  function RecvOn(st: State, c: nat, len: nat, copied: bool): State
    requires Sized(st) && c < |st.chans|
  {
    var ch := st.chans[c];
    if ch.ring == [] then
      st.(chans := st.chans[c := ch.(waitRecv := st.receivers[c] + 1)],
          tasks := st.tasks[st.receivers[c] := InRecv(c)])
    else
      var gone := st.consumed[c := st.consumed[c] + Front(ch, len)];
      if copied then
        st.(chans := st.chans[c := Dequeued(ch, len)], wakes := st.wakes + WakeFor(ch.waitSend), consumed := gone)
      else
        st.(chans := st.chans[c := Drained(ch, len)], consumed := gone)
  }

  predicate Enabled(st: State, step: Step)
    requires Sized(st)
  {
    match step
    case Send(c, msg) => c < |st.chans| && st.tasks[st.senders[c]].Awake? && 0 < |msg| <= MAXMSG
    case Recv(c, len, copied) => c < |st.chans| && st.tasks[st.receivers[c]].Awake? && 0 < len <= MAXMSG
    case Wake(slot) => slot in st.wakes && slot < |st.tasks|
    case Signal(slot) => slot < |st.tasks| && !st.tasks[slot].Awake?
  }

  function Apply(st: State, step: Step): State
    requires Sized(st) && Enabled(st, step)
  {
    match step
    case Send(c, msg) => SendOn(st, c, msg)
    case Recv(c, len, copied) => RecvOn(st, c, len, copied)
    case Wake(slot) => st.(tasks := st.tasks[slot := Awake], wakes := st.wakes - multiset{slot})
    case Signal(slot) => st.(tasks := st.tasks[slot := Awake])
  }

  // -------------------------------------------------------------------------
  // Nobody sleeps without a reason
  // -------------------------------------------------------------------------

  /** A sleeping task is registered and still cannot go on, or a wake-up for it is on its way. */
  predicate Justified(st: State, slot: nat)
    requires Sized(st) && slot < |st.tasks|
  {
    match st.tasks[slot]
    case Awake => true
    case InRecv(c) =>
      && c < |st.chans| && st.receivers[c] == slot
      && (slot in st.wakes || (st.chans[c].waitRecv == slot + 1 && st.chans[c].ring == []))
    case InSend(c, len) =>
      && c < |st.chans| && st.senders[c] == slot && len <= MAXMSG
      && (slot in st.wakes || (st.chans[c].waitSend == slot + 1 && !Room(st.chans[c], len)))
  }

  ghost predicate NoLostWake(st: State)
    requires Sized(st)
  {
    forall slot | 0 <= slot < |st.tasks| :: Justified(st, slot)
  }

  predicate WaitersOk(st: State)
    requires Sized(st)
  {
    forall c | 0 <= c < |st.chans| ::
      (st.chans[c].waitRecv == 0 || st.chans[c].waitRecv == st.receivers[c] + 1) &&
      (st.chans[c].waitSend == 0 || st.chans[c].waitSend == st.senders[c] + 1) && |st.chans[c].ring| <= CAP
  }

  /** Bytes consumed, then the ring, are the accepted sends in order. */
  predicate Fifo(st: State)
    requires Sized(st)
  {
    forall c | 0 <= c < |st.chans| :: st.consumed[c] + st.chans[c].ring == st.accepted[c]
  }

  ghost predicate Inv(st: State) {
    Sized(st) && WaitersOk(st) && Fifo(st)
  }

  /** Boot: every channel empty, nobody waiting. */
  predicate Booted(st: State) {
    && Sized(st) && st.wakes == multiset{}
    && (forall t | 0 <= t < |st.tasks| :: st.tasks[t].Awake?)
    && (forall c | 0 <= c < |st.chans| ::
          st.chans[c] == Channel([], 0, 0) && st.accepted[c] == [] && st.consumed[c] == [])
  }

  lemma SendKeepsInv(st: State, c: nat, msg: seq<byte>)
    requires Inv(st) && Enabled(st, Send(c, msg))
    ensures Inv(SendOn(st, c, msg))
  {
    var st' := SendOn(st, c, msg);
    forall d | 0 <= d < |st'.chans| ensures st'.consumed[d] + st'.chans[d].ring == st'.accepted[d] {
      if d == c && Room(st.chans[c], |msg|) {
        assert st.consumed[c] + (st.chans[c].ring + msg) == (st.consumed[c] + st.chans[c].ring) + msg;
      }
    }
  }

  lemma RecvKeepsInv(st: State, c: nat, len: nat, copied: bool)
    requires Inv(st) && Enabled(st, Recv(c, len, copied))
    ensures Inv(RecvOn(st, c, len, copied))
  {
    var st', ch := RecvOn(st, c, len, copied), st.chans[c];
    assert Front(ch, len) + Drained(ch, len).ring == ch.ring;
    forall d | 0 <= d < |st'.chans| ensures st'.consumed[d] + st'.chans[d].ring == st'.accepted[d] {
      if d == c && ch.ring != [] {
        assert st'.consumed[c] + st'.chans[c].ring == st.consumed[c] + (Front(ch, len) + Drained(ch, len).ring);
      }
    }
  }

  lemma StepKeepsInv(st: State, step: Step)
    requires Inv(st) && Enabled(st, step)
    ensures Inv(Apply(st, step))
  {
    match step
    case Send(c, msg) => SendKeepsInv(st, c, msg);
    case Recv(c, len, copied) => RecvKeepsInv(st, c, len, copied);
    case Wake(_) =>
    case Signal(_) =>
  }

  /** The one step that can lose a wake-up: a recv that takes bytes out and then cannot copy them out, while
      the sender sleeps registered, no wake-up for it is on its way, and its message now fits. */
  predicate Loses(st: State, step: Step)
    requires Sized(st)
  {
    step.Recv? && !step.copied && step.c < |st.chans| && st.chans[step.c].ring != [] &&
    var t := st.tasks[st.senders[step.c]];
    t.InSend? && t.chan == step.c && st.senders[step.c] !in st.wakes && Room(Drained(st.chans[step.c], step.len), t.len)
  }

  lemma SendKeepsWakes(st: State, c: nat, msg: seq<byte>)
    requires Inv(st) && NoLostWake(st) && Enabled(st, Send(c, msg))
    ensures Sized(SendOn(st, c, msg)) && NoLostWake(SendOn(st, c, msg))
  {
    var st' := SendOn(st, c, msg);
    forall slot | 0 <= slot < |st'.tasks| ensures Justified(st', slot) {
      assert Justified(st, slot);
    }
  }

  lemma RecvKeepsWakes(st: State, c: nat, len: nat)
    requires Inv(st) && NoLostWake(st) && Enabled(st, Recv(c, len, true))
    ensures Sized(RecvOn(st, c, len, true)) && NoLostWake(RecvOn(st, c, len, true))
  {
    var st' := RecvOn(st, c, len, true);
    forall slot | 0 <= slot < |st'.tasks| ensures Justified(st', slot) {
      assert Justified(st, slot);
    }
  }

  lemma FailedRecvKeepsWakesIff(st: State, c: nat, len: nat)
    requires Inv(st) && NoLostWake(st) && Enabled(st, Recv(c, len, false))
    ensures Sized(RecvOn(st, c, len, false))
    ensures NoLostWake(RecvOn(st, c, len, false)) <==> !Loses(st, Recv(c, len, false))
  {
    var st' := RecvOn(st, c, len, false);
    assert Justified(st, st.senders[c]);
    if !Loses(st, Recv(c, len, false)) {
      forall slot | 0 <= slot < |st'.tasks| ensures Justified(st', slot) {
        assert Justified(st, slot);
      }
    }
    assert Loses(st, Recv(c, len, false)) ==> !Justified(st', st.senders[c]);
  }

  lemma WokenKeepsWakes(st: State, slot: nat, wakes: multiset<nat>)
    requires Inv(st) && NoLostWake(st) && slot < |st.tasks|
    requires forall t | t in st.wakes && t != slot :: t in wakes
    ensures Sized(st.(tasks := st.tasks[slot := Awake], wakes := wakes))
    ensures NoLostWake(st.(tasks := st.tasks[slot := Awake], wakes := wakes))
  {
    var st' := st.(tasks := st.tasks[slot := Awake], wakes := wakes);
    forall t | 0 <= t < |st'.tasks| ensures Justified(st', t) {
      assert Justified(st, t);
    }
  }

  /** A step keeps every sleeper justified if and only if it is not that one. */
  lemma KeepsWakesIff(st: State, step: Step)
    requires Inv(st) && NoLostWake(st) && Enabled(st, step)
    ensures Sized(Apply(st, step))
    ensures NoLostWake(Apply(st, step)) <==> !Loses(st, step)
  {
    match step
    case Send(c, msg) => SendKeepsWakes(st, c, msg);
    case Recv(c, len, copied) =>
      if copied {
        RecvKeepsWakes(st, c, len);
      } else {
        FailedRecvKeepsWakesIff(st, c, len);
      }
    case Wake(slot) => WokenKeepsWakes(st, slot, st.wakes - multiset{slot});
    case Signal(slot) => WokenKeepsWakes(st, slot, st.wakes);
  }

  // -------------------------------------------------------------------------
  // Whole runs
  // -------------------------------------------------------------------------

  ghost predicate Runs(st: State, steps: seq<Step>)
    decreases |steps|
  {
    steps == [] || (Sized(st) && Enabled(st, steps[0]) && Runs(Apply(st, steps[0]), steps[1..]))
  }

  ghost function Exec(st: State, steps: seq<Step>): State
    requires Runs(st, steps)
    decreases |steps|
  {
    if steps == [] then st else Exec(Apply(st, steps[0]), steps[1..])
  }

  /** No recv of the run fails to copy out while a sender is registered on its channel. */
  ghost predicate CopiesOut(st: State, steps: seq<Step>)
    requires Runs(st, steps)
    decreases |steps|
  {
    steps == [] ||
    ((steps[0].Recv? && !steps[0].copied ==> st.chans[steps[0].c].waitSend == 0) &&
     CopiesOut(Apply(st, steps[0]), steps[1..]))
  }

  /** FIFO, over every run, failed copy-outs included. */
  lemma {:induction false} RunKeepsFifo(st: State, steps: seq<Step>)
    requires Inv(st) && Runs(st, steps)
    ensures Inv(Exec(st, steps))
    decreases |steps|
  {
    if steps != [] {
      StepKeepsInv(st, steps[0]);
      RunKeepsFifo(Apply(st, steps[0]), steps[1..]);
    }
  }

  lemma {:induction false} RunKeepsWakes(st: State, steps: seq<Step>)
    requires Inv(st) && NoLostWake(st) && Runs(st, steps) && CopiesOut(st, steps)
    ensures Inv(Exec(st, steps)) && NoLostWake(Exec(st, steps))
    decreases |steps|
  {
    if steps != [] {
      StepKeepsInv(st, steps[0]);
      assert steps[0].Recv? ==> Justified(st, st.senders[steps[0].c]);
      KeepsWakesIff(st, steps[0]);
      RunKeepsWakes(Apply(st, steps[0]), steps[1..]);
    }
  }

  /** The channel theorem: bytes come out in the order they went in, and the two ends of a channel never both
      sleep on it without a wake-up on its way. */
  lemma ChannelsAreSafe(boot: State, steps: seq<Step>, c: nat)
    requires Booted(boot) && Runs(boot, steps) && c < |boot.chans|
    ensures var st := Exec(boot, steps);
      Sized(st) && c < |st.chans| && st.consumed[c] + st.chans[c].ring == st.accepted[c]
    ensures CopiesOut(boot, steps) ==>
      var st := Exec(boot, steps);
      st.tasks[st.receivers[c]] == InRecv(c) && st.tasks[st.senders[c]].InSend? && st.tasks[st.senders[c]].chan == c ==>
        st.receivers[c] in st.wakes || st.senders[c] in st.wakes
  {
    forall k | 0 <= k < |boot.chans| ensures boot.consumed[k] + boot.chans[k].ring == boot.accepted[k] {}
    RunKeepsFifo(boot, steps);
    SameChannels(boot, steps);
    if CopiesOut(boot, steps) {
      RunKeepsWakes(boot, steps);
      var st := Exec(boot, steps);
      assert Justified(st, st.receivers[c]) && Justified(st, st.senders[c]);
    }
  }

  lemma {:induction false} SameChannels(st: State, steps: seq<Step>)
    requires Runs(st, steps)
    ensures |Exec(st, steps).chans| == |st.chans|
    decreases |steps|
  {
    if steps != [] {
      SameChannels(Apply(st, steps[0]), steps[1..]);
    }
  }

  // -------------------------------------------------------------------------
  // The deadlock that failed copy-outs allow
  // -------------------------------------------------------------------------

  predicate Asleep(st: State, c: nat)
    requires Sized(st) && c < |st.chans|
  {
    && st.tasks[st.receivers[c]] == InRecv(c) && st.receivers[c] !in st.wakes
    && st.tasks[st.senders[c]].InSend? && st.tasks[st.senders[c]].chan == c && st.senders[c] !in st.wakes
  }

  /** The receiver of a channel whose sender sleeps can put both to sleep: it fails to copy out until the
      ring is empty, then waits. */
  lemma {:induction false} FailedReceivesDeadlock(st: State, c: nat) returns (steps: seq<Step>)
    requires Inv(st) && c < |st.chans| && st.senders[c] != st.receivers[c]
    requires st.tasks[st.receivers[c]].Awake? && st.receivers[c] !in st.wakes
    requires st.tasks[st.senders[c]].InSend? && st.tasks[st.senders[c]].chan == c && st.senders[c] !in st.wakes
    ensures Runs(st, steps) && |Exec(st, steps).chans| == |st.chans|
    ensures Inv(Exec(st, steps)) && Asleep(Exec(st, steps), c)
    ensures forall s | s in steps :: s == Recv(c, MAXMSG, false)
    decreases |st.chans[c].ring|
  {
    var step := Recv(c, MAXMSG, false);
    StepKeepsInv(st, step);
    var st' := Apply(st, step);
    if st.chans[c].ring == [] {
      steps := [step];
      assert steps[1..] == [];
      assert Runs(st', []);
    } else {
      var rest := FailedReceivesDeadlock(st', c);
      steps := [step] + rest;
      assert steps[1..] == rest;
    }
  }
}
