/** What holds over every run of the TCP data phase, and exactly when. */
module TcpTheorems {
  import opened Bytes
  import opened Frames
  import opened TcpSpec
  import opened TcpProtocol

  // -------------------------------------------------------------------------
  // Whole runs
  // -------------------------------------------------------------------------

  lemma TakingKeepsFlows(x: Side, y: Side, baseX: nat, baseY: nat, step: Step)
    requires SockOk(x.sock) && SockOk(y.sock) && Flow(x, y, baseX) && Flow(y, x, baseY) && MayTake(x, y, step)
    ensures step.Deliver? ==> !AckPanics(x.sock, step.seg.ack)
    ensures SockOk(Taking(x, step).sock)
    ensures Flow(Taking(x, step), y, baseX) && Flow(y, Taking(x, step), baseY)
  {
    match step
    case Send(left, data, now) => FlowSend(x, y, baseX, data, now);
    case Recv(left, len) => FlowRecv(y, x, baseY, len);
    case Arm(left, now) =>
    case Retransmit(left) => FlowRetransmit(x, y, baseX);
    case GiveUp(left) =>
    case Deliver(left, seg, now) => DeliverKeeps(x, y, baseX, baseY, seg, now);
  }

  lemma StepKeepsInv(n: Net, step: Step, baseL: nat, baseR: nat)
    requires Inv(n, baseL, baseR) && Enabled(n, step)
    ensures !Panics(n, step) && Inv(Apply(n, step), baseL, baseR)
  {
    if step.left {
      TakingKeepsFlows(n.l, n.r, baseL, baseR, step);
    } else {
      TakingKeepsFlows(n.r, n.l, baseR, baseL, step);
    }
  }

  /** A run: every step is one the programs and the network may take. */
  predicate Runs(n: Net, steps: seq<Step>)
    decreases |steps|
  {
    steps == [] || (SidesOk(n) && Enabled(n, steps[0]) && (Panics(n, steps[0]) || Runs(Apply(n, steps[0]), steps[1..])))
  }

  /** The state after a run, or None if the kernel panicked on the way. */
  function Exec(n: Net, steps: seq<Step>): Option<Net>
    requires Runs(n, steps)
    decreases |steps|
  {
    if steps == [] then Some(n) else if Panics(n, steps[0]) then None else Exec(Apply(n, steps[0]), steps[1..])
  }

  lemma {:induction false} RunKeepsInv(n: Net, steps: seq<Step>, baseL: nat, baseR: nat)
    requires Inv(n, baseL, baseR) && Runs(n, steps)
    ensures Exec(n, steps).Some? && Inv(Exec(n, steps).value, baseL, baseR)
    decreases |steps|
  {
    if steps != [] {
      StepKeepsInv(n, steps[0], baseL, baseR);
      RunKeepsInv(Apply(n, steps[0]), steps[1..], baseL, baseR);
    }
  }

  /** What a program on side `b` has read and can still read is a prefix of what side `a` sent; the TX ring of
      `a` is exactly the unacknowledged end of it, and no byte has left that ring before `b` had it. */
  ghost predicate StreamSafe(a: Side, b: Side, base: nat) {
    && b.taken + b.sock.rx <= a.stream
    && base <= a.sock.una <= a.sock.nxt == base + |a.stream|
    && a.sock.tx == a.stream[a.sock.una - base..]
    && a.sock.una - base <= |b.taken + b.sock.rx|
  }

  /** The stream theorem: every run of two established sockets, in both directions. */
  lemma StreamSafety(n: Net, steps: seq<Step>)
    requires Established(n) && Runs(n, steps)
    ensures Exec(n, steps).Some?
    ensures StreamSafe(Exec(n, steps).value.l, Exec(n, steps).value.r, n.l.sock.una)
    ensures StreamSafe(Exec(n, steps).value.r, Exec(n, steps).value.l, n.r.sock.una)
  {
    EstablishedInv(n);
    RunKeepsInv(n, steps, n.l.sock.una, n.r.sock.una);
  }

  // -------------------------------------------------------------------------
  // Exactly which sends are safe
  // -------------------------------------------------------------------------

  /** The sender kept its promise: every segment it sent carries stream bytes, and its window can still
      be acknowledged. */
  ghost predicate SenderSound(a: Side, base: nat) {
    (forall g | g in a.sent :: Carries(a.stream, base, g)) && a.sock.una <= a.sock.nxt
  }

  /** A send is safe if and only if it fits the free space and does not pass 2^32. */
  lemma SendSafeIffFits(a: Side, b: Side, base: nat, data: seq<byte>, now: nat)
    requires SockOk(a.sock) && Flow(a, b, base) && Sendable(a.sock) && 0 < |data| <= MSS
    ensures SenderSound(SendSide(a, data, now), base) <==> SendFits(a.sock, data)
  {
    var a' := SendSide(a, data, now);
    if SendFits(a.sock, data) {
      FlowSend(a, b, base, data, now);
    } else {
      assert SentSegment(a.sock, data) in a'.sent;
    }
  }

  /** A send longer than the free space: a peer that had everything now holds bytes that the sender does not
      count as sent, so it is ahead of the stream for ever. */
  lemma LongSendOverruns(a: Side, b: Side, base: nat, data: seq<byte>, now: nat)
    requires SockOk(a.sock) && SockOk(b.sock) && Flow(a, b, base) && Sendable(a.sock)
    requires TxFree(a.sock) < |data| <= MSS && a.sock.nxt + |data| < U32
    requires Received(b, base) == |a.stream| && |b.sock.rx| + |data| <= RX_CAP
    ensures var a', rx' := SendSide(a, data, now), Taken(b.sock, SentSegment(a.sock, data)).rx;
      !(b.taken + rx' <= a'.stream) && |b.taken + rx'| > |a'.stream|
  {
    assert b.taken + b.sock.rx == a.stream;
    assert data[..|data|] == data;
  }

  /** Once a window straddles 2^32 no acknowledgement is ever processed again: each one is ignored or panics. */
  lemma StraddlingIsFinal(s: Sock, ack: u32, now: nat)
    requires s.nxt < s.una
    ensures AckPanics(s, ack) <==> ack == s.nxt
    ensures !AckPanics(s, ack) ==> Acked(s, ack, now) == s
  {
    PanicsIffStraddling(s, ack);
  }

  // -------------------------------------------------------------------------
  // Repetition
  // -------------------------------------------------------------------------

  /** A segment delivered twice in a row does what it does once, down to the timers. */
  lemma RepeatIsHarmless(s: Sock, g: Segment, now: nat, later: nat)
    requires SockOk(s) && !AckPanics(s, g.ack)
    ensures SockOk(Handled(s, g, now)) && !AckPanics(Handled(s, g, now), g.ack)
    ensures Handled(Handled(s, g, now), g, later) == Handled(s, g, now)
  {
    var s1 := Acked(s, g.ack, now);
    var s2 := Taken(s1, g);
    assert s2.una == s1.una && s2.nxt == s1.nxt;
    if |g.payload| > 0 && g.seq_ == s1.rcv {
      var take := Min(|g.payload|, RX_CAP - |s1.rx|);
      if take == 0 {
        assert s1.rx + g.payload[..0] == s1.rx;
      } else {
        assert s2.rcv != g.seq_;
      }
    }
  }

  // -------------------------------------------------------------------------
  // When retransmission helps
  // -------------------------------------------------------------------------

  /** The peer takes bytes of a retransmitted segment exactly when it has nothing beyond what the sender knows
      and room for at least one byte. */
  lemma RetransmitHelpsIff(a: Side, b: Side, base: nat)
    requires SockOk(a.sock) && SockOk(b.sock) && Flow(a, b, base) && a.sock.tx != []
    ensures |Taken(b.sock, RetxSegment(a.sock)).rx| > |b.sock.rx| <==>
              Received(b, base) == Una(a, base) && |b.sock.rx| < RX_CAP
  {
  }

  /** The peer's acknowledgement empties the TX ring exactly when the peer has the whole stream. */
  lemma AckHelpsIff(a: Side, b: Side, base: nat, now: nat)
    requires SockOk(a.sock) && Flow(a, b, base) && a.sock.tx != []
    ensures !AckPanics(a.sock, b.sock.rcv)
    ensures Acked(a.sock, b.sock.rcv, now).tx == [] <==> Received(b, base) == |a.stream|
    ensures Received(b, base) < |a.stream| ==> Acked(a.sock, b.sock.rcv, now) == a.sock
  {
    AcceptsOnlyFullAck(a.sock, b.sock.rcv);
  }

  // -------------------------------------------------------------------------
  // Where segments start
  // -------------------------------------------------------------------------

  /** One past the last sequence number of a segment. */
  function EndOf(g: Segment): nat {
    g.seq_ + |g.payload|
  }

  /** Sequence number `p` is strictly inside the data of one send. */
  ghost predicate InsideSend(a: Side, p: nat) {
    exists g :: g in a.sends && g.seq_ < p < EndOf(g)
  }

  ghost predicate Covered(a: Side, p: nat) {
    exists g :: g in a.sends && g.seq_ <= p < EndOf(g)
  }

  ghost predicate StartsSend(a: Side, p: nat) {
    exists g :: g in a.sends && g.seq_ == p
  }

  /** The sends cover the stream without overlapping, and data goes out only from where a send started. */
  ghost predicate SendsTile(a: Side, base: nat) {
    && a.sends <= a.sent
    && (forall g | g in a.sends :: |g.payload| > 0 && g.ack == 0 && base <= g.seq_ && EndOf(g) <= base + |a.stream|)
    && (forall g, h | g in a.sends && h in a.sends && g.seq_ <= h.seq_ :: g == h || EndOf(g) <= h.seq_)
    && (forall p: nat | base <= p < base + |a.stream| :: Covered(a, p))
    && (forall g | g in a.sent && |g.payload| > 0 :: StartsSend(a, g.seq_))
    && (a.sock.una == a.sock.nxt || StartsSend(a, a.sock.una))
  }

  ghost predicate Tiled(n: Net, baseL: nat, baseR: nat) {
    SendsTile(n.l, baseL) && SendsTile(n.r, baseR)
  }

  lemma MoreSends(a: Side, a': Side, p: nat)
    requires a.sends <= a'.sends
    ensures Covered(a, p) ==> Covered(a', p)
    ensures StartsSend(a, p) ==> StartsSend(a', p)
  {
    if Covered(a, p) {
      var g :| g in a.sends && g.seq_ <= p < EndOf(g);
      assert g in a'.sends;
    }
    if StartsSend(a, p) {
      var g :| g in a.sends && g.seq_ == p;
      assert g in a'.sends;
    }
  }

  lemma SendCovers(a: Side, g: Segment, p: nat)
    requires g in a.sends
    ensures g.seq_ <= p < EndOf(g) ==> Covered(a, p)
    ensures g.seq_ == p ==> StartsSend(a, p)
  {
  }

  lemma SendKeepsTiles(a: Side, base: nat, data: seq<byte>, now: nat)
    requires SockOk(a.sock) && a.sock.nxt == base + |a.stream| && a.sock.nxt + |data| < U32 && |data| <= TxFree(a.sock)
    requires SendsTile(a, base) && data != []
    ensures SendsTile(SendSide(a, data, now), base)
  {
    hide Covered, StartsSend;
    var a', g := SendSide(a, data, now), SentSegment(a.sock, data);
    assert g in a'.sends && Kept(a.sock, data) == data;
    forall p: nat | base <= p < base + |a'.stream| ensures Covered(a', p) {
      MoreSends(a, a', p);
      SendCovers(a', g, p);
    }
    forall h | h in a'.sent && |h.payload| > 0 ensures StartsSend(a', h.seq_) {
      MoreSends(a, a', h.seq_);
      SendCovers(a', g, h.seq_);
    }
    MoreSends(a, a', a.sock.una);
    SendCovers(a', g, a.sock.una);
  }

  lemma TakingKeepsTiles(x: Side, y: Side, baseX: nat, step: Step)
    requires SockOk(x.sock) && Flow(x, y, baseX) && SendsTile(x, baseX) && MayTake(x, y, step)
    requires step.Deliver? ==> !AckPanics(x.sock, step.seg.ack)
    ensures SendsTile(Taking(x, step), baseX)
  {
    hide Covered, StartsSend;
    var x' := Taking(x, step);
    if step.Send? {
      SendKeepsTiles(x, baseX, step.data, step.now);
    } else {
      if step.Deliver? {
        AcceptsOnlyFullAck(x.sock, step.seg.ack);
      }
      assert x'.sends == x.sends && x'.stream == x.stream;
      forall p: nat ensures (Covered(x, p) ==> Covered(x', p)) && (StartsSend(x, p) ==> StartsSend(x', p)) {
        MoreSends(x, x', p);
      }
    }
  }

  lemma {:induction false} RunKeepsTiles(n: Net, steps: seq<Step>, baseL: nat, baseR: nat)
    requires Inv(n, baseL, baseR) && Tiled(n, baseL, baseR) && Runs(n, steps)
    ensures Exec(n, steps).Some? && Inv(Exec(n, steps).value, baseL, baseR) && Tiled(Exec(n, steps).value, baseL, baseR)
    decreases |steps|
  {
    if steps != [] {
      StepKeepsInv(n, steps[0], baseL, baseR);
      if steps[0].left {
        TakingKeepsTiles(n.l, n.r, baseL, steps[0]);
      } else {
        TakingKeepsTiles(n.r, n.l, baseR, steps[0]);
      }
      RunKeepsTiles(Apply(n, steps[0]), steps[1..], baseL, baseR);
    }
  }

  // -------------------------------------------------------------------------
  // When a stream tears
  // -------------------------------------------------------------------------

  /** The peer has part of the outstanding bytes, and no segment starts where it stopped. */
  ghost predicate Torn(a: Side, b: Side, base: nat) {
    && Una(a, base) < Received(b, base) < |a.stream|
    && forall g | g in a.sent && |g.payload| > 0 :: g.seq_ != b.sock.rcv
  }

  /** A stream is torn if and only if the peer is past what is acknowledged and stopped inside a send. */
  lemma TornIffInside(a: Side, b: Side, base: nat)
    requires Flow(a, b, base) && SendsTile(a, base)
    ensures Torn(a, b, base) <==> a.sock.una < b.sock.rcv && InsideSend(a, b.sock.rcv)
  {
    var p := b.sock.rcv;
    if Torn(a, b, base) {
      assert Covered(a, p);
      var g :| g in a.sends && g.seq_ <= p < EndOf(g);
      assert g in a.sent;
    }
    if a.sock.una < p && InsideSend(a, p) {
      forall h | h in a.sent && |h.payload| > 0 ensures h.seq_ != p {
        assert StartsSend(a, h.seq_);
      }
    }
  }

  /** Where the peer stands after it took what fits of a segment that starts where it stood. */
  function TakenUpTo(b: Side, g: Segment): nat
    requires SockOk(b.sock)
  {
    g.seq_ + Min(|g.payload|, RX_CAP - |b.sock.rx|)
  }

  /** A delivery tears the stream if and only if what was taken of the segment ends inside a send. */
  lemma TearsIff(a: Side, b: Side, base: nat, g: Segment)
    requires SockOk(b.sock) && Flow(a, b, base) && SendsTile(a, base)
    requires Carries(a.stream, base, g) && g.seq_ == b.sock.rcv && g.payload != [] && |b.sock.rx| < RX_CAP
    ensures Torn(a, b.(sock := Taken(b.sock, g)), base) <==> InsideSend(a, TakenUpTo(b, g))
  {
    FlowTaken(a, b, base, g);
    TornIffInside(a, b.(sock := Taken(b.sock, g)), base);
  }

  /** So the segment of a send, taken whole, never tears the stream ... */
  lemma WholeSendIsSafe(a: Side, b: Side, base: nat, g: Segment)
    requires SockOk(b.sock) && Flow(a, b, base) && SendsTile(a, base)
    requires g in a.sends && g.seq_ == b.sock.rcv && |g.payload| <= RX_CAP - |b.sock.rx|
    ensures !Torn(a, b.(sock := Taken(b.sock, g)), base)
  {
    TearsIff(a, b, base, g);
    forall h | h in a.sends ensures !(h.seq_ < EndOf(g) < EndOf(h)) {
      assert g.seq_ <= h.seq_ || h.seq_ <= g.seq_;
    }
  }

  /** ... and taken in part it always does. */
  lemma PartOfSendTears(a: Side, b: Side, base: nat, g: Segment)
    requires SockOk(b.sock) && Flow(a, b, base) && SendsTile(a, base)
    requires g in a.sends && g.seq_ == b.sock.rcv && 0 < RX_CAP - |b.sock.rx| < |g.payload|
    ensures Torn(a, b.(sock := Taken(b.sock, g)), base)
  {
    TearsIff(a, b, base, g);
    assert g.seq_ < TakenUpTo(b, g) < EndOf(g);
  }

  /** A retransmission, of which all that fits is taken, tears it if and only if the end of that is inside a send:
      retransmitting cuts the ring every MSS bytes, wherever the sends ended. */
  lemma RetransmissionTearsIff(a: Side, b: Side, base: nat)
    requires SockOk(a.sock) && SockOk(b.sock) && Flow(a, b, base) && SendsTile(a, base)
    requires a.sock.tx != [] && a.sock.una == b.sock.rcv && |b.sock.rx| < RX_CAP
    ensures Torn(a, b.(sock := Taken(b.sock, RetxSegment(a.sock))), base) <==>
              InsideSend(a, a.sock.una + Min(Min(|a.sock.tx|, MSS), RX_CAP - |b.sock.rx|))
  {
    FlowRetransmit(a, b, base);
    TearsIff(a, b, base, RetxSegment(a.sock));
  }

  // -------------------------------------------------------------------------
  // A torn stream is stuck, and nothing else is
  // -------------------------------------------------------------------------

  lemma SenderKeepsTorn(x: Side, y: Side, baseX: nat, baseY: nat, step: Step)
    requires SockOk(x.sock) && SockOk(y.sock) && Flow(x, y, baseX) && Flow(y, x, baseY)
    requires Torn(x, y, baseX) && MayTake(x, y, step)
    ensures step.Deliver? ==> !AckPanics(x.sock, step.seg.ack)
    ensures Torn(Taking(x, step), y, baseX) && Taking(x, step).sock.una == x.sock.una
  {
    TakingKeepsFlows(x, y, baseX, baseY, step);
    if step.Deliver? {
      AcceptsOnlyFullAck(x.sock, step.seg.ack);
    }
  }

  lemma ReceiverKeepsTorn(x: Side, y: Side, baseX: nat, baseY: nat, step: Step)
    requires SockOk(x.sock) && SockOk(y.sock) && Flow(x, y, baseX) && Flow(y, x, baseY)
    requires Torn(x, y, baseX) && MayTake(y, x, step)
    ensures step.Deliver? ==> !AckPanics(y.sock, step.seg.ack)
    ensures Torn(x, Taking(y, step), baseX) && Taking(y, step).sock.rcv == y.sock.rcv
  {
    TakingKeepsFlows(y, x, baseY, baseX, step);
  }

  function Base(left: bool, baseL: nat, baseR: nat): nat {
    if left then baseL else baseR
  }

  /** A torn stream never moves again, whatever is sent, retransmitted, delivered or read. */
  lemma {:induction false} TornIsFinal(n: Net, left: bool, steps: seq<Step>, baseL: nat, baseR: nat)
    requires Inv(n, baseL, baseR) && Torn(Local(n, left), Local(n, !left), Base(left, baseL, baseR)) && Runs(n, steps)
    ensures Exec(n, steps).Some?
    ensures Local(Exec(n, steps).value, left).sock.una == Local(n, left).sock.una
    ensures Local(Exec(n, steps).value, !left).sock.rcv == Local(n, !left).sock.rcv
    decreases |steps|
  {
    if steps != [] {
      var x, y, baseX, baseY := Local(n, left), Local(n, !left), Base(left, baseL, baseR), Base(!left, baseL, baseR);
      StepKeepsInv(n, steps[0], baseL, baseR);
      if steps[0].left == left {
        SenderKeepsTorn(x, y, baseX, baseY, steps[0]);
      } else {
        ReceiverKeepsTorn(x, y, baseX, baseY, steps[0]);
      }
      TornIsFinal(Apply(n, steps[0]), left, steps[1..], baseL, baseR);
    }
  }

  /** After this run something was delivered to the peer of `left`, or acknowledged to `left`. */
  ghost predicate Moves(n: Net, left: bool, steps: seq<Step>) {
    && Runs(n, steps) && Exec(n, steps).Some?
    && var n' := Exec(n, steps).value;
       (Local(n', left).sock.una != Local(n, left).sock.una || Local(n', !left).sock.rcv != Local(n, !left).sock.rcv)
  }

  /** No run panics, delivers anything to the peer of `left`, or gets anything acknowledged to `left`. */
  ghost predicate Stuck(n: Net, left: bool) {
    forall steps | Runs(n, steps) :: Exec(n, steps).Some? && !Moves(n, left, steps)
  }

  lemma RunEmpty(n: Net)
    ensures Runs(n, []) && Exec(n, []) == Some(n)
  {
  }

  lemma RunCons(n: Net, step: Step, rest: seq<Step>)
    requires SidesOk(n) && Enabled(n, step) && !Panics(n, step) && Runs(Apply(n, step), rest)
    ensures Runs(n, [step] + rest) && Exec(n, [step] + rest) == Exec(Apply(n, step), rest)
  {
    assert ([step] + rest)[1..] == rest;
  }

  /** A segment at which the peer stands, and room for it: delivering it moves the stream. */
  lemma DeliveryMoves(n: Net, left: bool, g: Segment, baseL: nat, baseR: nat) returns (steps: seq<Step>)
    requires Inv(n, baseL, baseR) && Local(n, !left).sock.used && |Local(n, !left).sock.rx| < RX_CAP
    requires g in Local(n, left).sent && g.payload != [] && g.seq_ == Local(n, !left).sock.rcv
    ensures Moves(n, left, steps)
  {
    var step := Deliver(!left, g, 0);
    StepKeepsInv(n, step, baseL, baseR);
    RunCons(n, step, []);
    steps := [step] + [];
    var y := Local(n, !left);
    AcceptsOnlyFullAck(y.sock, g.ack);
    assert Flow(Local(n, left), y, Base(left, baseL, baseR)) && Carries(Local(n, left).stream, Base(left, baseL, baseR), g);
    assert Acked(y.sock, g.ack, 0).rcv == y.sock.rcv && Acked(y.sock, g.ack, 0).rx == y.sock.rx;
  }

  lemma AfterStep(n: Net, step: Step)
    requires SidesOk(n) && !Panics(n, step)
    ensures Local(Apply(n, step), step.left) == Taking(Local(n, step.left), step)
    ensures Local(Apply(n, step), !step.left) == Local(n, !step.left)
  {
  }

  /** A data segment the peer is past only makes it acknowledge again. */
  lemma OnlyAcks(y: Side, g: Segment, now: nat)
    requires SockOk(y.sock) && g.ack == 0 < y.sock.nxt && g.payload != [] && g.seq_ != y.sock.rcv
    ensures !AckPanics(y.sock, g.ack)
    ensures DeliverSide(y, g, now) == y.(sent := y.sent + {AckSegment(y.sock)})
  {
    AcceptsOnlyFullAck(y.sock, g.ack);
  }

  /** A copy of a segment the peer has makes it acknowledge the whole stream, which moves it. */
  lemma AckMoves(n: Net, left: bool, baseL: nat, baseR: nat) returns (steps: seq<Step>)
    requires Inv(n, baseL, baseR) && Local(n, left).sock.used && Local(n, !left).sock.used && Local(n, left).sock.tx != []
    requires Local(n, !left).sock.rcv == Local(n, left).sock.nxt && SendsTile(Local(n, left), Base(left, baseL, baseR))
    ensures Moves(n, left, steps)
  {
    var x, y := Local(n, left), Local(n, !left);
    assert x.sock.una < y.sock.rcv && y.sock.nxt > 0;
    var g :| g in x.sends && g.seq_ == x.sock.una;
    hide Inv, Runs, Exec, Apply, AckPanics, AckAccepted, Handled;
    var ack := AckSegment(y.sock);
    var s1, s2 := Deliver(!left, g, 0), Deliver(left, ack, 0);
    OnlyAcks(y, g, 0);
    var n1 := Then(n, s1, baseL, baseR);
    AcceptsOnlyFullAck(x.sock, ack.ack);
    var n2 := Then(n1, s2, baseL, baseR);
    assert Local(n2, left).sock.una == y.sock.rcv by {
      AckTakesAll(x, ack, 0);
    }
    RunEmpty(n2);
    RunCons(n1, s2, []);
    RunCons(n, s1, [s2] + []);
    steps := [s1] + ([s2] + []);
  }

  lemma AckTakesAll(x: Side, g: Segment, now: nat)
    requires SockOk(x.sock) && g.ack == x.sock.nxt && x.sock.una < x.sock.nxt
    ensures !AckPanics(x.sock, g.ack) && DeliverSide(x, g, now).sock.una == g.ack
  {
  }

  lemma Then(n: Net, step: Step, baseL: nat, baseR: nat) returns (n': Net)
    requires Inv(n, baseL, baseR) && Enabled(n, step)
    ensures SidesOk(n) && !Panics(n, step) && n' == Apply(n, step) && Inv(n', baseL, baseR)
    ensures Local(n', step.left) == Taking(Local(n, step.left), step) && Local(n', !step.left) == Local(n, !step.left)
  {
    StepKeepsInv(n, step, baseL, baseR);
    AfterStep(n, step);
    n' := Apply(n, step);
  }

  lemma Three(n: Net, s1: Step, s2: Step, s3: Step) returns (steps: seq<Step>)
    requires SidesOk(n) && Enabled(n, s1) && !Panics(n, s1)
    requires var n1 := Apply(n, s1); SidesOk(n1) && Enabled(n1, s2) && !Panics(n1, s2)
    requires var n2 := Apply(Apply(n, s1), s2); SidesOk(n2) && Enabled(n2, s3) && !Panics(n2, s3)
    ensures steps == [s1, s2, s3] && Runs(n, steps)
    ensures Exec(n, steps) == Some(Apply(Apply(Apply(n, s1), s2), s3))
  {
    hide Enabled, Panics, Apply, SidesOk;
    var n1 := Apply(n, s1);
    var n2 := Apply(n1, s2);
    RunCons(n2, s3, []);
    RunCons(n1, s2, [s3]);
    RunCons(n, s1, [s2, s3]);
    assert [s3] + [] == [s3] && [s2] + [s3] == [s2, s3] && [s1] + [s2, s3] == [s1, s2, s3];
    steps := [s1, s2, s3];
  }

  lemma RoomMoves(n: Net, left: bool, baseL: nat, baseR: nat) returns (steps: seq<Step>)
    requires Inv(n, baseL, baseR) && Local(n, left).sock.used && Local(n, !left).sock.used && Local(n, left).sock.tx != []
    requires |Local(n, !left).sock.rx| < RX_CAP
    requires !Torn(Local(n, left), Local(n, !left), Base(left, baseL, baseR))
    requires SendsTile(Local(n, left), Base(left, baseL, baseR))
    ensures Moves(n, left, steps)
  {
    var x, y := Local(n, left), Local(n, !left);
    if y.sock.rcv == x.sock.una {
      var g :| g in x.sends && g.seq_ == x.sock.una;
      steps := DeliveryMoves(n, left, g, baseL, baseR);
    } else if y.sock.rcv == x.sock.nxt {
      steps := AckMoves(n, left, baseL, baseR);
    } else {
      var g :| g in x.sent && |g.payload| > 0 && g.seq_ == y.sock.rcv;
      steps := DeliveryMoves(n, left, g, baseL, baseR);
    }
  }

  /** An unacknowledged stream between two open sockets is stuck if and only if it is torn.  The run that moves it
      needs no retransmission, which the retry limit might refuse: a late copy of an old segment is enough. */
  lemma StuckIffTorn(n: Net, left: bool, baseL: nat, baseR: nat)
    requires Inv(n, baseL, baseR) && Local(n, left).sock.used && Local(n, !left).sock.used && Local(n, left).sock.tx != []
    requires SendsTile(Local(n, left), Base(left, baseL, baseR))
    ensures Stuck(n, left) <==> Torn(Local(n, left), Local(n, !left), Base(left, baseL, baseR))
  {
    if Torn(Local(n, left), Local(n, !left), Base(left, baseL, baseR)) {
      forall steps | Runs(n, steps) ensures Exec(n, steps).Some? && !Moves(n, left, steps) {
        TornIsFinal(n, left, steps, baseL, baseR);
      }
    } else {
      var steps: seq<Step>;
      if |Local(n, !left).sock.rx| == RX_CAP {
        var step := Recv(!left, 1);
        StepKeepsInv(n, step, baseL, baseR);
        var rest := RoomMoves(Apply(n, step), left, baseL, baseR);
        RunCons(n, step, rest);
        steps := [step] + rest;
      } else {
        steps := RoomMoves(n, left, baseL, baseR);
      }
      assert Moves(n, left, steps);
    }
  }

  /** Told over a whole run of two established sockets: the stream is stuck if and only if the peer is past what is
      acknowledged and stopped inside a send. */
  lemma RunStuckIff(n: Net, steps: seq<Step>, left: bool)
    requires Established(n) && Runs(n, steps)
    ensures Exec(n, steps).Some?
    ensures var n' := Exec(n, steps).value; var x, y := Local(n', left), Local(n', !left);
      x.sock.used && y.sock.used && x.sock.tx != [] ==>
        (Stuck(n', left) <==> x.sock.una < y.sock.rcv && InsideSend(x, y.sock.rcv))
  {
    var baseL, baseR := n.l.sock.una, n.r.sock.una;
    EstablishedInv(n);
    RunKeepsTiles(n, steps, baseL, baseR);
    var n' := Exec(n, steps).value;
    if Local(n', left).sock.used && Local(n', !left).sock.used && Local(n', left).sock.tx != [] {
      StuckIffTorn(n', left, baseL, baseR);
      TornIffInside(Local(n', left), Local(n', !left), Base(left, baseL, baseR));
    }
  }

  /** Two sends from the start. */
  lemma TwoSends(n: Net, one: seq<byte>, two: seq<byte>) returns (n': Net)
    requires Established(n) && |one| == |two| == 1000 && n.l.sock.una + 2000 < U32
    ensures SidesOk(n) && Enabled(n, Send(true, one, 0))
    ensures var n1 := Apply(n, Send(true, one, 0)); SidesOk(n1) && Enabled(n1, Send(true, two, 0))
    ensures n' == Apply(Apply(n, Send(true, one, 0)), Send(true, two, 0)) && Inv(n', n.l.sock.una, n.r.sock.una)
    ensures n'.r == n.r && n'.l.sock.used && n'.l.sock.una == n.l.sock.una && n'.l.sock.lastTx == 0
    ensures n'.l.sock.tx == one + two == n'.l.stream
    ensures n'.l.sent == {Segment(n.l.sock.una, 0, one), Segment(n.l.sock.una + 1000, 0, two)}
  {
    EstablishedInv(n);
    hide Inv, Apply;
    var n1 := Then(n, Send(true, one, 0), n.l.sock.una, n.r.sock.una);
    assert n1.l.sock.tx == one;
    n' := Then(n1, Send(true, two, 0), n.l.sock.una, n.r.sock.una);
  }

  /** Their loss, and a retransmission taken whole. */
  lemma RetransmitTaken(n: Net, baseL: nat, baseR: nat, one: seq<byte>, two: seq<byte>) returns (n': Net, steps: seq<Step>)
    requires Inv(n, baseL, baseR) && |one| == |two| == 1000 && n.l.sock.tx == one + two == n.l.stream
    requires n.l.sock.used && n.r.sock.used && n.l.sock.una == n.r.sock.rcv == baseL && n.l.sock.lastTx == 0
    requires n.r.sock.rx == [] && n.r.sock.una == n.r.sock.nxt && baseL + 2000 < U32
    requires n.l.sent == {Segment(baseL, 0, one), Segment(baseL + 1000, 0, two)}
    ensures steps == [Arm(true, RETX_AFTER_US + 1), Retransmit(true), Deliver(false, Segment(baseL, 0, (one + two)[..MSS]), 0)]
    ensures Runs(n, steps) && Exec(n, steps) == Some(n')
    ensures Torn(n'.l, n'.r, baseL) && |n'.r.sock.rx| == MSS
  {
    hide Inv, Runs, Exec, Apply, AckPanics, AckAccepted;
    var g := Segment(baseL, 0, (one + two)[..MSS]);
    var n1 := Then(n, Arm(true, RETX_AFTER_US + 1), baseL, baseR);
    var n2 := Then(n1, Retransmit(true), baseL, baseR);
    assert n2.l.sent == n.l.sent + {g};
    AcceptsOnlyFullAck(n.r.sock, 0);
    n' := Then(n2, Deliver(false, g, 0), baseL, baseR);
    steps := Three(n, Arm(true, RETX_AFTER_US + 1), Retransmit(true), Deliver(false, g, 0));
  }

  /** One lost round is enough: two sends of 1000 bytes are lost, the retransmission of the first 1400 bytes is taken
      whole into an empty ring, and the stream is torn. */
  lemma LostRoundTears(n: Net, one: seq<byte>, two: seq<byte>) returns (steps: seq<Step>)
    requires Established(n) && |one| == |two| == 1000 && n.l.sock.una + 2000 < U32
    ensures steps == [Send(true, one, 0), Send(true, two, 0), Arm(true, RETX_AFTER_US + 1), Retransmit(true),
                      Deliver(false, Segment(n.l.sock.una, 0, (one + two)[..MSS]), 0)]
    ensures Runs(n, steps) && Exec(n, steps).Some?
    ensures Torn(Exec(n, steps).value.l, Exec(n, steps).value.r, n.l.sock.una)
    ensures |Exec(n, steps).value.r.sock.rx| == MSS
  {
    var n2 := TwoSends(n, one, two);
    hide Inv, Runs, Exec, Apply, Enabled;
    var n5, rest := RetransmitTaken(n2, n.l.sock.una, n.r.sock.una, one, two);
    RunCons(Apply(n, Send(true, one, 0)), Send(true, two, 0), rest);
    RunCons(n, Send(true, one, 0), [Send(true, two, 0)] + rest);
    steps := [Send(true, one, 0)] + ([Send(true, two, 0)] + rest);
  }
}
