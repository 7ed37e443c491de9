/** Two sockets in the data phase over a network that may lose, repeat and reorder: everything a side
    ever sent stays deliverable for ever, and nothing has to be delivered. */
module TcpProtocol {
  import opened Bytes
  import opened TcpSpec

  /** One side: its socket, every segment it ever sent, those of them that are the segments of its send calls, the
      bytes those calls put into the TX ring, and the bytes its recv calls took out of the RX ring. */
  datatype Side = Side(sock: Sock, sent: set<Segment>, sends: set<Segment>, stream: seq<byte>, taken: seq<byte>)

  datatype Net = Net(l: Side, r: Side)

  datatype Step =
    | Send(left: bool, data: seq<byte>, now: nat)
    | Recv(left: bool, len: nat)
    | Arm(left: bool, now: nat)
    | Retransmit(left: bool)
    | GiveUp(left: bool)
    | Deliver(left: bool, seg: Segment, now: nat)

  function Local(n: Net, left: bool): Side {
    if left then n.l else n.r
  }

  function WithLocal(n: Net, left: bool, s: Side): Net {
    if left then n.(l := s) else n.(r := s)
  }

  predicate SidesOk(n: Net) {
    SockOk(n.l.sock) && SockOk(n.r.sock)
  }

  function SendSide(s: Side, data: seq<byte>, now: nat): Side
    requires SockOk(s.sock)
  {
    s.(sock := Sent(s.sock, data, now), sent := s.sent + {SentSegment(s.sock, data)},
       sends := s.sends + {SentSegment(s.sock, data)}, stream := s.stream + Kept(s.sock, data))
  }

  function RecvSide(s: Side, len: nat): Side {
    s.(sock := AfterPop(s.sock, len), taken := s.taken + Popped(s.sock, len))
  }

  function DeliverSide(s: Side, g: Segment, now: nat): Side
    requires SockOk(s.sock) && !AckPanics(s.sock, g.ack)
  {
    var sock := Handled(s.sock, g, now);
    s.(sock := sock, sent := if |g.payload| > 0 then s.sent + {AckSegment(sock)} else s.sent)
  }

  /** What the two programs and the network may do next.  A send must fit the free space of the TX ring
      and must not carry the sequence numbers past 2^32. */
  predicate MayTake(x: Side, y: Side, step: Step) {
    match step
    case Send(left, data, now) => Sendable(x.sock) && 0 < |data| <= MSS && SendFits(x.sock, data)
    case Recv(left, len) => len <= MSS && |x.sock.rx| > 0
    case Arm(left, now) => TickDue(x.sock, now)
    case Retransmit(left) => x.sock.used
    case GiveUp(left) => x.sock.used && x.sock.retries > MAX_RETRIES
    case Deliver(left, seg, now) => x.sock.used && seg in y.sent
  }

  function Taking(x: Side, step: Step): Side
    requires SockOk(x.sock) && (step.Deliver? ==> !AckPanics(x.sock, step.seg.ack))
  {
    match step
    case Send(left, data, now) => SendSide(x, data, now)
    case Recv(left, len) => RecvSide(x, len)
    case Arm(left, now) => x.(sock := Armed(x.sock, now))
    case Retransmit(left) => x.(sent := x.sent + {RetxSegment(x.sock)})
    case GiveUp(left) => x.(sock := x.sock.(used := false))
    case Deliver(left, seg, now) => DeliverSide(x, seg, now)
  }

  predicate Enabled(n: Net, step: Step) {
    MayTake(Local(n, step.left), Local(n, !step.left), step)
  }

  predicate Panics(n: Net, step: Step) {
    step.Deliver? && AckPanics(Local(n, step.left).sock, step.seg.ack)
  }

  function Apply(n: Net, step: Step): Net
    requires SidesOk(n) && !Panics(n, step)
  {
    WithLocal(n, step.left, Taking(Local(n, step.left), step))
  }

  predicate SendFits(s: Sock, data: seq<byte>) {
    |data| <= TxFree(s) && s.nxt + |data| < U32
  }

  // -------------------------------------------------------------------------
  // One direction: what `a` sends and `b` receives
  // -------------------------------------------------------------------------

  /** Offset in the stream of `a` of the first byte not acknowledged, and of the next byte `b` expects. */
  function Una(a: Side, base: nat): int {
    a.sock.una - base
  }

  function Received(b: Side, base: nat): int {
    b.sock.rcv - base
  }

  /** A segment carries the bytes of the stream its sequence number stands for. */
  predicate Carries(stream: seq<byte>, base: nat, g: Segment) {
    base <= g.seq_ && g.seq_ - base + |g.payload| <= |stream| &&
    g.payload == stream[g.seq_ - base..g.seq_ - base + |g.payload|]
  }

  /** An acknowledgement is zero or claims no more than was received. */
  predicate Claims(received: int, base: nat, g: Segment) {
    g.ack == 0 || base <= g.ack <= base + received
  }

  ghost predicate Flow(a: Side, b: Side, base: nat) {
    && base > 0 && base + |a.stream| < U32
    && 0 <= Una(a, base) <= Received(b, base) <= |a.stream|
    && a.sock.nxt == base + |a.stream|
    && a.sock.tx == a.stream[Una(a, base)..]
    && b.taken + b.sock.rx == a.stream[..Received(b, base)]
    && (forall g | g in a.sent :: Carries(a.stream, base, g))
    && (forall g | g in b.sent :: Claims(Received(b, base), base, g))
  }

  ghost predicate Inv(n: Net, baseL: nat, baseR: nat) {
    SidesOk(n) && Flow(n.l, n.r, baseL) && Flow(n.r, n.l, baseR)
  }

  /** Both handshakes done, nothing sent yet. */
  predicate Established(n: Net) {
    && n.l.sock.used && n.r.sock.used
    && n.l.sent == {} && n.r.sent == {} && n.l.sends == {} && n.r.sends == {}
    && n.l.stream == [] && n.r.stream == [] && n.l.taken == [] && n.r.taken == []
    && n.l.sock.tx == [] && n.r.sock.tx == [] && n.l.sock.rx == [] && n.r.sock.rx == []
    && n.l.sock.una == n.l.sock.nxt == n.r.sock.rcv > 0
    && n.r.sock.una == n.r.sock.nxt == n.l.sock.rcv > 0
  }

  lemma EstablishedInv(n: Net)
    requires Established(n)
    ensures Inv(n, n.l.sock.una, n.r.sock.una)
  {
  }

  // --- the sending half of a step ---------------------------------------------

  lemma CarriesMore(stream: seq<byte>, more: seq<byte>, base: nat, g: Segment)
    requires Carries(stream, base, g)
    ensures Carries(stream + more, base, g)
  {
    var k := g.seq_ - base;
    assert (stream + more)[k..k + |g.payload|] == stream[k..k + |g.payload|];
  }

  lemma FlowSend(a: Side, b: Side, base: nat, data: seq<byte>, now: nat)
    requires SockOk(a.sock) && Flow(a, b, base) && Sendable(a.sock) && SendFits(a.sock, data)
    ensures Flow(SendSide(a, data, now), b, base)
  {
    var a' := SendSide(a, data, now);
    assert Kept(a.sock, data) == data;
    forall g | g in a'.sent ensures Carries(a'.stream, base, g) {
      if g in a.sent {
        CarriesMore(a.stream, data, base, g);
      }
    }
  }

  lemma FlowRetransmit(a: Side, b: Side, base: nat)
    requires SockOk(a.sock) && Flow(a, b, base)
    ensures Flow(a.(sent := a.sent + {RetxSegment(a.sock)}), b, base)
  {
    var g := RetxSegment(a.sock);
    assert g.payload == a.stream[Una(a, base)..Una(a, base) + |g.payload|];
  }

  /** An acknowledgement that says nothing false frees only bytes the peer has, and cannot panic. */
  lemma FlowAcked(a: Side, b: Side, base: nat, ack: u32, now: nat)
    requires SockOk(a.sock) && Flow(a, b, base) && (ack == 0 || base <= ack <= base + Received(b, base))
    ensures !AckPanics(a.sock, ack)
    ensures Flow(a.(sock := Acked(a.sock, ack, now)), b, base)
  {
    AcceptsOnlyFullAck(a.sock, ack);
  }

  // --- the receiving half of a step -------------------------------------------

  lemma FlowTaken(a: Side, b: Side, base: nat, g: Segment)
    requires SockOk(b.sock) && Flow(a, b, base) && Carries(a.stream, base, g)
    ensures Flow(a, b.(sock := Taken(b.sock, g)), base)
    ensures Received(b.(sock := Taken(b.sock, g)), base) >= Received(b, base)
  {
    var b' := b.(sock := Taken(b.sock, g));
    var r := Received(b, base);
    if |g.payload| > 0 && g.seq_ == b.sock.rcv {
      var take := Min(|g.payload|, RX_CAP - |b.sock.rx|);
      assert b'.sock.rcv == b.sock.rcv + take;
      assert g.payload[..take] == a.stream[r..r + take];
      assert a.stream[..r + take] == a.stream[..r] + a.stream[r..r + take];
      assert b'.taken + b'.sock.rx == (b.taken + b.sock.rx) + g.payload[..take];
    }
  }

  lemma FlowAcknowledge(a: Side, b: Side, base: nat)
    requires Flow(a, b, base)
    ensures Flow(a, b.(sent := b.sent + {AckSegment(b.sock)}), base)
  {
  }

  lemma FlowRecv(a: Side, b: Side, base: nat, len: nat)
    requires Flow(a, b, base)
    ensures Flow(a, RecvSide(b, len), base)
  {
    var b' := RecvSide(b, len);
    assert b'.taken + b'.sock.rx == b.taken + b.sock.rx;
  }

  // --- a whole delivery ---------------------------------------------------------

  /** Delivering any segment the peer ever sent cannot panic and keeps both directions. */
  lemma DeliverKeeps(x: Side, y: Side, baseX: nat, baseY: nat, g: Segment, now: nat)
    requires SockOk(x.sock) && SockOk(y.sock) && Flow(x, y, baseX) && Flow(y, x, baseY) && g in y.sent
    ensures !AckPanics(x.sock, g.ack)
    ensures Flow(DeliverSide(x, g, now), y, baseX) && Flow(y, DeliverSide(x, g, now), baseY)
  {
    assert Claims(Received(y, baseX), baseX, g);
    FlowAcked(x, y, baseX, g.ack, now);
    var x1 := x.(sock := Acked(x.sock, g.ack, now));
    assert Flow(y, x1, baseY);
    FlowTaken(y, x1, baseY, g);
    var x2 := x.(sock := Handled(x.sock, g, now));
    assert x2 == x1.(sock := Taken(x1.sock, g));
    FlowAcknowledge(y, x2, baseY);
    assert Flow(x2, y, baseX);
    var a := AckSegment(x2.sock);
    assert Carries(x.stream, baseX, a);
  }
}
