/** The data phase of the TCP socket, as functions on a socket value: what one send, one segment, one
    tick and one recv do.  The rings are the sequences they hold. */
module TcpSpec {
  import opened Bytes

  const MSS: nat := 1400
  const TX_CAP: nat := 8192
  const RX_CAP: nat := 8192
  const U32: nat := 0x1_0000_0000
  const MAX_RETRIES: nat := 8
  const RETX_AFTER_US: nat := 400_000

  type u32 = x: nat | x < U32 witness 0

  function WrapAdd(a: u32, n: nat): u32 {
    (a + n) % U32
  }

  function WrapSub(a: u32, b: u32): u32 {
    (a - b) % U32
  }

  /** A segment of the data phase; all of them carry the ACK flag. */
  datatype Segment = Segment(seq_: u32, ack: u32, payload: seq<byte>)

  datatype Sock = Sock(used: bool, una: u32, nxt: u32, rcv: u32, tx: seq<byte>, rx: seq<byte>,
                       retries: nat, lastTx: nat)

  predicate SockOk(s: Sock) {
    |s.tx| <= TX_CAP && |s.rx| <= RX_CAP
  }

  // --- send -------------------------------------------------------------------

  function TxFree(s: Sock): int {
    TX_CAP - |s.tx|
  }

  predicate Sendable(s: Sock) {
    s.used && TxFree(s) > 0
  }

  /** The part of `data` that fits the TX ring is kept for retransmission ... */
  function Kept(s: Sock, data: seq<byte>): seq<byte>
    requires SockOk(s)
  {
    data[..Min(|data|, TxFree(s))]
  }

  function Sent(s: Sock, data: seq<byte>, now: nat): Sock
    requires SockOk(s)
  {
    s.(tx := s.tx + Kept(s, data), nxt := WrapAdd(s.nxt, |Kept(s, data)|), lastTx := now)
  }

  /** ... but all of `data` goes out, with a zero acknowledgement under the ACK flag. */
  function SentSegment(s: Sock, data: seq<byte>): Segment {
    Segment(s.nxt, 0, data)
  }

  // --- tick -------------------------------------------------------------------

  predicate TickDue(s: Sock, now: nat) {
    s.used && |s.tx| > 0 && now - s.lastTx > RETX_AFTER_US
  }

  function Armed(s: Sock, now: nat): Sock {
    s.(retries := s.retries + 1, lastTx := now)
  }

  function RetxSegment(s: Sock): Segment {
    Segment(s.una, 0, s.tx[..Min(|s.tx|, MSS)])
  }

  // --- an arriving segment ----------------------------------------------------

  /** The acceptance test: both wrapping differences are zero-extended before they are compared. */
  predicate AckAccepted(s: Sock, ack: u32) {
    WrapSub(ack, s.una) > 0 && WrapSub(ack, s.nxt) <= 0
  }

  /** `ack - una` is plain unsigned arithmetic in a build with overflow checks. */
  predicate AckPanics(s: Sock, ack: u32) {
    AckAccepted(s, ack) && ack < s.una
  }

  function Acked(s: Sock, ack: u32, now: nat): Sock
    requires !AckPanics(s, ack)
  {
    if AckAccepted(s, ack) then
      s.(tx := s.tx[Min(|s.tx|, ack - s.una)..], una := ack, retries := 0, lastTx := now)
    else s
  }

  function Taken(s: Sock, g: Segment): Sock
    requires SockOk(s)
  {
    if |g.payload| > 0 && g.seq_ == s.rcv then
      var take := Min(|g.payload|, RX_CAP - |s.rx|);
      s.(rx := s.rx + g.payload[..take], rcv := WrapAdd(s.rcv, take))
    else s
  }

  function Handled(s: Sock, g: Segment, now: nat): Sock
    requires SockOk(s) && !AckPanics(s, g.ack)
  {
    Taken(Acked(s, g.ack, now), g)
  }

  function AckSegment(s: Sock): Segment {
    Segment(s.nxt, s.rcv, [])
  }

  // --- recv -------------------------------------------------------------------

  function Popped(s: Sock, len: nat): seq<byte> {
    s.rx[..Min(len, |s.rx|)]
  }

  function AfterPop(s: Sock, len: nat): Sock {
    s.(rx := s.rx[Min(len, |s.rx|)..])
  }

  // -------------------------------------------------------------------------
  // The acknowledgement test
  // -------------------------------------------------------------------------

  /** What the two comparisons come to: only an acknowledgement of everything sent is accepted. */
  lemma AcceptsOnlyFullAck(s: Sock, ack: u32)
    ensures AckAccepted(s, ack) <==> ack == s.nxt && ack != s.una
  {
  }

  /** The subtraction that follows overflows exactly when the unacknowledged window straddles 2^32. */
  lemma PanicsIffStraddling(s: Sock, ack: u32)
    ensures AckPanics(s, ack) <==> ack == s.nxt && s.nxt < s.una
  {
  }
}
