/** The TCP socket as the kernel keeps it: two rings in fixed arrays, updated in place. */
module Tcp {
  import opened Bytes
  import opened Frames
  import opened Rings
  import opened TcpSpec

  datatype RecvResult = Data(bytes: seq<byte>) | Dead | Block

  /** What handling a segment leaves to do once the lock is dropped. */
  datatype Outcome = Panicked | Quiet | Reply(segment: Segment)

  class Socket {
    var used: bool
    var una: u32
    var nxt: u32
    var rcv: u32
    const tx: array<byte>
    var txHead: nat
    var txLen: nat
    const rx: array<byte>
    var rxHead: nat
    var rxLen: nat
    var retries: nat
    var lastTx: nat

    ghost predicate Valid()
      reads this
    {
      tx.Length == TX_CAP && rx.Length == RX_CAP && tx != rx &&
      RingOk(TX_CAP, txHead, txLen) && RingOk(RX_CAP, rxHead, rxLen)
    }

    ghost function Model(): (s: Sock)
      requires Valid()
      reads this, tx, rx
      ensures SockOk(s)
    {
      Sock(used, una, nxt, rcv, Contents(tx[..], txHead, txLen), Contents(rx[..], rxHead, rxLen), retries, lastTx)
    }

    /** A socket promoted to ESTAB: nothing in flight, `first` is the next byte to send, `peerFirst` the next
        byte expected. */
    constructor (first: u32, peerFirst: u32)
      ensures Valid() && Model() == Sock(true, first, first, peerFirst, [], [], 0, 0)
      ensures fresh(tx) && fresh(rx)
    {
      used, una, nxt, rcv := true, first, first, peerFirst;
      tx := new byte[TX_CAP](i => 0);
      rx := new byte[RX_CAP](i => 0);
      txHead, txLen, rxHead, rxLen, retries, lastTx := 0, 0, 0, 0, 0, 0;
    }

    /** tcp_send: `buf` is what copy-in read from the program, None if it could not. */
    method Send(buf: Option<seq<byte>>, now: nat) returns (r: int, segment: Option<Segment>)
      requires Valid()
      modifies this, tx
      ensures Valid()
      ensures buf.None? ==> r == -1
      ensures buf.Some? ==> var data := buf.value[..Min(|buf.value|, MSS)];
        r == if data == [] then 0 else if old(Sendable(Model())) then |data| else -1
      ensures r > 0 ==> var data := buf.value[..r];
        Model() == Sent(old(Model()), data, now) && segment == Some(SentSegment(old(Model()), data))
      ensures r <= 0 ==> Model() == old(Model()) && segment == None
    {
      if buf.None? {
        return -1, None;
      }
      var len := Min(|buf.value|, MSS);
      if len == 0 {
        return 0, None;
      }
      var data := buf.value[..len];
      if !used {
        return -1, None;
      }
      var free := TX_CAP - txLen;
      var n := Min(len, free);
      if n == 0 {
        return -1, None;
      }
      ghost var before := rx[..];
      var pushed := RingPush(tx, txHead, txLen, data[..n]);
      assert data[..n][..pushed] == data[..n] && rx[..] == before;
      txLen := txLen + pushed;
      segment := Some(Segment(nxt, 0, data));
      nxt := WrapAdd(nxt, n);
      lastTx := now;
      r := len;
    }

    /** One pass of tcp_recv: the oldest bytes, at most one MSS. */
    method Recv(max: nat) returns (r: RecvResult)
      requires Valid() && max > 0
      modifies this
      ensures Valid()
      ensures r.Data? <==> old(Model()).rx != []
      ensures r.Data? ==> r.bytes == Popped(old(Model()), Min(max, MSS)) != []
      ensures r.Data? ==> Model() == AfterPop(old(Model()), Min(max, MSS))
      ensures !r.Data? ==> Model() == old(Model()) && (r.Dead? <==> !used)
    {
      var len := Min(max, MSS);
      if rxLen > 0 {
        var bytes := RingPeek(rx, rxHead, rxLen, len);
        rxHead, rxLen := RingDrop(rx[..], rxHead, rxLen, RX_CAP, |bytes|);
        return Data(bytes);
      }
      if !used {
        return Dead;
      }
      return Block;
    }

    /** Everything acknowledged leaves the TX ring. */
    method TakeAck(ack: u32, now: nat) returns (panicked: bool)
      requires Valid()
      modifies this
      ensures Valid() && panicked == old(AckPanics(Model(), ack))
      ensures !panicked ==> Model() == Acked(old(Model()), ack, now)
    {
      if WrapSub(ack, una) > 0 && WrapSub(ack, nxt) <= 0 {
        if ack < una {
          return true;
        }
        txHead, txLen := RingDrop(tx[..], txHead, txLen, TX_CAP, ack - una);
        una, retries, lastTx := ack, 0, now;
      }
      return false;
    }

    /** In-order bytes enter the RX ring as far as they fit. */
    method TakePayload(seq_: u32, payload: seq<byte>)
      requires Valid()
      modifies this, rx
      ensures Valid() && forall ack :: Model() == Taken(old(Model()), Segment(seq_, ack, payload))
    {
      if |payload| > 0 && seq_ == rcv {
        var take := Min(|payload|, RX_CAP - rxLen);
        ghost var before := tx[..];
        var pushed := RingPush(rx, rxHead, rxLen, payload[..take]);
        assert payload[..take][..pushed] == payload[..take] && tx[..] == before;
        rxLen := rxLen + pushed;
        rcv := WrapAdd(rcv, take);
      }
    }

    /** The ESTAB arm of the ingress handler. */
    method HandleInband(g: Segment, now: nat) returns (out: Outcome)
      requires Valid()
      modifies this, rx
      ensures Valid() && (out.Panicked? <==> old(AckPanics(Model(), g.ack)))
      ensures !out.Panicked? ==> Model() == Handled(old(Model()), g, now)
      ensures out == if out.Panicked? then Panicked else if |g.payload| > 0 then Reply(AckSegment(Model())) else Quiet
    {
      var panicked := TakeAck(g.ack, now);
      if panicked {
        return Panicked;
      }
      TakePayload(g.seq_, g.payload);
      if |g.payload| > 0 {
        return Reply(Segment(nxt, rcv, []));
      }
      return Quiet;
    }

    /** First half of a tick, under the lock: is a retransmission due, and is it the last straw? */
    method TickArm(now: nat) returns (giveUp: Option<bool>)
      requires Valid()
      modifies this
      ensures Valid() && giveUp.Some? == old(TickDue(Model(), now))
      ensures giveUp.Some? ==> Model() == Armed(old(Model()), now) && giveUp.value == (retries > MAX_RETRIES)
      ensures giveUp.None? ==> Model() == old(Model())
    {
      if used && txLen > 0 && now - lastTx > RETX_AFTER_US {
        retries := retries + 1;
        lastTx := now;
        return Some(retries > MAX_RETRIES);
      }
      return None;
    }

    /** Second half, under a new hold of the lock: free the socket or resend the oldest bytes. */
    method TickFire(giveUp: bool) returns (segment: Option<Segment>)
      requires Valid()
      modifies this
      ensures Valid() && Model() == old(Model()).(used := used) && used == (old(used) && !giveUp)
      ensures segment == if giveUp then None else Some(RetxSegment(Model()))
    {
      if giveUp {
        used := false;
        return None;
      }
      var bytes := RingPeek(tx, txHead, txLen, MSS);
      return Some(Segment(una, 0, bytes));
    }
  }
}
