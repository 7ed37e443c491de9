/** The IPC channels as the kernel keeps them: eight rings in fixed arrays, updated in place. */
module Ipc {
  import opened Bytes
  import opened Frames
  import opened Rings
  import opened IpcSpec

  const NCHANS: nat := 8

  datatype SendResult = SendError | SentNothing | Queued(count: nat, wake: nat) | SendBlocked
  datatype RecvResult = RecvError | GotNothing | Got(bytes: seq<byte>, wake: nat) | Undelivered | RecvBlocked

  class Chan {
    var used: bool
    var key: nat
    const buf: array<byte>
    var head: nat
    var count: nat
    var waitRecv: nat
    var waitSend: nat

    ghost predicate Valid()
      reads this
    {
      buf.Length == CAP && head < CAP && count <= CAP
    }

    /** Where the oldest byte is: `head` is the next write position. */
    ghost function Tail(): (t: nat)
      requires Valid()
      reads this
      ensures RingOk(CAP, t, count)
    {
      if head >= count then head - count else head + CAP - count
    }

    ghost function Model(): (c: Channel)
      requires Valid()
      reads this, buf
      ensures |c.ring| == count
    {
      Channel(Contents(buf[..], Tail(), count), waitRecv, waitSend)
    }

    constructor ()
      ensures Valid() && !used && Model() == Channel([], 0, 0) && fresh(buf)
    {
      buf := new byte[CAP](i => 0);
      used, key, head, count, waitRecv, waitSend := false, 0, 0, 0, 0, 0;
    }

    /** Install a fresh channel in this slot. */
    method Reset(k: nat)
      requires Valid()
      modifies this, buf
      ensures Valid() && used && key == k && Model() == Channel([], 0, 0)
    {
      forall i | 0 <= i < buf.Length {
        buf[i] := 0;
      }
      used, key, head, count, waitRecv, waitSend := true, k, 0, 0, 0, 0;
    }

    /** send under the lock: `msg` is what copy-in read (None if it could not), `slot` the caller.
        Queued carries the waiter to wake once the lock is gone. */
    method Send(msg: Option<seq<byte>>, slot: nat) returns (r: SendResult)
      requires Valid()
      modifies this, buf
      ensures Valid() && used == old(used) && key == old(key)
      ensures r.SendError? <==> msg.None? || (msg.value != [] && !used)
      ensures r.SentNothing? <==> msg.Some? && msg.value == []
      ensures r.SendError? || r.SentNothing? ==> Model() == old(Model())
      ensures r.Queued? || r.SendBlocked? ==> var data := msg.value[..Min(|msg.value|, MAXMSG)];
        r == if Room(old(Model()), |data|) then Queued(|data|, old(waitRecv)) else SendBlocked
      ensures r.Queued? ==> Model() == Enqueued(old(Model()), msg.value[..r.count])
      ensures r.SendBlocked? ==> Model() == old(Model()).(waitSend := slot + 1)
    {
      if msg.None? {
        return SendError;
      }
      var len := Min(|msg.value|, MAXMSG);
      if len == 0 {
        return SentNothing;
      }
      var data := msg.value[..len];
      if !used {
        return SendError;
      }
      if count + len <= CAP {
        ghost var tail := Tail();
        Fill(data);
        assert data[..len] == data;
        ModIsSlot(CAP, head + len);
        head := (head + len) % CAP;
        count := count + len;
        assert Tail() == tail;
        r := Queued(len, waitRecv);
        waitRecv := 0;
        return;
      }
      waitSend := slot + 1;
      return SendBlocked;
    }

    /** The copy loop of recv: the oldest bytes leave the ring. */
    method TakeFront(len: nat) returns (out: seq<byte>)
      requires Valid()
      modifies this`count
      ensures Valid() && out == Front(old(Model()), len) && Model() == Drained(old(Model()), len)
    {
      var n := Min(count, len);
      ModIsSlot(CAP, head + CAP - count);
      var tail := (head + CAP - count) % CAP;
      out := RingPeek(buf, tail, count, n);
      ghost var c0 := count;
      count := count - n;
      assert Tail() == Slot(CAP, tail + n);
      assert Contents(buf[..], Tail(), count) == Contents(buf[..], tail, c0)[n..];
    }

    /** recv under the lock; `copied` says whether copy-out to the program worked. */
    method Recv(max: nat, slot: nat, copied: bool) returns (r: RecvResult)
      requires Valid()
      modifies this
      ensures Valid() && used == old(used) && key == old(key)
      ensures r.GotNothing? <==> max == 0
      ensures r.RecvError? <==> max > 0 && !used
      ensures r.GotNothing? || r.RecvError? ==> Model() == old(Model())
      ensures r.RecvBlocked? <==> max > 0 && used && old(Model()).ring == []
      ensures r.RecvBlocked? ==> Model() == old(Model()).(waitRecv := slot + 1)
      ensures r.Got? ==> copied && r == Got(Front(old(Model()), Min(max, MAXMSG)), old(waitSend)) &&
                         Model() == Dequeued(old(Model()), Min(max, MAXMSG))
      ensures r.Undelivered? ==> !copied && Model() == Drained(old(Model()), Min(max, MAXMSG))
    {
      var len := Min(max, MAXMSG);
      if len == 0 {
        return GotNothing;
      }
      if !used {
        return RecvError;
      }
      if count == 0 {
        waitRecv := slot + 1;
        return RecvBlocked;
      }
      var out := TakeFront(len);
      if !copied {
        return Undelivered;
      }
      r := Got(out, waitSend);
      waitSend := 0;
    }

    /** The copy loop of send: bytes go in from the write position on. */
    method Fill(data: seq<byte>)
      requires Valid() && count + |data| <= CAP
      modifies buf
      ensures Contents(buf[..], Tail(), count + |data|) == old(Contents(buf[..], Tail(), count)) + data
    {
      ghost var was, tail := Contents(buf[..], Tail(), count), Tail();
      for k := 0 to |data|
        invariant Contents(buf[..], tail, count + k) == was + data[..k]
      {
        PushOne(buf[..], tail, count + k, data[k]);
        ModIsSlot(CAP, head + k);
        assert Slot(CAP, head + k) == Slot(CAP, tail + count + k);
        buf[(head + k) % CAP] := data[k];
        assert was + data[..k] + [data[k]] == was + data[..k + 1];
      }
      assert data[..|data|] == data;
    }
  }

  class Channels {
    const chans: array<Chan>

    ghost predicate Valid()
      reads this, chans, chans[..]
    {
      && chans.Length == NCHANS
      && (forall i | 0 <= i < NCHANS :: chans[i].Valid())
      && (forall i, j | 0 <= i < j < NCHANS :: chans[i] != chans[j] && chans[i].buf != chans[j].buf)
    }

    /** No two used channels share a key, except the private key 0. */
    ghost predicate KeysUnique()
      requires Valid()
      reads this, chans, chans[..]
    {
      forall i, j | 0 <= i < j < NCHANS && chans[i].used && chans[j].used && chans[i].key != 0 :: chans[i].key != chans[j].key
    }

    /** Join the channel with this key, or take a free slot for it. */
    method Open(key: nat) returns (r: int)
      requires Valid() && KeysUnique()
      modifies chans[..], set i | 0 <= i < NCHANS :: chans[i].buf
      ensures Valid() && KeysUnique() && -1 <= r < NCHANS
      ensures r >= 0 ==> chans[r].used && chans[r].key == key
      ensures forall i | 0 <= i < NCHANS && i != r ::
                chans[i].used == old(chans[i].used) && chans[i].key == old(chans[i].key) &&
                chans[i].Model() == old(chans[i].Model())
      ensures key != 0 ==> forall i | 0 <= i < NCHANS && old(chans[i].used) && old(chans[i].key) == key ::
                r == i && chans[i].Model() == old(chans[i].Model())
      ensures r >= 0 && !(key != 0 && old(chans[r].used)) ==>
                !old(chans[r].used) && chans[r].Model() == Channel([], 0, 0)
      ensures r == -1 ==> forall i | 0 <= i < NCHANS :: old(chans[i].used)
    {
      if key != 0 {
        for i := 0 to NCHANS
          invariant forall k | 0 <= k < i :: !(chans[k].used && chans[k].key == key)
        {
          if chans[i].used && chans[i].key == key {
            return i;
          }
        }
      }
      for i := 0 to NCHANS
        invariant forall k | 0 <= k < i :: chans[k].used
      {
        if !chans[i].used {
          chans[i].Reset(key);
          return i;
        }
      }
      return -1;
    }
  }
}
