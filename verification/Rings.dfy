/** Byte rings in a fixed array: `head` is the oldest byte, `len` how many there are. */
module Rings {
  import opened Bytes

  /** The array index `x` steps from the start, for at most one turn. */
  function Slot(cap: nat, x: nat): nat
    requires x < 2 * cap
  {
    if x < cap then x else x - cap
  }

  lemma ModIsSlot(cap: nat, x: nat)
    requires x < 2 * cap
    ensures x % cap == Slot(cap, x)
  {
    var q := x / cap;
    assert x == q * cap + x % cap;
    assert q <= 0 ==> q * cap <= 0;
    assert q >= 2 ==> q * cap >= 2 * cap;
    assert q >= 1 ==> q * cap >= cap;
  }

  predicate RingOk(cap: nat, head: nat, len: nat) {
    head < cap && len <= cap
  }

  /** What a ring holds, oldest byte first. */
  function Contents(r: seq<byte>, head: nat, len: nat): (c: seq<byte>)
    requires RingOk(|r|, head, len)
    ensures |c| == len && forall i | 0 <= i < len :: c[i] == r[Slot(|r|, head + i)]
  {
    seq(len, i requires 0 <= i < len => r[Slot(|r|, head + i)])
  }

  /** Writing behind the newest byte appends it and disturbs no other. */
  lemma PushOne(r: seq<byte>, head: nat, len: nat, b: byte)
    requires RingOk(|r|, head, len) && len < |r|
    ensures Contents(r[Slot(|r|, head + len) := b], head, len + 1) == Contents(r, head, len) + [b]
  {
    var r' := r[Slot(|r|, head + len) := b];
    forall k | 0 <= k < len ensures Contents(r', head, len + 1)[k] == Contents(r, head, len)[k] {
      assert Slot(|r|, head + k) != Slot(|r|, head + len);
    }
  }

  /** Append as much of `data` as fits; the bytes already in the ring stay where they are. */
  method RingPush(r: array<byte>, head: nat, len: nat, data: seq<byte>) returns (n: nat)
    requires RingOk(r.Length, head, len)
    modifies r
    ensures n == Min(|data|, r.Length - len)
    ensures Contents(r[..], head, len + n) == old(Contents(r[..], head, len)) + data[..n]
  {
    n := Min(|data|, r.Length - len);
    ghost var was := Contents(r[..], head, len);
    for i := 0 to n
      invariant Contents(r[..], head, len + i) == was + data[..i]
    {
      PushOne(r[..], head, len + i, data[i]);
      ModIsSlot(r.Length, head + len + i);
      r[(head + len + i) % r.Length] := data[i];
      assert was + data[..i] + [data[i]] == was + data[..i + 1];
    }
  }

  /** Copy the oldest bytes out; the caller moves head and len. */
  method RingPeek(r: array<byte>, head: nat, len: nat, max: nat) returns (bytes: seq<byte>)
    requires RingOk(r.Length, head, len)
    ensures bytes == Contents(r[..], head, len)[..Min(max, len)]
  {
    var n := Min(max, len);
    bytes := [];
    for i := 0 to n
      invariant bytes == Contents(r[..], head, len)[..i]
    {
      ModIsSlot(r.Length, head + i);
      bytes := bytes + [r[(head + i) % r.Length]];
    }
  }

  /** Forget the oldest `n` bytes. */
  method RingDrop(ghost r: seq<byte>, head: nat, len: nat, cap: nat, n: nat) returns (head': nat, len': nat)
    requires RingOk(cap, head, len) && |r| == cap
    ensures RingOk(cap, head', len')
    ensures Contents(r, head', len') == Contents(r, head, len)[Min(n, len)..]
  {
    var k := Min(n, len);
    ModIsSlot(cap, head + k);
    head' := (head + k) % cap;
    len' := len - k;
  }
}
