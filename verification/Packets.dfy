/** IPv4 and TCP headers as the stack builds and parses them. */
module Packets {
  import opened Bytes
  import opened Checksums
  import opened Frames

  const HDR: nat := 20
  const U32: nat := 0x1_0000_0000
  const PROTO_TCP: nat := 6

  function Be32(v: nat): (b: seq<byte>)
    requires v < U32
    ensures |b| == 4 && FromBe32(b) == v
  {
    Be16(v / WORD) + Be16(v % WORD)
  }

  function FromBe32(b: seq<byte>): (v: nat)
    requires |b| == 4
    ensures v < U32
  {
    Word(b[0], b[1]) * WORD + Word(b[2], b[3])
  }

  // -------------------------------------------------------------------------
  // IPv4
  // -------------------------------------------------------------------------

  datatype Ipv4 = Ipv4(ihl: nat, proto: byte, src: nat, dst: nat, ttl: byte, payload: seq<byte>)

  /** The header before its checksum is filled in. */
  function Ipv4Blank(proto: byte, src: nat, dst: nat, len: nat, id: nat): (h: seq<byte>)
    requires src < U32 && dst < U32 && id < WORD
    ensures |h| == HDR
  {
    [0x45, 0] + Be16((HDR + len) % WORD) + Be16(id) + Be16(0x4000) + [64, proto] + [0, 0] + Be32(src) + Be32(dst)
  }

  function Ipv4Header(proto: byte, src: nat, dst: nat, len: nat, id: nat): (h: seq<byte>)
    requires src < U32 && dst < U32 && id < WORD
    ensures |h| == HDR
  {
    var blank := Ipv4Blank(proto, src, dst, len, id);
    WithWord(blank, 5, Checksum(blank))
  }

  function Ipv4Parse(p: seq<byte>): Option<Ipv4> {
    if |p| < HDR then None
    else
      var ihl := p[0] as nat % 16 * 4;
      if p[0] / 16 != 4 || ihl < HDR || |p| < ihl then None
      else
        var total := Word(p[2], p[3]);
        var len := Min(if total > ihl then total - ihl else 0, |p| - ihl);
        if Checksum(p[..ihl]) != 0 then None
        else Some(Ipv4(ihl, p[9], FromBe32(p[12..16]), FromBe32(p[16..20]), p[8], p[ihl..ihl + len]))
  }

  /** Write `data` behind the `at` bytes already there; nothing from `stop` on changes. */
  method Put(buf: array<byte>, at: nat, data: seq<byte>, ghost stop: nat) returns (end: nat)
    requires at + |data| <= stop <= buf.Length
    modifies buf
    ensures end == at + |data|
    ensures buf[..end] == old(buf[..at]) + data && buf[stop..] == old(buf[stop..])
  {
    ghost var was := buf[..];
    for i := 0 to |data|
      invariant buf[..at + i] == was[..at] + data[..i] && buf[at + i..] == was[at + i..]
    {
      buf[at + i] := data[i];
      assert was[..at] + data[..i + 1] == was[..at] + data[..i] + [data[i]];
    }
    end := at + |data|;
    assert data[..|data|] == data;
  }

  /** Fill in word `i`. */
  method PutWord(buf: array<byte>, n: nat, i: nat, w: nat)
    requires 2 * i + 1 < n <= buf.Length && w < WORD
    modifies buf
    ensures buf[..n] == WithWord(old(buf[..n]), i, w) && buf[n..] == old(buf[n..])
  {
    buf[2 * i] := Be16(w)[0];
    buf[2 * i + 1] := Be16(w)[1];
  }

  /** Fill the first twenty bytes of a packet. */
  method Ipv4Put(buf: array<byte>, proto: byte, src: nat, dst: nat, len: nat, id: nat) returns (n: nat)
    requires buf.Length >= HDR && src < U32 && dst < U32 && id < WORD
    modifies buf
    ensures n == HDR && buf[..] == Ipv4Header(proto, src, dst, len, id) + old(buf[HDR..])
  {
    hide Be16, Be32, Checksum, WordAt, FromBe32, Word;
    ghost var rest := buf[HDR..];
    n := Put(buf, 0, [0x45, 0], HDR);
    n := Put(buf, n, Be16((HDR + len) % WORD), HDR);
    n := Put(buf, n, Be16(id), HDR);
    n := Put(buf, n, Be16(0x4000), HDR);
    n := Put(buf, n, [64, proto], HDR);
    n := Put(buf, n, [0, 0], HDR);
    n := Put(buf, n, Be32(src), HDR);
    n := Put(buf, n, Be32(dst), HDR);
    assert buf[..HDR] == Ipv4Blank(proto, src, dst, len, id);
    assert buf[HDR..] == rest;
    var sum := ChecksumOf(buf[..HDR]);
    PutWord(buf, HDR, 5, sum);
    assert buf[..] == buf[..HDR] + buf[HDR..];
  }

  /** What was built parses back to its fields, and to its payload exactly when the length fits its 16-bit field. */
  lemma {:induction false} Ipv4RoundTrip(proto: byte, src: nat, dst: nat, id: nat, payload: seq<byte>)
    requires src < U32 && dst < U32 && id < WORD
    ensures var r := Ipv4Parse(Ipv4Header(proto, src, dst, |payload|, id) + payload);
      && r.Some? && r.value.(payload := payload) == Ipv4(HDR, proto, src, dst, 64, payload)
      && r.value.payload <= payload
      && (r.value.payload == payload <==> HDR + |payload| < WORD)
  {
    hide Be32, Checksum, FromBe32, WordSum, Word, Ipv4Parse;
    var h := Ipv4Header(proto, src, dst, |payload|, id);
    var p := h + payload;
    HeaderVerifies(proto, src, dst, |payload|, id);
    Ipv4Fields(proto, src, dst, |payload|, id, h);
    assert p[..HDR] == h && p[HDR..] == payload;
    assert p[12..16] == h[12..16] && p[16..20] == h[16..20];
    PlainParse(p, (HDR + |payload|) % WORD);
  }

  lemma HeaderVerifies(proto: byte, src: nat, dst: nat, len: nat, id: nat)
    requires src < U32 && dst < U32 && id < WORD
    ensures Checksum(Ipv4Header(proto, src, dst, len, id)) == 0
  {
    hide Be32, Checksum, WordSum;
    var blank := Ipv4Blank(proto, src, dst, len, id);
    assert blank[10] == 0 && blank[11] == 0;
    FilledVerifies(blank, 5);
  }

  /** Parsing a packet without options. */
  lemma PlainParse(p: seq<byte>, total: nat)
    requires |p| >= HDR && p[0] == 0x45 && Checksum(p[..HDR]) == 0 && Word(p[2], p[3]) == total
    ensures Ipv4Parse(p) == Some(Ipv4(HDR, p[9], FromBe32(p[12..16]), FromBe32(p[16..20]), p[8],
                                      p[HDR..HDR + Min(if total > HDR then total - HDR else 0, |p| - HDR)]))
  {
    hide Checksum, FromBe32, Word;
  }

  lemma Ipv4Fields(proto: byte, src: nat, dst: nat, len: nat, id: nat, h: seq<byte>)
    requires src < U32 && dst < U32 && id < WORD && |h| == HDR
    requires forall k | 0 <= k < HDR && k != 10 && k != 11 :: h[k] == Ipv4Blank(proto, src, dst, len, id)[k]
    ensures h[0] == 0x45 && Word(h[2], h[3]) == (HDR + len) % WORD && h[8] == 64 && h[9] == proto
    ensures h[12..16] == Be32(src) && h[16..20] == Be32(dst)
  {
    hide Be32, FromBe32;
    var b := Ipv4Blank(proto, src, dst, len, id);
    assert h[12..16] == b[12..16] == Be32(src) && h[16..20] == b[16..20] == Be32(dst);
  }

  /** Changing one word of the header, its first byte aside, goes unnoticed exactly between 0x0000 and 0xFFFF. */
  lemma {:induction false} Ipv4OneWordChange(p: seq<byte>, i: nat, w: nat)
    requires Ipv4Parse(p).Some? && 2 * i + 1 < Ipv4Parse(p).value.ihl && w < WORD && w != WordAt(p, i)
    requires WithWord(p, i, w)[0] == p[0]
    ensures Ipv4Parse(WithWord(p, i, w)).Some? <==> WordAt(p, i) in {0, ONES} && w in {0, ONES}
  {
    hide Checksum, WordAt, FromBe32, Word;
    var ihl := Ipv4Parse(p).value.ihl;
    var p' := WithWord(p, i, w);
    WordInFront(p, i, w, ihl);
    OneWordChange(p[..ihl], i, w);
    FirstWordCounts(p'[..ihl]);
    assert p'[..ihl][0] == p[0];
  }

  /** Changing the first word: the header length may then be read differently.  The packet is still taken exactly
      when it still claims version 4 and a length it has, and the words between the two lengths balance the change. */
  lemma {:induction false} Ipv4FirstWordChange(p: seq<byte>, w: nat)
    requires Ipv4Parse(p).Some? && w < WORD
    ensures var ihl, ihl' := Ipv4Parse(p).value.ihl, w / 256 % 16 * 4;
      Ipv4Parse(WithWord(p, 0, w)).Some? <==>
        && w / 0x1000 == 4 && HDR <= ihl' <= |p|
        && (w - WordAt(p, 0) + (if ihl' >= ihl then WordSum(p[ihl..ihl']) else 0 - WordSum(p[ihl'..ihl]))) % ONES == 0
  {
    var p' := WithWord(p, 0, w);
    var ihl, ihl' := Ipv4Parse(p).value.ihl, w / 256 % 16 * 4;
    FirstByte(p, w);
    if w / 0x1000 == 4 && HDR <= ihl' <= |p| {
      FirstWordSum(p, w, ihl, ihl');
    }
  }

  lemma FirstByte(p: seq<byte>, w: nat)
    requires |p| >= 2 && w < WORD
    ensures WithWord(p, 0, w)[0] as nat == w / 256
    ensures WithWord(p, 0, w)[0] as nat % 16 * 4 == w / 256 % 16 * 4
    ensures WithWord(p, 0, w)[0] / 16 == 4 <==> w / 0x1000 == 4
  {
  }

  lemma FirstWordSum(p: seq<byte>, w: nat, ihl: nat, ihl': nat)
    requires w < WORD && w >= 0x4000 && HDR <= ihl <= |p| && HDR <= ihl' <= |p| && ihl % 4 == 0 && ihl' % 4 == 0
    requires Checksum(p[..ihl]) == 0
    ensures Checksum(WithWord(p, 0, w)[..ihl']) == 0 <==>
      (w - WordAt(p, 0) + (if ihl' >= ihl then WordSum(p[ihl..ihl']) else 0 - WordSum(p[ihl'..ihl]))) % ONES == 0
  {
    hide Checksum, WordAt, Word;
    var h' := WithWord(p, 0, w)[..ihl'];
    WordInFront(p, 0, w, ihl');
    SumWithWord(p[..ihl'], 0, w);
    FirstWordCounts(h');
    VerifiesIff(p[..ihl]);
    VerifiesIff(h');
    if ihl' >= ihl {
      SumAppend(p[..ihl], p[ihl..ihl']);
      assert p[..ihl] + p[ihl..ihl'] == p[..ihl'];
    } else {
      SumAppend(p[..ihl'], p[ihl'..ihl]);
      assert p[..ihl'] + p[ihl'..ihl] == p[..ihl];
    }
    ShiftMultiple(WordSum(p[..ihl]), WordSum(h') - WordSum(p[..ihl]));
  }

  lemma ShiftMultiple(a: nat, d: int)
    requires a % ONES == 0
    ensures (a + d) % ONES == d % ONES
  {
  }

  /** Changing a word of the front is the same whatever follows. */
  lemma WordInFront(p: seq<byte>, i: nat, w: nat, n: nat)
    requires 2 * i + 1 < n <= |p| && w < WORD
    ensures WithWord(p, i, w)[..n] == WithWord(p[..n], i, w) && WordAt(p[..n], i) == WordAt(p, i)
  {
  }

  lemma FirstWordCounts(b: seq<byte>)
    requires |b| >= 2 && b[0] > 0
    ensures WordSum(b) > 0
  {
  }

  // -------------------------------------------------------------------------
  // TCP
  // -------------------------------------------------------------------------

  datatype Tcp = Tcp(srcPort: nat, dstPort: nat, seqNo: nat, ack: nat, flags: byte, window: nat, payload: seq<byte>)

  predicate TcpOk(t: Tcp) {
    t.srcPort < WORD && t.dstPort < WORD && t.seqNo < U32 && t.ack < U32 && t.window < WORD
  }

  /** The part of the sum that is not in the segment. */
  function PseudoSum(src: nat, dst: nat, n: nat): (s: nat)
    requires src < U32 && dst < U32
    ensures s > 0
  {
    WordSum(Be32(src)) + WordSum(Be32(dst)) + PROTO_TCP + n % WORD
  }

  function TcpBlank(t: Tcp): (b: seq<byte>)
    requires TcpOk(t)
    ensures |b| == HDR + |t.payload|
  {
    TcpFixed(t) + t.payload
  }

  /** The twenty bytes before the payload, checksum and urgent pointer zero. */
  function TcpFixed(t: Tcp): (b: seq<byte>)
    requires TcpOk(t)
    ensures |b| == HDR
  {
    Be16(t.srcPort) + Be16(t.dstPort) + Be32(t.seqNo) + Be32(t.ack) + [0x50, t.flags] + Be16(t.window) + [0, 0] + [0, 0]
  }

  function TcpSegment(src: nat, dst: nat, t: Tcp): (b: seq<byte>)
    requires src < U32 && dst < U32 && TcpOk(t)
    ensures |b| == HDR + |t.payload|
  {
    var blank := TcpBlank(t);
    WithWord(blank, 8, ONES - Fold(PseudoSum(src, dst, |blank|) + WordSum(blank)))
  }

  predicate TcpChecksumOk(src: nat, dst: nat, p: seq<byte>)
    requires src < U32 && dst < U32
  {
    Fold(PseudoSum(src, dst, |p|) + WordSum(p)) == ONES
  }

  function TcpParse(p: seq<byte>): Option<Tcp> {
    if |p| < HDR then None
    else
      var doff := p[12] as nat / 16 * 4;
      if doff < HDR || |p| < doff then None
      else Some(Tcp(Word(p[0], p[1]), Word(p[2], p[3]), FromBe32(p[4..8]), FromBe32(p[8..12]), p[13],
                    Word(p[14], p[15]), p[doff..]))
  }

  /** Fill a segment into the front of a buffer. */
  method TcpPut(buf: array<byte>, src: nat, dst: nat, t: Tcp) returns (n: nat)
    requires src < U32 && dst < U32 && TcpOk(t) && buf.Length >= HDR + |t.payload|
    modifies buf
    ensures n == HDR + |t.payload| && buf[..] == TcpSegment(src, dst, t) + old(buf[n..])
  {
    hide Be16, Be32, Fold, WordAt, FromBe32, Word, PseudoSum, TcpFixed;
    ghost var rest := buf[HDR + |t.payload|..];
    n := PutFixed(buf, t, HDR + |t.payload|);
    n := Put(buf, n, t.payload, HDR + |t.payload|);
    assert buf[..n] == TcpBlank(t) && buf[n..] == rest;
    var f := SegmentFold(src, dst, buf[..n]);
    PutWord(buf, n, 8, ONES - f);
    assert buf[..] == buf[..n] + buf[n..];
  }

  method PutFixed(buf: array<byte>, t: Tcp, ghost stop: nat) returns (n: nat)
    requires TcpOk(t) && HDR <= stop <= buf.Length
    modifies buf
    ensures n == HDR && buf[..HDR] == TcpFixed(t) && buf[stop..] == old(buf[stop..])
  {
    hide Be16, Be32, FromBe32, Word;
    n := Put(buf, 0, Be16(t.srcPort), stop);
    n := Put(buf, n, Be16(t.dstPort), stop);
    n := Put(buf, n, Be32(t.seqNo), stop);
    n := Put(buf, n, Be32(t.ack), stop);
    n := Put(buf, n, [0x50, t.flags], stop);
    n := Put(buf, n, Be16(t.window), stop);
    n := Put(buf, n, [0, 0], stop);
    n := Put(buf, n, [0, 0], stop);
  }

  /** The pseudo-header and the segment, summed and folded. */
  method SegmentFold(src: nat, dst: nat, p: seq<byte>) returns (f: nat)
    requires src < U32 && dst < U32
    ensures f == Fold(PseudoSum(src, dst, |p|) + WordSum(p))
  {
    var sum := SumLoop(Be32(src), 0);
    sum := SumLoop(Be32(dst), sum);
    sum := SumLoop(p, sum + PROTO_TCP + |p| % WORD);
    SegmentSumFits(src, dst, p);
    assert |p| <= SEGMENT_MAX ==> sum < U32;
    f := FoldLoop(sum);
  }

  /** The 32-bit accumulator of the code holds the sum of any segment up to this length, so also every partial sum. */
  const SEGMENT_MAX: nat := 131062

  lemma {:induction false} SegmentSumFits(src: nat, dst: nat, p: seq<byte>)
    requires src < U32 && dst < U32
    ensures |p| <= SEGMENT_MAX ==> PseudoSum(src, dst, |p|) + WordSum(p) < U32
  {
    hide WordSum, Be32;
    SumFits(p);
    SumFits(Be32(src));
    SumFits(Be32(dst));
    assert |p| <= SEGMENT_MAX ==> (|p| + 1) / 2 <= 65531;
  }

  method TcpVerify(src: nat, dst: nat, p: seq<byte>) returns (ok: bool)
    requires src < U32 && dst < U32
    ensures ok == TcpChecksumOk(src, dst, p)
  {
    var f := SegmentFold(src, dst, p);
    ok := f == ONES;
  }

  /** What was built verifies and parses back to its fields. */
  lemma {:induction false} TcpRoundTrip(src: nat, dst: nat, t: Tcp)
    requires src < U32 && dst < U32 && TcpOk(t)
    ensures TcpChecksumOk(src, dst, TcpSegment(src, dst, t))
    ensures TcpParse(TcpSegment(src, dst, t)) == Some(t)
  {
    hide Be16, Be32, Fold, WordAt, FromBe32, Word, PseudoSum, WordSum;
    var blank := TcpBlank(t);
    TcpFields(t, blank);
    ZeroWord(blank, 8);
    FilledBalances(PseudoSum(src, dst, |blank|), blank, 8);
    TcpFields(t, TcpSegment(src, dst, t));
  }

  lemma ZeroWord(b: seq<byte>, i: nat)
    requires 2 * i + 1 < |b| && b[2 * i] == 0 && b[2 * i + 1] == 0
    ensures WordAt(b, i) == 0
  {
  }

  /** With the complement filled in, pseudo-header and segment balance. */
  lemma FilledBalances(rest: nat, b: seq<byte>, i: nat)
    requires 2 * i + 1 < |b| && WordAt(b, i) == 0
    ensures Fold(rest + WordSum(WithWord(b, i, ONES - Fold(rest + WordSum(b))))) == ONES
  {
    var sum := rest + WordSum(b);
    SumWithWord(b, i, ONES - Fold(sum));
    ComplementBalances(sum);
    FoldOnesIff(sum + (ONES - Fold(sum)));
  }

  /** Anything that agrees with the blank but for its checksum word parses to the fields. */
  lemma TcpFields(t: Tcp, p: seq<byte>)
    requires TcpOk(t) && |p| == HDR + |t.payload|
    requires forall k | 0 <= k < |p| && k != 16 && k != 17 :: p[k] == TcpBlank(t)[k]
    ensures TcpParse(p) == Some(t) && TcpBlank(t)[16] == 0 && TcpBlank(t)[17] == 0
  {
    hide Be16, Be32, FromBe32, Word;
    var b := TcpBlank(t);
    assert p[4..8] == b[4..8] == Be32(t.seqNo) && p[8..12] == b[8..12] == Be32(t.ack);
    assert p[HDR..] == b[HDR..] == t.payload;
  }

  /** Changing one word of a segment goes unnoticed exactly between 0x0000 and 0xFFFF. */
  lemma {:induction false} TcpOneWordChange(src: nat, dst: nat, p: seq<byte>, i: nat, w: nat)
    requires src < U32 && dst < U32 && TcpChecksumOk(src, dst, p)
    requires 2 * i + 1 < |p| && w < WORD && w != WordAt(p, i)
    ensures TcpChecksumOk(src, dst, WithWord(p, i, w)) <==> WordAt(p, i) in {0, ONES} && w in {0, ONES}
  {
    hide PseudoSum, WordSum, Fold, WordAt, WithWord;
    BalancedChange(PseudoSum(src, dst, |p|), p, i, w);
  }

  lemma BalancedChange(rest: nat, b: seq<byte>, i: nat, w: nat)
    requires 2 * i + 1 < |b| && w < WORD && w != WordAt(b, i) && rest > 0 && Fold(rest + WordSum(b)) == ONES
    ensures Fold(rest + WordSum(WithWord(b, i, w))) == ONES <==> WordAt(b, i) in {0, ONES} && w in {0, ONES}
  {
    hide WordSum, Fold, WordAt, WithWord;
    var was, sum := WordAt(b, i), rest + WordSum(b);
    SumWithWord(b, i, w);
    FoldOnesIff(sum);
    var sum' := rest + WordSum(WithWord(b, i, w));
    FoldOnesIff(sum');
    SumChange(sum, was, w);
    assert sum' == sum - was + w;
  }
}
