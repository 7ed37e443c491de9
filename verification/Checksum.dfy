/** The Internet checksum: 16-bit big-endian words summed in ones' complement. */
module Checksums {
  import opened Bytes

  const WORD: nat := 0x1_0000
  const ONES := 0xFFFF

  function Word(hi: byte, lo: byte): (w: nat)
    ensures w < WORD
  {
    hi as nat * 256 + lo as nat
  }

  function Be16(v: nat): (b: seq<byte>)
    requires v < WORD
    ensures |b| == 2 && Word(b[0], b[1]) == v
  {
    [(v / 256) as byte, (v % 256) as byte]
  }

  /** The sum of the words; an odd last byte counts as the high half of a word. */
  function WordSum(b: seq<byte>): nat {
    if b == [] then 0 else if |b| == 1 then Word(b[0], 0) else Word(b[0], b[1]) + WordSum(b[2..])
  }

  /** End-around carry. */
  function Fold(sum: nat): (r: nat)
    ensures r < WORD
    decreases sum
  {
    if sum / WORD == 0 then sum else Fold(sum % WORD + sum / WORD)
  }

  /** `!(sum as u16)`. */
  function Checksum(b: seq<byte>): (c: nat)
    ensures c < WORD
  {
    ONES - Fold(WordSum(b))
  }

  // -------------------------------------------------------------------------
  // Folding is arithmetic modulo 65535
  // -------------------------------------------------------------------------

  /** The nonzero representative below 65536 of a sum modulo 65535, but 0 for 0. */
  lemma {:induction false} FoldIs(sum: nat)
    ensures Fold(sum) == if sum == 0 then 0 else (sum - 1) % ONES + 1
    decreases sum
  {
    if sum / WORD == 0 {
      if sum > 0 {
        Reduce(sum, 0);
      }
    } else {
      var next := sum % WORD + sum / WORD;
      FoldIs(next);
      Reduce(next, sum / WORD);
    }
  }

  lemma Reduce(a: nat, k: nat)
    requires a > 0
    ensures (a - 1 + k * ONES) % ONES == (a - 1) % ONES
    ensures a <= ONES ==> (a - 1) % ONES == a - 1
    decreases k
  {
    if k > 0 {
      Reduce(a, k - 1);
      assert a - 1 + k * ONES == (a - 1 + (k - 1) * ONES) + ONES;
      Shift(a - 1 + (k - 1) * ONES);
    }
  }

  lemma Shift(x: nat)
    ensures (x + ONES) % ONES == x % ONES
  {
  }

  /** Data verifies exactly when its words sum to a positive multiple of 65535. */
  lemma VerifiesIff(b: seq<byte>)
    ensures Checksum(b) == 0 <==> WordSum(b) > 0 && WordSum(b) % ONES == 0
  {
    FoldOnesIff(WordSum(b));
  }

  lemma FoldOnesIff(sum: nat)
    ensures Fold(sum) == ONES <==> sum > 0 && sum % ONES == 0
  {
    FoldIs(sum);
    if sum > 0 {
      BeforeMultiple(sum);
    }
  }

  lemma BeforeMultiple(s: nat)
    requires s > 0
    ensures (s - 1) % ONES == ONES - 1 <==> s % ONES == 0
  {
    if s % ONES == 0 {
      assert s - 1 == (s / ONES - 1) * ONES + (ONES - 1);
      Reduce(ONES, s / ONES - 1);
    } else {
      assert s - 1 == s / ONES * ONES + (s % ONES - 1);
      Reduce(s % ONES, s / ONES);
    }
  }

  /** A sum plus the complement of its fold is a positive multiple of 65535. */
  lemma ComplementBalances(sum: nat)
    ensures (sum + (ONES - Fold(sum))) % ONES == 0 && sum + (ONES - Fold(sum)) > 0
  {
    FoldIs(sum);
    if sum > 0 {
      var total := sum + (ONES - Fold(sum));
      assert total == (sum - 1) / ONES * ONES + ONES;
      Multiple((sum - 1) / ONES + 1);
    }
  }

  // -------------------------------------------------------------------------
  // One word at a time
  // -------------------------------------------------------------------------

  function WordAt(b: seq<byte>, i: nat): (w: nat)
    requires 2 * i + 1 < |b|
    ensures w < WORD
  {
    Word(b[2 * i], b[2 * i + 1])
  }

  function WithWord(b: seq<byte>, i: nat, w: nat): (r: seq<byte>)
    requires 2 * i + 1 < |b| && w < WORD
    ensures |r| == |b| && WordAt(r, i) == w
    ensures forall k | 0 <= k < |b| && k != 2 * i && k != 2 * i + 1 :: r[k] == b[k]
  {
    b[2 * i := Be16(w)[0]][2 * i + 1 := Be16(w)[1]]
  }

  /** Replacing a word replaces its share of the sum. */
  lemma {:induction false} SumWithWord(b: seq<byte>, i: nat, w: nat)
    requires 2 * i + 1 < |b| && w < WORD
    ensures WordSum(WithWord(b, i, w)) == WordSum(b) - WordAt(b, i) + w && WordAt(b, i) <= WordSum(b)
  {
    var r := WithWord(b, i, w);
    if i == 0 {
      assert r[2..] == b[2..];
    } else {
      assert r[2..] == WithWord(b[2..], i - 1, w);
      SumWithWord(b[2..], i - 1, w);
      assert WordAt(b[2..], i - 1) == WordAt(b, i);
    }
  }

  /** Writing the checksum into a zeroed word makes the whole verify. */
  lemma {:induction false} FilledVerifies(b: seq<byte>, i: nat)
    requires 2 * i + 1 < |b| && WordAt(b, i) == 0
    ensures Checksum(WithWord(b, i, Checksum(b))) == 0
  {
    SumWithWord(b, i, Checksum(b));
    ComplementBalances(WordSum(b));
    VerifiesIff(WithWord(b, i, Checksum(b)));
  }

  /** Changing one word of verified data goes unnoticed only between 0x0000 and 0xFFFF, and then only if some
      word is left that is not zero. */
  lemma {:induction false} OneWordChange(b: seq<byte>, i: nat, w: nat)
    requires 2 * i + 1 < |b| && w < WORD && Checksum(b) == 0 && w != WordAt(b, i)
    ensures Checksum(WithWord(b, i, w)) == 0 <==>
            WordAt(b, i) in {0, ONES} && w in {0, ONES} && WordSum(WithWord(b, i, w)) > 0
  {
    var was, sum := WordAt(b, i), WordSum(b);
    SumWithWord(b, i, w);
    VerifiesIff(b);
    VerifiesIff(WithWord(b, i, w));
    SumChange(sum, was, w);
  }

  /** A balanced sum stays balanced under one word's change only between the two zeros. */
  lemma SumChange(sum: nat, was: nat, w: nat)
    requires was < WORD && w < WORD && was <= sum && was != w && sum % ONES == 0
    ensures (sum - was + w) % ONES == 0 <==> was in {0, ONES} && w in {0, ONES}
  {
    assert sum == sum / ONES * ONES;
    SameResidue(sum / ONES, w - was);
  }

  lemma SameResidue(k: nat, d: int)
    requires -ONES <= d <= ONES && k * ONES + d >= 0
    ensures (k * ONES + d) % ONES == 0 <==> d == 0 || d == ONES || d == -ONES
  {
    var x := k * ONES + d;
    if x % ONES == 0 {
      var q := x / ONES;
      assert x == q * ONES && d == (q - k) * ONES;
      assert q - k >= 2 ==> d >= 2 * ONES;
      assert q - k <= -2 ==> d <= -2 * ONES;
    } else {
      assert d == 0 ==> x == k * ONES;
    }
    Multiple(k);
    Multiple(k + 1);
    if k > 0 {
      Multiple(k - 1);
    }
  }

  lemma Multiple(k: nat)
    ensures (k * ONES) % ONES == 0
  {
  }

  // -------------------------------------------------------------------------
  // The loops
  // -------------------------------------------------------------------------

  /** How large a sum can get. */
  lemma {:induction false} SumFits(b: seq<byte>)
    ensures WordSum(b) <= (|b| + 1) / 2 * ONES
  {
    if |b| > 1 {
      SumFits(b[2..]);
    }
  }

  /** Two more bytes at the end of an even prefix. */
  lemma {:induction false} SumAppend(a: seq<byte>, c: seq<byte>)
    requires |a| % 2 == 0
    ensures WordSum(a + c) == WordSum(a) + WordSum(c)
  {
    if a == [] {
      assert a + c == c;
    } else {
      assert (a + c)[2..] == a[2..] + c;
      SumAppend(a[2..], c);
    }
  }

  /** The carry loop. */
  method FoldLoop(s: nat) returns (r: nat)
    ensures r == Fold(s)
  {
    r := s;
    while r / WORD != 0
      invariant Fold(r) == Fold(s)
      decreases r
    {
      r := r % WORD + r / WORD;
    }
  }

  /** The summing loop, continuing from `start`. */
  method SumLoop(b: seq<byte>, start: nat) returns (sum: nat)
    ensures sum == start + WordSum(b)
  {
    sum := start;
    var i := 0;
    while i + 1 < |b|
      invariant 0 <= i <= |b| && i % 2 == 0 && sum == start + WordSum(b[..i])
    {
      SumAppend(b[..i], b[i..i + 2]);
      assert b[..i] + b[i..i + 2] == b[..i + 2];
      assert WordSum(b[i..i + 2]) == Word(b[i], b[i + 1]) + WordSum([]);
      sum := sum + Word(b[i], b[i + 1]);
      i := i + 2;
    }
    if i < |b| {
      SumAppend(b[..i], b[i..]);
      assert b[..i] + b[i..] == b;
      sum := sum + Word(b[i], 0);
    } else {
      assert b[..i] == b;
    }
  }

  method ChecksumOf(b: seq<byte>) returns (c: nat)
    ensures c == Checksum(b)
  {
    var sum := SumLoop(b, 0);
    var f := FoldLoop(sum);
    c := ONES - f;
  }
}
