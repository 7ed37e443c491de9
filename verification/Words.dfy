/** Little-endian words in bytes. */
module Words {
  import opened Bytes

  const U64: nat := 0x1_0000_0000_0000_0000

  function Le(v: nat, n: nat): (b: seq<byte>)
    ensures |b| == n
  {
    if n == 0 then [] else [(v % 256) as byte] + Le(v / 256, n - 1)
  }

  function FromLe(b: seq<byte>): nat {
    if b == [] then 0 else b[0] as nat + 256 * FromLe(b[1..])
  }

  /** Is `v` a number of `n` bytes? */
  predicate FitsIn(v: nat, n: nat) {
    if n == 0 then v == 0 else FitsIn(v / 256, n - 1)
  }

  lemma {:induction false} LeRoundTrip(v: nat, n: nat)
    requires FitsIn(v, n)
    ensures FromLe(Le(v, n)) == v
  {
    if n > 0 {
      LeRoundTrip(v / 256, n - 1);
      assert Le(v, n)[1..] == Le(v / 256, n - 1);
    }
  }

  lemma WordFits(v: nat)
    requires v < U64
    ensures FitsIn(v, 8)
  {
    var a := v / 256;
    var b := a / 256;
    var c := b / 256;
    var d := c / 256;
    var e := d / 256;
    var f := e / 256;
    var g := f / 256;
    assert g / 256 == 0;
    assert FitsIn(g / 256, 0) && FitsIn(g, 1) && FitsIn(f, 2) && FitsIn(e, 3);
    assert FitsIn(d, 4) && FitsIn(c, 5) && FitsIn(b, 6) && FitsIn(a, 7);
  }

  /** The 64-bit word at `at`. */
  function Word(m: seq<byte>, at: nat): nat
    requires at + 8 <= |m|
  {
    FromLe(m[at..at + 8])
  }

  /** A word depends on its own bytes only. */
  lemma WordSame(m: seq<byte>, m': seq<byte>, at: nat)
    requires at + 8 <= |m| == |m'| && forall i | at <= i < at + 8 :: m'[i] == m[i]
    ensures Word(m', at) == Word(m, at)
  {
    assert m'[at..at + 8] == m[at..at + 8];
  }
}
