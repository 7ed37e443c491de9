/** Directory slots: 32 bytes with a short name, an attribute byte, a first cluster and a size. */
module FatDirSpec {
  import opened Bytes
  import opened FatSpec

  const SLOT: nat := 32
  const SLOTS_PER_SECTOR: nat := 16
  const END: byte := 0x00
  const DELETED: byte := 0xE5
  const DOT: byte := 0x2E
  const SPACE: byte := 0x20
  const DIRECTORY: byte := 0x10
  const ARCHIVE: byte := 0x20

  type Slot = seq<byte>

  /** A short name, already upper-cased. */
  datatype Name = Name(base: seq<byte>, ext: seq<byte>)

  const DOT_NAME: Name := Name([DOT], [])
  const DOTS_NAME: Name := Name([DOT, DOT], [])

  /** The characters to_83 keeps. */
  predicate NameChar(b: byte) {
    (0x41 <= b <= 0x5A) || (0x30 <= b <= 0x39) || b == 0x21 || (0x23 <= b <= 0x29) || b == 0x2D || b == 0x40 ||
    (0x5E <= b <= 0x60) || b == 0x7B || b == 0x7D || b == 0x7E
  }

  predicate NameOk(n: Name) {
    && 1 <= |n.base| <= 8 && |n.ext| <= 3
    && (forall i | 0 <= i < |n.base| :: NameChar(n.base[i])) && (forall i | 0 <= i < |n.ext| :: NameChar(n.ext[i]))
  }

  // --- building a slot ------------------------------------------------------------------

  function Spaced(b: seq<byte>, len: nat): (r: seq<byte>)
    requires |b| <= len
    ensures |r| == len
  {
    b + seq(len - |b|, _ => SPACE)
  }

  function Le16(v: nat): (b: seq<byte>)
    requires v < 0x1_0000
    ensures |b| == 2
  {
    [(v % 0x100) as byte, (v / 0x100) as byte]
  }

  /** 12:00:00 on 2026-01-01, the fixed stamp of every entry the driver writes. */
  const TIME: nat := 12 * 2048
  const DATE: nat := (2026 - 1980) * 512 + 1 * 32 + 1

  function MakeDirent(n: Name, first: nat, size: nat, attr: byte): (e: Slot)
    requires |n.base| <= 8 && |n.ext| <= 3 && first < U32 && size < U32
    ensures |e| == SLOT
  {
    Spaced(n.base, 8) + Spaced(n.ext, 3) + [attr, 0, 0] + Le16(TIME) + Le16(DATE) + Le16(DATE) +
    Le16(first / 0x1_0000) + Le16(TIME) + Le16(0) + Le16(first % 0x1_0000) + Le32(size)
  }

  // --- reading a slot ---------------------------------------------------------------------

  function UpToSpace(b: seq<byte>): (r: seq<byte>)
    ensures |r| <= |b|
  {
    if b == [] || b[0] == SPACE then [] else [b[0]] + UpToSpace(b[1..])
  }

  function SlotName(e: Slot): Name
    requires |e| == SLOT
  {
    Name(UpToSpace(e[0..8]), UpToSpace(e[8..11]))
  }

  function SlotFirst(e: Slot): nat
    requires |e| == SLOT
  {
    Le16At(e, 20) * 0x1_0000 + Le16At(e, 26)
  }

  function SlotSize(e: Slot): nat
    requires |e| == SLOT
  {
    Le32At(e, 28)
  }

  predicate IsDirSlot(e: Slot)
    requires |e| == SLOT
  {
    e[11] as int / 0x10 % 2 == 1
  }

  /** A volume label, if it is no piece of a long name. */
  predicate IsLabel(e: Slot)
    requires |e| == SLOT
  {
    e[11] as int / 8 % 2 == 1
  }

  predicate IsLongName(e: Slot)
    requires |e| == SLOT
  {
    e[11] as int % 0x40 == 0x0F
  }

  predicate Live(e: Slot)
    requires |e| == SLOT
  {
    e[0] != END && e[0] != DELETED
  }

  predicate IsDot(e: Slot)
    requires |e| == SLOT
  {
    e[0] == DOT
  }

  // --- comparing the stored bytes ------------------------------------------------------------

  function Trimmed(b: seq<byte>): seq<byte> {
    if b != [] && b[|b| - 1] == SPACE then Trimmed(b[..|b| - 1]) else b
  }

  function Upper(b: byte): byte {
    if 0x61 <= b <= 0x7A then b - 0x20 else b
  }

  function UpperAll(b: seq<byte>): (u: seq<byte>)
    ensures |u| == |b| && forall i | 0 <= i < |b| :: u[i] == Upper(b[i])
  {
    seq(|b|, i requires 0 <= i < |b| => Upper(b[i]))
  }

  /** short_name_taken's comparison: trailing spaces cut, case ignored, whatever kind of slot it is. */
  predicate SameShortName(e: Slot, n: Name)
    requires |e| == SLOT
  {
    UpperAll(Trimmed(e[0..8])) == n.base && UpperAll(Trimmed(e[8..11])) == n.ext
  }

  /** The name is followed by spaces only. */
  predicate Clean(e: Slot)
    requires |e| == SLOT
  {
    e[0..8] == Spaced(SlotName(e).base, 8) && e[8..11] == Spaced(SlotName(e).ext, 3)
  }

  lemma {:induction false} TrimmedSpaced(b: seq<byte>, len: nat)
    requires |b| <= len && (b == [] || b[|b| - 1] != SPACE)
    ensures Trimmed(Spaced(b, len)) == b
  {
    if len > |b| {
      assert Spaced(b, len)[..len - 1] == Spaced(b, len - 1);
      TrimmedSpaced(b, len - 1);
    } else {
      assert Spaced(b, len) == b;
    }
  }

  lemma NameIsUpper(b: seq<byte>)
    requires forall i | 0 <= i < |b| :: NameChar(b[i])
    ensures UpperAll(b) == b
  {
  }

  /** For a cleanly stored proper name the two comparisons agree. */
  lemma CleanMatches(e: Slot, n: Name)
    requires |e| == SLOT && Clean(e) && NameOk(SlotName(e))
    ensures SameShortName(e, n) <==> SlotName(e) == n
  {
    var m := SlotName(e);
    assert NameChar(m.base[|m.base| - 1]) && (m.ext != [] ==> NameChar(m.ext[|m.ext| - 1]));
    TrimmedSpaced(m.base, 8);
    TrimmedSpaced(m.ext, 3);
    NameIsUpper(m.base);
    NameIsUpper(m.ext);
  }

  lemma {:induction false} TrimmedHead(b: seq<byte>)
    requires b != [] && b[0] != SPACE
    ensures Trimmed(b) != [] && Trimmed(b)[0] == b[0]
  {
    if b[|b| - 1] == SPACE {
      TrimmedHead(b[..|b| - 1]);
    }
  }

  /** "." and ".." match no proper name. */
  lemma DotMatchesNone(e: Slot, n: Name)
    requires |e| == SLOT && IsDot(e) && NameOk(n)
    ensures !SameShortName(e, n)
  {
    assert e[0..8][0] == DOT;
    TrimmedHead(e[0..8]);
    assert NameChar(n.base[0]);
  }

  // --- names tried when one is taken ----------------------------------------------------------

  const TILDE: byte := 0x7E

  /** STEM~K.EXT, for K from 1 to 9. */
  function Alias(n: Name, k: nat): (a: Name)
    requires 1 <= k <= 9
  {
    Name(n.base[..Min(|n.base|, 6)] + [TILDE, 0x30 + k as byte], n.ext)
  }

  lemma AliasIsProper(n: Name, k: nat)
    requires NameOk(n) && 1 <= k <= 9
    ensures NameOk(Alias(n, k))
  {
  }

  // --- round trip --------------------------------------------------------------------------

  lemma {:induction false} UpToSpaceSpaced(b: seq<byte>, len: nat)
    requires |b| <= len && forall i | 0 <= i < |b| :: b[i] != SPACE
    ensures UpToSpace(Spaced(b, len)) == b
  {
    if b == [] {
      assert len > 0 ==> Spaced(b, len)[0] == SPACE;
    } else {
      assert Spaced(b, len)[1..] == Spaced(b[1..], len - 1);
      UpToSpaceSpaced(b[1..], len - 1);
    }
  }

  lemma DirentNameBytes(n: Name, first: nat, size: nat, attr: byte)
    requires |n.base| <= 8 && |n.ext| <= 3 && first < U32 && size < U32
    ensures var e := MakeDirent(n, first, size, attr);
      e[0..8] == Spaced(n.base, 8) && e[8..11] == Spaced(n.ext, 3) && e[11] == attr
  {
  }

  lemma DirentNumberBytes(n: Name, first: nat, size: nat, attr: byte)
    requires |n.base| <= 8 && |n.ext| <= 3 && first < U32 && size < U32
    ensures var e := MakeDirent(n, first, size, attr);
      && e[20] as int == first / 0x1_0000 % 0x100 && e[21] as int == first / 0x1_0000 / 0x100
      && e[26] as int == first % 0x1_0000 % 0x100 && e[27] as int == first % 0x1_0000 / 0x100
      && e[28..32] == Le32(size)
  {
    var e := MakeDirent(n, first, size, attr);
    assert e[20..22] == Le16(first / 0x1_0000) && e[20] == e[20..22][0] && e[21] == e[20..22][1];
    assert e[26..28] == Le16(first % 0x1_0000) && e[26] == e[26..28][0] && e[27] == e[26..28][1];
  }

  /** Parsing a slot gives back what it was made from. */
  lemma DirentRoundTrip(n: Name, first: nat, size: nat, attr: byte)
    requires |n.base| <= 8 && |n.ext| <= 3 && first < U32 && size < U32
    requires (forall i | 0 <= i < |n.base| :: n.base[i] != SPACE) && (forall i | 0 <= i < |n.ext| :: n.ext[i] != SPACE)
    ensures var e := MakeDirent(n, first, size, attr);
      SlotName(e) == n && SlotFirst(e) == first && SlotSize(e) == size && e[11] == attr
  {
    DirentNameBytes(n, first, size, attr);
    DirentNumberBytes(n, first, size, attr);
    UpToSpaceSpaced(n.base, 8);
    UpToSpaceSpaced(n.ext, 3);
    Le32RoundTrip(size);
  }

  /** What a slot made for a proper name looks like to every scan. */
  lemma DirentIsLive(n: Name, first: nat, size: nat, attr: byte)
    requires NameOk(n) && first < U32 && size < U32
    ensures var e := MakeDirent(n, first, size, attr);
      Live(e) && !IsDot(e) && SlotName(e) == n && SlotFirst(e) == first && SlotSize(e) == size && e[11] == attr && Clean(e)
  {
    DirentRoundTrip(n, first, size, attr);
    DirentNameBytes(n, first, size, attr);
    var e := MakeDirent(n, first, size, attr);
    assert e[0] == e[0..8][0] == n.base[0];
    assert NameChar(n.base[0]);
  }

  // --- names as the user sees them -------------------------------------------------------------

  /** BASE or BASE.EXT. */
  function Display(n: Name): seq<byte> {
    if n.ext == [] then n.base else n.base + [DOT] + n.ext
  }

  lemma {:induction false} DotsApart(a: seq<byte>, b: seq<byte>, c: seq<byte>, d: seq<byte>)
    requires (forall i | 0 <= i < |a| :: a[i] != DOT) && (forall i | 0 <= i < |c| :: c[i] != DOT)
    requires a + [DOT] + b == c + [DOT] + d
    ensures a == c && b == d
  {
    var l, r := a + [DOT] + b, c + [DOT] + d;
    assert forall i | 0 <= i < |a| :: l[i] != DOT;
    assert forall i | 0 <= i < |c| :: r[i] != DOT;
    assert l[|a|] == DOT && r[|c|] == DOT;
    assert a == l[..|a|] && c == r[..|c|];
    assert b == l[|a| + 1..] && d == r[|c| + 1..];
  }

  /** Comparing displayed names is comparing names. */
  lemma DisplayIsInjective(n: Name, m: Name)
    requires NameOk(n) && NameOk(m) && Display(n) == Display(m)
    ensures n == m
  {
    assert DOT !in n.base && DOT !in m.base;
    assert n.ext != [] ==> Display(n)[|n.base|] == DOT;
    assert m.ext != [] ==> Display(m)[|m.base|] == DOT;
    if n.ext != [] {
      DotsApart(n.base, n.ext, m.base, m.ext);
    }
  }
}
