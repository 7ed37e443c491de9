/** The physical frame allocator: a bitmap scanned word by word, and one share count per frame.
    Frames are named by their number; a frame address is the number times 4096. */
module Frames {
  datatype Option<+T> = None | Some(value: T)

  const WORD_BITS: nat := 64
  const WORDS: nat := 4096
  const MAX_FRAMES: nat := WORDS * WORD_BITS

  /** The frame `alloc` takes: the lowest free bit of the first word with a free bit, counting
      words cyclically from `hint`. */
  ghost predicate IsNextFit(used: seq<bool>, hint: nat, f: nat)
    requires |used| == MAX_FRAMES && hint < WORDS
  {
    f < MAX_FRAMES && !used[f]
    && (forall g | 0 <= g < f && g / WORD_BITS == f / WORD_BITS :: used[g])
    && (forall g | 0 <= g < MAX_FRAMES && Turn(hint, g / WORD_BITS) < Turn(hint, f / WORD_BITS) :: used[g])
  }

  /** How many words after `hint` the scan meets word `w`. */
  function Turn(hint: nat, w: nat): nat
    requires hint < WORDS && w < WORDS
  {
    if w >= hint then w - hint else w + WORDS - hint
  }

  class FrameAllocator {
    const used: array<bool>
    const refs: array<nat>
    var hint: nat

    ghost predicate Valid()
      reads this
    {
      used.Length == MAX_FRAMES && refs.Length == MAX_FRAMES && hint < WORDS
    }

    /** Every frame starts reserved, as the static bitmap does; `freed` is the usable memory. */
    constructor (freed: seq<bool>)
      requires |freed| == MAX_FRAMES
      ensures Valid() && fresh(used) && fresh(refs) && hint == 0
      ensures forall f | 0 <= f < MAX_FRAMES :: used[f] == !freed[f] && refs[f] == 0
    {
      used := new bool[MAX_FRAMES](i => true);
      refs := new nat[MAX_FRAMES](i => 0);
      hint := 0;
      new;
      for f := 0 to MAX_FRAMES
        invariant hint == 0
        invariant forall g | 0 <= g < f :: used[g] == !freed[g]
        invariant forall g | f <= g < MAX_FRAMES :: used[g]
        invariant forall g | 0 <= g < MAX_FRAMES :: refs[g] == 0
      {
        if freed[f] {
          used[f] := false;
        }
      }
    }

    /** Position of the lowest clear bit of word `w`, or WORD_BITS when the word is full. */
    method LowestClear(w: nat) returns (bit: nat)
      requires Valid() && w < WORDS
      ensures bit <= WORD_BITS
      ensures forall g | w * WORD_BITS <= g < w * WORD_BITS + bit :: used[g]
      ensures bit < WORD_BITS ==> !used[w * WORD_BITS + bit]
    {
      bit := 0;
      while bit < WORD_BITS && used[w * WORD_BITS + bit]
        invariant bit <= WORD_BITS
        invariant forall g | w * WORD_BITS <= g < w * WORD_BITS + bit :: used[g]
      {
        bit := bit + 1;
      }
    }

    method Alloc() returns (r: Option<nat>)
      requires Valid()
      modifies this, used
      ensures Valid()
      ensures r.None? ==> used[..] == old(used[..]) && forall f | 0 <= f < MAX_FRAMES :: used[f]
      ensures r.Some? ==> IsNextFit(old(used[..]), old(hint), r.value) && hint == r.value / WORD_BITS
      ensures r.Some? ==> used[..] == old(used[..])[r.value := true]
    {
      var start := hint;
      for off := 0 to WORDS
        invariant used[..] == old(used[..]) && hint == start
        invariant forall g | 0 <= g < MAX_FRAMES && Turn(start, g / WORD_BITS) < off :: used[g]
      {
        var w := if start + off < WORDS then start + off else start + off - WORDS;
        var bit := LowestClear(w);
        forall g | 0 <= g < MAX_FRAMES && g / WORD_BITS == w && g % WORD_BITS < bit
          ensures used[g]
        {
          assert g == w * WORD_BITS + g % WORD_BITS;
        }
        if bit < WORD_BITS {
          var f := w * WORD_BITS + bit;
          assert f / WORD_BITS == w && f % WORD_BITS == bit;
          used[f] := true;
          hint := w;
          return Some(f);
        }
      }
      return None;
    }

    method Free(f: nat)
      requires Valid()
      modifies used
      ensures Valid()
      ensures used[..] == if f < MAX_FRAMES then old(used[..])[f := false] else old(used[..])
    {
      if f < MAX_FRAMES {
        used[f] := false;
      }
    }

    method RefOf(f: nat) returns (count: nat)
      requires Valid()
      ensures count == if f < MAX_FRAMES then refs[f] else 0
    {
      count := if f < MAX_FRAMES then refs[f] else 0;
    }

    method AddRef(f: nat)
      requires Valid()
      modifies refs
      ensures Valid()
      ensures refs[..] == if f < MAX_FRAMES then old(refs[..])[f := old(refs[f]) + 1] else old(refs[..])
    {
      if f < MAX_FRAMES {
        refs[f] := refs[f] + 1;
      }
    }

    /** Drop one share: lower the count, or free the frame when the count says this was the last owner.
        The compare-exchange loop is modelled in CowProtocol; run alone it succeeds at once. */
    method Release(f: nat) returns (freed: bool)
      requires Valid()
      modifies used, refs
      ensures Valid()
      ensures freed == (f < MAX_FRAMES && old(refs[f]) == 0)
      ensures used[..] == if freed then old(used[..])[f := false] else old(used[..])
      ensures refs[..] == if f < MAX_FRAMES && !freed then old(refs[..])[f := old(refs[f]) - 1] else old(refs[..])
    {
      if f >= MAX_FRAMES {
        return false;
      }
      var cur := refs[f];
      if cur == 0 {
        Free(f);
        return true;
      }
      refs[f] := cur - 1;
      return false;
    }
  }
}
