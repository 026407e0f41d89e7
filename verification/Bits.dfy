/** Unsigned words as bits, lowest first, and the reversal of their order. */
module Bits {
  import opened Arith

  type Bitseq = seq<bool>

  /** The low `n` bits of `x`. */
  function Low(x: nat, n: nat): (b: Bitseq)
    ensures |b| == n
  {
    if n == 0 then [] else [x % 2 == 1] + Low(x / 2, n - 1)
  }

  function Val(b: Bitseq): (x: nat)
    ensures x < Pow2(|b|)
  {
    if b == [] then 0 else (if b[0] then 1 else 0) + 2 * Val(b[1..])
  }

  lemma {:induction false} ValLow(x: nat, n: nat)
    requires x < Pow2(n)
    ensures Val(Low(x, n)) == x
  {
    if n > 0 {
      ValLow(x / 2, n - 1);
      assert Low(x, n)[1..] == Low(x / 2, n - 1);
    }
  }

  lemma {:induction false} LowVal(b: Bitseq)
    ensures Low(Val(b), |b|) == b
  {
    if b != [] {
      LowVal(b[1..]);
      assert Val(b) / 2 == Val(b[1..]) && (Val(b) % 2 == 1) == b[0];
    }
  }

  lemma {:induction false} ValConcat(a: Bitseq, b: Bitseq)
    ensures Val(a + b) == Val(a) + Pow2(|a|) * Val(b)
  {
    if a == [] {
      assert a + b == b;
    } else {
      ValConcat(a[1..], b);
      assert (a + b)[1..] == a[1..] + b;
      TwiceAcross(Pow2(|a| - 1), Val(b));
    }
  }

  lemma TwiceAcross(p: nat, v: nat)
    ensures 2 * (p * v) == 2 * p * v
  {}

  function Reversed(b: Bitseq): (r: Bitseq)
    ensures |r| == |b|
  {
    seq(|b|, i requires 0 <= i < |b| => b[|b| - 1 - i])
  }

  lemma ReversedTwice(b: Bitseq)
    ensures Reversed(Reversed(b)) == b
  {}

  lemma ReversedConcat(a: Bitseq, b: Bitseq)
    ensures Reversed(a + b) == Reversed(b) + Reversed(a)
  {}

  /** The number whose `n` bits are those of `x` read the other way round. */
  function Mirror(x: nat, n: nat): (r: nat)
    ensures r < Pow2(n)
  {
    Val(Reversed(Low(x, n)))
  }

  lemma MirrorTwice(x: nat, n: nat)
    requires x < Pow2(n)
    ensures Mirror(Mirror(x, n), n) == x
  {
    LowVal(Reversed(Low(x, n)));
    ReversedTwice(Low(x, n));
    ValLow(x, n);
  }

  type Word = b: Bitseq | |b| == 32 witness Low(0, 32)

  function And(a: Word, b: Word): Word { seq(32, i requires 0 <= i < 32 => a[i] && b[i]) }
  function Or(a: Word, b: Word): Word { seq(32, i requires 0 <= i < 32 => a[i] || b[i]) }
  function Xor(a: Word, b: Word): Word { seq(32, i requires 0 <= i < 32 => a[i] != b[i]) }
  function Not(a: Word): Word { seq(32, i requires 0 <= i < 32 => !a[i]) }
  function Shl(a: Word, s: nat): Word { seq(32, i requires 0 <= i < 32 => i >= s && a[i - s]) }
  function Shr(a: Word, s: nat): Word { seq(32, i requires 0 <= i < 32 => i + s < 32 && a[i + s]) }

  /** Where bit `i` comes from once blocks of `s` bits have been swapped end for end. */
  function Source(i: nat, s: nat): int
    requires s > 0
  {
    32 - s - i + 2 * (i % s)
  }

  predicate Halving(s: nat) { s == 16 || s == 8 || s == 4 || s == 2 || s == 1 }

  /** How a bit finds its partner when blocks of `s` bits are swapped in pairs. */
  predicate Paired(i: nat, s: nat)
    requires s > 0
  {
    && (i / s % 2 == 0 ==> i + s < 32 && (i + s) % (2 * s) == i % s + s)
    && (i / s % 2 == 1 ==> i >= s && (i - s) % (2 * s) == i % s)
  }

  /** How the mask is halved. */
  predicate Masks(i: nat, s: nat)
    requires s > 0
  {
    (i / s % 2 == 0) == ((i / (2 * s) % 2 == 0) != (i >= s && (i - s) / (2 * s) % 2 == 0))
  }

  lemma PairedBy16(i: nat)
    requires i < 32
    ensures Paired(i, 16)
  {}

  lemma PairedBy8(i: nat)
    requires i < 32
    ensures Paired(i, 8)
  {}

  lemma PairedBy4(i: nat)
    requires i < 32
    ensures Paired(i, 4)
  {}

  lemma PairedBy2(i: nat)
    requires i < 32
    ensures Paired(i, 2)
  {}

  lemma PairedBy1(i: nat)
    requires i < 32
    ensures Paired(i, 1)
  {}

  lemma MasksBy16(i: nat)
    requires i < 32
    ensures Masks(i, 16)
  {}

  lemma MasksBy8(i: nat)
    requires i < 32
    ensures Masks(i, 8)
  {}

  lemma MasksBy4(i: nat)
    requires i < 32
    ensures Masks(i, 4)
  {}

  lemma MasksBy2(i: nat)
    requires i < 32
    ensures Masks(i, 2)
  {}

  lemma MasksBy1(i: nat)
    requires i < 32
    ensures Masks(i, 1)
  {}

  lemma AllPaired(i: nat, s: nat)
    requires i < 32 && Halving(s)
    ensures Paired(i, s)
  {
    hide Paired;
    if s == 16 { PairedBy16(i); } else if s == 8 { PairedBy8(i); } else if s == 4 { PairedBy4(i); }
    else if s == 2 { PairedBy2(i); } else { PairedBy1(i); }
  }

  lemma AllMasks(i: nat, s: nat)
    requires i < 32 && Halving(s)
    ensures Masks(i, s)
  {
    hide Masks;
    if s == 16 { MasksBy16(i); } else if s == 8 { MasksBy8(i); } else if s == 4 { MasksBy4(i); }
    else if s == 2 { MasksBy2(i); } else { MasksBy1(i); }
  }

  lemma SourceStep(i: nat, s: nat)
    requires i < 32 && Halving(s)
    ensures i / s % 2 == 0 ==> i + s < 32 && Source(i + s, 2 * s) == Source(i, s)
    ensures i / s % 2 == 1 ==> i >= s && Source(i - s, 2 * s) == Source(i, s)
  {
    AllPaired(i, s);
  }

  lemma MaskStep(i: nat, s: nat)
    requires i < 32 && Halving(s)
    ensures (i / s % 2 == 0) == ((i / (2 * s) % 2 == 0) != (i >= s && (i - s) / (2 * s) % 2 == 0))
  {
    AllMasks(i, s);
  }

  /** The mask and the value of reverse_bits when blocks of `s` bits have been swapped. */
  predicate Stage(x: Word, mask: Word, v: Word, s: nat)
    requires s > 0
  {
    && (forall i | 0 <= i < 32 :: mask[i] == (i / s % 2 == 0))
    && (forall i | 0 <= i < 32 :: 0 <= Source(i, s) < 32 && v[i] == x[Source(i, s)])
  }

  function NextMask(m: Word, s: nat): Word { Xor(m, Shl(m, s)) }

  function NextValue(w: Word, mask: Word, s: nat): Word {
    Or(And(Shr(w, s), mask), And(Shl(w, s), Not(mask)))
  }

  lemma RoundBit(x: Word, m: Word, w: Word, s: nat, i: nat)
    requires Halving(s) && i < 32 && Stage(x, m, w, 2 * s)
    ensures var mask := NextMask(m, s);
            mask[i] == (i / s % 2 == 0) && 0 <= Source(i, s) < 32 && NextValue(w, mask, s)[i] == x[Source(i, s)]
  {
    SourceStep(i, s);
    MaskStep(i, s);
    var mask := NextMask(m, s);
    assert mask[i] == (i / s % 2 == 0);
    if mask[i] {
      assert w[i + s] == x[Source(i + s, 2 * s)];
    } else {
      assert w[i - s] == x[Source(i - s, 2 * s)];
    }
  }

  lemma Round(x: Word, m: Word, w: Word, s: nat)
    requires Halving(s) && Stage(x, m, w, 2 * s)
    ensures Stage(x, NextMask(m, s), NextValue(w, NextMask(m, s), s), s)
  {
    hide Source, NextMask, NextValue;
    forall i | 0 <= i < 32
      ensures NextMask(m, s)[i] == (i / s % 2 == 0) && 0 <= Source(i, s) < 32
      ensures NextValue(w, NextMask(m, s), s)[i] == x[Source(i, s)]
    {
      RoundBit(x, m, w, s, i);
    }
  }

  lemma LastStage(x: Word, mask: Word, v: Word)
    requires Stage(x, mask, v, 1)
    ensures v == Reversed(x)
  {}

  /** reverse_bits. */
  method ReverseBits(x: Word) returns (v: Word)
    ensures v == Reversed(x)
  {
    hide Stage, NextMask, NextValue, Reversed;
    v := x;
    var s: nat := 32;
    var mask: Word := seq(32, _ => true);
    FirstStage(x, mask);
    while s > 1
      invariant s == 32 || Halving(s)
      invariant Stage(x, mask, v, s)
    {
      ghost var m, w := mask, v;
      s := s / 2;
      mask := NextMask(mask, s);
      v := NextValue(v, mask, s);
      Round(x, m, w, s);
    }
    LastStage(x, mask, v);
  }

  lemma FirstStage(x: Word, mask: Word)
    requires forall i | 0 <= i < 32 :: mask[i]
    ensures Stage(x, mask, x, 32)
  {}

  function Same(b: bool, n: nat): (r: Bitseq)
    ensures |r| == n
  {
    seq(n, _ => b)
  }

  lemma {:induction false} ValSame(n: nat)
    ensures Val(Same(false, n)) == 0 && Val(Same(true, n)) == Pow2(n) - 1
  {
    if n > 0 {
      ValSame(n - 1);
      assert Same(false, n)[1..] == Same(false, n - 1) && Same(true, n)[1..] == Same(true, n - 1);
    }
  }

  lemma LowSame(n: nat)
    ensures Low(0, n) == Same(false, n) && Low(Pow2(n) - 1, n) == Same(true, n)
  {
    ValSame(n);
    LowVal(Same(false, n));
    LowVal(Same(true, n));
  }

  /** The bits of a number written as a low and a high part. */
  lemma LowSplit(u: nat, v: nat, a: nat, b: nat)
    requires u < Pow2(a) && v < Pow2(b)
    ensures Low(u + Pow2(a) * v, a + b) == Low(u, a) + Low(v, b)
  {
    hide Low, Val, Pow2;
    var w := Low(u, a) + Low(v, b);
    ValConcat(Low(u, a), Low(v, b));
    ValLow(u, a);
    ValLow(v, b);
    LowVal(w);
  }

  lemma MirrorSplit(u: nat, v: nat, a: nat, b: nat)
    requires u < Pow2(a) && v < Pow2(b)
    ensures Mirror(u + Pow2(a) * v, a + b) == Mirror(v, b) + Pow2(b) * Mirror(u, a)
  {
    hide Low, Val, Pow2, Reversed;
    LowSplit(u, v, a, b);
    ReversedConcat(Low(u, a), Low(v, b));
    ValConcat(Reversed(Low(v, b)), Reversed(Low(u, a)));
  }

  lemma MirrorZero(n: nat)
    ensures Mirror(0, n) == 0
  {
    LowSame(n);
    assert Reversed(Same(false, n)) == Same(false, n);
    ValSame(n);
  }
}
