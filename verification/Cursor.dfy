/** The order in which assoc_scan_direct visits the sub-tables. */
module Cursor {
  import opened Arith
  import opened Bits

  /** Setting the bits above the root mask. */
  lemma Masked(t: nat, rp: nat)
    requires rp <= 32 && t < Pow2(rp)
    ensures Low(t, 32) == Low(t, rp) + Same(false, 32 - rp)
    ensures Or(Low(t, 32), Not(Low(Pow2(rp) - 1, 32))) == Low(t, rp) + Same(true, 32 - rp)
  {
    LowSplit(t, 0, rp, 32 - rp);
    LowSplit(Pow2(rp) - 1, 0, rp, 32 - rp);
    LowSame(rp);
    LowSame(32 - rp);
    assert Pow2(rp) * 0 == 0;
    var a, m := Low(t, 32), Low(Pow2(rp) - 1, 32);
    assert a == Low(t, rp) + Same(false, 32 - rp);
    assert m == Same(true, rp) + Same(false, 32 - rp);
    assert Or(a, Not(m)) == Low(t, rp) + Same(true, 32 - rp);
  }

  /** The reversed word before and after the increment. */
  lemma Incremented(t: nat, rp: nat)
    requires rp <= 32 && t < Pow2(rp)
    ensures var w := Reversed(Low(t, rp) + Same(true, 32 - rp));
            Val(w) + 1 == Pow2(32 - rp) * (Mirror(t, rp) + 1)
  {
    hide Pow2, Val, Low, Reversed, Same;
    var hi := Same(true, 32 - rp);
    ReversedConcat(Low(t, rp), hi);
    ReversedSame(true, 32 - rp);
    ValConcat(hi, Reversed(Low(t, rp)));
    ValSame(32 - rp);
    Distribute(Pow2(32 - rp), Mirror(t, rp));
  }

  lemma Distribute(p: nat, m: nat)
    ensures p * (m + 1) == p * m + p
  {}

  lemma PowSum(a: nat, b: nat)
    ensures Pow2(a + b) == Pow2(a) * Pow2(b)
  {
    if a > 0 {
      PowSum(a - 1, b);
      TwiceAcross(Pow2(a - 1), Pow2(b));
    }
  }

  /** Adding one wraps to zero after the last sub-table. */
  lemma Wrapped(m: nat, rp: nat)
    requires rp <= 32 && m <= Pow2(rp)
    ensures Pow2(32 - rp) * m % Pow2(32) == Pow2(32 - rp) * (if m == Pow2(rp) then 0 else m)
  {
    hide Pow2;
    PowSum(32 - rp, rp);
    WrapAt(Pow2(32 - rp), Pow2(rp), m, Pow2(32));
  }

  lemma WrapAt(p: nat, r: nat, m: nat, whole: nat)
    requires p > 0 && r > 0 && m <= r && whole == p * r
    ensures whole > 0 && p * m % whole == p * (if m == r then 0 else m)
  {
    if m == r {
      assert p * m == whole;
      DivModUnique(whole, whole, 1, 0);
    } else {
      MulGap(m, r, p);
      DivModUnique(p * m, whole, 0, p * m);
    }
  }

  /** A word with only its high bits set, reversed back, is a sub-table index. */
  lemma BackAgain(x: nat, rp: nat)
    requires rp <= 32 && x < Pow2(rp)
    ensures Val(Reversed(Low(Pow2(32 - rp) * x, 32))) == Mirror(x, rp)
  {
    hide Pow2, Val, Low, Reversed, Same;
    var z := Same(false, 32 - rp);
    LowSplit(0, x, 32 - rp, rp);
    LowSame(32 - rp);
    ReversedConcat(z, Low(x, rp));
    ReversedSame(false, 32 - rp);
    ValConcat(Reversed(Low(x, rp)), z);
    ValSame(32 - rp);
    assert Pow2(rp) * 0 == 0;
  }

  lemma ReversedSame(b: bool, n: nat)
    ensures Reversed(Same(b, n)) == Same(b, n)
  {}

  /** The next sub-table in the order of assoc_scan_direct: reversed, it is the successor. */
  method NextTabidx(tabidx: nat, rp: nat) returns (n: nat)
    requires 0 < rp <= 16 && tabidx < Pow2(rp)
    ensures n < Pow2(rp)
    ensures Mirror(n, rp) == (if Mirror(tabidx, rp) + 1 == Pow2(rp) then 0 else Mirror(tabidx, rp) + 1)
    ensures Mirror(tabidx, rp) + 1 == Pow2(rp) <==> n == 0
  {
    hide Pow2, Val, Low, Reversed, Same, Mirror;
    var w: Word := Or(Low(tabidx, 32), Not(Low(Pow2(rp) - 1, 32)));
    Masked(tabidx, rp);
    w := ReverseBits(w);
    Incremented(tabidx, rp);
    var m := Mirror(tabidx, rp) + 1;
    w := Low((Val(w) + 1) % Pow2(32), 32);
    Wrapped(m, rp);
    BackAgain(if m == Pow2(rp) then 0 else m, rp);
    w := ReverseBits(w);
    n := Val(w);
    MirrorTwice(if m == Pow2(rp) then 0 else m, rp);
    MirrorZero(rp);
  }
}
