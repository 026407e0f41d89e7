/** How many blocks it takes to stitch the tokens that block boundaries cut (mc_util.c). */
module Supply {
  import opened Splitting
  import opened Tokenizer
  import opened Stitching
  import opened KeyBlocks

  /** Blocks for strings of these lengths, stitched in groups of the size of the array. */
  function Demand(lens: seq<nat>, bodylen: nat): nat
    decreases |lens|
  {
    if lens == [] then 0
    else
      var b := Stitched(|lens|);
      Demand(lens[..b], bodylen) + Packed(lens[b..], bodylen).0
  }

  /** The lengths of these tokens. */
  function Lengths(idx: seq<nat>, tokens: seq<string>): (r: seq<nat>)
    ensures |r| == |idx|
  {
    seq(|idx|, k requires 0 <= k < |idx| => if idx[k] < |tokens| then |tokens[idx[k]]| else 0)
  }

  /** The lengths of the tokens of the key string that the boundaries before block `c` cut. */
  function CutLengths(key: seq<string>, c: nat, d: char): (r: seq<nat>)
    requires c < |key| && forall i | 0 <= i < |key| :: key[i] != ""
    ensures |r| == |Cuts(key, c, d)|
  {
    Lengths(Cuts(key, c, d), Split(Flat(key), d))
  }

  /** Blocks taken while looping, when block `c` is reached. */
  function Spent(key: seq<string>, c: nat, d: char, bodylen: nat): nat
    requires c < |key| && forall i | 0 <= i < |key| :: key[i] != ""
  {
    var lens := CutLengths(key, c, d);
    Demand(lens[..Stitched(|lens|)], bodylen)
  }

  /** Blocks for all tokens that are cut in front of the boundary `end`. */
  function Need(key: seq<string>, end: nat, d: char, bodylen: nat): nat
    requires 0 < end <= |key| && forall i | 0 <= i < |key| :: key[i] != ""
  {
    Demand(CutLengths(key, end - 1, d), bodylen)
  }

  /** A token is cut at the boundary `end` while the array is full: what lies before passes, and is to be stitched. */
  predicate FullAt(key: seq<string>, end: nat, d: char, keycnt: nat, maxklen: nat)
    requires 0 < end <= |key| && forall i | 0 <= i < |key| :: key[i] != ""
  {
    var lens, f := CutLengths(key, end - 1, d), Split(Flat(key[..end]), d);
    && !Ends(key, end, d) && Clean(Flat(key[..end]), d) && |f| <= keycnt && PartsShort(key, end, d, maxklen)
    && |lens| > 0 && |lens| % SEGTOKS == 0 && forall k | 0 <= k < |lens| :: lens[k] <= maxklen
  }

  /** The pool runs out of blocks at a boundary, while looping or when all tokens were read. */
  predicate RunsOut(key: seq<string>, end: nat, d: char, keycnt: nat, maxklen: nat, bodylen: nat, avail: nat)
    requires forall i | 0 <= i < |key| :: key[i] != ""
  {
    && 0 < end <= |key| && Need(key, end, d, bodylen) > avail
    && (FullAt(key, end, d, keycnt, maxklen) || EndsFit(key, end, d, keycnt, maxklen))
  }

  lemma {:induction false} PackedMore(lens: seq<nat>, n: nat, bodylen: nat)
    requires n <= |lens|
    ensures Packed(lens[..n], bodylen).0 <= Packed(lens, bodylen).0
    decreases |lens|
  {
    if n == |lens| {
      assert lens[..n] == lens;
    } else {
      var front := lens[..|lens| - 1];
      PackedMore(front, n, bodylen);
      assert front[..n] == lens[..n];
    }
  }

  /** More strings take no fewer blocks. */
  lemma {:induction false} DemandMore(lens: seq<nat>, n: nat, bodylen: nat)
    requires n <= |lens|
    ensures Demand(lens[..n], bodylen) <= Demand(lens, bodylen)
    decreases |lens|
  {
    hide Packed, Stitched;
    if n == |lens| {
      assert lens[..n] == lens;
    } else {
      var b := Stitched(|lens|);
      if n <= b {
        assert lens[..b][..n] == lens[..n];
        DemandMore(lens[..b], n, bodylen);
      } else {
        StitchedBetween(n, |lens|);
        assert lens[..n][..b] == lens[..b] && lens[..n][b..] == lens[b..][..n - b];
        PackedMore(lens[b..], n - b, bodylen);
      }
    }
  }

  lemma StitchedBetween(n: nat, m: nat)
    requires Stitched(m) < n <= m
    ensures Stitched(n) == Stitched(m)
  {}

  /** A front of the key string needs no more blocks. */
  lemma NeedMore(key: seq<string>, a: nat, b: nat, d: char, bodylen: nat)
    requires 0 < a <= b <= |key| && forall i | 0 <= i < |key| :: key[i] != ""
    ensures Need(key, a, d, bodylen) <= Need(key, b, d, bodylen)
  {
    hide Demand, Split, Flat;
    CutsGrow(key, a - 1, b - 1, d);
    var p, q := CutLengths(key, a - 1, d), CutLengths(key, b - 1, d);
    assert q[..|p|] == p;
    DemandMore(q, |p|, bodylen);
  }

  /** When a token is cut: it joins the others, or the full array is stitched first. */
  lemma SpentCut(key: seq<string>, c: nat, d: char, bodylen: nat)
    requires c + 1 < |key| && (forall i | 0 <= i < |key| :: key[i] != "") && !Ends(key, c + 1, d)
    ensures var lens := CutLengths(key, c, d); var b := Stitched(|lens|);
            Spent(key, c + 1, d, bodylen) ==
              Spent(key, c, d, bodylen) + if |lens| - b == SEGTOKS then Packed(lens[b..], bodylen).0 else 0
    ensures |CutLengths(key, c, d)| - Stitched(|CutLengths(key, c, d)|) == SEGTOKS ==> Spent(key, c + 1, d, bodylen) == Need(key, c + 1, d, bodylen)
  {
    hide Packed, Stitched, Split, Flat;
    var lens, more := CutLengths(key, c, d), CutLengths(key, c + 1, d);
    assert more[..|lens|] == lens;
    StitchedNext(|lens|);
    var b := Stitched(|lens|);
    assert more[..b] == lens[..b];
  }

  lemma SpentWhole(key: seq<string>, c: nat, d: char, bodylen: nat)
    requires c + 1 < |key| && (forall i | 0 <= i < |key| :: key[i] != "") && Ends(key, c + 1, d)
    ensures Cuts(key, c + 1, d) == Cuts(key, c, d) && Spent(key, c + 1, d, bodylen) == Spent(key, c, d, bodylen)
  {}

  /** All blocks: those taken while looping, and those for what is in the array. */
  lemma NeedSpent(key: seq<string>, c: nat, d: char, bodylen: nat)
    requires c < |key| && forall i | 0 <= i < |key| :: key[i] != ""
    ensures var lens := CutLengths(key, c, d);
            Need(key, c + 1, d, bodylen) == if lens == [] then 0 else Spent(key, c, d, bodylen) + Packed(lens[Stitched(|lens|)..], bodylen).0
  {}
}
