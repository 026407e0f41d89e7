/** Tokenizing a key string that is spread over fixed-size memory blocks (mc_util.c). */
module Tokenizer {
  import opened Splitting

  /** A token: where it starts and how long it is. */
  datatype Token = Token(blk: nat, off: nat, len: nat)

  predicate Inside(blocks: seq<string>, t: Token) {
    t.blk < |blocks| && t.off + t.len <= |blocks[t.blk]|
  }

  function Text(blocks: seq<string>, t: Token): string
    requires Inside(blocks, t)
  {
    blocks[t.blk][t.off..t.off + t.len]
  }

  predicate AllInside(blocks: seq<string>, ts: seq<Token>) { forall i | 0 <= i < |ts| :: Inside(blocks, ts[i]) }

  function Texts(blocks: seq<string>, ts: seq<Token>): (r: seq<string>)
    requires AllInside(blocks, ts)
    ensures |r| == |ts|
  {
    seq(|ts|, i requires 0 <= i < |ts| => Text(blocks, ts[i]))
  }

  lemma TextsSnoc(blocks: seq<string>, ts: seq<Token>, t: Token)
    requires AllInside(blocks, ts) && Inside(blocks, t)
    ensures AllInside(blocks, ts + [t]) && Texts(blocks, ts + [t]) == Texts(blocks, ts) + [Text(blocks, t)]
  {}

  lemma TextsNone(blocks: seq<string>)
    ensures Texts(blocks, []) == []
  {}

  predicate NonEmpty(ts: seq<string>) { forall i | 0 <= i < |ts| :: ts[i] != "" }

  /** What a piece of the key string must be: no empty token and, unless it delimits, no space. */
  predicate Clean(x: string, d: char) { NonEmpty(Split(x, d)) && (d == ' ' || ' ' !in x) }

  /** Tokens that are complete in a front of the string are tokens of the string. */
  lemma SplitFront(x: string, k: nat, d: char)
    requires k <= |x|
    ensures var a, b := Split(x[..k], d), Split(x, d);
            |a| <= |b| && b[..|a| - 1] == a[..|a| - 1]
  {
    assert x == x[..k] + x[k..];
    SplitGlue(x[..k], x[k..], d);
  }

  /** tokenize_mblck. */
  method TokenizeMblck(blocks: seq<string>, blk: nat, off: nat, len: nat, keycnt: nat, d: char)
    returns (ok: bool, toks: seq<Token>)
    requires blk < |blocks| && off + len <= |blocks[blk]| && len > 0 && keycnt > 0
    ensures var x := blocks[blk][off..off + len];
            && (ok <==> Clean(x, d) && |Split(x, d)| <= keycnt)
            && (ok ==> AllInside(blocks, toks) && Texts(blocks, toks) == Split(x, d))
  {
    hide Split, NonEmpty, Texts;
    ghost var x := blocks[blk][off..off + len];
    var s, e := 0, 0;
    ok, toks := false, [];
    SplitStart(x, d);
    EndPiece([], "");
    TextsNone(blocks);
    assert x[0..0] == "";
    while |toks| < keycnt
      invariant !ok && 0 <= s <= e <= len && AllInside(blocks, toks) && |toks| <= keycnt
      invariant Split(x[..e], d) == Texts(blocks, toks) + [x[s..e]]
      invariant NonEmpty(Texts(blocks, toks)) && (d == ' ' || ' ' !in x[..e])
      decreases len - e
    {
      var t := Token(blk, off + s, e - s);
      SliceSlice(blocks[blk], off, len, s, e);
      TextsSnoc(blocks, toks, t);
      if e == len {
        assert x[..e] == x;
        EndPiece(Texts(blocks, toks), x[s..e]);
        if s < e {
          toks := toks + [t];
          ok := true;
        }
        return;
      }
      SplitNext(x, e, d);
      assert x[e] == blocks[blk][off + e] && x[..e + 1] == x[..e] + [x[e]];
      assert x[s..e + 1] == x[s..e] + [x[e]] && x[e + 1..e + 1] == "";
      if blocks[blk][off + e] == d {
        if s == e {
          EmptyPiece(x, e + 1, Texts(blocks, toks), d);
          return;
        }
        EndPiece(Texts(blocks, toks), x[s..e]);
        toks := toks + [t];
        s := e + 1;
      } else if blocks[blk][off + e] == ' ' {
        assert x[e] in x;
        return;
      }
      e := e + 1;
    }
    SplitFront(x, e, d);
  }

  lemma SliceSlice(b: string, off: nat, len: nat, s: nat, e: nat)
    requires off + len <= |b| && s <= e <= len
    ensures b[off..off + len][s..e] == b[off + s..off + s + (e - s)]
  {
    var x, y := b[off..off + len][s..e], b[off + s..off + s + (e - s)];
    assert |x| == |y| && forall k | 0 <= k < |x| :: x[k] == y[k];
  }

  lemma SplitStart(x: string, d: char)
    ensures Split(x[..0], d) == [""]
  {}

  lemma EndPiece(ts: seq<string>, t: string)
    ensures NonEmpty(ts + [t]) <==> NonEmpty(ts) && t != ""
    ensures NonEmpty([])
  {
    if NonEmpty(ts + [t]) {
      assert forall i | 0 <= i < |ts| :: (ts + [t])[i] == ts[i];
      assert (ts + [t])[|ts|] == t;
    }
  }

  lemma EmptyPiece(x: string, k: nat, ts: seq<string>, d: char)
    requires k <= |x| && Split(x[..k], d) == ts + [""] + [""]
    ensures !NonEmpty(Split(x, d))
  {
    hide Split;
    SplitFront(x, k, d);
    assert Split(x, d)[|ts|] == Split(x, d)[..|ts| + 1][|ts|];
  }

  lemma SplitNext(x: string, e: nat, d: char)
    requires e < |x|
    ensures Split(x[..e + 1], d) == Bump(Split(x[..e], d), x[e], d)
  {
    assert x[..e + 1][..e] == x[..e];
  }
}
