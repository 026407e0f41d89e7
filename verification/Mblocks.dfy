/** Tokenizing all blocks of a key string (mc_util.c, tokenize_mblocks). */
module Mblocks {
  import opened KeyBlocks
  import opened Splitting
  import opened Tokenizer
  import opened Stitching
  import opened Supply

  /** One block: cut off its delimiter, tokenize it, check the lengths. */
  method TakeBlock(key: seq<string>, blocks: seq<string>, c: nat, off: nat, keycnt: nat, maxklen: nat, d: char)
    returns (code: Code, toks: seq<Token>, cut: bool)
    requires c < |key| && key <= blocks && key[c] != "" && off <= |key[c]| && keycnt > 0 && PartLen(key, c, off, d) >= 0
    ensures var x := Part(key, c, off, d);
            && (code == Aborted <==> x == "")
            && (code == Success <==> x != "" && Clean(x, d) && |Split(x, d)| <= keycnt && Short(Split(x, d), maxklen))
            && (code == Success ==> AllInside(blocks, toks) && Texts(blocks, toks) == Split(x, d))
    ensures code != NoMemory && cut == Cut(key, c, d)
  {
    hide Split, Clean, Texts;
    assert blocks[c] == key[c];
    var len := |key[c]| - off;
    cut := false;
    if c < |key| - 1 {
      if blocks[c][|blocks[c]| - 1] == d {
        len := len - 1;
      } else {
        cut := true;
      }
    }
    if len == 0 { return Aborted, [], cut; }
    var ok;
    ok, toks := TokenizeMblck(blocks, c, off, len, keycnt, d);
    if !ok { return BadValue, toks, cut; }
    var i := 0;
    while i < |toks|
      invariant 0 <= i <= |toks|
      invariant forall k | 0 <= k < i :: toks[k].len <= maxklen
    {
      if toks[i].len > maxklen {
        TextsAt(blocks, toks, i);
        return BadValue, toks, cut;
      }
      i := i + 1;
    }
    forall k | 0 <= k < |toks|
      ensures |Split(Part(key, c, off, d), d)[k]| <= maxklen
    {
      TextsAt(blocks, toks, k);
    }
    code := Success;
  }

  lemma TextsAt(blocks: seq<string>, ts: seq<Token>, i: nat)
    requires AllInside(blocks, ts) && i < |ts|
    ensures Texts(blocks, ts)[i] == Text(blocks, ts[i]) && |Texts(blocks, ts)[i]| == ts[i].len
  {}

  /** Tokens and saved pieces together read as `all`. */
  predicate Pieces(blocks: seq<string>, tokens: seq<Token>, segs: seq<Seg>, all: seq<string>) {
    && |tokens| == |all| && AllInside(blocks, tokens)
    && (forall k | 0 <= k < |segs| :: Inside(blocks, segs[k].tok))
    && (forall j, k | 0 <= j < k < |segs| :: segs[j].idx < segs[k].idx)
    && (forall i: nat | i < |tokens| :: all[i] == SegText(blocks, segs, i) + Text(blocks, tokens[i]))
  }

  /** New tokens that continue the one piece that is pending. */
  lemma PiecesMore(blocks: seq<string>, tokens: seq<Token>, segs: seq<Seg>, done: seq<string>, pend: string, toks: seq<Token>)
    requires Pieces(blocks, tokens, segs, done) && AllInside(blocks, toks) && toks != []
    requires SegText(blocks, segs, |tokens|) == pend && forall k | 0 <= k < |segs| :: segs[k].idx <= |tokens|
    ensures Pieces(blocks, tokens + toks, segs, Glue(done + [pend], Texts(blocks, toks)))
  {
    hide Text, SegText, Glue, Texts;
    var xs := Texts(blocks, toks);
    var all := Glue(done + [pend], xs);
    forall i: nat | i < |all|
      ensures all[i] == SegText(blocks, segs, i) + Text(blocks, (tokens + toks)[i])
    {
      GlueAt(done, pend, xs, i);
      if i >= |tokens| { TextsAt(blocks, toks, i - |tokens|); }
      if i > |tokens| {
        SegTextNone(blocks, segs, i);
        assert "" + xs[i - |tokens|] == xs[i - |tokens|];
      }
    }
  }

  lemma GlueAt(done: seq<string>, pend: string, xs: seq<string>, i: nat)
    requires |xs| > 0 && i < |done| + |xs|
    ensures Glue(done + [pend], xs)[i] == if i < |done| then done[i] else if i == |done| then pend + xs[0] else xs[i - |done|]
  {}

  /** The last token becomes a saved piece. */
  lemma PiecesPop(blocks: seq<string>, tokens: seq<Token>, segs: seq<Seg>, all: seq<string>)
    requires Pieces(blocks, tokens, segs, all) && tokens != [] && forall k | 0 <= k < |segs| :: segs[k].idx < |tokens| - 1
    ensures var n := |tokens| - 1; var more := segs + [Seg(tokens[n], n)];
            Pieces(blocks, tokens[..n], more, all[..n]) && SegText(blocks, more, n) == all[n]
  {
    hide Text;
    var n := |tokens| - 1;
    var more := segs + [Seg(tokens[n], n)];
    assert more[..|segs|] == segs;
    SegTextNone(blocks, segs, n);
    assert all[n] == SegText(blocks, segs, n) + Text(blocks, tokens[n]);
  }

  /** What a saved piece and its token come to. */
  lemma PieceLens(blocks: seq<string>, tokens: seq<Token>, segs: seq<Seg>, all: seq<string>, k: nat)
    requires Pieces(blocks, tokens, segs, all) && k < |segs| && forall j | 0 <= j < |segs| :: segs[j].idx < |tokens|
    ensures Lens(tokens, segs)[k] == |all[segs[k].idx]|
  {
    var i := segs[k].idx;
    SegTextAt(blocks, segs, k);
    assert all[i] == SegText(blocks, segs, i) + Text(blocks, tokens[i]);
  }

  lemma {:induction false} SegTextAt(blocks: seq<string>, segs: seq<Seg>, k: nat)
    requires k < |segs| && forall j | 0 <= j < |segs| :: Inside(blocks, segs[j].tok)
    requires forall i, j | 0 <= i < j < |segs| :: segs[i].idx < segs[j].idx
    ensures SegText(blocks, segs, segs[k].idx) == Text(blocks, segs[k].tok)
  {
    hide Text;
    if k < |segs| - 1 {
      SegTextAt(blocks, segs[..|segs| - 1], k);
    }
  }

  /** Stitching makes every token whole. */
  lemma PiecesWhole(blocks: seq<string>, tokens: seq<Token>, segs: seq<Seg>, all: seq<string>, more: seq<string>, now: seq<Token>)
    requires Pieces(blocks, tokens, segs, all) && Whole(blocks, tokens, segs, more, now)
    ensures Pieces(more, now, [], all) && Texts(more, now) == all
  {
    hide Text;
    forall i: nat | i < |all|
      ensures Text(more, now[i]) == all[i] && all[i] == SegText(more, [], i) + Text(more, now[i])
    {
      assert "" + Text(more, now[i]) == Text(more, now[i]);
    }
    assert |Texts(more, now)| == |all|;
  }

  /** What the loop knows of tokens and pieces. */
  predicate Kept(blocks: seq<string>, tokens: seq<Token>, segs: seq<Seg>, done: seq<string>, pend: string) {
    && Pieces(blocks, tokens, segs, done) && SegText(blocks, segs, |tokens|) == pend
    && forall k | 0 <= k < |segs| :: segs[k].idx < |tokens| + if pend == "" then 0 else 1
  }

  predicate ShortTokens(ts: seq<Token>, maxklen: nat) { forall i | 0 <= i < |ts| :: ts[i].len <= maxklen }

  /** Stitched tokens were checked, and the others were short before. */
  lemma WholeShort(blocks: seq<string>, tokens: seq<Token>, segs: seq<Seg>, all: seq<string>, more: seq<string>, now: seq<Token>, maxklen: nat)
    requires Pieces(blocks, tokens, segs, all) && Whole(blocks, tokens, segs, more, now) && ShortTokens(tokens, maxklen)
    requires forall k | 0 <= k < |segs| :: segs[k].idx < |tokens|
    requires forall k | 0 <= k < |segs| :: Lens(tokens, segs)[k] <= maxklen
    ensures ShortTokens(now, maxklen)
  {
    hide Text;
    forall i | 0 <= i < |now|
      ensures now[i].len <= maxklen
    {
      TextLen(more, now[i]);
      TextLen(blocks, tokens[i]);
      if k :| 0 <= k < |segs| && segs[k].idx == i {
        PieceLens(blocks, tokens, segs, all, k);
      } else {
        SegTextNone(blocks, segs, i);
      }
      assert Text(more, now[i]) == SegText(blocks, segs, i) + Text(blocks, tokens[i]) == all[i];
    }
  }

  lemma {:induction false} PackedFew(lens: seq<nat>, bodylen: nat)
    requires lens != [] && forall k | 0 <= k < |lens| :: lens[k] <= bodylen
    ensures Packed(lens, bodylen).0 <= |lens|
  {
    var n := |lens| - 1;
    if n > 0 { PackedFew(lens[..n], bodylen); } else { assert lens[..n] == []; }
  }

  function Indices(segs: seq<Seg>): (r: seq<nat>)
    ensures |r| == |segs|
  {
    seq(|segs|, k requires 0 <= k < |segs| => segs[k].idx)
  }

  /** Blocks for what the saved pieces and their tokens come to. */
  function Cost(segs: seq<Seg>, all: seq<string>, bodylen: nat): nat {
    Packed(Lengths(Indices(segs), all), bodylen).0
  }

  lemma CostIs(blocks: seq<string>, tokens: seq<Token>, segs: seq<Seg>, all: seq<string>, bodylen: nat)
    requires Pieces(blocks, tokens, segs, all) && forall j | 0 <= j < |segs| :: segs[j].idx < |tokens|
    ensures Packed(Lens(tokens, segs), bodylen).0 == Cost(segs, all, bodylen)
  {
    hide Packed, Pieces;
    PiecesShape(blocks, tokens, segs, all);
    forall k | 0 <= k < |segs|
      ensures Lens(tokens, segs)[k] == Lengths(Indices(segs), all)[k]
    {
      PieceLens(blocks, tokens, segs, all, k);
    }
    assert Lens(tokens, segs) == Lengths(Indices(segs), all);
  }

  /** concat_segmented_tokens, seen from the block loop. */
  method Stitch(blocks: seq<string>, tokens: seq<Token>, segs: seq<Seg>, maxklen: nat, bodylen: nat, left: nat, ghost all: seq<string>)
    returns (code: Code, blocks': seq<string>, tokens': seq<Token>, left': nat)
    requires Pieces(blocks, tokens, segs, all) && segs != [] && maxklen <= bodylen && ShortTokens(tokens, maxklen)
    requires forall k | 0 <= k < |segs| :: segs[k].idx < |tokens|
    ensures code != Aborted && blocks <= blocks'
    ensures code == BadValue <==> exists k | 0 <= k < |segs| :: |all[segs[k].idx]| > maxklen
    ensures code == NoMemory <==> code != BadValue && Cost(segs, all, bodylen) > left
    ensures |segs| <= left ==> code != NoMemory
    ensures left' <= left <= left' + |segs| && left' == if code == Success then left - Cost(segs, all, bodylen) else left
    ensures code == Success ==>
              && Pieces(blocks', tokens', [], all) && AllInside(blocks', tokens') && Texts(blocks', tokens') == all && ShortTokens(tokens', maxklen)
  {
    hide Text, Whole, Packed, Cost;
    var added;
    CostIs(blocks, tokens, segs, all, bodylen);
    code, added, tokens' := Concat(blocks, tokens, segs, maxklen, bodylen, left);
    blocks', left' := blocks + added, left - |added|;
    forall k | 0 <= k < |segs|
      ensures Lens(tokens, segs)[k] == |all[segs[k].idx]|
    {
      PieceLens(blocks, tokens, segs, all, k);
    }
    if code == BadValue {
      var k :| 0 <= k < |segs| && Lens(tokens, segs)[k] > maxklen;
      assert |all[segs[k].idx]| > maxklen;
    } else {
      PackedFew(Lens(tokens, segs), bodylen);
    }
    if code == Success {
      PiecesWhole(blocks, tokens, segs, all, blocks', tokens');
      WholeShort(blocks, tokens, segs, all, blocks', tokens', maxklen);
    }
  }

  /** A cut token: its first piece is saved, after stitching what was saved before if the array is full. */
  method SaveCut(blocks: seq<string>, tokens: seq<Token>, segs: seq<Seg>, maxklen: nat, bodylen: nat, left: nat, ghost all: seq<string>)
    returns (code: Code, blocks': seq<string>, tokens': seq<Token>, segs': seq<Seg>, left': nat)
    requires Pieces(blocks, tokens, segs, all) && tokens != [] && maxklen <= bodylen && ShortTokens(tokens, maxklen)
    requires all[|all| - 1] != "" && forall k | 0 <= k < |segs| :: segs[k].idx < |tokens| - 1
    ensures code != Aborted && blocks <= blocks'
    ensures code == BadValue <==> |segs| >= SEGTOKS && exists k | 0 <= k < |segs| :: |all[segs[k].idx]| > maxklen
    ensures |segs| <= left ==> code != NoMemory
    ensures code == NoMemory ==> |segs| >= SEGTOKS && Cost(segs, all, bodylen) > left && forall k | 0 <= k < |segs| :: |all[segs[k].idx]| <= maxklen
    ensures code != Success ==> left' == left
    ensures code == Success ==> left' == left - if |segs| >= SEGTOKS then Cost(segs, all, bodylen) else 0
    ensures code == Success ==> segs' != [] && segs'[|segs'| - 1].idx == |all| - 1
    ensures code == Success ==> segs'[..|segs'| - 1] == if |segs| >= SEGTOKS then [] else segs
    ensures code == Success ==>
              && Kept(blocks', tokens', segs', all[..|all| - 1], all[|all| - 1]) && ShortTokens(tokens', maxklen)
              && left' <= left && left - left' + |segs'| <= |segs| + 1
  {
    hide Pieces, SegText, Cost;
    code, blocks', tokens', segs', left' := Success, blocks, tokens, segs, left;
    assert |tokens| == |all| by { PiecesShape(blocks, tokens, segs, all); }
    if |segs| >= SEGTOKS {
      code, blocks', tokens', left' := Stitch(blocks, tokens, segs, maxklen, bodylen, left, all);
      segs' := [];
      if code != Success { return; }
      PiecesShape(blocks', tokens', segs', all);
    }
    PiecesPop(blocks', tokens', segs', all);
    var n := |tokens'| - 1;
    segs' := segs' + [Seg(tokens'[n], n)];
    tokens' := tokens'[..n];
  }

  lemma PiecesShape(blocks: seq<string>, tokens: seq<Token>, segs: seq<Seg>, all: seq<string>)
    requires Pieces(blocks, tokens, segs, all)
    ensures |tokens| == |all|
  {}

  /** The tokens that a block adds, and the piece it continues. */
  lemma KeptMore(blocks: seq<string>, tokens: seq<Token>, segs: seq<Seg>, done: seq<string>, pend: string, toks: seq<Token>, maxklen: nat)
    requires Kept(blocks, tokens, segs, done, pend) && AllInside(blocks, toks) && toks != []
    requires ShortTokens(tokens, maxklen) && Short(Texts(blocks, toks), maxklen)
    ensures var all := Joined(done, pend, Texts(blocks, toks));
            && Pieces(blocks, tokens + toks, segs, all) && ShortTokens(tokens + toks, maxklen) && |all| == |tokens| + |toks|
            && (forall k | 0 <= k < |segs| :: segs[k].idx < |tokens + toks|)
            && (pend == "" || |toks| > 1 ==> forall k | 0 <= k < |segs| :: segs[k].idx < |tokens + toks| - 1)
            && SegText(blocks, segs, |tokens + toks|) == ""
  {
    hide Text, SegText, Glue;
    PiecesMore(blocks, tokens, segs, done, pend, toks);
    SegTextNone(blocks, segs, |tokens + toks|);
    forall i | 0 <= i < |toks|
      ensures toks[i].len <= maxklen
    {
      TextsAt(blocks, toks, i);
    }
  }

  /** The saved pieces belong to the tokens cut since the array was last emptied. */
  predicate Batched(key: seq<string>, c: nat, d: char, segs: seq<Seg>)
    requires c < |key| && forall i | 0 <= i < |key| :: key[i] != ""
  {
    var cs := Cuts(key, c, d);
    var b := Stitched(|cs|);
    |segs| == |cs| - b && forall k | 0 <= k < |segs| :: segs[k].idx == cs[b + k]
  }

  /** What the loop has found about the blocks before block `c`. */
  predicate Passed(key: seq<string>, c: nat, off: nat, d: char, segs: seq<Seg>, all: seq<string>, maxklen: nat)
    requires forall i | 0 <= i < |key| :: key[i] != ""
  {
    && c < |key| && off == Off(key, c, d) && (c == 0 ==> all == [])
    && PartsShort(key, c, d, maxklen) && Batched(key, c, d, segs) && Checked(key, c, d, all, maxklen)
  }

  lemma PassedStart(key: seq<string>, d: char, maxklen: nat)
    requires key != [] && forall i | 0 <= i < |key| :: key[i] != ""
    ensures Passed(key, 0, 0, d, [], [], maxklen)
  {}

  lemma PartsMore(key: seq<string>, c: nat, off: nat, d: char, maxklen: nat)
    requires (forall i | 0 <= i < |key| :: key[i] != "") && c < |key| && off == Off(key, c, d) && PartLen(key, c, off, d) >= 0
    requires PartsShort(key, c, d, maxklen) && Short(Split(Part(key, c, off, d), d), maxklen)
    ensures PartsShort(key, c + 1, d, maxklen)
  {
    hide Split, Part, Short;
    assert PartAt(key, c, d) == Part(key, c, off, d);
  }

  /** A block that ends with its last token. */
  lemma PassedWhole(key: seq<string>, c: nat, off: nat, d: char, segs: seq<Seg>, all: seq<string>, maxklen: nat, off': nat, more: seq<string>)
    requires (forall i | 0 <= i < |key| :: key[i] != "") && c + 1 < |key| && off <= |key[c]| && PartLen(key, c, off, d) >= 0
    requires Passed(key, c, off, d, segs, all, maxklen) && Short(Split(Part(key, c, off, d), d), maxklen)
    requires Ends(key, c + 1, d) && off' == Off(key, c + 1, d) && |more| >= |all| && all == more[..|all|]
    ensures Passed(key, c + 1, off', d, segs, more, maxklen)
  {
    hide Split, Part, Short, Stitched, PartsShort;
    PartsMore(key, c, off, d, maxklen);
    assert Cuts(key, c + 1, d) == Cuts(key, c, d);
  }

  /** One more cut token: it goes behind the others, or into an emptied array. */
  lemma BatchedCut(cs: seq<nat>, x: nat, segs: seq<Seg>, segs': seq<Seg>)
    requires var b := Stitched(|cs|); |segs| == |cs| - b && forall k | 0 <= k < |segs| :: segs[k].idx == cs[b + k]
    requires segs' != [] && segs'[|segs'| - 1].idx == x && segs'[..|segs'| - 1] == if |segs| >= SEGTOKS then [] else segs
    ensures var b := Stitched(|cs| + 1); |segs'| == |cs| + 1 - b && forall k | 0 <= k < |segs'| :: segs'[k].idx == (cs + [x])[b + k]
  {
    hide Stitched;
    StitchedNext(|cs|);
    var n := |segs'| - 1;
    forall k | 0 <= k < |segs'|
      ensures segs'[k].idx == (cs + [x])[Stitched(|cs| + 1) + k]
    {
      if k < n { assert segs'[k] == segs'[..n][k]; }
    }
  }

  /** The tokens that were stitched when the array was full are short. */
  lemma CheckedCut(cs: seq<nat>, segs: seq<Seg>, all: seq<string>, more: seq<string>, maxklen: nat)
    requires var b := Stitched(|cs|); |segs| == |cs| - b && forall k | 0 <= k < |segs| :: segs[k].idx == cs[b + k]
    requires forall k | 0 <= k < Stitched(|cs|) :: cs[k] < |all| && |all[cs[k]]| <= maxklen
    requires |more| > |all| && all == more[..|all|] && forall k | 0 <= k < |segs| :: segs[k].idx < |more| - 1
    requires |segs| >= SEGTOKS ==> forall k | 0 <= k < |segs| :: |more[segs[k].idx]| <= maxklen
    ensures forall k | 0 <= k < Stitched(|cs| + 1) :: k < |cs| && cs[k] < |more| - 1 && |more[cs[k]]| <= maxklen
  {
    hide Stitched;
    var b := Stitched(|cs|);
    StitchedNext(|cs|);
    forall k | 0 <= k < Stitched(|cs| + 1)
      ensures k < |cs| && cs[k] < |more| - 1 && |more[cs[k]]| <= maxklen
    {
      if k < b {
        assert |all[cs[k]]| <= maxklen;
      } else {
        assert segs[k - b].idx == cs[k];
      }
    }
  }

  /** The tokens cut so far, with the one at the next boundary. */
  lemma CutsMore(key: seq<string>, c: nat, d: char, n: nat)
    requires (forall i | 0 <= i < |key| :: key[i] != "") && c + 1 < |key| && !Ends(key, c + 1, d) && n > 0 && |Split(Flat(key[..c + 1]), d)| == n
    ensures Cuts(key, c + 1, d) == Cuts(key, c, d) + [n - 1]
  {
    hide Split, Flat;
  }

  lemma BatchedMore(key: seq<string>, c: nat, d: char, segs: seq<Seg>, more: seq<string>, segs': seq<Seg>)
    requires (forall i | 0 <= i < |key| :: key[i] != "") && c + 1 < |key| && Batched(key, c, d, segs)
    requires !Ends(key, c + 1, d) && |more| > 0 && |Split(Flat(key[..c + 1]), d)| == |more|
    requires segs' != [] && segs'[|segs'| - 1].idx == |more| - 1
    requires segs'[..|segs'| - 1] == if |segs| >= SEGTOKS then [] else segs
    ensures Batched(key, c + 1, d, segs')
  {
    hide Split, Flat, Stitched, Cuts, Ends;
    CutsMore(key, c, d, |more|);
    BatchedCut(Cuts(key, c, d), |more| - 1, segs, segs');
  }

  lemma CheckedMore(key: seq<string>, c: nat, d: char, segs: seq<Seg>, all: seq<string>, maxklen: nat, more: seq<string>)
    requires (forall i | 0 <= i < |key| :: key[i] != "") && c + 1 < |key| && Batched(key, c, d, segs) && Checked(key, c, d, all, maxklen)
    requires !Ends(key, c + 1, d) && |more| > |all| && all == more[..|all|] && |Split(Flat(key[..c + 1]), d)| == |more|
    requires forall k | 0 <= k < |segs| :: segs[k].idx < |more| - 1
    requires |segs| >= SEGTOKS ==> forall k | 0 <= k < |segs| :: |more[segs[k].idx]| <= maxklen
    ensures Checked(key, c + 1, d, more[..|more| - 1], maxklen)
  {
    hide Split, Flat, Stitched, Cuts, Ends;
    var cs, x, tokens := Cuts(key, c, d), |more| - 1, more[..|more| - 1];
    CutsMore(key, c, d, |more|);
    CheckedCut(cs, segs, all, more, maxklen);
    forall k | 0 <= k < Stitched(|cs| + 1)
      ensures (cs + [x])[k] < |tokens| && |tokens[(cs + [x])[k]]| <= maxklen
    {
      assert k < |cs| && cs[k] < |more| - 1 && |more[cs[k]]| <= maxklen;
    }
  }

  /** A block whose last token is cut. */
  lemma PassedCut(key: seq<string>, c: nat, off: nat, d: char, segs: seq<Seg>, all: seq<string>, maxklen: nat, more: seq<string>, segs': seq<Seg>)
    requires (forall i | 0 <= i < |key| :: key[i] != "") && c + 1 < |key| && off <= |key[c]| && PartLen(key, c, off, d) >= 0
    requires Passed(key, c, off, d, segs, all, maxklen) && Short(Split(Part(key, c, off, d), d), maxklen)
    requires !Ends(key, c + 1, d) && |more| > |all| && all == more[..|all|] && |Split(Flat(key[..c + 1]), d)| == |more|
    requires forall k | 0 <= k < |segs| :: segs[k].idx < |more| - 1
    requires segs' != [] && segs'[|segs'| - 1].idx == |more| - 1
    requires segs'[..|segs'| - 1] == if |segs| >= SEGTOKS then [] else segs
    requires |segs| >= SEGTOKS ==> forall k | 0 <= k < |segs| :: |more[segs[k].idx]| <= maxklen
    ensures Passed(key, c + 1, 0, d, segs', more[..|more| - 1], maxklen)
  {
    hide Split, Part, Short, PartsShort, Flat, Batched, Checked, Ends;
    PartsMore(key, c, off, d, maxklen);
    BatchedMore(key, c, d, segs, more, segs');
    CheckedMore(key, c, d, segs, all, maxklen, more);
    CutOff(key, c, d);
  }

  lemma CutOff(key: seq<string>, c: nat, d: char)
    requires (forall i | 0 <= i < |key| :: key[i] != "") && c + 1 < |key| && !Ends(key, c + 1, d)
    ensures Off(key, c + 1, d) == 0
  {}

  /** On the way to the lone delimiter the array that is full when a token is cut can be stitched. */
  lemma TripStitch(key: seq<string>, c: nat, d: char, segs: seq<Seg>, keycnt: nat, maxklen: nat, more: seq<string>)
    requires (forall i | 0 <= i < |key| :: key[i] != "") && c + 1 < |key| && Batched(key, c, d, segs) && !Ends(key, c + 1, d)
    requires Trips(key, d, keycnt, maxklen) && forall k | 0 <= k < |segs| :: segs[k].idx < |more| - 1
    requires var f := Split(Flat(key[..|key| - 1]), d); |more| <= |f| && forall i | 0 <= i < |more| - 1 :: more[i] == f[i]
    ensures |segs| >= SEGTOKS ==> forall k | 0 <= k < |segs| :: |more[segs[k].idx]| <= maxklen
  {
    hide Split, Clean, Stitched, PartsShort, Flat;
    var cs, n, last := Cuts(key, c, d), |Cuts(key, c, d)|, |key| - 1;
    var all := Cuts(key, last, d);
    CutsGrow(key, c, last, d);
    CutsGrow(key, c + 1, last, d);
    StitchedNext(n);
    StitchedMore(n + 1, |all|);
    if |segs| >= SEGTOKS {
      forall k | 0 <= k < |segs|
        ensures |more[segs[k].idx]| <= maxklen
      {
        assert all[Stitched(n) + k] == cs[Stitched(n) + k] == segs[k].idx;
      }
    }
  }

  /** The lone delimiter, if it is reached. */
  lemma TripsNow(key: seq<string>, c: nat, off: nat, d: char, segs: seq<Seg>, done: seq<string>, pend: string, keycnt: nat, maxklen: nat)
    requires (forall i | 0 <= i < |key| :: key[i] != "") && Passed(key, c, off, d, segs, done, maxklen)
    requires At(key, c, off, d, done, pend) && PartLen(key, c, off, d) == 0 && (c < |key| - 1 ==> |key[c]| > 2) && |done| < keycnt
    ensures Trips(key, d, keycnt, maxklen)
  {
    hide Split, Clean, Stitched, PartsShort, Checked, Batched, Flat;
    LoneDelimiter(key, c, off, d, done, pend);
    AtPend(key, c, off, d, done, pend);
    AtSome(key, c, off, d, done);
    StopRead(key, c, off, d, done);
    assert Stop(key, c, d) == key[..c];
  }

  lemma AtPend(key: seq<string>, c: nat, off: nat, d: char, done: seq<string>, pend: string)
    requires At(key, c, off, d, done, pend) && off == 1
    ensures pend == ""
  {}

  /** A delimiter ends a token. */
  lemma AtSome(key: seq<string>, c: nat, off: nat, d: char, done: seq<string>)
    requires At(key, c, off, d, done, "") && off == 1
    ensures done != []
  {
    hide Split, Flat;
    assert key[c][..1] == [d];
    SplitApart(Flat(key[..c]), "", d);
  }

  /** The tokens read so far are tokens of the key string, but for the last one, which may go on. */
  lemma MoreFinal(key: seq<string>, c: nat, off: nat, d: char, done: seq<string>, pend: string)
    requires At(key, c, off, d, done, pend) && PartLen(key, c, off, d) >= 0 && Clean(Part(key, c, off, d), d)
    ensures var more, f := Joined(done, pend, Split(Part(key, c, off, d), d)), Split(Flat(key), d);
            |more| <= |f| && forall i | 0 <= i < |more| - 1 :: more[i] == f[i]
  {
    hide Split, Flat, Front, Part, Joined, Clean;
    PartSplit(key, c, off, d, done, pend);
    var x := Front(key, c, off) + Part(key, c, off, d);
    var y := FlatRest(key, c, off, d);
    assert Flat(key)[..|x|] == x;
    SplitFront(Flat(key), |x|, d);
    var more, f := Split(x, d), Split(Flat(key), d);
    forall i | 0 <= i < |more| - 1
      ensures more[i] == f[i]
    {
      assert more[..|more| - 1][i] == f[..|more| - 1][i];
    }
  }

  /** What is in the array costs what the tokens of the key string that were cut last cost. */
  lemma CutCost(key: seq<string>, c: nat, d: char, segs: seq<Seg>, more: seq<string>, bodylen: nat)
    requires (forall i | 0 <= i < |key| :: key[i] != "") && c < |key| && Batched(key, c, d, segs)
    requires forall k | 0 <= k < |segs| :: segs[k].idx < |more| && segs[k].idx < |Split(Flat(key), d)| && more[segs[k].idx] == Split(Flat(key), d)[segs[k].idx]
    ensures var lens := CutLengths(key, c, d); var b := Stitched(|lens|);
            |segs| == |lens| - b && Cost(segs, more, bodylen) == Packed(lens[b..], bodylen).0
    ensures forall k | 0 <= k < |segs| :: |more[segs[k].idx]| == CutLengths(key, c, d)[Stitched(|CutLengths(key, c, d)|) + k]
  {
    hide Split, Flat, Stitched, Packed;
    var lens := CutLengths(key, c, d);
    assert Lengths(Indices(segs), more) == lens[Stitched(|lens|)..];
  }

  /** The array is full and the pool has too few blocks. */
  lemma OutNow(key: seq<string>, c: nat, off: nat, d: char, segs: seq<Seg>, all: seq<string>, more: seq<string>, keycnt: nat, maxklen: nat, bodylen: nat, avail: nat, left: nat)
    requires (forall i | 0 <= i < |key| :: key[i] != "") && c + 1 < |key| && off <= |key[c]| && PartLen(key, c, off, d) >= 0
    requires Passed(key, c, off, d, segs, all, maxklen) && Short(Split(Part(key, c, off, d), d), maxklen)
    requires !Ends(key, c + 1, d) && |all| < |more| <= keycnt && all == more[..|all|]
    requires At(key, c + 1, 0, d, more[..|more| - 1], more[|more| - 1]) && more[|more| - 1] != ""
    requires var f := Split(Flat(key), d); |more| <= |f| && forall i | 0 <= i < |more| - 1 :: more[i] == f[i]
    requires |segs| >= SEGTOKS && forall k | 0 <= k < |segs| :: segs[k].idx < |more| - 1 && |more[segs[k].idx]| <= maxklen
    requires left + Spent(key, c, d, bodylen) == avail && Cost(segs, more, bodylen) > left
    ensures RunsOut(key, c + 1, d, keycnt, maxklen, bodylen, avail)
  {
    hide Split, Flat, Part, Short, Stitched, PartsShort, Cost, Spent, Need, Packed;
    PartsMore(key, c, off, d, maxklen);
    CutCost(key, c, d, segs, more, bodylen);
    NeedSpent(key, c, d, bodylen);
    var lens := CutLengths(key, c, d);
    var b := Stitched(|lens|);
    forall k | 0 <= k < |lens|
      ensures lens[k] <= maxklen
    {
      if k < b {
        assert Cuts(key, c, d)[k] < |all| && all[Cuts(key, c, d)[k]] == more[Cuts(key, c, d)[k]];
      } else {
        assert lens[k] == |more[segs[k - b].idx]|;
      }
    }
    assert Front(key, c + 1, 0) == Flat(key[..c + 1]);
    assert more == more[..|more| - 1] + [more[|more| - 1]];
  }

  /** On to the next block: a token ends at the boundary, or its first piece is saved. */
  method Cross(key: seq<string>, blocks: seq<string>, tokens: seq<Token>, segs: seq<Seg>, left: nat, c: nat, off: nat, cut: bool, d: char,
               keycnt: nat, maxklen: nat, bodylen: nat, avail: nat, ghost all: seq<string>, ghost pend: string)
    returns (code: Code, blocks': seq<string>, tokens': seq<Token>, segs': seq<Seg>, left': nat, off': nat, ghost all': seq<string>, ghost pend': string)
    requires (forall i | 0 <= i < |key| :: key[i] != "") && key <= blocks && c + 1 < |key| && |key[c]| == bodylen && maxklen < bodylen
    requires At(key, c, off, d, all, pend) && off <= |key[c]| && (pend != "" ==> off == 0) && PartLen(key, c, off, d) >= 0 && cut == Cut(key, c, d)
    requires Clean(Part(key, c, off, d), d) && Short(Split(Part(key, c, off, d), d), maxklen) && ShortTokens(tokens, maxklen)
    requires Passed(key, c, off, d, segs, all, maxklen) && left + Spent(key, c, d, bodylen) == avail
    requires var more := Joined(all, pend, Split(Part(key, c, off, d), d));
             && Pieces(blocks, tokens, segs, more) && |more| <= keycnt && SegText(blocks, segs, |tokens|) == ""
             && (forall k | 0 <= k < |segs| :: segs[k].idx < |more|)
             && (pend == "" || |Split(Part(key, c, off, d), d)| > 1 ==> forall k | 0 <= k < |segs| :: segs[k].idx < |more| - 1)
    ensures code != Aborted && key <= blocks' && left' <= left
    ensures code == BadValue ==>
              && !Ends(key, c + 1, d) && |segs| >= SEGTOKS && left' == left
              && var more := Joined(all, pend, Split(Part(key, c, off, d), d)); exists k | 0 <= k < |segs| :: |more[segs[k].idx]| > maxklen
    ensures |segs| <= left ==> code != NoMemory
    ensures code == NoMemory ==> !Ends(key, c + 1, d) && left' == left && RunsOut(key, c + 1, d, keycnt, maxklen, bodylen, avail)
    ensures code == Success ==>
              && At(key, c + 1, off', d, all', pend') && Kept(blocks', tokens', segs', all', pend') && |tokens'| == |all'| <= keycnt
              && ShortTokens(tokens', maxklen) && (pend' != "" ==> |tokens'| < keycnt) && (Ends(key, c + 1, d) ==> tokens' == tokens)
              && |tokens'| <= |tokens| && left - left' + |segs'| <= |segs| + 1 && left' + Spent(key, c + 1, d, bodylen) == avail
              && Passed(key, c + 1, off', d, segs', all', maxklen)
  {
    hide Split, Clean, Kept, Pieces, SegText, Text, Texts, Front, Part, Flat, Joined, Short, ShortTokens, NonEmpty, Passed, At, Spent, RunsOut, Cost, CutLengths;
    ghost var more := Joined(all, pend, Split(Part(key, c, off, d), d));
    JoinedFront(all, pend, Split(Part(key, c, off, d), d));
    PiecesShape(blocks, tokens, segs, more);
    PassedOff(key, c, off, d, segs, all, maxklen);
    code, blocks', tokens', segs', left', off', all', pend' := Success, blocks, tokens, segs, left, 0, more, "";
    assert key[c + 1] != "";
    if !cut {
      AtNext(key, c, off, d, all, pend, 0);
      PassedWhole(key, c, off, d, segs, all, maxklen, 0, more);
      SpentWhole(key, c, d, bodylen);
      KeptNow(blocks, tokens, segs, more);
    } else if blocks[c + 1][0] == d {
      off' := 1;
      AtNext(key, c, off, d, all, pend, 1);
      PassedWhole(key, c, off, d, segs, all, maxklen, 1, more);
      SpentWhole(key, c, d, bodylen);
      KeptNow(blocks, tokens, segs, more);
    } else {
      if pend != "" { NotCutTwice(key, c, off, d, bodylen, maxklen); }
      AtCut(key, c, off, d, all, pend);
      MoreFinal(key, c, off, d, all, pend);
      CutSpent(key, c, off, d, segs, all, maxklen, more, bodylen);
      code, blocks', tokens', segs', left' := SaveCut(blocks, tokens, segs, maxklen, bodylen, left, more);
      if code == NoMemory { OutNow(key, c, off, d, segs, all, more, keycnt, maxklen, bodylen, avail, left); }
      if code != Success { return; }
      CutSize(key, c, d, more);
      PassedCut(key, c, off, d, segs, all, maxklen, more, segs');
      all', pend' := more[..|more| - 1], more[|more| - 1];
      KeptSize(blocks', tokens', segs', all', pend');
    }
  }

  /** One pass over the blocks with one delimiter, up to the final stitching. */
  method Pass(key: seq<string>, start: seq<string>, keycnt: nat, maxklen: nat, bodylen: nat, d: char, avail: nat)
    returns (code: Code, blocks: seq<string>, tokens: seq<Token>, segs: seq<Seg>, left: nat, ghost all: seq<string>, ghost end: nat)
    requires KeyOk(key, bodylen) && key <= start && keycnt > 0 && maxklen + 2 < bodylen
    requires forall i | 0 <= i < |key| :: key[i] != ""
    ensures key <= blocks
    ensures code == Success ==>
              && Pieces(blocks, tokens, segs, all) && (forall k | 0 <= k < |segs| :: segs[k].idx < |tokens|)
              && ShortTokens(tokens, maxklen) && |all| == keycnt
              && 0 < end <= |key| && Ends(key, end, d)
              && Clean(Flat(Stop(key, end, d)), d) && Split(Flat(Stop(key, end, d)), d) == all
    ensures Accepted(key, d, keycnt, maxklen) ==> code == Success || code == NoMemory
    ensures code == Aborted ==> Trips(key, d, keycnt, maxklen)
    ensures Trips(key, d, keycnt, maxklen) ==> code == Aborted || code == NoMemory
    ensures |key| <= avail ==> code != NoMemory && (code == Success ==> |segs| <= left)
    ensures code == NoMemory ==> RunsOut(key, end, d, keycnt, maxklen, bodylen, avail)
    ensures code == NoMemory && Accepted(key, d, keycnt, maxklen) ==> end < Boundary(key, d, keycnt, maxklen)
    ensures code == Success ==> Batched(key, end - 1, d, segs) && left + Spent(key, end - 1, d, bodylen) == avail
    ensures code == BadValue ==> end < |key| && left + Spent(key, end, d, bodylen) == avail
    ensures left <= avail < left + |key|
    ensures |key| == 1 || d !in key[0] ==> left == avail && segs == [] && code != NoMemory
    ensures |key| > 1 && d !in key[0] ==> code == BadValue
  {
    hide Split, Clean, Kept, Pieces, SegText, Text, Texts, Front, Part, Flat, Joined, Short, ShortTokens, NonEmpty, Trips, Passed, EndsFit, At, Stop, Spent, RunsOut, Cost, Batched, CutLengths;
    ghost var n := if Accepted(key, d, keycnt, maxklen) then Boundary(key, d, keycnt, maxklen) else 0;
    ghost var trips := Trips(key, d, keycnt, maxklen);
    code, blocks, tokens, segs, left := Success, start, [], [], avail;
    var c, off := 0, 0;
    ghost var pend := "";
    all, end := [], 0;
    AtStart(key, blocks, d, maxklen);
    PassedStart(key, d, maxklen);
    SpentNone(key, d, bodylen);
    while |tokens| < keycnt
      invariant code == Success && key <= blocks && 0 <= c < |key| && 0 <= off
      invariant At(key, c, off, d, all, pend) && Kept(blocks, tokens, segs, all, pend) && |tokens| == |all| <= keycnt
      invariant ShortTokens(tokens, maxklen) && (pend != "" ==> |tokens| < keycnt)
      invariant left <= avail && avail - left + |segs| <= c && left + Spent(key, c, d, bodylen) == avail
      invariant Passed(key, c, off, d, segs, all, maxklen)
      invariant (n > 0 ==> c < n || |tokens| == keycnt) && (trips ==> |tokens| < keycnt)
      invariant |key| > 1 && d !in key[0] ==> c == 0
      decreases |key| - c
    {
      AtShape(key, c, off, d, all, pend, bodylen);
      end := c;
      var toks, cut;
      code, toks, cut := TakeBlock(key, blocks, c, off, keycnt - |tokens|, maxklen, d);
      PartEmpty(key, c, off, d);
      if n > 0 { AcceptedStep(key, n, c, off, d, all, pend, keycnt, maxklen, bodylen); }
      PassedOff(key, c, off, d, segs, all, maxklen);
      if trips && c < |key| - 1 { TripStep(key, c, off, d, all, pend, keycnt, maxklen, bodylen); }
      if trips && c == |key| - 1 { TripEnd(key, c, off, d, segs, all, keycnt, maxklen); }
      if |key| > 1 && d !in key[0] { LongFirst(key, d, maxklen, bodylen); }
      if code == Aborted { TripsNow(key, c, off, d, segs, all, pend, keycnt, maxklen); }
      if code != Success { return; }
      KeptMore(blocks, tokens, segs, all, pend, toks, maxklen);
      ghost var more := Joined(all, pend, Split(Part(key, c, off, d), d));
      JoinedFront(all, pend, Split(Part(key, c, off, d), d));
      tokens := tokens + toks;
      if c == |key| - 1 {
        LastRead(key, off, d, all, pend);
        PassedBatch(key, c, off, d, segs, all, maxklen);
        all := more;
        if |tokens| == keycnt { end := |key|; } else { code := BadValue; }
        return;
      }
      assert key[c + 1] != "";
      if trips && !Ends(key, c + 1, d) {
        if pend != "" { NotCutTwice(key, c, off, d, bodylen, maxklen); }
        TripCut(key, c, off, d, segs, all, keycnt, maxklen, more);
      }
      if n > 0 { ShortPieces(segs, more, maxklen); }
      code, blocks, tokens, segs, left, off, all, pend :=
        Cross(key, blocks, tokens, segs, left, c, off, cut, d, keycnt, maxklen, bodylen, avail, all, pend);
      if code == NoMemory { end := c + 1; }
      if code != Success { return; }
      c := c + 1;
    }
    KeptSize(blocks, tokens, segs, all, pend);
    PassedOff(key, c, off, d, segs, all, maxklen);
    StopRead(key, c, off, d, all);
    PassedBatch(key, c, off, d, segs, all, maxklen);
    EndBatch(key, c, d, segs, bodylen);
    end := c;
  }

  lemma SpentNone(key: seq<string>, d: char, bodylen: nat)
    requires key != [] && forall i | 0 <= i < |key| :: key[i] != ""
    ensures Spent(key, 0, d, bodylen) == 0
  {}

  lemma PassedBatch(key: seq<string>, c: nat, off: nat, d: char, segs: seq<Seg>, all: seq<string>, maxklen: nat)
    requires (forall i | 0 <= i < |key| :: key[i] != "") && Passed(key, c, off, d, segs, all, maxklen)
    ensures c < |key| && Batched(key, c, d, segs)
  {
    hide Batched, Checked, PartsShort;
  }

  /** No token is cut where one ends. */
  lemma EndBatch(key: seq<string>, c: nat, d: char, segs: seq<Seg>, bodylen: nat)
    requires (forall i | 0 <= i < |key| :: key[i] != "") && 0 < c < |key| && Ends(key, c, d) && Batched(key, c, d, segs)
    ensures Batched(key, c - 1, d, segs) && Spent(key, c - 1, d, bodylen) == Spent(key, c, d, bodylen)
  {
    hide Stitched, Spent;
    SpentWhole(key, c - 1, d, bodylen);
  }

  /** What the loop takes when a token is cut. */
  lemma CutSpent(key: seq<string>, c: nat, off: nat, d: char, segs: seq<Seg>, all: seq<string>, maxklen: nat, more: seq<string>, bodylen: nat)
    requires (forall i | 0 <= i < |key| :: key[i] != "") && Passed(key, c, off, d, segs, all, maxklen) && c + 1 < |key| && !Ends(key, c + 1, d)
    requires var f := Split(Flat(key), d); |more| <= |f| && forall i | 0 <= i < |more| - 1 :: more[i] == f[i]
    requires forall k | 0 <= k < |segs| :: segs[k].idx < |more| - 1
    ensures Spent(key, c + 1, d, bodylen) == Spent(key, c, d, bodylen) + if |segs| >= SEGTOKS then Cost(segs, more, bodylen) else 0
  {
    hide Split, Flat, Stitched, Spent, Cost, Packed, CutLengths, Passed, Batched;
    PassedBatch(key, c, off, d, segs, all, maxklen);
    CutCost(key, c, d, segs, more, bodylen);
    SpentCut(key, c, d, bodylen);
    StitchedSize(|CutLengths(key, c, d)|);
  }

  lemma StitchedSize(n: nat)
    ensures n - Stitched(n) <= SEGTOKS
  {}

  /** Where an accepted key string ends. */
  ghost function Boundary(key: seq<string>, d: char, keycnt: nat, maxklen: nat): (n: nat)
    requires key != [] && (forall i | 0 <= i < |key| :: key[i] != "") && Accepted(key, d, keycnt, maxklen)
    ensures 0 < n <= |key| && EndsFit(key, n, d, keycnt, maxklen)
  {
    var n :| 0 < n <= |key| && EndsFit(key, n, d, keycnt, maxklen);
    n
  }

  lemma AtShape(key: seq<string>, c: nat, off: nat, d: char, done: seq<string>, pend: string, bodylen: nat)
    requires At(key, c, off, d, done, pend) && KeyOk(key, bodylen) && bodylen > 2
    ensures c < |key| && off <= |key[c]| && (c < |key| - 1 ==> |key[c]| == bodylen) && PartLen(key, c, off, d) >= 0 && (pend != "" ==> off == 0)
  {}

  lemma PassedOff(key: seq<string>, c: nat, off: nat, d: char, segs: seq<Seg>, all: seq<string>, maxklen: nat)
    requires (forall i | 0 <= i < |key| :: key[i] != "") && Passed(key, c, off, d, segs, all, maxklen)
    ensures c < |key| && off == Off(key, c, d) && (c == 0 ==> all == [])
  {}

  lemma TripEnd(key: seq<string>, c: nat, off: nat, d: char, segs: seq<Seg>, all: seq<string>, keycnt: nat, maxklen: nat)
    requires (forall i | 0 <= i < |key| :: key[i] != "") && Passed(key, c, off, d, segs, all, maxklen)
    requires Trips(key, d, keycnt, maxklen) && c == |key| - 1
    ensures PartLen(key, c, off, d) == 0
  {
    hide PartsShort, Checked, Clean, Batched;
  }

  lemma TripCut(key: seq<string>, c: nat, off: nat, d: char, segs: seq<Seg>, all: seq<string>, keycnt: nat, maxklen: nat, more: seq<string>)
    requires (forall i | 0 <= i < |key| :: key[i] != "") && Passed(key, c, off, d, segs, all, maxklen) && c + 1 < |key| && !Ends(key, c + 1, d)
    requires Trips(key, d, keycnt, maxklen) && forall k | 0 <= k < |segs| :: segs[k].idx < |more| - 1
    requires var f := Split(Flat(key[..|key| - 1]), d); |more| <= |f| && forall i | 0 <= i < |more| - 1 :: more[i] == f[i]
    ensures |segs| >= SEGTOKS ==> forall k | 0 <= k < |segs| :: |more[segs[k].idx]| <= maxklen
  {
    hide PartsShort, Checked, Trips, Batched;
    TripStitch(key, c, d, segs, keycnt, maxklen, more);
  }

  lemma ShortPieces(segs: seq<Seg>, all: seq<string>, maxklen: nat)
    requires Short(all, maxklen) && forall k | 0 <= k < |segs| :: segs[k].idx < |all|
    ensures forall k | 0 <= k < |segs| :: |all[segs[k].idx]| <= maxklen
  {}

  /** A first block without a delimiter is longer than any token may be. */
  lemma LongFirst(key: seq<string>, d: char, maxklen: nat, bodylen: nat)
    requires KeyOk(key, bodylen) && |key| > 1 && d !in key[0] && maxklen < bodylen
    ensures key[0] != "" && PartLen(key, 0, 0, d) >= 0 && !Short(Split(Part(key, 0, 0, d), d), maxklen) && Part(key, 0, 0, d) != ""
  {
    hide Split;
    var x := Part(key, 0, 0, d);
    assert x == key[0];
    SplitNone(x, d);
    assert Split(x, d)[0] == x;
  }

  lemma JoinedFront(done: seq<string>, pend: string, xs: seq<string>)
    requires |xs| > 0
    ensures var more := Joined(done, pend, xs); |more| > |done| && done == more[..|done|]
  {}

  lemma LastRead(key: seq<string>, off: nat, d: char, done: seq<string>, pend: string)
    requires key != [] && (forall i | 0 <= i < |key| :: key[i] != "")
    requires var c := |key| - 1; At(key, c, off, d, done, pend) && PartLen(key, c, off, d) >= 0 && Clean(Part(key, c, off, d), d)
    ensures var g := Flat(Stop(key, |key|, d));
            Clean(g, d) && Split(g, d) == Joined(done, pend, Split(Part(key, |key| - 1, off, d), d))
  {
    hide Split, Front, Part, Flat, Joined;
    PartSplit(key, |key| - 1, off, d, done, pend);
    FrontLast(key, off, d);
    assert Stop(key, |key|, d) == key;
  }

  /** The number of tokens, the cut one included. */
  lemma CutSize(key: seq<string>, c: nat, d: char, more: seq<string>)
    requires c + 1 < |key| && |more| > 0 && At(key, c + 1, 0, d, more[..|more| - 1], more[|more| - 1])
    ensures |Split(Flat(key[..c + 1]), d)| == |more|
  {
    assert Front(key, c + 1, 0) == Flat(key[..c + 1]);
  }

  lemma AtStart(key: seq<string>, blocks: seq<string>, d: char, maxklen: nat)
    requires key != [] && key[0] != ""
    ensures At(key, 0, 0, d, [], "") && Kept(blocks, [], [], [], "") && ShortTokens([], maxklen)
  {
    assert key[..0] == [] && key[0][..0] == "" && Front(key, 0, 0) == "";
    SplitNothing(d);
  }

  lemma KeptNow(blocks: seq<string>, tokens: seq<Token>, segs: seq<Seg>, all: seq<string>)
    requires Pieces(blocks, tokens, segs, all) && SegText(blocks, segs, |tokens|) == ""
    requires forall k | 0 <= k < |segs| :: segs[k].idx < |tokens|
    ensures Kept(blocks, tokens, segs, all, "")
  {}

  lemma KeptSize(blocks: seq<string>, tokens: seq<Token>, segs: seq<Seg>, done: seq<string>, pend: string)
    requires Kept(blocks, tokens, segs, done, pend)
    ensures |tokens| == |done| && (pend == "" ==> forall k | 0 <= k < |segs| :: segs[k].idx < |tokens|)
    ensures Pieces(blocks, tokens, segs, done)
  {}

  /**
   * tokenize_mblocks: with spaces and, for old clients, with commas. Whatever
   * the block boundaries, a success yields the first `keycnt` tokens of the key
   * string. A key string to be accepted fails exactly if the pool has too few
   * blocks for the tokens that are cut in it. The passes may run out at the
   * boundary `end`; a pass with spaces that fails at block `first` may have taken
   * blocks already.
   */
  method TokenizeMblocks(key: seq<string>, keycnt: nat, maxklen: nat, bodylen: nat, compatible: bool, avail: nat)
    returns (code: Code, blocks: seq<string>, tokens: seq<Token>, d: char, ghost end: nat, ghost first: nat)
    requires KeyOk(key, bodylen) && keycnt > 0 && maxklen + 2 < bodylen
    requires forall i | 0 <= i < |key| :: key[i] != ""
    ensures d == ' ' || (d == ',' && compatible && !Accepted(key, ' ', keycnt, maxklen))
    ensures code == Success ==> AllInside(blocks, tokens) && Tokenized(key, d, keycnt, maxklen, Texts(blocks, tokens))
    ensures code == Success ==> Accepted(key, d, keycnt, maxklen)
    ensures code == Aborted ==> Trips(key, d, keycnt, maxklen)
    ensures |key| <= avail ==>
              && (code == Success <==> Accepted(key, ' ', keycnt, maxklen) || (compatible && Accepted(key, ',', keycnt, maxklen)))
              && (code == Aborted <==> Trips(key, ' ', keycnt, maxklen) || (compatible && Trips(key, ',', keycnt, maxklen)))
    ensures |key| <= avail && (Fits(Flat(key), ' ', keycnt, maxklen) || (compatible && Fits(Flat(key), ',', keycnt, maxklen))) ==> code == Success
    ensures 2 * |key| <= avail ==> code != NoMemory
    ensures forall e | 0 < e <= |key| && EndsFit(key, e, ' ', keycnt, maxklen) :: code == Success <==> Need(key, e, ' ', bodylen) <= avail
    ensures compatible && !Accepted(key, ' ', keycnt, maxklen) ==>
              forall e | 0 < e <= |key| && EndsFit(key, e, ',', keycnt, maxklen) :: code == Success <==> Need(key, e, ',', bodylen) <= avail
    ensures code == NoMemory ==> first < |key| && (d == ' ' ==> first == 0) && Spent(key, first, ' ', bodylen) <= avail
    ensures code == NoMemory ==> RunsOut(key, end, d, keycnt, maxklen, bodylen, avail - Spent(key, first, ' ', bodylen))
  {
    hide Split, Flat, Pieces, Text, ShortTokens, NonEmpty, Clean, Fits, Trips, Stop, Ends, Accepted, KeyOk, Texts, Tokenized, EndsFit;
    hide RunsOut, Need, Spent, Batched, Cost, Boundary;
    d, first := ' ', 0;
    var segs, left;
    ghost var all;
    ghost var given := avail;
    code, blocks, tokens, segs, left, all, end := Pass(key, key, keycnt, maxklen, bodylen, d, avail);
    SpentNone(key, d, bodylen);
    CommasFirst(key, keycnt, maxklen);
    AcceptsFitting(key, keycnt, maxklen);
    OneEnd(key, ' ', keycnt, maxklen, bodylen);
    OneEnd(key, ',', keycnt, maxklen, bodylen);
    if code == BadValue && compatible {
      d, first, given := ',', end, left;
      code, blocks, tokens, segs, left, all, end := Pass(key, blocks, keycnt, maxklen, bodylen, d, left);
    }
    if code == NoMemory && Accepted(key, d, keycnt, maxklen) { OutEarly(key, end, d, keycnt, maxklen, bodylen, given); }
    if code != Success { return; }
    PassAccepted(key, end, d, keycnt, maxklen, all);
    PiecesShape(blocks, tokens, segs, all);
    FinalCost(key, end, d, segs, all, bodylen);
    FinalFits(key, end, d, keycnt, maxklen, all);
    AllShort(blocks, tokens, segs, all, maxklen);
    if segs == [] {
      PiecesOnly(blocks, tokens, all);
    } else {
      code, blocks, tokens, left := Stitch(blocks, tokens, segs, maxklen, bodylen, left, all);
      if code == BadValue { NotShort(segs, all, maxklen); }
      if code == NoMemory { OutAtEnd(key, end, d, keycnt, maxklen, bodylen, given); }
    }
    if code == Success { TokensShort(blocks, tokens, maxklen); }
  }

  /** The boundary at which a key string is accepted is the only one. */
  lemma EndsOnce(key: seq<string>, a: nat, b: nat, d: char, keycnt: nat, maxklen: nat, bodylen: nat)
    requires KeyOk(key, bodylen) && bodylen > 2 && (forall i | 0 <= i < |key| :: key[i] != "") && 0 < a < b <= |key|
    requires EndsFit(key, a, d, keycnt, maxklen)
    ensures !EndsFit(key, b, d, keycnt, maxklen)
  {
    hide Split, Flat, Ends;
    var f, g, h := Flat(key), Flat(Stop(key, a, d)), Flat(Stop(key, b, d));
    var z := StopRest(key, a, d);
    StopLonger(key, a, b, d, bodylen);
    if Ends(key, b, d) {
      if b == |key| {
        assert Stop(key, b, d) == key;
      } else {
        var y := StopRest(key, b, d);
        assert h == f[..|h|];
      }
      assert h == g + [d] + h[|g| + 1..];
      SplitApart(g, h[|g| + 1..], d);
    }
  }

  lemma StopLonger(key: seq<string>, a: nat, b: nat, d: char, bodylen: nat)
    requires KeyOk(key, bodylen) && bodylen > 2 && (forall i | 0 <= i < |key| :: key[i] != "") && 0 < a < b <= |key|
    ensures |Flat(Stop(key, a, d))| < |Flat(Stop(key, b, d))|
  {
    hide Flat;
    FlatTake(key, a - 1);
    FlatTake(key, b - 1);
    FlatGrows(key, a, b - 1);
    FlatTake(Stop(key, a, d), a - 1);
    FlatTake(Stop(key, b, d), b - 1);
    assert Stop(key, a, d)[..a] == Stop(key, a, d) && Stop(key, a, d)[..a - 1] == key[..a - 1];
    assert Stop(key, b, d)[..b] == Stop(key, b, d) && Stop(key, b, d)[..b - 1] == key[..b - 1];
  }

  lemma {:induction false} FlatGrows(key: seq<string>, a: nat, b: nat)
    requires a <= b <= |key|
    ensures |Flat(key[..a])| <= |Flat(key[..b])|
    decreases b
  {
    if a < b {
      FlatGrows(key, a, b - 1);
      FlatTake(key, b - 1);
    }
  }

  lemma OneEnd(key: seq<string>, d: char, keycnt: nat, maxklen: nat, bodylen: nat)
    requires KeyOk(key, bodylen) && bodylen > 2 && forall i | 0 <= i < |key| :: key[i] != ""
    ensures forall e | 0 < e <= |key| && EndsFit(key, e, d, keycnt, maxklen) :: Accepted(key, d, keycnt, maxklen) && e == Boundary(key, d, keycnt, maxklen)
  {
    hide EndsFit, KeyOk;
    forall e | 0 < e <= |key| && EndsFit(key, e, d, keycnt, maxklen)
      ensures Accepted(key, d, keycnt, maxklen) && e == Boundary(key, d, keycnt, maxklen)
    {
      var n := Boundary(key, d, keycnt, maxklen);
      if n < e { EndsOnce(key, n, e, d, keycnt, maxklen, bodylen); }
      if e < n { EndsOnce(key, e, n, d, keycnt, maxklen, bodylen); }
    }
  }

  /** When the pool runs out on the way, it has too few blocks for all. */
  lemma OutEarly(key: seq<string>, end: nat, d: char, keycnt: nat, maxklen: nat, bodylen: nat, avail: nat)
    requires key != [] && (forall i | 0 <= i < |key| :: key[i] != "") && Accepted(key, d, keycnt, maxklen)
    requires RunsOut(key, end, d, keycnt, maxklen, bodylen, avail) && end < Boundary(key, d, keycnt, maxklen)
    ensures Need(key, Boundary(key, d, keycnt, maxklen), d, bodylen) > avail
  {
    hide Need, FullAt, EndsFit, Accepted;
    NeedMore(key, end, Boundary(key, d, keycnt, maxklen), d, bodylen);
  }

  /** What is left to stitch when all tokens were read. */
  lemma FinalCost(key: seq<string>, end: nat, d: char, segs: seq<Seg>, all: seq<string>, bodylen: nat)
    requires 0 < end <= |key| && (forall i | 0 <= i < |key| :: key[i] != "") && Ends(key, end, d) && Batched(key, end - 1, d, segs)
    requires Split(Flat(Stop(key, end, d)), d) == all && forall k | 0 <= k < |segs| :: segs[k].idx < |all|
    ensures Need(key, end, d, bodylen) == if segs == [] then 0 else Spent(key, end - 1, d, bodylen) + Cost(segs, all, bodylen)
  {
    hide Split, Flat, Stop, Ends, Need, Spent, Cost, Packed, CutLengths, Batched, Stitched;
    StopTokens(key, end, d);
    forall k | 0 <= k < |segs|
      ensures segs[k].idx < |Split(Flat(key), d)| && all[segs[k].idx] == Split(Flat(key), d)[segs[k].idx]
    {
      assert all[segs[k].idx] == Split(Flat(key), d)[..|all|][segs[k].idx];
    }
    CutCost(key, end - 1, d, segs, all, bodylen);
    NeedSpent(key, end - 1, d, bodylen);
  }

  lemma FinalFits(key: seq<string>, end: nat, d: char, keycnt: nat, maxklen: nat, all: seq<string>)
    requires 0 < end <= |key| && (forall i | 0 <= i < |key| :: key[i] != "") && Ends(key, end, d)
    requires Clean(Flat(Stop(key, end, d)), d) && Split(Flat(Stop(key, end, d)), d) == all && |all| == keycnt
    ensures Short(all, maxklen) ==> EndsFit(key, end, d, keycnt, maxklen)
  {
    hide Split, Flat, Stop, Ends, Clean;
  }

  lemma OutAtEnd(key: seq<string>, end: nat, d: char, keycnt: nat, maxklen: nat, bodylen: nat, avail: nat)
    requires 0 < end <= |key| && (forall i | 0 <= i < |key| :: key[i] != "")
    requires EndsFit(key, end, d, keycnt, maxklen) && Need(key, end, d, bodylen) > avail
    ensures RunsOut(key, end, d, keycnt, maxklen, bodylen, avail)
  {
    hide EndsFit, Need, FullAt;
  }

  /** The tokens are short if those are that were cut. */
  lemma AllShort(blocks: seq<string>, tokens: seq<Token>, segs: seq<Seg>, all: seq<string>, maxklen: nat)
    requires Pieces(blocks, tokens, segs, all) && ShortTokens(tokens, maxklen) && forall k | 0 <= k < |segs| :: segs[k].idx < |tokens|
    ensures (forall k | 0 <= k < |segs| :: |all[segs[k].idx]| <= maxklen) ==> Short(all, maxklen)
  {
    hide Text, SegText;
    if forall k | 0 <= k < |segs| :: |all[segs[k].idx]| <= maxklen {
      forall i: nat | i < |all|
        ensures |all[i]| <= maxklen
      {
        assert all[i] == SegText(blocks, segs, i) + Text(blocks, tokens[i]);
        TextLen(blocks, tokens[i]);
        if k :| 0 <= k < |segs| && segs[k].idx == i {
        } else {
          SegTextNone(blocks, segs, i);
        }
      }
    }
  }

  lemma AcceptsFitting(key: seq<string>, keycnt: nat, maxklen: nat)
    requires key != [] && forall i | 0 <= i < |key| :: key[i] != ""
    ensures Fits(Flat(key), ' ', keycnt, maxklen) ==> Accepted(key, ' ', keycnt, maxklen)
    ensures Fits(Flat(key), ',', keycnt, maxklen) ==> Accepted(key, ',', keycnt, maxklen)
  {
    hide Flat, Fits, Accepted;
    if Fits(Flat(key), ' ', keycnt, maxklen) { FitsAccepted(key, ' ', keycnt, maxklen); }
    if Fits(Flat(key), ',', keycnt, maxklen) { FitsAccepted(key, ',', keycnt, maxklen); }
  }

  /** With commas in mind, the first block holds no space. */
  lemma CommasFirst(key: seq<string>, keycnt: nat, maxklen: nat)
    requires key != [] && forall i | 0 <= i < |key| :: key[i] != ""
    ensures Accepted(key, ',', keycnt, maxklen) ==> |key| == 1 || ' ' !in key[0]
    ensures Trips(key, ',', keycnt, maxklen) ==> |key| > 1 && ' ' !in key[0]
    ensures Trips(key, ' ', keycnt, maxklen) ==> |key| > 1
  {
    hide Checked, PartsShort, Clean, Split, Flat, EndsFit;
    if |key| > 1 && Accepted(key, ',', keycnt, maxklen) { AcceptedNoSpace(key, keycnt, maxklen); }
    if Trips(key, ',', keycnt, maxklen) { TripsNoSpace(key, keycnt, maxklen); }
  }

  lemma NotShort(segs: seq<Seg>, all: seq<string>, maxklen: nat)
    requires (forall k | 0 <= k < |segs| :: segs[k].idx < |all|) && exists k | 0 <= k < |segs| :: |all[segs[k].idx]| > maxklen
    ensures !Short(all, maxklen)
  {}

  /** A front that ends with a token has the first tokens of the key string. */
  lemma StopTokens(key: seq<string>, n: nat, d: char)
    requires 0 < n <= |key| && (forall i | 0 <= i < |key| :: key[i] != "") && Ends(key, n, d)
    ensures var a, f := Split(Flat(Stop(key, n, d)), d), Split(Flat(key), d); |a| <= |f| && a == f[..|a|]
  {
    hide Split, Flat;
    var g := Flat(Stop(key, n, d));
    var f := Flat(key);
    if n == |key| {
      assert Stop(key, n, d) == key;
      assert Split(f, d)[..|Split(f, d)|] == Split(f, d);
    } else {
      var z := StopRest(key, n, d);
      SplitApart(g, z, d);
    }
  }

  /** Behind such a front comes a delimiter. */
  lemma StopRest(key: seq<string>, n: nat, d: char) returns (z: string)
    requires 0 < n < |key| && (forall i | 0 <= i < |key| :: key[i] != "") && Ends(key, n, d)
    ensures Flat(key) == Flat(Stop(key, n, d)) + [d] + z
  {
    hide Flat;
    var f, g := Flat(key), Stop(key, n, d);
    FlatTake(key, n - 1);
    FlatTake(key, n);
    FlatPrefix(key, n);
    FlatPrefix(key, n + 1);
    if Cut(key, n - 1, d) {
      assert g == key[..n];
      assert key[n] == [d] + key[n][1..];
      z := key[n][1..] + f[|Flat(key[..n + 1])|..];
      assert f == Flat(key[..n + 1]) + f[|Flat(key[..n + 1])|..];
    } else {
      var b := key[n - 1];
      FlatTake(g, n - 1);
      assert g[..n] == g && g[..n - 1] == key[..n - 1];
      assert b == b[..|b| - 1] + [d];
      z := f[|Flat(key[..n])|..];
      assert f == Flat(key[..n]) + z;
    }
  }

  /** What a pass has read is accepted if the tokens, made whole, are short. */
  lemma PassAccepted(key: seq<string>, n: nat, d: char, keycnt: nat, maxklen: nat, all: seq<string>)
    requires 0 < n <= |key| && (forall i | 0 <= i < |key| :: key[i] != "") && Ends(key, n, d)
    requires Clean(Flat(Stop(key, n, d)), d) && Split(Flat(Stop(key, n, d)), d) == all && |all| == keycnt
    ensures Accepted(key, d, keycnt, maxklen) <==> Short(all, maxklen)
    ensures Short(all, maxklen) ==> Tokenized(key, d, keycnt, maxklen, all)
  {
    hide Split, Flat, Ends, Stop;
    StopTokens(key, n, d);
    if Short(all, maxklen) { assert EndsFit(key, n, d, keycnt, maxklen); }
    if Accepted(key, d, keycnt, maxklen) {
      var c :| 0 < c <= |key| && EndsFit(key, c, d, keycnt, maxklen);
      StopTokens(key, c, d);
    }
  }

  lemma PiecesOnly(blocks: seq<string>, tokens: seq<Token>, all: seq<string>)
    requires Pieces(blocks, tokens, [], all)
    ensures AllInside(blocks, tokens) && Texts(blocks, tokens) == all
  {
    hide Text;
    forall i: nat | i < |all|
      ensures Text(blocks, tokens[i]) == all[i]
    {
      assert all[i] == SegText(blocks, [], i) + Text(blocks, tokens[i]);
    }
    assert |Texts(blocks, tokens)| == |all|;
  }

  lemma TokensShort(blocks: seq<string>, tokens: seq<Token>, maxklen: nat)
    requires AllInside(blocks, tokens) && ShortTokens(tokens, maxklen)
    ensures Short(Texts(blocks, tokens), maxklen)
  {
    forall i | 0 <= i < |tokens|
      ensures |Texts(blocks, tokens)[i]| <= maxklen
    {
      TextsAt(blocks, tokens, i);
    }
  }
}
