/** Putting tokens together that a block boundary cut in two (mc_util.c, concat_segmented_tokens). */
module Stitching {
  import opened Tokenizer

  datatype Code = Success | BadValue | NoMemory | Aborted

  /** The first piece of a token that continues in the next block, and the index of the token. */
  datatype Seg = Seg(tok: Token, idx: nat)

  predicate SegsOk(blocks: seq<string>, segs: seq<Seg>, ntokens: nat) {
    && (forall k | 0 <= k < |segs| :: Inside(blocks, segs[k].tok) && segs[k].idx < ntokens)
    && (forall j, k | 0 <= j < k < |segs| :: segs[j].idx < segs[k].idx)
  }

  /** The saved first piece of token `i`, if it has one. */
  function SegText(blocks: seq<string>, segs: seq<Seg>, i: nat): string
    requires forall k | 0 <= k < |segs| :: Inside(blocks, segs[k].tok)
  {
    if segs == [] then ""
    else if segs[|segs| - 1].idx == i then Text(blocks, segs[|segs| - 1].tok)
    else SegText(blocks, segs[..|segs| - 1], i)
  }

  function Lens(tokens: seq<Token>, segs: seq<Seg>): (r: seq<nat>)
    requires forall k | 0 <= k < |segs| :: segs[k].idx < |tokens|
    ensures |r| == |segs|
  {
    seq(|segs|, k requires 0 <= k < |segs| => segs[k].tok.len + tokens[segs[k].idx].len)
  }

  /** Blocks used and bytes used in the last one, when strings of these lengths are packed one after the other. */
  function Packed(lens: seq<nat>, bodylen: nat): (r: (nat, nat))
    ensures r.0 > 0
  {
    if lens == [] then (1, 0)
    else
      var l := lens[|lens| - 1];
      var p := Packed(lens[..|lens| - 1], bodylen);
      if p.1 + l > bodylen then (p.0 + 1, l) else (p.0, p.1 + l)
  }

  lemma PackedNext(lens: seq<nat>, k: nat, bodylen: nat)
    requires k < |lens|
    ensures var p := Packed(lens[..k], bodylen);
            Packed(lens[..k + 1], bodylen) == if p.1 + lens[k] > bodylen then (p.0 + 1, lens[k]) else (p.0, p.1 + lens[k])
  {
    assert lens[..k + 1][..k] == lens[..k];
  }

  /** Blocks used and bytes in the last one, when a new block is begun before the strings that are marked. */
  function Divided(lens: seq<nat>, begins: seq<bool>): (r: (nat, nat))
    requires |begins| == |lens|
  {
    if lens == [] then (1, 0)
    else
      var n := |lens| - 1;
      var p := Divided(lens[..n], begins[..n]);
      if begins[n] then (p.0 + 1, lens[n]) else (p.0, p.1 + lens[n])
  }

  /** No block takes more than its length. */
  ghost predicate AllFit(lens: seq<nat>, begins: seq<bool>, bodylen: nat)
    requires |begins| == |lens|
  {
    forall k | 0 <= k <= |lens| :: Divided(lens[..k], begins[..k]).1 <= bodylen
  }

  /** No way to pack the strings in this order takes fewer blocks. */
  lemma {:induction false} PackedLeast(lens: seq<nat>, begins: seq<bool>, bodylen: nat)
    requires |begins| == |lens| && AllFit(lens, begins, bodylen)
    ensures var p, q := Packed(lens, bodylen), Divided(lens, begins); p.0 < q.0 || (p.0 == q.0 && p.1 <= q.1)
    decreases |lens|
  {
    if lens != [] {
      var n := |lens| - 1;
      var front, marks := lens[..n], begins[..n];
      forall k | 0 <= k <= n
        ensures Divided(front[..k], marks[..k]).1 <= bodylen
      {
        assert front[..k] == lens[..k] && marks[..k] == begins[..k];
      }
      PackedLeast(front, marks, bodylen);
      assert lens[..n + 1] == lens && begins[..n + 1] == begins;
      assert Divided(lens[..n + 1], begins[..n + 1]).1 <= bodylen;
    }
  }

  /** And strings that fit in a block are packed so that they do. */
  lemma {:induction false} PackedFits(lens: seq<nat>, bodylen: nat) returns (begins: seq<bool>)
    requires forall k | 0 <= k < |lens| :: lens[k] <= bodylen
    ensures |begins| == |lens| && AllFit(lens, begins, bodylen) && Divided(lens, begins) == Packed(lens, bodylen)
    decreases |lens|
  {
    if lens == [] {
      begins := [];
    } else {
      var n := |lens| - 1;
      var marks := PackedFits(lens[..n], bodylen);
      begins := marks + [Packed(lens[..n], bodylen).1 + lens[n] > bodylen];
      assert begins[..n] == marks;
      forall k | 0 <= k <= |lens|
        ensures Divided(lens[..k], begins[..k]).1 <= bodylen
      {
        if k <= n {
          assert lens[..n][..k] == lens[..k] && marks[..k] == begins[..k];
        } else {
          assert lens[..k] == lens && begins[..k] == begins;
        }
      }
    }
  }

  /** The first pass: check the lengths and count the blocks. */
  method CountBlocks(tokens: seq<Token>, segs: seq<Seg>, maxklen: nat, bodylen: nat) returns (ok: bool, numblks: nat)
    requires forall k | 0 <= k < |segs| :: segs[k].idx < |tokens|
    ensures ok <==> forall k | 0 <= k < |segs| :: Lens(tokens, segs)[k] <= maxklen
    ensures ok ==> numblks == Packed(Lens(tokens, segs), bodylen).0
  {
    hide Packed;
    ghost var lens := Lens(tokens, segs);
    ok, numblks := true, 1;
    var datalen := 0;
    PackedNone(bodylen);
    assert lens[..0] == [];
    for i := 0 to |segs|
      invariant ok && (numblks, datalen) == Packed(lens[..i], bodylen)
      invariant forall k | 0 <= k < i :: lens[k] <= maxklen
    {
      var complen := segs[i].tok.len + tokens[segs[i].idx].len;
      assert complen == lens[i];
      if complen > maxklen { return false, numblks; }
      PackedNext(lens, i, bodylen);
      if datalen + complen > bodylen {
        numblks := numblks + 1;
        datalen := complen;
      } else {
        datalen := datalen + complen;
      }
    }
    assert lens[..|segs|] == lens;
  }

  lemma PackedNone(bodylen: nat)
    ensures Packed([], bodylen) == (1, 0)
  {}

  /** Blocks gain text at their ends, and new blocks come behind them. */
  predicate Extends(a: seq<string>, b: seq<string>) {
    |a| <= |b| && forall i | 0 <= i < |a| :: a[i] <= b[i]
  }

  lemma TextKept(a: seq<string>, b: seq<string>, t: Token)
    requires Extends(a, b) && Inside(a, t)
    ensures Inside(b, t) && Text(b, t) == Text(a, t)
  {
    assert a[t.blk] <= b[t.blk];
    assert b[t.blk][..|a[t.blk]|] == a[t.blk];
    assert b[t.blk][t.off..t.off + t.len] == a[t.blk][t.off..t.off + t.len];
  }

  /** Where the next string goes. */
  function Place(added: seq<string>, text: string, bodylen: nat): (r: seq<string>)
    requires added != []
    ensures r != []
  {
    var n := |added| - 1;
    if |added[n]| + |text| > bodylen then added + [text] else added[n := added[n] + text]
  }

  function PlacedAt(base: nat, added: seq<string>, text: string, bodylen: nat): Token
    requires added != []
  {
    var n := |added| - 1;
    if |added[n]| + |text| > bodylen then Token(base + n + 1, 0, |text|) else Token(base + n, |added[n]|, |text|)
  }

  lemma PlaceText(blocks: seq<string>, added: seq<string>, text: string, bodylen: nat)
    requires added != []
    ensures var all := blocks + Place(added, text, bodylen); var t := PlacedAt(|blocks|, added, text, bodylen);
            Extends(blocks + added, all) && Inside(all, t) && Text(all, t) == text
  {
    var all := blocks + Place(added, text, bodylen);
    var n := |added| - 1;
    forall i | 0 <= i < |blocks + added|
      ensures (blocks + added)[i] <= all[i]
    {
      if i < |blocks| { assert all[i] == blocks[i]; } else { assert all[i] == Place(added, text, bodylen)[i - |blocks|]; }
    }
    if |added[n]| + |text| > bodylen {
      assert all[|blocks| + n + 1] == text;
    } else {
      assert all[|blocks| + n] == added[n] + text;
    }
  }

  /** Every token reads as its saved piece, if any, and what the token array says. */
  predicate Whole(oldBlocks: seq<string>, tokens: seq<Token>, segs: seq<Seg>, blocks: seq<string>, now: seq<Token>)
    requires AllInside(oldBlocks, tokens) && forall k | 0 <= k < |segs| :: Inside(oldBlocks, segs[k].tok)
  {
    && |now| == |tokens| && AllInside(blocks, now)
    && forall i: nat | i < |tokens| :: Text(blocks, now[i]) == SegText(oldBlocks, segs, i) + Text(oldBlocks, tokens[i])
  }

  /** Token `segs[k].idx` is whole once its text was placed. */
  lemma WholeNext(blocks: seq<string>, tokens: seq<Token>, segs: seq<Seg>, k: nat, mid: seq<string>, now: seq<Token>, all: seq<string>, t: Token)
    requires AllInside(blocks, tokens) && SegsOk(blocks, segs, |tokens|) && k < |segs|
    requires Whole(blocks, tokens, segs[..k], mid, now) && Extends(mid, all) && Inside(all, t)
    requires Text(all, t) == Text(blocks, segs[k].tok) + Text(blocks, tokens[segs[k].idx])
    ensures Whole(blocks, tokens, segs[..k + 1], all, now[segs[k].idx := t])
  {
    hide Text;
    var after := now[segs[k].idx := t];
    assert segs[..k + 1][..k] == segs[..k];
    forall i | 0 <= i < |after|
      ensures Inside(all, after[i])
      ensures Text(all, after[i]) == SegText(blocks, segs[..k + 1], i) + Text(blocks, tokens[i])
    {
      if i != segs[k].idx { TextKept(mid, all, now[i]); }
    }
  }

  /** No earlier piece belongs to token `segs[k].idx`. */
  lemma {:induction false} SegTextNone(blocks: seq<string>, segs: seq<Seg>, i: nat)
    requires forall k | 0 <= k < |segs| :: Inside(blocks, segs[k].tok) && segs[k].idx != i
    ensures SegText(blocks, segs, i) == ""
  {
    if segs != [] { SegTextNone(blocks, segs[..|segs| - 1], i); }
  }

  /** The second pass: copy both pieces of every cut token behind one another. */
  method Copy(blocks: seq<string>, tokens: seq<Token>, segs: seq<Seg>, maxklen: nat, bodylen: nat, numblks: nat)
    returns (added: seq<string>, now: seq<Token>)
    requires AllInside(blocks, tokens) && SegsOk(blocks, segs, |tokens|) && maxklen <= bodylen
    requires forall k | 0 <= k < |segs| :: Lens(tokens, segs)[k] <= maxklen
    requires numblks == Packed(Lens(tokens, segs), bodylen).0
    ensures |added| == numblks && forall i | 0 <= i < |added| :: |added[i]| <= bodylen
    ensures Whole(blocks, tokens, segs, blocks + added, now)
  {
    hide Packed, Text, Whole;
    ghost var lens := Lens(tokens, segs);
    added, now := [""], tokens;
    PackedNone(bodylen);
    assert lens[..0] == [] && segs[..0] == [];
    WholeStart(blocks, tokens, blocks + added);
    for i := 0 to |segs|
      invariant added != [] && (|added|, |added[|added| - 1]|) == Packed(lens[..i], bodylen)
      invariant forall k | 0 <= k < |added| :: |added[k]| <= bodylen
      invariant Whole(blocks, tokens, segs[..i], blocks + added, now) && |now| == |tokens|
      invariant forall k | i <= k < |segs| :: now[segs[k].idx] == tokens[segs[k].idx]
    {
      var idx := segs[i].idx;
      var text := Text(blocks, segs[i].tok) + Text(blocks, now[idx]);
      TextLen(blocks, segs[i].tok);
      TextLen(blocks, now[idx]);
      assert |text| == lens[i];
      PackedNext(lens, i, bodylen);
      PlaceText(blocks, added, text, bodylen);
      var t := PlacedAt(|blocks|, added, text, bodylen);
      WholeNext(blocks, tokens, segs, i, blocks + added, now, blocks + Place(added, text, bodylen), t);
      added := Place(added, text, bodylen);
      now := now[idx := t];
    }
    assert lens[..|segs|] == lens && segs[..|segs|] == segs;
  }

  lemma TextLen(blocks: seq<string>, t: Token)
    requires Inside(blocks, t)
    ensures |Text(blocks, t)| == t.len
  {}

  lemma WholeStart(blocks: seq<string>, tokens: seq<Token>, all: seq<string>)
    requires AllInside(blocks, tokens) && blocks <= all
    ensures Whole(blocks, tokens, [], all, tokens)
  {
    hide Text;
    assert Extends(blocks, all);
    forall i | 0 <= i < |tokens|
      ensures Inside(all, tokens[i]) && Text(all, tokens[i]) == "" + Text(blocks, tokens[i])
    {
      TextKept(blocks, all, tokens[i]);
    }
  }

  /**
   * concat_segmented_tokens with `avail` blocks to be had: exactly as many new
   * blocks are used as were counted.
   */
  method Concat(blocks: seq<string>, tokens: seq<Token>, segs: seq<Seg>, maxklen: nat, bodylen: nat, avail: nat)
    returns (code: Code, added: seq<string>, now: seq<Token>)
    requires AllInside(blocks, tokens) && SegsOk(blocks, segs, |tokens|) && maxklen <= bodylen
    ensures code == BadValue <==> exists k :: 0 <= k < |segs| && Lens(tokens, segs)[k] > maxklen
    ensures code == NoMemory <==> code != BadValue && Packed(Lens(tokens, segs), bodylen).0 > avail
    ensures code != Aborted && (code != Success ==> added == [] && now == tokens)
    ensures code == Success ==>
              && |added| == Packed(Lens(tokens, segs), bodylen).0 && (forall i | 0 <= i < |added| :: |added[i]| <= bodylen)
              && Whole(blocks, tokens, segs, blocks + added, now)
  {
    hide Packed, Text, Whole;
    var ok, numblks := CountBlocks(tokens, segs, maxklen, bodylen);
    if !ok { return BadValue, [], tokens; }
    if numblks > avail { return NoMemory, [], tokens; }
    added, now := Copy(blocks, tokens, segs, maxklen, bodylen, numblks);
    code := Success;
  }
}
