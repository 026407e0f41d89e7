/** A key string held in blocks: what is tokenized of each, and when the whole is accepted (mc_util.c, tokenize_mblocks). */
module KeyBlocks {
  import opened Splitting
  import opened Tokenizer

  /** SEGTOK_ARRAY_SIZE. */
  const SEGTOKS: nat := 128

  /** The key string that the blocks hold. */
  function Flat(key: seq<string>): string {
    if key == [] then "" else Flat(key[..|key| - 1]) + key[|key| - 1]
  }

  /** All blocks are full, but for the last one. */
  predicate KeyOk(key: seq<string>, bodylen: nat) {
    && key != [] && (forall i | 0 <= i < |key| - 1 :: |key[i]| == bodylen)
    && 0 < |key[|key| - 1]| <= bodylen
  }

  /** What lies before offset `off` of block `c`. */
  function Front(key: seq<string>, c: nat, off: nat): string
    requires c < |key| && off <= |key[c]|
  {
    Flat(key[..c]) + key[c][..off]
  }

  /** A block that does not end in a delimiter, with another block behind it. */
  predicate Cut(key: seq<string>, c: nat, d: char)
    requires c < |key| && key[c] != ""
  {
    c < |key| - 1 && key[c][|key[c]| - 1] != d
  }

  function PartLen(key: seq<string>, c: nat, off: nat, d: char): int
    requires c < |key| && key[c] != "" && off <= |key[c]|
  {
    |key[c]| - off - if c < |key| - 1 && !Cut(key, c, d) then 1 else 0
  }

  /** What is tokenized of block `c`: from `off` on, without the delimiter that ends it. */
  function Part(key: seq<string>, c: nat, off: nat, d: char): string
    requires c < |key| && key[c] != "" && off <= |key[c]| && PartLen(key, c, off, d) >= 0
  {
    key[c][off..off + PartLen(key, c, off, d)]
  }

  predicate Short(ts: seq<string>, maxklen: nat) { forall i | 0 <= i < |ts| :: |ts[i]| <= maxklen }

  /**
   * Where the block loop stands: the tokens `done` are complete, `pend` is the
   * first piece of a token that block `c` continues, or empty.
   */
  predicate At(key: seq<string>, c: nat, off: nat, d: char, done: seq<string>, pend: string) {
    && c < |key| && key[c] != "" && off <= 1 && off <= |key[c]|
    && Split(Front(key, c, off), d) == done + [pend]
    && NonEmpty(done) && (d == ' ' || ' ' !in Front(key, c, off))
    && (pend != "" ==> off == 0 && key[c][0] != d) && (off == 1 ==> key[c][0] == d)
  }

  lemma {:induction false} FlatTake(key: seq<string>, c: nat)
    requires c < |key|
    ensures Flat(key[..c + 1]) == Flat(key[..c]) + key[c]
  {
    assert key[..c + 1][..c] == key[..c];
  }

  /** The part, its delimiter if there was one, and the front make the next front. */
  lemma FrontNext(key: seq<string>, c: nat, off: nat, d: char)
    requires c + 1 < |key| && key[c] != "" && key[c + 1] != "" && off <= |key[c]| && PartLen(key, c, off, d) >= 0
    ensures var p := Front(key, c, off) + Part(key, c, off, d);
            if Cut(key, c, d) then Front(key, c + 1, 0) == p && (key[c + 1][0] == d ==> Front(key, c + 1, 1) == p + [d])
            else Front(key, c + 1, 0) == p + [d]
  {
    hide Flat;
    FlatTake(key, c);
    var b, n := key[c], |key[c]|;
    assert key[c + 1][..0] == "" && (key[c + 1][0] == d ==> key[c + 1][..1] == [d]);
    if Cut(key, c, d) {
      assert b == b[..off] + b[off..n];
    } else {
      assert b == b[..off] + b[off..n - 1] + [d];
    }
    assert Flat(key[..c + 1]) + "" == Flat(key[..c + 1]);
  }

  lemma FrontLast(key: seq<string>, off: nat, d: char)
    requires key != [] && key[|key| - 1] != "" && off <= |key[|key| - 1]|
    ensures var c := |key| - 1; PartLen(key, c, off, d) >= 0 && Front(key, c, off) + Part(key, c, off, d) == Flat(key)
  {
    hide Flat;
    var c := |key| - 1;
    FlatTake(key, c);
    assert key[..c + 1] == key && key[c] == key[c][..off] + key[c][off..];
  }

  /** The tokens after one more part. */
  function Joined(done: seq<string>, pend: string, xs: seq<string>): (all: seq<string>)
    requires |xs| > 0
    ensures |all| == |done| + |xs|
  {
    Glue(done + [pend], xs)
  }

  lemma PartSplit(key: seq<string>, c: nat, off: nat, d: char, done: seq<string>, pend: string)
    requires At(key, c, off, d, done, pend) && PartLen(key, c, off, d) >= 0 && Clean(Part(key, c, off, d), d)
    ensures var x := Part(key, c, off, d); var all := Joined(done, pend, Split(x, d));
            && Split(Front(key, c, off) + x, d) == all && NonEmpty(all) && (d == ' ' || ' ' !in Front(key, c, off) + x)
            && Split(Front(key, c, off) + x + [d], d) == all + [""]
  {
    hide Split, Front, Part;
    var x := Part(key, c, off, d);
    SplitGlue(Front(key, c, off), x, d);
    SplitApart(Front(key, c, off) + x, "", d);
    var xs := Split(x, d);
    var all := Joined(done, pend, xs);
    forall i | 0 <= i < |all|
      ensures all[i] != ""
    {
      assert all[i] == if i < |done| then done[i] else if i == |done| then pend + xs[0] else xs[i - |done|];
    }
  }

  lemma AtNext(key: seq<string>, c: nat, off: nat, d: char, done: seq<string>, pend: string, off': nat)
    requires At(key, c, off, d, done, pend) && PartLen(key, c, off, d) >= 0 && Clean(Part(key, c, off, d), d)
    requires c + 1 < |key| && key[c + 1] != "" && off' == (if Cut(key, c, d) then 1 else 0) && (off' == 1 ==> key[c + 1][0] == d)
    ensures At(key, c + 1, off', d, Joined(done, pend, Split(Part(key, c, off, d), d)), "")
  {
    hide Split, Front, Part, Joined;
    PartSplit(key, c, off, d, done, pend);
    FrontNext(key, c, off, d);
  }

  lemma AtCut(key: seq<string>, c: nat, off: nat, d: char, done: seq<string>, pend: string)
    requires At(key, c, off, d, done, pend) && PartLen(key, c, off, d) >= 0 && Clean(Part(key, c, off, d), d)
    requires c + 1 < |key| && key[c + 1] != "" && Cut(key, c, d) && key[c + 1][0] != d
    ensures var all := Joined(done, pend, Split(Part(key, c, off, d), d)); var n := |all| - 1;
            all[n] != "" && At(key, c + 1, 0, d, all[..n], all[n])
  {
    hide Split, Front, Part, Joined;
    PartSplit(key, c, off, d, done, pend);
    FrontNext(key, c, off, d);
    var all := Joined(done, pend, Split(Part(key, c, off, d), d));
    var n := |all| - 1;
    assert all == all[..n] + [all[n]];
  }

  /** A key string with exactly `keycnt` tokens, none empty and none too long. */
  predicate Fits(f: string, d: char, keycnt: nat, maxklen: nat) {
    Clean(f, d) && |Split(f, d)| == keycnt && Short(Split(f, d), maxklen)
  }

  lemma {:induction false} FlatPrefix(key: seq<string>, k: nat)
    requires k <= |key|
    ensures Flat(key[..k]) <= Flat(key)
  {
    if k == |key| {
      assert key[..k] == key;
    } else {
      var n := |key| - 1;
      FlatPrefix(key[..n], k);
      assert key[..n][..k] == key[..k];
    }
  }

  /** What follows the part. */
  lemma FlatRest(key: seq<string>, c: nat, off: nat, d: char) returns (y: string)
    requires c < |key| && key[c] != "" && off <= |key[c]| && PartLen(key, c, off, d) >= 0
    ensures Flat(key) == Front(key, c, off) + Part(key, c, off, d) + y
    ensures c == |key| - 1 ==> y == ""
    ensures c < |key| - 1 && !Cut(key, c, d) ==> y != "" && y[0] == d
  {
    hide Flat;
    FlatTake(key, c);
    FlatPrefix(key, c + 1);
    var b, n := key[c], PartLen(key, c, off, d);
    var z := Flat(key)[|Flat(key[..c + 1])|..];
    y := b[off + n..] + z;
    assert b == b[..off] + b[off..off + n] + b[off + n..];
    assert Flat(key) == Flat(key[..c]) + b + z;
    if c == |key| - 1 { assert key[..c + 1] == key; }
  }

  lemma {:induction false} SplitEnds(x: string, d: char)
    requires x != ""
    ensures var r := Split(x, d);
            && (x[|x| - 1] != d ==> r[|r| - 1] != "") && (x[0] != d ==> r[0] != "") && (x[0] == d ==> r[0] == "")
            && (|r| == 1 ==> r[0] == x)
  {
    var n := |x| - 1;
    if n > 0 {
      SplitEnds(x[..n], d);
    } else {
      assert x == [x[0]];
    }
  }

  /** The tokens of a string that is put together from three. */
  lemma SplitThree(p: string, x: string, y: string, d: char, done: seq<string>, pend: string)
    requires Split(p, d) == done + [pend]
    ensures Split(p + x + y, d) == Glue(Joined(done, pend, Split(x, d)), Split(y, d))
  {
    hide Split, Glue;
    SplitGlue(p, x, d);
    SplitGlue(p + x, y, d);
  }

  /** Pieces of the part are pieces of tokens, whole ones but for the ends. */
  lemma JoinedAt(done: seq<string>, pend: string, xs: seq<string>, ys: seq<string>, i: nat)
    requires |xs| > 0 && |ys| > 0 && i < |xs|
    ensures Glue(Joined(done, pend, xs), ys)[|done| + i] ==
              (if i == 0 then pend else "") + xs[i] + (if i == |xs| - 1 then ys[0] else "")
  {
    var all := Joined(done, pend, xs);
    assert all[|done| + i] == (if i == 0 then pend else "") + xs[i];
  }

  /** If the key string is clean, so is every part of it, and the tokens before the last are final. */
  lemma PartClean(key: seq<string>, c: nat, off: nat, d: char, done: seq<string>, pend: string)
    requires At(key, c, off, d, done, pend) && PartLen(key, c, off, d) >= 0
    requires PartLen(key, c, off, d) == 0 ==> c == |key| - 1 && off == 1
    requires Clean(Flat(key), d)
    ensures var x := Part(key, c, off, d); var xs, f := Split(x, d), Split(Flat(key), d); var all := Joined(done, pend, xs);
            && x != "" && Clean(x, d) && |all| <= |f| && (c == |key| - 1 ==> |all| == |f|)
            && (forall i | 0 <= i < |all| - 1 :: all[i] == f[i]) && all[|all| - 1] <= f[|all| - 1]
            && (forall i | 0 <= i < |xs| :: |xs[i]| <= |f[|done| + i]|)
  {
    hide Split, Front, Flat, Part, Glue, Joined;
    var x := Part(key, c, off, d);
    var y := FlatRest(key, c, off, d);
    var xs, ys, f := Split(x, d), Split(y, d), Split(Flat(key), d);
    SplitThree(Front(key, c, off), x, y, d, done, pend);
    if y != "" { SplitEnds(y, d); } else { SplitNothing(d); }
    PartEmpty(key, c, off, d);
    JoinedAt(done, pend, xs, ys, 0);
    assert f[|done|] != "";
    if x == "" { SplitNothing(d); }
    SplitEnds(x, d);
    PartEnds(key, c, off, d);
    forall i | 0 <= i < |xs|
      ensures xs[i] != "" && |xs[i]| <= |f[|done| + i]|
    {
      JoinedAt(done, pend, xs, ys, i);
      assert f[|done| + i] != "";
    }
    assert ' ' !in Flat(key) ==> ' ' !in x;
    GlueFinal(Joined(done, pend, xs), ys);
  }

  lemma GlueFinal(a: seq<string>, b: seq<string>)
    requires |a| > 0 && |b| > 0
    ensures var g := Glue(a, b); (forall i | 0 <= i < |a| - 1 :: a[i] == g[i]) && a[|a| - 1] <= g[|a| - 1]
  {}

  /** If the key string fits, so does every part of it. */
  lemma PartFits(key: seq<string>, c: nat, off: nat, d: char, done: seq<string>, pend: string, keycnt: nat, maxklen: nat)
    requires At(key, c, off, d, done, pend) && PartLen(key, c, off, d) >= 0
    requires PartLen(key, c, off, d) == 0 ==> c == |key| - 1 && off == 1
    requires Fits(Flat(key), d, keycnt, maxklen)
    ensures var x := Part(key, c, off, d); var xs := Split(x, d);
            && x != "" && Clean(x, d) && |done| + |xs| <= keycnt && Short(xs, maxklen)
            && Short(Joined(done, pend, xs), maxklen) && (c == |key| - 1 ==> |done| + |xs| == keycnt)
  {
    hide Split, Front, Flat, Part, Joined;
    PartClean(key, c, off, d, done, pend);
    var xs, f := Split(Part(key, c, off, d), d), Split(Flat(key), d);
    var all := Joined(done, pend, xs);
    forall i | 0 <= i < |all|
      ensures |all[i]| <= maxklen
    {
      assert |f[i]| <= maxklen;
    }
    forall i | 0 <= i < |xs|
      ensures |xs[i]| <= maxklen
    {
      assert |f[|done| + i]| <= maxklen;
    }
  }

  lemma SplitNothing(d: char)
    ensures Split("", d) == [""]
  {}

  lemma PartEmpty(key: seq<string>, c: nat, off: nat, d: char)
    requires c < |key| && key[c] != "" && off <= |key[c]| && PartLen(key, c, off, d) >= 0
    ensures Part(key, c, off, d) == "" <==> PartLen(key, c, off, d) == 0
  {}

  /** How the part begins and ends. */
  lemma PartEnds(key: seq<string>, c: nat, off: nat, d: char)
    requires c < |key| && key[c] != "" && off <= |key[c]| && PartLen(key, c, off, d) > 0
    ensures var x := Part(key, c, off, d); x != "" && x[0] == key[c][off] && (Cut(key, c, d) ==> x[|x| - 1] != d)
  {}

  /** What the tokens must be in the end: the first `keycnt` tokens of the key string. */
  predicate Tokenized(key: seq<string>, d: char, keycnt: nat, maxklen: nat, texts: seq<string>) {
    var f := Split(Flat(key), d);
    keycnt <= |f| && texts == f[..keycnt] && NonEmpty(texts) && Short(texts, maxklen)
  }

  lemma NotCutTwice(key: seq<string>, c: nat, off: nat, d: char, bodylen: nat, maxklen: nat)
    requires c < |key| - 1 && |key[c]| == bodylen && off == 0 && maxklen < bodylen && Cut(key, c, d)
    requires Short(Split(Part(key, c, off, d), d), maxklen)
    ensures |Split(Part(key, c, off, d), d)| > 1
  {
    hide Split;
    var x := Part(key, c, off, d);
    SplitEnds(x, d);
    assert |x| == bodylen;
    var r := Split(x, d);
    assert |r[0]| <= maxklen;
  }

  /** Nothing to tokenize is left only of a last block that is one delimiter. */
  lemma LoneDelimiter(key: seq<string>, c: nat, off: nat, d: char, done: seq<string>, pend: string)
    requires At(key, c, off, d, done, pend) && PartLen(key, c, off, d) == 0 && (c < |key| - 1 ==> |key[c]| > 2)
    ensures c == |key| - 1 && key[c] == [d]
  {}

  /** Where a block's part begins: behind the delimiter that ends the token of the block before. */
  function Off(key: seq<string>, c: nat, d: char): (off: nat)
    requires c < |key| && forall i | 0 <= i < |key| :: key[i] != ""
    ensures off <= 1 <= |key[c]|
  {
    if c > 0 && Cut(key, c - 1, d) && key[c][0] == d then 1 else 0
  }

  /** A token ends where block `c` begins, or with the last block. */
  predicate Ends(key: seq<string>, c: nat, d: char)
    requires 0 < c <= |key| && forall i | 0 <= i < |key| :: key[i] != ""
  {
    c == |key| || !Cut(key, c - 1, d) || key[c][0] == d
  }

  /** The blocks before block `c`, without a delimiter at the end if others follow. */
  function Stop(key: seq<string>, c: nat, d: char): (goal: seq<string>)
    requires 0 < c <= |key| && forall i | 0 <= i < |key| :: key[i] != ""
    ensures |goal| == c
  {
    if c == |key| || Cut(key, c - 1, d) then key[..c]
    else key[..c - 1] + [key[c - 1][..|key[c - 1]| - 1]]
  }

  /** The key string up to a block boundary at which a token ends has exactly `keycnt` good tokens. */
  predicate EndsFit(key: seq<string>, c: nat, d: char, keycnt: nat, maxklen: nat)
    requires 0 < c <= |key| && forall i | 0 <= i < |key| :: key[i] != ""
  {
    Ends(key, c, d) && Fits(Flat(Stop(key, c, d)), d, keycnt, maxklen)
  }

  /** What is accepted: the key string fits, or it fits as far as some block boundary at which a token ends. */
  predicate Accepted(key: seq<string>, d: char, keycnt: nat, maxklen: nat)
    requires key != [] && forall i | 0 <= i < |key| :: key[i] != ""
  {
    exists c | 0 < c <= |key| :: EndsFit(key, c, d, keycnt, maxklen)
  }

  /** The tokens cut by the boundaries before block `c`, by index and in order. */
  function Cuts(key: seq<string>, c: nat, d: char): seq<nat>
    requires c < |key| && forall i | 0 <= i < |key| :: key[i] != ""
  {
    if c == 0 then []
    else Cuts(key, c - 1, d) + if Ends(key, c, d) then [] else [|Split(Flat(key[..c]), d)| - 1]
  }

  /** Of `n` tokens cut so far, how many were stitched while looping: all full arrays before the one in use. */
  function Stitched(n: nat): (k: nat)
    ensures k <= n && (n > 0 ==> 0 < n - k <= SEGTOKS) && k % SEGTOKS == 0
  {
    if n == 0 then 0 else (n - 1) / SEGTOKS * SEGTOKS
  }

  /** What is tokenized of a block. */
  function PartAt(key: seq<string>, c: nat, d: char): string
    requires c < |key| && forall i | 0 <= i < |key| :: key[i] != ""
  {
    if PartLen(key, c, Off(key, c, d), d) < 0 then "" else Part(key, c, Off(key, c, d), d)
  }

  predicate PartsShort(key: seq<string>, c: nat, d: char, maxklen: nat)
    requires c <= |key| && forall i | 0 <= i < |key| :: key[i] != ""
  {
    forall j | 0 <= j < c :: Short(Split(PartAt(key, j, d), d), maxklen)
  }

  /** The tokens that were stitched while looping are short. */
  predicate Checked(key: seq<string>, c: nat, d: char, tokens: seq<string>, maxklen: nat)
    requires c < |key| && forall i | 0 <= i < |key| :: key[i] != ""
  {
    var cs := Cuts(key, c, d);
    forall k | 0 <= k < Stitched(|cs|) :: cs[k] < |tokens| && |tokens[cs[k]]| <= maxklen
  }

  /**
   * When the assertion that a block has something to tokenize fails: the last
   * block is one delimiter, a token ends right before it, and the blocks in
   * front of it pass with too few tokens. A token cut by a block boundary counts
   * with the length of its pieces, unless it was stitched on the way.
   */
  predicate Trips(key: seq<string>, d: char, keycnt: nat, maxklen: nat)
    requires key != [] && forall i | 0 <= i < |key| :: key[i] != ""
  {
    var last := |key| - 1;
    && last > 0 && key[last] == [d] && Cut(key, last - 1, d)
    && Clean(Flat(key[..last]), d) && |Split(Flat(key[..last]), d)| < keycnt
    && PartsShort(key, last, d, maxklen) && Checked(key, last, d, Split(Flat(key[..last]), d), maxklen)
  }

  /** The front of a key string up to a boundary is read as a key string of its own. */
  lemma StopPart(key: seq<string>, n: nat, c: nat, off: nat, d: char, done: seq<string>, pend: string, bodylen: nat)
    requires KeyOk(key, bodylen) && bodylen > 2 && 0 < n <= |key| && c < n && At(key, c, off, d, done, pend)
    requires n == |key| || Ends(key, n, d)
    ensures var g := Stop(key, n, d);
            && At(g, c, off, d, done, pend) && PartLen(key, c, off, d) >= 0 && PartLen(g, c, off, d) == PartLen(key, c, off, d)
            && Part(g, c, off, d) == Part(key, c, off, d) && (PartLen(g, c, off, d) == 0 ==> c == n - 1 && off == 1)
  {
    hide Split, Flat;
    var g := Stop(key, n, d);
    assert g[..c] == key[..c];
    assert g[c][..off] == key[c][..off];
    assert Front(g, c, off) == Front(key, c, off);
    if c == n - 1 < |key| - 1 && !Cut(key, c, d) {
      var b := key[c];
      assert g[c] == b[..|b| - 1];
    }
  }

  /** On the way to an acceptance every block passes. */
  lemma AcceptedStep(key: seq<string>, n: nat, c: nat, off: nat, d: char, done: seq<string>, pend: string, keycnt: nat, maxklen: nat, bodylen: nat)
    requires KeyOk(key, bodylen) && bodylen > 2 && 0 < n <= |key| && EndsFit(key, n, d, keycnt, maxklen)
    requires c < n && At(key, c, off, d, done, pend)
    ensures PartLen(key, c, off, d) >= 0 && Ends(key, n, d)
    ensures var x := Part(key, c, off, d); var xs := Split(x, d);
            && x != "" && Clean(x, d) && |done| + |xs| <= keycnt && Short(xs, maxklen)
            && Short(Joined(done, pend, xs), maxklen) && (c == n - 1 ==> |done| + |xs| == keycnt)
  {
    hide Split, Flat, Front, Part, At, Fits, Stop, Joined, Clean, Short;
    StopPart(key, n, c, off, d, done, pend, bodylen);
    PartFits(Stop(key, n, d), c, off, d, done, pend, keycnt, maxklen);
  }

  /** On the way to the lone delimiter every block passes. */
  lemma TripStep(key: seq<string>, c: nat, off: nat, d: char, done: seq<string>, pend: string, keycnt: nat, maxklen: nat, bodylen: nat)
    requires KeyOk(key, bodylen) && bodylen > 2 && Trips(key, d, keycnt, maxklen)
    requires c < |key| - 1 && At(key, c, off, d, done, pend) && off == Off(key, c, d)
    ensures PartLen(key, c, off, d) >= 0
    ensures var x := Part(key, c, off, d); var xs, f := Split(x, d), Split(Flat(key[..|key| - 1]), d); var all := Joined(done, pend, xs);
            && x != "" && Clean(x, d) && |all| < keycnt && Short(xs, maxklen)
            && |all| <= |f| && (forall i | 0 <= i < |all| - 1 :: all[i] == f[i])
  {
    hide Split, Flat, Front, Part, At, Joined, Clean, Short, Checked;
    var n := |key| - 1;
    assert Ends(key, n, d) && Stop(key, n, d) == key[..n];
    StopPart(key, n, c, off, d, done, pend, bodylen);
    PartClean(key[..n], c, off, d, done, pend);
    assert PartAt(key, c, d) == Part(key, c, off, d);
  }

  /** A pass that ends behind a whole token has read the front up to that boundary. */
  lemma StopRead(key: seq<string>, c: nat, off: nat, d: char, done: seq<string>)
    requires (forall i | 0 <= i < |key| :: key[i] != "") && 0 < c && At(key, c, off, d, done, "") && off == Off(key, c, d) && done != []
    ensures Ends(key, c, d) && Clean(Flat(Stop(key, c, d)), d) && Split(Flat(Stop(key, c, d)), d) == done
  {
    hide Split, Flat;
    FlatTake(key, c - 1);
    var p, g := Front(key, c, off), Flat(Stop(key, c, d));
    var b := key[c - 1];
    if off == 1 {
      assert key[c][..1] == [d];
      assert p == g + [d];
    } else if Cut(key, c - 1, d) {
      assert p == Flat(key[..c - 1]) + b;
      SplitEnds(p, d);
    } else {
      FlatTake(Stop(key, c, d), c - 1);
      assert Stop(key, c, d)[..c] == Stop(key, c, d) && Stop(key, c, d)[..c - 1] == key[..c - 1];
      assert b == b[..|b| - 1] + [d];
      assert p == g + [d];
    }
    SplitApart(g, "", d);
    assert (done + [""])[..|done|] == done && (Split(g, d) + [""])[..|Split(g, d)|] == Split(g, d);
    assert g == p[..|g|];
  }

  lemma {:induction false} CutsGrow(key: seq<string>, c: nat, e: nat, d: char)
    requires c <= e < |key| && forall i | 0 <= i < |key| :: key[i] != ""
    ensures Cuts(key, c, d) <= Cuts(key, e, d)
    decreases e
  {
    if c < e { CutsGrow(key, c, e - 1, d); }
  }

  lemma StitchedNext(n: nat)
    ensures Stitched(n + 1) == if n > 0 && n - Stitched(n) == SEGTOKS then n else Stitched(n)
  {}

  lemma StitchedMore(n: nat, m: nat)
    requires n <= m
    ensures Stitched(n) <= Stitched(m)
  {}

  /** A string that a delimiter does not occur in is one token. */
  lemma {:induction false} SplitNone(x: string, d: char)
    requires d !in x
    ensures Split(x, d) == [x]
  {
    if x != "" {
      var n := |x| - 1;
      SplitNone(x[..n], d);
      assert x == x[..n] + [x[n]];
    }
  }

  /** What commas delimit has no space where it is read, so the first block is one long token to spaces. */
  lemma AcceptedNoSpace(key: seq<string>, keycnt: nat, maxklen: nat)
    requires |key| > 1 && (forall i | 0 <= i < |key| :: key[i] != "") && Accepted(key, ',', keycnt, maxklen)
    ensures ' ' !in key[0]
  {
    hide Split, Fits, Flat;
    var c :| 0 < c <= |key| && EndsFit(key, c, ',', keycnt, maxklen);
    var g := Stop(key, c, ',');
    FitsClean(Flat(g), ',', keycnt, maxklen);
    FlatFirst(g);
    if c == 1 && !Cut(key, 0, ',') {
      assert key[0] == g[0] + [','];
    }
  }

  lemma TripsNoSpace(key: seq<string>, keycnt: nat, maxklen: nat)
    requires |key| > 1 && (forall i | 0 <= i < |key| :: key[i] != "") && Trips(key, ',', keycnt, maxklen)
    ensures ' ' !in key[0]
  {
    hide Split, Flat, Checked, PartsShort;
    FlatFirst(key[..|key| - 1]);
  }

  lemma FitsClean(x: string, d: char, keycnt: nat, maxklen: nat)
    requires Fits(x, d, keycnt, maxklen)
    ensures Clean(x, d)
  {}

  lemma FlatFirst(key: seq<string>)
    requires key != []
    ensures key[0] <= Flat(key)
  {
    hide Flat;
    FlatTake(key, 0);
    assert key[..0] == [] && Flat(key[..0]) == "" && "" + key[0] == key[0] by { assert Flat([]) == "" by { FlatNone(); } }
    FlatPrefix(key, 1);
  }

  lemma FlatNone()
    ensures Flat([]) == ""
  {}

  /** A key string that fits is accepted. */
  lemma FitsAccepted(key: seq<string>, d: char, keycnt: nat, maxklen: nat)
    requires key != [] && (forall i | 0 <= i < |key| :: key[i] != "") && Fits(Flat(key), d, keycnt, maxklen)
    ensures Accepted(key, d, keycnt, maxklen)
  {
    hide Fits;
    assert Stop(key, |key|, d) == key;
    assert EndsFit(key, |key|, d, keycnt, maxklen);
  }

  lemma FlatTwo(a: string, b: string)
    ensures Flat([a]) == a && Flat([a, b]) == a + b
  {
    assert [a][..0] == [] && [a, b][..1] == [a];
  }

  /** Three tokens where two are due: accepted, since the second ends the first block. */
  lemma AcceptsThree()
    ensures var key := ["abc def ", "gh"];
            && KeyOk(key, 8) && |Split(Flat(key), ' ')| == 3 && !Fits(Flat(key), ' ', 2, 4)
            && Accepted(key, ' ', 2, 4)
  {
    hide Split, Flat;
    var key := ["abc def ", "gh"];
    FlatTwo("abc def ", "gh");
    FlatTwo("abc def", "gh");
    assert "abc" + [' '] + "def" == "abc def" && "abc def" + [' '] + "gh" == "abc def " + "gh";
    SplitNone("abc", ' ');
    SplitNone("def", ' ');
    SplitNone("gh", ' ');
    SplitApart("abc", "def", ' ');
    SplitApart("abc def", "gh", ' ');
    assert "abc def "[..7] == "abc def";
    assert Stop(key, 1, ' ') == ["abc def"];
    assert EndsFit(key, 1, ' ', 2, 4);
  }

  /** A delimiter alone in the last block, behind a token that ends the block before: the assertion fails. */
  lemma TripsOnDelimiter()
    ensures var key := ["abc defg", " "]; KeyOk(key, 8) && Trips(key, ' ', 3, 4)
  {
    hide Split, Flat;
    var key := ["abc defg", " "];
    FlatTwo("abc defg", " ");
    assert key[..1] == ["abc defg"];
    assert "abc" + [' '] + "defg" == "abc defg";
    SplitNone("abc", ' ');
    SplitNone("defg", ' ');
    SplitApart("abc", "defg", ' ');
    assert PartAt(key, 0, ' ') == "abc defg";
    assert Cuts(key, 0, ' ') == [];
    assert Cuts(key, 1, ' ') == [];
  }
}
