/** Splitting a string at a delimiter. */
module Splitting {
  /** One more character: it ends the last token or extends it. */
  function Bump(r: seq<string>, c: char, d: char): (q: seq<string>)
    requires |r| > 0
    ensures |q| > 0
  {
    if c == d then r + [""] else r[..|r| - 1] + [r[|r| - 1] + [c]]
  }

  function Split(s: string, d: char): (r: seq<string>)
    ensures |r| > 0
  {
    if s == [] then [""] else Bump(Split(s[..|s| - 1], d), s[|s| - 1], d)
  }

  /** Joining two split strings at the place where they meet. */
  function Glue(a: seq<string>, b: seq<string>): (r: seq<string>)
    requires |a| > 0 && |b| > 0
    ensures |r| == |a| + |b| - 1
  {
    a[..|a| - 1] + [a[|a| - 1] + b[0]] + b[1..]
  }

  lemma GlueEmpty(a: seq<string>)
    requires |a| > 0
    ensures Glue(a, [""]) == a
  {
    assert a[|a| - 1] + "" == a[|a| - 1];
  }

  /** Appending to the second string is appending to the joined one. */
  lemma GlueBump(a: seq<string>, b: seq<string>, c: char, d: char)
    requires |a| > 0 && |b| > 0
    ensures Glue(a, Bump(b, c, d)) == Bump(Glue(a, b), c, d)
  {
    if c != d && |b| == 1 {
      assert a[|a| - 1] + (b[0] + [c]) == a[|a| - 1] + b[0] + [c];
    } else if c != d {
      var e := Bump(b, c, d);
      assert e[1..] == b[1..][..|b| - 2] + [b[|b| - 1] + [c]];
    }
  }

  lemma {:induction false} SplitGlue(a: string, b: string, d: char)
    ensures Split(a + b, d) == Glue(Split(a, d), Split(b, d))
    decreases |b|
  {
    hide Glue, Bump;
    if b == [] {
      assert a + b == a;
      GlueEmpty(Split(a, d));
    } else {
      var n := |b| - 1;
      SplitGlue(a, b[..n], d);
      assert (a + b)[..|a| + n] == a + b[..n];
      GlueBump(Split(a, d), Split(b[..n], d), b[n], d);
    }
  }

  lemma GlueApart(a: seq<string>, b: seq<string>)
    requires |b| > 0
    ensures Glue(a + [""], b) == a + b
  {
    assert "" + b[0] == b[0];
  }

  /** A delimiter between two strings keeps their tokens apart. */
  lemma SplitApart(a: string, b: string, d: char)
    ensures Split(a + [d] + b, d) == Split(a, d) + Split(b, d)
    ensures Split(a + [d], d) == Split(a, d) + [""]
  {
    hide Glue;
    assert (a + [d])[..|a|] == a;
    SplitGlue(a + [d], b, d);
    GlueApart(Split(a, d), Split(b, d));
  }

  /** The tokens with a delimiter between each two. */
  function Join(ts: seq<string>, d: char): string
    requires |ts| > 0
  {
    if |ts| == 1 then ts[0] else Join(ts[..|ts| - 1], d) + [d] + ts[|ts| - 1]
  }

  lemma JoinBump(r: seq<string>, c: char, d: char)
    requires |r| > 0
    ensures Join(Bump(r, c, d), d) == Join(r, d) + [c]
  {
    var q := Bump(r, c, d);
    if c == d {
      assert q[..|r|] == r;
    } else {
      assert q[..|q| - 1] == r[..|r| - 1];
    }
  }

  lemma BumpFree(r: seq<string>, c: char, d: char)
    requires |r| > 0 && forall i | 0 <= i < |r| :: d !in r[i]
    ensures var q := Bump(r, c, d); forall i | 0 <= i < |q| :: d !in q[i]
  {}

  /** What splitting means: delimiter-free tokens that, joined again, are the string. */
  lemma {:induction false} SplitJoin(s: string, d: char)
    ensures Join(Split(s, d), d) == s
    ensures forall i | 0 <= i < |Split(s, d)| :: d !in Split(s, d)[i]
  {
    hide Bump;
    if s == [] {
      assert Split(s, d) == [""];
    } else {
      var n := |s| - 1;
      SplitJoin(s[..n], d);
      JoinBump(Split(s[..n], d), s[n], d);
      BumpFree(Split(s[..n], d), s[n], d);
      assert s == s[..n] + [s[n]];
    }
  }
}
