/** The glob matcher with one saved star position (util.c). */
module Glob {
  const NUL: char := '\0'
  const ESC: char := '\\'

  /** C strings are read up to and including their terminator. */
  function At(p: string, j: nat): char
    requires j <= |p|
  {
    if j < |p| then p[j] else NUL
  }

  predicate Text(t: string) { NUL !in t }

  /** What a pattern means: `*` any string, `?` any character, a backslash takes the next character literally. */
  predicate Match(t: string, p: string)
    decreases |p|, |t|
  {
    if p == [] then t == []
    else if p[0] == '*' then Match(t, p[1..]) || (t != [] && Match(t[1..], p))
    else if p[0] == ESC then |p| > 1 && t != [] && t[0] == p[1] && Match(t[1..], p[2..])
    else t != [] && (p[0] == '?' || p[0] == t[0]) && Match(t[1..], p[1..])
  }

  /**
   * What the code takes a pattern to mean: a backslash takes the next character
   * literally where the text has it, and stands for itself elsewhere.
   */
  predicate Accepts(t: string, p: string)
    decreases |p|, |t|
  {
    if p == [] then t == []
    else if |p| > 1 && t != [] && p[0] == ESC && p[1] == t[0] then Accepts(t[1..], p[2..])
    else if p[0] == '*' then Accepts(t, p[1..]) || (t != [] && Accepts(t[1..], p))
    else t != [] && (p[0] == '?' || p[0] == t[0]) && Accepts(t[1..], p[1..])
  }

  datatype Star = NoStar | Star(text: nat, patt: nat)

  predicate StarOk(t: string, p: string, i: nat, j: nat, star: Star) {
    i <= |t| && j <= |p| && (star.Star? ==> star.text <= i && star.patt <= j)
  }

  predicate AllStars(p: string) { forall k | 0 <= k < |p| :: p[k] == '*' }

  /** The matching loop from text position `i` and pattern position `j`. */
  predicate Loop(t: string, p: string, i: nat, j: nat, star: Star)
    requires Text(t) && StarOk(t, p, i, j, star)
    decreases if star.NoStar? then |p| + 1 else |p| - star.patt, if star.NoStar? then 0 else |t| - star.text, |t| - i
  {
    if i == |t| then AllStars(p[j..])
    else if At(p, j) == ESC && At(p, j + 1) == t[i] then Loop(t, p, i + 1, j + 2, star)
    else if At(p, j) == '*' then Loop(t, p, i, j + 1, Star(i, j + 1))
    else if At(p, j) == '?' || At(p, j) == t[i] then Loop(t, p, i + 1, j + 1, star)
    else if star.NoStar? then false
    else Loop(t, p, star.text + 1, star.patt, Star(star.text + 1, star.patt))
  }

  /** string_pattern_match. */
  method PatternMatch(text: string, pattern: string) returns (matched: bool)
    requires Text(text) && Text(pattern)
    ensures matched <==> Accepts(text, pattern)
    ensures ESC !in text ==> (matched <==> Match(text, pattern))
  {
    hide Accepts, Match;
    LoopAccepts(text, pattern);
    if ESC !in text { SameMeaning(text, pattern); }
    var i, j := 0, 0;
    var star := NoStar;
    while i < |text|
      invariant 0 <= i && 0 <= j && StarOk(text, pattern, i, j, star)
      invariant Loop(text, pattern, 0, 0, NoStar) == Loop(text, pattern, i, j, star)
      decreases if star.NoStar? then |pattern| + 1 else |pattern| - star.patt, if star.NoStar? then 0 else |text| - star.text, |text| - i
    {
      if At(pattern, j) == ESC && At(pattern, j + 1) == text[i] {
        i, j := i + 1, j + 2;
      } else if At(pattern, j) == '*' {
        j := j + 1;
        star := Star(i, j);
      } else if At(pattern, j) == '?' || At(pattern, j) == text[i] {
        i, j := i + 1, j + 1;
      } else {
        if star.NoStar? {
          return false;
        }
        star := Star(star.text + 1, star.patt);
        i, j := star.text, star.patt;
      }
    }
    ghost var from := j;
    while j < |pattern| && pattern[j] == '*'
      invariant from <= j <= |pattern| && (AllStars(pattern[from..]) <==> AllStars(pattern[j..]))
    {
      assert pattern[j..] == ['*'] + pattern[j + 1..];
      j := j + 1;
    }
    matched := j == |pattern|;
  }

  /** Some later suffix of the text is accepted. */
  predicate Later(t: string, k: nat, p: string) { exists m :: k <= m <= |t| && Accepts(t[m..], p) }

  lemma {:induction false} AcceptsStar(t: string, p: string)
    requires p != [] && p[0] == '*'
    ensures Accepts(t, p) <==> Later(t, 0, p[1..])
    decreases |t|
  {
    assert t[0..] == t;
    if t != [] {
      AcceptsStar(t[1..], p);
      if Later(t[1..], 0, p[1..]) {
        var m :| 0 <= m <= |t[1..]| && Accepts(t[1..][m..], p[1..]);
        assert t[1..][m..] == t[m + 1..];
      }
      if Later(t, 1, p[1..]) {
        var m :| 1 <= m <= |t| && Accepts(t[m..], p[1..]);
        assert t[1..][m - 1..] == t[m..];
      }
    }
  }

  lemma {:induction false} AcceptsNothing(p: string)
    ensures Accepts([], p) <==> AllStars(p)
  {
    if p != [] && p[0] == '*' {
      AcceptsNothing(p[1..]);
    }
  }

  lemma SuffixLater(t: string, i: nat, p: string)
    requires i <= |t|
    ensures Later(t[i..], 0, p) <==> Later(t, i, p)
    ensures Later(t, i, p) <==> Accepts(t[i..], p) || Later(t, i + 1, p)
  {
    hide Accepts;
    if Later(t[i..], 0, p) {
      var m :| 0 <= m <= |t[i..]| && Accepts(t[i..][m..], p);
      assert t[i..][m..] == t[i + m..];
    }
    if Later(t, i, p) {
      var m :| i <= m <= |t| && Accepts(t[m..], p);
      assert t[i..][m - i..] == t[m..];
    }
  }

  /** How much of the pattern goes for the next character without a star: 2, 1 or, if it does not fit, 0. */
  function Unit(t: string, p: string, i: nat, j: nat): (n: nat)
    requires i < |t|
    ensures j + n <= |p| || n == 0
  {
    if j + 1 < |p| && p[j] == ESC && p[j + 1] == t[i] then 2
    else if j < |p| && p[j] != '*' && (p[j] == '?' || p[j] == t[i]) then 1
    else 0
  }

  /** The pattern without its first characters goes with the text without its first ones. */
  lemma UnitAccepts(t: string, p: string, i: nat, j: nat)
    requires i < |t| && j <= |p| && (j < |p| ==> p[j] != '*')
    ensures Accepts(t[i..], p[j..]) <==> Unit(t, p, i, j) > 0 && Accepts(t[i + 1..], p[j + Unit(t, p, i, j)..])
  {
    assert t[i..][1..] == t[i + 1..];
    if j < |p| { assert p[j..][1..] == p[j + 1..]; }
    if j + 1 < |p| { assert p[j..][2..] == p[j + 2..]; }
  }

  lemma StarAccepts(t: string, p: string, i: nat, j: nat)
    requires i <= |t| && j < |p| && p[j] == '*'
    ensures Accepts(t[i..], p[j..]) <==> Accepts(t[i..], p[j + 1..]) || (i < |t| && Accepts(t[i + 1..], p[j..]))
  {
    assert p[j..][1..] == p[j + 1..] && (i < |t| ==> t[i..][1..] == t[i + 1..]);
  }

  /** Going on character by character from text position `i` and pattern position `j` leads to `i'` and `j'`. */
  predicate Walk(t: string, p: string, i: nat, j: nat, i': nat, j': nat)
    decreases |t| - i
  {
    if i >= i' || i >= |t| then i == i' && j == j'
    else Unit(t, p, i, j) > 0 && Walk(t, p, i + 1, j + Unit(t, p, i, j), i', j')
  }

  lemma {:induction false} WalkOn(t: string, p: string, i: nat, j: nat, i': nat, j': nat)
    requires Walk(t, p, i, j, i', j') && i' < |t| && Unit(t, p, i', j') > 0
    ensures Walk(t, p, i, j, i' + 1, j' + Unit(t, p, i', j'))
    decreases |t| - i
  {
    if i < i' { WalkOn(t, p, i + 1, j + Unit(t, p, i, j), i', j'); }
  }

  /**
   * A reading of the pattern that is behind, at `k`, and yet succeeds cannot
   * avoid the star at `j`: it comes to it, or reads it behind a backslash.
   */
  lemma {:induction false} StarMet(t: string, p: string, i: nat, k: nat, j: nat)
    requires i <= |t| && k <= j < |p| && p[j] == '*' && Accepts(t[i..], p[k..])
    ensures Later(t, i, p[j + 1..])
    decreases |p| - k, |t| - i
  {
    hide Accepts;
    if k == j {
      AcceptsStar(t[i..], p[j..]);
      assert p[j..][1..] == p[j + 1..];
      SuffixLater(t, i, p[j + 1..]);
    } else if p[k] == '*' {
      StarAccepts(t, p, i, k);
      if Accepts(t[i..], p[k + 1..]) {
        StarMet(t, p, i, k + 1, j);
      } else {
        StarMet(t, p, i + 1, k, j);
      }
    } else if i == |t| {
      assert t[i..] == [];
      AcceptsNothing(p[k..]);
    } else {
      UnitAccepts(t, p, i, k);
      var k' := k + Unit(t, p, i, k);
      if k' <= j {
        StarMet(t, p, i + 1, k', j);
      } else {
        SuffixLater(t, i + 1, p[j + 1..]);
      }
    }
  }

  /** The same when the walk comes to the star later: a reading that started later stays behind it. */
  lemma {:induction false} WalkToStar(t: string, p: string, i: nat, j: nat, i': nat, j': nat, m: nat, k: nat)
    requires i <= i' <= |t| && Walk(t, p, i, j, i', j') && j' < |p| && p[j'] == '*'
    requires i <= m <= |t| && k <= j <= |p| && Accepts(t[m..], p[k..])
    ensures Later(t, i', p[j' + 1..])
    decreases |t| - i, |p| - k
  {
    hide Accepts, Later;
    if i == i' {
      StarMet(t, p, m, k, j);
      LaterMore(t, i, m, p[j + 1..]);
    } else if i < m {
      WalkToStar(t, p, i + 1, j + Unit(t, p, i, j), i', j', m, k);
    } else if p[k] == '*' {
      StarAccepts(t, p, i, k);
      if Accepts(t[i..], p[k + 1..]) {
        WalkToStar(t, p, i, j, i', j', m, k + 1);
      } else {
        WalkToStar(t, p, i + 1, j + Unit(t, p, i, j), i', j', m + 1, k);
      }
    } else {
      UnitAccepts(t, p, i, k);
      WalkToStar(t, p, i + 1, j + Unit(t, p, i, j), i', j', m + 1, k + Unit(t, p, i, k));
    }
  }

  lemma LaterMore(t: string, i: nat, m: nat, p: string)
    requires i <= m && Later(t, m, p)
    ensures Later(t, i, p)
  {
    hide Accepts;
    var e :| m <= e <= |t| && Accepts(t[e..], p);
    assert i <= e <= |t| && Accepts(t[e..], p);
  }

  /** And when the walk comes to the end of the text, only stars can be left of the pattern. */
  lemma {:induction false} WalkToEnd(t: string, p: string, i: nat, j: nat, j': nat, m: nat, k: nat)
    requires Walk(t, p, i, j, |t|, j') && i <= m <= |t| && k <= j <= |p| && Accepts(t[m..], p[k..])
    ensures j' <= |p| && AllStars(p[j'..])
    decreases |t| - i, |p| - k
  {
    hide Accepts;
    if i == |t| {
      assert t[m..] == [];
      AcceptsNothing(p[k..]);
      assert p[j..] == p[k..][j - k..];
    } else if i < m {
      WalkToEnd(t, p, i + 1, j + Unit(t, p, i, j), j', m, k);
    } else if p[k] == '*' {
      StarAccepts(t, p, i, k);
      if Accepts(t[i..], p[k + 1..]) {
        WalkToEnd(t, p, i, j, j', m, k + 1);
      } else {
        WalkToEnd(t, p, i + 1, j + Unit(t, p, i, j), j', m + 1, k);
      }
    } else {
      UnitAccepts(t, p, i, k);
      WalkToEnd(t, p, i + 1, j + Unit(t, p, i, j), j', m + 1, k + Unit(t, p, i, k));
    }
  }

  /** Where the loop stands: it has come on from the last star character by character. */
  predicate OnWay(t: string, p: string, i: nat, j: nat, star: Star) {
    StarOk(t, p, i, j, star) && (star.Star? ==> Walk(t, p, star.text, star.patt, i, j))
  }

  /** What the saved star still allows. */
  predicate Retry(t: string, p: string, star: Star) {
    star.Star? && star.patt <= |p| && Later(t, star.text + 1, p[star.patt..])
  }

  /** The leftmost position is enough: a new star makes the old one needless. */
  lemma StarTakesOver(t: string, p: string, i: nat, j: nat, star: Star)
    requires OnWay(t, p, i, j, star) && j < |p| && p[j] == '*'
    ensures Accepts(t[i..], p[j..]) || Retry(t, p, star) <==> Accepts(t[i..], p[j + 1..]) || Retry(t, p, Star(i, j + 1))
  {
    hide Accepts, Walk;
    assert p[j..][1..] == p[j + 1..];
    AcceptsStar(t[i..], p[j..]);
    SuffixLater(t, i, p[j + 1..]);
    if Retry(t, p, star) {
      var m :| star.text + 1 <= m <= |t| && Accepts(t[m..], p[star.patt..]);
      WalkToStar(t, p, star.text, star.patt, i, j, m, star.patt);
    }
  }

  lemma EndTakesOver(t: string, p: string, j: nat, star: Star)
    requires OnWay(t, p, |t|, j, star)
    ensures Accepts([], p[j..]) || Retry(t, p, star) <==> AllStars(p[j..])
  {
    hide Accepts, Walk;
    AcceptsNothing(p[j..]);
    if Retry(t, p, star) {
      var m :| star.text + 1 <= m <= |t| && Accepts(t[m..], p[star.patt..]);
      WalkToEnd(t, p, star.text, star.patt, j, m, star.patt);
    }
  }

  /** One unit of the pattern takes one character. */
  lemma OnWayNext(t: string, p: string, i: nat, j: nat, star: Star)
    requires OnWay(t, p, i, j, star) && i < |t| && Unit(t, p, i, j) > 0
    ensures OnWay(t, p, i + 1, j + Unit(t, p, i, j), star)
  {
    if star.Star? { WalkOn(t, p, star.text, star.patt, i, j); }
  }

  lemma OnWayStar(t: string, p: string, i: nat, j: nat)
    requires i <= |t| && j <= |p|
    ensures OnWay(t, p, i, j, Star(i, j))
  {}

  lemma OnWayShape(t: string, p: string, i: nat, j: nat, star: Star)
    requires OnWay(t, p, i, j, star)
    ensures StarOk(t, p, i, j, star)
  {}

  /** The loop decides whether the rest is accepted, here or after the saved star. */
  lemma {:induction false} LoopExact(t: string, p: string, i: nat, j: nat, star: Star)
    requires Text(t) && Text(p) && OnWay(t, p, i, j, star)
    ensures Loop(t, p, i, j, star) <==> Accepts(t[i..], p[j..]) || Retry(t, p, star)
    decreases if star.NoStar? then |p| + 1 else |p| - star.patt, if star.NoStar? then 0 else |t| - star.text, |t| - i
  {
    hide Accepts, OnWay, Later;
    OnWayShape(t, p, i, j, star);
    if i == |t| {
      assert t[i..] == [];
      EndTakesOver(t, p, j, star);
    } else if At(p, j) == '*' {
      OnWayStar(t, p, i, j + 1);
      LoopExact(t, p, i, j + 1, Star(i, j + 1));
      StarTakesOver(t, p, i, j, star);
    } else {
      UnitAccepts(t, p, i, j);
      var n := Unit(t, p, i, j);
      if n > 0 {
        OnWayNext(t, p, i, j, star);
        LoopExact(t, p, i + 1, j + n, star);
      } else if star.Star? {
        OnWayStar(t, p, star.text + 1, star.patt);
        LoopExact(t, p, star.text + 1, star.patt, Star(star.text + 1, star.patt));
        SuffixLater(t, star.text + 1, p[star.patt..]);
      }
    }
  }

  lemma LoopAccepts(t: string, p: string)
    requires Text(t) && Text(p)
    ensures Loop(t, p, 0, 0, NoStar) <==> Accepts(t, p)
  {
    hide Loop, Accepts;
    assert t[0..] == t && p[0..] == p;
    LoopExact(t, p, 0, 0, NoStar);
  }

  /** For a text without backslash that is what a pattern means. */
  lemma {:induction false} SameMeaning(t: string, p: string)
    requires ESC !in t
    ensures Accepts(t, p) <==> Match(t, p)
    decreases |p|, |t|
  {
    if p == [] {
    } else if p[0] == '*' {
      SameMeaning(t, p[1..]);
      if t != [] { SameMeaning(t[1..], p); }
    } else if p[0] == ESC {
      if |p| > 1 && t != [] && p[1] == t[0] { SameMeaning(t[1..], p[2..]); }
    } else if t != [] {
      SameMeaning(t[1..], p[1..]);
    }
  }

  /** scan_validate_pattern, as far as escapes go: a backslash comes before `*`, `?` or a backslash. */
  predicate Admitted(p: string) {
    if p == [] then true
    else if p[0] != ESC then Admitted(p[1..])
    else |p| > 1 && (p[1] == '*' || p[1] == '?' || p[1] == ESC) && Admitted(p[2..])
  }

  /** Question marks, then a literal star. */
  function Marks(i: nat): (p: string)
    ensures |p| == i + 2 && Text(p)
  {
    seq(i, _ => '?') + [ESC, '*']
  }

  lemma MarksMore(i: nat)
    requires i > 0
    ensures Marks(i)[0] == '?' && Marks(i)[1..] == Marks(i - 1)
  {}

  lemma {:induction false} MarksAdmitted(i: nat)
    ensures Admitted(Marks(i))
  {
    if i == 0 {
      assert Marks(0) == [ESC, '*'] && Marks(0)[2..] == [];
    } else {
      MarksAdmitted(i - 1);
      MarksMore(i);
    }
  }

  /** The code lets a backslash in the pattern match one in the text, and reads the star behind it as a star; the pattern means something else. */
  lemma {:induction false} MarksDiffer(t: string, i: nat)
    requires i < |t| && t[i] == ESC
    ensures Accepts(t, Marks(i)) && !Match(t, Marks(i))
    decreases i
  {
    if i == 0 {
      var p := Marks(0);
      assert p == [ESC, '*'] && p[1..] == ['*'];
      StarTakesAll(t[1..]);
    } else {
      MarksDiffer(t[1..], i - 1);
      MarksMore(i);
    }
  }

  lemma {:induction false} StarTakesAll(t: string)
    ensures Accepts(t, ['*'])
  {
    if t != [] { StarTakesAll(t[1..]); }
  }

  /**
   * For a text, every pattern is decided as documented if and only if the text
   * has no backslash; the same holds of the patterns that the scan command admits.
   */
  lemma GlobExact(t: string)
    requires Text(t)
    ensures (forall p: string | Text(p) :: Accepts(t, p) <==> Match(t, p)) <==> ESC !in t
    ensures (forall p: string | Text(p) && Admitted(p) :: Accepts(t, p) <==> Match(t, p)) <==> ESC !in t
  {
    hide Accepts, Match, Admitted;
    if ESC in t {
      var i :| 0 <= i < |t| && t[i] == ESC;
      MarksDiffer(t, i);
      MarksAdmitted(i);
      assert Text(Marks(i)) && Admitted(Marks(i));
    } else {
      forall p: string | Text(p)
        ensures Accepts(t, p) <==> Match(t, p)
      {
        SameMeaning(t, p);
      }
    }
  }
}
