/** Updates of the cache as the records of the command log (engines/default/cmdlogmgr.c, cmdlogbuf.c). */
module CrashLog {
  import opened Octets
  import opened LogFiles
  import opened LogSync
  import opened LogRuns
  import C = Checkpoint
  import R = Recovery

  /** What a log record stands for: a change of the cache, or the begin or the end of a range of changes. */
  datatype Note = Change(rec: C.Rec) | Begin | End

  /** A record of the log, and whether it was written twice. */
  datatype Entry = Entry(note: Note, dual: bool)

  /** How records are laid out in the log. */
  datatype Codec = Codec(enc: C.Rec -> R.Rec, dec: R.Rec -> C.Rec, begin: R.Rec, end: R.Rec)

  function RecOf(cd: Codec, u: Entry): R.Rec {
    match u.note
    case Change(rec) => cd.enc(rec)
    case Begin => cd.begin
    case End => cd.end
  }

  ghost predicate Coded(cd: Codec, us: seq<Entry>) {
    forall i | 0 <= i < |us| :: CodedOne(cd, us[i])
  }

  ghost predicate CodedOne(cd: Codec, u: Entry) {
    && R.RecOk(RecOf(cd, u))
    && match u.note
       case Change(rec) => !R.Marker(cd.enc(rec)) && cd.dec(cd.enc(rec)) == rec
       case Begin => cd.begin.logtype == R.BEGIN
       case End => cd.end.logtype == R.END
  }

  /** The log records. */
  function Recs(cd: Codec, us: seq<Entry>): (rs: seq<R.Rec>)
    ensures |rs| == |us|
  {
    seq(|us|, i requires 0 <= i < |us| => RecOf(cd, us[i]))
  }

  /** The changes among them. */
  function Updates(us: seq<Entry>): seq<C.Rec> {
    if us == [] then []
    else
      var n := |us| - 1;
      Updates(us[..n]) + if us[n].note.Change? then [us[n].note.rec] else []
  }

  /** Those that were written twice. */
  function Duals(us: seq<Entry>): seq<Entry> {
    if us == [] then []
    else Duals(us[..|us| - 1]) + if us[|us| - 1].dual then [us[|us| - 1]] else []
  }

  /** What logging them makes of the log. */
  ghost function Flat(cd: Codec, us: seq<Entry>): seq<Logged>
    requires Coded(cd, us)
  {
    if us == [] then []
    else
      var u := us[|us| - 1];
      assert CodedOne(cd, u);
      Flat(cd, us[..|us| - 1]) + Tag(R.Encode(RecOf(cd, u)), u.dual)
  }

  /** The Write steps of a run log these updates, in this order. */
  ghost predicate Logs(cd: Codec, es: seq<LogEvent>, us: seq<Entry>)
    requires Coded(cd, us)
    decreases |es|
  {
    if es == [] then us == []
    else
      var e := es[|es| - 1];
      if e.Write? then
        && us != [] && LogsOne(cd, e, us[|us| - 1])
        && Logs(cd, es[..|es| - 1], us[..|us| - 1])
      else Logs(cd, es[..|es| - 1], us)
  }

  ghost predicate LogsOne(cd: Codec, e: LogEvent, u: Entry) {
    e.Write? && CodedOne(cd, u) && e.rec == R.Encode(RecOf(cd, u)) && e.dual == u.dual
  }

  lemma {:induction false} FlatConcat(cd: Codec, a: seq<Entry>, b: seq<Entry>)
    requires Coded(cd, a) && Coded(cd, b)
    ensures Coded(cd, a + b) && Flat(cd, a + b) == Flat(cd, a) + Flat(cd, b)
    decreases |b|
  {
    hide Tag, CodedOne, R.Encode;
    if b == [] {
      assert a + b == a;
    } else {
      var n, all := |b| - 1, a + b;
      FlatConcat(cd, a, b[..n]);
      assert all[..|a| + n] == a + b[..n] && all[|a| + n] == b[n];
      assert CodedOne(cd, b[n]);
      CodedFits(cd, b[n]);
      var t := Tag(R.Encode(RecOf(cd, b[n])), b[n].dual);
      assert Flat(cd, a) + (Flat(cd, b[..n]) + t) == Flat(cd, a) + Flat(cd, b[..n]) + t;
    }
  }

  lemma CodedFits(cd: Codec, u: Entry)
    requires CodedOne(cd, u)
    ensures |RecOf(cd, u).body| <= R.MAX_RECORD
  {}

  lemma RecsOkOf(cd: Codec, us: seq<Entry>)
    requires Coded(cd, us)
    ensures R.RecsOk(Recs(cd, us))
  {
    forall i | 0 <= i < |us|
      ensures R.RecOk(Recs(cd, us)[i])
    {
      assert CodedOne(cd, us[i]);
    }
  }

  /** The bytes of the log are the images of its records. */
  lemma {:induction false} FlatBytes(cd: Codec, us: seq<Entry>)
    requires Coded(cd, us)
    ensures R.RecsOk(Recs(cd, us)) && Bytes(Flat(cd, us)) == R.Image(Recs(cd, us))
    decreases |us|
  {
    hide R.Encode;
    RecsOkOf(cd, us);
    if us != [] {
      var n := |us| - 1;
      var u := us[n];
      assert CodedOne(cd, u);
      FlatBytes(cd, us[..n]);
      R.ImageSnoc(Recs(cd, us[..n]), RecOf(cd, u));
      assert Recs(cd, us) == Recs(cd, us[..n]) + [RecOf(cd, u)];
      var t := Tag(R.Encode(RecOf(cd, u)), u.dual);
      assert Bytes(Flat(cd, us[..n]) + t) == Bytes(Flat(cd, us[..n])) + R.Encode(RecOf(cd, u));
    } else {
      assert Recs(cd, us) == [];
    }
  }

  lemma {:induction false} DualsCoded(cd: Codec, us: seq<Entry>)
    requires Coded(cd, us)
    ensures Coded(cd, Duals(us))
    decreases |us|
  {
    hide CodedOne;
    if us != [] { DualsCoded(cd, us[..|us| - 1]); }
  }

  /** The bytes written twice are the images of the updates written twice. */
  lemma {:induction false} FlatDuals(cd: Codec, us: seq<Entry>)
    requires Coded(cd, us)
    ensures Coded(cd, Duals(us)) && Dual(Flat(cd, us)) == Bytes(Flat(cd, Duals(us)))
    decreases |us|
  {
    hide R.Encode, CodedOne, Tag, Dual, Bytes;
    DualsCoded(cd, us);
    if us == [] {
      DualNone();
      BytesNone();
    } else {
      var n := |us| - 1;
      var u, front := us[n], us[..n];
      assert CodedOne(cd, u);
      FlatDuals(cd, front);
      var t := EntryTag(cd, u);
      assert Flat(cd, us) == Flat(cd, front) + t;
      DualConcat(Flat(cd, front), t);
      if u.dual {
        var ds := Duals(front);
        assert Duals(us) == ds + [u] && (ds + [u])[..|ds|] == ds;
        assert Flat(cd, Duals(us)) == Flat(cd, ds) + t;
        BytesJoin(Flat(cd, ds), t);
      } else {
        assert Duals(us) == Duals(front);
        assert Dual(Flat(cd, front)) + [] == Dual(Flat(cd, front));
      }
    }
  }

  /** The log bytes of one update. */
  lemma EntryTag(cd: Codec, u: Entry) returns (t: seq<Logged>)
    requires CodedOne(cd, u)
    ensures t == Tag(R.Encode(RecOf(cd, u)), u.dual)
    ensures Dual(t) == if u.dual then Bytes(t) else []
  {
    t := Tag(R.Encode(RecOf(cd, u)), u.dual);
    TagUniform(R.Encode(RecOf(cd, u)), u.dual);
    DualUniform(t, u.dual);
  }

  lemma BytesNone()
    ensures Bytes([]) == []
  {}

  lemma BytesJoin(a: seq<Logged>, b: seq<Logged>)
    ensures Bytes(a + b) == Bytes(a) + Bytes(b)
  {}

  /** The log of a run is what its updates make of it. */
  lemma {:induction false} LogIsFlat(cd: Codec, ps: seq<Pipe>, es: seq<LogEvent>, i: nat, us: seq<Entry>)
    requires Run(ps, es) && i <= |es| && Coded(cd, us) && Logs(cd, es[..i], us)
    ensures ps[i].log == Flat(cd, us)
    decreases i
  {
    hide Next, Enabled, MarksOk, CodedOne, Tag, R.Encode;
    if i > 0 {
      var j := i - 1;
      assert es[..i][..j] == es[..j];
      if es[j].Write? {
        var n := |us| - 1;
        LogIsFlat(cd, ps, es, j, us[..n]);
        StepTags(ps[j], es[j]);
      } else {
        LogIsFlat(cd, ps, es, j, us);
        SameOrLogged(ps[j], es[j]);
      }
    }
  }

  /** Where the log stood after `i` updates. */
  ghost predicate StoodAt(cd: Codec, us: seq<Entry>, pos: nat, i: nat)
    requires Coded(cd, us)
  {
    i <= |us| && |Flat(cd, us[..i])| == pos
  }

  ghost predicate Stood(cd: Codec, us: seq<Entry>, pos: nat)
    requires Coded(cd, us)
  {
    exists i: nat :: StoodAt(cd, us, pos, i)
  }

  lemma StoodMore(cd: Codec, us: seq<Entry>, pos: nat)
    requires us != [] && Coded(cd, us) && Stood(cd, us[..|us| - 1], pos)
    ensures Stood(cd, us, pos)
  {
    hide Flat;
    var n := |us| - 1;
    var i: nat :| StoodAt(cd, us[..n], pos, i);
    assert us[..n][..i] == us[..i];
    assert StoodAt(cd, us, pos, i);
  }

  lemma StoodNow(cd: Codec, us: seq<Entry>)
    requires Coded(cd, us)
    ensures Stood(cd, us, |Flat(cd, us)|)
  {
    hide Flat;
    assert us[..|us|] == us;
    assert StoodAt(cd, us, |Flat(cd, us)|, |us|);
  }

  /** Files take over, and checkpoints begin, between two updates. */
  ghost predicate Aligned(cd: Codec, us: seq<Entry>, p: Pipe)
    requires Coded(cd, us)
  {
    && (forall f | 0 <= f < |p.marks| :: Stood(cd, us, p.marks[f]))
    && (forall f | 0 <= f < |p.starts| :: Stood(cd, us, p.starts[f]))
  }

  /** Marks and starts are kept, or set at the end of the log. */
  lemma MarksStep(p: Pipe, e: LogEvent)
    requires MarksOk(p) && Enabled(p, e)
    ensures var q := Next(p, e);
            && (forall f | 0 <= f < |q.marks| :: q.marks[f] in p.marks || q.marks[f] == |p.log|)
            && (forall f | 0 <= f < |q.starts| :: q.starts[f] in p.starts || q.starts[f] == |p.log|)
  {
    hide Bytes, Flagged, Void, Chunk, LsnLess, Tag;
  }

  lemma {:induction false} RunAligned(cd: Codec, ps: seq<Pipe>, es: seq<LogEvent>, i: nat, us: seq<Entry>)
    requires Run(ps, es) && i <= |es| && Coded(cd, us) && Logs(cd, es[..i], us)
    ensures Aligned(cd, us, ps[i])
    decreases i
  {
    hide Next, Enabled, MarksOk, CodedOne, R.Encode, Flat, Stood;
    if i == 0 {
      StoodNow(cd, us);
      NoneLogged(cd, us);
    } else {
      var j := i - 1;
      assert es[..i][..j] == es[..j];
      var before := if es[j].Write? then us[..|us| - 1] else us;
      RunAligned(cd, ps, es, j, before);
      LogIsFlat(cd, ps, es, j, before);
      StoodNow(cd, before);
      MarksStep(ps[j], es[j]);
      forall pos: nat | Stood(cd, before, pos)
        ensures Stood(cd, us, pos)
      {
        if es[j].Write? { StoodMore(cd, us, pos); }
      }
    }
  }

  lemma NoneLogged(cd: Codec, us: seq<Entry>)
    requires us == []
    ensures Flat(cd, us) == []
  {}

  lemma {:induction false} FlatGrows(cd: Codec, us: seq<Entry>, a: nat, b: nat)
    requires Coded(cd, us) && a < b <= |us|
    ensures |Flat(cd, us[..a])| < |Flat(cd, us[..b])|
    decreases b
  {
    hide R.Encode;
    assert us[..b][..b - 1] == us[..b - 1];
    assert CodedOne(cd, us[b - 1]) && us[..b][b - 1] == us[b - 1];
    if a < b - 1 { FlatGrows(cd, us, a, b - 1); }
  }

  lemma SameStood(cd: Codec, us: seq<Entry>, pos: nat, i: nat, j: nat)
    requires Coded(cd, us) && StoodAt(cd, us, pos, i) && StoodAt(cd, us, pos, j)
    ensures i == j
  {
    hide Flat;
    if i < j { FlatGrows(cd, us, i, j); }
    if j < i { FlatGrows(cd, us, j, i); }
  }

  lemma StoodFirst(cd: Codec, us: seq<Entry>)
    requires Coded(cd, us)
    ensures StoodAt(cd, us, 0, 0)
  {}

  /** A step that writes a record logs one of the updates. */
  lemma {:induction false} Wrote(cd: Codec, ps: seq<Pipe>, es: seq<LogEvent>, n: nat, us: seq<Entry>, i: nat) returns (x: nat)
    requires Run(ps, es) && i < n <= |es| && es[i].Write? && Coded(cd, us) && Logs(cd, es[..n], us)
    ensures x < |us| && LogsOne(cd, es[i], us[x])
    ensures StoodAt(cd, us, |ps[i].log|, x) && StoodAt(cd, us, |ps[i].log| + |es[i].rec|, x + 1)
    decreases n
  {
    hide Next, Enabled, MarksOk, Start, CodedOne, R.Encode, Tag, Flat;
    var j := n - 1;
    assert es[..n][..j] == es[..j];
    var before := if es[j].Write? then us[..|us| - 1] else us;
    if i == j {
      x := |us| - 1;
      LogIsFlat(cd, ps, es, j, us[..x]);
      LogIsFlat(cd, ps, es, n, us);
      StepTags(ps[j], es[j]);
      TagLength(es[j].rec, es[j].dual);
      assert us[..x + 1] == us;
    } else {
      x := Wrote(cd, ps, es, j, before, i);
      assert before[..x] == us[..x] && before[..x + 1] == us[..x + 1];
    }
  }

  lemma TagLength(rec: seq<Byte>, dual: bool)
    ensures |Tag(rec, dual)| == |rec|
  {}

  lemma SliceOf(cd: Codec, us: seq<Entry>, a: nat, m: nat)
    requires Coded(cd, us) && a <= m <= |us|
    ensures Coded(cd, us[..a]) && Coded(cd, us[..m]) && Coded(cd, us[a..m]) && Coded(cd, us[m..])
    ensures Flat(cd, us) == Flat(cd, us[..m]) + Flat(cd, us[m..]) && Flat(cd, us[..m]) == Flat(cd, us[..a]) + Flat(cd, us[a..m])
  {
    hide Flat, CodedOne;
    FlatConcat(cd, us[..m], us[m..]);
    assert us[..m] + us[m..] == us;
    FlatConcat(cd, us[..a], us[a..m]);
    assert us[..a] + us[a..m] == us[..m];
  }

  lemma {:induction false} UpdatesConcat(a: seq<Entry>, b: seq<Entry>)
    ensures Updates(a + b) == Updates(a) + Updates(b)
    decreases |b|
  {
    if b == [] {
      assert a + b == a;
    } else {
      var n := |b| - 1;
      UpdatesConcat(a, b[..n]);
      assert (a + b)[..|a| + n] == a + b[..n];
    }
  }

  lemma {:induction false} DualsConcat(a: seq<Entry>, b: seq<Entry>)
    ensures Duals(a + b) == Duals(a) + Duals(b)
    decreases |b|
  {
    if b == [] {
      assert a + b == a;
    } else {
      var n := |b| - 1;
      DualsConcat(a, b[..n]);
      assert (a + b)[..|a| + n] == a + b[..n];
    }
  }

  lemma {:induction false} DualsIn(us: seq<Entry>, u: Entry)
    requires u in Duals(us)
    ensures u in us
    decreases |us|
  {
    if us != [] && u in Duals(us[..|us| - 1]) { DualsIn(us[..|us| - 1], u); }
  }

  // Ranges.

  /** The records end inside a range. */
  predicate Inside(us: seq<Entry>) {
    us != [] && match us[|us| - 1].note
                case Begin => true
                case End => false
                case Change(_) => Inside(us[..|us| - 1])
  }

  /** Ranges begin and end in turn. */
  predicate Ranged(us: seq<Entry>) {
    us == [] || (Ranged(us[..|us| - 1]) && Follows(us[..|us| - 1], us[|us| - 1]))
  }

  predicate Follows(us: seq<Entry>, u: Entry) {
    match u.note
    case Begin => !Inside(us)
    case End => Inside(us)
    case Change(_) => true
  }

  lemma RangedSnoc(us: seq<Entry>, u: Entry)
    ensures Ranged(us + [u]) <==> Ranged(us) && Follows(us, u)
    ensures Inside(us + [u]) <==> (u.note.Begin? || (u.note.Change? && Inside(us)))
  {
    assert (us + [u])[..|us|] == us;
  }

  /** Behind a complete front, records are ranged as if they stood alone. */
  lemma {:induction false} RangedConcat(a: seq<Entry>, b: seq<Entry>)
    requires !Inside(a)
    ensures Ranged(a + b) <==> Ranged(a) && Ranged(b)
    ensures Inside(a + b) <==> Inside(b)
    decreases |b|
  {
    if b == [] {
      assert a + b == a;
    } else {
      var n := |b| - 1;
      RangedConcat(a, b[..n]);
      RangedSnoc(a + b[..n], b[n]);
      RangedSnoc(b[..n], b[n]);
      assert a + b[..n] + [b[n]] == a + b && b[..n] + [b[n]] == b;
    }
  }

  lemma {:induction false} RangedFront(us: seq<Entry>, n: nat)
    requires Ranged(us) && n <= |us|
    ensures Ranged(us[..n])
    decreases |us|
  {
    if n == |us| {
      assert us[..n] == us;
    } else {
      RangedFront(us[..|us| - 1], n);
      assert us[..|us| - 1][..n] == us[..n];
    }
  }

  /** Markers are written twice. */
  predicate MarkersTwice(us: seq<Entry>) { forall i | 0 <= i < |us| :: us[i].note.Change? || us[i].dual }

  /** Then what is written twice is ranged alike. */
  lemma {:induction false} DualsRanged(us: seq<Entry>)
    requires Ranged(us) && MarkersTwice(us)
    ensures Ranged(Duals(us)) && (Inside(Duals(us)) <==> Inside(us))
    decreases |us|
  {
    if us != [] {
      var n := |us| - 1;
      DualsRanged(us[..n]);
      RangedSnoc(Duals(us[..n]), us[n]);
      RangedSnoc(us[..n], us[n]);
      assert us[..n] + [us[n]] == us;
      assert Duals(us) == if us[n].dual then Duals(us[..n]) + [us[n]] else Duals(us[..n]);
    }
  }

  lemma OpenSnoc(rs: seq<R.Rec>, r: R.Rec, open: bool)
    ensures R.OpenAfter(rs + [r], open) == if r.logtype == R.BEGIN then true else if r.logtype == R.END then false else R.OpenAfter(rs, open)
    decreases |rs|
  {
    if rs == [] {
      assert rs + [r] == [r] && [r][1..] == [];
    } else {
      assert (rs + [r])[1..] == rs[1..] + [r];
      OpenSnoc(rs[1..], r, if rs[0].logtype == R.BEGIN then true else if rs[0].logtype == R.END then false else open);
    }
  }

  /** Ranges as recovery sees them. */
  lemma {:induction false} RangedRecs(cd: Codec, us: seq<Entry>)
    requires Coded(cd, us)
    ensures R.WellFormed(Recs(cd, us), false) <==> Ranged(us)
    ensures Ranged(us) ==> (R.OpenAfter(Recs(cd, us), false) <==> Inside(us))
    decreases |us|
  {
    if us != [] {
      var n := |us| - 1;
      var u, rs := us[n], Recs(cd, us[..n]);
      RangedRecs(cd, us[..n]);
      assert CodedOne(cd, u);
      assert Recs(cd, us) == rs + [RecOf(cd, u)];
      R.WellFormedConcat(rs, [RecOf(cd, u)], false);
      assert [RecOf(cd, u)][1..] == [];
      OpenSnoc(rs, RecOf(cd, u), false);
    }
  }
}
