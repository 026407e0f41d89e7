/**
 * A crash and the restart after it, end to end: the newest snapshot and then
 * what the disk holds of its log file (engines/default/checkpoint.c,
 * cmdlogmgr.c, cmdlogfile.c).
 */
module Crash {
  import opened Options
  import opened Octets
  import opened LogFiles
  import opened LogSync
  import opened LogRuns
  import C = Checkpoint
  import R = Recovery
  import opened CrashLog

  // What a crash leaves of a log file, and what recovery makes of it.

  /** What recovery redoes, as changes. */
  function Redone(cd: Codec, rs: seq<R.Rec>): (us: seq<C.Rec>)
    ensures |us| == |rs|
  {
    seq(|rs|, i requires 0 <= i < |rs| => cd.dec(rs[i]))
  }

  lemma {:induction false} ImageShorter(rs: seq<R.Rec>, i: nat)
    requires R.RecsOk(rs) && i < |rs|
    ensures R.RecsOk(rs[..i]) && |R.Image(rs[..i])| + R.HDR + |rs[i].body| <= |R.Image(rs)|
  {
    hide R.Image, R.Encode;
    var a, b := rs[..i], rs[i + 1..];
    R.ImageSnoc(a, rs[i]);
    R.ImageConcat(a + [rs[i]], b);
    assert a + [rs[i]] + b == rs;
  }

  /** Of the records in a file, those are read that it holds in full. */
  lemma ReadsWhole(rs: seq<R.Rec>, n: nat, i: nat)
    requires R.RecsOk(rs) && i <= |rs| && |R.Image(rs[..i])| <= n
    ensures i <= |R.Complete(rs, n)|
  {
    hide R.Image, R.Encode, R.Complete;
    R.CompleteLongest(rs, n);
    var c := R.Complete(rs, n);
    if |c| < i {
      assert rs[..i][..|c|] == c;
      ImageShorter(rs[..i], |c|);
    }
  }

  lemma {:induction false} PlainConcat(a: seq<R.Rec>, b: seq<R.Rec>)
    ensures R.Plain(a + b) == R.Plain(a) + R.Plain(b)
  {
    hide R.Marker;
    if a == [] {
      assert a + b == b;
    } else {
      PlainConcat(a[1..], b);
      assert (a + b)[1..] == a[1..] + b;
      R.Regroup(if R.Marker(a[0]) then [] else [a[0]], R.Plain(a[1..]), R.Plain(b));
    }
  }

  /** The records that are no markers, read back, are the changes. */
  lemma {:induction false} PlainUpdates(cd: Codec, us: seq<Entry>)
    requires Coded(cd, us)
    ensures Redone(cd, R.Plain(Recs(cd, us))) == Updates(us)
    decreases |us|
  {
    if us == [] {
      assert Recs(cd, us) == [];
    } else {
      var n := |us| - 1;
      var u := us[n];
      PlainUpdates(cd, us[..n]);
      assert CodedOne(cd, u);
      assert Recs(cd, us) == Recs(cd, us[..n]) + [RecOf(cd, u)];
      PlainConcat(Recs(cd, us[..n]), [RecOf(cd, u)]);
      assert [RecOf(cd, u)][1..] == [];
    }
  }

  lemma RecsFront(cd: Codec, us: seq<Entry>, n: nat)
    requires n <= |us|
    ensures Recs(cd, us)[..n] == Recs(cd, us[..n])
  {}

  lemma FrontCoded(cd: Codec, w: seq<Entry>, i: nat)
    requires Coded(cd, w) && i <= |w|
    ensures Coded(cd, w[..i])
  {}

  /** How much of a file the first `i` of its records take. */
  lemma FrontImage(cd: Codec, w: seq<Entry>, i: nat)
    requires Coded(cd, w) && i <= |w|
    ensures Coded(cd, w[..i]) && R.RecsOk(Recs(cd, w)[..i]) && |R.Image(Recs(cd, w)[..i])| == |Flat(cd, w[..i])|
  {
    hide Flat, CodedOne, R.Image, Bytes;
    FlatBytes(cd, w[..i]);
    RecsFront(cd, w, i);
    BytesLength(Flat(cd, w[..i]));
  }

  lemma BytesLength(s: seq<Logged>)
    ensures |Bytes(s)| == |s|
  {}

  /** Of a range-wise complete front of the records it is clear where it ends in the file. */
  lemma FrontRanged(cd: Codec, w: seq<Entry>, i: nat)
    requires Coded(cd, w) && Ranged(w) && i <= |w|
    ensures R.OpenAfter(Recs(cd, w)[..i], false) <==> Inside(w[..i])
  {
    hide R.OpenAfter, Ranged, Inside, CodedOne;
    FrontCoded(cd, w, i);
    RangedFront(w, i);
    RecsFront(cd, w, i);
    RangedRecs(cd, w[..i]);
  }

  /**
   * What recovery makes of any front of the file of such records: the changes
   * up to the last point outside all ranges, among those it has in full.
   */
  lemma RecoverHeld(cd: Codec, file: seq<Byte>, w: seq<Entry>) returns (t: nat)
    requires Coded(cd, w) && Ranged(w) && file <= Bytes(Flat(cd, w))
    ensures t <= |w| && !Inside(w[..t]) && R.Recover(file).Applied? && Redone(cd, R.Recover(file).redone) == Updates(w[..t])
    ensures forall i: nat | i <= |w| && Coded(cd, w[..i]) && |Flat(cd, w[..i])| <= |file| && !Inside(w[..i]) :: i <= t
  {
    hide Flat, CodedOne, R.Image, R.Recover, Bytes, R.Marker, R.RecOk, R.Complete, R.WellFormed, R.OpenAfter, R.Plain, R.Redo, R.Selected,
         Ranged, Inside, Updates, Redone, Recs;
    var rs := Recs(cd, w);
    FlatBytes(cd, w);
    RangedRecs(cd, w);
    R.RecoverTruncated(file, rs);
    var c := R.Complete(rs, |file|);
    assert c == rs[..|c|];
    R.WellFormedPrefix(rs, c, false);
    R.RedoIsSelected(c);
    t := Settle(c);
    assert c[..t] == rs[..t];
    FrontRanged(cd, w, t);
    RecsFront(cd, w, t);
    FrontCoded(cd, w, t);
    PlainUpdates(cd, w[..t]);
    forall i: nat | i <= |w| && Coded(cd, w[..i]) && |Flat(cd, w[..i])| <= |file| && !Inside(w[..i])
      ensures i <= t
    {
      FrontImage(cd, w, i);
      ReadsWhole(rs, |file|, i);
      FrontRanged(cd, w, i);
      assert c[..i] == rs[..i];
    }
  }

  lemma Settle(c: seq<R.Rec>) returns (t: nat)
    requires R.WellFormed(c, false)
    ensures t <= |c| && !R.OpenAfter(c[..t], false) && R.Redo(c, false, []) == Some(R.Plain(c[..t]))
    ensures forall i: nat | i <= |c| && !R.OpenAfter(c[..i], false) :: i <= t
  {
    hide R.WellFormed, R.OpenAfter, R.Redo, R.Plain;
    var s := R.RedoClosed(c, false, []);
    R.ClosedStart(c, false, s);
    t := s;
    assert [] + R.Plain(c[..t]) == R.Plain(c[..t]);
  }

  // The file that recovery takes, and what it holds.

  /** Recovery may take file `f`: the current one, or the next one if its checkpoint has not failed. */
  predicate Taken(p: Pipe, f: nat) {
    p.cur <= f < |p.files| && (f > p.cur ==> !Doomed(p))
  }

  /** Where the log stood when the checkpoint of file `f` began ... */
  function Began(p: Pipe, f: nat): nat
    requires MarksOk(p) && f < |p.files|
  {
    if f == 0 then 0 else p.starts[f]
  }

  /** ... and when it ended, or stands now if it has not. */
  function Ended(p: Pipe, f: nat): nat
    requires MarksOk(p) && f < |p.files|
  {
    if f < |p.marks| then p.marks[f] else |p.log|
  }

  /** What file `f` is given before its own part of the log. */
  function Given(p: Pipe, f: nat): seq<Byte>
    requires MarksOk(p) && f < |p.files|
  {
    if f == 0 then p.init else p.extras[f] + Twice(p, f, Ended(p, f))
  }

  /** The checkpoint of file `f` saw the updates from number `a` up to number `m`. */
  ghost predicate During(cd: Codec, p: Pipe, us: seq<Entry>, f: nat, a: nat, m: nat)
    requires Coded(cd, us) && MarksOk(p) && f < |p.files|
  {
    a <= m && StoodAt(cd, us, Began(p, f), a) && StoodAt(cd, us, Ended(p, f), m)
  }

  /**
   * A run of the log of a server that was started with the records `prior` in its
   * log file, no range open, and has logged the records `us` since.
   */
  ghost predicate Logging(cd: Codec, ps: seq<Pipe>, es: seq<LogEvent>, prior: seq<Entry>, us: seq<Entry>) {
    && Run(ps, es) && Coded(cd, prior) && Coded(cd, us) && Logs(cd, es, us)
    && ps[|es|].init == Bytes(Flat(cd, prior)) && MarksOk(ps[|es|])
    && Ranged(prior) && !Inside(prior) && Ranged(us)
  }

  lemma LogNow(cd: Codec, ps: seq<Pipe>, es: seq<LogEvent>, prior: seq<Entry>, us: seq<Entry>)
    requires Logging(cd, ps, es, prior, us)
    ensures Inv(ps[|es|]) && ps[|es|].log == Flat(cd, us)
  {
    hide Flat, Inv, SyncInv, Next, Enabled, Start, MarksOk, Logs, CodedOne, Bytes;
    RunKeeps(ps, es, |es|);
    assert es[..|es|] == es;
    LogIsFlat(cd, ps, es, |es|, us);
  }

  /** There are such numbers: checkpoints begin and end between two updates. */
  lemma Window(cd: Codec, ps: seq<Pipe>, es: seq<LogEvent>, prior: seq<Entry>, us: seq<Entry>, f: nat) returns (a: nat, m: nat)
    requires Logging(cd, ps, es, prior, us) && f < |ps[|es|].files|
    ensures During(cd, ps[|es|], us, f, a, m)
    ensures f == 0 ==> m == 0
  {
    hide Flat, Next, Enabled, Start, CodedOne, Bytes, MarksOk, Inv, Logs, Aligned;
    LogNow(cd, ps, es, prior, us);
    assert es[..|es|] == es;
    RunAligned(cd, ps, es, |es|, us);
    a, m := WindowOf(cd, ps[|es|], us, f);
  }

  lemma WindowOf(cd: Codec, p: Pipe, us: seq<Entry>, f: nat) returns (a: nat, m: nat)
    requires Coded(cd, us) && MarksOk(p) && f < |p.files| && p.log == Flat(cd, us) && Aligned(cd, us, p)
    ensures During(cd, p, us, f, a, m)
    ensures f == 0 ==> m == 0
  {
    hide Flat, Coded;
    StoodNow(cd, us);
    StoodFirst(cd, us);
    var start, end := Began(p, f), Ended(p, f);
    a :| StoodAt(cd, us, start, a);
    m :| StoodAt(cd, us, end, m);
    assert StoodAt(cd, us, start, a) && StoodAt(cd, us, end, m);
    if m < a { FlatGrows(cd, us, m, a); }
    if f == 0 { SameStood(cd, us, 0, m, 0); }
  }

  /** The records in front: what was there at the start, or what was written twice during the checkpoint. */
  function Front(prior: seq<Entry>, us: seq<Entry>, f: nat, a: nat, m: nat): seq<Entry>
    requires a <= m <= |us|
  {
    if f == 0 then prior else Duals(us[a..m])
  }

  /** The records of file `f`, when everything logged has been flushed. */
  function Held(prior: seq<Entry>, us: seq<Entry>, f: nat, a: nat, m: nat): seq<Entry>
    requires a <= m <= |us|
  {
    Front(prior, us, f, a, m) + us[m..]
  }

  lemma HeldCoded(cd: Codec, prior: seq<Entry>, us: seq<Entry>, f: nat, a: nat, m: nat)
    requires Coded(cd, prior) && Coded(cd, us) && a <= m <= |us|
    ensures Coded(cd, us[a..m]) && Coded(cd, us[m..]) && Coded(cd, Front(prior, us, f, a, m)) && Coded(cd, Held(prior, us, f, a, m))
  {
    hide CodedOne, Duals, Flat;
    SliceOf(cd, us, a, m);
    DualsCoded(cd, us[a..m]);
  }

  /** A checkpoint begins outside all ranges, and markers are written twice until it ends. */
  predicate Undivided(us: seq<Entry>, a: nat, m: nat)
    requires a <= m <= |us|
  {
    !Inside(us[..a]) && MarkersTwice(us[a..m])
  }

  /** The last point outside all ranges. */
  predicate LastOutside(us: seq<Entry>, b: nat) {
    b <= |us| && !Inside(us[..b]) && forall i | b < i <= |us| :: Inside(us[..i])
  }

  lemma {:induction false} FindOutside(us: seq<Entry>) returns (b: nat)
    ensures LastOutside(us, b)
    decreases |us|
  {
    hide Inside;
    assert us[..|us|] == us;
    NotInside(us);
    if Inside(us) {
      var n := |us| - 1;
      b := FindOutside(us[..n]);
      forall i | 0 <= i <= n
        ensures us[..n][..i] == us[..i]
      {}
    } else {
      b := |us|;
    }
  }

  lemma HeldRanged(prior: seq<Entry>, us: seq<Entry>, f: nat, a: nat, m: nat)
    requires Ranged(prior) && !Inside(prior) && Ranged(us) && a <= m <= |us| && (if f == 0 then m == 0 else Undivided(us, a, m))
    requires m == |us| || !Inside(us[..m])
    ensures Ranged(Front(prior, us, f, a, m)) && (Inside(Front(prior, us, f, a, m)) ==> Inside(us[..m])) && Ranged(Held(prior, us, f, a, m))
  {
    hide Ranged, Inside, Duals;
    NotInside(us);
    RangedFront(us, m);
    if f > 0 {
      RangedConcat(us[..a], us[a..m]);
      FrontSplit(us, a, m);
      DualsRanged(us[a..m]);
    }
    var ds := Front(prior, us, f, a, m);
    if m < |us| || !Inside(us[..m]) {
      RangedConcat(us[..m], us[m..]);
      assert us[..m] + us[m..] == us;
      RangedConcat(ds, us[m..]);
    } else {
      assert ds + us[m..] == ds;
    }
  }

  /** In a range that is still open, every front of what is written twice ends inside it. */
  lemma {:induction false} OpenDuals(us: seq<Entry>, i: nat)
    requires Ranged(us) && MarkersTwice(us) && (forall i | 0 < i <= |us| :: Inside(us[..i])) && 0 < i <= |Duals(us)|
    ensures Inside(Duals(us)[..i])
    decreases |us|
  {
    hide Inside;
    assert us[..|us|] == us;
    if i == |Duals(us)| {
      assert Duals(us)[..i] == Duals(us);
      DualsRanged(us);
    } else {
      var front := us[..|us| - 1];
      assert Duals(us)[..i] == Duals(front)[..i];
      forall i | 0 < i <= |front|
        ensures Inside(front[..i])
      {
        assert front[..i] == us[..i];
      }
      RangedFront(us, |us| - 1);
      OpenDuals(front, i);
    }
  }

  lemma NotInside(us: seq<Entry>)
    ensures !Inside(us[..0])
  {}

  lemma BytesFront(s: seq<Logged>, n: nat)
    requires n <= |s|
    ensures Bytes(s[..n]) <= Bytes(s)
  {}

  /** What was written twice for file `f` is what was written twice of the updates its checkpoint saw. */
  lemma GivenIs(cd: Codec, p: Pipe, prior: seq<Entry>, us: seq<Entry>, f: nat, a: nat, m: nat)
    requires MarksOk(p) && f < |p.files| && p.extras[f] == [] && Coded(cd, prior) && Coded(cd, us)
    requires p.log == Flat(cd, us) && p.init == Bytes(Flat(cd, prior)) && During(cd, p, us, f, a, m)
    ensures Coded(cd, Front(prior, us, f, a, m)) && Given(p, f) == Bytes(Flat(cd, Front(prior, us, f, a, m)))
  {
    hide Flat, Bytes, Dual, CodedOne, Duals;
    HeldCoded(cd, prior, us, f, a, m);
    if f > 0 {
      SliceOf(cd, us, a, m);
      assert p.log[p.starts[f]..Ended(p, f)] == Flat(cd, us[a..m]);
      FlatDuals(cd, us[a..m]);
      assert [] + Twice(p, f, Ended(p, f)) == Twice(p, f, Ended(p, f));
    }
  }

  /** A file that has not taken over holds a part of what it is given, the current one all of it and a part of the log. */
  lemma FileFront(p: Pipe, f: nat)
    requires Inv(p) && Taken(p, f)
    ensures MarksOk(p)
    ensures if f == p.cur then p.files[f].bytes <= Given(p, f) + Bytes(p.log[p.marks[f]..]) else p.files[f].bytes <= Given(p, f)
  {
    hide Bytes, Dual, LsnsOk, DualOk, BoundsOk, FlusherOk;
    FilesBounds(p);
    if f == p.cur {
      assert FileOk(p, f);
      var own, n := p.log[p.marks[f]..], EndOf(p, f) - p.marks[f];
      assert p.log[p.marks[f]..EndOf(p, f)] == own[..n];
      BytesFront(own, n);
    } else if p.starts[f] <= WrittenTo(p) {
      DualSplit(p.log, p.starts[f], WrittenTo(p), Ended(p, f));
    }
  }

  /** File `f` holds a front of these records' images; the part for the checkpoint comes first. */
  lemma FileHolds(cd: Codec, ps: seq<Pipe>, es: seq<LogEvent>, prior: seq<Entry>, us: seq<Entry>, f: nat) returns (a: nat, m: nat)
    requires Logging(cd, ps, es, prior, us) && Taken(ps[|es|], f) && !Late(ps, es, |es|, f)
    ensures During(cd, ps[|es|], us, f, a, m)
    ensures Coded(cd, Front(prior, us, f, a, m)) && Coded(cd, Held(prior, us, f, a, m))
    ensures Given(ps[|es|], f) == Bytes(Flat(cd, Front(prior, us, f, a, m)))
    ensures ps[|es|].files[f].bytes <= Bytes(Flat(cd, Held(prior, us, f, a, m)))
    ensures (f < |ps[|es|].marks| || m == |us|) && (f == 0 ==> m == 0)
  {
    hide Flat, Bytes, Dual, CodedOne, Next, Enabled, Start, Logs, Late, Inv, MarksOk, Duals, Given, Taken;
    var p := ps[|es|];
    TakenOpen(p, f);
    a, m := Window(cd, ps, es, prior, us, f);
    LogNow(cd, ps, es, prior, us);
    ExtraExact(ps, es, |es|, f);
    GivenIs(cd, p, prior, us, f, a, m);
    FileFront(p, f);
    HeldCoded(cd, prior, us, f, a, m);
    SliceOf(cd, us, a, m);
    var ds := Front(prior, us, f, a, m);
    FlatConcat(cd, ds, us[m..]);
    BytesJoin(Flat(cd, ds), Flat(cd, us[m..]));
    if f == p.cur {
      TakenMark(p, f);
      assert p.log[p.marks[f]..] == Flat(cd, us[m..]);
    } else if f >= |p.marks| {
      StoodNow(cd, us);
      assert us[..|us|] == us;
      SameStood(cd, us, |p.log|, m, |us|);
    }
  }

  lemma TakenOpen(p: Pipe, f: nat)
    requires Taken(p, f)
    ensures f < |p.files|
  {}

  lemma TakenMark(p: Pipe, f: nat)
    requires MarksOk(p) && f == p.cur
    ensures f < |p.marks| && p.marks[f] <= |p.log|
  {}

  // The cache after a restart.

  /** The snapshot, then what was redone from the log file. */
  function Restarted(cd: Codec, snap: seq<C.Rec>, redone: seq<R.Rec>, k: string): Option<C.Val> {
    C.Replay(C.Replay(None, snap, k), Redone(cd, redone), k)
  }

  /** The cache after the first `j` updates, if it began as `start`. */
  function Cache(start: string -> Option<C.Val>, us: seq<Entry>, j: nat, k: string): Option<C.Val>
    requires j <= |us|
  {
    C.Replay(start(k), Updates(us[..j]), k)
  }

  /** A snapshot and the records behind it make the cache after `m` updates. */
  ghost predicate Exact(snap: seq<C.Rec>, rs: seq<C.Rec>, start: string -> Option<C.Val>, us: seq<Entry>, m: nat)
    requires m <= |us|
  {
    forall k :: C.Replay(C.Replay(None, snap, k), rs, k) == Cache(start, us, m, k)
  }

  /**
   * `snap` is the snapshot of the checkpoint of file `f`: it is exact where the
   * checkpoint ended, or at the last point outside all ranges if it has not.
   */
  ghost predicate Snapshot(cd: Codec, p: Pipe, prior: seq<Entry>, us: seq<Entry>, start: string -> Option<C.Val>, f: nat, snap: seq<C.Rec>)
    requires Coded(cd, us) && MarksOk(p) && f < |p.files|
  {
    forall a: nat, m: nat, b: nat | During(cd, p, us, f, a, m) && LastOutside(us[..m], b) ::
      && a <= b && (f < |p.marks| ==> b == m) && (f > 0 ==> Undivided(us, a, m))
      && Exact(snap, Updates(Front(prior, us, f, a, b)), start, us, b)
  }

  lemma CacheMore(start: string -> Option<C.Val>, us: seq<Entry>, m: nat, j: nat, k: string)
    requires m <= j <= |us|
    ensures Cache(start, us, j, k) == C.Replay(Cache(start, us, m, k), Updates(us[m..j]), k)
  {
    hide C.Replay, Updates;
    assert us[..j] == us[..m] + us[m..j];
    UpdatesConcat(us[..m], us[m..j]);
    C.ReplayConcat(start(k), Updates(us[..m]), Updates(us[m..j]), k);
  }

  /** Redoing the front and some of the records behind it makes the cache after that many more updates. */
  lemma RestartedAfter(cd: Codec, snap: seq<C.Rec>, start: string -> Option<C.Val>, ds: seq<Entry>, us: seq<Entry>, m: nat, j: nat, rs: seq<R.Rec>, k: string)
    requires m <= j <= |us| && Exact(snap, Updates(ds), start, us, m) && Redone(cd, rs) == Updates(ds + us[m..j])
    ensures Restarted(cd, snap, rs, k) == Cache(start, us, j, k)
  {
    hide C.Replay, Cache, Redone, Updates;
    UpdatesConcat(ds, us[m..j]);
    C.ReplayConcat(C.Replay(None, snap, k), Updates(ds), Updates(us[m..j]), k);
    CacheMore(start, us, m, j, k);
  }

  /** In front of the last point outside all ranges lies what the checkpoint is exact with; behind it, an open range or the rest of the log. */
  lemma HeldSplit(prior: seq<Entry>, us: seq<Entry>, f: nat, a: nat, b: nat, m: nat)
    requires a <= b <= m <= |us| && (f == 0 ==> m == 0)
    ensures Held(prior, us, f, a, m) == Front(prior, us, f, a, b) + (Duals(us[b..m]) + us[m..])
    ensures b == m ==> Duals(us[b..m]) + us[m..] == us[m..]
  {
    if f > 0 {
      assert us[a..m] == us[a..b] + us[b..m];
      DualsConcat(us[a..b], us[b..m]);
    }
    assert b == m ==> us[b..m] == [];
  }

  /** Of a file with a range still open, what recovery redoes ends in front of that range. */
  lemma OpenStops(prior: seq<Entry>, us: seq<Entry>, f: nat, a: nat, b: nat, t: nat)
    requires Ranged(us) && a <= b < |us| && 0 < f && Undivided(us, a, |us|) && LastOutside(us, b)
    requires t <= |Held(prior, us, f, a, |us|)| && !Inside(Held(prior, us, f, a, |us|)[..t])
    ensures t <= |Front(prior, us, f, a, b)|
  {
    hide Ranged, Inside, Duals;
    var m, ds, more := |us|, Front(prior, us, f, a, b), us[b..];
    HeldSplit(prior, us, f, a, b, m);
    assert us[b..m] == more && us[m..] == [] && Duals(more) + [] == Duals(more);
    RangedConcat(us[..b], more);
    assert us[..b] + more == us;
    assert us[a..|us|] == us[a..];
    MarkersSlices(us, a, b);
    FrontClosed(us, a, b);
    forall i | 0 < i <= |more|
      ensures Inside(more[..i])
    {
      assert us[..b] + more[..i] == us[..b + i];
      RangedConcat(us[..b], more[..i]);
    }
    if |ds| < t {
      var i := t - |ds|;
      assert (ds + Duals(more))[..t] == ds + Duals(more)[..i];
      RangedConcat(ds, Duals(more)[..i]);
      OpenDuals(more, i);
    }
  }

  /** What is written twice between two points outside all ranges ends outside them. */
  lemma FrontClosed(us: seq<Entry>, a: nat, b: nat)
    requires Ranged(us) && a <= b <= |us| && !Inside(us[..a]) && !Inside(us[..b]) && MarkersTwice(us[a..b])
    ensures !Inside(Duals(us[a..b]))
  {
    hide Ranged, Inside, Duals, MarkersTwice;
    RangedFront(us, b);
    RangedConcat(us[..a], us[a..b]);
    FrontSplit(us, a, b);
    DualsRanged(us[a..b]);
  }

  lemma MarkersSlices(us: seq<Entry>, a: nat, b: nat)
    requires a <= b <= |us| && MarkersTwice(us[a..])
    ensures MarkersTwice(us[a..b]) && MarkersTwice(us[b..])
  {
    assert forall i | 0 <= i < b - a :: us[a..b][i] == us[a..][i];
    assert forall i | 0 <= i < |us| - b :: us[b..][i] == us[a..][i + b - a];
  }

  /** When the checkpoint of file `f` ended, or now, `m` was the last point outside all ranges. */
  ghost predicate EndedAt(cd: Codec, p: Pipe, us: seq<Entry>, f: nat, m: nat)
    requires Coded(cd, us) && MarksOk(p) && f < |p.files|
  {
    exists x: nat :: StoodAt(cd, us, Ended(p, f), x) && LastOutside(us[..x], m)
  }

  /**
   * Crash consistency: if no chunk came too late for the file and the disk has
   * all that the file was given during its checkpoint, then whatever else it
   * has of the file, the cache after a restart is the cache as it was after
   * some number of records, outside all ranges, and has everything up to the
   * last such point that is wholly on disk.
   */
  lemma CrashConsistent(cd: Codec, ps: seq<Pipe>, es: seq<LogEvent>, prior: seq<Entry>, us: seq<Entry>,
                        start: string -> Option<C.Val>, f: nat, snap: seq<C.Rec>, n: nat) returns (m: nat, j: nat)
    requires Logging(cd, ps, es, prior, us) && Taken(ps[|es|], f) && !Late(ps, es, |es|, f)
    requires var p := ps[|es|]; Snapshot(cd, p, prior, us, start, f, snap) && |Given(p, f)| <= n <= |p.files[f].bytes|
    ensures m <= j <= |us| && EndedAt(cd, ps[|es|], us, f, m) && !Inside(us[..j])
    ensures f < |ps[|es|].marks| ==> StoodAt(cd, us, ps[|es|].marks[f], m)
    ensures var o := R.Recover(ps[|es|].files[f].bytes[..n]);
            o.Applied? && forall k :: Restarted(cd, snap, o.redone, k) == Cache(start, us, j, k)
    ensures f < |ps[|es|].marks| ==>
              forall x: nat | m <= x <= |us| && !Inside(us[..x]) && |Given(ps[|es|], f)| + |Flat(cd, us[m..x])| <= n :: x <= j
  {
    hide Flat, Bytes, Next, Enabled, Start, Logs, CodedOne, MarksOk, Given, Taken, Late, R.Recover, Restarted, Cache, Exact, Duals, Updates, Redone,
         Ranged, Inside, Undivided;
    var p := ps[|es|];
    TakenOpen(p, f);
    var a, x := FileHolds(cd, ps, es, prior, us, f);
    m := FindOutside(us[..x]);
    assert us[..x][..m] == us[..m];
    var ds, w := Front(prior, us, f, a, x), Held(prior, us, f, a, x);
    var file := p.files[f].bytes[..n];
    OutsideNow(us, x, m);
    HeldRanged(prior, us, f, a, x);
    BytesLength(Flat(cd, ds));
    var t := RecoverHeld(cd, file, w);
    assert w[..|ds|] == ds;
    if m == x {
      j := m + t - |ds|;
      HeldInside(ds, us, m, j);
      AllRestarted(cd, snap, start, ds, us, m, j, R.Recover(file).redone);
      forall y: nat | m <= y <= |us| && !Inside(us[..y]) && |Given(p, f)| + |Flat(cd, us[m..y])| <= n
        ensures y <= j
      {
        HeldInside(ds, us, m, y);
        SliceOf(cd, us, m, y);
        FlatConcat(cd, ds, us[m..y]);
      }
    } else {
      j := m;
      assert us[..x] == us && w == ds;
      OpenHeld(cd, prior, us, f, a, m, n, t);
      assert Front(prior, us, f, a, m) + us[m..m] == Front(prior, us, f, a, m);
      AllRestarted(cd, snap, start, Front(prior, us, f, a, m), us, m, j, R.Recover(file).redone);
    }
  }

  lemma AllRestarted(cd: Codec, snap: seq<C.Rec>, start: string -> Option<C.Val>, ds: seq<Entry>, us: seq<Entry>, m: nat, j: nat, rs: seq<R.Rec>)
    requires m <= j <= |us| && Exact(snap, Updates(ds), start, us, m) && Redone(cd, rs) == Updates(ds + us[m..j])
    ensures forall k :: Restarted(cd, snap, rs, k) == Cache(start, us, j, k)
  {
    hide Restarted, Cache, Exact, Redone, Updates;
    forall k
      ensures Restarted(cd, snap, rs, k) == Cache(start, us, j, k)
    {
      RestartedAfter(cd, snap, start, ds, us, m, j, rs, k);
    }
  }

  lemma OutsideNow(us: seq<Entry>, x: nat, m: nat)
    requires x <= |us| && LastOutside(us[..x], m)
    ensures m <= x && (m == x ==> !Inside(us[..x]))
  {
    assert us[..x][..m] == us[..m];
  }

  /** With all that the file was given on disk and a range open, recovery redoes what lies in front of the range. */
  lemma OpenHeld(cd: Codec, prior: seq<Entry>, us: seq<Entry>, f: nat, a: nat, b: nat, n: nat, t: nat)
    requires Ranged(us) && a <= b < |us| && 0 < f && Undivided(us, a, |us|) && LastOutside(us, b)
    requires var w := Held(prior, us, f, a, |us|);
             && Coded(cd, w) && |Flat(cd, w)| <= n && t <= |w| && !Inside(w[..t])
             && forall i: nat | i <= |w| && Coded(cd, w[..i]) && |Flat(cd, w[..i])| <= n && !Inside(w[..i]) :: i <= t
    ensures Held(prior, us, f, a, |us|)[..t] == Front(prior, us, f, a, b)
  {
    hide Ranged, Inside, Duals, Flat, CodedOne;
    var w, ds := Held(prior, us, f, a, |us|), Front(prior, us, f, a, b);
    OpenStops(prior, us, f, a, b, t);
    HeldSplit(prior, us, f, a, b, |us|);
    assert w[..|ds|] == ds;
    SliceOf(cd, w, 0, |ds|);
    assert us[a..|us|] == us[a..];
    MarkersSlices(us, a, b);
    FrontClosed(us, a, b);
  }

  /** A front of the file ends inside a range just when the log does at that point. */
  lemma HeldInside(ds: seq<Entry>, us: seq<Entry>, m: nat, x: nat)
    requires m <= x <= |us| && !Inside(ds) && !Inside(us[..m])
    ensures (ds + us[m..])[..|ds| + x - m] == ds + us[m..x]
    ensures Inside(ds + us[m..x]) <==> Inside(us[..x])
  {
    hide Inside, Ranged;
    FrontBehind(ds, us, m, x);
    RangedConcat(ds, us[m..x]);
    FrontSplit(us, m, x);
    RangedConcat(us[..m], us[m..x]);
  }

  lemma FrontSplit(us: seq<Entry>, m: nat, x: nat)
    requires m <= x <= |us|
    ensures us[..m] + us[m..x] == us[..x]
  {}

  lemma FrontBehind(ds: seq<Entry>, us: seq<Entry>, m: nat, x: nat)
    requires m <= x <= |us|
    ensures (ds + us[m..])[..|ds| + x - m] == ds + us[m..x]
  {}

  // Updates whose writers were told that they are on disk.

  /** The writer of update `x` was told that its record is on disk; no flush request cuts the record. */
  ghost predicate Acked(cd: Codec, ps: seq<Pipe>, es: seq<LogEvent>, us: seq<Entry>, x: nat)
    requires Coded(cd, us) && |ps| == |es| + 1
  {
    exists i: nat :: i < |es| && AckedBy(cd, ps, es, us, x, i)
  }

  ghost predicate AckedBy(cd: Codec, ps: seq<Pipe>, es: seq<LogEvent>, us: seq<Entry>, x: nat, i: nat)
    requires Coded(cd, us) && |ps| == |es| + 1 && i < |es|
  {
    es[i].Write? && es[i].cuts == {} && StoodAt(cd, us, |ps[i].log|, x) && LsnLess(ps[i].writeLsn, ps[|es|].fsyncLsn)
  }

  /** Then all of the log up to the end of the record is on disk. */
  lemma AckedDurable(cd: Codec, ps: seq<Pipe>, es: seq<LogEvent>, prior: seq<Entry>, us: seq<Entry>, x: nat)
    requires Logging(cd, ps, es, prior, us) && Acked(cd, ps, es, us, x)
    ensures var p := ps[|es|];
            && x < |us| && Inv(p) && |Flat(cd, us[..x + 1])| <= p.fsyncPos <= WrittenTo(p) <= |p.log| && Durable(p, p.fsyncPos)
  {
    hide Flat, Inv, SyncInv, Next, Enabled, Start, MarksOk, Durable, CodedOne, LsnLess, Bytes;
    var i: nat :| i < |es| && AckedBy(cd, ps, es, us, x, i);
    assert es[..|es|] == es;
    var y := Wrote(cd, ps, es, |es|, us, i);
    SameStood(cd, us, |ps[i].log|, x, y);
    WholeDurable(ps, es, i, |es|);
    NotifiedDurable(ps, es, i, |es|);
  }

  /** Once a record that was logged for file `f` itself is on disk, so is all that the file was given before. */
  lemma GivenOnDisk(p: Pipe, f: nat, pos: nat)
    requires Inv(p) && Taken(p, f) && f < |p.marks| && p.marks[f] < pos <= WrittenTo(p) && Durable(p, pos)
    ensures MarksOk(p) && f == p.cur && |Given(p, f)| + pos - p.marks[f] <= p.files[f].synced
  {
    hide Twice, DualOk, LsnsOk, FlusherOk, BoundsOk, NextOk;
    FilesBounds(p);
    assert Need(p, f, pos) <= p.files[f].synced;
  }

  /**
   * Nothing acknowledged is lost: once an update logged after the checkpoint of
   * file `f` has been acknowledged, whatever a crash leaves of the file makes a
   * restart that has it, and all updates before it.
   */
  lemma NoneLost(cd: Codec, ps: seq<Pipe>, es: seq<LogEvent>, prior: seq<Entry>, us: seq<Entry>,
                 start: string -> Option<C.Val>, f: nat, snap: seq<C.Rec>, n: nat, x: nat) returns (j: nat)
    requires Logging(cd, ps, es, prior, us) && Taken(ps[|es|], f) && !Late(ps, es, |es|, f)
    requires var p := ps[|es|]; Snapshot(cd, p, prior, us, start, f, snap) && p.files[f].synced <= n <= |p.files[f].bytes|
    requires Acked(cd, ps, es, us, x) && x < |us| && Ended(ps[|es|], f) <= |Flat(cd, us[..x])| && !Inside(us[..x + 1])
    ensures x < j <= |us| && !Inside(us[..j])
    ensures var o := R.Recover(ps[|es|].files[f].bytes[..n]);
            o.Applied? && forall k :: Restarted(cd, snap, o.redone, k) == Cache(start, us, j, k)
  {
    hide Flat, Bytes, Next, Enabled, Start, Logs, CodedOne, MarksOk, Given, Taken, Late, R.Recover, Restarted, Cache, Inv, Durable, Acked, Snapshot, Inside, Ranged;
    var p := ps[|es|];
    TakenOpen(p, f);
    AckedDurable(cd, ps, es, prior, us, x);
    FlatGrows(cd, us, x, x + 1);
    LogNow(cd, ps, es, prior, us);
    var m;
    GivenOnDisk(p, f, p.fsyncPos);
    m, j := CrashConsistent(cd, ps, es, prior, us, start, f, snap, n);
    if x < m { FlatGrows(cd, us, x, m); }
    SliceOf(cd, us, m, x + 1);
  }

  // What a crash cannot do to a key, however little is left of the file.

  /** None of the changes concerns key `k`. */
  ghost predicate Elsewhere(us: seq<Entry>, k: string) { forall u | u in us && u.note.Change? :: u.note.rec.key != k }

  lemma {:induction false} RedoElsewhere(v: Option<C.Val>, us: seq<Entry>, k: string)
    requires Elsewhere(us, k)
    ensures C.Replay(v, Updates(us), k) == v
    decreases |us|
  {
    hide C.Replay;
    if us == [] {
      C.ReplayOthers(v, [], k);
    } else {
      var n := |us| - 1;
      assert us[n] in us;
      RedoElsewhere(v, us[..n], k);
      assert Updates(us) == if us[n].note.Change? then Updates(us[..n]) + [us[n].note.rec] else Updates(us[..n]);
      if us[n].note.Change? { C.ReplaySnoc(v, Updates(us[..n]), us[n].note.rec, k); }
    }
  }

  /** A key is as it was last if the records that were not redone do not concern it, nor those that never will be. */
  lemma KeyRestarted(cd: Codec, snap: seq<C.Rec>, start: string -> Option<C.Val>, ds: seq<Entry>, more: seq<Entry>, us: seq<Entry>,
                     b: nat, t: nat, rs: seq<R.Rec>, k: string)
    requires b <= |us| && Exact(snap, Updates(ds), start, us, b) && (more == us[b..] || (Elsewhere(more, k) && Elsewhere(us[b..], k)))
    requires t <= |ds + more| && Redone(cd, rs) == Updates((ds + more)[..t]) && Elsewhere((ds + more)[t..], k)
    ensures Restarted(cd, snap, rs, k) == Cache(start, us, |us|, k)
  {
    hide C.Replay, Cache, Elsewhere, Updates, Redone;
    var w, v := ds + more, C.Replay(None, snap, k);
    assert w == w[..t] + w[t..];
    UpdatesConcat(w[..t], w[t..]);
    C.ReplayConcat(v, Updates(w[..t]), Updates(w[t..]), k);
    RedoElsewhere(C.Replay(v, Updates(w[..t]), k), w[t..], k);
    UpdatesConcat(ds, more);
    C.ReplayConcat(v, Updates(ds), Updates(more), k);
    CacheMore(start, us, b, |us|, k);
    assert us[b..|us|] == us[b..];
    if more != us[b..] {
      RedoElsewhere(Cache(start, us, b, k), more, k);
      RedoElsewhere(Cache(start, us, b, k), us[b..], k);
    }
  }

  /** What was there at the start stays on disk. */
  lemma {:induction false} InitSynced(ps: seq<Pipe>, es: seq<LogEvent>, i: nat)
    requires Run(ps, es) && i <= |es|
    ensures |ps[i].files| > 0 && |ps[i].init| <= ps[i].files[0].synced
    decreases i
  {
    hide Next, Enabled, Inv, SyncInv;
    if i > 0 {
      InitSynced(ps, es, i - 1);
      RunKeeps(ps, es, i - 1);
      SyncedGrows(ps[i - 1], es[i - 1]);
    }
  }

  lemma SyncedGrows(p: Pipe, e: LogEvent)
    requires MarksOk(p) && Enabled(p, e) && SyncInv(p)
    ensures var q := Next(p, e); q.init == p.init && |q.files| > 0 && p.files[0].synced <= q.files[0].synced
  {
    hide Bytes, Flagged, Void, Chunk, LsnLess, Tag, Closed, Counts, Durable, SyncerOk;
  }

  /** Of what was written twice for file `f`, the disk has what was logged before a durable position. */
  lemma TwiceOnDisk(p: Pipe, f: nat, pos: nat)
    requires MarksOk(p) && 0 < f < |p.files| && p.fsyncPos <= |p.log| && Durable(p, p.fsyncPos)
    requires pos <= p.fsyncPos && pos <= Ended(p, f)
    ensures |Twice(p, f, pos)| <= p.files[f].synced
  {
    hide Twice;
    assert Need(p, f, p.fsyncPos) <= p.files[f].synced;
    TwiceGrows(p, f, pos, if f < |p.marks| then Min(p.fsyncPos, p.marks[f]) else p.fsyncPos);
  }

  lemma TwiceIs(cd: Codec, p: Pipe, us: seq<Entry>, f: nat, a: nat, b: nat)
    requires MarksOk(p) && 0 < f < |p.files| && Coded(cd, us) && p.log == Flat(cd, us) && a <= b <= |us| && StoodAt(cd, us, p.starts[f], a)
    ensures Coded(cd, Duals(us[a..b])) && |Flat(cd, us[..b])| <= |p.log| && |Twice(p, f, |Flat(cd, us[..b])|)| == |Flat(cd, Duals(us[a..b]))|
  {
    hide Flat, Dual, CodedOne, Duals, Bytes, MarksOk;
    ShapeOf(p);
    SliceOf(cd, us, a, b);
    FlatDuals(cd, us[a..b]);
    BytesLength(Flat(cd, Duals(us[a..b])));
    assert p.log[p.starts[f]..|Flat(cd, us[..b])|] == Flat(cd, us[a..b]);
  }

  /** How many records of the file are on disk for certain, if the first `c` updates were acknowledged. */
  function Sure(prior: seq<Entry>, us: seq<Entry>, f: nat, a: nat, m: nat, c: nat): nat
    requires a <= m <= |us| && c <= |us|
  {
    if m < c || f == 0 then |Front(prior, us, f, a, m)| + if m < c then c - m else 0
    else if c <= a then 0
    else |Duals(us[a..c])|
  }

  lemma SureFront(prior: seq<Entry>, us: seq<Entry>, f: nat, a: nat, m: nat, c: nat, k: string)
    requires a <= m <= |us| && c <= |us| && (f == 0 ==> m == 0) && Elsewhere(us[c..], k)
    ensures Sure(prior, us, f, a, m, c) <= |Held(prior, us, f, a, m)|
    ensures Elsewhere(Held(prior, us, f, a, m)[Sure(prior, us, f, a, m, c)..], k)
  {
    hide Duals;
    var ds, w := Front(prior, us, f, a, m), Held(prior, us, f, a, m);
    var i := Sure(prior, us, f, a, m, c);
    if m < c || f == 0 {
      forall u | u in w[i..]
        ensures u in us[c..]
      {}
    } else {
      var b := if c <= a then a else c;
      assert us[a..m] == us[a..b] + us[b..m];
      DualsConcat(us[a..b], us[b..m]);
      assert c <= a ==> us[a..b] == [] && Duals([]) == [];
      assert w[i..] == Duals(us[b..m]) + us[m..];
      forall u | u in w[i..]
        ensures u in us[c..]
      {
        if u in Duals(us[b..m]) { DualsIn(us[b..m], u); }
      }
    }
  }

  /** They end outside all ranges if the updates do. */
  lemma SureClosed(prior: seq<Entry>, us: seq<Entry>, f: nat, a: nat, m: nat, c: nat)
    requires Ranged(prior) && !Inside(prior) && Ranged(us) && a <= m <= |us| && (if f == 0 then m == 0 else Undivided(us, a, m))
    requires c <= |us| && !Inside(us[..c]) && Sure(prior, us, f, a, m, c) <= |Held(prior, us, f, a, m)| && (m == |us| || !Inside(us[..m]))
    ensures !Inside(Held(prior, us, f, a, m)[..Sure(prior, us, f, a, m, c)])
  {
    hide Ranged, Inside, Duals;
    HeldRanged(prior, us, f, a, m);
    var ds, w := Front(prior, us, f, a, m), Held(prior, us, f, a, m);
    if m < c {
      HeldInside(ds, us, m, c);
    } else if f == 0 {
      assert w[..|ds|] == ds;
    } else if c <= a {
      NotInside(w);
    } else {
      RangedFront(us, c);
      RangedConcat(us[..a], us[a..c]);
      assert us[..a] + us[a..c] == us[..c];
      assert MarkersTwice(us[a..c]) by {
        assert forall i | 0 <= i < c - a :: us[a..c][i] == us[a..m][i];
      }
      DualsRanged(us[a..c]);
      assert us[a..m] == us[a..c] + us[c..m];
      DualsConcat(us[a..c], us[c..m]);
      assert w[..|Duals(us[a..c])|] == Duals(us[a..c]);
    }
  }

  lemma OwnOnDisk(cd: Codec, p: Pipe, ds: seq<Entry>, us: seq<Entry>, f: nat, m: nat, c: nat)
    requires Inv(p) && Taken(p, f) && f < |p.marks| && Coded(cd, us) && Coded(cd, ds) && StoodAt(cd, us, p.marks[f], m) && m < c <= |us|
    requires |Given(p, f)| == |Flat(cd, ds)| && |Flat(cd, us[..c])| <= p.fsyncPos <= WrittenTo(p) <= |p.log| && Durable(p, p.fsyncPos)
    ensures Coded(cd, ds + us[m..c]) && |Flat(cd, ds + us[m..c])| <= p.files[f].synced
  {
    hide Flat, CodedOne, Inv, Durable, Given, Taken;
    FlatGrows(cd, us, m, c);
    InvMarks(p);
    GivenOnDisk(p, f, p.fsyncPos);
    SliceOf(cd, us, m, c);
    FlatConcat(cd, ds, us[m..c]);
  }

  lemma CopiesOnDisk(cd: Codec, p: Pipe, us: seq<Entry>, f: nat, a: nat, m: nat, c: nat)
    requires Inv(p) && 0 < f < |p.files| && Coded(cd, us) && p.log == Flat(cd, us) && During(cd, p, us, f, a, m) && a <= c <= m
    requires |Flat(cd, us[..c])| <= p.fsyncPos <= |p.log| && Durable(p, p.fsyncPos)
    ensures Coded(cd, Duals(us[a..c])) && |Flat(cd, Duals(us[a..c]))| <= p.files[f].synced
  {
    hide Flat, CodedOne, Inv, Durable, Duals;
    InvMarks(p);
    if c < m { FlatGrows(cd, us, c, m); }
    TwiceIs(cd, p, us, f, a, c);
    TwiceOnDisk(p, f, |Flat(cd, us[..c])|);
  }

  lemma SureOnDisk(cd: Codec, ps: seq<Pipe>, es: seq<LogEvent>, prior: seq<Entry>, us: seq<Entry>, f: nat, a: nat, m: nat, c: nat)
    requires Logging(cd, ps, es, prior, us) && Taken(ps[|es|], f) && During(cd, ps[|es|], us, f, a, m) && (f == 0 ==> m == 0)
    requires Coded(cd, Front(prior, us, f, a, m)) && Given(ps[|es|], f) == Bytes(Flat(cd, Front(prior, us, f, a, m)))
    requires f < |ps[|es|].marks| || m == |us|
    requires c <= |us| && (c == 0 || Acked(cd, ps, es, us, c - 1))
    requires Coded(cd, Held(prior, us, f, a, m)) && Sure(prior, us, f, a, m, c) <= |Held(prior, us, f, a, m)|
    ensures |Flat(cd, Held(prior, us, f, a, m)[..Sure(prior, us, f, a, m, c)])| <= ps[|es|].files[f].synced
  {
    hide Flat, Bytes, Next, Enabled, Start, Logs, CodedOne, Inv, Durable, Acked, Duals, SyncInv, Given, Taken;
    var p, ds, w := ps[|es|], Front(prior, us, f, a, m), Held(prior, us, f, a, m);
    TakenOpen(p, f);
    LogNow(cd, ps, es, prior, us);
    if c > 0 { AckedDurable(cd, ps, es, prior, us, c - 1); }
    BytesLength(Flat(cd, ds));
    if m < c {
      OwnOnDisk(cd, p, ds, us, f, m, c);
      FrontBehind(ds, us, m, c);
    } else if f == 0 {
      InitSynced(ps, es, |es|);
      FirstGiven(p);
      assert w[..|ds|] == ds;
    } else if c <= a {
      StoodFirst(cd, w);
    } else {
      CopiesOnDisk(cd, p, us, f, a, m, c);
      assert us[a..m] == us[a..c] + us[c..m];
      DualsConcat(us[a..c], us[c..m]);
      assert w[..|Duals(us[a..c])|] == Duals(us[a..c]);
    }
  }

  lemma FirstGiven(p: Pipe)
    requires MarksOk(p)
    ensures |p.files| > 0 && Given(p, 0) == p.init
  {}

  /**
   * Whatever a crash leaves of the file, even of the part for the checkpoint: a
   * key whose last update was acknowledged, or that was never updated, has
   * after the restart what it had before the crash.
   */
  lemma KeysKept(cd: Codec, ps: seq<Pipe>, es: seq<LogEvent>, prior: seq<Entry>, us: seq<Entry>,
                 start: string -> Option<C.Val>, f: nat, snap: seq<C.Rec>, n: nat, c: nat, k: string)
    requires Logging(cd, ps, es, prior, us) && Taken(ps[|es|], f) && !Late(ps, es, |es|, f)
    requires var p := ps[|es|]; Snapshot(cd, p, prior, us, start, f, snap) && p.files[f].synced <= n <= |p.files[f].bytes|
    requires c <= |us| && (c == 0 || Acked(cd, ps, es, us, c - 1)) && !Inside(us[..c]) && Elsewhere(us[c..], k)
    ensures var o := R.Recover(ps[|es|].files[f].bytes[..n]);
            o.Applied? && Restarted(cd, snap, o.redone, k) == Cache(start, us, |us|, k)
  {
    hide Flat, Bytes, Next, Enabled, Start, Logs, CodedOne, MarksOk, Given, Taken, Late, R.Recover, Restarted, Cache, Acked, Exact, Duals, Elsewhere, Sure,
         Ranged, Inside, Undivided, Updates, Redone;
    var p := ps[|es|];
    TakenOpen(p, f);
    var a, m := FileHolds(cd, ps, es, prior, us, f);
    var b := FindOutside(us[..m]);
    OutsideNow(us, m, b);
    var w, i := Held(prior, us, f, a, m), Sure(prior, us, f, a, m, c);
    SureFront(prior, us, f, a, m, c, k);
    SureOnDisk(cd, ps, es, prior, us, f, a, m, c);
    SureClosed(prior, us, f, a, m, c);
    HeldRanged(prior, us, f, a, m);
    var t := RecoverHeld(cd, p.files[f].bytes[..n], w);
    FewerElsewhere(w[i..], w[t..], k);
    HeldSplit(prior, us, f, a, b, m);
    if b < m { OpenElsewhere(us, b, c, k); }
    KeyRestarted(cd, snap, start, Front(prior, us, f, a, b), Duals(us[b..m]) + us[m..], us, b, t, R.Recover(p.files[f].bytes[..n]).redone, k);
  }

  /** An open range came after everything that was acknowledged outside ranges. */
  lemma OpenElsewhere(us: seq<Entry>, b: nat, c: nat, k: string)
    requires b < |us| && LastOutside(us[..|us|], b) && c <= |us| && !Inside(us[..c]) && Elsewhere(us[c..], k)
    ensures Elsewhere(us[b..], k) && Elsewhere(Duals(us[b..|us|]) + us[|us|..], k)
  {
    hide Inside, Duals;
    assert us[..|us|] == us && us[b..|us|] == us[b..];
    assert c <= b;
    forall u | u in us[b..]
      ensures u in us[c..]
    {}
    forall u | u in Duals(us[b..])
      ensures u in us[c..]
    {
      DualsIn(us[b..], u);
    }
  }

  lemma FewerElsewhere(a: seq<Entry>, b: seq<Entry>, k: string)
    requires Elsewhere(a, k) && |b| <= |a| && b == a[|a| - |b|..]
    ensures Elsewhere(b, k)
  {}
}
