/**
 * Two crashes after which the restarted cache is one that never was: a chunk
 * came too late for the new log file, and a part of that file was not on disk
 * (engines/default/cmdlogbuf.c, cmdlogfile.c, checkpoint.c).
 */
module CrashCases {
  import opened Options
  import opened Octets
  import opened LogFiles
  import opened LogSync
  import opened LogRuns
  import C = Checkpoint
  import R = Recovery
  import opened CrashLog
  import opened CrashRuns
  import opened Crash

  lemma {:induction false} LogsConcat(cd: Codec, a: seq<LogEvent>, us: seq<Entry>, b: seq<LogEvent>, ws: seq<Entry>)
    requires Coded(cd, us) && Coded(cd, ws) && Logs(cd, a, us) && Logs(cd, b, ws)
    ensures Coded(cd, us + ws) && Logs(cd, a + b, us + ws)
    decreases |b|
  {
    hide LogsOne, CodedOne;
    if b == [] {
      assert a + b == a && us + ws == us;
    } else {
      var n := |b| - 1;
      assert (a + b)[..|a| + n] == a + b[..n];
      if b[n].Write? {
        var m := |ws| - 1;
        LogsConcat(cd, a, us, b[..n], ws[..m]);
        assert (us + ws)[..|us| + m] == us + ws[..m];
      } else {
        LogsConcat(cd, a, us, b[..n], ws);
      }
    }
  }

  lemma {:induction false} LogsNone(cd: Codec, es: seq<LogEvent>)
    requires forall i | 0 <= i < |es| :: !es[i].Write?
    ensures Logs(cd, es, [])
    decreases |es|
  {
    if es != [] { LogsNone(cd, es[..|es| - 1]); }
  }

  /** The step that logs an update. */
  function Writes(cd: Codec, u: Entry): LogEvent
    requires |RecOf(cd, u).body| <= R.MAX_RECORD
  {
    Write(R.Encode(RecOf(cd, u)), u.dual, {})
  }

  lemma LogsWrite(cd: Codec, u: Entry)
    requires CodedOne(cd, u)
    ensures R.Encode(RecOf(cd, u)) != [] && Logs(cd, [Writes(cd, u)], [u])
  {
    var es := [Writes(cd, u)];
    assert es[..0] == [];
    assert [u][..0] == [];
  }

  /** Changes alone make no ranges. */
  lemma {:induction false} ChangesRanged(us: seq<Entry>)
    requires forall i | 0 <= i < |us| :: us[i].note.Change?
    ensures Ranged(us) && !Inside(us) && forall i | 0 <= i <= |us| :: !Inside(us[..i])
    decreases |us|
  {
    if us != [] {
      var n := |us| - 1;
      ChangesRanged(us[..n]);
      forall i | 0 <= i <= |us|
        ensures !Inside(us[..i])
      {
        if i <= n { assert us[..n][..i] == us[..i]; } else { assert us[..i] == us; }
      }
    }
  }

  lemma UpdatesOne(u: Entry)
    requires u.note.Change?
    ensures Updates([u]) == [u.note.rec]
  {
    assert [u][..0] == [];
  }

  lemma UpdatesNone()
    ensures Updates([]) == []
  {}

  lemma UpdatesTwo(u: Entry, v: Entry)
    requires u.note.Change? && v.note.Change?
    ensures Updates([u, v]) == [u.note.rec, v.note.rec]
  {
    UpdatesOne(u);
    UpdatesOne(v);
    UpdatesConcat([u], [v]);
    assert [u] + [v] == [u, v];
  }

  function Nothing(k: string): Option<C.Val> { None }

  /** The cache is as it was after some number of updates. */
  ghost predicate WasOnce(cd: Codec, us: seq<Entry>, snap: seq<C.Rec>, redone: seq<R.Rec>) {
    exists j: nat | j <= |us| :: WasAfter(cd, us, snap, redone, j)
  }

  ghost predicate WasAfter(cd: Codec, us: seq<Entry>, snap: seq<C.Rec>, redone: seq<R.Rec>, j: nat)
    requires j <= |us|
  {
    forall k :: Restarted(cd, snap, redone, k) == Cache(Nothing, us, j, k)
  }

  // A chunk that came too late.

  function LateUpdates(u: C.Val, v: C.Val, w: C.Val): seq<Entry> {
    [Entry(Change(C.Link("a", u)), true), Entry(Change(C.Link("a", v)), false), Entry(Change(C.Link("b", w)), false)]
  }

  lemma LateLogs(cd: Codec, u: C.Val, v: C.Val, w: C.Val, x: seq<Byte>, y: seq<Byte>, z: seq<Byte>)
    requires Coded(cd, LateUpdates(u, v, w))
    requires var us := LateUpdates(u, v, w); CodedOne(cd, us[0]) && CodedOne(cd, us[1]) && CodedOne(cd, us[2])
    requires var us := LateUpdates(u, v, w);
             x == R.Encode(RecOf(cd, us[0])) && y == R.Encode(RecOf(cd, us[1])) && z == R.Encode(RecOf(cd, us[2]))
    ensures Logs(cd, LateEvents(x, y, z), LateUpdates(u, v, w))
  {
    hide CodedOne, LogsOne, R.Encode, Logs;
    var us := LateUpdates(u, v, w);
    var w0, w1, w2 := Write(x, true, {}), Write(y, false, {}), Write(z, false, {});
    var q0: seq<LogEvent> := [OpenNext];
    var q1 := [Choose(|x|, true), FailDual, CloseNext, OpenNext, WriteFile, CountLsn, Finish];
    var q2 := [Succeed, Choose(|y| + |z|, false), WriteFile, CountLsn, Finish, Choose(0, false), SwitchFile];
    assert LateEvents(x, y, z) == q0 + [w0] + q1 + [w1] + [w2] + q2;
    LogsNone(cd, q0);
    LogsNone(cd, q1);
    LogsNone(cd, q2);
    LogsWrite(cd, us[0]);
    LogsWrite(cd, us[1]);
    LogsWrite(cd, us[2]);
    LogsConcat(cd, q0, [], [w0], [us[0]]);
    LogsConcat(cd, q0 + [w0], [] + [us[0]], q1, []);
    LogsConcat(cd, q0 + [w0] + q1, [] + [us[0]] + [], [w1], [us[1]]);
    LogsConcat(cd, q0 + [w0] + q1 + [w1], [] + [us[0]] + [] + [us[1]], [w2], [us[2]]);
    LogsConcat(cd, q0 + [w0] + q1 + [w1] + [w2], [] + [us[0]] + [] + [us[1]] + [us[2]], q2, []);
    assert [] + [us[0]] + [] + [us[1]] + [us[2]] + [] == us;
  }

  /** Where the log stood after one and after all of three updates. */
  lemma FlatThree(cd: Codec, us: seq<Entry>)
    requires Coded(cd, us) && |us| == 3 && CodedOne(cd, us[0]) && CodedOne(cd, us[1]) && CodedOne(cd, us[2])
    ensures var x, y, z := R.Encode(RecOf(cd, us[0])), R.Encode(RecOf(cd, us[1])), R.Encode(RecOf(cd, us[2]));
            && Coded(cd, [us[0]]) && Bytes(Flat(cd, [us[0]])) == x
            && StoodAt(cd, us, |x|, 1) && StoodAt(cd, us, |x| + |y| + |z|, 3)
  {
    hide CodedOne, R.Encode;
    assert us[..3] == us && us[..3][..2] == us[..2] && us[..2][..1] == us[..1] && us[..1][..0] == [] && us[..1] == [us[0]];
    var f0, f1 := Flat(cd, us[..1]), Flat(cd, us[..2]);
    assert Flat(cd, us[..0]) == [];
    assert f0 == Tag(R.Encode(RecOf(cd, us[0])), us[0].dual) by { assert CodedOne(cd, us[..1][0]); CodedFits(cd, us[0]); }
    assert f1 == f0 + Tag(R.Encode(RecOf(cd, us[1])), us[1].dual) by { assert CodedOne(cd, us[..2][1]); CodedFits(cd, us[1]); }
    CodedFits(cd, us[2]);
  }

  lemma LateEntries(u: C.Val, v: C.Val, w: C.Val)
    ensures var us := LateUpdates(u, v, w); us[1..3] == us[1..] && Duals(us[1..3]) == [] && Updates([]) == []
  {
    var us := LateUpdates(u, v, w);
    var ws := us[1..3];
    assert ws == [us[1], us[2]] && ws[..1] == [us[1]] && ws[..1][..0] == [];
    assert Duals(ws[..1]) == Duals(ws[..1][..0]) == [];
    assert Duals(ws) == Duals(ws[..1]);
    assert us[1..3] == us[1..];
  }

  function LateSnap(v: C.Val, w: C.Val): seq<C.Rec> { [C.Link("a", v), C.Link("b", w)] }

  lemma ReplayOne(o: Option<C.Val>, r: C.Rec, k: string)
    ensures C.Replay(o, [r], k) == C.Redo(o, r, k)
  {
    assert [r][..0] == [];
  }

  lemma ReplayTwo(o: Option<C.Val>, r: C.Rec, t: C.Rec, k: string)
    ensures C.Replay(o, [r, t], k) == C.Redo(C.Redo(o, r, k), t, k)
  {
    ReplayOne(o, r, k);
    C.ReplaySnoc(o, [r], t, k);
    assert [r] + [t] == [r, t];
  }

  /** The cache after each number of updates. */
  lemma LateCache(u: C.Val, v: C.Val, w: C.Val, j: nat, k: string)
    requires j <= 3
    ensures Cache(Nothing, LateUpdates(u, v, w), j, k) ==
            if k == "a" && j > 0 then Some(if j == 1 then u else v) else if k == "b" && j == 3 then Some(w) else None
  {
    hide C.Replay;
    var us := LateUpdates(u, v, w);
    var r, s, t := C.Link("a", u), C.Link("a", v), C.Link("b", w);
    if j == 0 {
      assert Updates(us[..0]) == [];
      C.ReplayOthers(None, [], k);
    } else if j == 1 {
      UpdatesOne(us[0]);
      assert us[..1] == [us[0]];
      ReplayOne(None, r, k);
    } else {
      UpdatesTwo(us[0], us[1]);
      assert us[..2] == [us[0], us[1]];
      ReplayTwo(None, r, s, k);
      if j == 3 {
        UpdatesOne(us[2]);
        UpdatesConcat(us[..2], [us[2]]);
        assert us[..3] == us[..2] + [us[2]];
        C.ReplaySnoc(None, [r, s], t, k);
      }
    }
  }

  lemma LateExact(u: C.Val, v: C.Val, w: C.Val)
    ensures Exact(LateSnap(v, w), [], Nothing, LateUpdates(u, v, w), 3)
  {
    hide C.Replay, Cache;
    forall k
      ensures C.Replay(C.Replay(None, LateSnap(v, w), k), [], k) == Cache(Nothing, LateUpdates(u, v, w), 3, k)
    {
      LateCache(u, v, w, 3, k);
      ReplayTwo(None, C.Link("a", v), C.Link("b", w), k);
      C.ReplayOthers(C.Replay(None, LateSnap(v, w), k), [], k);
    }
  }

  /** The old value of "a" comes back, beside "b" that was set after the new one. */
  lemma LateDiffers(cd: Codec, u: C.Val, v: C.Val, w: C.Val, redone: seq<R.Rec>)
    requires Redone(cd, redone) == [C.Link("a", u)]
    ensures WasOnce(cd, LateUpdates(u, v, w), LateSnap(v, w), redone) <==> u == v
  {
    hide C.Replay, Cache;
    var us, snap := LateUpdates(u, v, w), LateSnap(v, w);
    forall k
      ensures Restarted(cd, snap, redone, k) == if k == "a" then Some(u) else if k == "b" then Some(w) else None
    {
      ReplayTwo(None, C.Link("a", v), C.Link("b", w), k);
      ReplayOne(C.Replay(None, snap, k), C.Link("a", u), k);
    }
    if j: nat :| j <= |us| && WasAfter(cd, us, snap, redone, j) {
      LateCache(u, v, w, j, "a");
      LateCache(u, v, w, j, "b");
      assert Restarted(cd, snap, redone, "a") == Cache(Nothing, us, j, "a");
      assert Restarted(cd, snap, redone, "b") == Cache(Nothing, us, j, "b");
    }
    if u == v {
      forall k
        ensures Restarted(cd, snap, redone, k) == Cache(Nothing, us, 3, k)
      {
        LateCache(u, v, w, 3, k);
      }
      assert WasAfter(cd, us, snap, redone, 3);
    }
  }

  lemma LateState(cd: Codec, u: C.Val, v: C.Val, w: C.Val, ps: seq<Pipe>, es: seq<LogEvent>, x: seq<Byte>, y: seq<Byte>, z: seq<Byte>)
    requires Coded(cd, LateUpdates(u, v, w)) && Run(ps, es) && x != []
    requires var us := LateUpdates(u, v, w); StoodAt(cd, us, |x|, 1) && StoodAt(cd, us, |x| + |y| + |z|, 3)
    requires MarksOk(ps[|es|]) && ps[|es|] == Late5(x, y, z)
    ensures var p := ps[|es|];
            && p.init == [] && p.cur == 1 && Taken(p, 1) && p.files[1].bytes == x && Given(p, 1) == x
            && Late(ps, es, |es|, 1) && Snapshot(cd, p, [], LateUpdates(u, v, w), Nothing, 1, LateSnap(v, w))
  {
    hide Flat, Exact, Late5, Duals, Next, Enabled, Start, Late, CodedOne, Twice, Inside, Updates;
    var p, us, snap := ps[|es|], LateUpdates(u, v, w), LateSnap(v, w);
    LateShape(x, y, z);
    ExtraExact(ps, es, |es|, 1);
    LateEntries(u, v, w);
    LateExact(u, v, w);
    ChangesRanged(us);
    forall a: nat, m: nat, b: nat | During(cd, p, us, 1, a, m) && LastOutside(us[..m], b)
      ensures a <= b && b == m && Undivided(us, a, m) && Exact(snap, Updates(Front([], us, 1, a, b)), Nothing, us, b)
    {
      SameStood(cd, us, |x|, a, 1);
      SameStood(cd, us, |x| + |y| + |z|, m, 3);
      assert us[..m][..m] == us[..m];
    }
  }

  /**
   * Key "a" is set, and the flusher has taken the record when the checkpoint
   * fails; the next checkpoint opens its file and gets the record. Then "a" is
   * set again and "b" is set before the scan comes to them, so that both are
   * in the snapshot only. The snapshot is exact, the disk has the whole file,
   * and yet the restarted cache is one that was only if "a" was set to the
   * same twice.
   */
  lemma LateRestart(cd: Codec, u: C.Val, v: C.Val, w: C.Val) returns (ps: seq<Pipe>, es: seq<LogEvent>)
    requires Coded(cd, LateUpdates(u, v, w))
    ensures var us, snap := LateUpdates(u, v, w), LateSnap(v, w);
            && Logging(cd, ps, es, [], us) && Taken(ps[|es|], 1) && ps[|es|].cur == 1 && Late(ps, es, |es|, 1)
            && var p := ps[|es|];
            && Snapshot(cd, p, [], us, Nothing, 1, snap) && |Given(p, 1)| <= |p.files[1].bytes|
            && var o := R.Recover(p.files[1].bytes);
            && o.Applied? && (WasOnce(cd, us, snap, o.redone) <==> u == v)
  {
    hide CodedOne, R.Encode, Logs, LateEvents, R.Recover, WasOnce, Flat, Duals, Exact, Restarted, Inside, Ranged, Updates, Late, Snapshot, MarksOk,
         Next, Enabled, Start;
    var us := LateUpdates(u, v, w);
    assert CodedOne(cd, us[0]) && CodedOne(cd, us[1]) && CodedOne(cd, us[2]);
    LogsWrite(cd, us[0]);
    LogsWrite(cd, us[1]);
    LogsWrite(cd, us[2]);
    CodedFits(cd, us[0]);
    CodedFits(cd, us[1]);
    CodedFits(cd, us[2]);
    var x, y, z := R.Encode(RecOf(cd, us[0])), R.Encode(RecOf(cd, us[1])), R.Encode(RecOf(cd, us[2]));
    es := LateEvents(x, y, z);
    ps := LateRun(x, y, z);
    LateLogs(cd, u, v, w, x, y, z);
    FlatThree(cd, us);
    LateShape(x, y, z);
    LateState(cd, u, v, w, ps, es, x, y, z);
    StoodFirst(cd, []);
    ChangesRanged(us);
    ChangesRanged([us[0]]);
    assert [us[0]][..1] == [us[0]];
    var t := RecoverHeld(cd, x, [us[0]]);
    UpdatesOne(us[0]);
    LateDiffers(cd, u, v, w, R.Recover(x).redone);
  }

  // A part of the new file that was not on disk.

  function LostUpdates(v: C.Val): seq<Entry> { [Entry(Change(C.Link("a", v)), true), Entry(Change(C.Link("b", v)), false)] }

  function LostSnap(v: C.Val): seq<C.Rec> { [C.Link("b", v)] }

  lemma LostLogs(cd: Codec, v: C.Val, x: seq<Byte>, y: seq<Byte>)
    requires Coded(cd, LostUpdates(v))
    requires var us := LostUpdates(v);
             CodedOne(cd, us[0]) && CodedOne(cd, us[1]) && x == R.Encode(RecOf(cd, us[0])) && y == R.Encode(RecOf(cd, us[1]))
    ensures Logs(cd, UnsyncedEvents(x, y), LostUpdates(v))
  {
    hide CodedOne, LogsOne, R.Encode, Logs;
    var us := LostUpdates(v);
    var w0, w1 := Write(x, true, {}), Write(y, false, {});
    var q0: seq<LogEvent> := [OpenNext];
    var q1 := [Succeed, Choose(|x|, true), WriteFile, CountLsn, Finish, Choose(|y|, false), WriteFile, CountLsn, Finish,
               Choose(0, false), SwitchFile];
    assert UnsyncedEvents(x, y) == q0 + [w0] + [w1] + q1;
    LogsNone(cd, q0);
    LogsNone(cd, q1);
    LogsWrite(cd, us[0]);
    LogsWrite(cd, us[1]);
    LogsConcat(cd, q0, [], [w0], [us[0]]);
    LogsConcat(cd, q0 + [w0], [] + [us[0]], [w1], [us[1]]);
    LogsConcat(cd, q0 + [w0] + [w1], [] + [us[0]] + [us[1]], q1, []);
    assert [] + [us[0]] + [us[1]] + [] == us;
  }

  lemma LostCache(v: C.Val, j: nat, k: string)
    requires j <= 2
    ensures Cache(Nothing, LostUpdates(v), j, k) == if (k == "a" && j > 0) || (k == "b" && j == 2) then Some(v) else None
  {
    hide C.Replay;
    var us := LostUpdates(v);
    var r, s := C.Link("a", v), C.Link("b", v);
    if j == 0 {
      assert Updates(us[..0]) == [];
      C.ReplayOthers(None, [], k);
    } else if j == 1 {
      UpdatesOne(us[0]);
      assert us[..1] == [us[0]];
      ReplayOne(None, r, k);
    } else {
      UpdatesTwo(us[0], us[1]);
      assert us[..2] == [us[0], us[1]];
      ReplayTwo(None, r, s, k);
    }
  }

  lemma LostExact(v: C.Val)
    ensures Duals(LostUpdates(v)) == [LostUpdates(v)[0]]
    ensures Exact(LostSnap(v), [C.Link("a", v)], Nothing, LostUpdates(v), 2)
  {
    hide C.Replay, Cache;
    var us := LostUpdates(v);
    assert us[..1] == [us[0]] && us[..1][..0] == [] && Duals(us[..1][..0]) == [] && Duals(us[..1]) == [us[0]];
    forall k
      ensures C.Replay(C.Replay(None, LostSnap(v), k), [C.Link("a", v)], k) == Cache(Nothing, us, 2, k)
    {
      LostCache(v, 2, k);
      ReplayOne(None, C.Link("b", v), k);
      ReplayOne(C.Replay(None, LostSnap(v), k), C.Link("a", v), k);
    }
  }

  lemma LostDiffers(cd: Codec, v: C.Val, redone: seq<R.Rec>)
    requires Redone(cd, redone) == []
    ensures !WasOnce(cd, LostUpdates(v), LostSnap(v), redone)
  {
    hide C.Replay, Cache;
    var us, snap := LostUpdates(v), LostSnap(v);
    forall j: nat | j <= |us|
      ensures !WasAfter(cd, us, snap, redone, j)
    {
      var k := if j == 2 then "a" else "b";
      LostCache(v, j, k);
      ReplayOne(None, C.Link("b", v), k);
      C.ReplayOthers(C.Replay(None, snap, k), [], k);
      assert Restarted(cd, snap, redone, k) != Cache(Nothing, us, j, k);
    }
  }

  lemma LostState(cd: Codec, v: C.Val, ps: seq<Pipe>, es: seq<LogEvent>, x: seq<Byte>, y: seq<Byte>)
    requires Coded(cd, LostUpdates(v)) && Run(ps, es)
    requires StoodAt(cd, LostUpdates(v), |x| + |y|, 2)
    requires MarksOk(ps[|es|]) && ps[|es|] == Unsynced4(x, y)
    ensures var p := ps[|es|];
            && p.init == [] && p.cur == 1 && Taken(p, 1) && p.files[1].synced == 0
            && !Late(ps, es, |es|, 1) && Snapshot(cd, p, [], LostUpdates(v), Nothing, 1, LostSnap(v))
  {
    hide Flat, Exact, Unsynced4, Duals, Next, Enabled, Start, Late, CodedOne, Twice, Inside, Updates;
    var p, us, snap := ps[|es|], LostUpdates(v), LostSnap(v);
    UnsyncedShape(x, y);
    ExtraExact(ps, es, |es|, 1);
    LostExact(v);
    StoodFirst(cd, us);
    ChangesRanged(us);
    forall a: nat, m: nat, b: nat | During(cd, p, us, 1, a, m) && LastOutside(us[..m], b)
      ensures a <= b && b == m && Undivided(us, a, m) && Exact(snap, Updates(Front([], us, 1, a, b)), Nothing, us, b)
    {
      SameStood(cd, us, 0, a, 0);
      SameStood(cd, us, |x| + |y|, m, 2);
      assert us[..m][..m] == us[..m];
      assert us[0..2] == us;
      UpdatesOne(us[0]);
    }
  }

  lemma FlatTwo(cd: Codec, us: seq<Entry>)
    requires Coded(cd, us) && |us| == 2 && CodedOne(cd, us[0]) && CodedOne(cd, us[1])
    ensures StoodAt(cd, us, |R.Encode(RecOf(cd, us[0]))| + |R.Encode(RecOf(cd, us[1]))|, 2)
  {
    hide CodedOne, R.Encode;
    assert us[..2] == us && us[..1][..0] == [] && Flat(cd, us[..1][..0]) == [];
    CodedFits(cd, us[0]);
    CodedFits(cd, us[1]);
    assert |Flat(cd, us[..1])| == |R.Encode(RecOf(cd, us[0]))| by { assert CodedOne(cd, us[..1][0]); }
  }

  /**
   * Key "a" is set after the scan has passed it, "b" before the scan comes to
   * it, and the new log file takes over. The record of "a" is in the file but
   * not on disk. After a crash that leaves what was on disk, the snapshot has
   * "b" and "a" is gone: no number of updates leaves "b" without "a".
   */
  lemma LostDual(cd: Codec, v: C.Val) returns (ps: seq<Pipe>, es: seq<LogEvent>)
    requires Coded(cd, LostUpdates(v))
    ensures var us, snap := LostUpdates(v), LostSnap(v);
            && Logging(cd, ps, es, [], us) && Taken(ps[|es|], 1) && ps[|es|].cur == 1 && !Late(ps, es, |es|, 1)
            && var p := ps[|es|];
            && Snapshot(cd, p, [], us, Nothing, 1, snap) && p.files[1].synced == 0
            && var o := R.Recover(p.files[1].bytes[..0]);
            && o.Applied? && !WasOnce(cd, us, snap, o.redone)
  {
    hide CodedOne, R.Encode, Logs, UnsyncedEvents, WasOnce, Flat, Duals, Exact, Restarted, Late, Inside, Ranged, Updates, Snapshot, Next, Enabled, Start;
    var us := LostUpdates(v);
    assert CodedOne(cd, us[0]) && CodedOne(cd, us[1]);
    LogsWrite(cd, us[0]);
    LogsWrite(cd, us[1]);
    CodedFits(cd, us[0]);
    CodedFits(cd, us[1]);
    var x, y := R.Encode(RecOf(cd, us[0])), R.Encode(RecOf(cd, us[1]));
    es := UnsyncedEvents(x, y);
    ps := UnsyncedRun(x, y);
    LostLogs(cd, v, x, y);
    FlatTwo(cd, us);
    UnsyncedShape(x, y);
    LostState(cd, v, ps, es, x, y);
    StoodFirst(cd, []);
    ChangesRanged(us);
    var none: seq<Entry> := [];
    ChangesRanged(none);
    UpdatesNone();
    var t := RecoverHeld(cd, ps[|es|].files[1].bytes[..0], none);
    assert none[..0] == [];
    LostDiffers(cd, v, R.Recover(ps[|es|].files[1].bytes[..0]).redone);
  }
}
