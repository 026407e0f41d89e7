/** Two runs of the command log up to a file switch after which the new file does not hold what it should (engines/default/cmdlogbuf.c, cmdlogfile.c). */
module CrashRuns {
  import opened Octets
  import opened LogFiles
  import opened LogSync
  import opened LogCases

  /** What the flusher does with a chunk it has taken. */
  function Flushing(): seq<LogEvent> { [WriteFile] + [CountLsn, Finish] }

  /** `q` is the state when the chunk has been written. */
  lemma Flushed(p: Pipe, q: Pipe)
    requires MarksOk(p) && Enabled(p, WriteFile) && Next(p, WriteFile) == q && MarksOk(q) && q.flusher.Written?
    ensures Leads(p, Flushing(), AfterFinish(AfterCount(q)))
  {
    hide Leads;
    OneStep(p, WriteFile, q);
    Counted(q);
    LeadsConcat(p, [WriteFile], q, [CountLsn, Finish], AfterFinish(AfterCount(q)));
  }

  lemma Counted(q: Pipe)
    requires MarksOk(q) && q.flusher.Written?
    ensures Leads(q, [CountLsn, Finish], AfterFinish(AfterCount(q)))
  {
    hide Leads, MarksOk, AfterCount, AfterFinish;
    CountedShape(q);
    TwoSteps(q, CountLsn, AfterCount(q), Finish, AfterFinish(AfterCount(q)));
  }

  lemma CountedShape(q: Pipe)
    requires MarksOk(q) && q.flusher.Written?
    ensures MarksOk(AfterCount(q)) && AfterCount(q).flusher.Counted?
  {}

  // One record `x` is logged while a checkpoint scans.

  function Begun(x: seq<Byte>): Pipe {
    Start([]).(log := Tag(x, true), bounds := {0, |x|}, writeLsn := Lsn(1, |x|), files := [File([], 0), File([], 0)],
               starts := [0, 0], extras := [[], []], scanning := true, dwSize := |x|)
  }

  lemma BeginStep(x: seq<Byte>)
    requires x != []
    ensures Leads(Start([]), [OpenNext] + [Write(x, true, {})], Begun(x))
  {
    hide Tag;
    FirstOpened();
    var p := AfterOpen(Start([]));
    assert [] + Tag(x, true) == Tag(x, true) && {0} + {} + {|x|} == {0, |x|};
    assert AfterWrite(p, x, true, {}) == Begun(x);
    OneStep(p, Write(x, true, {}), Begun(x));
    LeadsConcat(Start([]), [OpenNext], p, [Write(x, true, {})], Begun(x));
  }

  lemma TagAt(rec: seq<Byte>, dual: bool, k: nat)
    requires k < |rec|
    ensures Tag(rec, dual)[k].dual == dual
  {}

  lemma TagBytes(rec: seq<Byte>, dual: bool)
    ensures Bytes(Tag(rec, dual)) == rec
  {}

  lemma BeginChosen(x: seq<Byte>)
    requires x != []
    ensures Leads(Begun(x), [Choose(|x|, true)], Begun(x).(flusher := Ready(|x|, true)))
  {
    hide Tag;
    var p := Begun(x);
    forall k: nat | p.flushed <= k < p.flushed + |x|
      ensures Flag(p, k)
    {
      TagAt(x, true, k);
    }
    OneStep(p, Choose(|x|, true), p.(flusher := Ready(|x|, true)));
  }

  // The flusher has taken the record when the checkpoint fails, and writes it when the next one has opened its file.

  /** The record under way, its checkpoint failed, the next one begun. */
  function Overtaken(x: seq<Byte>): Pipe {
    Begun(x).(flusher := Ready(|x|, true), starts := [0, |x|], dwSize := 0)
  }

  lemma OvertakenStep(x: seq<Byte>)
    requires x != []
    ensures Leads(Begun(x).(flusher := Ready(|x|, true)), [FailDual, CloseNext] + [OpenNext], Overtaken(x))
  {
    hide Tag;
    var p := Begun(x).(flusher := Ready(|x|, true));
    var q := p.(scanning := false, dwSize := 0, starts := [0, |x|]);
    var r := q.(files := [File([], 0)], starts := [0], extras := [[]]);
    assert AfterFail(p) == q;
    assert AfterClose(q) == r;
    TwoSteps(p, FailDual, q, CloseNext, r);
    assert AfterOpen(r) == Overtaken(x);
    OneStep(r, OpenNext, Overtaken(x));
    LeadsConcat(p, [FailDual, CloseNext], r, [OpenNext], Overtaken(x));
  }

  /** The record is in both files. */
  function Late1(x: seq<Byte>): Pipe {
    Overtaken(x).(flusher := Idle, flushed := |x|, flushLsn := Lsn(1, |x|), files := [File(x, 0), File(x, 0)],
                  extras := [[], x], size := |x|, nextSize := |x|, junk := |x|)
  }

  lemma LateWritten(x: seq<Byte>)
    requires x != []
    ensures Leads(Overtaken(x), Flushing(), Late1(x))
  {
    hide Tag, Bytes;
    var p := Overtaken(x);
    var q := Late1(x).(flusher := Written(|x|), flushed := 0, flushLsn := Lsn(1, 0));
    assert Chunk(p) == x by { TagBytes(x, true); assert p.log[0..|x|] == p.log; }
    assert [] + x == x;
    assert AfterOne(p).files == [File(x, 0), File([], 0)];
    assert AfterTwo(p).files == q.files && AfterTwo(p).extras == q.extras;
    assert AfterTwo(p) == q;
    Flushed(p, q);
  }

  /** Two more records, logged before the new scan comes to their items. */
  function Late2(x: seq<Byte>, y: seq<Byte>, z: seq<Byte>): Pipe {
    Late1(x).(log := Tag(x, true) + Tag(y, false) + Tag(z, false), bounds := {0, |x|, |x| + |y|, |x| + |y| + |z|},
              writeLsn := Lsn(1, |x| + |y| + |z|))
  }

  lemma LateMore(x: seq<Byte>, y: seq<Byte>, z: seq<Byte>)
    requires x != [] && y != [] && z != []
    ensures Leads(Late1(x), [Write(y, false, {}), Write(z, false, {})], Late2(x, y, z))
  {
    hide Tag;
    var p := Late1(x);
    var q := p.(log := Tag(x, true) + Tag(y, false), bounds := {0, |x|, |x| + |y|}, writeLsn := Lsn(1, |x| + |y|));
    assert {0, |x|} + {} + {|x| + |y|} == q.bounds;
    assert AfterWrite(p, y, false, {}) == q;
    assert q.bounds + {} + {|x| + |y| + |z|} == Late2(x, y, z).bounds;
    assert AfterWrite(q, z, false, {}) == Late2(x, y, z);
    TwoSteps(p, Write(y, false, {}), q, Write(z, false, {}), Late2(x, y, z));
  }

  /** The checkpoint succeeds, and the two records are taken. */
  function Late3(x: seq<Byte>, y: seq<Byte>, z: seq<Byte>): Pipe {
    Late2(x, y, z).(marks := [0, |x| + |y| + |z|], scanning := false, writeLsn := Lsn(2, 0), flusher := Ready(|y| + |z|, false))
  }

  lemma LateSucceeds(x: seq<Byte>, y: seq<Byte>, z: seq<Byte>)
    requires x != [] && y != [] && z != []
    ensures Leads(Late2(x, y, z), [Succeed] + [Choose(|y| + |z|, false)], Late3(x, y, z))
  {
    hide Tag;
    var p, n := Late2(x, y, z), |y| + |z|;
    var q := p.(marks := [0, |x| + n], scanning := false, writeLsn := Lsn(2, 0));
    assert AfterSucceed(p) == q;
    OneStep(p, Succeed, q);
    forall k: nat | q.flushed <= k < q.flushed + n
      ensures !Flag(q, k)
    {
      if k < |x| + |y| { TagAt(y, false, k - |x|); } else { TagAt(z, false, k - |x| - |y|); }
    }
    OneStep(q, Choose(n, false), Late3(x, y, z));
    LeadsConcat(p, [Succeed], q, [Choose(n, false)], Late3(x, y, z));
  }

  /** They are in the first file. */
  function Late4(x: seq<Byte>, y: seq<Byte>, z: seq<Byte>): Pipe {
    var n := |x| + |y| + |z|;
    Late3(x, y, z).(flusher := Idle, flushed := n, flushLsn := Lsn(1, n), files := [File(x + y + z, 0), File(x, 0)], size := n)
  }

  lemma LateFlushed(x: seq<Byte>, y: seq<Byte>, z: seq<Byte>)
    requires x != [] && y != [] && z != []
    ensures Leads(Late3(x, y, z), Flushing(), Late4(x, y, z))
  {
    hide Tag, Bytes;
    var p, n := Late3(x, y, z), |y| + |z|;
    var q := Late4(x, y, z).(flusher := Written(n), flushed := |x|, flushLsn := Lsn(1, |x|));
    assert Chunk(p) == y + z by {
      assert p.log[|x|..|x| + n] == Tag(y, false) + Tag(z, false);
      BytesBoth(Tag(y, false), Tag(z, false));
      TagBytes(y, false);
      TagBytes(z, false);
    }
    assert x + (y + z) == x + y + z;
    assert AfterOne(p).files == q.files;
    assert AfterOne(p) == q;
    Flushed(p, q);
  }

  lemma BytesBoth(a: seq<Logged>, b: seq<Logged>)
    ensures Bytes(a + b) == Bytes(a) + Bytes(b)
  {}

  /** The new file has taken over. */
  function Late5(x: seq<Byte>, y: seq<Byte>, z: seq<Byte>): Pipe {
    Late4(x, y, z).(cur := 1, prevOpen := true, size := |x|, nextSize := 0, junk := 0, flusher := Switched(0, false, 0))
  }

  lemma LateSwitched(x: seq<Byte>, y: seq<Byte>, z: seq<Byte>)
    requires x != [] && y != [] && z != []
    ensures Leads(Late4(x, y, z), [Choose(0, false), SwitchFile], Late5(x, y, z))
  {
    hide Tag;
    var p := Late4(x, y, z);
    TwoSteps(p, Choose(0, false), p.(flusher := Chosen(0, false, 0)), SwitchFile, Late5(x, y, z));
  }

  /** The new file has the late record and nothing else. */
  lemma LateShape(x: seq<Byte>, y: seq<Byte>, z: seq<Byte>)
    ensures var p, n := Late5(x, y, z), |x| + |y| + |z|;
            && MarksOk(p) && p.init == [] && p.cur == 1 && p.starts == [0, |x|] && p.marks == [0, n] && |p.log| == n
            && p.extras == [[], x] && |p.files| == 2 && p.files[1].bytes == x && Twice(p, 1, n) == []
  {
    hide Tag, Dual;
    var p := Late5(x, y, z);
    TagLength(x, true);
    TagLength(y, false);
    TagLength(z, false);
    var t := Tag(y, false) + Tag(z, false);
    assert p.log[|x|..|p.log|] == t;
    assert Uniform(t, false) by { TagUniform(y, false); TagUniform(z, false); }
    DualUniform(t, false);
  }

  lemma TagLength(rec: seq<Byte>, dual: bool)
    ensures |Tag(rec, dual)| == |rec|
  {}

  function LateEvents(x: seq<Byte>, y: seq<Byte>, z: seq<Byte>): seq<LogEvent> {
    [OpenNext] + [Write(x, true, {})] + [Choose(|x|, true)] + ([FailDual, CloseNext] + [OpenNext]) + Flushing()
    + [Write(y, false, {}), Write(z, false, {})] + ([Succeed] + [Choose(|y| + |z|, false)]) + Flushing()
    + [Choose(0, false), SwitchFile]
  }

  /** The file of the second checkpoint begins with the record that was written twice for the first. */
  lemma LateRun(x: seq<Byte>, y: seq<Byte>, z: seq<Byte>) returns (ps: seq<Pipe>)
    requires x != [] && y != [] && z != []
    ensures var es := LateEvents(x, y, z); Run(ps, es) && ps[|es|] == Late5(x, y, z)
  {
    hide Leads, Flushing, MarksOk, Enabled, Next, Begun, Overtaken, Late1, Late2, Late3, Late4, Late5, Tag, Start;
    var s, r := Start([]), Begun(x).(flusher := Ready(|x|, true));
    BeginStep(x);
    BeginChosen(x);
    var es := [OpenNext] + [Write(x, true, {})];
    LeadsConcat(s, es, Begun(x), [Choose(|x|, true)], r);
    es := es + [Choose(|x|, true)];
    OvertakenStep(x);
    LeadsConcat(s, es, r, [FailDual, CloseNext] + [OpenNext], Overtaken(x));
    es := es + ([FailDual, CloseNext] + [OpenNext]);
    LateWritten(x);
    LeadsConcat(s, es, Overtaken(x), Flushing(), Late1(x));
    es := es + Flushing();
    LateMore(x, y, z);
    LeadsConcat(s, es, Late1(x), [Write(y, false, {}), Write(z, false, {})], Late2(x, y, z));
    es := es + [Write(y, false, {}), Write(z, false, {})];
    LateSucceeds(x, y, z);
    LeadsConcat(s, es, Late2(x, y, z), [Succeed] + [Choose(|y| + |z|, false)], Late3(x, y, z));
    es := es + ([Succeed] + [Choose(|y| + |z|, false)]);
    LateFlushed(x, y, z);
    LeadsConcat(s, es, Late3(x, y, z), Flushing(), Late4(x, y, z));
    es := es + Flushing();
    LateSwitched(x, y, z);
    LeadsConcat(s, es, Late4(x, y, z), [Choose(0, false), SwitchFile], Late5(x, y, z));
    ps := RunFrom([], LateEvents(x, y, z), Late5(x, y, z));
  }

  // The record is in the new file when it takes over, but nothing has been synced.

  /** A second record, logged before the scan comes to its item; then the checkpoint succeeds. */
  function Unsynced1(x: seq<Byte>, y: seq<Byte>): Pipe {
    Begun(x).(log := Tag(x, true) + Tag(y, false), bounds := {0, |x|, |x| + |y|}, marks := [0, |x| + |y|], scanning := false, writeLsn := Lsn(2, |x|))
  }

  lemma UnsyncedSucceeds(x: seq<Byte>, y: seq<Byte>)
    requires x != [] && y != []
    ensures Leads(Begun(x), [Write(y, false, {}), Succeed], Unsynced1(x, y))
  {
    hide Tag;
    var p := Begun(x);
    var q := p.(log := Tag(x, true) + Tag(y, false), bounds := {0, |x|, |x| + |y|}, writeLsn := Lsn(1, |x| + |y|));
    assert {0, |x|} + {} + {|x| + |y|} == q.bounds;
    assert AfterWrite(p, y, false, {}) == q;
    assert AfterSucceed(q) == Unsynced1(x, y);
    TwoSteps(p, Write(y, false, {}), q, Succeed, Unsynced1(x, y));
  }

  function Unsynced2(x: seq<Byte>, y: seq<Byte>): Pipe {
    Unsynced1(x, y).(files := [File(x, 0), File(x, 0)], size := |x|, nextSize := |x|, flushed := |x|, flushLsn := Lsn(1, |x|))
  }

  lemma UnsyncedTaken(x: seq<Byte>, y: seq<Byte>)
    requires x != [] && y != []
    ensures Leads(Unsynced1(x, y), [Choose(|x|, true)], Unsynced1(x, y).(flusher := Ready(|x|, true)))
  {
    hide Tag;
    var p := Unsynced1(x, y);
    forall k: nat | p.flushed <= k < p.flushed + |x|
      ensures Flag(p, k)
    {
      TagAt(x, true, k);
    }
    OneStep(p, Choose(|x|, true), p.(flusher := Ready(|x|, true)));
  }

  lemma UnsyncedWritten(x: seq<Byte>, y: seq<Byte>)
    requires x != [] && y != []
    ensures Leads(Unsynced1(x, y).(flusher := Ready(|x|, true)), Flushing(), Unsynced2(x, y))
  {
    hide Tag, Bytes;
    var p := Unsynced1(x, y).(flusher := Ready(|x|, true));
    var q := Unsynced2(x, y).(flusher := Written(|x|), flushed := 0, flushLsn := Lsn(1, 0));
    assert Chunk(p) == x by {
      assert p.log[0..|x|] == Tag(x, true);
      TagBytes(x, true);
    }
    assert [] + x == x;
    assert AfterOne(p).files == [File(x, 0), File([], 0)];
    assert AfterTwo(p).files == q.files;
    assert AfterTwo(p) == q;
    Flushed(p, q);
  }

  function Unsynced3(x: seq<Byte>, y: seq<Byte>): Pipe {
    var n := |x| + |y|;
    Unsynced2(x, y).(files := [File(x + y, 0), File(x, 0)], size := n, flushed := n, flushLsn := Lsn(1, n))
  }

  lemma UnsyncedChosen(x: seq<Byte>, y: seq<Byte>)
    requires x != [] && y != []
    ensures Leads(Unsynced2(x, y), [Choose(|y|, false)], Unsynced2(x, y).(flusher := Ready(|y|, false)))
  {
    hide Tag;
    var p := Unsynced2(x, y);
    forall k: nat | p.flushed <= k < p.flushed + |y|
      ensures !Flag(p, k)
    {
      TagAt(y, false, k - |x|);
    }
    OneStep(p, Choose(|y|, false), p.(flusher := Ready(|y|, false)));
  }

  lemma UnsyncedFlushed(x: seq<Byte>, y: seq<Byte>)
    requires x != [] && y != []
    ensures Leads(Unsynced2(x, y).(flusher := Ready(|y|, false)), Flushing(), Unsynced3(x, y))
  {
    hide Tag, Bytes;
    var p := Unsynced2(x, y).(flusher := Ready(|y|, false));
    var q := Unsynced3(x, y).(flusher := Written(|y|), flushed := |x|, flushLsn := Lsn(1, |x|));
    assert Chunk(p) == y by {
      assert p.log[|x|..|x| + |y|] == Tag(y, false);
      TagBytes(y, false);
    }
    assert AfterOne(p).files == q.files;
    assert AfterOne(p) == q;
    Flushed(p, q);
  }

  function Unsynced4(x: seq<Byte>, y: seq<Byte>): Pipe {
    Unsynced3(x, y).(cur := 1, prevOpen := true, size := |x|, nextSize := 0, dwSize := 0, flusher := Switched(0, false, |x|))
  }

  lemma UnsyncedSwitched(x: seq<Byte>, y: seq<Byte>)
    requires x != [] && y != []
    ensures Leads(Unsynced3(x, y), [Choose(0, false), SwitchFile], Unsynced4(x, y))
  {
    hide Tag;
    var p := Unsynced3(x, y);
    TwoSteps(p, Choose(0, false), p.(flusher := Chosen(0, false, |x|), dwSize := 0), SwitchFile, Unsynced4(x, y));
  }

  lemma UnsyncedShape(x: seq<Byte>, y: seq<Byte>)
    ensures var p, n := Unsynced4(x, y), |x| + |y|;
            && MarksOk(p) && p.init == [] && p.cur == 1 && p.starts == [0, 0] && p.marks == [0, n] && |p.log| == n
            && p.extras == [[], []] && |p.files| == 2 && p.files[1] == File(x, 0)
  {
    hide Tag;
    TagLength(x, true);
    TagLength(y, false);
  }

  function UnsyncedEvents(x: seq<Byte>, y: seq<Byte>): seq<LogEvent> {
    [OpenNext] + [Write(x, true, {})] + [Write(y, false, {}), Succeed] + [Choose(|x|, true)] + Flushing()
    + [Choose(|y|, false)] + Flushing() + [Choose(0, false), SwitchFile]
  }

  /** The new file has taken over with the record that was written twice, and none of it is on disk. */
  lemma UnsyncedRun(x: seq<Byte>, y: seq<Byte>) returns (ps: seq<Pipe>)
    requires x != [] && y != []
    ensures var es := UnsyncedEvents(x, y); Run(ps, es) && ps[|es|] == Unsynced4(x, y)
  {
    hide Leads, Flushing, MarksOk, Enabled, Next, Begun, Unsynced1, Unsynced2, Unsynced3, Unsynced4, Tag, Start;
    var s := Start([]);
    BeginStep(x);
    UnsyncedSucceeds(x, y);
    var es := [OpenNext] + [Write(x, true, {})];
    LeadsConcat(s, es, Begun(x), [Write(y, false, {}), Succeed], Unsynced1(x, y));
    es := es + [Write(y, false, {}), Succeed];
    UnsyncedTaken(x, y);
    var r := Unsynced1(x, y).(flusher := Ready(|x|, true));
    LeadsConcat(s, es, Unsynced1(x, y), [Choose(|x|, true)], r);
    es := es + [Choose(|x|, true)];
    UnsyncedWritten(x, y);
    LeadsConcat(s, es, r, Flushing(), Unsynced2(x, y));
    es := es + Flushing();
    UnsyncedChosen(x, y);
    UnsyncedFlushed(x, y);
    r := Unsynced2(x, y).(flusher := Ready(|y|, false));
    LeadsConcat(s, es, Unsynced2(x, y), [Choose(|y|, false)], r);
    es := es + [Choose(|y|, false)];
    LeadsConcat(s, es, r, Flushing(), Unsynced3(x, y));
    es := es + Flushing();
    UnsyncedSwitched(x, y);
    LeadsConcat(s, es, Unsynced3(x, y), [Choose(0, false), SwitchFile], Unsynced4(x, y));
    ps := RunFrom([], UnsyncedEvents(x, y), Unsynced4(x, y));
  }
}
