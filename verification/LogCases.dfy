/** Runs of the command log that do not end as they should (engines/default/cmdlogbuf.c, cmdlogfile.c). */
module LogCases {
  import opened Octets
  import opened LogRing
  import opened LogFiles
  import opened LogSync
  import opened LogRuns

  /** A run in which events happen one after the other. */
  ghost predicate Leads(p: Pipe, es: seq<LogEvent>, q: Pipe)
    decreases |es|
  {
    if es == [] then p == q
    else MarksOk(p) && Enabled(p, es[0]) && Leads(Next(p, es[0]), es[1..], q)
  }

  lemma {:induction false} LeadsRun(ps: seq<Pipe>, done: seq<LogEvent>, es: seq<LogEvent>, q: Pipe) returns (all: seq<Pipe>)
    requires Run(ps, done) && Leads(ps[|done|], es, q)
    ensures Run(all, done + es) && all[|done| + |es|] == q && ps <= all
    decreases |es|
  {
    hide Next, Enabled, MarksOk, Start;
    if es == [] {
      assert done + es == done;
      all := ps;
    } else {
      RunSnoc(ps, done, es[0]);
      all := LeadsRun(ps + [Next(ps[|done|], es[0])], done + [es[0]], es[1..], q);
      assert done + [es[0]] + es[1..] == done + es;
    }
  }

  lemma LeadsStep(p: Pipe, e: LogEvent, r: Pipe, es: seq<LogEvent>, q: Pipe)
    requires MarksOk(p) && Enabled(p, e) && Next(p, e) == r && Leads(r, es, q)
    ensures Leads(p, [e] + es, q)
  {
    hide MarksOk, Enabled, Next;
    assert ([e] + es)[1..] == es;
  }

  lemma LeadsNowhere(p: Pipe)
    ensures Leads(p, [], p)
  {}

  lemma RunFrom(init: seq<Byte>, es: seq<LogEvent>, q: Pipe) returns (ps: seq<Pipe>)
    requires Leads(Start(init), es, q)
    ensures Run(ps, es) && ps[0] == Start(init) && ps[|es|] == q
  {
    hide Next, Enabled, MarksOk;
    assert [] + es == es;
    ps := LeadsRun([Start(init)], [], es, q);
  }

  // A checkpoint that fails after one record was written twice, and one that succeeds.

  function Once(x: Byte): Pipe {
    Start([]).(log := [Logged(x, true)], bounds := {0, 1}, writeLsn := Lsn(1, 1), files := [File([], 0), File([], 0)],
               starts := [0, 0], extras := [[], []], scanning := true, dwSize := 1)
  }

  function Twofold(x: Byte): Pipe {
    Once(x).(files := [File([x], 0), File([x], 0)], size := 1, nextSize := 1, flushed := 1, flushLsn := Lsn(1, 1))
  }

  function Failed(x: Byte): Pipe {
    Twofold(x).(files := [File([x], 0)], starts := [0], extras := [[]], scanning := false, dwSize := 0, junk := 1)
  }

  function Done(x: Byte): Pipe {
    Failed(x).(files := [File([x], 0), File([], 0)], starts := [0, 1], extras := [[], []],
               marks := [0, 1], writeLsn := Lsn(2, 0), flusher := Chosen(0, false, 0))
  }

  function Over(x: Byte): Pipe {
    Done(x).(cur := 1, prevOpen := true, size := 1, nextSize := 0, junk := 0, flusher := Switched(0, false, 0))
  }

  lemma FirstOpened()
    ensures Leads(Start([]), [OpenNext], AfterOpen(Start([])))
  {
    OneStep(Start([]), OpenNext, AfterOpen(Start([])));
  }

  lemma FirstWritten(x: Byte)
    ensures Leads(AfterOpen(Start([])), [Write([x], true, {})], Once(x))
  {
    var p := AfterOpen(Start([]));
    assert Tag([x], true) == [Logged(x, true)];
    assert AfterWrite(p, [x], true, {}) == Once(x);
    OneStep(p, Write([x], true, {}), Once(x));
  }

  lemma {:induction false} LeadsConcat(p: Pipe, es: seq<LogEvent>, r: Pipe, fs: seq<LogEvent>, q: Pipe)
    requires Leads(p, es, r) && Leads(r, fs, q)
    ensures Leads(p, es + fs, q)
    decreases |es|
  {
    hide MarksOk, Enabled, Next;
    if es == [] {
      assert es + fs == fs;
    } else {
      LeadsConcat(Next(p, es[0]), es[1..], r, fs, q);
      assert (es + fs)[1..] == es[1..] + fs;
    }
  }

  lemma OneStep(p: Pipe, e: LogEvent, q: Pipe)
    requires MarksOk(p) && Enabled(p, e) && Next(p, e) == q
    ensures Leads(p, [e], q)
  {
    hide MarksOk, Enabled, Next;
    LeadsNowhere(q);
    LeadsStep(p, e, q, [], q);
    assert [e] + [] == [e];
  }

  lemma TwoSteps(p: Pipe, e: LogEvent, r: Pipe, f: LogEvent, q: Pipe)
    requires MarksOk(p) && Enabled(p, e) && Next(p, e) == r && MarksOk(r) && Enabled(r, f) && Next(r, f) == q
    ensures Leads(p, [e, f], q)
  {
    hide MarksOk, Enabled, Next;
    OneStep(p, e, r);
    OneStep(r, f, q);
    LeadsConcat(p, [e], r, [f], q);
    assert [e] + [f] == [e, f];
  }

  lemma FirstChosen(x: Byte)
    ensures Leads(Once(x), [Choose(1, true)], Once(x).(flusher := Ready(1, true)))
  {
    OneStep(Once(x), Choose(1, true), Once(x).(flusher := Ready(1, true)));
  }

  lemma FirstSent(x: Byte)
    ensures Leads(Once(x).(flusher := Ready(1, true)), [WriteFile], Twofold(x).(flusher := Written(1), flushed := 0, flushLsn := Lsn(1, 0)))
  {
    var p, q := Once(x).(flusher := Ready(1, true)), Twofold(x).(flusher := Written(1), flushed := 0, flushLsn := Lsn(1, 0));
    assert Chunk(p) == [x];
    assert [] + [x] == [x];
    var one := [File([x], 0), File([], 0)];
    assert AfterOne(p).files == one;
    assert one[1 := File([x], 0)] == q.files;
    assert AfterTwo(p) == q;
    OneStep(p, WriteFile, q);
  }

  lemma FirstCounted(x: Byte)
    ensures Leads(Twofold(x).(flusher := Written(1), flushed := 0, flushLsn := Lsn(1, 0)), [CountLsn, Finish], Twofold(x))
  {
    var p := Twofold(x).(flusher := Written(1), flushed := 0, flushLsn := Lsn(1, 0));
    TwoSteps(p, CountLsn, AfterCount(p), Finish, Twofold(x));
  }

  lemma ThenFails(x: Byte)
    ensures Leads(Twofold(x), [FailDual, CloseNext], Failed(x))
  {
    var p := Twofold(x);
    var p1 := p.(scanning := false, dwSize := 0, starts := [0, 1], junk := 1);
    assert AfterFail(p) == p1;
    TwoSteps(p, FailDual, p1, CloseNext, Failed(x));
  }

  function Again(x: Byte): Pipe {
    Failed(x).(files := [File([x], 0), File([], 0)], starts := [0, 1], extras := [[], []], scanning := true)
  }

  lemma ThenOpens(x: Byte)
    ensures Leads(Failed(x), [OpenNext], Again(x))
  {
    assert AfterOpen(Failed(x)) == Again(x);
    OneStep(Failed(x), OpenNext, Again(x));
  }

  lemma ThenSucceeds(x: Byte)
    ensures Leads(Again(x), [Succeed, Choose(0, false)], Done(x))
  {
    var p := Again(x).(marks := [0, 1], scanning := false, writeLsn := Lsn(2, 0));
    assert AfterSucceed(Again(x)) == p;
    TwoSteps(Again(x), Succeed, p, Choose(0, false), Done(x));
  }

  /** A record is written twice, its checkpoint fails, and another one succeeds. */
  function FailedThenDone(x: Byte): seq<LogEvent> {
    [OpenNext] + [Write([x], true, {})] + [Choose(1, true)] + [WriteFile] + [CountLsn, Finish]
    + [FailDual, CloseNext] + [OpenNext] + [Succeed, Choose(0, false)] + [SwitchFile]
  }

  /** At the switch the size kept for the new file is 1 where the buffer counted 0: the flusher's assertion fails. */
  lemma SizeAssertionFails(x: Byte) returns (ps: seq<Pipe>)
    ensures var es := FailedThenDone(x); var i := |es| - 1;
            && Run(ps, es) && es[i].SwitchFile? && ps[i].flusher.Chosen?
            && ps[i].flusher.dwBytes == 0 && ps[i + 1].size == 1 && ps[i + 1].files == [File([x], 0), File([], 0)]
  {
    hide MarksOk, Enabled, Next, Leads;
    FirstOpened();
    FirstWritten(x);
    FirstChosen(x);
    FirstSent(x);
    FirstCounted(x);
    ThenFails(x);
    ThenOpens(x);
    ThenSucceeds(x);
    var s, p, r := Start([]), Once(x).(flusher := Ready(1, true)), Twofold(x).(flusher := Written(1), flushed := 0, flushLsn := Lsn(1, 0));
    var a, b, c := [OpenNext], [Write([x], true, {})], [Choose(1, true)];
    LeadsConcat(s, a, AfterOpen(s), b, Once(x));
    LeadsConcat(s, a + b, Once(x), c, p);
    LeadsConcat(s, a + b + c, p, [WriteFile], r);
    LeadsConcat(s, a + b + c + [WriteFile], r, [CountLsn, Finish], Twofold(x));
    var e := a + b + c + [WriteFile] + [CountLsn, Finish];
    var f, g := [FailDual, CloseNext], [Succeed, Choose(0, false)];
    LeadsConcat(s, e, Twofold(x), f, Failed(x));
    LeadsConcat(s, e + f, Failed(x), [OpenNext], Again(x));
    LeadsConcat(s, e + f + [OpenNext], Again(x), g, Done(x));
    SwitchNow(x);
    LeadsConcat(s, e + f + [OpenNext] + g, Done(x), [SwitchFile], Over(x));
    ps := RunFrom([], FailedThenDone(x), Over(x));
    var i := |FailedThenDone(x)| - 1;
    SwitchedFrom(ps[i], Over(x));
  }

  lemma SwitchNow(x: Byte)
    ensures Leads(Done(x), [SwitchFile], Over(x))
  {
    OneStep(Done(x), SwitchFile, Over(x));
  }

  lemma SwitchedFrom(p: Pipe, q: Pipe)
    requires MarksOk(p) && Enabled(p, SwitchFile) && q == Next(p, SwitchFile)
    ensures p.flusher.Chosen? && q.flusher.Switched? && q.flusher.dwBytes == p.flusher.dwBytes
  {}

  // A record that is longer than a flush request.

  function Long(init: seq<Byte>, rec: seq<Byte>): Pipe {
    Start(init).(log := Tag(rec, false), bounds := {0, AUTO, AUTO + 1}, writeLsn := Lsn(1, AUTO + 1))
  }

  function Part(init: seq<Byte>, rec: seq<Byte>): Pipe
    requires |rec| == AUTO + 1
  {
    Long(init, rec).(files := [File(init + rec[..AUTO], |init|)], size := |init| + AUTO, flushed := AUTO, flushLsn := Lsn(1, AUTO))
  }

  function Told(init: seq<Byte>, rec: seq<Byte>): Pipe
    requires |rec| == AUTO + 1
  {
    Part(init, rec).(files := [File(init + rec[..AUTO], |init| + AUTO)], fsyncLsn := Lsn(1, AUTO), fsyncPos := AUTO)
  }

  lemma LongWritten(init: seq<Byte>, rec: seq<Byte>)
    requires |rec| == AUTO + 1
    ensures Leads(Start(init), [Write(rec, false, {AUTO})], Long(init, rec))
  {
    var p := Start(init);
    assert [] + Tag(rec, false) == Tag(rec, false);
    assert {0} + {AUTO} + {AUTO + 1} == {0, AUTO, AUTO + 1};
    assert AfterWrite(p, rec, false, {AUTO}) == Long(init, rec);
    OneStep(p, Write(rec, false, {AUTO}), Long(init, rec));
  }

  /** The first request of the record on its way. */
  function Going(init: seq<Byte>, rec: seq<Byte>): Pipe { Long(init, rec).(flusher := Ready(AUTO, false)) }

  function Gone(init: seq<Byte>, rec: seq<Byte>): Pipe
    requires |rec| == AUTO + 1
  {
    Long(init, rec).(flusher := Written(AUTO), size := |init| + AUTO, files := [File(init + rec[..AUTO], |init|)])
  }

  lemma PartChosen(init: seq<Byte>, rec: seq<Byte>)
    requires |rec| == AUTO + 1
    ensures Leads(Long(init, rec), [Choose(AUTO, false)], Going(init, rec))
  {
    hide Tag;
    OneStep(Long(init, rec), Choose(AUTO, false), Going(init, rec));
  }

  lemma PartWritten(init: seq<Byte>, rec: seq<Byte>)
    requires |rec| == AUTO + 1
    ensures Leads(Going(init, rec), [WriteFile], Gone(init, rec))
  {
    var p := Going(init, rec);
    assert Chunk(p) == rec[..AUTO];
    assert AfterOne(p).files == [File(init + rec[..AUTO], |init|)];
    assert AfterOne(p) == Gone(init, rec);
    OneStep(p, WriteFile, Gone(init, rec));
  }

  lemma PartCounted(init: seq<Byte>, rec: seq<Byte>)
    requires |rec| == AUTO + 1
    ensures Leads(Gone(init, rec), [CountLsn, Finish], Part(init, rec))
  {
    hide Tag;
    TwoSteps(Gone(init, rec), CountLsn, AfterCount(Gone(init, rec)), Finish, Part(init, rec));
  }

  /** Where the sync of it is. */
  function Syncing(init: seq<Byte>, rec: seq<Byte>, s: Syncer): Pipe
    requires |rec| == AUTO + 1
  {
    Part(init, rec).(syncer := s)
  }

  lemma PartRead(init: seq<Byte>, rec: seq<Byte>)
    requires |rec| == AUTO + 1
    ensures Leads(Part(init, rec), [ReadLsn, ReadFds], Syncing(init, rec, HasFds(Lsn(1, AUTO), AUTO, false, 0, false)))
  {
    hide Tag;
    TwoSteps(Part(init, rec), ReadLsn, Syncing(init, rec, HasLsn(Lsn(1, AUTO), AUTO)),
             ReadFds, Syncing(init, rec, HasFds(Lsn(1, AUTO), AUTO, false, 0, false)));
  }

  function Fsynced(init: seq<Byte>, rec: seq<Byte>): Pipe
    requires |rec| == AUTO + 1
  {
    Told(init, rec).(fsyncLsn := Lsn(1, 0), fsyncPos := 0, syncer := CurSynced(Lsn(1, AUTO), AUTO, 0, false))
  }

  lemma PartPrev(init: seq<Byte>, rec: seq<Byte>)
    requires |rec| == AUTO + 1
    ensures Leads(Syncing(init, rec, HasFds(Lsn(1, AUTO), AUTO, false, 0, false)), [SyncPrev],
                  Syncing(init, rec, PrevSynced(Lsn(1, AUTO), AUTO, 0, false)))
  {
    hide Tag;
    OneStep(Syncing(init, rec, HasFds(Lsn(1, AUTO), AUTO, false, 0, false)), SyncPrev,
            Syncing(init, rec, PrevSynced(Lsn(1, AUTO), AUTO, 0, false)));
  }

  lemma PartFsynced(init: seq<Byte>, rec: seq<Byte>)
    requires |rec| == AUTO + 1
    ensures Leads(Syncing(init, rec, PrevSynced(Lsn(1, AUTO), AUTO, 0, false)), [SyncCur], Fsynced(init, rec))
  {
    hide Tag;
    var p := Syncing(init, rec, PrevSynced(Lsn(1, AUTO), AUTO, 0, false));
    var bytes := init + rec[..AUTO];
    assert |bytes| == |init| + AUTO;
    assert p.files == [File(bytes, |init|)];
    assert Fsync(p.files, 0) == [File(bytes, |init| + AUTO)];
    OneStep(p, SyncCur, Fsynced(init, rec));
  }

  lemma PartTold(init: seq<Byte>, rec: seq<Byte>)
    requires |rec| == AUTO + 1
    ensures Leads(Fsynced(init, rec), [SyncNext, EndSync], Told(init, rec))
  {
    hide Tag;
    var p := Fsynced(init, rec);
    TwoSteps(p, SyncNext, p.(syncer := AllSynced(Lsn(1, AUTO), AUTO)), EndSync, Told(init, rec));
  }

  lemma PartDone(init: seq<Byte>, rec: seq<Byte>)
    requires |rec| == AUTO + 1
    ensures Leads(Long(init, rec), [Choose(AUTO, false)] + [WriteFile] + [CountLsn, Finish] + [ReadLsn, ReadFds] + [SyncPrev] + [SyncCur] + [SyncNext, EndSync], Told(init, rec))
  {
    hide Leads;
    var p, fds := Long(init, rec), Syncing(init, rec, HasFds(Lsn(1, AUTO), AUTO, false, 0, false));
    var prev := Syncing(init, rec, PrevSynced(Lsn(1, AUTO), AUTO, 0, false));
    PartChosen(init, rec);
    PartWritten(init, rec);
    PartCounted(init, rec);
    PartRead(init, rec);
    PartPrev(init, rec);
    PartFsynced(init, rec);
    PartTold(init, rec);
    LeadsConcat(p, [Choose(AUTO, false)], Going(init, rec), [WriteFile], Gone(init, rec));
    var es := [Choose(AUTO, false)] + [WriteFile];
    LeadsConcat(p, es, Gone(init, rec), [CountLsn, Finish], Part(init, rec));
    LeadsConcat(p, es + [CountLsn, Finish], Part(init, rec), [ReadLsn, ReadFds], fds);
    var fs := es + [CountLsn, Finish] + [ReadLsn, ReadFds];
    LeadsConcat(p, fs, fds, [SyncPrev], prev);
    LeadsConcat(p, fs + [SyncPrev], prev, [SyncCur], Fsynced(init, rec));
    LeadsConcat(p, fs + [SyncPrev] + [SyncCur], Fsynced(init, rec), [SyncNext, EndSync], Told(init, rec));
  }

  /** One record is logged, its first flush request is flushed and synced. */
  function CutAndSynced(rec: seq<Byte>): seq<LogEvent> {
    [Write(rec, false, {AUTO})] +
    ([Choose(AUTO, false)] + [WriteFile] + [CountLsn, Finish] + [ReadLsn, ReadFds] + [SyncPrev] + [SyncCur] + [SyncNext, EndSync])
  }

  /** The writer of a record of 32 KB and a byte is told that it is on disk while its last byte is in no file. */
  lemma CutRecordTold(init: seq<Byte>, rec: seq<Byte>) returns (ps: seq<Pipe>)
    requires |rec| == AUTO + 1
    ensures var es := CutAndSynced(rec);
            && Run(ps, es) && es[0] == Write(rec, false, {AUTO}) && LsnLess(ps[0].writeLsn, ps[|es|].fsyncLsn)
            && ps[|es|].files == [File(init + rec[..AUTO], |init| + AUTO)]
  {
    hide MarksOk, Enabled, Next, Leads;
    LongWritten(init, rec);
    PartDone(init, rec);
    LeadsConcat(Start(init), [Write(rec, false, {AUTO})], Long(init, rec), CutAndSynced(rec)[1..], Told(init, rec));
    assert [Write(rec, false, {AUTO})] + CutAndSynced(rec)[1..] == CutAndSynced(rec);
    ps := RunFrom(init, CutAndSynced(rec), Told(init, rec));
  }
}
