/** What the syncer makes durable, and whom the group commit may tell (engines/default/cmdlogfile.c, cmdlogmgr.c). */
module LogSync {
  import opened Octets
  import opened LogFiles

  function Min(a: int, b: int): int { if a < b then a else b }

  /** How much of its own part of the log file `f` must hold for position `pos`. */
  function Own(p: Pipe, f: nat, pos: nat): nat
    requires MarksOk(p) && pos <= |p.log|
  {
    if f < |p.marks| && p.marks[f] <= pos
    then (if f + 1 < |p.marks| then Min(pos, p.marks[f + 1]) else pos) - p.marks[f]
    else 0
  }

  /** How much of what was written twice it must hold. */
  function Copied(p: Pipe, f: nat, pos: nat): nat
    requires MarksOk(p) && f < |p.files| && pos <= |p.log|
  {
    if f == 0 then 0 else |Twice(p, f, if f < |p.marks| then Min(pos, p.marks[f]) else pos)|
  }

  /**
   * How much of file `f` must be on disk for everything logged before `pos` to
   * be durable there: its own part of the log, or the records written twice
   * to it while it was the next file, with what lies before them.
   */
  function Need(p: Pipe, f: nat, pos: nat): nat
    requires MarksOk(p) && f < |p.files| && pos <= |p.log|
  {
    var n := Copied(p, f, pos) + Own(p, f, pos);
    if n == 0 then 0 else n + if f == 0 then |p.init| else |p.extras[f]|
  }

  /** Everything logged before `pos` is on disk, files in `but` aside. */
  predicate SyncedBut(p: Pipe, pos: nat, but: set<int>)
    requires MarksOk(p) && pos <= |p.log|
  {
    forall f: nat | f < |p.files| && f !in but :: Need(p, f, pos) <= p.files[f].synced
  }

  predicate Durable(p: Pipe, pos: nat)
    requires MarksOk(p) && pos <= |p.log|
  {
    SyncedBut(p, pos, {})
  }

  /** New marks are set at the end of the log. */
  predicate MarksAppended(p: Pipe, q: Pipe) {
    Later(p, q) && forall i | |p.marks| <= i < |q.marks| :: q.marks[i] >= |p.log|
  }

  /** File `f` is given nothing more to hold for position `pos`. */
  predicate Eased(p: Pipe, q: Pipe, f: nat, pos: nat)
    requires MarksOk(p) && MarksOk(q) && f < |p.files| && f < |q.files|
  {
    || f == 0
    || (q.starts[f] == p.starts[f] && (q.extras[f] == p.extras[f] || pos <= p.starts[f]))
    || (f >= |p.marks| && f >= |q.marks| && pos <= q.starts[f])
  }

  lemma OwnKept(p: Pipe, q: Pipe, f: nat, pos: nat)
    requires MarksAppended(p, q) && pos <= |p.log|
    ensures Own(q, f, pos) == Own(p, f, pos)
  {}

  lemma CopiedKept(p: Pipe, q: Pipe, f: nat, pos: nat)
    requires MarksAppended(p, q) && pos <= |p.log| && 0 < f < |p.files| && f < |q.files| && p.starts[f] == q.starts[f]
    ensures Copied(q, f, pos) == Copied(p, f, pos)
  {
    hide Twice;
    var to := if f < |p.marks| then Min(pos, p.marks[f]) else pos;
    TwiceKept(p, q, f, to);
  }

  /** What must be on disk for a settled position does not grow. */
  lemma NeedKept(p: Pipe, q: Pipe, f: nat, pos: nat)
    requires MarksAppended(p, q) && f < |p.files| && f < |q.files| && pos <= |p.log| && Eased(p, q, f, pos)
    ensures Need(q, f, pos) <= Need(p, f, pos)
  {
    hide Own, Twice, MarksAppended;
    assert p.init == q.init && MarksOk(p) && MarksOk(q) && pos <= |q.log| by { AppendedLater(p, q); }
    OwnKept(p, q, f, pos);
    if f > 0 {
      if q.starts[f] == p.starts[f] {
        CopiedKept(p, q, f, pos);
        if q.extras[f] != p.extras[f] { NothingNeeded(q, f, pos); }
      } else {
        NothingNeeded(q, f, pos);
      }
    }
  }

  lemma AppendedLater(p: Pipe, q: Pipe)
    requires MarksAppended(p, q)
    ensures Later(p, q) && MarksOk(p) && MarksOk(q) && p.init == q.init && |p.log| <= |q.log|
  {}

  /** Nothing is written twice, or goes to a file alone, before its checkpoint begins. */
  lemma NothingNeeded(p: Pipe, f: nat, pos: nat)
    requires MarksOk(p) && 0 < f < |p.files| && pos <= |p.log| && pos <= p.starts[f]
    ensures Need(p, f, pos) == 0
  {
    hide Twice;
    TwiceNone(p, f, if f < |p.marks| then Min(pos, p.marks[f]) else pos);
  }

  lemma TwiceGrows(p: Pipe, f: nat, i: nat, j: nat)
    requires MarksOk(p) && 0 < f < |p.files| && i <= j <= |p.log|
    ensures |Twice(p, f, i)| <= |Twice(p, f, j)|
  {
    hide Dual;
    if p.starts[f] <= i { DualSplit(p.log, p.starts[f], i, j); }
  }

  /** What must be on disk for a written position is in the files. */
  lemma NeedWritten(p: Pipe, f: nat, pos: nat)
    requires Inv(p) && f < |p.files| && pos <= WrittenTo(p)
    ensures Need(p, f, pos) <= |p.files[f].bytes|
  {
    hide Twice, DualOk, LsnsOk, FlusherOk, BoundsOk, Bytes;
    if f <= p.cur {
      assert FileOk(p, f);
      if f > 0 && pos < p.marks[f] { TwiceGrows(p, f, pos, p.marks[f]); }
    } else {
      TwiceGrows(p, f, pos, WrittenTo(p));
      DoomedNone(p);
      TwiceGrows(p, f, pos, |p.log|);
    }
  }

  lemma DoomedNone(p: Pipe)
    requires Inv(p) && NextOpen(p)
    ensures Doomed(p) ==> Twice(p, p.cur + 1, |p.log|) == []
    ensures !Doomed(p) ==> p.files[p.cur + 1].bytes == p.extras[p.cur + 1] + Twice(p, p.cur + 1, WrittenTo(p))
  {}

  /** An LSN that counts log position `pos`. */
  predicate Counts(p: Pipe, lsn: Lsn, pos: nat)
    requires MarksOk(p)
  {
    var f := lsn.filenum - 1;
    && 0 <= f < |p.marks| && p.marks[f] <= pos && (f + 1 < |p.marks| ==> pos <= p.marks[f + 1])
    && lsn == LsnAt(p, f, pos)
  }

  /** The files that the running sync has yet to bring to disk. */
  function Awaiting(s: Syncer): set<int> {
    match s
    case HasFds(_, _, prev, fd, next) => (if prev then {fd - 1} else {}) + {fd} + (if next then {fd + 1} else {})
    case PrevSynced(_, _, fd, next) => {fd} + (if next then {fd + 1} else {})
    case CurSynced(_, _, fd, next) => if next then {fd + 1} else {}
    case _ => {}
  }

  predicate SyncerOk(p: Pipe)
    requires MarksOk(p)
  {
    var s := p.syncer;
    s.Resting? || (
      && p.fsyncPos <= s.pos <= CountedTo(p) <= |p.log| && Counts(p, s.now, s.pos)
      && (s.HasFds? || s.PrevSynced? || s.CurSynced? ==> s.fd <= p.cur && (s.next ==> s.fd + 1 < |p.files|))
      && (s.HasFds? && s.prev ==> s.fd > 0)
      && (s.PrevSynced? || s.CurSynced? || s.AllSynced? ==> LsnLess(p.fsyncLsn, s.now))
      && (!s.HasLsn? ==> SyncedBut(p, s.pos, Awaiting(s))) && s.pos in p.bounds)
  }

  /** A file that was replaced is on disk, unless its descriptor still waits for a sync. */
  predicate Closed(p: Pipe, f: nat)
    requires f < |p.files|
  {
    || (f == p.cur - 1 && p.prevOpen)
    || (p.syncer.HasFds? && p.syncer.prev && f == p.syncer.fd - 1)
    || p.files[f].synced == |p.files[f].bytes|
  }

  predicate SyncInv(p: Pipe)
    requires MarksOk(p)
  {
    && (forall f: nat | f < |p.files| :: p.files[f].synced <= |p.files[f].bytes|)
    && (forall f: nat | f < p.cur :: Closed(p, f))
    && (p.prevOpen ==> p.cur > 0 && !NextOpen(p))
    && p.fsyncPos <= CountedTo(p) <= |p.log| && Counts(p, p.fsyncLsn, p.fsyncPos) && Durable(p, p.fsyncPos)
    && p.fsyncPos in p.bounds && SyncerOk(p)
  }

  lemma CountsKept(p: Pipe, q: Pipe, lsn: Lsn, pos: nat)
    requires MarksAppended(p, q) && Counts(p, lsn, pos) && pos <= |p.log|
    ensures Counts(q, lsn, pos)
  {
    hide BaseOffset;
    OffsetKept(p, q, lsn.filenum - 1);
  }

  /** Files that stay gain bytes and synced bytes only. */
  predicate FilesGrow(p: Pipe, q: Pipe) {
    forall f | 0 <= f < |p.files| && f < |q.files| :: q.files[f].synced >= p.files[f].synced && |q.files[f].bytes| >= |p.files[f].bytes|
  }

  lemma SyncedKept(p: Pipe, q: Pipe, pos: nat, but: set<int>)
    requires MarksAppended(p, q) && FilesGrow(p, q) && pos <= |p.log| && SyncedBut(p, pos, but)
    requires forall f: nat | f < |p.files| && f < |q.files| :: Eased(p, q, f, pos)
    requires forall f: nat | |p.files| <= f < |q.files| :: Need(q, f, pos) == 0
    ensures SyncedBut(q, pos, but)
  {
    hide Need;
    forall f: nat | f < |q.files| && f !in but
      ensures Need(q, f, pos) <= q.files[f].synced
    {
      if f < |p.files| { NeedKept(p, q, f, pos); }
    }
  }

  /** What the writers, the flusher and the checkpoint leave alone. */
  predicate Apart(p: Pipe, q: Pipe) {
    && MarksAppended(p, q) && FilesGrow(p, q) && (|q.files| < |p.files| ==> p.syncer.Resting?)
    && (forall f | 0 <= f < |p.files| && f < |q.files| :: q.files[f].synced == p.files[f].synced)
    && (forall f | 0 <= f < p.cur :: q.files[f] == p.files[f])
    && (forall f | |p.files| <= f < |q.files| :: q.files[f] == File([], 0) && q.starts[f] == |p.log|)
    && (forall f | 0 <= f < |p.files| && f < |q.files| :: Eased(p, q, f, CountedTo(p)))
    && q.syncer == p.syncer && q.fsyncLsn == p.fsyncLsn && q.fsyncPos == p.fsyncPos && p.bounds <= q.bounds
    && CountedTo(p) <= CountedTo(q) <= |q.log| && CountedTo(p) <= |p.log|
    && p.cur <= q.cur <= p.cur + 1 && (q.cur > p.cur ==> q.prevOpen && NextOpen(p)) && (q.cur == p.cur ==> q.prevOpen == p.prevOpen)
    && (q.prevOpen ==> !NextOpen(q))
  }

  predicate ApartReady(p: Pipe) {
    && MarksOk(p) && CountedTo(p) <= |p.log| && (p.prevOpen ==> !NextOpen(p))
    && (p.flusher.Written? ==> p.flushed + p.flusher.n <= |p.log|)
    && (p.flusher.Chosen? ==> SwitchAhead(p)) && (p.scanning ==> NextOpen(p) && !SwitchAhead(p))
  }

  lemma InvReady(p: Pipe)
    requires Inv(p) && (p.prevOpen ==> !NextOpen(p))
    ensures ApartReady(p)
  {
    hide Twice, FileOk, Uniform, ChunkOk, NextOk, BoundsOk, LsnsOk;
  }

  lemma OpenApart(p: Pipe)
    requires ApartReady(p) && CanOpen(p)
    ensures Apart(p, AfterOpen(p))
  {}

  lemma SucceedApart(p: Pipe)
    requires ApartReady(p) && CanEnd(p)
    ensures Apart(p, AfterSucceed(p))
  {}

  lemma FailApart(p: Pipe)
    requires ApartReady(p) && CanEnd(p)
    ensures Apart(p, AfterFail(p))
  {}

  lemma CloseApart(p: Pipe)
    requires ApartReady(p) && CanClose(p)
    ensures Apart(p, AfterClose(p))
  {}

  lemma WriteApart(p: Pipe, rec: seq<Byte>, dual: bool, cuts: set<nat>)
    requires ApartReady(p) && CanWrite(p, rec, dual, cuts)
    ensures Apart(p, AfterWrite(p, rec, dual, cuts))
  {}

  /** Files only grow when a chunk is written, and a chunk that comes too late is not needed. */
  lemma WriteFileGrows(p: Pipe)
    requires MarksOk(p) && CanWriteFile(p)
    ensures var q := AfterWriteFile(p);
            && |q.files| == |p.files| && |q.extras| == |p.extras| && q.starts == p.starts
            && (forall f | 0 <= f < |p.files| :: q.files[f].synced == p.files[f].synced && |q.files[f].bytes| >= |p.files[f].bytes|)
            && (forall f | 0 <= f < |p.files| :: q.extras[f] == p.extras[f] || p.flushed <= p.starts[f])
  {
    hide Bytes;
  }

  lemma WriteFileApart(p: Pipe)
    requires ApartReady(p) && CanWriteFile(p)
    ensures Apart(p, AfterWriteFile(p))
  {
    hide Bytes, AfterWriteFile, Later, MarksOk, Chunk;
    var q := AfterWriteFile(p);
    WriteFileShape(p);
    WriteFileGrows(p);
    SameLater(p, q);
    ShapeOf(p);
  }

  lemma SwitchApart(p: Pipe)
    requires ApartReady(p) && p.flusher.Chosen? && NextOpen(p)
    ensures Apart(p, AfterSwitchFile(p))
  {}

  lemma FlusherApart(p: Pipe, e: LogEvent)
    requires ApartReady(p) && Enabled(p, e) && (e.Choose? || e.SwitchLsn? || e.CountLsn? || e.Finish?)
    ensures Apart(p, Next(p, e))
  {
    hide Flagged;
  }

  lemma OtherApart(p: Pipe, e: LogEvent)
    requires Inv(p) && Enabled(p, e) && !OfSyncer(e) && (p.prevOpen ==> !NextOpen(p))
    ensures Apart(p, Next(p, e))
  {
    hide Inv, MarksOk, Apart, ApartReady, CanChoose, CanWrite, CanClose, CanEnd, CanOpen, CanWriteFile, AfterWrite, AfterOpen, AfterSucceed,
         AfterFail, AfterClose, AfterChoose, AfterSwitchFile, AfterSwitchLsn, AfterWriteFile, AfterCount, AfterFinish;
    InvReady(p);
    match e
    case Write(rec, dual, cuts) => WriteApart(p, rec, dual, cuts);
    case WriteFile => WriteFileApart(p);
    case OpenNext => OpenApart(p);
    case Succeed => SucceedApart(p);
    case FailDual => FailApart(p);
    case CloseNext => CloseApart(p);
    case SwitchFile => SwitchApart(p);
    case _ => FlusherApart(p, e);
  }

  lemma EasedLess(p: Pipe, q: Pipe, f: nat, pos: nat, upto: nat)
    requires MarksOk(p) && MarksOk(q) && f < |p.files| && f < |q.files| && pos <= upto && Eased(p, q, f, upto)
    ensures Eased(p, q, f, pos)
  {}

  lemma SyncedApart(p: Pipe, q: Pipe, pos: nat, but: set<int>)
    requires Apart(p, q) && pos <= CountedTo(p) && SyncedBut(p, pos, but)
    ensures SyncedBut(q, pos, but)
  {
    hide Need, SyncedBut, MarksAppended, Eased, FilesGrow;
    AppendedLater(p, q);
    forall f: nat | f < |p.files| && f < |q.files|
      ensures Eased(p, q, f, pos)
    {
      EasedLess(p, q, f, pos, CountedTo(p));
    }
    forall f: nat | |p.files| <= f < |q.files|
      ensures Need(q, f, pos) == 0
    {
      NothingNeeded(q, f, pos);
    }
    SyncedKept(p, q, pos, but);
  }

  lemma OtherKeeps(p: Pipe, e: LogEvent)
    requires Inv(p) && SyncInv(p) && Enabled(p, e) && !OfSyncer(e)
    ensures MarksOk(Next(p, e)) && SyncInv(Next(p, e))
  {
    hide Inv, Next, Enabled, SyncedBut, Counts, FilesGrow, MarksAppended, LsnLess, Eased;
    InvMarks(p);
    var q := Next(p, e);
    OtherApart(p, e);
    AppendedLater(p, q) by { assert MarksAppended(p, q); }
    CountsKept(p, q, p.fsyncLsn, p.fsyncPos);
    SyncedApart(p, q, p.fsyncPos, {});
    if !p.syncer.Resting? {
      CountsKept(p, q, p.syncer.now, p.syncer.pos);
      if !p.syncer.HasLsn? { SyncedApart(p, q, p.syncer.pos, Awaiting(p.syncer)); }
    }
    forall f: nat | f < |q.files|
      ensures q.files[f].synced <= |q.files[f].bytes|
    {
      ApartFile(p, q, f);
    }
    forall f: nat | f < q.cur
      ensures Closed(q, f)
    {
      if f < p.cur { assert Closed(p, f); }
    }
    assert SyncerOk(q);
    assert Durable(q, q.fsyncPos);
  }

  lemma ApartFile(p: Pipe, q: Pipe, f: nat)
    requires Apart(p, q) && f < |q.files| && (f < |p.files| ==> p.files[f].synced <= |p.files[f].bytes|)
    ensures q.files[f].synced <= |q.files[f].bytes|
  {}

  /** A sync brings one file to disk, and with it all that a written position needs of that file. */
  lemma FsyncNeeds(p: Pipe, f: nat, pos: nat, but: set<int>)
    requires Inv(p) && f < |p.files| && pos <= WrittenTo(p) && SyncedBut(p, pos, but) && WrittenTo(p) <= |p.log|
    requires forall g | 0 <= g < |p.files| :: p.files[g].synced <= |p.files[g].bytes|
    ensures var q := p.(files := Fsync(p.files, f)); MarksOk(q) && SyncedBut(q, pos, but - {f})
  {
    hide Inv, Need;
    InvMarks(p);
    var q := p.(files := Fsync(p.files, f));
    forall g: nat | g < |q.files| && g !in but - {f}
      ensures Need(q, g, pos) <= q.files[g].synced
    {
      assert Later(p, q);
      NeedKept(p, q, g, pos);
      NeedWritten(p, g, pos);
    }
  }

  /** The flush LSN counts what the flusher has counted. */
  lemma FlushCounts(p: Pipe)
    requires Inv(p)
    ensures CountedTo(p) <= WrittenTo(p) <= |p.log| && Counts(p, p.flushLsn, CountedTo(p))
  {
    hide Twice, Bytes, Uniform, FileOk, BoundsOk;
  }

  lemma CountedBound(p: Pipe)
    requires Inv(p)
    ensures CountedTo(p) in p.bounds
  {
    hide FilesOk, LsnsOk, DualOk, FlusherOk;
  }

  /** Descriptors read after the LSN: whatever the LSN counts is in a file they name or in a file already on disk. */
  lemma FdsSynced(p: Pipe)
    requires Inv(p) && SyncInv(p) && Enabled(p, ReadFds)
    ensures var q := Next(p, ReadFds); MarksOk(q) && q.syncer.pos <= |q.log| && SyncedBut(q, q.syncer.pos, Awaiting(q.syncer))
  {
    hide Inv, Need, Counts, LsnLess, Later;
    InvMarks(p);
    var q := Next(p, ReadFds);
    SameLater(p, q);
    FlushCounts(p);
    forall f: nat | f < |q.files| && f !in Awaiting(q.syncer)
      ensures Need(q, f, q.syncer.pos) <= q.files[f].synced
    {
      NeedWritten(p, f, q.syncer.pos);
      NeedKept(p, q, f, q.syncer.pos);
      if f < p.cur { assert Closed(p, f); }
    }
  }

  lemma FdsKeep(p: Pipe)
    requires Inv(p) && SyncInv(p) && Enabled(p, ReadFds)
    ensures var q := Next(p, ReadFds); MarksOk(q) && SyncInv(q)
  {
    hide Inv, Counts, LsnLess, SyncedBut;
    InvMarks(p);
    var q := Next(p, ReadFds);
    FdsSynced(p);
    SameSynced(p, q, p.fsyncPos, {});
    SameCounts(p, q);
    forall f: nat | f < q.cur
      ensures Closed(q, f)
    {
      assert Closed(p, f);
    }
  }

  lemma SameSynced(p: Pipe, q: Pipe, pos: nat, but: set<int>)
    requires MarksOk(p) && MarksOk(q) && SameLog(p, q) && p.files == q.files && p.extras == q.extras
    requires pos <= |p.log| && SyncedBut(p, pos, but)
    ensures SyncedBut(q, pos, but)
  {
    hide Need;
    SyncedKept(p, q, pos, but);
  }

  lemma SameCounts(p: Pipe, q: Pipe)
    requires MarksOk(p) && MarksOk(q) && SameLog(p, q)
    ensures forall lsn, pos: nat :: Counts(q, lsn, pos) <==> Counts(p, lsn, pos)
  {
    hide BaseOffset;
    SameLater(p, q);
    OffsetsKept(p, q);
  }

  lemma ReadLsnKeeps(p: Pipe)
    requires Inv(p) && SyncInv(p) && Enabled(p, ReadLsn)
    ensures var q := Next(p, ReadLsn); MarksOk(q) && SyncInv(q)
  {
    hide Inv, Need, Counts, LsnLess;
    InvMarks(p);
    var q := Next(p, ReadLsn);
    FlushCounts(p);
    CountedBound(p);
    SameSynced(p, q, p.fsyncPos, {});
    SameCounts(p, q);
    forall f: nat | f < q.cur
      ensures Closed(q, f)
    {
      assert Closed(p, f);
    }
  }

  /** The step after syncing file `f` on behalf of the running sync. */
  lemma FsyncKeeps(p: Pipe, f: nat, s: Syncer)
    requires Inv(p) && SyncInv(p) && f < |p.files|
    requires p.syncer.HasFds? || p.syncer.PrevSynced? || p.syncer.CurSynced?
    requires (Awaiting(s) >= Awaiting(p.syncer) - {f} && !s.HasFds? && !s.HasLsn?) || s.Resting?
    requires p.syncer.HasFds? && p.syncer.prev ==> f == p.syncer.fd - 1
    requires !s.Resting? ==> s.now == p.syncer.now && s.pos == p.syncer.pos && LsnLess(p.fsyncLsn, s.now)
    requires s.PrevSynced? || s.CurSynced? ==> s.fd == p.syncer.fd && s.next == p.syncer.next
    ensures var q := p.(files := Fsync(p.files, f), syncer := s); MarksOk(q) && SyncInv(q)
  {
    hide Inv, Need, Counts, LsnLess;
    InvMarks(p);
    FlushCounts(p);
    var r := p.(files := Fsync(p.files, f));
    var q := r.(syncer := s);
    FsyncNeeds(p, f, p.syncer.pos, Awaiting(p.syncer));
    FsyncNeeds(p, f, p.fsyncPos, {});
    SameSynced(r, q, p.syncer.pos, Awaiting(p.syncer) - {f});
    SameSynced(r, q, p.fsyncPos, {} - {f});
    SameCounts(p, q);
    forall g: nat | g < q.cur
      ensures Closed(q, g)
    {
      assert Closed(p, g);
    }
  }

  /** The same step when there is no file to sync. */
  lemma SkipKeeps(p: Pipe, s: Syncer)
    requires Inv(p) && SyncInv(p)
    requires (p.syncer.HasFds? && !p.syncer.prev) || (p.syncer.CurSynced? && !p.syncer.next)
    requires (Awaiting(s) >= Awaiting(p.syncer) && !s.HasFds? && !s.HasLsn?) || s.Resting?
    requires !s.Resting? ==> s.now == p.syncer.now && s.pos == p.syncer.pos && LsnLess(p.fsyncLsn, s.now)
    requires s.PrevSynced? || s.CurSynced? ==> s.fd == p.syncer.fd && s.next == p.syncer.next
    ensures var q := p.(syncer := s); MarksOk(q) && SyncInv(q)
  {
    hide Inv, Need, Counts, LsnLess;
    InvMarks(p);
    var q := p.(syncer := s);
    SameSynced(p, q, p.syncer.pos, Awaiting(p.syncer));
    SameSynced(p, q, p.fsyncPos, {});
    SameCounts(p, q);
    forall g: nat | g < q.cur
      ensures Closed(q, g)
    {
      assert Closed(p, g);
    }
  }

  lemma EndSyncKeeps(p: Pipe)
    requires Inv(p) && SyncInv(p) && Enabled(p, EndSync)
    ensures var q := Next(p, EndSync); MarksOk(q) && SyncInv(q)
  {
    hide Inv, Need, Counts, LsnLess;
    InvMarks(p);
    var q := Next(p, EndSync);
    SameSynced(p, q, p.syncer.pos, {});
    SameCounts(p, q);
    forall g: nat | g < q.cur
      ensures Closed(q, g)
    {
      assert Closed(p, g);
    }
  }

  lemma SyncPrevKeeps(p: Pipe)
    requires Inv(p) && SyncInv(p) && Enabled(p, SyncPrev)
    ensures MarksOk(Next(p, SyncPrev)) && SyncInv(Next(p, SyncPrev))
  {
    hide Inv, SyncedBut, LsnLess, Counts, Closed;
    InvMarks(p);
    var q, s := Next(p, SyncPrev), p.syncer;
    if s.prev { FsyncKeeps(p, s.fd - 1, q.syncer); } else { SkipKeeps(p, q.syncer); }
  }

  lemma SyncNextKeeps(p: Pipe)
    requires Inv(p) && SyncInv(p) && Enabled(p, SyncNext)
    ensures MarksOk(Next(p, SyncNext)) && SyncInv(Next(p, SyncNext))
  {
    hide Inv, SyncedBut, LsnLess, Counts, Closed;
    InvMarks(p);
    var q, s := Next(p, SyncNext), p.syncer;
    if s.next { FsyncKeeps(p, s.fd + 1, q.syncer); } else { SkipKeeps(p, q.syncer); }
  }

  lemma SyncCurKeeps(p: Pipe)
    requires Inv(p) && SyncInv(p) && Enabled(p, SyncCur)
    ensures MarksOk(Next(p, SyncCur)) && SyncInv(Next(p, SyncCur))
  {
    hide Inv, SyncedBut, LsnLess, Counts, Closed;
    InvMarks(p);
    FsyncKeeps(p, p.syncer.fd, Next(p, SyncCur).syncer);
  }

  lemma SyncStepKeeps(p: Pipe, e: LogEvent)
    requires Inv(p) && SyncInv(p) && Enabled(p, e) && OfSyncer(e)
    ensures MarksOk(Next(p, e)) && SyncInv(Next(p, e))
  {
    hide Inv, SyncInv, Next, Enabled;
    InvMarks(p);
    match e
    case ReadLsn => ReadLsnKeeps(p);
    case ReadFds => FdsKeep(p);
    case SyncPrev => SyncPrevKeeps(p);
    case SyncCur => SyncCurKeeps(p);
    case SyncNext => SyncNextKeeps(p);
    case EndSync => EndSyncKeeps(p);
  }

  lemma AllKeep(p: Pipe, e: LogEvent)
    requires Inv(p) && SyncInv(p) && Enabled(p, e)
    ensures Inv(Next(p, e)) && SyncInv(Next(p, e))
  {
    hide Inv, SyncInv, Next, Enabled;
    InvMarks(p);
    StepKeeps(p, e);
    if OfSyncer(e) { SyncStepKeeps(p, e); } else { OtherKeeps(p, e); }
  }

  /** The log file `init` was recovered or created, and nothing is buffered yet. */
  function Start(init: seq<Byte>): Pipe {
    Pipe(init, [], {0}, 0, [0], 0, [File(init, |init|)], [0], [[]], |init|, 0, 0, false, false, 0,
         Idle, Lsn(1, 0), Lsn(1, 0), Resting, Lsn(1, 0), 0)
  }

  ghost predicate Run(ps: seq<Pipe>, es: seq<LogEvent>) {
    && |ps| == |es| + 1 && ps[0] == Start(ps[0].init)
    && forall i | 0 <= i < |es| :: MarksOk(ps[i]) && Enabled(ps[i], es[i]) && ps[i + 1] == Next(ps[i], es[i])
  }

  lemma StartOk(init: seq<Byte>)
    ensures Inv(Start(init)) && SyncInv(Start(init))
  {
    var p := Start(init);
    assert p.log[0..] == [] && p.log[0..0] == [];
    assert FileOk(p, 0);
    assert Need(p, 0, 0) == 0;
  }

  lemma {:induction false} RunKeeps(ps: seq<Pipe>, es: seq<LogEvent>, i: nat)
    requires Run(ps, es) && i < |ps|
    ensures Inv(ps[i]) && SyncInv(ps[i])
  {
    hide Inv, SyncInv, Next, Enabled, Start;
    if i == 0 {
      StartOk(ps[0].init);
    } else {
      RunKeeps(ps, es, i - 1);
      AllKeep(ps[i - 1], es[i - 1]);
    }
  }

  lemma RunSnoc(ps: seq<Pipe>, es: seq<LogEvent>, e: LogEvent)
    requires Run(ps, es) && MarksOk(ps[|es|]) && Enabled(ps[|es|], e)
    ensures Run(ps + [Next(ps[|es|], e)], es + [e])
  {
    hide Next, Enabled, Start, MarksOk;
  }
}
