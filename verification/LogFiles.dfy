/**
 * The command log as a protocol: writers, one flusher, one syncer and the
 * checkpoint, with steps cut at lock boundaries (engines/default/cmdlogbuf.c,
 * cmdlogfile.c, cmdlogmgr.c). File 0 is the log file that was current at the
 * start; each successful checkpoint makes the next file current.
 */
module LogFiles {
  import opened Octets

  /** A logged byte and whether its record was also meant for the next log file. */
  datatype Logged = Logged(byte: Byte, dual: bool)

  datatype Lsn = Lsn(filenum: nat, roffset: nat)

  predicate LsnLess(a: Lsn, b: Lsn) {
    a.filenum < b.filenum || (a.filenum == b.filenum && a.roffset < b.roffset)
  }

  /** A log file: its content, and how much of it has reached the disk. */
  datatype File = File(bytes: seq<Byte>, synced: nat)

  /** Where do_log_buff_flush is. */
  datatype Flusher =
    | Idle
    | Chosen(n: nat, dual: bool, dwBytes: nat)
    | Switched(n: nat, dual: bool, dwBytes: nat)
    | Ready(n: nat, dual: bool)
    | Written(n: nat)
    | Counted(n: nat)

  /** Where cmdlog_file_sync is; `pos` is how far into the log the flush LSN it read lies. */
  datatype Syncer =
    | Resting
    | HasLsn(now: Lsn, pos: nat)
    | HasFds(now: Lsn, pos: nat, prev: bool, fd: nat, next: bool)
    | PrevSynced(now: Lsn, pos: nat, fd: nat, next: bool)
    | CurSynced(now: Lsn, pos: nat, fd: nat, next: bool)
    | AllSynced(now: Lsn, pos: nat)

  /**
   * `log` is every byte logged so far and `flushed` how many of them have left
   * the buffer. `marks[f]` is where in the log file `f` takes over; the last
   * mark may still be ahead of the current file `cur`. Records flagged dual
   * count for file `f` from log position `starts[f]` on, and `extras[f]` is
   * what the file was given besides: a chunk chosen for an earlier checkpoint.
   * `junk` is what went to the next files of failed checkpoints since the last
   * switch, and `bounds` are the ends of records and of flush requests.
   */
  datatype Pipe = Pipe(
    init: seq<Byte>,
    log: seq<Logged>,
    bounds: set<nat>,
    flushed: nat,
    marks: seq<nat>,
    cur: nat,
    files: seq<File>,
    starts: seq<nat>,
    extras: seq<seq<Byte>>,
    size: nat,
    nextSize: nat,
    junk: nat,
    prevOpen: bool,
    scanning: bool,
    dwSize: nat,
    flusher: Flusher,
    writeLsn: Lsn,
    flushLsn: Lsn,
    syncer: Syncer,
    fsyncLsn: Lsn,
    fsyncPos: nat)

  function Bytes(s: seq<Logged>): (r: seq<Byte>)
    ensures |r| == |s|
  {
    seq(|s|, i requires 0 <= i < |s| => s[i].byte)
  }

  /** The bytes that were written twice. */
  function Dual(s: seq<Logged>): seq<Byte> {
    if s == [] then []
    else Dual(s[..|s| - 1]) + if s[|s| - 1].dual then [s[|s| - 1].byte] else []
  }

  function Tag(rec: seq<Byte>, dual: bool): (r: seq<Logged>)
    ensures |r| == |rec|
  {
    seq(|rec|, i requires 0 <= i < |rec| => Logged(rec[i], dual))
  }

  lemma {:induction false} DualConcat(a: seq<Logged>, b: seq<Logged>)
    ensures Dual(a + b) == Dual(a) + Dual(b)
    decreases |b|
  {
    if b == [] {
      assert a + b == a;
    } else {
      var n := |b| - 1;
      DualConcat(a, b[..n]);
      assert (a + b)[..|a| + n] == a + b[..n];
    }
  }

  predicate Uniform(s: seq<Logged>, dual: bool) {
    forall i | 0 <= i < |s| :: s[i].dual == dual
  }

  lemma {:induction false} DualUniform(s: seq<Logged>, dual: bool)
    requires Uniform(s, dual)
    ensures Dual(s) == if dual then Bytes(s) else []
    decreases |s|
  {
    if s != [] {
      DualUniform(s[..|s| - 1], dual);
      assert Bytes(s) == Bytes(s[..|s| - 1]) + [s[|s| - 1].byte];
    }
  }

  lemma DualSplit(s: seq<Logged>, m: nat, i: nat, j: nat)
    requires m <= i <= j <= |s|
    ensures Dual(s[m..j]) == Dual(s[m..i]) + Dual(s[i..j])
  {
    assert s[m..j] == s[m..i] + s[i..j];
    DualConcat(s[m..i], s[i..j]);
  }

  lemma BytesSplit(s: seq<Logged>, m: nat, i: nat, j: nat)
    requires m <= i <= j <= |s|
    ensures Bytes(s[m..j]) == Bytes(s[m..i]) + Bytes(s[i..j])
  {
    assert s[m..j] == s[m..i] + s[i..j];
  }

  lemma DualNone()
    ensures Dual([]) == []
  {}

  /** How far the current file has been written. */
  function WrittenTo(p: Pipe): nat {
    p.flushed + if p.flusher.Written? || p.flusher.Counted? then p.flusher.n else 0
  }

  /** How far the flush LSN has come. */
  function CountedTo(p: Pipe): nat {
    p.flushed + if p.flusher.Counted? then p.flusher.n else 0
  }

  /** A checkpoint succeeded but the flusher has not switched files yet. */
  predicate SwitchAhead(p: Pipe) { |p.marks| == p.cur + 2 }

  predicate NextOpen(p: Pipe) { |p.files| == p.cur + 2 }

  predicate MarksOk(p: Pipe) {
    && |p.marks| > 0 && p.marks[0] == 0
    && (forall i, j | 0 <= i <= j < |p.marks| :: p.marks[i] <= p.marks[j] <= |p.log|)
    && p.cur + 1 <= |p.marks| <= |p.files| <= p.cur + 2
    && |p.starts| == |p.files| == |p.extras|
    && (forall f | 0 < f < |p.files| :: p.marks[f - 1] <= p.starts[f] <= if f < |p.marks| then p.marks[f] else |p.log|)
  }

  /** The checkpoint failed and its log file is still to be closed. */
  predicate Doomed(p: Pipe) { NextOpen(p) && !p.scanning && !SwitchAhead(p) }

  /** The byte at log position `i` is still meant for the next file. */
  predicate Flag(p: Pipe, i: nat)
    requires MarksOk(p) && i < |p.log|
  {
    NextOpen(p) && p.starts[p.cur + 1] <= i && p.log[i].dual
  }

  /** What was logged twice for file `f`, as far as position `to`. */
  function Twice(p: Pipe, f: nat, to: nat): seq<Byte>
    requires MarksOk(p) && 0 < f < |p.files| && to <= |p.log|
  {
    if p.starts[f] <= to then Dual(p.log[p.starts[f]..to]) else []
  }

  /** What file `f` holds before its own part of the log: the records written twice during its checkpoint. */
  function Base(p: Pipe, f: nat): seq<Byte>
    requires MarksOk(p) && f < |p.marks|
  {
    if f == 0 then p.init else p.extras[f] + Twice(p, f, p.marks[f])
  }

  /** The record offset at which the LSNs of file `f` begin. */
  function BaseOffset(p: Pipe, f: nat): nat
    requires MarksOk(p) && f < |p.marks|
  {
    if f == 0 then 0 else |Twice(p, f, p.marks[f])|
  }

  /** The LSN of log position `pos`, counted in file `f`. */
  function LsnAt(p: Pipe, f: nat, pos: nat): Lsn
    requires MarksOk(p) && f < |p.marks| && p.marks[f] <= pos
  {
    Lsn(f + 1, BaseOffset(p, f) + (pos - p.marks[f]))
  }

  /** Where the part of the log that belongs to file `f` ends at present. */
  function EndOf(p: Pipe, f: nat): nat
    requires MarksOk(p) && f <= p.cur
  {
    if f < p.cur then p.marks[f + 1] else WrittenTo(p)
  }

  /** File `f` holds the records written twice during its checkpoint, then its own part of the log. */
  predicate FileOk(p: Pipe, f: nat)
    requires MarksOk(p) && f <= p.cur
  {
    && p.marks[f] <= EndOf(p, f) <= |p.log|
    && p.files[f].bytes == Base(p, f) + Bytes(p.log[p.marks[f]..EndOf(p, f)])
  }

  /** The checkpoint for which a chunk was chosen is over, or has failed. */
  predicate Void(p: Pipe, n: nat)
    requires MarksOk(p)
  {
    NextOpen(p) ==> p.flushed + n <= p.starts[p.cur + 1]
  }

  /** What the flusher is about to write: queued bytes with one flag, or with one that was cleared since. */
  predicate ChunkOk(p: Pipe, n: nat, dual: bool)
    requires MarksOk(p)
  {
    && p.flushed + n <= |p.log| && (SwitchAhead(p) ==> p.flushed + n <= p.marks[p.cur + 1])
    && if dual then Uniform(p.log[p.flushed..p.flushed + n], true) && (Void(p, n) || p.starts[p.cur + 1] <= p.flushed)
       else Unflagged(p, n)
  }

  predicate Unflagged(p: Pipe, n: nat)
    requires MarksOk(p) && p.flushed + n <= |p.log|
  {
    forall k: nat | p.flushed <= k < p.flushed + n :: !Flag(p, k)
  }

  predicate FlusherOk(p: Pipe)
    requires MarksOk(p)
  {
    match p.flusher
    case Idle => true
    case Chosen(n, dual, dwBytes) =>
      && SwitchAhead(p) && p.flushed == p.marks[p.cur + 1] && p.flushed + n <= |p.log|
      && !dual && dwBytes == BaseOffset(p, p.cur + 1)
    case Switched(n, dual, dwBytes) =>
      p.cur > 0 && p.flushed == p.marks[p.cur] && !dual && ChunkOk(p, n, dual) && dwBytes == BaseOffset(p, p.cur)
    case Ready(n, dual) => n > 0 && ChunkOk(p, n, dual)
    case Written(n) => n > 0 && p.flushed + n <= |p.log| && (SwitchAhead(p) ==> p.flushed + n <= p.marks[p.cur + 1])
    case Counted(n) => n > 0 && p.flushed + n <= |p.log| && (SwitchAhead(p) ==> p.flushed + n <= p.marks[p.cur + 1])
  }

  /** Records are written twice only while a next file is open and its checkpoint is not over. */
  predicate DualOk(p: Pipe)
    requires MarksOk(p)
  {
    && (p.scanning ==> NextOpen(p) && !SwitchAhead(p))
    && (SwitchAhead(p) ==> Dual(p.log[p.marks[p.cur + 1]..]) == [])
    && (Doomed(p) ==> Twice(p, p.cur + 1, |p.log|) == [])
    && p.dwSize == (if p.flusher.Chosen? || !NextOpen(p) then 0
                    else if SwitchAhead(p) then BaseOffset(p, p.cur + 1) else |Twice(p, p.cur + 1, |p.log|)|)
  }

  /** Records and flush requests end where the flusher has been. */
  predicate BoundsOk(p: Pipe) {
    && p.flushed in p.bounds && |p.log| in p.bounds && (forall b | b in p.bounds :: b <= |p.log|)
    && (p.flusher.Idle? || p.flushed + p.flusher.n in p.bounds)
  }

  /** The file that the flush LSN counts in. */
  function LsnFile(p: Pipe): int {
    if p.flusher.Switched? then p.cur - 1 else p.cur
  }

  predicate LsnsOk(p: Pipe)
    requires MarksOk(p)
  {
    && p.writeLsn == LsnAt(p, |p.marks| - 1, |p.log|)
    && 0 <= LsnFile(p) && p.marks[LsnFile(p)] <= CountedTo(p)
    && p.flushLsn == LsnAt(p, LsnFile(p), CountedTo(p))
  }

  predicate FilesOk(p: Pipe)
    requires MarksOk(p)
  {
    && p.marks[p.cur] <= p.flushed <= WrittenTo(p) <= |p.log|
    && (SwitchAhead(p) ==> WrittenTo(p) <= p.marks[p.cur + 1])
    && (forall f | 0 <= f <= p.cur :: FileOk(p, f))
    && NextOk(p)
  }

  /** The next file has what was written twice for it, and the size kept for it has what went to failed ones as well. */
  predicate NextOk(p: Pipe)
    requires MarksOk(p) && WrittenTo(p) <= |p.log|
  {
    if NextOpen(p) && !Doomed(p) then
      && p.files[p.cur + 1].bytes == p.extras[p.cur + 1] + Twice(p, p.cur + 1, WrittenTo(p))
      && p.nextSize == p.junk + |Twice(p, p.cur + 1, WrittenTo(p))| && |p.extras[p.cur + 1]| <= p.junk
    else
      p.nextSize == p.junk
  }

  predicate Inv(p: Pipe) {
    MarksOk(p) && FlusherOk(p) && FilesOk(p) && DualOk(p) && LsnsOk(p) && BoundsOk(p)
  }

  datatype LogEvent =
    | Write(rec: seq<Byte>, dual: bool, cuts: set<nat>)
    | OpenNext
    | Succeed
    | FailDual
    | CloseNext
    | Choose(n: nat, dual: bool)
    | SwitchFile
    | SwitchLsn
    | WriteFile
    | CountLsn
    | Finish
    | ReadLsn
    | ReadFds
    | SyncPrev
    | SyncCur
    | SyncNext
    | EndSync

  function Append(f: File, bytes: seq<Byte>): File { f.(bytes := f.bytes + bytes) }

  function Fsync(files: seq<File>, f: nat): seq<File>
    requires f < |files|
  {
    files[f := files[f].(synced := |files[f].bytes|)]
  }

  /** The queued bytes up to `n` carry one flag. */
  predicate Flagged(p: Pipe, n: nat, dual: bool)
    requires MarksOk(p) && p.flushed + n <= |p.log|
  {
    forall k: nat | p.flushed <= k < p.flushed + n :: Flag(p, k) == dual
  }

  predicate CanWrite(p: Pipe, rec: seq<Byte>, dual: bool, cuts: set<nat>) {
    rec != [] && (dual ==> p.scanning) && forall c | c in cuts :: |p.log| < c < |p.log| + |rec|
  }

  /** A record is logged; `cuts` is where flush requests end inside it. */
  function AfterWrite(p: Pipe, rec: seq<Byte>, dual: bool, cuts: set<nat>): Pipe {
    p.(log := p.log + Tag(rec, dual), bounds := p.bounds + cuts + {|p.log| + |rec|},
       dwSize := p.dwSize + (if dual then |rec| else 0),
       writeLsn := p.writeLsn.(roffset := p.writeLsn.roffset + |rec|))
  }

  predicate CanOpen(p: Pipe) { !NextOpen(p) && !p.prevOpen && !SwitchAhead(p) }

  function AfterOpen(p: Pipe): Pipe {
    p.(files := p.files + [File([], 0)], starts := p.starts + [|p.log|], extras := p.extras + [[]], scanning := true)
  }

  /** The snapshot is over, well or not. */
  predicate CanEnd(p: Pipe) { p.scanning && NextOpen(p) && !SwitchAhead(p) }

  function AfterSucceed(p: Pipe): Pipe {
    p.(marks := p.marks + [|p.log|], scanning := false, writeLsn := Lsn(p.writeLsn.filenum + 1, p.dwSize))
  }

  /** Size and flags are cleared; the size kept for the next file is not. */
  function AfterFail(p: Pipe): Pipe
    requires p.cur + 1 < |p.starts|
  {
    p.(scanning := false, dwSize := 0, starts := p.starts[p.cur + 1 := |p.log|], junk := p.nextSize)
  }

  predicate CanClose(p: Pipe) { Doomed(p) && p.syncer.Resting? }

  function AfterClose(p: Pipe): Pipe
    requires p.cur + 1 < |p.files| == |p.starts| == |p.extras|
  {
    p.(files := p.files[..p.cur + 1], starts := p.starts[..p.cur + 1], extras := p.extras[..p.cur + 1])
  }

  /** A chunk ends with a flush request, or with what is logged. */
  predicate CanChoose(p: Pipe, n: nat, dual: bool)
    requires MarksOk(p)
  {
    && p.flusher.Idle? && p.flushed + n <= |p.log| && p.flushed + n in p.bounds
    && Flagged(p, n, dual) && (n == 0 ==> !dual)
    && if SwitchAhead(p) && p.flushed == p.marks[p.cur + 1] then true
       else n > 0 && (SwitchAhead(p) ==> p.flushed + n <= p.marks[p.cur + 1])
  }

  function AfterChoose(p: Pipe, n: nat, dual: bool): Pipe
    requires MarksOk(p)
  {
    if SwitchAhead(p) && p.flushed == p.marks[p.cur + 1]
    then p.(flusher := Chosen(n, dual, p.dwSize), dwSize := 0)
    else p.(flusher := Ready(n, dual))
  }

  function AfterSwitchFile(p: Pipe): Pipe
    requires p.flusher.Chosen?
  {
    p.(cur := p.cur + 1, prevOpen := true, size := p.nextSize, nextSize := 0, junk := 0,
       flusher := Switched(p.flusher.n, p.flusher.dual, p.flusher.dwBytes))
  }

  function AfterSwitchLsn(p: Pipe): Pipe
    requires p.flusher.Switched?
  {
    p.(flushLsn := Lsn(p.flushLsn.filenum + 1, p.flusher.dwBytes),
       flusher := if p.flusher.n > 0 then Ready(p.flusher.n, p.flusher.dual) else Idle)
  }

  predicate CanWriteFile(p: Pipe) { p.flusher.Ready? && p.flushed + p.flusher.n <= |p.log| }

  /** The bytes that go to the files. */
  function Chunk(p: Pipe): seq<Byte>
    requires CanWriteFile(p)
  {
    Bytes(p.log[p.flushed..p.flushed + p.flusher.n])
  }

  /** The chunk goes to the current file ... */
  function AfterOne(p: Pipe): Pipe
    requires MarksOk(p) && CanWriteFile(p)
  {
    var n := p.flusher.n;
    p.(flusher := Written(n), size := p.size + n, files := p.files[p.cur := Append(p.files[p.cur], Chunk(p))])
  }

  /** ... and to the next one, where it may come too late. */
  function AfterTwo(p: Pipe): Pipe
    requires MarksOk(p) && CanWriteFile(p) && NextOpen(p)
  {
    var n, q, f := p.flusher.n, AfterOne(p), p.cur + 1;
    var r := q.(nextSize := p.nextSize + n, files := q.files[f := Append(q.files[f], Chunk(p))]);
    if !Void(p, n) then r else r.(junk := p.junk + n, extras := p.extras[f := p.extras[f] + Chunk(p)])
  }

  function AfterWriteFile(p: Pipe): Pipe
    requires MarksOk(p) && CanWriteFile(p)
  {
    if p.flusher.dual && NextOpen(p) then AfterTwo(p) else AfterOne(p)
  }

  function AfterCount(p: Pipe): Pipe
    requires p.flusher.Written?
  {
    p.(flusher := Counted(p.flusher.n), flushLsn := p.flushLsn.(roffset := p.flushLsn.roffset + p.flusher.n))
  }

  function AfterFinish(p: Pipe): Pipe
    requires p.flusher.Counted?
  {
    p.(flusher := Idle, flushed := p.flushed + p.flusher.n)
  }

  /** One step, as a change of state that its guard allows. */
  predicate Enabled(p: Pipe, e: LogEvent)
    requires MarksOk(p)
  {
    match e
    case Write(rec, dual, cuts) => CanWrite(p, rec, dual, cuts)
    case OpenNext => CanOpen(p)
    case Succeed => CanEnd(p)
    case FailDual => CanEnd(p)
    case CloseNext => CanClose(p)
    case Choose(n, dual) => CanChoose(p, n, dual)
    case SwitchFile => p.flusher.Chosen? && NextOpen(p)
    case SwitchLsn => p.flusher.Switched?
    case WriteFile => CanWriteFile(p)
    case CountLsn => p.flusher.Written?
    case Finish => p.flusher.Counted?
    case ReadLsn => p.syncer.Resting?
    case ReadFds => p.syncer.HasLsn?
    case SyncPrev => p.syncer.HasFds? && p.syncer.fd < |p.files| && (p.syncer.prev ==> 0 < p.syncer.fd)
    case SyncCur => p.syncer.PrevSynced? && p.syncer.fd < |p.files|
    case SyncNext => p.syncer.CurSynced? && (p.syncer.next ==> p.syncer.fd + 1 < |p.files|)
    case EndSync => p.syncer.AllSynced?
  }

  function Next(p: Pipe, e: LogEvent): Pipe
    requires MarksOk(p) && Enabled(p, e)
  {
    match e
    case Write(rec, dual, cuts) => AfterWrite(p, rec, dual, cuts)
    case OpenNext => AfterOpen(p)
    case Succeed => AfterSucceed(p)
    case FailDual => AfterFail(p)
    case CloseNext => AfterClose(p)
    case Choose(n, dual) => AfterChoose(p, n, dual)
    case SwitchFile => AfterSwitchFile(p)
    case SwitchLsn => AfterSwitchLsn(p)
    case WriteFile => AfterWriteFile(p)
    case CountLsn => AfterCount(p)
    case Finish => AfterFinish(p)
    case ReadLsn => p.(syncer := HasLsn(p.flushLsn, CountedTo(p)))
    case ReadFds =>
      p.(syncer := HasFds(p.syncer.now, p.syncer.pos, p.prevOpen, p.cur, NextOpen(p)), prevOpen := false)
    case SyncPrev =>
      var s := p.syncer;
      var q := if s.prev then p.(files := Fsync(p.files, s.fd - 1)) else p;
      q.(syncer := if LsnLess(p.fsyncLsn, s.now) then PrevSynced(s.now, s.pos, s.fd, s.next) else Resting)
    case SyncCur =>
      var s := p.syncer;
      p.(files := Fsync(p.files, s.fd), syncer := CurSynced(s.now, s.pos, s.fd, s.next))
    case SyncNext =>
      var s := p.syncer;
      var q := if s.next then p.(files := Fsync(p.files, s.fd + 1)) else p;
      q.(syncer := AllSynced(s.now, s.pos))
    case EndSync => p.(fsyncLsn := p.syncer.now, fsyncPos := p.syncer.pos, syncer := Resting)
  }

  /** Nothing already settled changes: the log and the marks only grow. */
  predicate Later(p: Pipe, q: Pipe) {
    && MarksOk(p) && MarksOk(q) && p.init == q.init && p.log <= q.log && p.marks <= q.marks
    && (forall f | 0 <= f < |p.marks| :: p.starts[f] == q.starts[f])
    && (forall f | 0 <= f <= p.cur :: p.extras[f] == q.extras[f])
  }

  lemma LaterShape(p: Pipe, q: Pipe)
    requires Later(p, q)
    ensures MarksOk(p) && MarksOk(q) && |p.log| <= |q.log| && |p.marks| <= |q.marks|
    ensures forall f | 0 <= f < |p.marks| :: p.marks[f] == q.marks[f]
  {}

  lemma SliceKept(p: Pipe, q: Pipe, i: nat, j: nat)
    requires p.log <= q.log && i <= j <= |p.log|
    ensures q.log[i..j] == p.log[i..j]
  {}

  lemma TwiceKept(p: Pipe, q: Pipe, f: nat, to: nat)
    requires Later(p, q) && 0 < f < |p.files| && f < |q.files| && p.starts[f] == q.starts[f] && to <= |p.log|
    ensures Twice(q, f, to) == Twice(p, f, to)
  {
    hide Dual;
    if p.starts[f] <= to { SliceKept(p, q, p.starts[f], to); }
  }

  lemma OffsetKept(p: Pipe, q: Pipe, f: nat)
    requires Later(p, q) && f < |p.marks|
    ensures BaseOffset(p, f) == BaseOffset(q, f) && p.marks[f] == q.marks[f]
  {
    hide Twice;
    if f > 0 { TwiceKept(p, q, f, p.marks[f]); }
  }

  lemma OffsetsKept(p: Pipe, q: Pipe)
    requires Later(p, q)
    ensures forall f: nat | f < |p.marks| :: BaseOffset(q, f) == BaseOffset(p, f)
  {
    hide Later, BaseOffset;
    LaterShape(p, q);
    forall f: nat | f < |p.marks|
      ensures BaseOffset(q, f) == BaseOffset(p, f)
    {
      OffsetKept(p, q, f);
    }
  }

  lemma BaseKept(p: Pipe, q: Pipe, f: nat)
    requires Later(p, q) && f <= p.cur
    ensures Base(p, f) == Base(q, f) && p.marks[f] == q.marks[f]
  {
    hide Twice;
    if f > 0 { TwiceKept(p, q, f, p.marks[f]); }
  }

  lemma FileKept(p: Pipe, q: Pipe, f: nat)
    requires Later(p, q) && f <= p.cur && f <= q.cur && FileOk(p, f)
    requires EndOf(p, f) == EndOf(q, f) && p.files[f].bytes == q.files[f].bytes
    ensures FileOk(q, f)
  {
    hide Base, EndOf, Bytes;
    BaseKept(p, q, f);
    assert p.log[p.marks[f]..EndOf(p, f)] == q.log[q.marks[f]..EndOf(q, f)];
  }

  lemma FilesBounds(p: Pipe)
    requires MarksOk(p) && FilesOk(p)
    ensures p.marks[p.cur] <= p.flushed <= WrittenTo(p) <= |p.log|
    ensures SwitchAhead(p) ==> WrittenTo(p) <= p.marks[p.cur + 1]
  {}

  /** Steps that only add log, or change nothing the files depend on, keep the files. */
  lemma FilesKept(p: Pipe, q: Pipe)
    requires Later(p, q) && FilesOk(p) && q.cur == p.cur && q.flushed == p.flushed && WrittenTo(q) == WrittenTo(p)
    requires forall f | 0 <= f <= p.cur :: q.files[f].bytes == p.files[f].bytes
    requires SwitchAhead(q) ==> WrittenTo(q) <= q.marks[q.cur + 1]
    requires NextOk(q)
    ensures FilesOk(q)
  {
    hide FileOk, NextOk, Later;
    LaterShape(p, q);
    forall f | 0 <= f <= q.cur
      ensures FileOk(q, f)
    {
      FileKept(p, q, f);
    }
  }

  /** The next file is what it was. */
  predicate SameNext(p: Pipe, q: Pipe) {
    && q.cur == p.cur && WrittenTo(q) == WrittenTo(p) && |q.files| == |p.files| && |q.starts| == |p.starts| && |q.extras| == |p.extras|
    && q.nextSize == p.nextSize && q.junk == p.junk
    && (p.cur + 1 < |p.files| ==> q.files[p.cur + 1].bytes == p.files[p.cur + 1].bytes)
    && (p.cur + 1 < |p.starts| ==> q.starts[p.cur + 1] == p.starts[p.cur + 1])
    && (p.cur + 1 < |p.extras| ==> q.extras[p.cur + 1] == p.extras[p.cur + 1])
  }

  lemma NextKept(p: Pipe, q: Pipe)
    requires Later(p, q) && WrittenTo(p) <= |p.log| && NextOk(p) && SameNext(p, q) && (Doomed(q) <==> Doomed(p))
    ensures NextOk(q)
  {
    hide Twice, Later;
    LaterShape(p, q);
    if NextOpen(p) { TwiceKept(p, q, p.cur + 1, WrittenTo(p)); }
  }

  /** Flags of bytes already logged change only with the file they are for. */
  lemma FlagKept(p: Pipe, q: Pipe, k: nat)
    requires Later(p, q) && k < |p.log| && q.cur == p.cur && |q.files| == |p.files|
    requires NextOpen(p) ==> q.starts[p.cur + 1] == p.starts[p.cur + 1]
    ensures Flag(q, k) == Flag(p, k)
  {}

  lemma ChunkKept(p: Pipe, q: Pipe, n: nat, dual: bool)
    requires Later(p, q) && ChunkOk(p, n, dual) && q.flushed == p.flushed && q.cur == p.cur && |q.files| == |p.files|
    requires NextOpen(p) ==> q.starts[p.cur + 1] == p.starts[p.cur + 1]
    requires SwitchAhead(q) ==> p.flushed + n <= q.marks[q.cur + 1]
    ensures ChunkOk(q, n, dual)
  {
    hide Uniform, Later, Flag;
    LaterShape(p, q);
    SliceKept(p, q, p.flushed, p.flushed + n) by { LaterLog(p, q); }
    forall k: nat | !dual && p.flushed <= k < p.flushed + n
      ensures !Flag(q, k)
    {
      FlagKept(p, q, k);
    }
  }

  lemma LaterLog(p: Pipe, q: Pipe)
    requires Later(p, q)
    ensures p.log <= q.log
  {}

  lemma FlusherKept(p: Pipe, q: Pipe)
    requires Later(p, q) && FlusherOk(p) && q.flusher == p.flusher && q.flushed == p.flushed && q.cur == p.cur
    requires |q.files| == |p.files| && (NextOpen(p) ==> q.starts[p.cur + 1] == p.starts[p.cur + 1])
    requires SwitchAhead(p) <==> SwitchAhead(q)
    ensures FlusherOk(q)
  {
    hide ChunkOk, BaseOffset, Later;
    LaterShape(p, q);
    if p.flusher.Switched? || p.flusher.Ready? {
      ChunkBounds(p, p.flusher.n, p.flusher.dual);
      ChunkKept(p, q, p.flusher.n, p.flusher.dual);
    }
    OffsetsKept(p, q);
  }

  lemma ChunkBounds(p: Pipe, n: nat, dual: bool)
    requires MarksOk(p) && ChunkOk(p, n, dual)
    ensures p.flushed + n <= |p.log| && (SwitchAhead(p) ==> p.flushed + n <= p.marks[p.cur + 1])
  {}

  /** The flush LSN means the same position in a later log. */
  lemma FlushLsnKept(p: Pipe, q: Pipe)
    requires Later(p, q) && LsnsOk(p)
    requires q.flusher == p.flusher && q.flushed == p.flushed && q.cur == p.cur && q.flushLsn == p.flushLsn
    requires q.writeLsn == LsnAt(q, |q.marks| - 1, |q.log|)
    ensures LsnsOk(q)
  {
    hide BaseOffset, Later;
    LaterShape(p, q);
    OffsetKept(p, q, LsnFile(p));
  }

  lemma LsnsSame(p: Pipe, q: Pipe)
    requires Later(p, q) && q.log == p.log && q.marks == p.marks && LsnsOk(p)
    requires q.writeLsn == p.writeLsn && q.flushLsn == p.flushLsn
    requires LsnFile(q) == LsnFile(p) && CountedTo(q) == CountedTo(p) && LsnFile(q) < |q.marks|
    ensures LsnsOk(q)
  {
    hide BaseOffset, Later;
    OffsetsKept(p, q);
  }

  lemma ChosenAhead(p: Pipe)
    requires MarksOk(p) && FlusherOk(p)
    ensures p.flusher.Chosen? ==> SwitchAhead(p)
  {}

  lemma WriteLater(p: Pipe, rec: seq<Byte>, dual: bool, cuts: set<nat>)
    requires MarksOk(p) && CanWrite(p, rec, dual, cuts)
    ensures Later(p, AfterWrite(p, rec, dual, cuts))
  {}

  lemma WriteKeeps(p: Pipe, rec: seq<Byte>, dual: bool, cuts: set<nat>)
    requires Inv(p) && CanWrite(p, rec, dual, cuts)
    ensures Inv(AfterWrite(p, rec, dual, cuts))
  {
    hide Bytes, Dual, FilesOk, FlusherOk, Later, Tag, Uniform, BaseOffset, NextOk, MarksOk;
    var q := AfterWrite(p, rec, dual, cuts);
    WriteLater(p, rec, dual, cuts);
    LaterShape(p, q);
    FilesBounds(p);
    ChosenAhead(p);
    assert NextOk(p) by { FilesNext(p); }
    NextKept(p, q) by { ShapeOf(p); }
    FilesKept(p, q);
    FlusherKept(p, q) by { ShapeOf(p); }
    WriteDual(p, rec, dual, cuts);
    OffsetKept(p, q, |p.marks| - 1) by { ShapeOf(p); }
    FlushLsnKept(p, q);
  }

  lemma ShapeOf(p: Pipe)
    requires MarksOk(p)
    ensures 0 < p.cur + 1 <= |p.marks| <= |p.files| <= p.cur + 2 && |p.starts| == |p.files| == |p.extras|
  {}

  lemma FilesNext(p: Pipe)
    requires MarksOk(p) && FilesOk(p)
    ensures WrittenTo(p) <= |p.log| && NextOk(p)
  {}

  lemma WriteDual(p: Pipe, rec: seq<Byte>, dual: bool, cuts: set<nat>)
    requires MarksOk(p) && DualOk(p) && CanWrite(p, rec, dual, cuts) && Later(p, AfterWrite(p, rec, dual, cuts))
    requires p.flusher.Chosen? ==> SwitchAhead(p)
    ensures DualOk(AfterWrite(p, rec, dual, cuts))
  {
    hide Bytes, Dual, Tag, Uniform, BaseOffset, Later;
    var q := AfterWrite(p, rec, dual, cuts);
    var t := Tag(rec, dual);
    LaterShape(p, q);
    TagUniform(rec, dual);
    DualUniform(t, dual);
    if SwitchAhead(p) {
      var m := p.marks[p.cur + 1];
      assert q.log[m..] == p.log[m..] + t;
      DualConcat(p.log[m..], t);
      OffsetKept(p, q, p.cur + 1);
    } else if NextOpen(p) {
      var m := p.starts[p.cur + 1];
      assert q.log[m..|q.log|] == p.log[m..|p.log|] + t;
      DualConcat(p.log[m..|p.log|], t);
    }
  }

  lemma TagUniform(rec: seq<Byte>, dual: bool)
    ensures Uniform(Tag(rec, dual), dual)
  {}

  lemma TwiceNone(p: Pipe, f: nat, to: nat)
    requires MarksOk(p) && 0 < f < |p.files| && to <= |p.log| && to <= p.starts[f]
    ensures Twice(p, f, to) == []
  {
    if to == p.starts[f] { assert p.log[to..to] == []; }
  }

  lemma OpenLater(p: Pipe)
    requires MarksOk(p) && CanOpen(p)
    ensures Later(p, AfterOpen(p))
  {}

  lemma OpenFlusher(p: Pipe)
    requires MarksOk(p) && FlusherOk(p) && CanOpen(p) && Later(p, AfterOpen(p))
    ensures FlusherOk(AfterOpen(p))
  {
    hide Later, BaseOffset, Uniform;
    LaterShape(p, AfterOpen(p));
    OffsetsKept(p, AfterOpen(p));
  }

  /** Opening the next file: nothing queued is meant for it yet. */
  lemma OpenNextKeeps(p: Pipe)
    requires Inv(p) && CanOpen(p)
    ensures Inv(AfterOpen(p))
  {
    hide Bytes, Dual, FilesOk, BaseOffset, Twice, Uniform, Later, MarksOk, FlusherOk;
    var q := AfterOpen(p);
    OpenLater(p);
    LaterShape(p, q);
    ShapeOf(p);
    FilesBounds(p);
    FilesNext(p);
    TwiceNone(q, q.cur + 1, WrittenTo(q));
    TwiceNone(q, q.cur + 1, |q.log|);
    FilesKept(p, q);
    OpenFlusher(p);
    ChosenAhead(p);
    OffsetKept(p, q, |p.marks| - 1);
    FlushLsnKept(p, q);
  }

  lemma SucceedKeeps(p: Pipe)
    requires Inv(p) && CanEnd(p)
    ensures Inv(AfterSucceed(p))
  {
    hide Bytes, Dual, FilesOk, Twice, Uniform, Flag, Later, MarksOk, FlusherOk;
    var q := AfterSucceed(p);
    SucceedLater(p);
    LaterShape(p, q);
    ShapeOf(p);
    FilesBounds(p);
    FilesNext(p);
    ChosenAhead(p);
    NextKept(p, q);
    FilesKept(p, q);
    SucceedFlusher(p);
    DualNone();
    assert q.log[|q.log|..] == [];
    TwiceKept(p, q, p.cur + 1, |p.log|);
    FlushLsnKept(p, q);
  }

  lemma SucceedLater(p: Pipe)
    requires MarksOk(p) && CanEnd(p)
    ensures Later(p, AfterSucceed(p))
  {}

  lemma SucceedFlusher(p: Pipe)
    requires Inv(p) && CanEnd(p) && Later(p, AfterSucceed(p))
    ensures FlusherOk(AfterSucceed(p))
  {
    hide ChunkOk, BaseOffset, Later, FilesOk, LsnsOk, DualOk, BoundsOk;
    var q := AfterSucceed(p);
    LaterShape(p, q);
    OffsetKept(p, q, p.cur);
    if p.flusher.Switched? || p.flusher.Ready? {
      ChunkBounds(p, p.flusher.n, p.flusher.dual);
      ChunkKept(p, q, p.flusher.n, p.flusher.dual);
    }
  }

  lemma FailLater(p: Pipe)
    requires MarksOk(p) && CanEnd(p)
    ensures Later(p, AfterFail(p))
  {}

  lemma FailFlusher(p: Pipe)
    requires MarksOk(p) && FlusherOk(p) && CanEnd(p) && Later(p, AfterFail(p))
    ensures FlusherOk(AfterFail(p))
  {
    hide Later, BaseOffset, Uniform;
    LaterShape(p, AfterFail(p));
    OffsetsKept(p, AfterFail(p));
  }

  /** A failed checkpoint: no byte logged so far is meant for a next file any more. */
  lemma FailDualKeeps(p: Pipe)
    requires Inv(p) && CanEnd(p)
    ensures Inv(AfterFail(p))
  {
    hide Bytes, Dual, FilesOk, Twice, BaseOffset, Later, MarksOk, FlusherOk;
    ShapeOf(p);
    var q := AfterFail(p);
    FailLater(p);
    LaterShape(p, q);
    FilesBounds(p);
    FilesNext(p);
    TwiceNone(q, q.cur + 1, |q.log|);
    FilesKept(p, q);
    FailFlusher(p);
    ChosenAhead(p);
    OffsetKept(p, q, |p.marks| - 1);
    FlushLsnKept(p, q);
  }

  lemma CloseNextKeeps(p: Pipe)
    requires Inv(p) && CanClose(p)
    ensures Inv(AfterClose(p))
  {
    hide Bytes, Dual, FilesOk, Twice, BaseOffset;
    var q := AfterClose(p);
    assert Later(p, q);
    FilesBounds(p);
    FilesNext(p);
    FilesKept(p, q);
    OffsetsKept(p, q);
    FlushLsnKept(p, q);
  }

  /** The log, the marks and the next file are the same. */
  predicate SameLog(p: Pipe, q: Pipe) {
    && q.init == p.init && q.log == p.log && q.marks == p.marks && q.cur == p.cur
    && |q.files| == |p.files| && q.starts == p.starts && |q.extras| == |p.extras|
    && (forall f | 0 <= f <= p.cur < |p.extras| :: q.extras[f] == p.extras[f])
  }

  lemma SameLater(p: Pipe, q: Pipe)
    requires MarksOk(p) && SameLog(p, q)
    ensures Later(p, q) && MarksOk(q)
  {}

  lemma DualSame(p: Pipe, q: Pipe)
    requires MarksOk(p) && SameLog(p, q) && DualOk(p) && q.scanning == p.scanning
    requires q.dwSize == p.dwSize && (q.flusher.Chosen? <==> p.flusher.Chosen?)
    ensures MarksOk(q) && DualOk(q)
  {
    hide Twice, Dual;
    SameLater(p, q);
    OffsetsKept(p, q);
    if NextOpen(p) { TwiceKept(p, q, p.cur + 1, |p.log|); }
  }

  lemma ChooseKeeps(p: Pipe, n: nat, dual: bool)
    requires Inv(p) && CanChoose(p, n, dual)
    ensures Inv(AfterChoose(p, n, dual))
  {
    hide Bytes, Dual, FilesOk, Uniform, BaseOffset, LsnsOk, Twice, FlusherOk, MarksOk, Flagged, DualOk, Later, NextOk;
    var q := AfterChoose(p, n, dual);
    SameLater(p, q);
    FilesBounds(p);
    FilesNext(p);
    NextKept(p, q);
    FilesKept(p, q);
    ShapeOf(p);
    LsnsSame(p, q);
    if q.flusher.Chosen? { ChosenDual(p, n, dual); } else { DualSame(p, q); }
    ChooseFlusher(p, n, dual);
  }

  lemma ChosenDual(p: Pipe, n: nat, dual: bool)
    requires Inv(p) && CanChoose(p, n, dual) && SwitchAhead(p) && p.flushed == p.marks[p.cur + 1]
    ensures MarksOk(AfterChoose(p, n, dual)) && DualOk(AfterChoose(p, n, dual))
  {
    hide Bytes, Dual, FilesOk, Uniform, BaseOffset, LsnsOk, Twice, FlusherOk, Flagged;
  }

  lemma {:induction false} DualEmpty(s: seq<Logged>, k: nat)
    requires Dual(s) == [] && k < |s|
    ensures !s[k].dual
    decreases |s|
  {
    if k < |s| - 1 { DualEmpty(s[..|s| - 1], k); }
  }

  lemma ChooseFlusher(p: Pipe, n: nat, dual: bool)
    requires Inv(p) && CanChoose(p, n, dual)
    ensures FlusherOk(AfterChoose(p, n, dual))
  {
    hide Bytes, Dual, FilesOk, LsnsOk, BaseOffset, Twice, Later;
    var q := AfterChoose(p, n, dual);
    SameLater(p, q);
    OffsetsKept(p, q);
    if SwitchAhead(p) && p.flushed == p.marks[p.cur + 1] {
      if n > 0 {
        assert Flag(p, p.flushed) == dual;
        DualEmpty(p.log[p.flushed..], 0);
      }
    } else {
      assert Flag(p, p.flushed) == dual;
      forall k: nat | p.flushed <= k < p.flushed + n
        ensures Flag(q, k) == dual && (dual ==> p.log[k].dual)
      {
        assert Flag(p, k) == dual;
      }
    }
  }

  /** At the switch the next file holds exactly the records written twice, so it can take over. */
  lemma SwitchFileKeeps(p: Pipe)
    requires Inv(p) && p.flusher.Chosen? && NextOpen(p)
    ensures Inv(AfterSwitchFile(p))
  {
    hide Bytes, Dual, Uniform, FileOk, Twice;
    var q := AfterSwitchFile(p);
    assert Later(p, q);
    OffsetsKept(p, q);
    TwiceKept(p, q, p.cur + 1, p.flushed);
    forall f | 0 <= f <= q.cur
      ensures FileOk(q, f)
    {
      if f <= p.cur { FileKept(p, q, f); } else { FreshFile(q); }
    }
  }

  lemma FreshFile(p: Pipe)
    requires MarksOk(p) && WrittenTo(p) == p.marks[p.cur] && p.files[p.cur].bytes == Base(p, p.cur)
    ensures FileOk(p, p.cur)
  {
    assert p.log[p.marks[p.cur]..WrittenTo(p)] == [];
  }

  lemma SwitchLsnKeeps(p: Pipe)
    requires Inv(p) && p.flusher.Switched?
    ensures Inv(AfterSwitchLsn(p))
  {
    hide Bytes, Dual, FilesOk, Uniform, Twice, BaseOffset, MarksOk, DualOk, Later, NextOk, ChunkOk;
    var q := AfterSwitchLsn(p);
    SameLater(p, q);
    LaterShape(p, q);
    FilesBounds(p);
    FilesNext(p);
    NextKept(p, q);
    FilesKept(p, q);
    OffsetsKept(p, q);
    DualSame(p, q);
    ShapeOf(p);
    if p.flusher.n > 0 {
      ChunkBounds(p, p.flusher.n, false);
      ChunkKept(p, q, p.flusher.n, false);
    }
  }

  /** What writing to the files changes. */
  lemma WriteFileShape(p: Pipe)
    requires MarksOk(p) && CanWriteFile(p)
    ensures var q := AfterWriteFile(p);
            && q == p.(flusher := Written(p.flusher.n), size := q.size, nextSize := q.nextSize, junk := q.junk, files := q.files, extras := q.extras)
            && SameLog(p, q) && (forall f | 0 <= f < p.cur :: q.files[f] == p.files[f])
            && q.files[p.cur].bytes == p.files[p.cur].bytes + Chunk(p)
  {
    hide Bytes;
  }

  /** The chunk goes behind what the current file holds, and behind what the next file holds if it was written twice. */
  lemma WriteFileKeeps(p: Pipe)
    requires Inv(p) && CanWriteFile(p)
    ensures Inv(AfterWriteFile(p))
  {
    hide Bytes, Dual, Uniform, FilesOk, BaseOffset, LsnsOk, Twice, AfterWriteFile, Chunk, MarksOk, DualOk, Later, ChunkOk;
    var q := AfterWriteFile(p);
    WriteFileShape(p);
    SameLater(p, q);
    ChunkBounds(p, p.flusher.n, p.flusher.dual);
    LsnsSame(p, q) by { ShapeOf(p); }
    DualSame(p, q);
    DoomedVoid(p) by { FilesBounds(p); }
    WriteFileFiles(p);
  }

  lemma WriteFileFiles(p: Pipe)
    requires MarksOk(p) && CanWriteFile(p) && FlusherOk(p) && FilesOk(p) && SameLog(p, AfterWriteFile(p))
    requires Doomed(p) && p.flusher.dual ==> Void(p, p.flusher.n)
    ensures MarksOk(AfterWriteFile(p)) && FilesOk(AfterWriteFile(p))
  {
    hide Bytes, Uniform, FileOk, ChunkOk, Twice, NextOk, Later, MarksOk, AfterWriteFile;
    var q := AfterWriteFile(p);
    WriteFileShape(p);
    SameLater(p, q);
    ChunkBounds(p, p.flusher.n, p.flusher.dual);
    LaterShape(p, q);
    FilesNext(p);
    ShapeOf(p);
    forall f | 0 <= f <= q.cur
      ensures FileOk(q, f)
    {
      if f < p.cur { FileKept(p, q, f); } else { GrownFile(p, q); }
    }
    WriteFileNext(p);
  }

  /** A failed checkpoint leaves no chunk that is still meant for its file. */
  lemma DoomedVoid(p: Pipe)
    requires MarksOk(p) && DualOk(p) && FlusherOk(p) && CanWriteFile(p)
    ensures Doomed(p) && p.flusher.dual ==> Void(p, p.flusher.n)
  {
    hide Dual;
    if Doomed(p) && p.flusher.dual && p.starts[p.cur + 1] <= p.flushed {
      assert p.log[p.flushed..p.flushed + p.flusher.n][0].dual;
      var m := p.starts[p.cur + 1];
      DualEmpty(p.log[m..|p.log|], p.flushed - m);
    }
  }

  lemma WriteFileNext(p: Pipe)
    requires MarksOk(p) && CanWriteFile(p) && WrittenTo(p) <= |p.log| && NextOk(p)
    requires p.flusher.n > 0 && ChunkOk(p, p.flusher.n, p.flusher.dual) && SameLog(p, AfterWriteFile(p))
    requires Doomed(p) && p.flusher.dual ==> Void(p, p.flusher.n)
    ensures MarksOk(AfterWriteFile(p)) && NextOk(AfterWriteFile(p))
  {
    hide Bytes, Dual, Uniform, Twice, Later, MarksOk;
    var q, n := AfterWriteFile(p), p.flusher.n;
    SameLater(p, q);
    ShapeOf(p);
    if NextOpen(p) {
      var f, i, j := p.cur + 1, p.flushed, p.flushed + n;
      TwiceKept(p, q, f, j);
      TwiceKept(p, q, f, i);
      if Void(p, n) {
        TwiceNone(p, f, i);
        TwiceNone(p, f, j);
      } else if p.flusher.dual {
        TwiceMore(p, f, i, j);
        var chunk := Bytes(p.log[i..j]);
        assert p.extras[f] + Twice(p, f, i) + chunk == p.extras[f] + (Twice(p, f, i) + chunk);
      } else {
        forall k: nat | i <= k < j && p.starts[f] <= k
          ensures !p.log[k].dual
        {
          assert !Flag(p, k);
        }
        TwiceNoMore(p, f, i, j);
      }
    }
  }

  /** A chunk of bytes meant for the next file. */
  lemma TwiceMore(p: Pipe, f: nat, i: nat, j: nat)
    requires MarksOk(p) && 0 < f < |p.files| && p.starts[f] <= i <= j <= |p.log| && Uniform(p.log[i..j], true)
    ensures Twice(p, f, j) == Twice(p, f, i) + Bytes(p.log[i..j])
  {
    hide Bytes, Dual;
    DualUniform(p.log[i..j], true);
    DualSplit(p.log, p.starts[f], i, j);
  }

  /** A chunk of bytes not meant for the next file. */
  lemma TwiceNoMore(p: Pipe, f: nat, i: nat, j: nat)
    requires MarksOk(p) && 0 < f < |p.files| && i <= j <= |p.log|
    requires forall k | i <= k < j :: p.starts[f] <= k ==> !p.log[k].dual
    ensures Twice(p, f, j) == Twice(p, f, i)
  {
    hide Bytes, Dual;
    var m := p.starts[f];
    if m <= i {
      DualUniform(p.log[i..j], false);
      DualSplit(p.log, m, i, j);
    } else if m <= j {
      DualUniform(p.log[m..j], false);
    }
  }

  lemma GrownFile(p: Pipe, q: Pipe)
    requires Later(p, q) && q.log == p.log && q.marks == p.marks && q.cur == p.cur && FileOk(p, p.cur)
    requires WrittenTo(p) <= WrittenTo(q) <= |p.log|
    requires q.files[p.cur].bytes == p.files[p.cur].bytes + Bytes(p.log[WrittenTo(p)..WrittenTo(q)])
    ensures FileOk(q, p.cur)
  {
    hide Dual, Base, Bytes, WrittenTo;
    BaseKept(p, q, p.cur);
    BytesSplit(p.log, p.marks[p.cur], WrittenTo(p), WrittenTo(q));
  }

  lemma CountLsnKeeps(p: Pipe)
    requires Inv(p) && p.flusher.Written?
    ensures Inv(AfterCount(p))
  {
    hide Bytes, Dual, FilesOk, Uniform, Twice, BaseOffset, MarksOk, DualOk, Later, NextOk;
    var q := AfterCount(p);
    SameLater(p, q);
    LaterShape(p, q);
    FilesBounds(p);
    FilesNext(p);
    NextKept(p, q);
    FilesKept(p, q);
    OffsetsKept(p, q);
    DualSame(p, q);
    ShapeOf(p);
  }

  lemma FinishKeeps(p: Pipe)
    requires Inv(p) && p.flusher.Counted?
    ensures Inv(AfterFinish(p))
  {
    hide Bytes, Dual, FileOk, Uniform, Twice, BaseOffset, Later, MarksOk, DualOk, NextOk;
    var q := AfterFinish(p);
    SameLater(p, q);
    LaterShape(p, q);
    ShapeOf(p);
    OffsetsKept(p, q);
    NextKept(p, q);
    DualSame(p, q);
    forall f | 0 <= f <= q.cur
      ensures FileOk(q, f)
    {
      FileKept(p, q, f);
    }
  }

  predicate OfSyncer(e: LogEvent) {
    e.ReadLsn? || e.ReadFds? || e.SyncPrev? || e.SyncCur? || e.SyncNext? || e.EndSync?
  }

  /** Syncing changes no content. */
  predicate SameContent(p: Pipe, q: Pipe) {
    && q.init == p.init && q.marks == p.marks && q.log == p.log && q.flusher == p.flusher && q.flushed == p.flushed
    && q.cur == p.cur && |q.files| == |p.files| && q.writeLsn == p.writeLsn && q.flushLsn == p.flushLsn
    && q.scanning == p.scanning && q.dwSize == p.dwSize && q.bounds == p.bounds
    && q.starts == p.starts && q.extras == p.extras && q.nextSize == p.nextSize && q.junk == p.junk
    && forall f | 0 <= f < |p.files| :: q.files[f].bytes == p.files[f].bytes
  }

  lemma SyncSame(p: Pipe, e: LogEvent)
    requires MarksOk(p) && Enabled(p, e) && OfSyncer(e)
    ensures SameContent(p, Next(p, e))
  {
    hide MarksOk, LsnLess;
  }

  lemma SyncKeeps(p: Pipe, e: LogEvent)
    requires Inv(p) && Enabled(p, e) && OfSyncer(e)
    ensures Inv(Next(p, e))
  {
    hide Bytes, Dual, FilesOk, Uniform, Twice, BaseOffset, FlusherOk, LsnsOk, Next, Enabled;
    var q := Next(p, e);
    SyncSame(p, e);
    assert Later(p, q);
    FilesBounds(p);
    FilesNext(p);
    NextKept(p, q);
    FilesKept(p, q);
    FlusherKept(p, q);
    OffsetsKept(p, q);
    if NextOpen(p) { TwiceKept(p, q, p.cur + 1, |p.log|); }
    LsnsSame(p, q);
  }

  lemma InvMarks(p: Pipe)
    requires Inv(p)
    ensures MarksOk(p)
  {}

  lemma StepKeeps(p: Pipe, e: LogEvent)
    requires Inv(p) && Enabled(p, e)
    ensures Inv(Next(p, e))
  {
    hide Inv, MarksOk, CanChoose, CanWrite, CanClose, CanEnd, CanOpen, CanWriteFile, AfterWrite, AfterOpen, AfterSucceed, AfterFail, AfterClose,
         AfterChoose, AfterSwitchFile, AfterSwitchLsn, AfterWriteFile, AfterCount, AfterFinish;
    InvMarks(p);
    ShapeOf(p);
    if OfSyncer(e) {
      SyncKeeps(p, e);
    } else {
      match e
      case Write(rec, dual, cuts) => WriteKeeps(p, rec, dual, cuts);
      case OpenNext => OpenNextKeeps(p);
      case Succeed => SucceedKeeps(p);
      case FailDual => FailDualKeeps(p);
      case CloseNext => CloseNextKeeps(p);
      case Choose(n, dual) => ChooseKeeps(p, n, dual);
      case SwitchFile => SwitchFileKeeps(p);
      case SwitchLsn => SwitchLsnKeeps(p);
      case WriteFile => WriteFileKeeps(p);
      case CountLsn => CountLsnKeeps(p);
      case Finish => FinishKeeps(p);
    }
  }
}
