/** What holds over every run of the command log (engines/default/cmdlogbuf.c, cmdlogfile.c, cmdlogmgr.c). */
module LogRuns {
  import opened Octets
  import opened LogFiles
  import opened LogSync

  /** All record images, in the order in which they were logged. */
  function Images(es: seq<LogEvent>): seq<Byte> {
    if es == [] then []
    else Images(es[..|es| - 1]) + if es[|es| - 1].Write? then es[|es| - 1].rec else []
  }

  /** What files 0 to `f` hold of their own parts of the log. */
  function OwnParts(p: Pipe, f: nat): seq<Byte>
    requires Inv(p) && f <= p.cur
  {
    assert FileOk(p, f);
    (if f == 0 then [] else OwnParts(p, f - 1)) + p.files[f].bytes[|Base(p, f)|..]
  }

  lemma OwnPart(p: Pipe, f: nat)
    requires Inv(p) && f <= p.cur
    ensures MarksOk(p) && p.marks[f] <= EndOf(p, f) <= |p.log| && |Base(p, f)| <= |p.files[f].bytes|
    ensures p.files[f].bytes[|Base(p, f)|..] == Bytes(p.log[p.marks[f]..EndOf(p, f)])
  {
    hide Base, DualOk, LsnsOk, FlusherOk, Bytes, NextOk, BoundsOk;
    assert FileOk(p, f);
  }

  lemma {:induction false} OwnPartsAre(p: Pipe, f: nat)
    requires Inv(p) && f <= p.cur
    ensures MarksOk(p) && EndOf(p, f) <= |p.log| && OwnParts(p, f) == Bytes(p.log[0..EndOf(p, f)])
  {
    hide Base, Bytes, Inv;
    OwnPart(p, f);
    BytesSplit(p.log, 0, p.marks[f], EndOf(p, f));
    if f > 0 {
      OwnPartsAre(p, f - 1);
      assert EndOf(p, f - 1) == p.marks[f];
    }
  }

  lemma StepLogs(p: Pipe, e: LogEvent)
    requires MarksOk(p) && Enabled(p, e)
    ensures Bytes(Next(p, e).log) == Bytes(p.log) + if e.Write? then e.rec else []
  {
    if e.Write? { assert Bytes(p.log + Tag(e.rec, e.dual)) == Bytes(p.log) + e.rec; } else { SameOrLogged(p, e); }
  }

  lemma SameOrLogged(p: Pipe, e: LogEvent)
    requires MarksOk(p) && Enabled(p, e) && !e.Write?
    ensures Next(p, e).log == p.log
  {
    hide Bytes, MarksOk, LsnLess, Chunk, Void;
  }

  lemma {:induction false} LogIsImages(ps: seq<Pipe>, es: seq<LogEvent>, i: nat)
    requires Run(ps, es) && i < |ps|
    ensures Bytes(ps[i].log) == Images(es[..i])
  {
    hide Next, Enabled, MarksOk;
    if i > 0 {
      LogIsImages(ps, es, i - 1);
      assert es[..i][..i - 1] == es[..i - 1];
      StepLogs(ps[i - 1], es[i - 1]);
    }
  }

  /** Nothing is lost, duplicated or reordered on the way through the buffer to the files. */
  lemma NothingLost(ps: seq<Pipe>, es: seq<LogEvent>, i: nat)
    requires Run(ps, es) && i < |ps|
    ensures Inv(ps[i]) && WrittenTo(ps[i]) <= |ps[i].log|
    ensures OwnParts(ps[i], ps[i].cur) + Bytes(ps[i].log[WrittenTo(ps[i])..]) == Images(es[..i])
  {
    hide Inv, Next, Enabled, Start;
    RunKeeps(ps, es, i);
    var p := ps[i];
    InvMarks(p);
    FlushCounts(p);
    OwnPartsAre(p, p.cur);
    var w := WrittenTo(p);
    BytesSplit(p.log, 0, w, |p.log|);
    assert p.log[w..|p.log|] == p.log[w..] && p.log[0..|p.log|] == p.log;
    LogIsImages(ps, es, i);
  }

  /**
   * At the switch the new file takes over with the records written twice and
   * with what came to it too late; the size kept for it is the one that the
   * buffer counted exactly if nothing went to a failed checkpoint's file.
   */
  lemma SwitchExact(ps: seq<Pipe>, es: seq<LogEvent>, i: nat)
    requires Run(ps, es) && i < |es| && es[i].SwitchFile?
    ensures var p, q := ps[i], ps[i + 1];
            && MarksOk(p) && p.flusher.Chosen? && SwitchAhead(p) && NextOpen(p) && q.cur == p.cur + 1
            && var twice := Twice(p, p.cur + 1, p.marks[p.cur + 1]);
            && q.files[q.cur].bytes == p.extras[p.cur + 1] + twice && p.flusher.dwBytes == |twice|
            && (q.size == p.flusher.dwBytes <==> !Spoiled(ps, es, i))
            && (!Spoiled(ps, es, i) ==> q.files[q.cur].bytes == twice)
  {
    hide Bytes, Twice, SyncInv, LsnsOk, Uniform, BoundsOk, FileOk, Spoiled, Start;
    RunKeeps(ps, es, i);
    JunkExact(ps, es, i);
  }

  predicate NoSwitch(es: seq<LogEvent>, k: nat, i: nat) {
    forall j | k <= j < i && j < |es| :: !es[j].SwitchFile?
  }

  /** Step `k` wrote a chunk to a next file, and no switch has come since. */
  predicate SentAt(ps: seq<Pipe>, es: seq<LogEvent>, k: nat, i: nat)
    requires |ps| == |es| + 1 && k < i <= |es|
  {
    es[k].WriteFile? && ps[k].flusher.Ready? && ps[k].flusher.dual && NextOpen(ps[k]) && NoSwitch(es, k, i)
  }

  predicate FailedSince(es: seq<LogEvent>, k: nat, i: nat) {
    exists j | k < j < i && j < |es| :: es[j].FailDual?
  }

  /** That chunk came too late, or the checkpoint it was for has failed. */
  predicate WastedAt(ps: seq<Pipe>, es: seq<LogEvent>, k: nat, i: nat)
    requires |ps| == |es| + 1 && k < i <= |es|
  {
    SentAt(ps, es, k, i) && MarksOk(ps[k]) && (Void(ps[k], ps[k].flusher.n) || FailedSince(es, k, i))
  }

  /** A chunk reached the next file of a failed checkpoint, or one that it was not meant for, since the last switch. */
  ghost predicate Spoiled(ps: seq<Pipe>, es: seq<LogEvent>, i: nat)
    requires |ps| == |es| + 1 && i <= |es|
  {
    exists k: nat | k < i :: WastedAt(ps, es, k, i)
  }

  ghost predicate Sent(ps: seq<Pipe>, es: seq<LogEvent>, i: nat)
    requires |ps| == |es| + 1 && i <= |es|
  {
    exists k: nat | k < i :: SentAt(ps, es, k, i)
  }

  /** What a step does to the sizes kept for the next file. */
  lemma SizeStep(p: Pipe, e: LogEvent)
    requires Inv(p) && Enabled(p, e)
    ensures MarksOk(p)
    ensures var q := Next(p, e);
            match e
            case SwitchFile => q.nextSize == 0 && q.junk == 0
            case FailDual => q.nextSize == p.nextSize == q.junk
            case WriteFile =>
              if p.flusher.dual && NextOpen(p) then
                q.nextSize > p.nextSize && if Void(p, p.flusher.n) then q.junk > p.junk else q.junk == p.junk
              else q.nextSize == p.nextSize && q.junk == p.junk
            case _ => q.nextSize == p.nextSize && q.junk == p.junk
  {
    hide Bytes, Tag, FilesOk, DualOk, LsnsOk, BoundsOk, ChunkOk, Void, Chunk;
  }

  lemma {:induction false} SentExact(ps: seq<Pipe>, es: seq<LogEvent>, i: nat)
    requires Run(ps, es) && i <= |es|
    ensures ps[i].nextSize > 0 <==> Sent(ps, es, i)
  {
    hide Inv, SyncInv, Next, Enabled, MarksOk, NextOpen;
    if i > 0 {
      var j := i - 1;
      SentExact(ps, es, j);
      RunKeeps(ps, es, j);
      SizeStep(ps[j], es[j]);
      if es[j].WriteFile? {
        ReadyNow(ps[j]);
        if ps[j].flusher.dual && NextOpen(ps[j]) { assert SentAt(ps, es, j, i); }
      }
      if !es[j].SwitchFile? {
        forall k: nat | k < j
          ensures SentAt(ps, es, k, i) <==> SentAt(ps, es, k, j)
        {}
      }
      if k: nat :| k < i && SentAt(ps, es, k, i) { assert es[j].SwitchFile? ==> k < j; }
    }
  }

  lemma ReadyNow(p: Pipe)
    requires MarksOk(p) && Enabled(p, WriteFile)
    ensures p.flusher.Ready?
  {}

  /** The size of the next file is ahead of the buffer's count exactly if some chunk was wasted. */
  lemma {:induction false} JunkExact(ps: seq<Pipe>, es: seq<LogEvent>, i: nat)
    requires Run(ps, es) && i <= |es|
    ensures ps[i].junk > 0 <==> Spoiled(ps, es, i)
  {
    hide Inv, SyncInv, Next, Enabled, NextOpen, Void, MarksOk;
    if i > 0 {
      var j := i - 1;
      JunkExact(ps, es, j);
      RunKeeps(ps, es, j);
      SizeStep(ps[j], es[j]);
      if es[j].FailDual? {
        SentExact(ps, es, j);
        FailSpoils(ps, es, j);
      } else if es[j].WriteFile? {
        ReadyNow(ps[j]);
        LastWasted(ps, es, j);
        SameWaste(ps, es, j);
      } else if es[j].SwitchFile? {
        SwitchClears(ps, es, j);
      } else {
        LastWasted(ps, es, j);
        SameWaste(ps, es, j);
      }
    }
  }

  lemma SwitchClears(ps: seq<Pipe>, es: seq<LogEvent>, j: nat)
    requires |ps| == |es| + 1 && j < |es| && es[j].SwitchFile?
    ensures !Spoiled(ps, es, j + 1)
  {
    hide Void, MarksOk, NextOpen;
  }

  /** Once its checkpoint fails, every chunk sent was wasted. */
  lemma FailSpoils(ps: seq<Pipe>, es: seq<LogEvent>, j: nat)
    requires Run(ps, es) && j < |es| && es[j].FailDual?
    ensures Spoiled(ps, es, j + 1) <==> Sent(ps, es, j)
  {
    hide Void, Next, Enabled, NextOpen, Start, MarksOk;
    var i := j + 1;
    if k: nat :| k < j && SentAt(ps, es, k, j) {
      assert FailedSince(es, k, i) by { assert es[j].FailDual?; }
      assert WastedAt(ps, es, k, i);
    }
    if k: nat :| k < i && WastedAt(ps, es, k, i) {
      assert SentAt(ps, es, k, j);
    }
  }

  lemma LastWasted(ps: seq<Pipe>, es: seq<LogEvent>, j: nat)
    requires Run(ps, es) && j < |es|
    ensures WastedAt(ps, es, j, j + 1) <==>
            es[j].WriteFile? && ps[j].flusher.Ready? && ps[j].flusher.dual && NextOpen(ps[j]) && Void(ps[j], ps[j].flusher.n)
  {
    hide Void, Next, Enabled, NextOpen, Start, MarksOk;
  }

  lemma SameWaste(ps: seq<Pipe>, es: seq<LogEvent>, j: nat)
    requires Run(ps, es) && j < |es| && !es[j].SwitchFile? && !es[j].FailDual?
    ensures Spoiled(ps, es, j + 1) <==> Spoiled(ps, es, j) || WastedAt(ps, es, j, j + 1)
  {
    hide Void, Next, Enabled, NextOpen, Start, MarksOk;
    var i := j + 1;
    forall k: nat | k < j
      ensures WastedAt(ps, es, k, i) <==> WastedAt(ps, es, k, j)
    {
      assert FailedSince(es, k, i) <==> FailedSince(es, k, j);
    }
    if k: nat :| k < i && WastedAt(ps, es, k, i) {
      if k < j { assert WastedAt(ps, es, k, j); }
    }
    if k: nat :| k < j && WastedAt(ps, es, k, j) {
      assert WastedAt(ps, es, k, i);
    }
  }

  /** File `f` was not closed by a failed checkpoint between steps `k` and `i`. */
  predicate StillOpen(ps: seq<Pipe>, es: seq<LogEvent>, k: nat, i: nat, f: nat)
    requires |ps| == |es| + 1
  {
    forall j | k <= j < i && j < |es| :: !(es[j].CloseNext? && ps[j].cur + 1 == f)
  }

  /** Step `k` wrote a chunk to file `f` that was chosen for an earlier file, and the file was not closed since. */
  predicate LateAt(ps: seq<Pipe>, es: seq<LogEvent>, k: nat, i: nat, f: nat)
    requires |ps| == |es| + 1 && k < i <= |es|
  {
    && es[k].WriteFile? && ps[k].flusher.Ready? && ps[k].flusher.dual && NextOpen(ps[k]) && ps[k].cur + 1 == f
    && MarksOk(ps[k]) && Void(ps[k], ps[k].flusher.n) && StillOpen(ps, es, k, i, f)
  }

  /** A chunk came too late for file `f`: it was chosen for the file of a checkpoint that had failed. */
  ghost predicate Late(ps: seq<Pipe>, es: seq<LogEvent>, i: nat, f: nat)
    requires |ps| == |es| + 1 && i <= |es|
  {
    exists k: nat | k < i :: LateAt(ps, es, k, i, f)
  }

  /** The chunk under way comes too late for file `f`. */
  predicate ComesLate(p: Pipe, e: LogEvent, f: nat)
    requires MarksOk(p)
  {
    e.WriteFile? && p.flusher.Ready? && p.flusher.dual && NextOpen(p) && p.cur + 1 == f && Void(p, p.flusher.n)
  }

  /** What a step does to what a file was given too late. */
  lemma ExtraStep(p: Pipe, e: LogEvent, f: nat)
    requires Inv(p) && Enabled(p, e)
    ensures MarksOk(p) && |p.extras| == |p.files|
    ensures var q := Next(p, e);
            && |q.extras| == |q.files|
            && (e.CloseNext? ==> |q.files| == p.cur + 1 == |p.files| - 1)
            && (e.OpenNext? ==> |q.files| == |p.files| + 1 && q.extras[|p.files|] == [])
            && (!e.CloseNext? && !e.OpenNext? ==> |q.files| == |p.files|)
            && (f < |p.files| && f < |q.files| ==> if ComesLate(p, e, f) then q.extras[f] != [] else q.extras[f] == p.extras[f])
  {
    hide Bytes, Tag, FilesOk, DualOk, LsnsOk, BoundsOk, Void, Flagged, LsnLess;
    if e.WriteFile? { ChunkSize(p); }
  }

  lemma ChunkSize(p: Pipe)
    requires Inv(p) && CanWriteFile(p)
    ensures |Chunk(p)| == p.flusher.n > 0
  {
    hide FilesOk, DualOk, LsnsOk, BoundsOk;
  }

  /** One more step: what was late before still is, unless the file is closed. */
  lemma LateStep(ps: seq<Pipe>, es: seq<LogEvent>, j: nat, f: nat)
    requires |ps| == |es| + 1 && j < |es| && MarksOk(ps[j])
    ensures var closes := es[j].CloseNext? && ps[j].cur + 1 == f;
            Late(ps, es, j + 1, f) <==> !closes && (Late(ps, es, j, f) || ComesLate(ps[j], es[j], f))
  {
    hide Void, NextOpen, MarksOk;
    var i := j + 1;
    forall k: nat | k < j
      ensures LateAt(ps, es, k, i, f) <==> LateAt(ps, es, k, j, f) && !(es[j].CloseNext? && ps[j].cur + 1 == f)
    {}
    assert LateAt(ps, es, j, i, f) <==> ComesLate(ps[j], es[j], f);
    if k: nat :| k < i && LateAt(ps, es, k, i, f) {
      if k < j { assert LateAt(ps, es, k, j, f); }
    }
    if k: nat :| k < j && LateAt(ps, es, k, j, f) {
      assert !(es[j].CloseNext? && ps[j].cur + 1 == f) ==> LateAt(ps, es, k, i, f);
    }
  }

  /** A file begins with something that is not its own exactly if a chunk came too late for it. */
  lemma {:induction false} ExtraExact(ps: seq<Pipe>, es: seq<LogEvent>, i: nat, f: nat)
    requires Run(ps, es) && i <= |es|
    ensures |ps[i].extras| == |ps[i].files|
    ensures if f < |ps[i].files| then ps[i].extras[f] != [] <==> Late(ps, es, i, f) else !Late(ps, es, i, f)
  {
    hide Inv, SyncInv, Next, Enabled, MarksOk, ComesLate, Late;
    if i == 0 {
      NoneLate(ps, es, f);
    } else {
      var j := i - 1;
      ExtraExact(ps, es, j, f);
      RunKeeps(ps, es, j);
      ExtraStep(ps[j], es[j], f);
      LateStep(ps, es, j, f);
      if ComesLate(ps[j], es[j], f) { LateOpen(ps[j], es[j], f); }
    }
  }

  lemma NoneLate(ps: seq<Pipe>, es: seq<LogEvent>, f: nat)
    requires |ps| == |es| + 1
    ensures !Late(ps, es, 0, f)
  {}

  lemma LateOpen(p: Pipe, e: LogEvent, f: nat)
    requires MarksOk(p) && ComesLate(p, e, f)
    ensures f < |p.files| && e.WriteFile?
  {}

  /** How many bytes file `f` still takes before the next one takes over, counted from the flush LSN. */
  function ToGo(p: Pipe, f: nat, l: Lsn): int
    requires MarksOk(p) && f + 1 < |p.marks|
  {
    LsnAt(p, f, p.marks[f + 1]).roffset - l.roffset
  }

  /** Write LSN minus flush LSN is the number of buffered bytes, also while the two count in different files. */
  lemma PendingBytes(p: Pipe)
    requires Inv(p)
    ensures MarksOk(p) && 0 < p.flushLsn.filenum <= p.writeLsn.filenum <= |p.marks|
    ensures var w, l, pending := p.writeLsn, p.flushLsn, |p.log| - CountedTo(p);
            match w.filenum - l.filenum
            case 0 => w.roffset - l.roffset == pending
            case 1 => ToGo(p, l.filenum - 1, l) + (w.roffset - BaseOffset(p, w.filenum - 1)) == pending
            case 2 =>
              && p.flusher.Switched? && ToGo(p, l.filenum - 1, l) == 0
              && (p.marks[l.filenum + 1] - p.marks[l.filenum]) + (w.roffset - BaseOffset(p, w.filenum - 1)) == pending
            case _ => false
  {
    hide BaseOffset, Bytes, FilesOk, Uniform, BoundsOk;
  }

  predicate LsnLe(a: Lsn, b: Lsn) { !LsnLess(b, a) }

  /** No LSN ever goes back. */
  lemma LsnsMonotone(p: Pipe, e: LogEvent)
    requires Inv(p) && SyncInv(p) && Enabled(p, e)
    ensures var q := Next(p, e); LsnLe(p.writeLsn, q.writeLsn) && LsnLe(p.flushLsn, q.flushLsn) && LsnLe(p.fsyncLsn, q.fsyncLsn)
  {
    hide Bytes, FilesOk, LsnsOk, DualOk, FlusherOk, Uniform, SyncedBut, Counts, BoundsOk, Flagged, Chunk, Tag, Void, Closed, Unflagged, Twice;
  }

  /** The file that log position `i` belongs to. */
  function FileOf(p: Pipe, i: nat, f: nat): (r: nat)
    requires MarksOk(p) && f < |p.marks|
    ensures r <= f && p.marks[r] <= i && (r < f ==> i < p.marks[r + 1])
  {
    if p.marks[f] <= i then f else FileOf(p, i, f - 1)
  }

  lemma DualAt(s: seq<Logged>, m: nat, i: nat, j: nat)
    requires m <= i < j <= |s| && s[i].dual
    ensures |Dual(s[m..i])| < |Dual(s[m..j])| && Dual(s[m..j])[|Dual(s[m..i])|] == s[i].byte
  {
    DualSplit(s, m, i, j);
    DualSplit(s, i, i + 1, j);
    assert s[i..i + 1] == [s[i]];
    assert Dual([s[i]]) == [s[i].byte];
  }

  /** A position behind byte `i` needs the file of that byte up to it. */
  lemma NeedPast(p: Pipe, f: nat, pos: nat, i: nat)
    requires MarksOk(p) && f <= p.cur && p.marks[f] <= i < pos <= |p.log| && (f < p.cur ==> i < p.marks[f + 1])
    requires SwitchAhead(p) ==> pos <= p.marks[p.cur + 1]
    ensures |Base(p, f)| + i - p.marks[f] < Need(p, f, pos)
  {
    hide Twice;
  }

  lemma FileByte(p: Pipe, f: nat, i: nat)
    requires MarksOk(p) && f <= p.cur && FileOk(p, f) && p.marks[f] <= i < EndOf(p, f)
    ensures i < |p.log| && var k := |Base(p, f)| + i - p.marks[f]; k < |p.files[f].bytes| && p.files[f].bytes[k] == p.log[i].byte
  {
    hide Base, Bytes;
    ByteAt(p.log[p.marks[f]..EndOf(p, f)], i - p.marks[f]);
  }

  lemma ByteAt(s: seq<Logged>, i: nat)
    requires i < |s|
    ensures |Bytes(s)| == |s| && Bytes(s)[i] == s[i].byte
  {}

  /** What durable means: the byte logged at `i` is on disk in the file that its LSN names ... */
  lemma DurableByte(p: Pipe, pos: nat, i: nat)
    requires Inv(p) && i < pos <= WrittenTo(p) && pos <= |p.log| && Durable(p, pos)
    ensures MarksOk(p)
    ensures var f := FileOf(p, i, p.cur); var k := |Base(p, f)| + i - p.marks[f];
            k < p.files[f].synced && k < |p.files[f].bytes| && p.files[f].bytes[k] == p.log[i].byte
  {
    hide Need, Base, FileOk, DualOk, LsnsOk, FlusherOk, BoundsOk, NextOk;
    FilesBounds(p);
    var f := FileOf(p, i, p.cur);
    assert FileOk(p, f);
    FileByte(p, f, i);
    NeedPast(p, f, pos, i);
    assert Need(p, f, pos) <= p.files[f].synced;
  }

  /** ... and, when its record was written twice for the next file, also there. */
  lemma DurableTwice(p: Pipe, pos: nat, i: nat, f: nat)
    requires Inv(p) && i < pos <= WrittenTo(p) && pos <= |p.log| && Durable(p, pos) && p.log[i].dual
    requires 0 < f < |p.files| && p.starts[f] <= i && (f < |p.marks| ==> i < p.marks[f])
    ensures MarksOk(p)
    ensures var k := |p.extras[f]| + |Twice(p, f, i)|;
            k < p.files[f].synced && k < |p.files[f].bytes| && p.files[f].bytes[k] == p.log[i].byte
  {
    hide FilesOk, DualOk, LsnsOk, FlusherOk, BoundsOk, Twice;
    assert Need(p, f, pos) <= p.files[f].synced;
    var to := if f < |p.marks| then Min(pos, p.marks[f]) else pos;
    TwiceAt(p, f, i, to);
    NextFileHas(p, f, i) by { FilesBounds(p); }
  }

  lemma TwiceAt(p: Pipe, f: nat, i: nat, to: nat)
    requires MarksOk(p) && 0 < f < |p.files| && p.starts[f] <= i < to <= |p.log| && p.log[i].dual
    ensures |Twice(p, f, i)| < |Twice(p, f, to)| && Twice(p, f, to)[|Twice(p, f, i)|] == p.log[i].byte
  {
    hide Dual;
    DualAt(p.log, p.starts[f], i, to);
  }

  lemma NextFileHas(p: Pipe, f: nat, i: nat)
    requires Inv(p) && 0 < f < |p.files| && p.starts[f] <= i < WrittenTo(p) <= |p.log| && p.log[i].dual
    requires f < |p.marks| ==> i < p.marks[f]
    ensures var k := |p.extras[f]| + |Twice(p, f, i)|; k < |p.files[f].bytes| && p.files[f].bytes[k] == p.log[i].byte
  {
    hide Twice, DualOk, LsnsOk, FlusherOk, BoundsOk, Bytes;
    if f <= p.cur {
      assert FileOk(p, f);
      TwiceAt(p, f, i, p.marks[f]);
    } else {
      DoomedNone(p);
      TwiceAt(p, f, i, |p.log|);
      TwiceAt(p, f, i, WrittenTo(p));
    }
  }

  /** A record of length `len` that was logged at `pos` with this LSN. */
  predicate LoggedAt(p: Pipe, lsn: Lsn, pos: nat, len: nat)
    requires MarksOk(p)
  {
    && len > 0 && pos + len <= |p.log| && Counts(p, lsn, pos)
    && (lsn.filenum < |p.marks| ==> pos + len <= p.marks[lsn.filenum])
  }

  lemma StepAppends(p: Pipe, e: LogEvent)
    requires Inv(p) && SyncInv(p) && Enabled(p, e)
    ensures MarksAppended(p, Next(p, e))
  {
    hide Inv, Next, Enabled, SyncedBut, Counts;
    InvMarks(p);
    if OfSyncer(e) { SyncSame(p, e); SyncKeeps(p, e); InvMarks(Next(p, e)); } else { OtherApart(p, e); }
  }

  lemma {:induction false} LoggedAtKept(ps: seq<Pipe>, es: seq<LogEvent>, i: nat, j: nat)
    requires Run(ps, es) && i < |es| && es[i].Write? && i < j < |ps|
    ensures MarksOk(ps[j]) && ps[i].log <= ps[j].log && LoggedAt(ps[j], ps[i].writeLsn, |ps[i].log|, |es[i].rec|)
    decreases j
  {
    hide Inv, SyncInv, Next, Enabled, Start, Counts;
    RunKeeps(ps, es, j);
    InvMarks(ps[j]);
    RunKeeps(ps, es, j - 1);
    StepAppends(ps[j - 1], es[j - 1]);
    if j == i + 1 {
      WriteStep(ps[i], es[i]);
      CountsKept(ps[i], ps[j], ps[i].writeLsn, |ps[i].log|);
    } else {
      LoggedAtKept(ps, es, i, j - 1);
      CountsKept(ps[j - 1], ps[j], ps[i].writeLsn, |ps[i].log|);
    }
  }

  lemma WriteStep(p: Pipe, e: LogEvent)
    requires Inv(p) && MarksOk(p) && Enabled(p, e) && e.Write?
    ensures var q := Next(p, e);
            && Counts(p, p.writeLsn, |p.log|) && q.marks == p.marks && |q.log| == |p.log| + |e.rec| && e.rec != []
            && p.writeLsn.filenum == |p.marks|
  {
    hide Inv, MarksOk, Counts, CanWrite, AfterWrite;
    WrittenLogged(p, e.rec, e.dual, e.cuts);
  }

  lemma WrittenLogged(p: Pipe, rec: seq<Byte>, dual: bool, cuts: set<nat>)
    requires Inv(p) && CanWrite(p, rec, dual, cuts)
    ensures MarksOk(p)
    ensures var q := AfterWrite(p, rec, dual, cuts);
            && Counts(p, p.writeLsn, |p.log|) && q.marks == p.marks && |q.log| == |p.log| + |rec| && rec != []
            && p.writeLsn.filenum == |p.marks|
  {
    hide BaseOffset, Bytes, FilesOk, FlusherOk, DualOk;
  }

  /** New bounds lie behind everything logged. */
  lemma BoundsStep(p: Pipe, e: LogEvent, b: nat)
    requires Inv(p) && Enabled(p, e) && b in Next(p, e).bounds
    ensures b in p.bounds ==> b <= |p.log|
    ensures b in p.bounds || (e.Write? && |p.log| < b && (b in e.cuts || b == |p.log| + |e.rec|))
  {
    hide FilesOk, DualOk, LsnsOk, FlusherOk, Bytes, Void, Chunk, LsnLess, Tag;
  }

  /** Inside a logged record, flush requests end only at its cuts. */
  lemma {:induction false} BoundsInside(ps: seq<Pipe>, es: seq<LogEvent>, i: nat, j: nat, b: nat)
    requires Run(ps, es) && i < |es| && es[i].Write? && i < j < |ps|
    requires b in ps[j].bounds && |ps[i].log| < b
    ensures b in es[i].cuts || |ps[i].log| + |es[i].rec| <= b
    decreases j
  {
    hide Inv, SyncInv, Start, MarksOk, Next, Enabled, LoggedAt;
    var h := j - 1;
    RunKeeps(ps, es, h);
    BoundsStep(ps[h], es[h], b);
    if i < h {
      if b in ps[h].bounds {
        BoundsInside(ps, es, i, h, b);
      } else {
        LoggedAtKept(ps, es, i, h);
        LoggedInside(ps[h], ps[i].writeLsn, |ps[i].log|, |es[i].rec|);
      }
    }
  }

  lemma LoggedInside(p: Pipe, lsn: Lsn, pos: nat, len: nat)
    requires MarksOk(p) && LoggedAt(p, lsn, pos, len)
    ensures pos + len <= |p.log|
  {}

  /**
   * Group commit: when the LSN of a writer's record is below the fsync LSN,
   * everything logged before that record is on disk and, of the record itself,
   * all up to the end of the first flush request that it has a part in.
   */
  lemma NotifiedDurable(ps: seq<Pipe>, es: seq<LogEvent>, i: nat, j: nat)
    requires Run(ps, es) && i < |es| && es[i].Write? && i < j < |ps|
    requires LsnLess(ps[i].writeLsn, ps[j].fsyncLsn)
    ensures var p, end := ps[j], |ps[i].log| + |es[i].rec|;
            && Inv(p) && |ps[i].log| < p.fsyncPos <= CountedTo(p) <= WrittenTo(p) <= |p.log|
            && ps[i].log <= p.log && Durable(p, p.fsyncPos)
            && (p.fsyncPos in es[i].cuts || end <= p.fsyncPos)
  {
    hide BaseOffset, Inv, Next, Enabled, Start, SyncedBut, Closed;
    RunKeeps(ps, es, j);
    InvMarks(ps[j]);
    FlushCounts(ps[j]);
    LoggedAtKept(ps, es, i, j);
    BoundsInside(ps, es, i, j, ps[j].fsyncPos);
  }

  /** A record that no flush request cuts is wholly on disk when its writer is told so. */
  lemma WholeDurable(ps: seq<Pipe>, es: seq<LogEvent>, i: nat, j: nat)
    requires Run(ps, es) && i < |es| && es[i].Write? && es[i].cuts == {} && i < j < |ps|
    requires LsnLess(ps[i].writeLsn, ps[j].fsyncLsn)
    ensures var p, end := ps[j], |ps[i].log| + |es[i].rec|;
            MarksOk(p) && end <= p.fsyncPos <= |p.log| && p.log[|ps[i].log|..end] == Tag(es[i].rec, es[i].dual) && Durable(p, p.fsyncPos)
  {
    hide Inv, SyncInv, Start, SyncedBut, Closed, MarksOk, LsnLess, Tag;
    NotifiedDurable(ps, es, i, j);
    InvMarks(ps[j]);
    RecordStays(ps, es, i, j);
  }

  lemma {:induction false} RecordStays(ps: seq<Pipe>, es: seq<LogEvent>, i: nat, j: nat)
    requires Run(ps, es) && i < |es| && es[i].Write? && i < j < |ps|
    ensures var a := |ps[i].log|; a + |es[i].rec| <= |ps[j].log| && ps[j].log[a..a + |es[i].rec|] == Tag(es[i].rec, es[i].dual)
    decreases j
  {
    hide Inv, SyncInv, Next, Enabled, Start, Counts, MarksAppended, Tag;
    RunKeeps(ps, es, j - 1);
    if j == i + 1 {
      StepTags(ps[i], es[i]);
    } else {
      RecordStays(ps, es, i, j - 1);
      StepAppends(ps[j - 1], es[j - 1]);
      assert ps[j - 1].log <= ps[j].log by { AppendedLog(ps[j - 1], ps[j]); }
    }
  }

  lemma AppendedLog(p: Pipe, q: Pipe)
    requires MarksAppended(p, q)
    ensures p.log <= q.log
  {}

  lemma StepTags(p: Pipe, e: LogEvent)
    requires MarksOk(p) && Enabled(p, e) && e.Write?
    ensures Next(p, e).log == p.log + Tag(e.rec, e.dual)
  {}
}
