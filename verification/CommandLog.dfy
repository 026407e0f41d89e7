/**
 * The command log put together: the real buffer, descriptors and LSNs, each
 * critical section one step of the protocol (engines/default/cmdlogbuf.c,
 * cmdlogfile.c, cmdlogmgr.c).
 */
module CommandLog {
  import opened Octets
  import opened LogRing
  import opened LogBuffer
  import opened LogFiles
  import opened LogSync

  /** What is still meant for the next file, of all that is queued. */
  function QueuedFlags(p: Pipe): (r: seq<bool>)
    requires MarksOk(p) && p.flushed <= |p.log|
    ensures |r| == |p.log| - p.flushed
  {
    seq(|p.log| - p.flushed, i requires 0 <= i < |p.log| - p.flushed => Flag(p, p.flushed + i))
  }

  /** The buffer holds exactly what was logged and not yet flushed. */
  predicate Holds(v: State, p: Pipe) {
    && MarksOk(p) && p.flushed <= |p.log|
    && v.queued == Bytes(p.log[p.flushed..]) && v.flags == QueuedFlags(p) && v.dwSize == p.dwSize
    && v.mark == (if SwitchAhead(p) && !p.flusher.Chosen? then p.marks[p.cur + 1] - p.flushed else -1)
    && v.first == (if p.flusher.Idle? then 0 else p.flusher.n)
  }

  /** Every complete request ends at a bound of the protocol. */
  predicate EndsIn(s: seq<Freq>, p: Pipe) {
    forall k | 0 < k < |s| :: p.flushed + |Flags(s[..k])| in p.bounds
  }

  predicate Steps(p: Pipe, e: LogEvent, q: Pipe) {
    MarksOk(p) && Enabled(p, e) && q == Next(p, e)
  }

  /** log_FILE: the open log files, as numbers of files, and the sizes kept for them. */
  datatype LogFile = LogFile(fd: nat, prevFd: int, nextFd: int, size: nat, nextSize: nat)

  /** The local variables of cmdlog_file_sync. */
  datatype Locals = Locals(now: Lsn, prev: bool, fd: nat, next: bool)

  /** The LSNs, the log files and the flusher's local variables. */
  datatype Regs = Regs(writeLsn: Lsn, flushLsn: Lsn, fsyncLsn: Lsn, files: seq<File>, log: LogFile, flusher: Flusher)

  function LogFileOf(p: Pipe): LogFile {
    LogFile(p.cur, if p.prevOpen then p.cur - 1 else -1, if NextOpen(p) then p.cur + 1 else -1, p.size, p.nextSize)
  }

  function RegsOf(p: Pipe): Regs {
    Regs(p.writeLsn, p.flushLsn, p.fsyncLsn, p.files, LogFileOf(p), p.flusher)
  }

  /** What other steps than the syncer's and the end of a flush leave alone. */
  predicate Beside(p: Pipe, q: Pipe) {
    q.syncer == p.syncer && q.flushed == p.flushed && p.bounds <= q.bounds
  }

  lemma RegsAre(p: Pipe)
    ensures var r := RegsOf(p);
            && r.writeLsn == p.writeLsn && r.flushLsn == p.flushLsn && r.fsyncLsn == p.fsyncLsn && r.files == p.files && r.flusher == p.flusher
            && r.log.fd == p.cur && (r.log.nextFd != -1 <==> NextOpen(p)) && r.log.nextSize == p.nextSize
  {}

  class Log {
    const buf: Buffer
    var writeLsn: Lsn
    var flushLsn: Lsn
    var fsyncLsn: Lsn
    var files: seq<File>
    var logFile: LogFile
    /** The local variables of do_log_buff_flush between critical sections. */
    var flusher: Flusher
    /** Where cmdlog_file_sync is, and its local variables. */
    ghost var syncer: Syncer
    var sync: Locals
    ghost var pipes: seq<Pipe>
    ghost var events: seq<LogEvent>

    ghost function Repr(): set<object>
      reads this, buf
    {
      {this} + buf.Repr()
    }

    ghost function Now(): Pipe
      reads this
    {
      if pipes == [] then Start([]) else pipes[|pipes| - 1]
    }

    ghost function Held(): Regs
      reads this
    {
      Regs(writeLsn, flushLsn, fsyncLsn, files, logFile, flusher)
    }

    ghost predicate Mirrors(p: Pipe)
      reads this
    {
      && Held() == RegsOf(p) && syncer == p.syncer
      && (!syncer.Resting? ==> sync.now == syncer.now)
      && (syncer.HasFds? ==> sync.prev == syncer.prev)
      && (syncer.HasFds? || syncer.PrevSynced? || syncer.CurSynced? ==> sync.fd == syncer.fd && sync.next == syncer.next)
    }

    ghost predicate Valid()
      reads Repr()
    {
      && this !in buf.Repr() && pipes != [] && Run(pipes, events) && Inv(Now()) && MarksOk(Now()) && SyncInv(Now())
      && Mirrors(Now()) && buf.Valid() && Holds(buf.View(), Now()) && EndsIn(buf.q.slots, Now())
    }

    /** The protocol takes a step. */
    ghost method Take(e: LogEvent)
      requires pipes != [] && Run(pipes, events) && Inv(Now()) && SyncInv(Now()) && MarksOk(Now()) && Enabled(Now(), e)
      modifies this`pipes, this`events
      ensures pipes != [] && Run(pipes, events) && Inv(Now()) && MarksOk(Now()) && SyncInv(Now())
      ensures Steps(old(Now()), e, Now()) && events == old(events) + [e] && pipes == old(pipes) + [Now()]
    {
      hide Inv, SyncInv, Next, Enabled, Start;
      InvMarks(Now());
      AllKeep(Now(), e);
      InvMarks(Next(Now(), e));
      RunSnoc(pipes, events, e);
      pipes := pipes + [Next(Now(), e)];
      events := events + [e];
    }

    constructor (size: nat, maxRec: nat, init: seq<Byte>)
      requires size >= 32
      ensures Valid() && fresh(Repr()) && buf.ring.data.Length == size && buf.maxRec == maxRec && buf.q.fque.Length == size / 16
      ensures Now() == Start(init) && events == []
    {
      hide Inv, SyncInv, Run, Holds, Buffer.Valid, Buffer.View, Flags;
      buf := new Buffer(size, maxRec);
      writeLsn, flushLsn, fsyncLsn := Lsn(1, 0), Lsn(1, 0), Lsn(1, 0);
      files, logFile := [File(init, |init|)], LogFile(0, -1, -1, |init|, 0);
      flusher, syncer := Idle, Resting;
      sync := Locals(Lsn(1, 0), false, 0, false);
      pipes, events := [Start(init)], [];
      new;
      StartHolds(init);
    }

    /**
     * Space is at hand: the record gets the write LSN and goes behind what is
     * buffered. Flush requests cut it exactly if the growing one has no room.
     */
    method TryWrite(rec: seq<Byte>, dual: bool) returns (r: Turn, lsn: Lsn, ghost cuts: set<nat>)
      requires Valid() && 0 < |rec| <= buf.maxRec && |rec| < buf.ring.data.Length && rec != [] && (dual ==> Now().scanning)
      modifies Repr()
      ensures r == Full <==> old(buf.RunsOver(|rec|, dual))
      ensures r != Full ==> Valid() && lsn == old(writeLsn) && old(pipes) <= pipes
      ensures r == Placed ==> pipes == old(pipes) + [Now()] && old(Now()).writeLsn == lsn
      ensures r == Placed ==> Steps(old(Now()), LogEvent.Write(rec, dual, cuts), Now()) && events == old(events) + [LogEvent.Write(rec, dual, cuts)]
      ensures r == Placed ==> (cuts != {} <==> Joins(old(buf.Before(|rec|)), dual) + |rec| > AUTO)
      ensures r != Placed ==> pipes == old(pipes) && events == old(events)
      ensures r != Full ==> (r == NoRoom <==> !old(buf.RoomFor(|rec|)))
      ensures r == NoRoom ==> buf.Standing() == old(buf.Standing()).Turned(|rec|)
      ensures r == NoRoom && 2 * buf.maxRec + AUTO <= buf.ring.data.Length ==> |buf.q.slots| > 1
    {
      hide Inv, SyncInv, Run, Repeat, Buffer.Valid, Buffer.View, Next, Enabled, Holds, Flags, Divided, EndsIn, Onward, MarksOk, NextOpen, Buffer.Before, Buffer.RunsOver, Buffer.RoomFor, Joins, CutsOf, AfterWrite, RegsOf;
      RegsAre(Now());
      ghost var p, s0 := Now(), buf.q.slots;
      HoldsQueued(buf, p);
      InvBounds(p);
      lsn, cuts := writeLsn, {};
      r := buf.TryWrite(rec, dual);
      if r == Full { return; }
      assert this !in buf.Repr() && buf.Valid();
      if r == Placed {
        cuts := CutsOf(s0, buf.q.slots, p.flushed);
        writeLsn := writeLsn.(roffset := writeLsn.roffset + |rec|);
        HoldsQueued(buf, p);
        CutsDivide(s0, buf.q.slots, p.flushed);
        WriteHolds(old(buf.View()), p, rec, dual, cuts);
        EndsWritten(s0, buf.q.slots, p, rec, dual);
        Take(LogEvent.Write(rec, dual, cuts));
        assert buf.Valid();
      } else {
        EndsClosed(s0, buf.q.slots, p);
      }
    }

    /** The checkpoint opened the next log file. */
    method OpenNext()
      requires Valid() && !NextOpen(Now()) && !Now().prevOpen && !SwitchAhead(Now())
      modifies this
      ensures Valid() && Steps(old(Now()), LogEvent.OpenNext, Now()) && events == old(events) + [LogEvent.OpenNext] && old(pipes) <= pipes
    {
      hide Inv, SyncInv, Run, Buffer.Valid, Buffer.View, Holds, Enabled, Next, MarksOk, EndsIn, RegsOf;
      RegsAre(Now());
      OpenHolds(buf.View(), buf.q.slots, Now());
      files, logFile := files + [File([], 0)], logFile.(nextFd := |files|);
      Take(LogEvent.OpenNext);
      assert buf.Valid();
    }

    /** The checkpoint succeeded: the write LSN continues in the next file. */
    method CompleteDual() returns (full: bool)
      requires Valid() && Now().scanning
      modifies Repr()
      ensures full <==> |old(buf.q.slots)| == buf.q.fque.Length && Last(old(buf.q.slots)).nflush > 0
      ensures !full ==> Valid() && Steps(old(Now()), Succeed, Now()) && events == old(events) + [Succeed] && old(pipes) <= pipes
    {
      hide Inv, SyncInv, Run, Buffer.Valid, Buffer.View, Holds, Enabled, Next, MarksOk, NextOpen, EndsIn, Flags, RegsOf;
      RegsAre(Now());
      ghost var p, s0 := Now(), buf.q.slots;
      SucceedHolds(buf.View(), p);
      ViewMark(buf);
      HoldsQueued(buf, p);
      full := buf.CompleteDual();
      if full { return; }
      assert this !in buf.Repr() && buf.Valid();
      EndsAdvanced(s0, buf.q.slots, p);
      EndsSame(buf.q.slots, p, Next(p, Succeed));
      writeLsn := Lsn(writeLsn.filenum + 1, buf.dwSize);
      Take(Succeed);
      assert buf.Valid();
    }

    /** The checkpoint failed: nothing that is queued goes to the next file any more ... */
    method FailDual()
      requires Valid() && Now().scanning
      modifies Repr()
      ensures Valid() && Steps(old(Now()), LogEvent.FailDual, Now()) && events == old(events) + [LogEvent.FailDual] && old(pipes) <= pipes
    {
      hide Inv, SyncInv, Run, Buffer.Valid, Buffer.View, Holds, Enabled, Next, MarksOk, NextOpen, EndsIn, Flags, Repeat, Single, RegsOf;
      RegsAre(Now());
      ghost var p, s0 := Now(), buf.q.slots;
      FailHolds(buf.View(), s0, p);
      buf.AbandonDual();
      assert this !in buf.Repr() && buf.Valid();
      Take(LogEvent.FailDual);
      assert buf.Valid();
    }

    /** ... and the next file is closed, while no sync is under way. */
    method CloseNext()
      requires Valid() && Doomed(Now()) && syncer.Resting?
      modifies this
      ensures Valid() && Steps(old(Now()), LogEvent.CloseNext, Now()) && events == old(events) + [LogEvent.CloseNext] && old(pipes) <= pipes
    {
      hide Inv, SyncInv, Run, Buffer.Valid, Buffer.View, Holds, Enabled, Next, MarksOk, EndsIn, RegsOf;
      RegsAre(Now());
      CloseHolds(buf.View(), buf.q.slots, Now());
      files, logFile := files[..logFile.fd + 1], logFile.(nextFd := -1);
      Take(LogEvent.CloseNext);
      assert buf.Valid();
    }

    /** The first critical section of do_log_buff_flush. */
    method FlushBegin(flushAll: bool) returns (n: nat, complete: bool)
      requires Valid() && flusher.Idle?
      modifies Repr()
      ensures Valid() && (complete <==> old(buf.View()).mark == 0) && old(pipes) <= pipes && old(events) <= events
      ensures n > 0 <==> |old(buf.q.slots)| > 1 || (flushAll && old(buf.View()).queued != [])
      ensures n == 0 && !complete ==> pipes == old(pipes) && events == old(events)
      ensures n > 0 || complete ==> exists dual ::
                Steps(old(Now()), Choose(n, dual), Now()) && events == old(events) + [Choose(n, dual)]
      ensures |old(buf.q.slots)| > 1 ==> buf.Standing() == old(buf.Standing()).Unwrapped()
      ensures n > 0 ==> old(buf.q.slots) != [] && n == old(buf.q.slots)[0].nflush
      ensures if complete then flusher.Chosen? && flusher.n == n else if n > 0 then flusher.Ready? && flusher.n == n else flusher.Idle?
    {
      hide Inv, SyncInv, Run, Buffer.Valid, Buffer.View, Holds, Enabled, Next, MarksOk, NextOpen, EndsIn, Flags, Repeat, RegsOf;
      RegsAre(Now());
      ghost var p, v, s0 := Now(), buf.View(), buf.q.slots;
      ViewMark(buf);
      HoldsQueued(buf, p);
      InvBounds(p);
      assert !buf.flushing by { IdleFirst(v, p); }
      var dual, dwBytes;
      n, dual, complete, dwBytes := buf.FlushBegin(flushAll);
      assert this !in buf.Repr() && buf.Valid();
      EndsAdvanced(s0, buf.q.slots, p);
      if complete || n > 0 {
        FirstEnds(buf.q.slots, p, n);
        ChooseHolds(v, p, n, dual);
        EndsSame(buf.q.slots, p, Next(p, Choose(n, dual)));
        flusher := if complete then Chosen(n, dual, dwBytes) else Ready(n, dual);
        Take(Choose(n, dual));
        assert buf.Valid();
      }
    }

    /**
     * The flusher reached the end of the dual write: the next file becomes
     * current, and the size kept for it is compared with what the buffer
     * counted. Steps after a failed comparison are those of a build in which
     * assertions do nothing.
     */
    method SwitchFile() returns (exact: bool)
      requires Valid() && flusher.Chosen?
      modifies this
      ensures Valid() && Steps(old(Now()), LogEvent.SwitchFile, Now()) && events == old(events) + [LogEvent.SwitchFile] && old(pipes) <= pipes
      ensures flusher.Switched? && flusher.n == old(flusher).n && buf.q.slots == old(buf.q.slots)
      ensures exact <==> logFile.size == flusher.dwBytes
      ensures exact <==> old(Now()).junk == 0
      ensures exact ==> logFile.fd < |files| && |files[logFile.fd].bytes| == flusher.dwBytes
    {
      hide Inv, SyncInv, Run, Buffer.Valid, Buffer.View, Holds, Next, Enabled, MarksOk, NextOpen, EndsIn, RegsOf;
      RegsAre(Now());
      ghost var p := Now();
      SwitchFileHolds(buf.View(), p);
      EndsSame(buf.q.slots, p, Next(p, LogEvent.SwitchFile));
      if logFile.nextFd != -1 {
        logFile := LogFile(logFile.nextFd, logFile.fd, -1, logFile.nextSize, 0);
      }
      exact, flusher := flusher.dwBytes == logFile.size, Switched(flusher.n, flusher.dual, flusher.dwBytes);
      Take(LogEvent.SwitchFile);
      assert buf.Valid();
    }

    method SwitchLsn()
      requires Valid() && flusher.Switched?
      modifies this
      ensures Valid() && Steps(old(Now()), LogEvent.SwitchLsn, Now()) && events == old(events) + [LogEvent.SwitchLsn] && old(pipes) <= pipes
      ensures flusher == (if old(flusher).n > 0 then Ready(old(flusher).n, old(flusher).dual) else Idle) && buf.q.slots == old(buf.q.slots)
    {
      hide Inv, SyncInv, Run, Buffer.Valid, Buffer.View, Holds, Next, Enabled, EndsIn, RegsOf;
      RegsAre(Now());
      SwitchLsnHolds(buf.View(), Now());
      EndsSame(buf.q.slots, Now(), Next(Now(), LogEvent.SwitchLsn));
      flushLsn := Lsn(flushLsn.filenum + 1, flusher.dwBytes);
      flusher := if flusher.n > 0 then Ready(flusher.n, flusher.dual) else Idle;
      Take(LogEvent.SwitchLsn);
      assert buf.Valid();
    }

    /** cmdlog_file_write: the chunk goes to the current file, and to the next one if it is to be written twice. */
    method WriteFile()
      requires Valid() && flusher.Ready?
      modifies this
      ensures Valid() && Steps(old(Now()), LogEvent.WriteFile, Now()) && events == old(events) + [LogEvent.WriteFile] && old(pipes) <= pipes
      ensures flusher == Written(old(flusher).n) && buf.q.slots == old(buf.q.slots)
    {
      hide Inv, SyncInv, Run, Buffer.Valid, Buffer.View, Holds, Next, Enabled, Bytes, EndsIn, NextOpen, MarksOk, RegsOf;
      RegsAre(Now());
      ghost var p := Now();
      WriteFileHolds(buf.View(), p);
      EndsSame(buf.q.slots, p, Next(p, LogEvent.WriteFile));
      ViewMark(buf);
      var chunk := buf.Chunk();
      var n := flusher.n;
      var lf := logFile;
      var now := files[lf.fd := Append(files[lf.fd], chunk)];
      lf := lf.(size := lf.size + n);
      if flusher.dual && lf.nextFd != -1 {
        now := now[lf.nextFd := Append(now[lf.nextFd], chunk)];
        lf := lf.(nextSize := lf.nextSize + n);
      }
      files, logFile, flusher := now, lf, Written(n);
      Take(LogEvent.WriteFile);
      assert buf.Valid();
    }

    method CountLsn()
      requires Valid() && flusher.Written?
      modifies this
      ensures Valid() && Steps(old(Now()), LogEvent.CountLsn, Now()) && events == old(events) + [LogEvent.CountLsn] && old(pipes) <= pipes
      ensures flusher == Counted(old(flusher).n) && buf.q.slots == old(buf.q.slots)
    {
      hide Inv, SyncInv, Run, Buffer.Valid, Buffer.View, Holds, Next, Enabled, EndsIn, RegsOf;
      RegsAre(Now());
      CountLsnHolds(buf.View(), Now());
      EndsSame(buf.q.slots, Now(), Next(Now(), LogEvent.CountLsn));
      flushLsn := flushLsn.(roffset := flushLsn.roffset + flusher.n);
      flusher := Counted(flusher.n);
      Take(LogEvent.CountLsn);
      assert buf.Valid();
    }

    /** The last critical section of do_log_buff_flush. */
    method FlushEnd()
      requires Valid() && flusher.Counted?
      modifies Repr()
      ensures Valid() && Steps(old(Now()), Finish, Now()) && events == old(events) + [Finish] && old(pipes) <= pipes
      ensures flusher == Idle && |old(buf.q.slots)| > 1 && buf.Standing() == old(buf.Standing()).Dropped()
    {
      hide Inv, SyncInv, Run, Buffer.Valid, Buffer.View, Holds, Next, Enabled, EndsIn, Flags, RegsOf;
      RegsAre(Now());
      FinishHolds(buf.View(), Now());
      ViewMark(buf);
      FirstIs(buf);
      BufferShape(buf);
      EndsRetired(buf.q.slots, Now(), Next(Now(), Finish));
      buf.FlushEnd();
      assert this !in buf.Repr() && buf.Valid();
      flusher := Idle;
      Take(Finish);
      assert buf.Valid();
    }

    /** The end of a dual write: switch the files, then the flush LSN. */
    method Switch() returns (exact: bool)
      requires Valid() && flusher.Chosen?
      modifies this
      ensures Valid() && Flushed(old(Now()), Now(), 0) && old(pipes) <= pipes && old(events) <= events
      ensures (if old(flusher).n > 0 then flusher.Ready? && flusher.n == old(flusher).n else flusher.Idle?) && buf.q.slots == old(buf.q.slots)
      ensures exact <==> old(Now()).junk == 0
    {
      hide Inv, SyncInv, Run, Buffer.Valid, Buffer.View, Holds, Next, Enabled, MarksOk, NextOpen, EndsIn, RegsOf, Mirrors;
      ghost var p := Now();
      exact := SwitchFile();
      StepFlushes(p, LogEvent.SwitchFile, Now());
      ghost var q := Now();
      SwitchLsn();
      StepFlushes(q, LogEvent.SwitchLsn, Now());
    }

    /** The chunk goes to the files and leaves the buffer. */
    method Send()
      requires Valid() && flusher.Ready?
      modifies Repr()
      ensures Valid() && Flushed(old(Now()), Now(), old(flusher).n) && old(pipes) <= pipes && old(events) <= events
      ensures flusher == Idle && |old(buf.q.slots)| > 1 && buf.Standing() == old(buf.Standing()).Dropped()
    {
      hide Inv, SyncInv, Run, Buffer.Valid, Buffer.View, Holds, Next, Enabled, MarksOk, NextOpen, EndsIn, RegsOf;
      RegsAre(Now());
      ghost var p := Now();
      WriteFile();
      StepFlushes(p, LogEvent.WriteFile, Now());
      ghost var q := Now();
      CountLsn();
      StepFlushes(q, LogEvent.CountLsn, Now());
      ghost var r := Now();
      RegsAre(r);
      FlushEnd();
      StepFlushes(r, Finish, Now());
    }

    /**
     * do_log_buff_flush as one thread runs it: at most one request is flushed,
     * and the files are switched when the end of a dual write is reached.
     */
    method Flush(flushAll: bool) returns (n: nat, exact: bool)
      requires Valid() && flusher.Idle?
      modifies Repr()
      ensures Valid() && flusher.Idle? && Flushed(old(Now()), Now(), n) && old(pipes) <= pipes && old(events) <= events
      ensures n > 0 <==> |old(buf.q.slots)| > 1 || (flushAll && old(buf.View()).queued != [])
      ensures n > 0 ==> old(buf.q.slots) != [] && n == old(buf.q.slots)[0].nflush
      ensures |old(buf.q.slots)| > 1 ==> buf.Standing() == old(buf.Standing()).Relieved()
      ensures exact <==> old(Now()).junk == 0 || old(buf.View()).mark != 0
    {
      hide Inv, SyncInv, Run, Buffer.Valid, Buffer.View, Holds, Next, Enabled, MarksOk, NextOpen, EndsIn, RegsOf, Mirrors;
      ghost var p := Now();
      var complete;
      n, complete := FlushBegin(flushAll);
      exact := true;
      if n > 0 || complete {
        ghost var dual :| Steps(p, Choose(n, dual), Now());
        StepFlushes(p, Choose(n, dual), Now());
        ChooseJunk(p, n, dual, Now());
      }
      if complete {
        exact := Switch();
      }
      if n > 0 {
        Send();
      }
    }

    /** One turn of the space-finding loop, with the forced flush when there is no room. */
    method WriteTurn(rec: seq<Byte>, dual: bool) returns (r: Turn, lsn: Lsn, ghost cuts: set<nat>)
      requires Valid() && flusher.Idle? && 0 < |rec| <= buf.maxRec && (dual ==> Now().scanning)
      requires 2 * buf.maxRec + AUTO <= buf.ring.data.Length
      modifies Repr()
      ensures r == Full <==> old(buf.RunsOver(|rec|, dual))
      ensures old(pipes) <= pipes && old(events) <= events
      ensures r == Full ==> pipes == old(pipes)
      ensures r != Full ==> Valid() && flusher.Idle? && lsn == old(writeLsn)
      ensures r == Placed ==> |pipes| > 1 && pipes[|pipes| - 2].writeLsn == lsn && Now().log == old(Now()).log + Tag(rec, dual)
      ensures r == Placed ==> events == old(events) + [LogEvent.Write(rec, dual, cuts)] && (|rec| > AUTO ==> cuts != {})
      ensures r != Full ==> (r == NoRoom <==> !old(buf.RoomFor(|rec|)))
      ensures r == NoRoom ==> buf.Standing() == old(buf.Standing()).After(|rec|, 1)
      ensures r == NoRoom ==> old(Now()).flushed < Now().flushed <= |Now().log| && Flushed(old(Now()), Now(), Now().flushed - old(Now()).flushed)
    {
      hide Inv, SyncInv, Run, Buffer.Valid, Buffer.View, Holds, Next, Enabled, MarksOk, NextOpen, EndsIn, Stand.RoomFor, Stand.RunsOver, Stand.Before;
      ghost var p := Now();
      RegsAre(p);
      FlushedInside(buf.View(), p);
      r, lsn, cuts := TryWrite(rec, dual);
      if r == Placed {
        StepWrites(p, rec, dual, cuts, Now());
      } else if r == NoRoom {
        var n, exact := Flush(false);
        FlushedInside(buf.View(), Now());
      }
    }

    /**
     * do_log_buff_write: flush until the record fits. With room for two records
     * and a request every forced flush takes bytes out of the buffer. After
     * `turns` of them there is room, or the ring of requests runs over; which
     * one is settled by how the buffer stood at the beginning.
     */
    method Write(rec: seq<Byte>, dual: bool) returns (full: bool, lsn: Lsn, ghost cuts: set<nat>, ghost turns: nat)
      requires Valid() && flusher.Idle? && 0 < |rec| <= buf.maxRec && (dual ==> Now().scanning)
      requires 2 * buf.maxRec + AUTO <= buf.ring.data.Length
      modifies Repr()
      ensures old(pipes) <= pipes && old(events) <= events
      ensures !full ==> |pipes| > 1 && pipes[|pipes| - 2].writeLsn == lsn
      ensures !full ==> Valid() && flusher.Idle? && lsn == old(writeLsn) && Now().log == old(Now()).log + Tag(rec, dual)
      ensures !full ==> events != [] && events[|events| - 1] == LogEvent.Write(rec, dual, cuts) && (|rec| > AUTO ==> cuts != {})
      ensures var s := old(buf.Standing());
              && s.slots != [] && s.Tries(|rec|, dual, turns)
              && var at := s.After(|rec|, turns);
              && (full <==> at.RunsOver(|rec|, dual)) && (!full ==> at.RoomFor(|rec|))
              && (full ==> Now().log == old(Now()).log && Stands(at, Now()))
      ensures old(buf.RoomFor(|rec|)) || old(buf.RunsOver(|rec|, dual)) ==> turns == 0
      ensures turns == 0 && !full ==> events == old(events) + [LogEvent.Write(rec, dual, cuts)]
      ensures |old(buf.q.slots)| + 1 + (AUTO - 1 + |rec|) / AUTO <= buf.q.fque.Length ==> !full
    {
      hide Log.Valid, Stands, Stand.RoomFor, Stand.RunsOver, Stand.After, Stand.Tries, SlotsOk;
      full, lsn, cuts, turns := false, writeLsn, {}, 0;
      ghost var p0, s := Now(), buf.Standing();
      LogStands(this);
      TriesNone(s, |rec|, dual);
      var r := NoRoom;
      while r == NoRoom
        invariant r != Full && Valid() && flusher.Idle? && old(pipes) <= pipes && old(events) <= events
        invariant s.Tries(|rec|, dual, turns)
        invariant r == NoRoom ==> p0.flushed <= Now().flushed <= |p0.log| && Flushed(p0, Now(), Now().flushed - p0.flushed)
        invariant r == NoRoom ==> buf.Standing() == s.After(|rec|, turns) && (turns == 0 ==> events == old(events))
        invariant r == Placed ==> |pipes| > 1 && pipes[|pipes| - 2].writeLsn == lsn == p0.writeLsn && Now().log == p0.log + Tag(rec, dual)
        invariant r == Placed ==> events != [] && events[|events| - 1] == LogEvent.Write(rec, dual, cuts) && (|rec| > AUTO ==> cuts != {})
        invariant r == Placed ==> var at := s.After(|rec|, turns); at.RoomFor(|rec|) && !at.RunsOver(|rec|, dual)
        invariant r == Placed && turns == 0 ==> events == old(events) + [LogEvent.Write(rec, dual, cuts)]
        decreases r == NoRoom, |p0.log| - Now().flushed
      {
        ghost var at := buf.Standing();
        LogStands(this);
        r, lsn, cuts := WriteTurn(rec, dual);
        if r == Full {
          full := true;
          OverBound(at, |rec|, dual);
          AfterSlots(s, |rec|, turns);
          TriesNow(s, |rec|, dual, turns);
          return;
        } else if r == NoRoom {
          TriesMore(s, |rec|, dual, turns);
          turns := turns + 1;
        }
      }
      TriesNow(s, |rec|, dual, turns);
    }

    /** cmdlog_file_sync begins by reading the flush LSN ... */
    method ReadLsn()
      requires Valid() && syncer.Resting?
      modifies this
      ensures Valid() && Steps(old(Now()), LogEvent.ReadLsn, Now()) && events == old(events) + [LogEvent.ReadLsn] && old(pipes) <= pipes
    {
      hide Inv, SyncInv, Run, Buffer.Valid, Buffer.View, Holds, EndsIn;
      SyncHolds(buf.View(), Now(), LogEvent.ReadLsn);
      EndsSame(buf.q.slots, Now(), Next(Now(), LogEvent.ReadLsn));
      sync := sync.(now := flushLsn);
      syncer := HasLsn(flushLsn, CountedTo(Now()));
      Take(LogEvent.ReadLsn);
      assert buf.Valid();
    }

    /** ... then the descriptors, taking over the previous file if there is one. */
    method ReadFds()
      requires Valid() && syncer.HasLsn?
      modifies this
      ensures Valid() && Steps(old(Now()), LogEvent.ReadFds, Now()) && events == old(events) + [LogEvent.ReadFds] && old(pipes) <= pipes
    {
      hide Inv, SyncInv, Run, Buffer.Valid, Buffer.View, Holds, Next, Enabled, MarksOk, NextOpen, EndsIn, RegsOf;
      RegsAre(Now());
      ReadFdsHolds(buf.View(), Now());
      EndsSame(buf.q.slots, Now(), Next(Now(), LogEvent.ReadFds));
      sync := Locals(sync.now, logFile.prevFd != -1, logFile.fd, logFile.nextFd != -1);
      syncer, logFile := HasFds(sync.now, syncer.pos, sync.prev, sync.fd, sync.next), logFile.(prevFd := -1);
      Take(LogEvent.ReadFds);
      assert buf.Valid();
    }

    /** The previous file goes to disk for good; with nothing new to sync that is all. */
    method SyncPrev() returns (more: bool)
      requires Valid() && syncer.HasFds?
      modifies this
      ensures more <==> !syncer.Resting?
      ensures Valid() && Steps(old(Now()), LogEvent.SyncPrev, Now()) && events == old(events) + [LogEvent.SyncPrev] && old(pipes) <= pipes
    {
      hide Inv, SyncInv, Run, Buffer.Valid, Buffer.View, Holds, EndsIn;
      SyncHolds(buf.View(), Now(), LogEvent.SyncPrev);
      EndsSame(buf.q.slots, Now(), Next(Now(), LogEvent.SyncPrev));
      if sync.prev { files := Fsync(files, sync.fd - 1); }
      more := LsnLess(fsyncLsn, sync.now);
      syncer := if more then PrevSynced(syncer.now, syncer.pos, syncer.fd, syncer.next) else Resting;
      Take(LogEvent.SyncPrev);
      assert buf.Valid();
    }

    /** The current file goes to disk. */
    method SyncCur()
      requires Valid() && syncer.PrevSynced?
      modifies this
      ensures Valid() && Steps(old(Now()), LogEvent.SyncCur, Now()) && events == old(events) + [LogEvent.SyncCur] && old(pipes) <= pipes
    {
      hide Inv, SyncInv, Run, Buffer.Valid, Buffer.View, Holds, EndsIn;
      SyncHolds(buf.View(), Now(), LogEvent.SyncCur);
      EndsSame(buf.q.slots, Now(), Next(Now(), LogEvent.SyncCur));
      files := Fsync(files, sync.fd);
      syncer := CurSynced(syncer.now, syncer.pos, syncer.fd, syncer.next);
      Take(LogEvent.SyncCur);
      assert buf.Valid();
    }

    /** The next file goes to disk. */
    method SyncNext()
      requires Valid() && syncer.CurSynced?
      modifies this
      ensures Valid() && Steps(old(Now()), LogEvent.SyncNext, Now()) && events == old(events) + [LogEvent.SyncNext] && old(pipes) <= pipes
    {
      hide Inv, SyncInv, Run, Buffer.Valid, Buffer.View, Holds, EndsIn;
      SyncHolds(buf.View(), Now(), LogEvent.SyncNext);
      EndsSame(buf.q.slots, Now(), Next(Now(), LogEvent.SyncNext));
      if sync.next { files := Fsync(files, sync.fd + 1); }
      syncer := AllSynced(syncer.now, syncer.pos);
      Take(LogEvent.SyncNext);
      assert buf.Valid();
    }

    /** Everything below the flush LSN that was read is on disk. */
    method EndSync()
      requires Valid() && syncer.AllSynced?
      modifies this
      ensures Valid() && Steps(old(Now()), LogEvent.EndSync, Now()) && events == old(events) + [LogEvent.EndSync] && old(pipes) <= pipes
    {
      hide Inv, SyncInv, Run, Buffer.Valid, Buffer.View, Holds, EndsIn;
      SyncHolds(buf.View(), Now(), LogEvent.EndSync);
      EndsSame(buf.q.slots, Now(), Next(Now(), LogEvent.EndSync));
      fsyncLsn := sync.now;
      syncer := Resting;
      Take(LogEvent.EndSync);
      assert buf.Valid();
    }
  }

  lemma ReadFdsHolds(v: State, p: Pipe)
    requires Inv(p) && SyncInv(p) && Holds(v, p) && p.syncer.HasLsn?
    ensures Enabled(p, ReadFds)
    ensures var q := Next(p, ReadFds);
            && RegsOf(q) == RegsOf(p).(log := RegsOf(p).log.(prevFd := -1)) && (RegsOf(p).log.prevFd != -1 <==> p.prevOpen)
            && q.syncer == HasFds(p.syncer.now, p.syncer.pos, p.prevOpen, p.cur, NextOpen(p))
            && q.flushed == p.flushed && q.bounds == p.bounds && Holds(v, q)
  {
    hide Inv, SyncInv, Bytes, QueuedFlags;
    InvMarks(p);
    PrevFile(p);
    FlagsSame(p, Next(p, ReadFds));
  }

  lemma PrevFile(p: Pipe)
    requires MarksOk(p) && SyncInv(p)
    ensures p.prevOpen ==> p.cur > 0
  {}

  lemma SyncHolds(v: State, p: Pipe, e: LogEvent)
    requires Inv(p) && SyncInv(p) && Holds(v, p) && OfSyncer(e)
    requires match e
             case ReadLsn => p.syncer.Resting?
             case ReadFds => p.syncer.HasLsn?
             case SyncPrev => p.syncer.HasFds?
             case SyncCur => p.syncer.PrevSynced?
             case SyncNext => p.syncer.CurSynced?
             case _ => p.syncer.AllSynced?
    ensures Enabled(p, e) && Holds(v, Next(p, e))
  {
    hide FilesOk, LsnsOk, Bytes, Dual, Base, Uniform, Counts, SyncedBut, DualOk, FlusherOk, BoundsOk, LsnLess, QueuedFlags;
    SyncFlags(p, e);
  }

  /** The requests are those of what was logged and not yet flushed. */
  ghost predicate Stands(at: Stand, p: Pipe) {
    MarksOk(p) && p.flushed <= |p.log| && Flags(at.slots) == QueuedFlags(p)
  }

  lemma StandsNow(b: Buffer, p: Pipe)
    requires b.Valid() && Holds(b.View(), p)
    ensures Stands(b.Standing(), p) && SlotsOk(b.Standing().slots)
  {
    hide Flags, MarksOk, QueuedFlags;
  }

  lemma LogStands(l: Log)
    requires l.Valid()
    ensures Stands(l.buf.Standing(), l.Now()) && SlotsOk(l.buf.q.slots) && l.buf.q.slots != []
    ensures l.Now().flushed <= |l.Now().log| && l.writeLsn == l.Now().writeLsn
  {
    hide Inv, SyncInv, Run, Buffer.Valid, Buffer.View, Holds, MarksOk, EndsIn, RegsOf, Stands;
    StandsNow(l.buf, l.Now());
    FlushedInside(l.buf.View(), l.Now());
    RegsAre(l.Now());
    BufferShape(l.buf);
  }

  /** A turn runs over only if few slots are left. */
  lemma OverBound(at: Stand, len: nat, dual: bool)
    requires SlotsOk(at.slots) && at.RunsOver(len, dual) && len > 0
    ensures |at.slots| + 1 + (AUTO - 1 + len) / AUTO > at.cap
  {
    if |at.Before(len)| <= at.cap {
      var g := Joins(at.Before(len), dual);
      assert (g + len) / AUTO <= (AUTO - 1 + len) / AUTO;
    }
  }

  lemma FlushedInside(v: State, p: Pipe)
    requires Holds(v, p)
    ensures p.flushed <= |p.log|
  {}

  lemma StepWrites(p: Pipe, rec: seq<Byte>, dual: bool, cuts: set<nat>, q: Pipe)
    requires Steps(p, Write(rec, dual, cuts), q)
    ensures q.log == p.log + Tag(rec, dual) && q.flusher == p.flusher
  {}

  lemma ChooseJunk(p: Pipe, n: nat, dual: bool, q: Pipe)
    requires Steps(p, Choose(n, dual), q)
    ensures q.junk == p.junk
  {}

  predicate OfFlusher(e: LogEvent) {
    e.Choose? || e.SwitchFile? || e.SwitchLsn? || e.WriteFile? || e.CountLsn? || e.Finish?
  }

  lemma StepFlushes(p: Pipe, e: LogEvent, q: Pipe)
    requires Steps(p, e, q) && OfFlusher(e)
    ensures Flushed(p, q, if e.Finish? then p.flusher.n else 0)
  {
    hide Bytes, Flagged, Chunk;
  }

  /** A flush takes `n` bytes from the buffer and changes nothing that writers see. */
  predicate Flushed(p: Pipe, q: Pipe, n: nat) {
    q.log == p.log && q.scanning == p.scanning && q.writeLsn == p.writeLsn && q.flushed == p.flushed + n
  }

  /** Flags of queued bytes, one by one. */
  lemma FlagsAt(p: Pipe, i: nat)
    requires MarksOk(p) && p.flushed + i < |p.log|
    ensures QueuedFlags(p)[i] == Flag(p, p.flushed + i)
  {}

  lemma FlagsSame(p: Pipe, q: Pipe)
    requires MarksOk(p) && MarksOk(q) && p.flushed == q.flushed <= |p.log| && |q.log| == |p.log|
    requires forall k: nat | p.flushed <= k < |p.log| :: Flag(q, k) == Flag(p, k)
    ensures QueuedFlags(q) == QueuedFlags(p)
  {
    hide Flag;
  }

  lemma FlagsClear(p: Pipe)
    requires MarksOk(p) && p.flushed <= |p.log| && forall k: nat | p.flushed <= k < |p.log| :: !Flag(p, k)
    ensures QueuedFlags(p) == Repeat(false, |p.log| - p.flushed)
  {
    hide Flag;
  }

  lemma SyncFlags(p: Pipe, e: LogEvent)
    requires MarksOk(p) && p.flushed <= |p.log| && Enabled(p, e) && OfSyncer(e)
    ensures MarksOk(Next(p, e)) && Next(p, e).flushed <= |Next(p, e).log| && QueuedFlags(Next(p, e)) == QueuedFlags(p)
  {
    hide Next, Enabled;
    SyncSame(p, e);
    FlagsSame(p, Next(p, e));
  }

  lemma HoldsQueued(b: Buffer, p: Pipe)
    requires b.Valid()
    ensures |Flags(b.q.slots)| == |b.View().queued| == |b.View().flags| && b.q.slots != [] && SlotsOk(b.q.slots)
    ensures Holds(b.View(), p) ==> p.flushed + |Flags(b.q.slots)| == |p.log|
  {
    hide Flags;
  }

  lemma InvBounds(p: Pipe)
    requires Inv(p)
    ensures |p.log| in p.bounds && p.flushed in p.bounds
  {}

  lemma FirstIs(b: Buffer)
    requires b.Valid()
    ensures b.flushing ==> b.View().first == b.q.slots[0].nflush && |b.q.slots| > 1
  {}

  /** The requests that end inside a record. */
  ghost function CutsOf(a: seq<Freq>, b: seq<Freq>, flushed: nat): set<nat> {
    set k | 0 < k < |b| && |Flags(a)| < |Flags(b[..k])| < |Flags(b)| :: flushed + |Flags(b[..k])|
  }

  lemma CutsDivide(a: seq<Freq>, b: seq<Freq>, flushed: nat)
    ensures CutsOf(a, b, flushed) != {} <==> Divided(a, b)
    ensures forall c | c in CutsOf(a, b, flushed) :: flushed + |Flags(a)| < c < flushed + |Flags(b)|
  {
    hide Flags;
    if Divided(a, b) {
      var k :| 0 < k < |b| && |Flags(a)| < |Flags(b[..k])| < |Flags(b)|;
      assert flushed + |Flags(b[..k])| in CutsOf(a, b, flushed);
    }
    if c :| c in CutsOf(a, b, flushed) {
      assert Divided(a, b);
    }
  }

  /** Requests of before end where they did, and others not before the end of what was queued. */
  lemma OnwardEnds(a: seq<Freq>, b: seq<Freq>, k: nat)
    requires Onward(a, b) && 0 < k <= |b|
    ensures if k < |a| then b[..k] == a[..k] else |Flags(b[..k])| >= |Flags(a)|
  {
    hide Flags;
    var m := |a| - 1;
    if k < |a| {
      assert b[..k] == b[..m][..k];
    } else {
      FlagsMonotone(b, |a|, k);
      FlagsTake(b, m);
      FlagsTake(a, m);
      assert a[..m + 1] == a;
    }
  }

  lemma EndsWritten(a: seq<Freq>, b: seq<Freq>, p: Pipe, rec: seq<Byte>, dual: bool)
    requires EndsIn(a, p) && Onward(a, b) && p.flushed + |Flags(a)| == |p.log| && |Flags(b)| == |Flags(a)| + |rec| && |p.log| in p.bounds
    ensures EndsIn(b, AfterWrite(p, rec, dual, CutsOf(a, b, p.flushed)))
  {
    hide Flags, Onward, Tag;
    var q := AfterWrite(p, rec, dual, CutsOf(a, b, p.flushed));
    forall k | 0 < k < |b|
      ensures q.flushed + |Flags(b[..k])| in q.bounds
    {
      OnwardEnds(a, b, k);
      FlagsMonotone(b, k, |b|);
      assert b[..|b|] == b;
      if |Flags(a)| < |Flags(b[..k])| < |Flags(b)| { assert p.flushed + |Flags(b[..k])| in CutsOf(a, b, p.flushed); }
    }
  }

  lemma EndsClosed(a: seq<Freq>, b: seq<Freq>, p: Pipe)
    requires EndsIn(a, p) && Onward(a, b) && p.flushed + |Flags(a)| == |p.log| && |Flags(b)| == |Flags(a)| && |p.log| in p.bounds
    ensures EndsIn(b, p)
  {
    hide Flags, Onward;
    forall k | 0 < k < |b|
      ensures p.flushed + |Flags(b[..k])| in p.bounds
    {
      OnwardEnds(a, b, k);
      FlagsMonotone(b, k, |b|);
      assert b[..|b|] == b;
    }
  }

  lemma EndsAdvanced(a: seq<Freq>, b: seq<Freq>, p: Pipe)
    requires EndsIn(a, p) && a != [] && (b == a || b == a + [EMPTY]) && p.flushed + |Flags(a)| == |p.log| && |p.log| in p.bounds
    ensures EndsIn(b, p)
  {
    hide Flags;
    FlagsSnoc(a, EMPTY);
    RepeatNone(false);
    EndsClosed(a, b, p);
  }

  lemma EndsSame(s: seq<Freq>, p: Pipe, q: Pipe)
    requires EndsIn(s, p) && q.flushed == p.flushed && p.bounds <= q.bounds
    ensures EndsIn(s, q)
  {}

  lemma FirstEnds(s: seq<Freq>, p: Pipe, n: nat)
    requires EndsIn(s, p) && p.flushed in p.bounds && (n > 0 ==> |s| > 1 && n == s[0].nflush)
    ensures p.flushed + n in p.bounds
  {
    hide Flags;
    if n > 0 {
      FlagsTake(s, 0);
      NoFlags(s);
      assert p.flushed + |Flags(s[..1])| in p.bounds;
    }
  }

  lemma NoFlags(s: seq<Freq>)
    ensures Flags(s[..0]) == []
  {}

  lemma EndsRetired(s: seq<Freq>, p: Pipe, q: Pipe)
    requires EndsIn(s, p) && |s| > 1 && q.flushed == p.flushed + s[0].nflush && q.bounds == p.bounds
    ensures EndsIn(s[1..], q)
  {
    hide Flags;
    forall k | 0 < k < |s[1..]|
      ensures q.flushed + |Flags(s[1..][..k])| in q.bounds
    {
      FlagsRetired(s, k + 1);
      assert p.flushed + |Flags(s[..k + 1])| in p.bounds;
    }
  }

  lemma EndsCleared(s: seq<Freq>, p: Pipe)
    requires EndsIn(s, p)
    ensures EndsIn(Single(s), p)
  {
    hide Flags, Single, Repeat;
    forall k | 0 < k < |Single(s)|
      ensures p.flushed + |Flags(Single(s)[..k])| in p.bounds
    {
      SingleSize(s);
      SingleTake(s, k);
      SingleFlags(s[..k]);
    }
  }

  lemma SingleSize(s: seq<Freq>)
    ensures |Single(s)| == |s|
  {}

  lemma SwitchFileHolds(v: State, p: Pipe)
    requires Inv(p) && Holds(v, p) && p.flusher.Chosen?
    ensures NextOpen(p) && p.cur + 1 < |p.files| && Enabled(p, SwitchFile)
    ensures p.nextSize == p.flusher.dwBytes <==> p.junk == 0
    ensures p.junk == 0 ==> |p.files[p.cur + 1].bytes| == p.flusher.dwBytes
    ensures var q, f := Next(p, SwitchFile), p.flusher;
            && RegsOf(p).log.nextFd == p.cur + 1
            && RegsOf(q) == RegsOf(p).(log := LogFile(p.cur + 1, p.cur, -1, p.nextSize, 0), flusher := Switched(f.n, f.dual, f.dwBytes))
            && Beside(p, q) && Holds(v, q)
  {
    hide Dual, Bytes, LsnsOk, Uniform, BoundsOk, FileOk, QueuedFlags;
    var q := AfterSwitchFile(p);
    forall k: nat | p.flushed <= k < |p.log|
      ensures Flag(q, k) == Flag(p, k)
    {
      DualEmpty(p.log[p.flushed..], k - p.flushed);
    }
    FlagsSame(p, q);
  }

  lemma SwitchLsnShape(p: Pipe)
    requires MarksOk(p) && p.flusher.Switched?
    ensures MarksOk(AfterSwitchLsn(p))
    ensures forall k: nat | k < |p.log| :: Flag(AfterSwitchLsn(p), k) == Flag(p, k)
  {}

  lemma SwitchLsnHolds(v: State, p: Pipe)
    requires Inv(p) && Holds(v, p) && p.flusher.Switched?
    ensures Enabled(p, SwitchLsn)
    ensures var q, f := Next(p, SwitchLsn), p.flusher;
            && RegsOf(q) == RegsOf(p).(flushLsn := Lsn(p.flushLsn.filenum + 1, f.dwBytes), flusher := if f.n > 0 then Ready(f.n, f.dual) else Idle)
            && Beside(p, q) && Holds(v, q)
  {
    hide Inv, Bytes, QueuedFlags, MarksOk;
    SwitchLsnShape(p);
    FlagsSame(p, AfterSwitchLsn(p));
  }

  /** What cmdlog_file_write does to the files. */
  function FilesAfter(r: Regs, chunk: seq<Byte>): seq<File>
    requires r.log.fd < |r.files| && -1 <= r.log.nextFd < |r.files| && r.flusher.Ready?
  {
    var files := r.files[r.log.fd := Append(r.files[r.log.fd], chunk)];
    if r.flusher.dual && r.log.nextFd != -1 then files[r.log.nextFd := Append(files[r.log.nextFd], chunk)] else files
  }

  function SizesAfter(r: Regs): LogFile
    requires r.flusher.Ready?
  {
    var log := r.log.(size := r.log.size + r.flusher.n);
    if r.flusher.dual && log.nextFd != -1 then log.(nextSize := log.nextSize + r.flusher.n) else log
  }

  lemma WriteFileFields(p: Pipe)
    requires MarksOk(p) && CanWriteFile(p)
    ensures var q, n, r := AfterWriteFile(p), p.flusher.n, RegsOf(p);
            && r.log.fd < |r.files| && -1 <= r.log.nextFd < |r.files| && r.flusher == p.flusher
            && RegsOf(q) == r.(flusher := Written(n), files := FilesAfter(r, Chunk(p)), log := SizesAfter(r))
            && Beside(p, q)
  {
    hide Bytes, Void;
  }

  lemma ChunkHeld(v: State, p: Pipe)
    requires Holds(v, p) && p.flusher.Ready? && p.flushed + p.flusher.n <= |p.log|
    ensures v.first == p.flusher.n <= |v.queued| && v.queued[..v.first] == Chunk(p)
  {
    BytesTake(p.log[p.flushed..], p.flusher.n);
    assert p.log[p.flushed..][..p.flusher.n] == p.log[p.flushed..p.flushed + p.flusher.n];
  }

  lemma HoldsShape(v: State, p: Pipe)
    requires Holds(v, p)
    ensures MarksOk(p) && p.flushed <= |p.log|
  {}

  lemma WriteFileHolds(v: State, p: Pipe)
    requires Inv(p) && Holds(v, p) && p.flusher.Ready?
    ensures MarksOk(p) && v.first == p.flusher.n > 0 && v.first <= |v.queued| && Enabled(p, WriteFile)
    ensures var q := Next(p, WriteFile); var n := p.flusher.n;
            && var r := RegsOf(p);
            && r.log.fd < |r.files| && -1 <= r.log.nextFd < |r.files| && r.flusher == p.flusher
            && RegsOf(q) == r.(flusher := Written(n), files := FilesAfter(r, v.queued[..v.first]), log := SizesAfter(r))
            && Beside(p, q) && Holds(v, q)
  {
    hide FilesOk, DualOk, LsnsOk, Chunk, BoundsOk, Later, AfterWriteFile, MarksOk, ChunkOk, QueuedFlags, Holds, FilesAfter, SizesAfter, RegsOf;
    HoldsShape(v, p);
    ShapeOf(p);
    ChunkBounds(p, p.flusher.n, p.flusher.dual);
    ChunkHeld(v, p);
    WriteFileShape(p);
    WriteFileFields(p);
    HoldsSame(v, p, AfterWriteFile(p));
  }

  /** Steps that leave the queue and its flags alone. */
  lemma HoldsSame(v: State, p: Pipe, q: Pipe)
    requires Holds(v, p) && SameLog(p, q) && q.flushed == p.flushed && q.dwSize == p.dwSize
    requires !p.flusher.Idle? && !q.flusher.Idle? && !p.flusher.Chosen? && !q.flusher.Chosen? && p.flusher.n == q.flusher.n
    ensures Holds(v, q)
  {
    hide Bytes, QueuedFlags, Later;
    SameLater(p, q);
    FlagsSame(p, q);
  }

  lemma CountLsnHolds(v: State, p: Pipe)
    requires Inv(p) && Holds(v, p) && p.flusher.Written?
    ensures Enabled(p, CountLsn)
    ensures var q := Next(p, CountLsn);
            && RegsOf(q) == RegsOf(p).(flusher := Counted(p.flusher.n), flushLsn := p.flushLsn.(roffset := p.flushLsn.roffset + p.flusher.n))
            && Beside(p, q) && Holds(v, q)
  {
    hide Inv, Bytes, QueuedFlags, MarksOk, Holds;
    HoldsShape(v, p);
    HoldsSame(v, p, AfterCount(p));
  }

  lemma BytesTake(s: seq<Logged>, n: nat)
    requires n <= |s|
    ensures Bytes(s)[..n] == Bytes(s[..n]) && Bytes(s)[n..] == Bytes(s[n..])
  {}

  lemma FinishHolds(v: State, p: Pipe)
    requires Inv(p) && Holds(v, p) && p.flusher.Counted?
    ensures v.first == p.flusher.n > 0 && v.first <= |v.queued| && v.first <= |v.flags| && Enabled(p, Finish)
    ensures var q := Next(p, Finish); RegsOf(q) == RegsOf(p).(flusher := Idle) && q.flushed == p.flushed + p.flusher.n && q.bounds == p.bounds && q.syncer == p.syncer
    ensures Holds(v.(queued := v.queued[v.first..], flags := v.flags[v.first..],
                     mark := if v.mark == -1 then -1 else v.mark - v.first, first := 0), Next(p, Finish))
  {
    hide FilesOk, LsnsOk, Bytes, DualOk, BoundsOk, QueuedFlags, MarksOk, Later;
    FilesBounds(p);
    ShapeOf(p);
    BytesTake(p.log[p.flushed..], p.flusher.n);
    assert p.log[p.flushed..][p.flusher.n..] == p.log[p.flushed + p.flusher.n..];
    SameLater(p, AfterFinish(p));
    FlagsDrop(p, AfterFinish(p));
  }

  lemma FlagsDrop(p: Pipe, q: Pipe)
    requires MarksOk(p) && MarksOk(q) && SameLog(p, q) && p.flushed <= q.flushed <= |p.log|
    ensures QueuedFlags(q) == QueuedFlags(p)[q.flushed - p.flushed..]
  {
    forall i | 0 <= i < |QueuedFlags(q)|
      ensures QueuedFlags(q)[i] == QueuedFlags(p)[q.flushed - p.flushed + i]
    {
      FlagsAt(q, i);
      FlagsAt(p, q.flushed - p.flushed + i);
    }
  }

  lemma IdleFirst(v: State, p: Pipe)
    requires Holds(v, p) && p.flusher.Idle?
    ensures v.first == 0
  {}

  lemma ChooseEnabled(v: State, p: Pipe, n: nat, dual: bool)
    requires Inv(p) && Holds(v, p) && p.flusher.Idle? && n <= |v.flags| && (n > 0 ==> v.flags[..n] == Repeat(dual, n)) && (n == 0 ==> !dual)
    requires v.mark > 0 ==> n <= v.mark
    requires (v.mark == 0 || n > 0) && p.flushed + n in p.bounds
    ensures MarksOk(p) && CanChoose(p, n, dual) && (v.mark == 0 <==> SwitchAhead(p) && p.flushed == p.marks[p.cur + 1])
  {
    hide FilesOk, LsnsOk, Bytes, Repeat, BoundsOk, QueuedFlags, MarksOk, DualOk, FlusherOk, Flagged;
    FilesBounds(p);
    HoldsShape(v, p);
    ShapeOf(p);
    FlaggedHere(p, n, dual);
  }

  lemma ChosenHolds(v: State, p: Pipe, n: nat, dual: bool)
    requires Holds(v, p) && p.flusher.Idle? && CanChoose(p, n, dual) && (v.mark == 0 <==> SwitchAhead(p) && p.flushed == p.marks[p.cur + 1])
    ensures var q := AfterChoose(p, n, dual);
            && RegsOf(q) == RegsOf(p).(flusher := if v.mark == 0 then Chosen(n, dual, v.dwSize) else Ready(n, dual))
            && Holds(if v.mark == 0 then v.(dwSize := 0, mark := -1, first := n) else v.(first := n), q) && Beside(p, q)
  {
    hide Bytes, QueuedFlags, Later, Flagged;
    var q := AfterChoose(p, n, dual);
    SameLater(p, q);
    FlagsSame(p, q);
  }

  /** A request whose bytes share one flag is a run that the protocol may choose. */
  lemma ChooseHolds(v: State, p: Pipe, n: nat, dual: bool)
    requires Inv(p) && Holds(v, p) && p.flusher.Idle? && n <= |v.flags| && (n > 0 ==> v.flags[..n] == Repeat(dual, n)) && (n == 0 ==> !dual)
    requires v.mark > 0 ==> n <= v.mark
    requires (v.mark == 0 || n > 0) && p.flushed + n in p.bounds
    ensures Enabled(p, Choose(n, dual))
    ensures var q := Next(p, Choose(n, dual));
            && RegsOf(q) == RegsOf(p).(flusher := if v.mark == 0 then Chosen(n, dual, v.dwSize) else Ready(n, dual))
            && Holds(if v.mark == 0 then v.(dwSize := 0, mark := -1, first := n) else v.(first := n), q) && Beside(p, q)
  {
    hide Inv, Holds, MarksOk, CanChoose, AfterChoose, RegsOf, Beside, Repeat;
    ChooseEnabled(v, p, n, dual);
    ChosenHolds(v, p, n, dual);
  }

  lemma FlaggedHere(p: Pipe, n: nat, dual: bool)
    requires MarksOk(p) && p.flushed + n <= |p.log| && (n > 0 ==> QueuedFlags(p)[..n] == Repeat(dual, n))
    ensures Flagged(p, n, dual)
  {
    hide Flag;
    forall k: nat | p.flushed <= k < p.flushed + n
      ensures Flag(p, k) == dual
    {
      FlagsAt(p, k - p.flushed);
      assert QueuedFlags(p)[..n][k - p.flushed] == Repeat(dual, n)[k - p.flushed];
    }
  }

  lemma ViewMark(b: Buffer)
    requires b.Valid()
    ensures b.View().mark == -1 <==> b.mark == -1
    ensures b.View().dwSize == b.dwSize && (b.flushing <==> b.View().first > 0)
    ensures |b.View().queued| == |b.View().flags|
  {
    if b.flushing { SomeFirst(b); }
  }

  lemma SomeFirst(b: Buffer)
    requires b.Valid() && b.flushing
    ensures b.q.slots[0].nflush > 0
  {}

  lemma StartHolds(init: seq<Byte>)
    ensures var p := Start(init);
            Run([p], []) && Inv(p) && SyncInv(p) && MarksOk(p) && Holds(State([], [], 0, -1, 0), p) && EndsIn([EMPTY], p)
  {
    hide Inv, SyncInv;
    StartOk(init);
    InvMarks(Start(init));
  }

  lemma SucceedHolds(v: State, p: Pipe)
    requires Inv(p) && Holds(v, p) && p.scanning
    ensures v.mark == -1 && v.dwSize == p.dwSize && Enabled(p, Succeed)
    ensures var q := Next(p, Succeed);
            && RegsOf(q) == RegsOf(p).(writeLsn := Lsn(p.writeLsn.filenum + 1, p.dwSize))
            && Beside(p, q) && Holds(v.(mark := |v.queued|), q) && |p.log| in p.bounds
  {
    hide FilesOk, LsnsOk, Bytes, Dual, Base, Uniform, QueuedFlags, Later;
    FilesBounds(p);
    var q := AfterSucceed(p);
    SucceedLater(p);
    LaterShape(p, q);
    FlagsSame(p, q);
  }

  lemma FailHolds(v: State, s: seq<Freq>, p: Pipe)
    requires Inv(p) && Holds(v, p) && p.scanning && EndsIn(s, p)
    ensures Enabled(p, FailDual)
    ensures var q := Next(p, FailDual);
            && RegsOf(q) == RegsOf(p) && Beside(p, q) && Holds(v.(dwSize := 0, flags := Repeat(false, |v.flags|)), q) && EndsIn(Single(s), q)
  {
    hide FilesOk, LsnsOk, Bytes, Dual, Base, Uniform, QueuedFlags, Later, EndsIn, Single, Repeat;
    FilesBounds(p);
    var q := AfterFail(p);
    FailLater(p);
    LaterShape(p, q);
    FlagsClear(q);
    EndsCleared(s, p);
    EndsSame(Single(s), p, q);
  }

  lemma CloseHolds(v: State, s: seq<Freq>, p: Pipe)
    requires Inv(p) && Holds(v, p) && Doomed(p) && p.syncer.Resting? && EndsIn(s, p)
    ensures MarksOk(p) && Enabled(p, CloseNext)
    ensures var q := Next(p, CloseNext);
            && p.cur + 1 < |p.files| && RegsOf(q) == RegsOf(p).(files := p.files[..p.cur + 1], log := RegsOf(p).log.(nextFd := -1))
            && Beside(p, q) && Holds(v, q) && EndsIn(s, q)
  {
    hide FilesOk, LsnsOk, Bytes, Dual, Base, Uniform, QueuedFlags, EndsIn;
    FilesBounds(p);
    var q := AfterClose(p);
    var m := p.starts[p.cur + 1];
    forall k: nat | p.flushed <= k < |p.log|
      ensures Flag(q, k) == Flag(p, k)
    {
      if m <= k { DualEmpty(p.log[m..|p.log|], k - m); }
    }
    FlagsSame(p, q);
    EndsSame(s, p, q);
  }

  lemma OpenHolds(v: State, s: seq<Freq>, p: Pipe)
    requires Inv(p) && Holds(v, p) && CanOpen(p) && EndsIn(s, p)
    ensures MarksOk(p) && Enabled(p, OpenNext)
    ensures var q := Next(p, OpenNext);
            && RegsOf(q) == RegsOf(p).(files := p.files + [File([], 0)], log := RegsOf(p).log.(nextFd := |p.files|))
            && Beside(p, q) && Holds(v, q) && EndsIn(s, q)
  {
    hide FilesOk, LsnsOk, Bytes, Dual, Base, Uniform, QueuedFlags, Later, EndsIn;
    FilesBounds(p);
    var q := AfterOpen(p);
    OpenLater(p);
    LaterShape(p, q);
    FlagsSame(p, q);
    EndsSame(s, p, q);
  }

  lemma WriteHolds(v: State, p: Pipe, rec: seq<Byte>, dual: bool, cuts: set<nat>)
    requires Inv(p) && Holds(v, p) && rec != [] && (dual ==> p.scanning) && forall c | c in cuts :: |p.log| < c < |p.log| + |rec|
    ensures |p.log| in p.bounds && Enabled(p, Write(rec, dual, cuts)) && Next(p, Write(rec, dual, cuts)) == AfterWrite(p, rec, dual, cuts)
    ensures var q := Next(p, Write(rec, dual, cuts));
            && RegsOf(q) == RegsOf(p).(writeLsn := p.writeLsn.(roffset := p.writeLsn.roffset + |rec|)) && Beside(p, q)
            && Holds(v.(queued := v.queued + rec, flags := v.flags + Repeat(dual, |rec|), dwSize := v.dwSize + if dual then |rec| else 0), q)
  {
    hide FilesOk, LsnsOk, FlusherOk, Dual, Twice, BaseOffset, QueuedFlags, Later;
    FilesBounds(p);
    var q := AfterWrite(p, rec, dual, cuts);
    assert q.log[q.flushed..] == p.log[p.flushed..] + Tag(rec, dual);
    WriteLater(p, rec, dual, cuts);
    LaterShape(p, q);
    FlagsMore(p, q, rec, dual);
  }

  lemma FlagsMore(p: Pipe, q: Pipe, rec: seq<Byte>, dual: bool)
    requires MarksOk(p) && MarksOk(q) && p.flushed == q.flushed <= |p.log| && q.log == p.log + Tag(rec, dual)
    requires q.cur == p.cur && q.files == p.files && q.starts == p.starts && (dual ==> NextOpen(p))
    ensures QueuedFlags(q) == QueuedFlags(p) + Repeat(dual, |rec|)
  {
    forall i | 0 <= i < |QueuedFlags(q)|
      ensures QueuedFlags(q)[i] == (QueuedFlags(p) + Repeat(dual, |rec|))[i]
    {
      FlagsAt(q, i);
      if i < |p.log| - p.flushed { FlagsAt(p, i); }
    }
  }
}
