/** The writers that wait for their log records to reach the disk (engines/default/cmdlogmgr.c). */
module GroupCommit {
  import opened Octets
  import opened LogRing
  import opened LogBuffer
  import opened LogFiles
  import opened LogSync
  import opened LogRuns
  import opened CommandLog

  /** A waiting writer and the LSN of its last record. */
  datatype Waiter = Waiter(cookie: nat, lsn: Lsn)

  /** A waiter's LSN is that of a record logged at step `i` of the run. */
  predicate FromRun(ps: seq<Pipe>, es: seq<LogEvent>, w: Waiter, i: nat) {
    i < |es| && |ps| == |es| + 1 && es[i].Write? && w.lsn == ps[i].writeLsn
  }

  class WaitList {
    var waiters: seq<Waiter>
    var waitCnt: nat

    ghost predicate Valid()
      reads this
    {
      waitCnt == |waiters|
    }

    constructor ()
      ensures Valid() && waiters == []
    {
      waiters, waitCnt := [], 0;
    }

    /** cmdlog_waiter_end: the writer must wait exactly when its record is not known to be on disk. */
    method EndWaiter(w: Waiter, fsyncLsn: Lsn) returns (wouldBlock: bool)
      requires Valid()
      modifies this
      ensures Valid() && (wouldBlock <==> !LsnLess(w.lsn, fsyncLsn))
      ensures waiters == old(waiters) + if wouldBlock then [w] else []
    {
      wouldBlock := !LsnLess(w.lsn, fsyncLsn);
      if wouldBlock {
        waiters := waiters + [w];
        waitCnt := waitCnt + 1;
      }
    }

    /** do_cmdlog_get_commit_waiter: unlink the waiters at the front whose records are on disk. */
    method Release(fsyncLsn: Lsn) returns (done: seq<Waiter>)
      requires Valid()
      modifies this
      ensures Valid() && done + waiters == old(waiters)
      ensures forall w | w in done :: LsnLess(w.lsn, fsyncLsn)
      ensures waiters == [] || !LsnLess(waiters[0].lsn, fsyncLsn)
    {
      var now := 0;
      while now < |waiters| && LsnLess(waiters[now].lsn, fsyncLsn)
        invariant waiters == old(waiters) && Valid() && now <= |waiters|
        invariant forall k | 0 <= k < now :: LsnLess(waiters[k].lsn, fsyncLsn)
      {
        now := now + 1;
      }
      done := waiters[..now];
      waiters := waiters[now..];
      waitCnt := waitCnt - now;
    }
  }

  /**
   * What a writer may count on that logged its last record at step `i`: all
   * that was logged before is on disk, and the record itself unless a flush
   * request cuts it.
   */
  ghost predicate Safe(ps: seq<Pipe>, es: seq<LogEvent>, i: nat) {
    && |ps| == |es| + 1 && i < |es| && es[i].Write?
    && var p, end := ps[|es|], |ps[i].log| + |es[i].rec|;
    && Inv(p) && MarksOk(p) && ps[i].log <= p.log && |ps[i].log| < p.fsyncPos <= |p.log| && Durable(p, p.fsyncPos)
    && (p.fsyncPos in es[i].cuts || end <= p.fsyncPos)
  }

  lemma LsnLeThrough(a: Lsn, b: Lsn, c: Lsn)
    requires LsnLe(a, b) && LsnLe(b, c)
    ensures LsnLe(a, c)
  {}

  /** The fsync LSN never goes back in a run. */
  lemma {:induction false} FsyncGrows(ps: seq<Pipe>, es: seq<LogEvent>, j: nat, k: nat)
    requires Run(ps, es) && j <= k < |ps|
    ensures LsnLe(ps[j].fsyncLsn, ps[k].fsyncLsn)
    decreases k
  {
    hide Inv, SyncInv, Next, Enabled, Start, MarksOk, LsnLe;
    if j < k {
      FsyncGrows(ps, es, j, k - 1);
      RunKeeps(ps, es, k - 1);
      LsnsMonotone(ps[k - 1], es[k - 1]);
      LsnLeThrough(ps[j].fsyncLsn, ps[k - 1].fsyncLsn, ps[k].fsyncLsn);
    } else {
      LsnLeSame(ps[j].fsyncLsn);
    }
  }

  lemma LsnLeSame(a: Lsn)
    ensures LsnLe(a, a)
  {}

  /** Whoever is told on the strength of an fsync LSN read at step `j` may count on it ever after. */
  lemma ToldSafe(ps: seq<Pipe>, es: seq<LogEvent>, w: Waiter, i: nat, j: nat)
    requires Run(ps, es) && FromRun(ps, es, w, i) && j < |ps| && LsnLess(w.lsn, ps[j].fsyncLsn)
    ensures Safe(ps, es, i)
  {
    hide Inv, Next, Enabled, Start, MarksOk, Durable;
    FsyncGrows(ps, es, j, |es|);
    NotifiedDurable(ps, es, i, |es|);
    InvMarks(ps[|es|]);
  }

  /** A run that goes on keeps where the waiters come from. */
  lemma FromRunKept(ps: seq<Pipe>, es: seq<LogEvent>, qs: seq<Pipe>, fs: seq<LogEvent>, w: Waiter, i: nat)
    requires FromRun(ps, es, w, i) && ps <= qs && es <= fs && |qs| == |fs| + 1
    ensures FromRun(qs, fs, w, i)
  {}

  /** Every waiter logged its last record in the run. */
  predicate AllFromRun(ps: seq<Pipe>, es: seq<LogEvent>, ws: seq<Waiter>, from: seq<nat>) {
    |from| == |ws| && forall k | 0 <= k < |ws| :: FromRun(ps, es, ws[k], from[k])
  }

  lemma AllKept(ps: seq<Pipe>, es: seq<LogEvent>, qs: seq<Pipe>, fs: seq<LogEvent>, ws: seq<Waiter>, from: seq<nat>)
    requires AllFromRun(ps, es, ws, from) && ps <= qs && es <= fs && |qs| == |fs| + 1
    ensures AllFromRun(qs, fs, ws, from)
  {
    forall k | 0 <= k < |ws|
      ensures FromRun(qs, fs, ws[k], from[k])
    {
      FromRunKept(ps, es, qs, fs, ws[k], from[k]);
    }
  }

  /** The command log, the list of waiting writers and the thread that releases them. */
  class Committer {
    const log: Log
    const list: WaitList
    /** The fsync LSN as the group commit thread last read it, and the state of the log that it is from. */
    var now: Lsn
    ghost var seen: nat
    /** For each waiter, the step that logged its record. */
    ghost var from: seq<nat>

    ghost function Repr(): set<object>
      reads this, log, log.buf
    {
      {this, list} + log.Repr()
    }

    ghost predicate Valid()
      reads Repr()
    {
      && this !in log.Repr() && list !in log.Repr() && log.Valid() && list.Valid()
      && seen < |log.pipes| && now == log.pipes[seen].fsyncLsn
      && AllFromRun(log.pipes, log.events, list.waiters, from)
    }

    constructor (size: nat, maxRec: nat, init: seq<Byte>)
      requires size >= 32
      ensures Valid() && fresh(Repr()) && list.waiters == [] && log.Now() == Start(init) && log.events == []
    {
      hide Run, Log.Valid;
      log := new Log(size, maxRec, init);
      list := new WaitList();
      now, seen, from := Lsn(1, 0), 0, [];
      new;
      LogShape(log);
      assert log.pipes[0] == log.Now();
    }

    /** The log may take any steps in between, by whatever thread: the waiters' records stay where they are. */
    twostate lemma Meanwhile()
      requires old(Valid()) && log.Valid() && this !in log.Repr() && list !in log.Repr()
      requires old(log.pipes) <= log.pipes && old(log.events) <= log.events
      requires unchanged(this) && unchanged(list)
      ensures Valid()
    {
      hide Run, Log.Valid;
      LogShape(log);
      AllKept(old(log.pipes), old(log.events), log.pipes, log.events, list.waiters, from);
    }

    /** A writer logs a record and remembers its LSN, unless the ring of flush requests runs over. */
    method Record(cookie: nat, rec: seq<Byte>, dual: bool) returns (full: bool, w: Waiter, ghost i: nat, ghost turns: nat)
      requires Valid() && log.flusher.Idle? && 0 < |rec| <= log.buf.maxRec && (dual ==> log.Now().scanning)
      requires 2 * log.buf.maxRec + AUTO <= log.buf.ring.data.Length
      modifies Repr()
      ensures !full ==> Valid() && list.waiters == old(list.waiters) && from == old(from)
      ensures !full ==> FromRun(log.pipes, log.events, w, i) && log.events[i].rec == rec && log.events[i].dual == dual && w.cookie == cookie
      ensures !full ==> w.lsn == old(log.writeLsn) && log.Now().log == old(log.Now()).log + Tag(rec, dual)
      ensures var s := old(log.buf.Standing());
              && s.slots != [] && s.Tries(|rec|, dual, turns)
              && var at := s.After(|rec|, turns);
              && (full <==> at.RunsOver(|rec|, dual)) && (!full ==> at.RoomFor(|rec|))
              && (full ==> log.Now().log == old(log.Now()).log && Stands(at, log.Now()))
      ensures old(log.buf.RoomFor(|rec|)) || old(log.buf.RunsOver(|rec|, dual)) ==> turns == 0
      ensures |old(log.buf.q.slots)| + 1 + (AUTO - 1 + |rec|) / AUTO <= log.buf.q.fque.Length ==> !full
    {
      hide Run, Log.Valid, AllFromRun, Tag, Stands, Stand.After, Stand.Tries, Stand.RoomFor, Stand.RunsOver;
      ghost var ps, es := log.pipes, log.events;
      var lsn;
      ghost var cuts;
      full, lsn, cuts, turns := log.Write(rec, dual);
      w, i := Waiter(cookie, lsn), 0;
      if full { return; }
      LogShape(log);
      i := |log.events| - 1;
      AllKept(ps, es, log.pipes, log.events, list.waiters, from);
    }

    /** At the end of its command the writer waits, or its record is on disk. */
    method EndWaiter(w: Waiter, ghost i: nat) returns (wouldBlock: bool)
      requires Valid() && FromRun(log.pipes, log.events, w, i)
      modifies this, list
      ensures Valid() && list.waiters == old(list.waiters) + if wouldBlock then [w] else []
      ensures !wouldBlock ==> Safe(log.pipes, log.events, i)
    {
      hide Run, Log.Valid, Safe;
      LogShape(log);
      wouldBlock := list.EndWaiter(w, log.fsyncLsn);
      if wouldBlock {
        from := from + [i];
      } else {
        ToldSafe(log.pipes, log.events, w, i, |log.events|);
      }
    }

    /** cmdlog_file_sync, run to its end: the fsync LSN reaches at least the flush LSN read at its beginning. */
    method Sync()
      requires Valid() && log.syncer.Resting?
      modifies Repr()
      ensures Valid() && log.syncer.Resting? && LsnLe(old(log.flushLsn), log.fsyncLsn)
      ensures list.waiters == old(list.waiters) && from == old(from) && old(log.pipes) <= log.pipes && old(log.events) <= log.events
    {
      hide Run, Log.Valid, Next, Enabled, MarksOk, AllFromRun, LsnLess, LsnLe, Steps;
      ghost var ps, es := log.pipes, log.events;
      LogState(log);
      ghost var p0 := log.Now();
      log.ReadLsn();
      ghost var p1 := log.Now();
      ReadLsnStep(p0, p1);
      LogState(log);
      log.ReadFds();
      ghost var p2 := log.Now();
      ReadFdsStep(p1, p2);
      LogState(log);
      var more := log.SyncPrev();
      ghost var p3 := log.Now();
      SyncPrevStep(p2, p3);
      LogState(log);
      if more {
        log.SyncCur();
        ghost var p4 := log.Now();
        SyncCurStep(p3, p4);
        LogState(log);
        log.SyncNext();
        ghost var p5 := log.Now();
        SyncNextStep(p4, p5);
        LogState(log);
        log.EndSync();
        EndSyncStep(p5, log.Now());
        LogState(log);
      }
      LogShape(log);
      AllKept(ps, es, log.pipes, log.events, list.waiters, from);
    }

    /** The group commit thread reads the fsync LSN ... */
    method ReadFsync()
      requires Valid()
      modifies this
      ensures Valid() && now == log.fsyncLsn && list.waiters == old(list.waiters) && from == old(from)
    {
      hide Run, Log.Valid;
      LogShape(log);
      now, seen := log.fsyncLsn, |log.events|;
    }

    /** ... and, later, releases the waiters below it, each of whose records is on disk. */
    method Release() returns (done: seq<Waiter>, ghost steps: seq<nat>)
      requires Valid()
      modifies this, list
      ensures Valid() && done + list.waiters == old(list.waiters) && AllFromRun(log.pipes, log.events, done, steps)
      ensures forall k | 0 <= k < |steps| :: Safe(log.pipes, log.events, steps[k])
      ensures now == old(now) && (list.waiters == [] || !LsnLess(list.waiters[0].lsn, now))
    {
      hide Run, Log.Valid, Safe;
      LogShape(log);
      ghost var all := list.waiters;
      done := list.Release(now);
      var n := |done|;
      assert forall k | 0 <= k < n :: done[k] == all[k];
      assert forall k | 0 <= k < |list.waiters| :: list.waiters[k] == all[n + k];
      steps, from := from[..n], from[n..];
      forall k | 0 <= k < |steps|
        ensures Safe(log.pipes, log.events, steps[k])
      {
        assert done[k] in done;
        ToldSafe(log.pipes, log.events, done[k], steps[k], seen);
      }
    }

    /**
     * One turn of the group commit thread: everyone released may count on it,
     * and the first who still waits had not been flushed when the turn began.
     */
    method Commit() returns (done: seq<Waiter>, ghost steps: seq<nat>)
      requires Valid() && log.syncer.Resting?
      modifies Repr()
      ensures Valid() && done + list.waiters == old(list.waiters) && AllFromRun(log.pipes, log.events, done, steps)
      ensures forall k | 0 <= k < |steps| :: Safe(log.pipes, log.events, steps[k])
      ensures list.waiters == [] || !LsnLess(list.waiters[0].lsn, old(log.flushLsn))
    {
      hide Run, Log.Valid, Safe, AllFromRun;
      Sync();
      ReadFsync();
      done, steps := Release();
    }
  }

  lemma LogState(log: Log)
    requires log.Valid()
    ensures log.syncer == log.Now().syncer && log.flushLsn == log.Now().flushLsn && log.fsyncLsn == log.Now().fsyncLsn
  {
    hide Inv, SyncInv, MarksOk, Holds, Buffer.Valid, EndsIn, Run;
  }

  lemma ReadLsnStep(p: Pipe, q: Pipe)
    requires Steps(p, ReadLsn, q)
    ensures q.syncer.HasLsn? && q.syncer.now == p.flushLsn && q.fsyncLsn == p.fsyncLsn
  {}

  lemma ReadFdsStep(p: Pipe, q: Pipe)
    requires Steps(p, ReadFds, q) && p.syncer.HasLsn?
    ensures q.syncer.HasFds? && q.syncer.now == p.syncer.now && q.fsyncLsn == p.fsyncLsn
  {}

  lemma SyncPrevStep(p: Pipe, q: Pipe)
    requires Steps(p, SyncPrev, q) && p.syncer.HasFds?
    ensures q.fsyncLsn == p.fsyncLsn
    ensures if q.syncer.Resting? then LsnLe(p.syncer.now, p.fsyncLsn) else q.syncer.PrevSynced? && q.syncer.now == p.syncer.now
  {}

  lemma SyncCurStep(p: Pipe, q: Pipe)
    requires Steps(p, SyncCur, q) && p.syncer.PrevSynced?
    ensures q.syncer.CurSynced? && q.syncer.now == p.syncer.now
  {}

  lemma SyncNextStep(p: Pipe, q: Pipe)
    requires Steps(p, SyncNext, q) && p.syncer.CurSynced?
    ensures q.syncer.AllSynced? && q.syncer.now == p.syncer.now
  {}

  lemma EndSyncStep(p: Pipe, q: Pipe)
    requires Steps(p, EndSync, q) && p.syncer.AllSynced?
    ensures q.syncer.Resting? && q.fsyncLsn == p.syncer.now && LsnLe(p.syncer.now, q.fsyncLsn)
  {}

  lemma LogShape(log: Log)
    requires log.Valid()
    ensures Run(log.pipes, log.events) && |log.pipes| == |log.events| + 1 && log.fsyncLsn == log.pipes[|log.events|].fsyncLsn
    ensures log.Now() == log.pipes[|log.events|]
  {
    hide Inv, SyncInv, MarksOk, Holds, Buffer.Valid, EndsIn;
  }
}
