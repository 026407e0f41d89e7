/**
 * A server from its start to a crash, with its cache, its checkpoints and its
 * log in one run, and the restart after it (engines/default/checkpoint.c,
 * chkpt_snapshot.c, cmdlogmgr.c).
 */
module Lifetime {
  import opened Options
  import opened Octets
  import T = AssocTable
  import A = AssocRuns
  import opened LogFiles
  import opened LogSync
  import opened LogRuns
  import C = Checkpoint
  import R = Recovery
  import opened CrashLog
  import opened Crash

  /** What the cache holds for a key. */
  ghost function Live(ck: C.Ck, k: string): Option<C.Val>
    requires C.Linked(ck)
  {
    if k in ck.tb.live then Some(ck.store[ck.tb.live[k]].val) else None
  }

  /** The update that an operation on the cache logs. */
  ghost function Record(e: C.CkEvent): Option<C.Rec> {
    match e
    case LinkItem(k, _, val) => Some(C.Link(k, val))
    case ReplaceItem(k, _, val) => Some(C.Link(k, val))
    case UnlinkItem(k) => Some(C.Unlink(k))
    case ChangeItem(r) => Some(r)
    case _ => None
  }

  /** Redoing the record of an operation does to the cache what the operation did. */
  lemma RedoIsOperation(ck: C.Ck, e: C.CkEvent, ck': C.Ck, k: string)
    requires C.Inv(ck) && C.CkStep(ck, e, ck')
    ensures C.Linked(ck')
    ensures Live(ck', k) == if Record(e).Some? then C.Redo(Live(ck, k), Record(e).value, k) else Live(ck, k)
  {
    hide C.Recovered, T.Wf, A.Step, T.Passed, C.Covered, C.Logged, C.Pending, C.Grabs;
    C.StepKeeps(ck, e, ck');
    match e
    case LinkItem(key, id, _) => C.LinkCall(ck.tb, key, id, ck'.tb, ck.scan);
    case ReplaceItem(key, id, _) => C.LinkCall(ck.tb, key, id, ck'.tb, ck.scan);
    case UnlinkItem(key) => C.UnlinkCall(ck.tb, key, ck'.tb, ck.scan);
    case GrabNext(out) => C.GrabCall(ck.tb, ck.scan, out, ck'.tb);
    case Other(call) => C.OtherCall(ck.tb, call, ck'.tb, ck.scan);
    case _ =>
  }

  lemma {:induction false} LiveKept(st: seq<C.Ck>, ev: seq<C.CkEvent>, i: nat, j: nat, k: string)
    requires C.CkRun(st, ev) && C.Started(st[0]) && i <= j <= |ev|
    requires forall e | i <= e < j && Record(ev[e]).Some? :: Record(ev[e]).value.key != k
    ensures C.Linked(st[i]) && C.Linked(st[j]) && Live(st[j], k) == Live(st[i], k)
    decreases j
  {
    hide C.CkStep, C.Started, C.Inv, Live, Record;
    C.RunKeeps(st, ev, i);
    InvLinked(st[i]);
    if i < j {
      LiveKept(st, ev, i, j - 1, k);
      C.RunKeeps(st, ev, j - 1);
      RedoIsOperation(st[j - 1], ev[j - 1], st[j], k);
    }
  }

  /**
   * After a checkpoint, recovery shows the last change of an item: the fields
   * that it names have what it says, the others what they had before it.
   */
  lemma ChangeRecovered(st: seq<C.Ck>, ev: seq<C.CkEvent>, j: nat)
    requires C.CkRun(st, ev) && C.Started(st[0]) && C.Finished(st[|ev|]) && j < |ev| && ev[j].ChangeItem?
    requires forall e | j < e < |ev| && Record(ev[e]).Some? :: Record(ev[e]).value.key != ev[j].change.key
    ensures var r := ev[j].change; var ck := st[|ev|];
            && C.Linked(st[j]) && Live(st[j], r.key).Some?
            && var o := C.Replay(C.Replay(None, ck.snap, r.key), ck.dual, r.key);
            o.Some? && C.Sets(r, Live(st[j], r.key).value, o.value)
  {
    hide C.Replay, C.Redo, C.Started, C.Inv, C.Finished, T.Wf, T.Passed, A.Step, C.Sets;
    var r := ev[j].change;
    LiveKept(st, ev, j + 1, |ev|, r.key);
    C.RunKeeps(st, ev, j);
    InvLinked(st[j]);
    RedoIsOperation(st[j], ev[j], st[j + 1], r.key);
    C.RedoSets(r, Live(st[j], r.key).value);
    C.CheckpointExact(st, ev, r.key);
  }

  /** What the operation gives the next log file: its record, or nothing. */
  lemma DualStep(ck: C.Ck, e: C.CkEvent, ck': C.Ck)
    requires C.CkStep(ck, e, ck')
    ensures ck'.dual == ck.dual || (Record(e).Some? && ck'.dual == ck.dual + [Record(e).value])
  {
    hide C.Recovered, T.Wf, A.Step, T.Passed, C.Covered, C.Pending, C.Grabs;
  }

  /**
   * All that happened since the start: the states and steps of the log, the
   * updates, the finished snapshot of each log file, and the checkpoint under way.
   */
  datatype Server = Server(ps: seq<Pipe>, es: seq<LogEvent>, us: seq<Entry>, snaps: seq<seq<C.Rec>>, scan: Option<C.Ck>)

  datatype Deed =
    | Log(step: LogEvent)
    | Update(rec: C.Rec, cuts: set<nat>)
    | Mark(note: Note, cuts: set<nat>)
    | Open(ck: C.Ck)
    | Scan(work: C.CkEvent, ck: C.Ck)
    | Operate(op: C.CkEvent, ck: C.Ck, cuts: set<nat>)
    | Close(ok: bool)

  /** The log can take this step. */
  predicate Can(s: Server, e: LogEvent) {
    |s.ps| == |s.es| + 1 && MarksOk(s.ps[|s.es|]) && Enabled(s.ps[|s.es|], e)
  }

  function Stepped(s: Server, e: LogEvent): Server
    requires Can(s, e)
  {
    s.(ps := s.ps + [Next(s.ps[|s.es|], e)], es := s.es + [e])
  }

  /** The record of an update on its way to the log. */
  function Writing(cd: Codec, u: Entry, cuts: set<nat>): LogEvent
    requires R.RecOk(RecOf(cd, u))
  {
    Write(R.Encode(RecOf(cd, u)), u.dual, cuts)
  }

  /** Steps of the flusher and of the syncer, and the closing of a failed checkpoint's file. */
  predicate Quiet(e: LogEvent) { !e.Write? && !e.OpenNext? && !e.Succeed? && !e.FailDual? }

  /** The record is logged. */
  ghost predicate Logged(cd: Codec, s: Server, u: Entry, cuts: set<nat>, s': Server) {
    CodedOne(cd, u) && Follows(s.us, u) && Can(s, Writing(cd, u, cuts)) && s' == Stepped(s, Writing(cd, u, cuts)).(us := s.us + [u], scan := s'.scan)
  }

  /**
   * One step. While a checkpoint scans, an operation changes the cache and its
   * record is written twice exactly if the checkpoint's rules say so; markers
   * are. A range holds the cache lock and consists of element deletions: no
   * scan is opened, moved on or closed inside it, but records are dumped.
   */
  ghost predicate Step(cd: Codec, start: string -> Option<C.Val>, s: Server, d: Deed, s': Server) {
    match d
    case Log(e) => Quiet(e) && Can(s, e) && s' == Stepped(s, e)
    case Update(rec, cuts) => s.scan.None? && s'.scan.None? && Logged(cd, s, Entry(Change(rec), false), cuts, s')
    case Mark(note, cuts) => !note.Change? && s'.scan == s.scan && Logged(cd, s, Entry(note, s.scan.Some?), cuts, s')
    case Open(ck) =>
      && s.scan.None? && !Inside(s.us) && Can(s, OpenNext) && C.Started(ck) && (forall k :: Live(ck, k) == Cache(start, s.us, |s.us|, k))
      && s' == Stepped(s, OpenNext).(scan := Some(ck))
    case Scan(e, ck) =>
      && s.scan.Some? && Record(e).None? && (Inside(s.us) ==> e.Dump?) && C.CkStep(s.scan.value, e, ck) && s' == s.(scan := Some(ck))
    case Operate(e, ck, cuts) =>
      && s.scan.Some? && Record(e).Some? && (Inside(s.us) ==> e.ChangeItem? && e.change.Elem?)
      && C.CkStep(s.scan.value, e, ck) && s'.scan == Some(ck)
      && Logged(cd, s, Entry(Change(Record(e).value), |ck.dual| > |s.scan.value.dual|), cuts, s')
    case Close(ok) =>
      && s.scan.Some? && !Inside(s.us) && (ok ==> C.Finished(s.scan.value)) && Can(s, if ok then Succeed else FailDual)
      && s' == Stepped(s, if ok then Succeed else FailDual).(scan := None, snaps := if ok then s.snaps + [s.scan.value.snap] else s.snaps)
  }

  /** The server has recovered the snapshot `snap` and the records `prior` of its log file, which made the cache `start`. */
  ghost predicate Started(cd: Codec, prior: seq<Entry>, start: string -> Option<C.Val>, snap: seq<C.Rec>, s: Server) {
    && Coded(cd, prior) && Ranged(prior) && !Inside(prior) && Exact(snap, Updates(prior), start, [], 0)
    && s == Server([LogSync.Start(Bytes(Flat(cd, prior)))], [], [], [snap], None)
  }

  ghost predicate Life(cd: Codec, prior: seq<Entry>, start: string -> Option<C.Val>, ss: seq<Server>, ds: seq<Deed>) {
    && |ss| == |ds| + 1 && ss[0].snaps != [] && Started(cd, prior, start, ss[0].snaps[0], ss[0])
    && forall i | 0 <= i < |ds| :: Step(cd, start, ss[i], ds[i], ss[i + 1])
  }

  // What holds throughout.

  /** The checkpoint's view of the cache is the cache, and it has given the next file what was logged twice since it began. */
  ghost predicate Viewed(cd: Codec, start: string -> Option<C.Val>, p: Pipe, us: seq<Entry>, ck: C.Ck)
    requires Coded(cd, us) && MarksOk(p)
  {
    && C.Inv(ck) && (forall k :: Live(ck, k) == Cache(start, us, |us|, k)) && NextOpen(p) && !SwitchAhead(p)
    && (forall a: nat | StoodAt(cd, us, p.starts[p.cur + 1], a) ::
          ck.dual == Updates(Duals(us[a..])) && !Inside(us[..a]) && MarkersTwice(us[a..]))
  }

  /** Snapshot records, written and pending, and these log records make, of the part that the scan has passed, the cache after `b` records. */
  ghost predicate ViewAt(ck: C.Ck, rs: seq<C.Rec>, start: string -> Option<C.Val>, us: seq<Entry>, b: nat)
    requires C.Linked(ck) && b <= |us|
  {
    forall k :: C.Replay(C.Replay(None, ck.snap + C.Pending(ck.store, ck.grabbed), k), rs, k) ==
                if T.Passed(ck.tb, ck.scan, k) then Cache(start, us, b, k) else None
  }

  ghost predicate ViewUpTo(ck: C.Ck, start: string -> Option<C.Val>, us: seq<Entry>, a: nat, b: nat)
    requires C.Linked(ck) && b <= |us|
  {
    a <= b && ViewAt(ck, Updates(Duals(us[a..b])), start, us, b)
  }

  /** Inside a range, that holds with the records logged before the range. */
  ghost predicate ViewedBefore(cd: Codec, start: string -> Option<C.Val>, p: Pipe, us: seq<Entry>, ck: C.Ck)
    requires Coded(cd, us) && MarksOk(p) && Viewed(cd, start, p, us, ck)
  {
    Inside(us) ==> forall a: nat, b: nat | StoodAt(cd, us, p.starts[p.cur + 1], a) && LastOutside(us, b) :: ViewUpTo(ck, start, us, a, b)
  }

  ghost predicate Snapped(cd: Codec, prior: seq<Entry>, start: string -> Option<C.Val>, p: Pipe, us: seq<Entry>, snaps: seq<seq<C.Rec>>)
    requires Coded(cd, us) && MarksOk(p)
  {
    |snaps| == |p.marks| && forall f | 0 <= f < |snaps| :: Snapshot(cd, p, prior, us, start, f, snaps[f])
  }

  ghost predicate Ok(cd: Codec, prior: seq<Entry>, start: string -> Option<C.Val>, s: Server) {
    && Logging(cd, s.ps, s.es, prior, s.us)
    && var p := s.ps[|s.es|];
    && Snapped(cd, prior, start, p, s.us, s.snaps) && (s.scan.Some? <==> p.scanning)
    && (s.scan.Some? ==> Viewed(cd, start, p, s.us, s.scan.value) && ViewedBefore(cd, start, p, s.us, s.scan.value))
  }

  // The log keeps the updates.

  lemma LoggingStep(cd: Codec, ps: seq<Pipe>, es: seq<LogEvent>, prior: seq<Entry>, us: seq<Entry>, e: LogEvent)
    requires Logging(cd, ps, es, prior, us) && Enabled(ps[|es|], e) && !e.Write?
    ensures Logging(cd, ps + [Next(ps[|es|], e)], es + [e], prior, us)
  {
    hide Next, Enabled, LogSync.Start, MarksOk, Flat, CodedOne, Bytes, Inv, SyncInv, MarksAppended;
    RunSnoc(ps, es, e);
    assert (es + [e])[..|es|] == es;
    RunKeeps(ps, es, |es|);
    StepAppends(ps[|es|], e);
    AppendedLater(ps[|es|], Next(ps[|es|], e));
  }

  lemma LoggingWrite(cd: Codec, ps: seq<Pipe>, es: seq<LogEvent>, prior: seq<Entry>, us: seq<Entry>, u: Entry, cuts: set<nat>)
    requires Logging(cd, ps, es, prior, us) && CodedOne(cd, u) && Follows(us, u) && Enabled(ps[|es|], Writing(cd, u, cuts))
    ensures var e := Writing(cd, u, cuts); Logging(cd, ps + [Next(ps[|es|], e)], es + [e], prior, us + [u])
  {
    hide Next, Enabled, LogSync.Start, MarksOk, Flat, Bytes, Inv, SyncInv, MarksAppended, R.Encode, R.RecOk, R.Marker, Ranged, Inside, Follows, RecOf;
    var e := Writing(cd, u, cuts);
    RangedSnoc(us, u);
    RunSnoc(ps, es, e);
    assert (es + [e])[..|es|] == es && (us + [u])[..|us|] == us;
    RunKeeps(ps, es, |es|);
    StepAppends(ps[|es|], e);
    AppendedLater(ps[|es|], Next(ps[|es|], e));
  }

  /** Where the log stood before is not where it stands after one more update. */
  lemma StoodBefore(cd: Codec, us: seq<Entry>, more: seq<Entry>, pos: nat, i: nat)
    requires Coded(cd, us + more) && Coded(cd, us) && StoodAt(cd, us + more, pos, i) && pos <= |Flat(cd, us)|
    ensures i <= |us| && StoodAt(cd, us, pos, i)
  {
    hide Flat, Coded;
    assert (us + more)[..|us|] == us;
    if |us| < i { FlatGrows(cd, us + more, |us|, i); }
    assert (us + more)[..i] == us[..i];
  }

  lemma SnapshotKept(cd: Codec, prior: seq<Entry>, start: string -> Option<C.Val>, p: Pipe, us: seq<Entry>, q: Pipe, more: seq<Entry>, f: nat, snap: seq<C.Rec>)
    requires Coded(cd, us) && Coded(cd, us + more) && Later(p, q) && p.log == Flat(cd, us) && f < |p.marks|
    requires Snapshot(cd, p, prior, us, start, f, snap)
    ensures Snapshot(cd, q, prior, us + more, start, f, snap)
  {
    hide Flat, Exact, Coded, Duals, Inside, Updates;
    forall a: nat, m: nat, b: nat | During(cd, q, us + more, f, a, m) && LastOutside((us + more)[..m], b)
      ensures a <= b && b == m && (f > 0 ==> Undivided(us + more, a, m)) && Exact(snap, Updates(Front(prior, us + more, f, a, b)), start, us + more, b)
    {
      StoodBefore(cd, us, more, Ended(p, f), m);
      StoodBefore(cd, us, more, Began(p, f), a);
      assert During(cd, p, us, f, a, m);
      assert (us + more)[a..m] == us[a..m] && (us + more)[..a] == us[..a] && (us + more)[..m] == us[..m];
      assert LastOutside(us[..m], b);
      ExactKept(snap, Updates(Front(prior, us, f, a, m)), start, us, more, m);
    }
  }

  lemma ExactKept(snap: seq<C.Rec>, rs: seq<C.Rec>, start: string -> Option<C.Val>, us: seq<Entry>, more: seq<Entry>, m: nat)
    requires m <= |us| && Exact(snap, rs, start, us, m)
    ensures Exact(snap, rs, start, us + more, m)
  {
    hide C.Replay;
    assert (us + more)[..m] == us[..m];
  }

  lemma SnappedKept(cd: Codec, prior: seq<Entry>, start: string -> Option<C.Val>, p: Pipe, us: seq<Entry>, snaps: seq<seq<C.Rec>>, q: Pipe, more: seq<Entry>)
    requires Coded(cd, us) && Coded(cd, us + more) && Later(p, q) && p.log == Flat(cd, us) && |q.marks| == |p.marks|
    requires Snapped(cd, prior, start, p, us, snaps)
    ensures Snapped(cd, prior, start, q, us + more, snaps)
  {
    hide Flat, Coded, Snapshot;
    forall f | 0 <= f < |snaps|
      ensures Snapshot(cd, q, prior, us + more, start, f, snaps[f])
    {
      SnapshotKept(cd, prior, start, p, us, q, more, f, snaps[f]);
    }
  }

  // What the steps of the log do to the checkpoint under way.

  lemma QuietStep(p: Pipe, e: LogEvent)
    requires Inv(p) && Enabled(p, e) && Quiet(e)
    ensures var q := Next(p, e); q.scanning == p.scanning && q.log == p.log && |q.marks| == |p.marks|
    ensures var q := Next(p, e); p.scanning ==> q.cur == p.cur && q.starts == p.starts && |q.files| == |p.files|
  {
    hide Bytes, Dual, Flagged, Void, Chunk, LsnLess, Tag, FilesOk, LsnsOk, BoundsOk, Twice;
  }

  lemma WriteStep(p: Pipe, rec: seq<Byte>, dual: bool, cuts: set<nat>)
    requires MarksOk(p) && Enabled(p, Write(rec, dual, cuts))
    ensures var q := Next(p, Write(rec, dual, cuts));
            && q.scanning == p.scanning && |q.marks| == |p.marks| && q.cur == p.cur && q.starts == p.starts && |q.files| == |p.files|
            && (dual ==> p.scanning)
  {
    hide Tag;
  }

  lemma LogOk(cd: Codec, prior: seq<Entry>, start: string -> Option<C.Val>, s: Server, e: LogEvent)
    requires Ok(cd, prior, start, s) && Quiet(e) && Can(s, e)
    ensures Ok(cd, prior, start, Stepped(s, e))
  {
    hide Next, Enabled, LogSync.Start, Run, Logs, MarksOk, Flat, CodedOne, Inv, SyncInv, MarksAppended, Snapshot, Exact, C.Inv, Cache;
    var p, us := s.ps[|s.es|], s.us;
    LoggingStep(cd, s.ps, s.es, prior, us, e);
    LogNow(cd, s.ps, s.es, prior, us);
    StepLater(s.ps, s.es, e);
    QuietStep(p, e);
    assert us + [] == us;
    SnappedKept(cd, prior, start, p, us, s.snaps, Next(p, e), []);
  }

  lemma StepLater(ps: seq<Pipe>, es: seq<LogEvent>, e: LogEvent)
    requires Run(ps, es) && MarksOk(ps[|es|]) && Enabled(ps[|es|], e)
    ensures Later(ps[|es|], Next(ps[|es|], e))
  {
    hide Next, Enabled, LogSync.Start, MarksOk, Inv, SyncInv, MarksAppended;
    RunKeeps(ps, es, |es|);
    StepAppends(ps[|es|], e);
    AppendedLater(ps[|es|], Next(ps[|es|], e));
  }

  /** Logging an update keeps what does not depend on the checkpoint under way. */
  lemma LoggedOk(cd: Codec, prior: seq<Entry>, start: string -> Option<C.Val>, s: Server, u: Entry, cuts: set<nat>, s': Server)
    requires Ok(cd, prior, start, s) && Logged(cd, s, u, cuts, s')
    ensures Logging(cd, s'.ps, s'.es, prior, s'.us) && Snapped(cd, prior, start, s'.ps[|s'.es|], s'.us, s'.snaps)
    ensures var p, q := s.ps[|s.es|], s'.ps[|s'.es|];
            && q.scanning == p.scanning && |q.marks| == |p.marks| && q.cur == p.cur && q.starts == p.starts && |q.files| == |p.files|
            && p.log == Flat(cd, s.us)
  {
    hide Next, Enabled, LogSync.Start, Run, Logs, MarksOk, Flat, Inv, SyncInv, MarksAppended, Snapshot, Exact, Viewed, Cache, R.Encode, R.RecOk, R.Marker;
    var p, us, e := s.ps[|s.es|], s.us, Writing(cd, u, cuts);
    LoggingWrite(cd, s.ps, s.es, prior, us, u, cuts);
    LogNow(cd, s.ps, s.es, prior, us);
    StepLater(s.ps, s.es, e);
    WriteStep(p, e.rec, e.dual, cuts);
    SnappedKept(cd, prior, start, p, us, s.snaps, Next(p, e), [u]);
  }

  lemma UpdateOk(cd: Codec, prior: seq<Entry>, start: string -> Option<C.Val>, s: Server, rec: C.Rec, cuts: set<nat>, s': Server)
    requires Ok(cd, prior, start, s) && Step(cd, start, s, Update(rec, cuts), s')
    ensures Ok(cd, prior, start, s')
  {
    hide Logged, Logging, Snapped, Viewed;
    LoggedOk(cd, prior, start, s, Entry(Change(rec), false), cuts, s');
  }

  /** What one more record does to the cache. */
  function Noted(v: Option<C.Val>, u: Entry, k: string): Option<C.Val> {
    if u.note.Change? then C.Redo(v, u.note.rec, k) else v
  }

  lemma CacheSnoc(start: string -> Option<C.Val>, us: seq<Entry>, u: Entry, k: string)
    ensures Cache(start, us + [u], |us| + 1, k) == Noted(Cache(start, us, |us|, k), u, k)
  {
    hide C.Replay, C.Redo;
    assert (us + [u])[..|us| + 1] == us + [u] && us[..|us|] == us && (us + [u])[..|us|] == us;
    assert Updates(us + [u]) == if u.note.Change? then Updates(us) + [u.note.rec] else Updates(us);
    if u.note.Change? { C.ReplaySnoc(start(k), Updates(us), u.note.rec, k); }
  }

  /** What one more record adds to those written twice. */
  function Added(u: Entry): seq<C.Rec> { if u.dual && u.note.Change? then [u.note.rec] else [] }

  lemma DualsSnoc(us: seq<Entry>, u: Entry, a: nat)
    requires a <= |us|
    ensures Updates(Duals((us + [u])[a..])) == Updates(Duals(us[a..])) + Added(u)
    ensures (us + [u])[..a] == us[..a] && (MarkersTwice(us[a..]) && (u.note.Change? || u.dual) ==> MarkersTwice((us + [u])[a..]))
  {
    var ws := us[a..] + [u];
    assert (us + [u])[a..] == ws && ws[..|us| - a] == us[a..];
    var ds := Duals(us[a..]);
    assert Duals(ws) == if u.dual then ds + [u] else ds;
    assert (ds + [u])[..|ds|] == ds;
  }

  /** One more record during the checkpoint: its view follows, and the next file is given the record if it was written twice. */
  lemma ViewedMore(cd: Codec, start: string -> Option<C.Val>, p: Pipe, us: seq<Entry>, ck: C.Ck, u: Entry, ck': C.Ck, q: Pipe)
    requires Coded(cd, us) && Coded(cd, us + [u]) && MarksOk(p) && MarksOk(q) && Viewed(cd, start, p, us, ck)
    requires q.cur == p.cur && q.starts == p.starts && |q.files| == |p.files| && |q.marks| == |p.marks| && p.log == Flat(cd, us)
    requires C.Inv(ck') && (forall k :: Live(ck', k) == Noted(Live(ck, k), u, k))
    requires ck'.dual == ck.dual + Added(u) && (u.note.Change? || u.dual)
    ensures Viewed(cd, start, q, us + [u], ck')
    ensures !Inside(us + [u]) ==> ViewedBefore(cd, start, q, us + [u], ck')
  {
    hide MarksOk, Flat, Coded, C.Inv, Live, Cache, Duals, Updates, C.Linked, Noted, Added, Inside, MarkersTwice;
    InvLinked(ck');
    InvLinked(ck);
    forall k
      ensures Live(ck', k) == Cache(start, us + [u], |us + [u]|, k)
    {
      assert Live(ck, k) == Cache(start, us, |us|, k);
      CacheSnoc(start, us, u, k);
    }
    NextBegan(p);
    var pos := p.starts[p.cur + 1];
    forall a: nat | StoodAt(cd, us + [u], pos, a)
      ensures ck'.dual == Updates(Duals((us + [u])[a..])) && !Inside((us + [u])[..a]) && MarkersTwice((us + [u])[a..])
    {
      StoodBefore(cd, us, [u], pos, a);
      DualsSnoc(us, u, a);
    }
  }

  /** When a range begins, the records before it are all there are. */
  lemma BeginViewed(cd: Codec, start: string -> Option<C.Val>, p: Pipe, us: seq<Entry>, ck: C.Ck, u: Entry, q: Pipe)
    requires Coded(cd, us) && Coded(cd, us + [u]) && MarksOk(p) && MarksOk(q) && Viewed(cd, start, p, us, ck) && Viewed(cd, start, q, us + [u], ck)
    requires q.cur == p.cur && q.starts == p.starts && p.log == Flat(cd, us) && u.note.Begin? && !Inside(us)
    ensures ViewedBefore(cd, start, q, us + [u], ck)
  {
    hide MarksOk, Flat, Coded, C.Inv, Cache, Duals, Updates, C.Linked, Live, ViewAt, Inside;
    InvLinked(ck);
    NextBegan(p);
    RangedSnoc(us, u);
    assert (us + [u])[..|us|] == us && (us + [u])[..|us| + 1] == us + [u];
    forall a: nat, b: nat | StoodAt(cd, us + [u], q.starts[q.cur + 1], a) && LastOutside(us + [u], b)
      ensures ViewUpTo(ck, start, us + [u], a, b)
    {
      StoodBefore(cd, us, [u], p.starts[p.cur + 1], a);
      assert b == |us|;
      assert (us + [u])[a..b] == us[a..];
      NowView(ck, start, us, [u]);
    }
  }

  lemma MarkOk(cd: Codec, prior: seq<Entry>, start: string -> Option<C.Val>, s: Server, d: Deed, s': Server)
    requires Ok(cd, prior, start, s) && d.Mark? && Step(cd, start, s, d, s')
    ensures Ok(cd, prior, start, s')
  {
    hide Snapped, MarksOk, Next, Enabled, LogSync.Start, Run, Logs, Flat, CodedOne, R.Encode, R.RecOk, Inside, Ranged, Cache, Live, C.Inv, C.Linked,
         Viewed, ViewedBefore;
    var u, us := Entry(d.note, s.scan.Some?), s.us;
    LoggedOk(cd, prior, start, s, u, d.cuts, s');
    if s.scan.Some? {
      var ck, p, q := s.scan.value, s.ps[|s.es|], s'.ps[|s'.es|];
      ViewedInv(cd, start, p, us, ck);
      assert ck.dual + Added(u) == ck.dual;
      ViewedMore(cd, start, p, us, ck, u, ck, q);
      RangedSnoc(us, u);
      if u.note.Begin? { BeginViewed(cd, start, p, us, ck, u, q); }
    }
  }

  lemma ViewedInv(cd: Codec, start: string -> Option<C.Val>, p: Pipe, us: seq<Entry>, ck: C.Ck)
    requires Coded(cd, us) && MarksOk(p) && Viewed(cd, start, p, us, ck)
    ensures C.Inv(ck) && C.Linked(ck)
  {}

  lemma InvLinked(ck: C.Ck)
    requires C.Inv(ck)
    ensures C.Linked(ck)
  {}

  lemma NextBegan(p: Pipe)
    requires MarksOk(p) && NextOpen(p)
    ensures p.cur + 1 < |p.starts| && p.starts[p.cur + 1] <= |p.log|
  {}

  /** Changing elements does not change what is pending for the snapshot. */
  lemma ElemPending(ck: C.Ck, e: C.CkEvent, ck': C.Ck)
    requires C.Linked(ck) && C.Linked(ck') && C.CkStep(ck, e, ck') && e.ChangeItem? && e.change.Elem?
    ensures ck'.snap == ck.snap && ck'.tb == ck.tb && ck'.scan == ck.scan
    ensures C.Pending(ck'.store, ck'.grabbed) == C.Pending(ck.store, ck.grabbed)
  {
    hide T.Wf, T.Passed, A.Step;
  }

  lemma SameView(ck: C.Ck, ck': C.Ck, rs: seq<C.Rec>, start: string -> Option<C.Val>, us: seq<Entry>, more: seq<Entry>, b: nat)
    requires C.Linked(ck) && C.Linked(ck') && b <= |us| && ViewAt(ck, rs, start, us, b) && ck'.scan == ck.scan && ck'.tb == ck.tb
    requires ck'.snap + C.Pending(ck'.store, ck'.grabbed) == ck.snap + C.Pending(ck.store, ck.grabbed)
    ensures ViewAt(ck', rs, start, us + more, b)
  {
    hide C.Replay, T.Wf, T.Passed, C.Pending;
    assert (us + more)[..b] == us[..b];
  }

  /** Inside a range the view of what lies before it stays. */
  lemma InsideViewed(cd: Codec, start: string -> Option<C.Val>, p: Pipe, us: seq<Entry>, ck: C.Ck, more: seq<Entry>, ck': C.Ck, q: Pipe)
    requires Coded(cd, us) && Coded(cd, us + more) && MarksOk(p) && MarksOk(q) && Inside(us) && (forall i | |us| <= i <= |us + more| :: Inside((us + more)[..i]))
    requires Viewed(cd, start, p, us, ck) && ViewedBefore(cd, start, p, us, ck) && Viewed(cd, start, q, us + more, ck')
    requires q.cur == p.cur && q.starts == p.starts && p.log == Flat(cd, us) && C.Linked(ck) && C.Linked(ck') && ck'.scan == ck.scan && ck'.tb == ck.tb
    requires ck'.snap + C.Pending(ck'.store, ck'.grabbed) == ck.snap + C.Pending(ck.store, ck.grabbed)
    ensures ViewedBefore(cd, start, q, us + more, ck')
  {
    hide MarksOk, Flat, Coded, C.Inv, Cache, Duals, Updates, C.Linked, Live, ViewAt, Inside, C.Pending;
    NextBegan(p);
    forall a: nat, b: nat | StoodAt(cd, us + more, q.starts[q.cur + 1], a) && LastOutside(us + more, b)
      ensures ViewUpTo(ck', start, us + more, a, b)
    {
      StoodBefore(cd, us, more, p.starts[p.cur + 1], a);
      OutsideBefore(us, more, b);
      assert ViewUpTo(ck, start, us, a, b);
      assert (us + more)[a..b] == us[a..b];
      SameView(ck, ck', Updates(Duals(us[a..b])), start, us, more, b);
    }
  }

  lemma OutsideBefore(us: seq<Entry>, more: seq<Entry>, b: nat)
    requires LastOutside(us + more, b) && forall i | |us| <= i <= |us + more| :: Inside((us + more)[..i])
    ensures b < |us| && LastOutside(us, b)
  {
    hide Inside;
    assert b < |us|;
    forall i | 0 <= i <= |us|
      ensures (us + more)[..i] == us[..i]
    {}
  }

  lemma OperateOk(cd: Codec, prior: seq<Entry>, start: string -> Option<C.Val>, s: Server, d: Deed, s': Server)
    requires Ok(cd, prior, start, s) && d.Operate? && Step(cd, start, s, d, s')
    ensures Ok(cd, prior, start, s')
  {
    hide Snapped, MarksOk, Next, Enabled, LogSync.Start, Run, Logs, Flat, CodedOne, C.CkStep, R.Encode, R.RecOk, Inside, Ranged, Cache, Live, C.Inv, C.Linked,
         Follows, Record, C.Redo, Viewed, ViewedBefore, C.Pending;
    var e, ck, ck', us := d.op, s.scan.value, d.ck, s.us;
    var p, q := s.ps[|s.es|], s'.ps[|s'.es|];
    var u := Entry(Change(Record(e).value), |ck'.dual| > |ck.dual|);
    LoggedOk(cd, prior, start, s, u, d.cuts, s');
    ViewedInv(cd, start, p, us, ck);
    C.StepKeeps(ck, e, ck');
    DualStep(ck, e, ck');
    InvLinked(ck');
    forall k
      ensures Live(ck', k) == Noted(Live(ck, k), u, k)
    {
      RedoIsOperation(ck, e, ck', k);
    }
    assert ck.dual + [] == ck.dual;
    ViewedMore(cd, start, p, us, ck, u, ck', q);
    RangedSnoc(us, u);
    if Inside(us) {
      ElemPending(ck, e, ck');
      assert (us + [u])[..|us|] == us && (us + [u])[..|us| + 1] == us + [u];
      InsideViewed(cd, start, p, us, ck, [u], ck', q);
    }
  }

  lemma ScanOk(cd: Codec, prior: seq<Entry>, start: string -> Option<C.Val>, s: Server, d: Deed, s': Server)
    requires Ok(cd, prior, start, s) && d.Scan? && Step(cd, start, s, d, s')
    ensures Ok(cd, prior, start, s')
  {
    hide Snapped, MarksOk, Next, Enabled, LogSync.Start, Logs, Flat, CodedOne, C.Inv, C.CkStep, Live, Cache, Duals, Updates, C.Linked, Inside, Ranged, ViewAt;
    var ck, ck', p, us := s.scan.value, d.ck, s.ps[|s.es|], s.us;
    C.StepKeeps(ck, d.work, ck');
    DualStep(ck, d.work, ck');
    InvLinked(ck');
    InvLinked(ck);
    forall k
      ensures Live(ck', k) == Cache(start, us, |us|, k)
    {
      RedoIsOperation(ck, d.work, ck', k);
    }
    assert Viewed(cd, start, p, us, ck');
    if Inside(us) {
      DumpPending(ck, ck');
      LogNow(cd, s.ps, s.es, prior, us);
      assert us + [] == us && us[..|us|] == us;
      InsideViewed(cd, start, p, us, ck, [], ck', p);
    }
  }

  lemma DumpPending(ck: C.Ck, ck': C.Ck)
    requires C.Linked(ck) && C.Linked(ck') && C.CkStep(ck, C.Dump, ck')
    ensures ck'.tb == ck.tb && ck'.scan == ck.scan
    ensures ck'.snap + C.Pending(ck'.store, ck'.grabbed) == ck.snap + C.Pending(ck.store, ck.grabbed)
  {
    hide T.Wf, T.Passed, A.Step, C.Pending;
    C.DumpSame(ck.store, ck.snap, ck.grabbed);
  }

  lemma OpenStep(p: Pipe)
    requires MarksOk(p) && Enabled(p, OpenNext)
    ensures var q := Next(p, OpenNext);
            && q.scanning && |q.marks| == |p.marks| && q.cur == p.cur && NextOpen(q) && !SwitchAhead(q)
            && |q.starts| == p.cur + 2 && q.starts[p.cur + 1] == |p.log|
  {}

  lemma OpenViewed(cd: Codec, start: string -> Option<C.Val>, p: Pipe, us: seq<Entry>, ck: C.Ck, q: Pipe)
    requires Coded(cd, us) && MarksOk(q) && p.log == Flat(cd, us) && C.Started(ck) && (forall k :: Live(ck, k) == Cache(start, us, |us|, k)) && !Inside(us)
    requires NextOpen(q) && !SwitchAhead(q) && q.starts[q.cur + 1] == |p.log|
    ensures Viewed(cd, start, q, us, ck) && ViewedBefore(cd, start, q, us, ck)
  {
    hide MarksOk, Flat, Coded, C.Inv, C.Started, Live, Cache;
    C.StartedInv(ck);
    FreshDual(ck);
    StoodNow(cd, us);
    assert us[..|us|] == us;
    forall a: nat | StoodAt(cd, us, |p.log|, a)
      ensures ck.dual == Updates(Duals(us[a..])) && !Inside(us[..a]) && MarkersTwice(us[a..])
    {
      SameStood(cd, us, |p.log|, a, |us|);
      assert us[|us|..] == [];
      assert Updates(Duals([])) == [];
    }
  }

  lemma OpenOk(cd: Codec, prior: seq<Entry>, start: string -> Option<C.Val>, s: Server, ck: C.Ck, s': Server)
    requires Ok(cd, prior, start, s) && Step(cd, start, s, Open(ck), s')
    ensures Ok(cd, prior, start, s')
  {
    hide Next, Enabled, LogSync.Start, Run, Logs, MarksOk, Flat, CodedOne, Inv, Snapshot, Viewed, ViewedBefore, C.Started, Live, Cache, Inside, Ranged;
    var p, us := s.ps[|s.es|], s.us;
    LoggingStep(cd, s.ps, s.es, prior, us, OpenNext);
    LogNow(cd, s.ps, s.es, prior, us);
    StepLater(s.ps, s.es, OpenNext);
    OpenStep(p);
    assert us + [] == us;
    SnappedKept(cd, prior, start, p, us, s.snaps, Next(p, OpenNext), []);
    OpenViewed(cd, start, p, us, ck, Next(p, OpenNext));
  }

  lemma FreshDual(ck: C.Ck)
    requires C.Started(ck)
    ensures ck.dual == []
  {}

  lemma CloseStep(p: Pipe, ok: bool)
    requires Inv(p) && Enabled(p, if ok then Succeed else FailDual)
    ensures var q := Next(p, if ok then Succeed else FailDual);
            && MarksOk(p) && !q.scanning && |p.marks| == p.cur + 1 < |p.files| == |q.files| && |q.marks| == |p.marks| + (if ok then 1 else 0)
            && (ok ==> q.starts == p.starts && q.marks == p.marks + [|p.log|])
  {
    hide FilesOk, LsnsOk, BoundsOk, FlusherOk, Twice, Dual;
  }

  /** What C.Inv says, as a view. */
  lemma NowView(ck: C.Ck, start: string -> Option<C.Val>, us: seq<Entry>, more: seq<Entry>)
    requires C.Inv(ck) && forall k :: Live(ck, k) == Cache(start, us, |us|, k)
    ensures ViewAt(ck, ck.dual, start, us + more, |us|)
  {
    hide C.Replay, T.Wf, T.Passed, C.Pending;
    T.WfShape(ck.tb);
    forall k
      ensures C.Replay(C.Replay(None, ck.snap + C.Pending(ck.store, ck.grabbed), k), ck.dual, k) ==
              if T.Passed(ck.tb, ck.scan, k) then Cache(start, us + more, |us|, k) else None
    {
      assert C.Recovered(ck, k) == C.Covered(ck, k);
      assert Live(ck, k) == Cache(start, us, |us|, k);
      assert (us + more)[..|us|] == us[..|us|];
    }
  }

  /** When the scan is over and everything is dumped, the view is the whole cache. */
  lemma ViewWhole(ck: C.Ck, rs: seq<C.Rec>, start: string -> Option<C.Val>, us: seq<Entry>, b: nat)
    requires C.Linked(ck) && C.Finished(ck) && b <= |us| && ViewAt(ck, rs, start, us, b)
    ensures Exact(ck.snap, rs, start, us, b)
  {
    hide C.Replay, T.Wf, T.Passed, Cache;
    assert ck.snap + C.Pending(ck.store, ck.grabbed) == ck.snap;
    forall k
      ensures C.Replay(C.Replay(None, ck.snap, k), rs, k) == Cache(start, us, b, k)
    {
      A.OverPassed(ck.tb, ck.scan, k);
    }
  }

  /** A finished checkpoint's snapshot is exact, from its view. */
  lemma ViewExact(cd: Codec, prior: seq<Entry>, start: string -> Option<C.Val>, p: Pipe, us: seq<Entry>, ck: C.Ck, q: Pipe)
    requires Coded(cd, us) && MarksOk(p) && MarksOk(q) && Viewed(cd, start, p, us, ck) && ViewedBefore(cd, start, p, us, ck)
    requires C.Finished(ck) && p.log == Flat(cd, us)
    requires var f := p.cur + 1; f < |q.files| && q.starts[f] == p.starts[f] && Ended(q, f) == |p.log| && (f < |q.marks| ==> !Inside(us))
    ensures Snapshot(cd, q, prior, us, start, p.cur + 1, ck.snap)
  {
    hide MarksOk, Flat, Coded, C.Inv, Cache, Duals, Updates, C.Linked, C.Replay, C.Finished, Live, ViewAt, Exact, Inside;
    var f := p.cur + 1;
    StoodNow(cd, us);
    assert us[..|us|] == us;
    InvLinked(ck);
    forall a: nat, m: nat, b: nat | During(cd, q, us, f, a, m) && LastOutside(us[..m], b)
      ensures a <= b && (f < |q.marks| ==> b == m) && Undivided(us, a, m) && Exact(ck.snap, Updates(Front(prior, us, f, a, b)), start, us, b)
    {
      SameStood(cd, us, |p.log|, m, |us|);
      assert us[a..m] == us[a..];
      if Inside(us) {
        assert ViewUpTo(ck, start, us, a, b);
        ViewWhole(ck, Updates(Duals(us[a..b])), start, us, b);
      } else {
        NowView(ck, start, us, []);
        assert us + [] == us;
        ViewWhole(ck, ck.dual, start, us, |us|);
      }
    }
  }

  lemma CloseOk(cd: Codec, prior: seq<Entry>, start: string -> Option<C.Val>, s: Server, ok: bool, s': Server)
    requires Ok(cd, prior, start, s) && Step(cd, start, s, Close(ok), s')
    ensures Ok(cd, prior, start, s')
  {
    hide Next, Enabled, LogSync.Start, Run, Logs, MarksOk, Flat, CodedOne, Inv, Snapshot, Exact, Viewed, C.Finished;
    var p, us, e := s.ps[|s.es|], s.us, if ok then Succeed else FailDual;
    LoggingStep(cd, s.ps, s.es, prior, us, e);
    LogNow(cd, s.ps, s.es, prior, us);
    StepLater(s.ps, s.es, e);
    CloseStep(p, ok);
    var q := Next(p, e);
    assert us + [] == us;
    if ok {
      ViewExact(cd, prior, start, p, us, s.scan.value, q);
      forall f | 0 <= f < |s'.snaps|
        ensures Snapshot(cd, q, prior, us, start, f, s'.snaps[f])
      {
        if f < |s.snaps| { SnapshotKept(cd, prior, start, p, us, q, [], f, s.snaps[f]); }
      }
    } else {
      SnappedKept(cd, prior, start, p, us, s.snaps, q, []);
    }
  }

  lemma StartOk(cd: Codec, prior: seq<Entry>, start: string -> Option<C.Val>, snap: seq<C.Rec>, s: Server)
    requires Started(cd, prior, start, snap, s)
    ensures Ok(cd, prior, start, s)
  {
    hide Flat, Exact, Bytes, CodedOne;
    var p := s.ps[0];
    assert s.es == [] && Logs(cd, [], []);
    forall a: nat, m: nat, b: nat | During(cd, p, [], 0, a, m) && LastOutside([][..m], b)
      ensures a <= b && b == m && Exact(snap, Updates(Front(prior, [], 0, a, b)), start, [], b)
    {}
  }

  lemma StepOk(cd: Codec, prior: seq<Entry>, start: string -> Option<C.Val>, s: Server, d: Deed, s': Server)
    requires Ok(cd, prior, start, s) && Step(cd, start, s, d, s')
    ensures Ok(cd, prior, start, s')
  {
    hide Ok, Logged, Can, Stepped, C.Started, C.CkStep, C.Finished, Live, Cache;
    match d
    case Log(e) => LogOk(cd, prior, start, s, e);
    case Update(rec, cuts) => UpdateOk(cd, prior, start, s, rec, cuts, s');
    case Mark(_, _) => MarkOk(cd, prior, start, s, d, s');
    case Open(ck) => OpenOk(cd, prior, start, s, ck, s');
    case Scan(_, _) => ScanOk(cd, prior, start, s, d, s');
    case Operate(_, _, _) => OperateOk(cd, prior, start, s, d, s');
    case Close(ok) => CloseOk(cd, prior, start, s, ok, s');
  }

  /** In every life of a server, at every moment. */
  lemma {:induction false} LifeOk(cd: Codec, prior: seq<Entry>, start: string -> Option<C.Val>, ss: seq<Server>, ds: seq<Deed>, i: nat)
    requires Life(cd, prior, start, ss, ds) && i <= |ds|
    ensures Ok(cd, prior, start, ss[i])
    decreases i
  {
    hide Ok, Step, Started;
    if i == 0 {
      StartOk(cd, prior, start, ss[0].snaps[0], ss[0]);
    } else {
      LifeOk(cd, prior, start, ss, ds, i - 1);
      StepOk(cd, prior, start, ss[i - 1], ds[i - 1], ss[i]);
    }
  }

  // The crash.

  /** A server can come to be like this. */
  ghost predicate Reached(cd: Codec, prior: seq<Entry>, start: string -> Option<C.Val>, s: Server) {
    exists ss: seq<Server>, ds: seq<Deed> :: Life(cd, prior, start, ss, ds) && ss[|ds|] == s
  }

  lemma ReachedOk(cd: Codec, prior: seq<Entry>, start: string -> Option<C.Val>, s: Server)
    requires Reached(cd, prior, start, s)
    ensures Ok(cd, prior, start, s)
  {
    hide Step, Started, Ok;
    var ss: seq<Server>, ds: seq<Deed> :| Life(cd, prior, start, ss, ds) && ss[|ds|] == s;
    LifeOk(cd, prior, start, ss, ds, |ds|);
  }

  /** Recovery may take the snapshot and log file number `f`: the checkpoint that made them is done with its snapshot. */
  ghost predicate Recoverable(s: Server, f: nat) {
    && |s.ps| == |s.es| + 1 && MarksOk(s.ps[|s.es|]) && Taken(s.ps[|s.es|], f)
    && (f < |s.snaps| || (f == |s.snaps| && s.scan.Some? && C.Finished(s.scan.value)))
  }

  ghost function SnapOf(s: Server, f: nat): seq<C.Rec>
    requires Recoverable(s, f)
  {
    if f < |s.snaps| then s.snaps[f] else s.scan.value.snap
  }

  /** The log file that recovery takes. */
  ghost function FileOf(s: Server, f: nat): File
    requires Recoverable(s, f)
  {
    s.ps[|s.es|].files[f]
  }

  /** A restart that finds `n` bytes of the log file succeeds and makes the cache after `j` updates of key `k`. */
  ghost predicate Restores(cd: Codec, start: string -> Option<C.Val>, s: Server, f: nat, n: nat, j: nat, k: string)
    requires Recoverable(s, f)
  {
    && n <= |FileOf(s, f).bytes| && j <= |s.us|
    && var o := R.Recover(FileOf(s, f).bytes[..n]);
    && o.Applied? && Restarted(cd, SnapOf(s, f), o.redone, k) == Cache(start, s.us, j, k)
  }

  lemma SnapHolds(cd: Codec, prior: seq<Entry>, start: string -> Option<C.Val>, s: Server, f: nat)
    requires Ok(cd, prior, start, s) && Recoverable(s, f)
    ensures Snapshot(cd, s.ps[|s.es|], prior, s.us, start, f, SnapOf(s, f))
  {
    hide Next, Enabled, LogSync.Start, Logs, Flat, CodedOne, Snapshot, Exact, C.Finished, C.Inv, Live, Cache, Inv;
    if f >= |s.snaps| {
      var p := s.ps[|s.es|];
      LogNow(cd, s.ps, s.es, prior, s.us);
      ViewExact(cd, prior, start, p, s.us, s.scan.value, p);
    }
  }

  /**
   * Crash consistency of a server: whenever it crashes, whichever finished
   * checkpoint recovery takes and whatever the disk has of its log file, if no
   * chunk came too late for the file and the disk has all that the file was
   * given during the checkpoint, the restarted cache is the cache after some
   * number of the updates, no fewer than when the checkpoint ended.
   */
  lemma CrashConsistent(cd: Codec, prior: seq<Entry>, start: string -> Option<C.Val>, s: Server, f: nat, n: nat) returns (m: nat, j: nat)
    requires Reached(cd, prior, start, s) && Recoverable(s, f) && !Late(s.ps, s.es, |s.es|, f)
    requires |Given(s.ps[|s.es|], f)| <= n <= |FileOf(s, f).bytes|
    ensures Coded(cd, s.us) && m <= j <= |s.us| && EndedAt(cd, s.ps[|s.es|], s.us, f, m) && !Inside(s.us[..j])
    ensures forall k :: Restores(cd, start, s, f, n, j, k)
  {
    hide Next, Enabled, LogSync.Start, Reached, Logs, Flat, CodedOne, Snapshot, C.Finished, Cache, Given, Late, MarksOk, R.Recover, Restarted, Snapped, Viewed;
    ReachedOk(cd, prior, start, s);
    SnapHolds(cd, prior, start, s, f);
    m, j := Crash.CrashConsistent(cd, s.ps, s.es, prior, s.us, start, f, SnapOf(s, f), n);
  }

  /**
   * Nothing acknowledged is lost: once an update logged after the checkpoint
   * has been acknowledged, every restart has it and all before it.
   */
  lemma NoneLost(cd: Codec, prior: seq<Entry>, start: string -> Option<C.Val>, s: Server, f: nat, n: nat, x: nat) returns (j: nat)
    requires Reached(cd, prior, start, s) && Recoverable(s, f) && !Late(s.ps, s.es, |s.es|, f)
    requires FileOf(s, f).synced <= n <= |FileOf(s, f).bytes|
    requires Coded(cd, s.us) && Acked(cd, s.ps, s.es, s.us, x) && x < |s.us| && Ended(s.ps[|s.es|], f) <= |Flat(cd, s.us[..x])|
    requires !Inside(s.us[..x + 1])
    ensures x < j <= |s.us| && !Inside(s.us[..j]) && forall k :: Restores(cd, start, s, f, n, j, k)
  {
    hide Next, Enabled, LogSync.Start, Reached, Logs, Flat, CodedOne, Snapshot, C.Finished, Cache, Late, MarksOk, R.Recover, Restarted, Snapped, Viewed, Acked;
    ReachedOk(cd, prior, start, s);
    SnapHolds(cd, prior, start, s, f);
    j := Crash.NoneLost(cd, s.ps, s.es, prior, s.us, start, f, SnapOf(s, f), n, x);
  }

  /**
   * Even when a part for the checkpoint is lost: a key whose last update was
   * acknowledged, or that was never updated, is as it was.
   */
  lemma KeysKept(cd: Codec, prior: seq<Entry>, start: string -> Option<C.Val>, s: Server, f: nat, n: nat, c: nat, k: string)
    requires Reached(cd, prior, start, s) && Recoverable(s, f) && !Late(s.ps, s.es, |s.es|, f)
    requires FileOf(s, f).synced <= n <= |FileOf(s, f).bytes|
    requires Coded(cd, s.us) && c <= |s.us| && (c == 0 || Acked(cd, s.ps, s.es, s.us, c - 1)) && !Inside(s.us[..c]) && Elsewhere(s.us[c..], k)
    ensures Restores(cd, start, s, f, n, |s.us|, k)
  {
    hide Next, Enabled, LogSync.Start, Reached, Logs, Flat, CodedOne, Snapshot, C.Finished, Cache, Late, MarksOk, R.Recover, Restarted, Snapped, Viewed, Acked, Elsewhere;
    ReachedOk(cd, prior, start, s);
    SnapHolds(cd, prior, start, s, f);
    Crash.KeysKept(cd, s.ps, s.es, prior, s.us, start, f, SnapOf(s, f), n, c, k);
  }
}
