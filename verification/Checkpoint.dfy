/**
 * The fuzzy checkpoint: a snapshot written while the cache keeps changing,
 * plus the log records that were written twice because their item lay in the
 * area the snapshot scan had visited (engines/default/cmdlogmgr.c,
 * engines/default/chkpt_snapshot.c).
 */
module Checkpoint {
  import opened Options
  import opened Chains
  import opened AssocTable
  import opened AssocRuns

  /** An item's data: its value or elements, its expire time, its other attributes. */
  datatype Val = Val(body: string, exptime: int, info: int)

  /** An item in memory. It outlives its unlinking while the snapshot refers to it. */
  datatype Obj = Obj(key: string, val: Val)

  /** Log records, with what redoing them does. `Elem` is an element insertion or deletion. */
  datatype Rec =
    | Link(key: string, val: Val)
    | Unlink(key: string)
    | SetExptime(key: string, exptime: int)
    | SetInfo(key: string, exptime: int, info: int)
    | Elem(key: string, change: string -> string)

  /** An item returned by the scan whose snapshot record is still to be written; its elements were copied under the lock. */
  datatype Grab = Grab(key: string, id: nat, body: string)

  /**
   * `tb` is the table, `scan` the checkpoint's scan on it, `store` the items in
   * memory, `snap` the snapshot file, `dual` the records that go to the next log file.
   */
  datatype Ck = Ck(tb: Table, scan: nat, store: map<nat, Obj>, grabbed: seq<Grab>, snap: seq<Rec>, dual: seq<Rec>)

  /** Redo of one record, as it affects one key. */
  function Redo(v: Option<Val>, r: Rec, k: string): Option<Val> {
    if r.key != k then v
    else match r
         case Link(_, val) => Some(val)
         case Unlink(_) => None
         case SetExptime(_, e) => if v.Some? then Some(v.value.(exptime := e)) else None
         case SetInfo(_, e, i) => if v.Some? then Some(v.value.(exptime := e, info := i)) else None
         case Elem(_, change) => if v.Some? then Some(v.value.(body := change(v.value.body))) else None
  }

  /** What a change makes of an item: the fields that it names, and no others. */
  predicate Sets(r: Rec, v: Val, w: Val) {
    match r
    case SetExptime(_, _) => w.exptime == r.exptime && w.info == v.info && w.body == v.body
    case SetInfo(_, _, _) => w.exptime == r.exptime && w.info == r.info && w.body == v.body
    case Elem(_, _) => w.body == r.change(v.body) && w.exptime == v.exptime && w.info == v.info
    case _ => false
  }

  lemma RedoSets(r: Rec, v: Val)
    requires r.SetExptime? || r.SetInfo? || r.Elem?
    ensures Redo(Some(v), r, r.key).Some? && Sets(r, v, Redo(Some(v), r, r.key).value)
  {}

  function Replay(v: Option<Val>, rs: seq<Rec>, k: string): Option<Val> {
    if rs == [] then v else Redo(Replay(v, rs[..|rs| - 1], k), rs[|rs| - 1], k)
  }

  lemma ReplaySnoc(v: Option<Val>, rs: seq<Rec>, r: Rec, k: string)
    ensures Replay(v, rs + [r], k) == Redo(Replay(v, rs, k), r, k)
  {
    assert (rs + [r])[..|rs|] == rs;
  }

  lemma {:induction false} ReplayConcat(v: Option<Val>, a: seq<Rec>, b: seq<Rec>, k: string)
    ensures Replay(v, a + b, k) == Replay(Replay(v, a, k), b, k)
    decreases |b|
  {
    if b == [] {
      assert a + b == a;
    } else {
      var n := |b| - 1;
      ReplayConcat(v, a, b[..n], k);
      assert (a + b)[..|a| + n] == a + b[..n];
    }
  }

  /** Records of other keys do not matter. */
  lemma {:induction false} ReplayOthers(v: Option<Val>, rs: seq<Rec>, k: string)
    requires forall r | r in rs :: r.key != k
    ensures Replay(v, rs, k) == v
    decreases |rs|
  {
    if rs != [] {
      assert rs[|rs| - 1] in rs;
      ReplayOthers(v, rs[..|rs| - 1], k);
    }
  }

  /** The snapshot record of a returned item, if it were written now. */
  function Record(store: map<nat, Obj>, g: Grab): Rec
    requires g.id in store
  {
    Link(g.key, store[g.id].val.(body := g.body))
  }

  function Pending(store: map<nat, Obj>, gs: seq<Grab>): (rs: seq<Rec>)
    requires forall g | g in gs :: g.id in store
    ensures |rs| == |gs| && forall j | 0 <= j < |gs| :: rs[j] == Record(store, gs[j])
  {
    seq(|gs|, j requires 0 <= j < |gs| => Record(store, gs[j]))
  }

  /** Two values that may differ in what a later record will overwrite. */
  predicate Alike(loose: bool, a: Option<Val>, b: Option<Val>) {
    if a.None? || b.None? then a == b
    else a.value.body == b.value.body && (loose || a.value.info == b.value.info)
  }

  ghost predicate AlikeRec(loose: bool, k: string, a: Rec, b: Rec) {
    a.key == b.key && (a.key == k ==> a == b || (a.Link? && b.Link? && Alike(loose, Some(a.val), Some(b.val))))
  }

  lemma {:induction false} ReplayAlike(loose: bool, v: Option<Val>, w: Option<Val>, a: seq<Rec>, b: seq<Rec>, k: string)
    requires Alike(loose, v, w) && |a| == |b| && forall j | 0 <= j < |a| :: AlikeRec(loose, k, a[j], b[j])
    ensures Alike(loose, Replay(v, a, k), Replay(w, b, k))
    decreases |a|
  {
    if a != [] {
      var n := |a| - 1;
      ReplayAlike(loose, v, w, a[..n], b[..n], k);
      assert AlikeRec(loose, k, a[n], b[n]);
    }
  }

  lemma {:induction false} ReplaySame(v: Option<Val>, a: seq<Rec>, b: seq<Rec>, k: string)
    requires |a| == |b| && forall j | 0 <= j < |a| :: a[j].key == b[j].key && (a[j].key == k ==> a[j] == b[j])
    ensures Replay(v, a, k) == Replay(v, b, k)
    decreases |a|
  {
    if a != [] {
      ReplaySame(v, a[..|a| - 1], b[..|a| - 1], k);
    }
  }

  ghost predicate Linked(ck: Ck) {
    && Wf(ck.tb) && ck.scan in ck.tb.scans
    && (forall k | k in ck.tb.live :: ck.tb.live[k] in ck.store && ck.store[ck.tb.live[k]].key == k)
    && (forall g | g in ck.grabbed :: g.id in ck.store && ck.store[g.id].key == g.key)
  }

  /** What recovery would make of key `k` if the checkpoint ended now. */
  function Recovered(ck: Ck, k: string): Option<Val>
    requires forall g | g in ck.grabbed :: g.id in ck.store
  {
    Replay(Replay(None, ck.snap + Pending(ck.store, ck.grabbed), k), ck.dual, k)
  }

  /** The live data of the keys the scan has passed. */
  ghost function Covered(ck: Ck, k: string): Option<Val>
    requires Linked(ck)
  {
    if k in ck.tb.live && Passed(ck.tb, ck.scan, k) then Some(ck.store[ck.tb.live[k]].val) else None
  }

  ghost predicate Inv(ck: Ck) {
    && Linked(ck)
    && (forall g | g in ck.grabbed :: Passed(ck.tb, ck.scan, g.key))
    && (forall r | r in ck.dual :: Passed(ck.tb, ck.scan, r.key))
    && (forall k :: Recovered(ck, k) == Covered(ck, k))
  }

  datatype CkEvent =
    | LinkItem(key: string, id: nat, val: Val)
    | ReplaceItem(key: string, id: nat, val: Val)
    | UnlinkItem(key: string)
    | ChangeItem(change: Rec)
    | GrabNext(out: seq<Node>)
    | Dump
    | Other(call: Event)

  /** NEED_DUAL_WRITE: a record also goes to the next log file if its item lies in the visited area. */
  ghost function Logged(tb: Table, scan: nat, r: Rec): seq<Rec>
    requires Wf(tb) && scan in tb.scans
  {
    if Passed(tb, scan, r.key) then [r] else []
  }

  function Grabs(store: map<nat, Obj>, out: seq<Node>): (gs: seq<Grab>)
    requires forall n | n in out :: n.Item? && n.id in store
    ensures |gs| == |out| && forall j | 0 <= j < |out| :: gs[j] == Grab(out[j].key, out[j].id, store[out[j].id].val.body)
  {
    seq(|out|, j requires 0 <= j < |out| => Grab(out[j].key, out[j].id, store[out[j].id].val.body))
  }

  ghost predicate CkStep(ck: Ck, e: CkEvent, ck': Ck) {
    && Linked(ck)
    && match e
       case LinkItem(k, id, val) =>
         && id !in ck.store && Step(ck.tb, Insert(k, id), ck'.tb) && ck.scan in ck'.tb.scans
         && ck' == ck.(tb := ck'.tb, store := ck.store[id := Obj(k, val)], dual := ck.dual + Logged(ck'.tb, ck.scan, Link(k, val)))
       case ReplaceItem(k, id, val) =>
         && id !in ck.store && Step(ck.tb, Replace(k, id), ck'.tb) && ck.scan in ck'.tb.scans
         && ck' == ck.(tb := ck'.tb, store := ck.store[id := Obj(k, val)], dual := ck.dual + Logged(ck'.tb, ck.scan, Link(k, val)))
       case UnlinkItem(k) =>
         && Step(ck.tb, Delete(k), ck'.tb)
         && ck' == ck.(tb := ck'.tb, dual := ck.dual + Logged(ck.tb, ck.scan, Unlink(k)))
       case ChangeItem(r) =>
         && (r.SetExptime? || r.SetInfo? || r.Elem?) && r.key in ck.tb.live
         && var id := ck.tb.live[r.key];
         && ck' == ck.(store := ck.store[id := Obj(r.key, Redo(Some(ck.store[id].val), r, r.key).value)],
                       dual := ck.dual + Logged(ck.tb, ck.scan, r))
       case GrabNext(out) =>
         && Step(ck.tb, Next(ck.scan, out), ck'.tb)
         && (forall n | n in out :: n.Item? && n.id in ck.store)
         && ck' == ck.(tb := ck'.tb, grabbed := ck.grabbed + Grabs(ck.store, out))
       case Dump =>
         && ck.grabbed != []
         && ck' == ck.(snap := ck.snap + [Record(ck.store, ck.grabbed[0])], grabbed := ck.grabbed[1..])
       case Other(call) =>
         && (call.Open? || call.Next? || call.Close?) && call.scan != ck.scan && Step(ck.tb, call, ck'.tb)
         && ck' == ck.(tb := ck'.tb)
  }

  lemma DumpSame(store: map<nat, Obj>, snap: seq<Rec>, gs: seq<Grab>)
    requires gs != [] && forall g | g in gs :: g.id in store
    ensures snap + Pending(store, gs) == snap + [Record(store, gs[0])] + Pending(store, gs[1..])
  {}

  lemma DumpKeeps(ck: Ck, ck': Ck)
    requires Inv(ck) && CkStep(ck, Dump, ck')
    ensures Inv(ck')
  {
    hide Wf, Passed, Replay, Pending;
    DumpSame(ck.store, ck.snap, ck.grabbed);
    assert forall g | g in ck'.grabbed :: g in ck.grabbed;
    forall k ensures Recovered(ck', k) == Covered(ck', k) {
      assert Recovered(ck, k) == Covered(ck, k);
    }
  }

  /** What other scans do does not concern the checkpoint's scan. */
  lemma OtherCall(tb: Table, call: Event, tb': Table, scan: nat)
    requires Step(tb, call, tb') && (call.Open? || call.Next? || call.Close?) && call.scan != scan && scan in tb.scans
    ensures Wf(tb) && Wf(tb') && tb'.live == tb.live && scan in tb'.scans
    ensures forall k :: Passed(tb', scan, k) == Passed(tb, scan, k)
  {
    hide Wf, Passed;
    assert Shape(tb) && Shape(tb') by { WfShape(tb); WfShape(tb'); }
  }

  lemma OtherKeeps(ck: Ck, call: Event, ck': Ck)
    requires Inv(ck) && CkStep(ck, Other(call), ck')
    ensures Inv(ck')
  {
    hide Wf, Step, Passed, Recovered;
    OtherCall(ck.tb, call, ck'.tb, ck.scan);
    WfShape(ck.tb);
    WfShape(ck'.tb);
    forall k ensures Recovered(ck', k) == Covered(ck', k) {
      assert Recovered(ck, k) == Covered(ck, k);
      SameRecovered(ck, ck', k);
    }
  }

  lemma SameRecovered(ck: Ck, ck': Ck, k: string)
    requires ck' == ck.(tb := ck'.tb) && forall g | g in ck.grabbed :: g.id in ck.store
    ensures Recovered(ck', k) == Recovered(ck, k)
  {}

  /** A record appended to the next log file. */
  lemma RecoveredLogged(ck: Ck, ck': Ck, more: seq<Rec>, k: string)
    requires forall g | g in ck.grabbed :: g.id in ck.store
    requires ck' == ck.(tb := ck'.tb, dual := ck.dual + more) && |more| <= 1
    ensures Recovered(ck', k) == if more == [] then Recovered(ck, k) else Redo(Recovered(ck, k), more[0], k)
  {
    var base := Replay(None, ck.snap + Pending(ck.store, ck.grabbed), k);
    if more == [] {
      assert ck.dual + more == ck.dual;
    } else {
      assert more == [more[0]];
      ReplaySnoc(base, ck.dual, more[0], k);
    }
  }

  /** New items in memory do not change what is pending. */
  lemma RecoveredStored(ck: Ck, store: map<nat, Obj>, k: string)
    requires forall g | g in ck.grabbed :: g.id in ck.store
    requires forall id | id in ck.store :: id in store && store[id] == ck.store[id]
    ensures Recovered(ck.(store := store), k) == Recovered(ck, k)
  {
    assert Pending(store, ck.grabbed) == Pending(ck.store, ck.grabbed);
  }

  /** A key comes to be linked, or linked to another item; no scan notices. */
  lemma LinkCall(tb: Table, k: string, id: nat, tb': Table, scan: nat)
    requires (Step(tb, Insert(k, id), tb') || Step(tb, Replace(k, id), tb')) && scan in tb.scans && scan in tb'.scans
    ensures Wf(tb) && Wf(tb') && tb'.live == tb.live[k := id]
    ensures forall j :: Passed(tb', scan, j) == Passed(tb, scan, j)
  {
    hide Wf, Passed;
    assert Shape(tb) && Shape(tb') by { WfShape(tb); WfShape(tb'); }
  }

  lemma UnlinkCall(tb: Table, k: string, tb': Table, scan: nat)
    requires Step(tb, Delete(k), tb') && scan in tb.scans
    ensures Wf(tb) && Wf(tb') && k in tb.live && tb'.live == tb.live - {k} && scan in tb'.scans
    ensures forall j | j != k :: Passed(tb', scan, j) == Passed(tb, scan, j)
    ensures Passed(tb, scan, k) ==> Passed(tb', scan, k)
  {
    hide Wf, Passed;
    assert Shape(tb) && Shape(tb') by { WfShape(tb); WfShape(tb'); }
  }

  lemma GrabCall(tb: Table, scan: nat, out: seq<Node>, tb': Table)
    requires Step(tb, Next(scan, out), tb')
    ensures Wf(tb) && Wf(tb') && tb'.live == tb.live && scan in tb.scans && scan in tb'.scans && NoClash(out)
    ensures forall n | n in out :: n.Item? && n.key in tb.live && tb.live[n.key] == n.id && !Passed(tb, scan, n.key)
    ensures forall k | k in tb.live :: Passed(tb', scan, k) <==> Passed(tb, scan, k) || Item(k, tb.live[k]) in out
    ensures forall k | Passed(tb, scan, k) :: Passed(tb', scan, k)
  {
    hide Wf, Passed, NoClash;
    assert Shape(tb) && Shape(tb') by { WfShape(tb); WfShape(tb'); }
  }

  lemma UnlinkKeeps(ck: Ck, key: string, ck': Ck)
    requires Inv(ck) && CkStep(ck, UnlinkItem(key), ck')
    ensures Inv(ck')
  {
    hide Wf, Step, Passed, Replay, Recovered;
    UnlinkCall(ck.tb, key, ck'.tb, ck.scan);
    WfShape(ck.tb);
    WfShape(ck'.tb);
    var more := Logged(ck.tb, ck.scan, Unlink(key));
    forall r | r in ck'.dual ensures Passed(ck'.tb, ck'.scan, r.key) {
      assert r in ck.dual || r in more;
    }
    forall k ensures Recovered(ck', k) == Covered(ck', k) {
      assert Recovered(ck, k) == Covered(ck, k);
      RecoveredLogged(ck, ck', more, k);
    }
  }

  /** A first link and a replacement are logged alike. */
  lemma LinkKeeps(ck: Ck, e: CkEvent, ck': Ck)
    requires Inv(ck) && (e.LinkItem? || e.ReplaceItem?) && CkStep(ck, e, ck')
    ensures Inv(ck')
  {
    hide Wf, Step, Passed, Replay, Recovered;
    LinkCall(ck.tb, e.key, e.id, ck'.tb, ck.scan);
    WfShape(ck.tb);
    WfShape(ck'.tb);
    var r := Link(e.key, e.val);
    var more := Logged(ck'.tb, ck.scan, r);
    forall r | r in ck'.dual ensures Passed(ck'.tb, ck'.scan, r.key) {
      assert r in ck.dual || r in more;
    }
    forall k ensures Recovered(ck', k) == Covered(ck', k) {
      assert Recovered(ck, k) == Covered(ck, k);
      RecoveredStored(ck, ck'.store, k);
      RecoveredLogged(ck.(store := ck'.store), ck', more, k);
    }
  }

  /** Appending what was just returned by the scan. */
  lemma RecoveredGrabbed(ck: Ck, ck': Ck, out: seq<Node>, k: string)
    requires Inv(ck) && CkStep(ck, GrabNext(out), ck') && Linked(ck')
    ensures Recovered(ck', k) == Covered(ck', k)
  {
    hide Wf, Step, Passed, Replay, NoClash;
    GrabCall(ck.tb, ck.scan, out, ck'.tb);
    WfShape(ck.tb);
    WfShape(ck'.tb);
    var gs := Grabs(ck.store, out);
    var p := Pending(ck.store, ck.grabbed);
    var more := Pending(ck.store, gs);
    assert Recovered(ck, k) == Covered(ck, k);
    assert ck'.snap + Pending(ck'.store, ck'.grabbed) == ck.snap + p + more;
    ReplayConcat(None, ck.snap + p, more, k);
    if !HasKey(out, k) {
      GrabbedNone(ck.store, out, Replay(None, ck.snap + p, k), k);
    } else {
      var n :| n in out && n.Item? && n.key == k;
      GrabbedOne(ck.store, out, Replay(None, ck.snap + p, k), n);
      assert forall r | r in ck.dual :: r.key != k;
      ReplayOthers(Replay(None, ck'.snap + Pending(ck'.store, ck'.grabbed), k), ck.dual, k);
    }
  }

  lemma PendingSnoc(store: map<nat, Obj>, out: seq<Node>)
    requires out != [] && forall n | n in out :: n.Item? && n.id in store
    ensures var l := |out| - 1;
            && out[l] in out && (forall n | n in out[..l] :: n in out)
            && Pending(store, Grabs(store, out)) == Pending(store, Grabs(store, out[..l])) + [Link(out[l].key, store[out[l].id].val)]
  {
    var l := |out| - 1;
    var rs := Pending(store, Grabs(store, out));
    assert out[l] in out;
    assert rs[..l] == Pending(store, Grabs(store, out[..l]));
    assert rs[l] == Link(out[l].key, store[out[l].id].val);
  }

  /** The pending records of returned items set only the returned keys ... */
  lemma {:induction false} GrabbedNone(store: map<nat, Obj>, out: seq<Node>, v: Option<Val>, k: string)
    requires (forall n | n in out :: n.Item? && n.id in store) && !HasKey(out, k)
    ensures Replay(v, Pending(store, Grabs(store, out)), k) == v
    decreases |out|
  {
    hide Replay, Pending, Grabs;
    if out == [] {
      ReplayOthers(v, Pending(store, Grabs(store, out)), k);
    } else {
      var l := |out| - 1;
      PendingSnoc(store, out);
      GrabbedNone(store, out[..l], v, k);
      ReplaySnoc(v, Pending(store, Grabs(store, out[..l])), Link(out[l].key, store[out[l].id].val), k);
    }
  }

  /** ... and set these to their present data. */
  lemma {:induction false} GrabbedOne(store: map<nat, Obj>, out: seq<Node>, v: Option<Val>, n: Node)
    requires (forall n | n in out :: n.Item? && n.id in store) && n in out && forall m | m in out && m.key == n.key :: m == n
    ensures Replay(v, Pending(store, Grabs(store, out)), n.key) == Some(store[n.id].val)
    decreases |out|
  {
    hide Replay, Pending, Grabs;
    var l := |out| - 1;
    PendingSnoc(store, out);
    ReplaySnoc(v, Pending(store, Grabs(store, out[..l])), Link(out[l].key, store[out[l].id].val), n.key);
    if out[l].key != n.key {
      var j :| 0 <= j < |out| && out[j] == n;
      assert out[..l][j] == n;
      GrabbedOne(store, out[..l], v, n);
    }
  }

  lemma GrabKeeps(ck: Ck, out: seq<Node>, ck': Ck)
    requires Inv(ck) && CkStep(ck, GrabNext(out), ck')
    ensures Inv(ck')
  {
    hide Wf, Step, Passed, Replay, Recovered, NoClash;
    GrabCall(ck.tb, ck.scan, out, ck'.tb);
    WfShape(ck.tb);
    WfShape(ck'.tb);
    forall g | g in ck'.grabbed ensures g.id in ck'.store && ck'.store[g.id].key == g.key && Passed(ck'.tb, ck'.scan, g.key) {
      if g !in ck.grabbed {
        var j :| 0 <= j < |out| && g == Grabs(ck.store, out)[j];
        assert out[j] in out;
      }
    }
    forall k ensures Recovered(ck', k) == Covered(ck', k) {
      RecoveredGrabbed(ck, ck', out, k);
    }
  }

  /** The items in memory after an attribute or element change of a linked key. */
  function Changed(ck: Ck, r: Rec): map<nat, Obj>
    requires r.key in ck.tb.live && ck.tb.live[r.key] in ck.store && (r.SetExptime? || r.SetInfo? || r.Elem?)
  {
    var id := ck.tb.live[r.key];
    ck.store[id := Obj(r.key, Redo(Some(ck.store[id].val), r, r.key).value)]
  }

  /** A change in place may alter a pending snapshot record, but only where redoing the change repairs it. */
  lemma PendingChanged(ck: Ck, r: Rec, k: string)
    requires Inv(ck) && r.key in ck.tb.live && (r.SetExptime? || r.SetInfo? || r.Elem?)
    ensures var a, b := ck.snap + Pending(ck.store, ck.grabbed), ck.snap + Pending(Changed(ck, r), ck.grabbed);
            && |a| == |b|
            && (forall j | 0 <= j < |a| :: AlikeRec(r.SetInfo?, r.key, a[j], b[j]))
            && (k != r.key || r.Elem? || !Passed(ck.tb, ck.scan, r.key) ==>
                  forall j | 0 <= j < |a| :: a[j].key == b[j].key && (a[j].key == k ==> a[j] == b[j]))
  {
    hide Passed, Replay, Recovered, Wf;
    WfShape(ck.tb);
    var a, b := ck.snap + Pending(ck.store, ck.grabbed), ck.snap + Pending(Changed(ck, r), ck.grabbed);
    forall j | 0 <= j < |a|
      ensures AlikeRec(r.SetInfo?, r.key, a[j], b[j])
      ensures k != r.key || r.Elem? || !Passed(ck.tb, ck.scan, r.key) ==> a[j].key == b[j].key && (a[j].key == k ==> a[j] == b[j])
    {
      if j >= |ck.snap| {
        var g := ck.grabbed[j - |ck.snap|];
        assert g in ck.grabbed;
      }
    }
  }

  lemma RecoveredChanged(ck: Ck, r: Rec, ck': Ck, k: string)
    requires Inv(ck) && CkStep(ck, ChangeItem(r), ck')
    ensures Recovered(ck', k) == Covered(ck', k)
  {
    hide Passed, Replay, Wf, AlikeRec, Pending;
    WfShape(ck.tb);
    var a, b := ck.snap + Pending(ck.store, ck.grabbed), ck.snap + Pending(Changed(ck, r), ck.grabbed);
    assert ck'.store == Changed(ck, r);
    PendingChanged(ck, r, k);
    assert Recovered(ck, k) == Covered(ck, k);
    var more := Logged(ck.tb, ck.scan, r);
    var mid := ck.(store := ck'.store);
    RecoveredLogged(mid, ck', more, k);
    if k != r.key || r.Elem? || !Passed(ck.tb, ck.scan, r.key) {
      ReplaySame(None, a, b, k);
    } else {
      ReplayAlike(r.SetInfo?, None, None, a, b, k);
      forall j | 0 <= j < |ck.dual| ensures AlikeRec(r.SetInfo?, k, ck.dual[j], ck.dual[j]) {
        AlikeRefl(r.SetInfo?, k, ck.dual[j]);
      }
      ReplayAlike(r.SetInfo?, Replay(None, a, k), Replay(None, b, k), ck.dual, ck.dual, k);
    }
  }

  lemma AlikeRefl(loose: bool, k: string, r: Rec)
    ensures AlikeRec(loose, k, r, r)
  {}

  lemma ChangeKeeps(ck: Ck, r: Rec, ck': Ck)
    requires Inv(ck) && CkStep(ck, ChangeItem(r), ck')
    ensures Inv(ck')
  {
    hide Passed, Replay, Recovered, Wf;
    WfShape(ck.tb);
    forall q | q in ck'.dual ensures Passed(ck'.tb, ck'.scan, q.key) {
      assert q in ck.dual || q in Logged(ck.tb, ck.scan, r);
    }
    forall k ensures Recovered(ck', k) == Covered(ck', k) {
      RecoveredChanged(ck, r, ck', k);
    }
  }

  lemma StepKeeps(ck: Ck, e: CkEvent, ck': Ck)
    requires Inv(ck) && CkStep(ck, e, ck')
    ensures Inv(ck')
  {
    hide Inv, CkStep;
    match e
    case LinkItem(_, _, _) => LinkKeeps(ck, e, ck');
    case ReplaceItem(_, _, _) => LinkKeeps(ck, e, ck');
    case UnlinkItem(k) => UnlinkKeeps(ck, k, ck');
    case ChangeItem(r) => ChangeKeeps(ck, r, ck');
    case GrabNext(out) => GrabKeeps(ck, out, ck');
    case Dump => DumpKeeps(ck, ck');
    case Other(call) => OtherKeeps(ck, call, ck');
  }

  ghost predicate CkRun(st: seq<Ck>, ev: seq<CkEvent>) {
    |st| == |ev| + 1 && forall j | 0 <= j < |ev| :: CkStep(st[j], ev[j], st[j + 1])
  }

  /** item_scan_open of the checkpoint: an empty snapshot, an empty next log file, a fresh scan. */
  ghost predicate Started(ck: Ck) {
    Linked(ck) && ck.tb.scans[ck.scan] == Scan(0, 0, 0, false) && ck.grabbed == [] && ck.snap == [] && ck.dual == []
  }

  lemma StartedInv(ck: Ck)
    requires Started(ck)
    ensures Inv(ck)
  {
    hide Wf;
    WfShape(ck.tb);
    assert ck.snap + Pending(ck.store, ck.grabbed) == [];
    forall k ensures !Passed(ck.tb, ck.scan, k) {
      FreshNotPassed(ck.tb, ck.scan, k);
    }
  }

  lemma {:induction false} RunKeeps(st: seq<Ck>, ev: seq<CkEvent>, n: nat)
    requires CkRun(st, ev) && Started(st[0]) && n <= |ev|
    ensures Inv(st[n])
  {
    hide Inv, CkStep, Started;
    if n == 0 {
      StartedInv(st[0]);
    } else {
      RunKeeps(st, ev, n - 1);
      StepKeeps(st[n - 1], ev[n - 1], st[n]);
    }
  }

  /** The scan is over and every returned item has its snapshot record. */
  ghost predicate Finished(ck: Ck) {
    ck.scan in ck.tb.scans && ck.tb.scans[ck.scan].bucket >= HASHSIZE && ck.grabbed == []
  }

  lemma FinishedExact(ck: Ck, k: string)
    requires Inv(ck) && Finished(ck)
    ensures (k in ck.tb.live ==> ck.tb.live[k] in ck.store)
            && Replay(Replay(None, ck.snap, k), ck.dual, k) ==
               if k in ck.tb.live then Some(ck.store[ck.tb.live[k]].val) else None
  {
    hide Wf, Replay;
    assert ck.snap + Pending(ck.store, ck.grabbed) == ck.snap;
    assert Recovered(ck, k) == Covered(ck, k);
    OverPassed(ck.tb, ck.scan, k);
  }

  /**
   * The fuzzy checkpoint is exact: whatever was linked, replaced, unlinked or
   * changed while the snapshot was taken, however the table expanded and
   * whenever the snapshot records were written, redoing the finished snapshot
   * and then the records of the next log file gives the live cache.
   */
  lemma CheckpointExact(st: seq<Ck>, ev: seq<CkEvent>, k: string)
    requires CkRun(st, ev) && Started(st[0]) && Finished(st[|ev|])
    ensures var ck := st[|ev|];
            && (k in ck.tb.live ==> ck.tb.live[k] in ck.store)
            && Replay(Replay(None, ck.snap, k), ck.dual, k) ==
               if k in ck.tb.live then Some(ck.store[ck.tb.live[k]].val) else None
  {
    hide CkStep, Started, Inv, Finished, Replay;
    RunKeeps(st, ev, |ev|);
    FinishedExact(st[|ev|], k);
  }
}
