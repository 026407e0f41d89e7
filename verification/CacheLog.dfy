/**
 * The updates of the cache and the log records they generate
 * (engines/default/cmdlogmgr.c), with the snapshot scan of a checkpoint
 * (engines/default/chkpt_snapshot.c). Each method is one critical section of
 * the cache lock, except Dump, which runs outside it.
 */
module CacheLog {
  import opened Chains
  import opened AssocTable
  import opened AssocRuns
  import opened Assoc
  import opened Options
  import C = Checkpoint

  class Cache {
    const table: HashTable
    var store: map<nat, C.Obj>
    var chkptScan: Option<nat>
    var grabbed: seq<C.Grab>
    var snap: seq<C.Rec>
    var dual: seq<C.Rec>
    var log: seq<C.Rec>

    ghost function View(): C.Ck
      requires chkptScan.Some?
      reads this, table
    {
      C.Ck(table.View(), chkptScan.value, store, grabbed, snap, dual)
    }

    ghost predicate Valid()
      reads this, table
    {
      && table.Valid()
      && (forall k | k in table.live :: table.live[k] in store && store[table.live[k]].key == k)
      && (forall g | g in grabbed :: g.id in store && store[g.id].key == g.key)
      && (chkptScan.Some? ==> chkptScan.value in table.scans)
    }

    constructor (hashOf: string -> uint32)
      ensures Valid() && fresh(table) && table.live == map[] && chkptScan == None && log == []
    {
      table := new HashTable(hashOf);
      store := map[];
      chkptScan := None;
      grabbed, snap, dual, log := [], [], [], [];
    }

    /** NEED_DUAL_WRITE. */
    method NeedDualWrite(key: string) returns (r: bool)
      requires table.Valid() && key in table.live && (chkptScan.Some? ==> chkptScan.value in table.scans)
      ensures r <==> chkptScan.Some? && Passed(table.View(), chkptScan.value, key)
    {
      r := false;
      if chkptScan.Some? {
        r := table.InVisitedArea(chkptScan.value, key);
      }
    }

    /** A log record of a linked item goes to the log and, if need be, to the next log file as well. */
    method Generate(r: C.Rec)
      requires table.Valid() && r.key in table.live && (chkptScan.Some? ==> chkptScan.value in table.scans)
      modifies this`dual, this`log
      ensures log == old(log) + [r]
      ensures dual == old(dual) + if chkptScan.Some? && Passed(table.View(), chkptScan.value, r.key) then [r] else []
    {
      var both := NeedDualWrite(r.key);
      log := log + [r];
      if both { dual := dual + [r]; }
    }

    /** do_item_link: into the table, then the log record. */
    method LinkItem(key: string, id: nat, val: C.Val, memory: bool)
      requires Valid() && key !in table.live && id !in store
      modifies this`store, this`dual, this`log, table
      ensures Valid() && log == old(log) + [C.Link(key, val)]
      ensures table.live == old(table.live)[key := id] && store == old(store)[id := C.Obj(key, val)]
      ensures Step(old(table.View()), Insert(key, id), table.View())
      ensures chkptScan.Some? ==> C.CkStep(old(View()), C.LinkItem(key, id, val), View())
      ensures chkptScan.None? ==> dual == old(dual)
    {
      hide Wf, Passed, Geometry.Settled, Step;
      ghost var tb := table.View();
      table.Insert(key, id, memory);
      LinkLive(tb, key, id, table.View());
      store := store[id := C.Obj(key, val)];
      Generate(C.Link(key, val));
    }

    /** do_item_replace: only the new link is logged. */
    method ReplaceItem(key: string, id: nat, val: C.Val)
      requires Valid() && key in table.live && id !in store
      modifies this`store, this`dual, this`log, table
      ensures Valid() && log == old(log) + [C.Link(key, val)]
      ensures table.live == old(table.live)[key := id] && store == old(store)[id := C.Obj(key, val)]
      ensures Step(old(table.View()), Replace(key, id), table.View())
      ensures chkptScan.Some? ==> C.CkStep(old(View()), C.ReplaceItem(key, id, val), View())
      ensures chkptScan.None? ==> dual == old(dual)
    {
      hide Wf, Passed, Geometry.Settled, Step;
      ghost var tb := table.View();
      table.Replace(key, id);
      LinkLive(tb, key, id, table.View());
      store := store[id := C.Obj(key, val)];
      Generate(C.Link(key, val));
    }

    /** do_item_unlink: the log record, then out of the table. */
    method UnlinkItem(key: string)
      requires Valid() && key in table.live
      modifies this`dual, this`log, table
      ensures Valid() && log == old(log) + [C.Unlink(key)]
      ensures table.live == old(table.live) - {key} && Step(old(table.View()), Delete(key), table.View())
      ensures chkptScan.Some? ==> C.CkStep(old(View()), C.UnlinkItem(key), View())
      ensures chkptScan.None? ==> dual == old(dual)
    {
      hide Wf, Passed, Geometry.Settled;
      WfShape(table.View());
      Generate(C.Unlink(key));
      table.Delete(key);
      WfShape(table.View());
    }

    /** do_item_setattr and the element changes of a collection. */
    method ChangeItem(r: C.Rec)
      requires Valid() && r.key in table.live && (r.SetExptime? || r.SetInfo? || r.Elem?)
      modifies this`store, this`dual, this`log
      ensures Valid() && log == old(log) + [r]
      ensures var id := table.live[r.key];
              && store.Keys == old(store).Keys && store[id].key == r.key && (forall i | i in store && i != id :: store[i] == old(store)[i])
              && var v, w := old(store)[id].val, store[id].val;
              && (r.SetExptime? ==> w.exptime == r.exptime && w.info == v.info && w.body == v.body)
              && (r.SetInfo? ==> w.exptime == r.exptime && w.info == r.info && w.body == v.body)
              && (r.Elem? ==> w.body == r.change(v.body) && w.exptime == v.exptime && w.info == v.info)
      ensures chkptScan.Some? ==> C.CkStep(old(View()), C.ChangeItem(r), View())
      ensures chkptScan.None? ==> dual == old(dual)
    {
      hide Wf, Passed, Geometry.Settled, C.Redo;
      WfShape(table.View());
      var found := table.Find(r.key);
      var id := found.value;
      C.RedoSets(r, store[id].val);
      store := store[id := C.Obj(r.key, C.Redo(Some(store[id].val), r, r.key).value)];
      Generate(r);
    }

    /** item_scan_open and cmdlog_set_chkpt_scan. */
    method ScanOpen(i: nat)
      requires Valid() && chkptScan == None && i !in table.scans
      modifies this`chkptScan, this`grabbed, this`snap, this`dual, table
      ensures Valid() && chkptScan == Some(i) && C.Started(View())
      ensures table.live == old(table.live) && Step(old(table.View()), Open(i), table.View())
    {
      hide Wf, Passed, Geometry.Settled;
      WfShape(table.View());
      table.ScanInit(i);
      WfShape(table.View());
      chkptScan := Some(i);
      grabbed, snap, dual := [], [], [];
    }

    /** item_scan_getnext: the items and a copy of their elements, under the lock. */
    method ScanGetNext(arraySize: nat, elemLimit: nat, ccnt: nat -> nat) returns (out: seq<Node>)
      requires Valid() && chkptScan.Some? && arraySize > 0
      modifies this`grabbed, table
      ensures Valid() && C.CkStep(old(View()), C.GrabNext(out), View()) && chkptScan == old(chkptScan) && |out| <= arraySize
      ensures elemLimit > 0 && out != [] ==> Elems(ccnt, out[..|out| - 1]) <= elemLimit
      ensures var i := chkptScan.value;
              || table.scans[i].bucket >= HASHSIZE || |out| == arraySize || (elemLimit > 0 && Elems(ccnt, out) > elemLimit)
              || Way(old(table.roottable), old(table.scans)[i], table.Geo().RootSize(), table.scans[i].bucket, Reached(table.scans[i])) > 2 * arraySize
    {
      hide Wf, Passed, NoClash, Geometry.Settled, Step;
      ghost var tb := table.View();
      out := table.ScanNext(chkptScan.value, arraySize, elemLimit, ccnt);
      C.GrabCall(tb, chkptScan.value, out, table.View());
      WfShape(tb);
      ghost var gs := C.Grabs(store, out);
      ghost var g0 := grabbed;
      var j := 0;
      while j < |out|
        invariant 0 <= j <= |out| && grabbed == g0 + gs[..j]
        modifies this`grabbed
      {
        assert out[j] in out;
        grabbed := grabbed + [C.Grab(out[j].key, out[j].id, store[out[j].id].val.body)];
        j := j + 1;
      }
      assert gs[..|out|] == gs;
      forall g | g in gs ensures g.id in store && store[g.id].key == g.key {
        var q :| 0 <= q < |gs| && gs[q] == g;
        assert out[q] in out;
      }
    }

    /** do_snapshot_data_dump of one item, with the attributes it has by then. */
    method Dump()
      requires Valid() && chkptScan.Some? && grabbed != []
      modifies this`grabbed, this`snap
      ensures Valid() && C.CkStep(old(View()), C.Dump, View())
    {
      hide Wf;
      snap := snap + [C.Record(store, grabbed[0])];
      grabbed := grabbed[1..];
    }

    /** cmdlog_reset_chkpt_scan and the close of the scan: from here on no record is written twice. */
    method ScanClose()
      requires Valid() && chkptScan.Some?
      modifies this`chkptScan, table
      ensures Valid() && chkptScan == None && table.live == old(table.live)
      ensures Step(old(table.View()), Close(old(chkptScan).value), table.View())
    {
      hide Wf, Passed, Geometry.Settled;
      WfShape(table.View());
      table.ScanFinal(chkptScan.value);
      chkptScan := None;
    }
  }
}
