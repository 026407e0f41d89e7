/**
 * The placeholder scan: what assoc_scan_next does to the table and to what
 * every open scan has passed.
 */
module AssocScan {
  import opened Chains
  import opened AssocTable
  import opened AssocSteps

  /**
   * One or more steps of scan `i` that hand out `out`: exactly the linked items
   * that the scan had not passed and now has. Nothing else changes but the
   * position of the scan, and no other scan notices.
   */
  ghost predicate Handed(tb: Table, tb': Table, i: nat, out: seq<Node>) {
    && Wf(tb) && Wf(tb') && i in tb.scans && i in tb'.scans
    && tb'.hashOf == tb.hashOf && tb'.geo == tb.geo && tb'.live == tb.live
    && tb'.scans == tb.scans[i := tb'.scans[i]]
    && NoClash(out)
    && (forall n | n in out :: n.Item? && n.key in tb.live && tb.live[n.key] == n.id && !Passed(tb, i, n.key))
    && (forall k | k in tb.live :: Passed(tb', i, k) <==> Passed(tb, i, k) || Item(k, tb.live[k]) in out)
    && (forall k | Passed(tb, i, k) :: Passed(tb', i, k))
    && (forall j, k | j in tb.scans && j != i :: Passed(tb', j, k) == Passed(tb, j, k))
  }

  lemma HandedNothing(tb: Table, i: nat)
    requires Wf(tb) && i in tb.scans
    ensures Handed(tb, tb, i, [])
  {
    assert tb.scans == tb.scans[i := tb.scans[i]];
  }

  lemma HandedTwice(a: Table, b: Table, c: Table, i: nat, out: seq<Node>, more: seq<Node>)
    requires Handed(a, b, i, out) && Handed(b, c, i, more)
    ensures Handed(a, c, i, out + more)
  {
    hide ChainOk, KeyOk, HoldOk, ScanOk, ActiveAt, Passed;
    var all := out + more;
    forall p, q | 0 <= p < q < |all| ensures !Clash(all[p], all[q]) {
      if p < |out| <= q {
        assert all[p] in out && all[q] in more;
      }
    }
    forall n | n in all ensures n.Item? && n.key in a.live && a.live[n.key] == n.id && !Passed(a, i, n.key) {
      assert n in out || n in more;
    }
  }

  /** The scan stands before node `p` of the chain it is in, which holds no placeholder of its own. */
  ghost predicate Behind(tb: Table, i: nat, p: nat, k: string)
    requires Shape(tb) && i in tb.scans && k in tb.live
  {
    var sc := tb.scans[i];
    var b, t := Bucket(tb, k), Tab(tb, k);
    || b < sc.bucket
    || (b == sc.bucket &&
        (|| t < sc.tabidx
         || (t == sc.tabidx && IndexOf(tb.root[t][b], Item(k, tb.live[k])) < p)))
  }

  /** The scan is inside a bucket and has a chain left to look at. */
  predicate InChain(tb: Table, i: nat) {
    Shape(tb) && i in tb.scans && ScanOk(tb, tb.scans[i]) && tb.scans[i].tabcnt > 0 && tb.scans[i].tabidx < tb.scans[i].tabcnt
  }

  function ScanChain(tb: Table, i: nat): Chain
    requires InChain(tb, i)
  {
    tb.root[tb.scans[i].tabidx][tb.scans[i].bucket]
  }

  /** _unlink_scan_placeholder. */
  function Unhold(tb: Table, i: nat, at: nat): (r: Table)
    requires InChain(tb, i) && at < |ScanChain(tb, i)|
    ensures InChain(r, i)
  {
    var sc, c := tb.scans[i], ScanChain(tb, i);
    tb.(root := SetChain(tb.root, sc.tabidx, sc.bucket, RemoveAt(c, at)), scans := tb.scans[i := sc.(linked := false)])
  }

  /** _link_scan_placeholder: behind the node before `at`. */
  function Rehold(tb: Table, i: nat, at: nat): (r: Table)
    requires InChain(tb, i) && at <= |ScanChain(tb, i)|
    ensures InChain(r, i)
  {
    var sc, c := tb.scans[i], ScanChain(tb, i);
    tb.(root := SetChain(tb.root, sc.tabidx, sc.bucket, InsertAt(c, at, Hold(i))), scans := tb.scans[i := sc.(linked := true)])
  }

  lemma SameActive(tb: Table, i: nat, sc: Scan, b: nat)
    requires i in tb.scans && sc.tabcnt == tb.scans[i].tabcnt && sc.bucket == tb.scans[i].bucket
    ensures ActiveAt(tb.scans[i := sc], b) == ActiveAt(tb.scans, b)
  {}

  lemma UnholdWf(tb: Table, i: nat, at: nat)
    requires Wf(tb) && InChain(tb, i) && at < |ScanChain(tb, i)| && ScanChain(tb, i)[at] == Hold(i)
    ensures Wf(Unhold(tb, i, at))
  {
    hide TabIdx;
    var sc, c := tb.scans[i], ScanChain(tb, i);
    var t, b := sc.tabidx, sc.bucket;
    var tb' := Unhold(tb, i, at);
    assert ChainOk(tb, t, b);
    Removed(c, at);
    forall n | n in tb'.root[t][b] ensures NodeOk(tb', t, b, n) {
      assert NodeOk(tb, t, b, n);
    }
    forall k | k in tb'.live && Tab(tb, k) == t && Bucket(tb, k) == b ensures KeyOk(tb', k) {
      assert KeyOk(tb, k);
    }
    forall j | j in tb'.scans ensures ScanOk(tb', tb'.scans[j]) && HoldOk(tb', j) {
      assert ScanOk(tb, tb.scans[j]) && HoldOk(tb, j);
    }
    forall b' | 0 <= b' < HASHSIZE ensures tb'.refs[b'] == |ActiveAt(tb'.scans, b')| {
      SameActive(tb, i, sc.(linked := false), b');
    }
    LocalChange(tb, tb', t, b);
  }

  lemma ReholdWf(tb: Table, i: nat, at: nat)
    requires Wf(tb) && InChain(tb, i) && at <= |ScanChain(tb, i)| && !tb.scans[i].linked
    ensures Wf(Rehold(tb, i, at))
  {
    hide TabIdx;
    var sc, c := tb.scans[i], ScanChain(tb, i);
    var t, b := sc.tabidx, sc.bucket;
    var tb' := Rehold(tb, i, at);
    assert ChainOk(tb, t, b);
    forall m | m in c ensures !Clash(Hold(i), m) && NodeOk(tb', t, b, m) {
      assert NodeOk(tb, t, b, m);
    }
    NoClashInsert(c, at, Hold(i));
    forall k | k in tb'.live && Tab(tb, k) == t && Bucket(tb, k) == b ensures KeyOk(tb', k) {
      assert KeyOk(tb, k);
    }
    forall j | j in tb'.scans ensures ScanOk(tb', tb'.scans[j]) && HoldOk(tb', j) {
      assert ScanOk(tb, tb.scans[j]) && HoldOk(tb, j);
    }
    forall b' | 0 <= b' < HASHSIZE ensures tb'.refs[b'] == |ActiveAt(tb'.scans, b')| {
      SameActive(tb, i, sc.(linked := true), b');
    }
    LocalChange(tb, tb', t, b);
  }

  lemma UnholdPassed(tb: Table, i: nat, at: nat)
    requires Wf(tb) && InChain(tb, i) && at < |ScanChain(tb, i)| && ScanChain(tb, i)[at] == Hold(i) && tb.scans[i].linked
    ensures var tb' := Unhold(tb, i, at);
            && (forall k | k in tb.live :: Behind(tb', i, at, k) == Passed(tb, i, k))
            && (forall j, k | j in tb.scans && j != i :: Passed(tb', j, k) == Passed(tb, j, k))
  {
    hide TabIdx;
    var sc, c := tb.scans[i], ScanChain(tb, i);
    var t, b := sc.tabidx, sc.bucket;
    var tb' := Unhold(tb, i, at);
    var d := RemoveAt(c, at);
    assert ChainOk(tb, t, b);
    NoClashIndex(c, at);
    forall k | k in tb.live ensures Behind(tb', i, at, k) == Passed(tb, i, k) {
      IndexInsert(d, at, Hold(i), Item(k, tb.live[k]));
    }
    forall j, k | j in tb.scans && j != i ensures Passed(tb', j, k) == Passed(tb, j, k) {
      if k in tb.live {
        BeforeInsert(d, at, Hold(i), Item(k, tb.live[k]), Hold(j));
      }
    }
  }

  lemma ReholdPassed(tb: Table, i: nat, at: nat)
    requires Wf(tb) && InChain(tb, i) && at <= |ScanChain(tb, i)| && !tb.scans[i].linked
    ensures var tb' := Rehold(tb, i, at);
            && (forall k | k in tb.live :: Passed(tb', i, k) == Behind(tb, i, at, k))
            && (forall j, k | j in tb.scans && j != i :: Passed(tb', j, k) == Passed(tb, j, k))
  {
    hide TabIdx;
    var sc, c := tb.scans[i], ScanChain(tb, i);
    var t, b := sc.tabidx, sc.bucket;
    var tb' := Rehold(tb, i, at);
    var d := InsertAt(c, at, Hold(i));
    ReholdWf(tb, i, at);
    assert ChainOk(tb', t, b);
    NoClashIndex(d, at);
    forall k | k in tb.live ensures Passed(tb', i, k) == Behind(tb, i, at, k) {
      IndexInsert(c, at, Hold(i), Item(k, tb.live[k]));
    }
    forall j, k | j in tb.scans && j != i ensures Passed(tb', j, k) == Passed(tb, j, k) {
      if k in tb.live {
        BeforeInsert(c, at, Hold(i), Item(k, tb.live[k]), Hold(j));
      }
    }
  }

  /** The scan leaves a chain for the next sub-table. */
  function NextTab(tb: Table, i: nat): (r: Table)
    requires InChain(tb, i)
    ensures Shape(r)
  {
    tb.(scans := tb.scans[i := tb.scans[i].(tabidx := tb.scans[i].tabidx + 1)])
  }

  lemma NextTabOk(tb: Table, i: nat)
    requires Wf(tb) && InChain(tb, i) && !tb.scans[i].linked
    ensures var tb' := NextTab(tb, i);
            && Wf(tb')
            && (forall k | k in tb.live :: Passed(tb', i, k) == Behind(tb, i, |ScanChain(tb, i)|, k))
            && (forall j, k | j in tb.scans && j != i :: Passed(tb', j, k) == Passed(tb, j, k))
  {
    var sc := tb.scans[i];
    var t, b := sc.tabidx, sc.bucket;
    var tb' := NextTab(tb, i);
    assert ChainOk(tb, t, b);
    forall n | n in tb'.root[t][b] ensures NodeOk(tb', t, b, n) {
      assert NodeOk(tb, t, b, n);
    }
    forall k | k in tb'.live ensures KeyOk(tb', k) {
      assert KeyOk(tb, k);
    }
    forall j | j in tb'.scans ensures ScanOk(tb', tb'.scans[j]) && HoldOk(tb', j) {
      assert ScanOk(tb, tb.scans[j]) && HoldOk(tb, j);
    }
    forall b' | 0 <= b' < HASHSIZE ensures tb'.refs[b'] == |ActiveAt(tb'.scans, b')| {
      SameActive(tb, i, tb'.scans[i], b');
    }
    LocalChange(tb, tb', t, b);
  }

  /** Where a scan of its current chain begins: behind its placeholder, or at the head. */
  ghost predicate StartsAt(tb: Table, i: nat, from: nat)
    requires InChain(tb, i)
  {
    if tb.scans[i].linked then from < |ScanChain(tb, i)| && ScanChain(tb, i)[from] == Hold(i) else from == 0
  }

  /** The table once the placeholder is out of the chain. */
  function Freed(tb: Table, i: nat, from: nat): (r: Table)
    requires InChain(tb, i) && (tb.scans[i].linked ==> from < |ScanChain(tb, i)|)
    ensures InChain(r, i)
  {
    if tb.scans[i].linked then Unhold(tb, i, from) else tb
  }

  lemma FreedOk(tb: Table, i: nat, from: nat)
    requires Wf(tb) && InChain(tb, i) && StartsAt(tb, i, from)
    ensures var f := Freed(tb, i, from);
            && Wf(f) && !f.scans[i].linked && from <= |ScanChain(f, i)|
            && (forall k | k in tb.live :: Behind(f, i, from, k) == Passed(tb, i, k))
            && (forall j, k | j in tb.scans && j != i :: Passed(f, j, k) == Passed(tb, j, k))
  {
    if tb.scans[i].linked {
      UnholdWf(tb, i, from);
      UnholdPassed(tb, i, from);
    }
  }

  /** The table after the nodes [from..stop) of the chain were looked at. */
  function Advanced(tb: Table, i: nat, from: nat, stop: nat): (r: Table)
    requires InChain(tb, i) && (tb.scans[i].linked ==> from < |ScanChain(tb, i)|)
    requires stop <= |ScanChain(Freed(tb, i, from), i)|
    ensures Shape(r)
  {
    var f := Freed(tb, i, from);
    if stop < |ScanChain(f, i)| then Rehold(f, i, stop) else NextTab(f, i)
  }

  /** The items met between two positions of a chain are those that were ahead and no longer are. */
  lemma Between(tb: Table, i: nat, from: nat, stop: nat, k: string)
    requires Wf(tb) && InChain(tb, i) && from <= stop <= |ScanChain(tb, i)| && k in tb.live
    ensures Behind(tb, i, stop, k) <==> Behind(tb, i, from, k) || Item(k, tb.live[k]) in Items(ScanChain(tb, i)[from..stop])
    ensures Item(k, tb.live[k]) in Items(ScanChain(tb, i)[from..stop]) ==> !Behind(tb, i, from, k)
  {
    var sc, c := tb.scans[i], ScanChain(tb, i);
    assert ChainOk(tb, sc.tabidx, sc.bucket);
    var n := Item(k, tb.live[k]);
    var x := IndexOf(c, n);
    if n in Items(c[from..stop]) {
      var j :| 0 <= j < stop - from && c[from..stop][j] == n;
      NoClashIndex(c, from + j);
      assert NodeOk(tb, sc.tabidx, sc.bucket, n);
    }
    if from <= x < stop {
      assert c[from..stop][x - from] == n;
    }
  }

  lemma AdvancedOk(tb: Table, i: nat, from: nat, stop: nat)
    requires Wf(tb) && InChain(tb, i) && StartsAt(tb, i, from)
    requires from <= stop <= |ScanChain(Freed(tb, i, from), i)|
    ensures var f, tb' := Freed(tb, i, from), Advanced(tb, i, from, stop);
            && Wf(tb')
            && (forall k | k in tb.live :: Passed(tb', i, k) == Behind(f, i, stop, k))
            && (forall k | Passed(tb, i, k) :: k in tb.live || Passed(tb', i, k))
            && (forall j, k | j in tb.scans && j != i :: Passed(tb', j, k) == Passed(tb, j, k))
  {
    hide NoClash, ChainOk, KeyOk, HoldOk, ActiveAt, Behind, TabIdx;
    FreedOk(tb, i, from);
    var f := Freed(tb, i, from);
    if stop < |ScanChain(f, i)| {
      ReholdWf(f, i, stop);
      ReholdPassed(f, i, stop);
    } else {
      NextTabOk(f, i);
    }
  }

  lemma ChainOut(tb: Table, i: nat, from: nat, stop: nat)
    requires Wf(tb) && InChain(tb, i) && from <= stop <= |ScanChain(tb, i)|
    ensures var out := Items(ScanChain(tb, i)[from..stop]);
            NoClash(out) && forall n | n in out :: n.Item? && n.key in tb.live && tb.live[n.key] == n.id && !Behind(tb, i, from, n.key)
  {
    var sc, c := tb.scans[i], ScanChain(tb, i);
    assert ChainOk(tb, sc.tabidx, sc.bucket);
    assert NoClash(c[from..stop]);
    ItemsNoClash(c[from..stop]);
    forall n | n in Items(c[from..stop])
      ensures n.Item? && n.key in tb.live && tb.live[n.key] == n.id && !Behind(tb, i, from, n.key)
    {
      assert n in c && NodeOk(tb, sc.tabidx, sc.bucket, n);
      Between(tb, i, from, stop, n.key);
    }
  }

  lemma ChainHanded(tb: Table, i: nat, from: nat, stop: nat)
    requires Wf(tb) && InChain(tb, i) && StartsAt(tb, i, from)
    requires from <= stop <= |ScanChain(Freed(tb, i, from), i)|
    ensures Handed(tb, Advanced(tb, i, from, stop), i, Items(ScanChain(Freed(tb, i, from), i)[from..stop]))
  {
    hide NoClash, ChainOk, KeyOk, HoldOk, ScanOk, ActiveAt, Behind, Passed, Items;
    FreedOk(tb, i, from);
    var f := Freed(tb, i, from);
    var tb' := Advanced(tb, i, from, stop);
    AdvancedOk(tb, i, from, stop);
    ChainOut(f, i, from, stop);
    forall k | k in tb.live
      ensures Passed(tb', i, k) <==> Passed(tb, i, k) || Item(k, tb.live[k]) in Items(ScanChain(f, i)[from..stop])
    {
      Between(f, i, from, stop, k);
    }
    assert tb'.scans == tb.scans[i := tb'.scans[i]];
  }

  /** Only scans without a placeholder in the table changed. */
  lemma Rescan(tb: Table, tb': Table)
    requires Wf(tb) && tb' == tb.(scans := tb'.scans, refs := tb'.refs) && |tb'.refs| == HASHSIZE
    requires forall j | j in tb.scans && tb.scans[j].linked :: j in tb'.scans && tb'.scans[j] == tb.scans[j]
    requires forall j | j in tb'.scans :: ScanOk(tb, tb'.scans[j]) && (tb'.scans[j].linked ==> j in tb.scans && tb'.scans[j] == tb.scans[j])
    requires forall b | 0 <= b < HASHSIZE :: tb'.refs[b] == |ActiveAt(tb'.scans, b)|
    ensures Wf(tb')
  {
    forall t, b | 0 <= t < |tb'.root| && 0 <= b < HASHSIZE ensures ChainOk(tb', t, b) {
      assert ChainOk(tb, t, b);
      forall n | n in tb'.root[t][b] ensures NodeOk(tb', t, b, n) {
        assert NodeOk(tb, t, b, n);
      }
    }
    forall k | k in tb'.live ensures KeyOk(tb', k) {
      assert KeyOk(tb, k);
    }
    forall j | j in tb'.scans ensures ScanOk(tb', tb'.scans[j]) && HoldOk(tb', j) {
      if tb'.scans[j].linked { assert HoldOk(tb, j); }
    }
  }

  function Counted(sc: Scan, b: nat): nat {
    if sc.tabcnt > 0 && sc.bucket == b then 1 else 0
  }

  lemma ActiveCount(scans: map<nat, Scan>, i: nat, sc: Scan, b: nat)
    requires i in scans
    ensures |ActiveAt(scans[i := sc], b)| + Counted(scans[i], b) == |ActiveAt(scans, b)| + Counted(sc, b)
  {
    var rest := ActiveAt(scans, b) - {i};
    assert ActiveAt(scans, b) == if Counted(scans[i], b) == 1 then rest + {i} else rest;
    assert ActiveAt(scans[i := sc], b) == if Counted(sc, b) == 1 then rest + {i} else rest;
  }

  /** A scan enters the bucket it stands at. */
  function Enter(tb: Table, i: nat): (r: Table)
    requires Shape(tb) && i in tb.scans && tb.scans[i].bucket < HASHSIZE
    ensures Shape(r)
  {
    var b := tb.scans[i].bucket;
    tb.(scans := tb.scans[i := Scan(b, tb.geo.RootSize(), 0, false)], refs := tb.refs[b := tb.refs[b] + 1])
  }

  lemma EnterWf(tb: Table, i: nat)
    requires Wf(tb) && i in tb.scans && tb.scans[i].bucket < HASHSIZE && tb.scans[i].tabcnt == 0
    ensures Wf(Enter(tb, i))
  {
    var tb' := Enter(tb, i);
    var b := tb.scans[i].bucket;
    assert ScanOk(tb, tb.scans[i]);
    forall b' | 0 <= b' < HASHSIZE ensures tb'.refs[b'] == |ActiveAt(tb'.scans, b')| {
      ActiveCount(tb.scans, i, tb'.scans[i], b');
    }
    Rescan(tb, tb');
  }

  lemma EnterHanded(tb: Table, i: nat)
    requires Wf(tb) && i in tb.scans && tb.scans[i].bucket < HASHSIZE && tb.scans[i].tabcnt == 0
    ensures Handed(tb, Enter(tb, i), i, [])
  {
    EnterWf(tb, i);
    assert ScanOk(tb, tb.scans[i]);
    assert Enter(tb, i).scans == tb.scans[i := Enter(tb, i).scans[i]];
  }

  /** A scan that has looked at every sub-table leaves the bucket. */
  function Leave(tb: Table, i: nat): (r: Table)
    requires Shape(tb) && i in tb.scans && tb.scans[i].bucket < HASHSIZE && tb.refs[tb.scans[i].bucket] > 0
    ensures Shape(r)
  {
    var b := tb.scans[i].bucket;
    tb.(scans := tb.scans[i := Scan(b + 1, 0, 0, false)], refs := tb.refs[b := tb.refs[b] - 1])
  }

  lemma ActiveRef(tb: Table, i: nat)
    requires Wf(tb) && i in tb.scans && tb.scans[i].tabcnt > 0
    ensures tb.scans[i].bucket < HASHSIZE && tb.refs[tb.scans[i].bucket] > 0
  {
    assert ScanOk(tb, tb.scans[i]);
    assert i in ActiveAt(tb.scans, tb.scans[i].bucket);
  }

  lemma LeaveWf(tb: Table, i: nat)
    requires Wf(tb) && i in tb.scans && tb.scans[i].tabcnt > 0 && tb.scans[i].tabidx == tb.scans[i].tabcnt
    ensures tb.scans[i].bucket < HASHSIZE && tb.refs[tb.scans[i].bucket] > 0
    ensures Wf(Leave(tb, i))
  {
    ActiveRef(tb, i);
    var tb' := Leave(tb, i);
    var b := tb.scans[i].bucket;
    assert ScanOk(tb, tb.scans[i]);
    forall b' | 0 <= b' < HASHSIZE ensures tb'.refs[b'] == |ActiveAt(tb'.scans, b')| {
      ActiveCount(tb.scans, i, tb'.scans[i], b');
    }
    Rescan(tb, tb');
  }

  lemma LeaveHanded(tb: Table, i: nat)
    requires Wf(tb) && i in tb.scans && tb.scans[i].tabcnt > 0 && tb.scans[i].tabidx == tb.scans[i].tabcnt
    ensures tb.scans[i].bucket < HASHSIZE && tb.refs[tb.scans[i].bucket] > 0
    ensures Handed(tb, Leave(tb, i), i, [])
  {
    LeaveWf(tb, i);
    assert ScanOk(tb, tb.scans[i]);
    forall k ensures Passed(Leave(tb, i), i, k) == Passed(tb, i, k) {
      TabIdxBelowTop(tb.geo, tb.hashOf(k));
    }
    assert Leave(tb, i).scans == tb.scans[i := Leave(tb, i).scans[i]];
  }

  /** assoc_scan_init, with the table index at zero. */
  function Opened(tb: Table, i: nat): (r: Table)
    requires Shape(tb)
    ensures Shape(r)
  {
    tb.(scans := tb.scans[i := Scan(0, 0, 0, false)])
  }

  lemma OpenOk(tb: Table, i: nat)
    requires Wf(tb) && i !in tb.scans
    ensures Wf(Opened(tb, i))
    ensures forall k :: !Passed(Opened(tb, i), i, k)
    ensures forall j, k | j in tb.scans :: Passed(Opened(tb, i), j, k) == Passed(tb, j, k)
  {
    forall b | 0 <= b < HASHSIZE ensures tb.refs[b] == |ActiveAt(Opened(tb, i).scans, b)| {
      assert ActiveAt(Opened(tb, i).scans, b) == ActiveAt(tb.scans, b);
    }
    Rescan(tb, Opened(tb, i));
  }

  /** The rest of assoc_scan_final, once the placeholder is out. */
  function Closed(tb: Table, i: nat): (r: Table)
    requires Shape(tb) && i in tb.scans
    requires tb.scans[i].tabcnt > 0 ==> tb.scans[i].bucket < HASHSIZE && tb.refs[tb.scans[i].bucket] > 0
    ensures Shape(r)
  {
    var sc := tb.scans[i];
    tb.(scans := tb.scans - {i}, refs := if sc.tabcnt > 0 then tb.refs[sc.bucket := tb.refs[sc.bucket] - 1] else tb.refs)
  }

  lemma ActiveDrop(scans: map<nat, Scan>, i: nat, b: nat)
    requires i in scans
    ensures |ActiveAt(scans - {i}, b)| + Counted(scans[i], b) == |ActiveAt(scans, b)|
  {
    var rest := ActiveAt(scans - {i}, b);
    assert ActiveAt(scans, b) == if Counted(scans[i], b) == 1 then rest + {i} else rest;
  }

  lemma CloseWf(tb: Table, i: nat)
    requires Wf(tb) && i in tb.scans && !tb.scans[i].linked
    ensures tb.scans[i].tabcnt > 0 ==> tb.scans[i].bucket < HASHSIZE && tb.refs[tb.scans[i].bucket] > 0
    ensures Wf(Closed(tb, i))
  {
    if tb.scans[i].tabcnt > 0 { ActiveRef(tb, i); }
    var tb' := Closed(tb, i);
    forall b | 0 <= b < HASHSIZE ensures tb'.refs[b] == |ActiveAt(tb'.scans, b)| {
      ActiveDrop(tb.scans, i, b);
    }
    Rescan(tb, tb');
  }

  /** Once the scan is over its table index means nothing. */
  lemma OverHanded(tb: Table, i: nat, tabidx: nat)
    requires Wf(tb) && i in tb.scans && tb.scans[i].tabcnt == 0 && tb.scans[i].bucket == HASHSIZE
    ensures Handed(tb, tb.(scans := tb.scans[i := tb.scans[i].(tabidx := tabidx)]), i, [])
  {
    var tb' := tb.(scans := tb.scans[i := tb.scans[i].(tabidx := tabidx)]);
    assert ScanOk(tb, tb.scans[i]);
    forall b | 0 <= b < HASHSIZE ensures tb'.refs[b] == |ActiveAt(tb'.scans, b)| {
      SameActive(tb, i, tb'.scans[i], b);
    }
    Rescan(tb, tb');
    assert tb'.scans == tb.scans[i := tb'.scans[i]];
  }

  /** Between two buckets the table index is about to be reset. */
  function Reset(tb: Table, i: nat): Table
    requires i in tb.scans
  {
    if tb.scans[i].tabcnt == 0 then tb.(scans := tb.scans[i := tb.scans[i].(tabidx := 0)]) else tb
  }

  lemma ResetSettled(tb: Table, i: nat)
    requires Wf(tb) && i in tb.scans && tb.scans[i].bucket < HASHSIZE
    ensures Reset(tb, i) == tb
  {
    assert ScanOk(tb, tb.scans[i]);
    assert tb.scans[i := tb.scans[i]] == tb.scans;
  }

  lemma HandedWf(tb: Table, tb': Table, i: nat, out: seq<Node>)
    requires Handed(tb, tb', i, out)
    ensures Wf(tb') && i in tb'.scans && tb'.scans == tb.scans[i := tb'.scans[i]]
  {}

  lemma HandedAppend(a: Table, b: Table, c: Table, i: nat, out: seq<Node>)
    requires Handed(a, b, i, out) && Handed(b, c, i, [])
    ensures Handed(a, c, i, out)
  {
    HandedTwice(a, b, c, i, out, []);
    assert out + [] == out;
  }

  lemma UnholdOthers(tb: Table, i: nat, at: nat)
    requires Wf(tb) && InChain(tb, i) && tb.scans[i].linked && StartsAt(tb, i, at)
    ensures var now := Unhold(tb, i, at);
            && Wf(now) && now.geo == tb.geo && now.scans == tb.scans[i := tb.scans[i].(linked := false)]
            && (forall j, k | j in tb.scans && j != i :: Passed(now, j, k) == Passed(tb, j, k))
  {
    UnholdWf(tb, i, at);
    UnholdPassed(tb, i, at);
  }

  lemma ClosePassed(tb: Table, i: nat)
    requires Wf(tb) && i in tb.scans
    requires tb.scans[i].tabcnt > 0 ==> tb.scans[i].bucket < HASHSIZE && tb.refs[tb.scans[i].bucket] > 0
    ensures forall j, k | j in tb.scans && j != i :: Passed(Closed(tb, i), j, k) == Passed(tb, j, k)
  {}

  lemma WfHold(tb: Table, i: nat)
    requires Wf(tb) && i in tb.scans && tb.scans[i].linked
    ensures InChain(tb, i) && Hold(i) in ScanChain(tb, i)
  {
    assert ScanOk(tb, tb.scans[i]) && HoldOk(tb, i);
  }

  lemma WfKey(tb: Table, k: string)
    requires Wf(tb) && k in tb.live
    ensures KeyOk(tb, k)
  {}

  lemma WfItem(tb: Table, t: nat, b: nat, n: Node)
    requires Wf(tb) && t < |tb.root| && b < HASHSIZE && n in tb.root[t][b] && n.Item?
    ensures n.key in tb.live && tb.live[n.key] == n.id
  {
    assert ChainOk(tb, t, b) && NodeOk(tb, t, b, n);
  }
}
