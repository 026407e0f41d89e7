module AssocSteps {
  import opened Arith
  import opened Chains
  import opened AssocTable

  function SetChain(root: seq<seq<Chain>>, t: nat, b: nat, c: Chain): (r: seq<seq<Chain>>)
    requires t < |root| && b < |root[t]|
    ensures |r| == |root|
    ensures forall t' | 0 <= t' < |root| :: |r[t']| == |root[t']|
    ensures r[t][b] == c
    ensures forall t', b' | 0 <= t' < |root| && 0 <= b' < |root[t']| && (t' != t || b' != b) :: r[t'][b'] == root[t'][b']
  {
    root[t := root[t][b := c]]
  }

  function Push(tb: Table, k: string, id: nat): (r: Table)
    requires Shape(tb)
    ensures Shape(r)
  {
    var t, b := Tab(tb, k), Bucket(tb, k);
    tb.(root := SetChain(tb.root, t, b, InsertAt(tb.root[t][b], 0, Item(k, id))), live := tb.live[k := id], items := tb.items + 1)
  }

  ghost predicate SamePassed(tb: Table, tb': Table)
    requires Shape(tb) && Shape(tb')
  {
    && tb'.scans == tb.scans
    && forall i, k | i in tb.scans :: Passed(tb', i, k) == Passed(tb, i, k)
  }

  /**
   * A change confined to the chain of sub-table `t`, bucket `b` keeps the table
   * well formed when that chain, its keys and the scans do.
   */
  lemma LocalChange(tb: Table, tb': Table, t: nat, b: nat)
    requires Wf(tb) && Shape(tb') && t < |tb.root| && b < HASHSIZE
    requires tb'.hashOf == tb.hashOf && tb'.geo == tb.geo
    requires forall t', b' | 0 <= t' < |tb.root| && 0 <= b' < HASHSIZE && (t' != t || b' != b) :: tb'.root[t'][b'] == tb.root[t'][b']
    requires ChainOk(tb', t, b)
    requires forall k | Tab(tb, k) != t || Bucket(tb, k) != b ::
               if k in tb.live then k in tb'.live && tb'.live[k] == tb.live[k] else k !in tb'.live
    requires forall k | k in tb'.live && Tab(tb, k) == t && Bucket(tb, k) == b :: KeyOk(tb', k)
    requires forall i | i in tb.scans && tb.scans[i].linked && (tb.scans[i].tabidx != t || tb.scans[i].bucket != b) ::
               i in tb'.scans && tb'.scans[i] == tb.scans[i]
    requires forall i | i in tb'.scans :: ScanOk(tb', tb'.scans[i]) && HoldOk(tb', i)
    requires forall b | 0 <= b < HASHSIZE :: tb'.refs[b] == |ActiveAt(tb'.scans, b)|
    requires tb'.items == |tb'.live|
    ensures Wf(tb')
  {
    forall t', b' | 0 <= t' < |tb'.root| && 0 <= b' < HASHSIZE ensures ChainOk(tb', t', b') {
      assert ChainOk(tb, t', b');
      if t' != t || b' != b {
        forall n | n in tb'.root[t'][b'] ensures NodeOk(tb', t', b', n) {
          assert NodeOk(tb, t', b', n);
        }
      }
    }
    forall k | k in tb'.live ensures KeyOk(tb', k) {
      if Tab(tb, k) != t || Bucket(tb, k) != b {
        assert KeyOk(tb, k);
      }
    }
  }

  lemma PushWf(tb: Table, k: string, id: nat)
    requires Wf(tb) && k !in tb.live
    ensures Wf(Push(tb, k, id))
  {
    hide TabIdx;
    var tb' := Push(tb, k, id);
    var t, b := Tab(tb, k), Bucket(tb, k);
    var c := tb.root[t][b];
    assert ChainOk(tb, t, b);
    forall m | m in c ensures !Clash(Item(k, id), m) && NodeOk(tb', t, b, m) {
      assert NodeOk(tb, t, b, m);
    }
    NoClashInsert(c, 0, Item(k, id));
    forall j | j in tb'.live && Tab(tb, j) == t && Bucket(tb, j) == b ensures KeyOk(tb', j) {
      if j != k { assert KeyOk(tb, j); }
    }
    forall i | i in tb'.scans ensures ScanOk(tb', tb'.scans[i]) && HoldOk(tb', i) {
      assert ScanOk(tb, tb.scans[i]) && HoldOk(tb, i);
    }
    LocalChange(tb, tb', t, b);
  }

  lemma PushPassed(tb: Table, k: string, id: nat)
    requires Wf(tb) && k !in tb.live
    ensures SamePassed(tb, Push(tb, k, id))
  {
    var tb' := Push(tb, k, id);
    var t, b := Tab(tb, k), Bucket(tb, k);
    var c := tb.root[t][b];
    IndexIs(InsertAt(c, 0, Item(k, id)), Item(k, id), 0);
    forall i, j | i in tb.scans ensures Passed(tb', i, j) == Passed(tb, i, j) {
      if j == k {
        IndexInsert(c, 0, Item(k, id), Hold(i));
        assert HoldOk(tb, i);
      } else if j in tb.live {
        BeforeInsert(c, 0, Item(k, id), Item(j, tb.live[j]), Hold(i));
      }
    }
  }

  function Pull(tb: Table, k: string, at: nat): (r: Table)
    requires Shape(tb) && tb.items > 0
    requires at < |tb.root[Tab(tb, k)][Bucket(tb, k)]|
    ensures Shape(r)
  {
    var t, b := Tab(tb, k), Bucket(tb, k);
    var c := tb.root[t][b];
    tb.(root := SetChain(tb.root, t, b, RemoveAt(c, at)), live := tb.live - {k}, items := tb.items - 1)
  }

  ghost predicate LinkedAt(tb: Table, k: string, at: nat)
    requires Shape(tb)
  {
    var c := tb.root[Tab(tb, k)][Bucket(tb, k)];
    at < |c| && c[at].Item? && c[at].key == k
  }

  lemma LinkedAtLive(tb: Table, k: string, at: nat)
    requires Wf(tb) && LinkedAt(tb, k, at)
    ensures k in tb.live && tb.root[Tab(tb, k)][Bucket(tb, k)][at] == Item(k, tb.live[k]) && tb.items > 0
    ensures NoClash(tb.root[Tab(tb, k)][Bucket(tb, k)])
  {
    var t, b := Tab(tb, k), Bucket(tb, k);
    assert ChainOk(tb, t, b) && NodeOk(tb, t, b, tb.root[t][b][at]);
    assert |tb.live| == |tb.live - {k}| + 1;
  }

  lemma PullWf(tb: Table, k: string, at: nat)
    requires Wf(tb) && LinkedAt(tb, k, at)
    ensures tb.items > 0 && Wf(Pull(tb, k, at))
  {
    hide TabIdx;
    var t, b := Tab(tb, k), Bucket(tb, k);
    var c := tb.root[t][b];
    LinkedAtLive(tb, k, at);
    var tb' := Pull(tb, k, at);
    assert ChainOk(tb, t, b);
    Removed(c, at);
    forall n | n in tb'.root[t][b] ensures NodeOk(tb', t, b, n) {
      assert NodeOk(tb, t, b, n);
    }
    forall j | j in tb'.live && Tab(tb, j) == t && Bucket(tb, j) == b ensures KeyOk(tb', j) {
      assert KeyOk(tb, j);
    }
    forall i | i in tb'.scans ensures ScanOk(tb', tb'.scans[i]) && HoldOk(tb', i) {
      assert ScanOk(tb, tb.scans[i]) && HoldOk(tb, i);
    }
    assert |tb.live| == |tb'.live| + 1;
    LocalChange(tb, tb', t, b);
  }

  lemma PullPassedAt(tb: Table, k: string, at: nat, i: nat, j: string)
    requires Wf(tb) && LinkedAt(tb, k, at) && i in tb.scans && j != k
    ensures tb.items > 0
    ensures Passed(Pull(tb, k, at), i, j) == Passed(tb, i, j)
  {
    hide Wf, NoClash, IndexOf, InsertAt, RemoveAt, TabIdx;
    WfShape(tb);
    LinkedAtLive(tb, k, at);
    if j in tb.live {
      var c := tb.root[Tab(tb, k)][Bucket(tb, k)];
      BeforeInsert(RemoveAt(c, at), at, c[at], Item(j, tb.live[j]), Hold(i));
    }
  }

  lemma PullPassedSelf(tb: Table, k: string, at: nat, i: nat)
    requires Wf(tb) && LinkedAt(tb, k, at) && i in tb.scans
    ensures tb.items > 0
    ensures Passed(tb, i, k) ==> Passed(Pull(tb, k, at), i, k)
  {
    hide Wf, NoClash, IndexOf, InsertAt, RemoveAt, TabIdx;
    WfShape(tb);
    LinkedAtLive(tb, k, at);
  }

  lemma PullPassed(tb: Table, k: string, at: nat)
    requires Wf(tb) && LinkedAt(tb, k, at)
    ensures tb.items > 0
    ensures forall i, j | i in tb.scans && j != k :: Passed(Pull(tb, k, at), i, j) == Passed(tb, i, j)
    ensures forall i | i in tb.scans && Passed(tb, i, k) :: Passed(Pull(tb, k, at), i, k)
  {
    hide Wf, Passed, TabIdx;
    WfShape(tb);
    LinkedAtLive(tb, k, at);
    forall i, j | i in tb.scans && j != k ensures Passed(Pull(tb, k, at), i, j) == Passed(tb, i, j) {
      PullPassedAt(tb, k, at, i, j);
    }
    forall i | i in tb.scans && Passed(tb, i, k) ensures Passed(Pull(tb, k, at), i, k) {
      PullPassedSelf(tb, k, at, i);
    }
  }

  function Swap(tb: Table, k: string, at: nat, id: nat): (r: Table)
    requires Shape(tb)
    requires at < |tb.root[Tab(tb, k)][Bucket(tb, k)]|
    ensures Shape(r)
  {
    var t, b := Tab(tb, k), Bucket(tb, k);
    tb.(root := SetChain(tb.root, t, b, tb.root[t][b][at := Item(k, id)]), live := tb.live[k := id])
  }

  lemma SwapChain(tb: Table, k: string, at: nat, id: nat)
    requires Wf(tb) && LinkedAt(tb, k, at)
    ensures var tb' := Swap(tb, k, at, id);
            && ChainOk(tb', Tab(tb, k), Bucket(tb, k))
            && forall n: Node :: n.Hold? || n.key != k ==>
                 (n in tb'.root[Tab(tb, k)][Bucket(tb, k)] <==> n in tb.root[Tab(tb, k)][Bucket(tb, k)])
  {
    var t, b := Tab(tb, k), Bucket(tb, k);
    LinkedAtLive(tb, k, at);
    var tb' := Swap(tb, k, at, id);
    assert ChainOk(tb, t, b);
    Replaced(tb.root[t][b], at, Item(k, id));
    forall n | n in tb'.root[t][b] ensures NodeOk(tb', t, b, n) {
      if n != Item(k, id) { assert NodeOk(tb, t, b, n); }
    }
  }

  lemma SwapWf(tb: Table, k: string, at: nat, id: nat)
    requires Wf(tb) && LinkedAt(tb, k, at)
    ensures Wf(Swap(tb, k, at, id))
  {
    hide TabIdx;
    var t, b := Tab(tb, k), Bucket(tb, k);
    LinkedAtLive(tb, k, at);
    SwapChain(tb, k, at, id);
    var tb' := Swap(tb, k, at, id);
    assert tb'.root[t][b][at] == Item(k, id);
    forall j | j in tb'.live && Tab(tb, j) == t && Bucket(tb, j) == b ensures KeyOk(tb', j) {
      if j != k { assert KeyOk(tb, j); }
    }
    forall i | i in tb'.scans ensures ScanOk(tb', tb'.scans[i]) && HoldOk(tb', i) {
      assert ScanOk(tb, tb.scans[i]) && HoldOk(tb, i);
    }
    assert tb'.live.Keys == tb.live.Keys;
    LocalChange(tb, tb', t, b);
  }

  lemma SwapPassedAt(tb: Table, k: string, at: nat, id: nat, i: nat, j: string)
    requires Wf(tb) && LinkedAt(tb, k, at) && i in tb.scans
    ensures Passed(Swap(tb, k, at, id), i, j) == Passed(tb, i, j)
  {
    hide Wf, NoClash, IndexOf, TabIdx;
    WfShape(tb);
    LinkedAtLive(tb, k, at);
    Replaced(tb.root[Tab(tb, k)][Bucket(tb, k)], at, Item(k, id));
  }

  lemma SwapPassed(tb: Table, k: string, at: nat, id: nat)
    requires Wf(tb) && LinkedAt(tb, k, at)
    ensures SamePassed(tb, Swap(tb, k, at, id))
  {
    hide Wf, Passed, TabIdx;
    WfShape(tb);
    forall i, j | i in tb.scans ensures Passed(Swap(tb, k, at, id), i, j) == Passed(tb, i, j) {
      SwapPassedAt(tb, k, at, id, i, j);
    }
  }

  /** A new geometry that moves no key, with empty sub-tables added. */
  ghost predicate Regeo(tb: Table, g: Geometry, extra: seq<seq<Chain>>)
    requires Shape(tb)
  {
    && g.Ok() && |tb.root| + |extra| == g.RootSize()
    && (forall t | 0 <= t < |extra| :: |extra[t]| == HASHSIZE && forall b | 0 <= b < HASHSIZE :: extra[t][b] == [])
    && (forall h :: 0 <= h ==> TabIdx(g, h) == TabIdx(tb.geo, h))
    && (forall b | 0 <= b < HASHSIZE :: Top(g, b) <= Top(tb.geo, b))
  }

  lemma RegeoPassed(tb: Table, g: Geometry, extra: seq<seq<Chain>>)
    requires Wf(tb) && Regeo(tb, g, extra)
    ensures var tb' := tb.(geo := g, root := tb.root + extra); Shape(tb') && SamePassed(tb, tb')
  {
    hide Wf, Top, IndexOf;
    WfShape(tb);
  }

  lemma RegeoWf(tb: Table, g: Geometry, extra: seq<seq<Chain>>)
    requires Wf(tb) && Regeo(tb, g, extra)
    ensures Wf(tb.(geo := g, root := tb.root + extra))
  {
    hide NoClash;
    var tb' := tb.(geo := g, root := tb.root + extra);
    forall t, b | 0 <= t < |tb'.root| && 0 <= b < HASHSIZE ensures ChainOk(tb', t, b) {
      if t < |tb.root| {
        assert ChainOk(tb, t, b);
      } else {
        assert NoClash([]) by { EmptyNoClash(); }
      }
    }
    forall k | k in tb'.live ensures KeyOk(tb', k) {
      assert KeyOk(tb, k);
    }
    forall i | i in tb'.scans ensures ScanOk(tb', tb'.scans[i]) && HoldOk(tb', i) {
      assert ScanOk(tb, tb.scans[i]) && HoldOk(tb, i);
    }
  }

  lemma EmptyNoClash()
    ensures NoClash([])
  {}

  /** assoc_expand: twice the sub-tables, nothing moved yet. */
  lemma ExpandWf(tb: Table, extra: seq<seq<Chain>>)
    requires Wf(tb) && !tb.geo.expanding && |extra| == |tb.root|
    requires forall t | 0 <= t < |extra| :: |extra[t]| == HASHSIZE && forall b | 0 <= b < HASHSIZE :: extra[t][b] == []
    ensures var g := Geometry(tb.geo.rootpower + 1, true, HASHSIZE - 1, 0);
            var tb' := tb.(geo := g, root := tb.root + extra);
            g.Settled() && Wf(tb') && SamePassed(tb, tb')
  {
    RegeoWf(tb, Geometry(tb.geo.rootpower + 1, true, HASHSIZE - 1, 0), extra);
    RegeoPassed(tb, Geometry(tb.geo.rootpower + 1, true, HASHSIZE - 1, 0), extra);
  }

  /** The expansion state after the last sub-table of a bucket was moved. */
  function NextBucket(g: Geometry): Geometry
  {
    if g.expanding && g.expTabidx >= g.PrevSize() then
      if g.expBucket > 0 then g.(expTabidx := 0, expBucket := g.expBucket - 1)
      else g.(expTabidx := 0, expanding := false)
    else g
  }

  lemma NextBucketWf(tb: Table)
    requires Wf(tb)
    ensures var tb' := tb.(geo := NextBucket(tb.geo));
            tb'.geo.Settled() && Wf(tb') && SamePassed(tb, tb')
  {
    RegeoWf(tb, NextBucket(tb.geo), []);
    RegeoPassed(tb, NextBucket(tb.geo), []);
    assert tb.root + [] == tb.root;
  }

  /** The next chain to move: in a table whose expansion is under way. */
  predicate Moving(tb: Table) {
    Shape(tb) && tb.geo.expanding && tb.geo.expTabidx < tb.geo.PrevSize()
  }

  /** The chain at the expansion point, parted by the sub-table its items now belong to. */
  ghost predicate Parted(tb: Table, stay: Chain, moved: Chain)
    requires Moving(tb)
  {
    var t, c := tb.geo.expTabidx, tb.root[tb.geo.expTabidx][tb.geo.expBucket];
    && NoClash(stay) && NoClash(moved)
    && (forall n :: n in stay <==> n in c && n.Item? && HighIdx(tb, n.key) == t)
    && (forall n :: n in moved <==> n in c && n.Item? && HighIdx(tb, n.key) != t)
  }

  /** One step of redistribute: the chain at the expansion point is parted. */
  function MoveChain(tb: Table, stay: Chain, moved: Chain): (r: Table)
    requires Moving(tb)
    ensures Shape(r)
  {
    var t, b, p := tb.geo.expTabidx, tb.geo.expBucket, tb.geo.PrevSize();
    tb.(geo := tb.geo.(expTabidx := t + 1),
        root := SetChain(SetChain(tb.root, t, b, stay), t + p, b, moved + tb.root[t + p][b]))
  }

  /** The sub-table an item belongs to once its bucket is expanded. */
  function HighIdx(tb: Table, k: string): nat {
    tb.hashOf(k) / HASHSIZE % tb.geo.RootSize()
  }

  lemma QuietBucket(tb: Table, b: nat, t: nat)
    requires Wf(tb) && b < HASHSIZE && tb.refs[b] == 0 && t < |tb.root|
    ensures forall n | n in tb.root[t][b] :: n.Item?
    ensures forall i | i in tb.scans && tb.scans[i].bucket == b :: tb.scans[i].tabcnt == 0
  {
    assert ActiveAt(tb.scans, b) == {};
    forall i | i in tb.scans && tb.scans[i].bucket == b ensures tb.scans[i].tabcnt == 0 {
      assert i !in ActiveAt(tb.scans, b);
    }
    forall n | n in tb.root[t][b] ensures n.Item? {
      assert ChainOk(tb, t, b) && NodeOk(tb, t, b, n);
    }
  }

  /** While a bucket is half moved, the target of its next chain is still empty. */
  lemma TargetEmpty(tb: Table)
    requires Wf(tb) && Moving(tb) && tb.refs[tb.geo.expBucket] == 0
    ensures tb.root[tb.geo.expTabidx + tb.geo.PrevSize()][tb.geo.expBucket] == []
  {
    var t, b := tb.geo.expTabidx + tb.geo.PrevSize(), tb.geo.expBucket;
    var c := tb.root[t][b];
    QuietBucket(tb, b, t);
    if c != [] {
      assert ChainOk(tb, t, b) && NodeOk(tb, t, b, c[0]);
      ModDouble(tb.hashOf(c[0].key) / HASHSIZE, tb.geo.PrevSize(), tb.geo.RootSize());
      assert false;
    }
  }

  /** How one step of redistribute changes the place of a key. */
  lemma TabAfterMove(tb: Table, k: string)
    requires tb.geo.Ok() && tb.geo.expanding && tb.geo.expTabidx < tb.geo.PrevSize()
    ensures var g' := tb.geo.(expTabidx := tb.geo.expTabidx + 1);
            g'.Ok() && Tab(tb.(geo := g'), k) ==
            if Bucket(tb, k) == tb.geo.expBucket && Tab(tb, k) == tb.geo.expTabidx then HighIdx(tb, k) else Tab(tb, k)
    ensures Bucket(tb, k) == tb.geo.expBucket && Tab(tb, k) == tb.geo.expTabidx ==>
            HighIdx(tb, k) == tb.geo.expTabidx || HighIdx(tb, k) == tb.geo.expTabidx + tb.geo.PrevSize()
  {
    ModDouble(tb.hashOf(k) / HASHSIZE, tb.geo.PrevSize(), tb.geo.RootSize());
  }

  lemma MovedNode(tb: Table, stay: Chain, moved: Chain, t': nat, b': nat, n: Node)
    requires Wf(tb) && Moving(tb) && tb.refs[tb.geo.expBucket] == 0 && Parted(tb, stay, moved)
    requires t' < |tb.root| && b' < HASHSIZE && n in MoveChain(tb, stay, moved).root[t'][b']
    ensures NodeOk(MoveChain(tb, stay, moved), t', b', n)
  {
    hide NoClash;
    var t, b, p := tb.geo.expTabidx, tb.geo.expBucket, tb.geo.PrevSize();
    TargetEmpty(tb);
    assert ChainOk(tb, t', b') && ChainOk(tb, t, b);
    if b' == b && (t' == t || t' == t + p) {
      assert n in tb.root[t][b] && NodeOk(tb, t, b, n);
    } else {
      assert NodeOk(tb, t', b', n);
    }
    if n.Item? { TabAfterMove(tb, n.key); }
  }

  lemma MoveChainOk(tb: Table, stay: Chain, moved: Chain, t: nat, b: nat)
    requires Wf(tb) && Moving(tb) && tb.refs[tb.geo.expBucket] == 0 && Parted(tb, stay, moved)
    requires t < |tb.root| && b < HASHSIZE
    ensures ChainOk(MoveChain(tb, stay, moved), t, b)
  {
    hide NodeOk;
    TargetEmpty(tb);
    assert ChainOk(tb, t, b);
    assert moved + [] == moved;
    forall n | n in MoveChain(tb, stay, moved).root[t][b] ensures NodeOk(MoveChain(tb, stay, moved), t, b, n) {
      MovedNode(tb, stay, moved, t, b, n);
    }
  }

  lemma MoveChainKey(tb: Table, stay: Chain, moved: Chain, k: string)
    requires Wf(tb) && Moving(tb) && tb.refs[tb.geo.expBucket] == 0 && Parted(tb, stay, moved) && k in tb.live
    ensures KeyOk(MoveChain(tb, stay, moved), k)
  {
    hide NoClash;
    assert KeyOk(tb, k);
    TabAfterMove(tb, k);
  }

  lemma MoveChainWf(tb: Table, stay: Chain, moved: Chain)
    requires Wf(tb) && Moving(tb) && tb.refs[tb.geo.expBucket] == 0 && Parted(tb, stay, moved)
    ensures Wf(MoveChain(tb, stay, moved))
  {
    hide ChainOk, KeyOk, Parted;
    var tb' := MoveChain(tb, stay, moved);
    QuietBucket(tb, tb.geo.expBucket, tb.geo.expTabidx);
    forall t, b | 0 <= t < |tb'.root| && 0 <= b < HASHSIZE ensures ChainOk(tb', t, b) {
      MoveChainOk(tb, stay, moved, t, b);
    }
    forall k | k in tb'.live ensures KeyOk(tb', k) {
      MoveChainKey(tb, stay, moved, k);
    }
    forall i | i in tb'.scans ensures ScanOk(tb', tb'.scans[i]) && HoldOk(tb', i) {
      assert ScanOk(tb, tb.scans[i]) && HoldOk(tb, i);
    }
  }

  lemma MoveChainPassed(tb: Table, stay: Chain, moved: Chain)
    requires Wf(tb) && Moving(tb) && tb.refs[tb.geo.expBucket] == 0 && Parted(tb, stay, moved)
    ensures SamePassed(tb, MoveChain(tb, stay, moved))
  {
    var tb' := MoveChain(tb, stay, moved);
    QuietBucket(tb, tb.geo.expBucket, tb.geo.expTabidx);
    forall i, k | i in tb.scans ensures Passed(tb', i, k) == Passed(tb, i, k) {
      TabAfterMove(tb, k);
      assert ScanOk(tb, tb.scans[i]);
    }
  }
}
