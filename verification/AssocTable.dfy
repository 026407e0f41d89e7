/**
 * The state of the item hash table of engines/default/assoc.c and what every
 * operation on it keeps: where an item must be, which items are linked, and
 * what each open scan has passed.
 */
module AssocTable {
  import opened Arith
  import opened Chains

  /** Buckets per sub-table: hashpower is 16 and never changes. */
  const HASHSIZE: nat := 65536

  type uint32 = x: nat | x < 0x1_0000_0000

  /** How many sub-tables there are and how far an expansion has come. */
  datatype Geometry = Geometry(rootpower: nat, expanding: bool, expBucket: nat, expTabidx: nat) {
    function RootSize(): (r: nat)
      ensures r > 0
    {
      Pow2(rootpower)
    }

    /** The number of sub-tables before the last doubling. */
    function PrevSize(): (r: nat)
      ensures r > 0
      ensures rootpower > 0 ==> RootSize() == 2 * r
    {
      if rootpower == 0 then 1 else Pow2(rootpower - 1)
    }

    predicate Ok() {
      expanding ==> rootpower > 0 && expBucket < HASHSIZE && expTabidx <= PrevSize()
    }

    /** Between two calls the expansion always points at a chain still to move. */
    predicate Settled() {
      Ok() && (expanding ==> expTabidx < PrevSize())
    }
  }

  /** Sub-tables are only ever added, and an expansion starts only by adding some. */
  predicate Grows(g: Geometry, g': Geometry) {
    g'.rootpower > g.rootpower || (g'.rootpower == g.rootpower && (g'.expanding ==> g.expanding))
  }

  /** CUR_HASH_TABIDX: the sub-table that holds a hash value at present. */
  function TabIdx(g: Geometry, hash: nat): (t: nat)
    requires g.Ok()
    ensures t < g.RootSize()
  {
    var bucket, high := hash % HASHSIZE, hash / HASHSIZE;
    if g.expanding then
      if bucket < g.expBucket then high % g.PrevSize()
      else if bucket > g.expBucket then high % g.RootSize()
      else if high % g.PrevSize() < g.expTabidx then high % g.RootSize()
      else high % g.PrevSize()
    else high % g.RootSize()
  }

  /** The number of sub-tables in which bucket `b` can have items. */
  function Top(g: Geometry, b: nat): nat {
    if g.expanding && (b < g.expBucket || (b == g.expBucket && g.expTabidx == 0))
    then g.PrevSize() else g.RootSize()
  }

  lemma TabIdxBelowTop(g: Geometry, hash: nat)
    requires g.Ok()
    ensures TabIdx(g, hash) < Top(g, hash % HASHSIZE) <= g.RootSize()
  {}

  /** struct assoc_scan, without the placeholder node itself. */
  datatype Scan = Scan(bucket: nat, tabcnt: nat, tabidx: nat, linked: bool)

  /**
   * The table as a value. `hashOf` is the key hash of the server, `live` maps
   * each linked key to its item; the rest are the fields of struct assoc and
   * of the scans that are open on it.
   */
  datatype Table = Table(
    hashOf: string -> uint32,
    geo: Geometry,
    root: seq<seq<Chain>>,
    refs: seq<nat>,
    items: nat,
    scans: map<nat, Scan>,
    live: map<string, nat>)

  function Bucket(tb: Table, k: string): (b: nat)
    ensures b < HASHSIZE
  {
    tb.hashOf(k) % HASHSIZE
  }

  function Tab(tb: Table, k: string): (t: nat)
    requires tb.geo.Ok()
    ensures t < tb.geo.RootSize()
  {
    TabIdx(tb.geo, tb.hashOf(k))
  }

  predicate Shape(tb: Table) {
    && tb.geo.Ok()
    && |tb.root| == tb.geo.RootSize()
    && (forall t | 0 <= t < |tb.root| :: |tb.root[t]| == HASHSIZE)
    && |tb.refs| == HASHSIZE
  }

  predicate NodeOk(tb: Table, t: nat, b: nat, n: Node)
    requires tb.geo.Ok()
  {
    match n
    case Item(k, id) => k in tb.live && tb.live[k] == id && Bucket(tb, k) == b && Tab(tb, k) == t
    case Hold(i) => i in tb.scans && tb.scans[i].linked && tb.scans[i].bucket == b && tb.scans[i].tabidx == t
  }

  ghost predicate ChainOk(tb: Table, t: nat, b: nat)
    requires Shape(tb) && t < |tb.root| && b < HASHSIZE
  {
    NoClash(tb.root[t][b]) && forall n | n in tb.root[t][b] :: NodeOk(tb, t, b, n)
  }

  /** A linked key is found in the chain that TabIdx names. */
  predicate KeyOk(tb: Table, k: string)
    requires Shape(tb) && k in tb.live
  {
    Item(k, tb.live[k]) in tb.root[Tab(tb, k)][Bucket(tb, k)]
  }

  /**
   * A scan is between buckets (or over), or it is inside a bucket whose items
   * all lie in the sub-tables it will visit.
   */
  predicate ScanOk(tb: Table, sc: Scan) {
    if sc.tabcnt == 0 then
      !sc.linked && sc.bucket <= HASHSIZE && (sc.tabidx == 0 || sc.bucket == HASHSIZE)
    else
      && sc.bucket < HASHSIZE
      && Top(tb.geo, sc.bucket) <= sc.tabcnt <= tb.geo.RootSize()
      && sc.tabidx <= sc.tabcnt
      && (sc.linked ==> sc.tabidx < sc.tabcnt)
  }

  predicate HoldOk(tb: Table, i: nat)
    requires Shape(tb) && i in tb.scans && ScanOk(tb, tb.scans[i])
  {
    tb.scans[i].linked ==> Hold(i) in tb.root[tb.scans[i].tabidx][tb.scans[i].bucket]
  }

  /** The scans inside bucket `b`: what its reference count counts. */
  function ActiveAt(scans: map<nat, Scan>, b: nat): set<nat> {
    set i | i in scans && scans[i].tabcnt > 0 && scans[i].bucket == b
  }

  ghost predicate Wf(tb: Table) {
    && Shape(tb)
    && (forall t, b | 0 <= t < |tb.root| && 0 <= b < HASHSIZE :: ChainOk(tb, t, b))
    && (forall k | k in tb.live :: KeyOk(tb, k))
    && (forall i | i in tb.scans :: ScanOk(tb, tb.scans[i]) && HoldOk(tb, i))
    && (forall b | 0 <= b < HASHSIZE :: tb.refs[b] == |ActiveAt(tb.scans, b)|)
    && tb.items == |tb.live|
  }

  lemma WfShape(tb: Table)
    requires Wf(tb)
    ensures Shape(tb)
  {}

  lemma WfChain(tb: Table, t: nat, b: nat)
    requires Wf(tb) && t < |tb.root| && b < HASHSIZE
    ensures NoClash(tb.root[t][b]) && forall n | n in tb.root[t][b] :: NodeOk(tb, t, b, n)
  {
    assert ChainOk(tb, t, b);
  }

  /**
   * Scan `i` has passed key `k`: it is behind the scan's position and, if it is
   * linked in the chain where the placeholder sits, it is before the
   * placeholder. For a linked key this is assoc_scan_in_visited_area.
   */
  ghost predicate Passed(tb: Table, i: nat, k: string)
    requires Shape(tb) && i in tb.scans
  {
    var sc := tb.scans[i];
    var b, t := Bucket(tb, k), Tab(tb, k);
    || b < sc.bucket
    || (b == sc.bucket &&
        (|| t < sc.tabidx
         || (t == sc.tabidx && sc.linked &&
             (k in tb.live ==> Before(tb.root[t][b], Item(k, tb.live[k]), Hold(i))))))
  }
}
