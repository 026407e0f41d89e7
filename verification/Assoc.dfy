/** The hash table of engines/default/assoc.c, each call atomic under the cache lock. */
module Assoc {
  import opened Options
  import opened Arith
  import opened Chains
  import opened AssocTable
  import opened AssocSteps
  import opened AssocScan
  import opened AssocRuns

  /** hash_expansion_limit for a number of sub-tables: zero forbids further doubling. */
  function ExpansionLimit(rootpower: nat): nat {
    if rootpower < 15 then HASHSIZE * Pow2(rootpower) * 3 / 2 else 0
  }

  lemma SamePassedTwice(a: Table, b: Table, c: Table)
    requires Shape(a) && Shape(b) && Shape(c) && SamePassed(a, b) && SamePassed(b, c)
    ensures SamePassed(a, c)
  {
    hide Passed, Shape;
  }

  /** How many elements some items have. */
  function Elems(ccnt: nat -> nat, ns: seq<Node>): nat {
    if ns == [] then 0
    else
      var n := |ns| - 1;
      Elems(ccnt, ns[..n]) + if ns[n].Item? then ccnt(ns[n].id) else 0
  }

  lemma {:induction false} ElemsConcat(ccnt: nat -> nat, a: seq<Node>, b: seq<Node>)
    ensures Elems(ccnt, a + b) == Elems(ccnt, a) + Elems(ccnt, b)
    decreases |b|
  {
    if b == [] {
      assert a + b == a;
    } else {
      var n := |b| - 1;
      ElemsConcat(ccnt, a, b[..n]);
      assert (a + b)[..|a| + n] == a + b[..n];
    }
  }

  /** Handing out `got` after items with `e0` elements: the limit was not exceeded before the last item and, if more may come, is not now. */
  ghost predicate Tally(limit: nat, ccnt: nat -> nat, e0: nat, got: seq<Node>, e: nat, more: bool) {
    limit > 0 ==>
      && (got != [] ==> e0 + Elems(ccnt, got[..|got| - 1]) <= limit)
      && (more ==> e == e0 + Elems(ccnt, got) <= limit)
  }

  /** No more is handed out: there is no room, or there are too many elements. */
  ghost predicate Enough(limit: nat, ccnt: nat -> nat, e0: nat, got: seq<Node>, room: nat) {
    |got| == room || (limit > 0 && e0 + Elems(ccnt, got) > limit)
  }

  lemma TallyTwice(limit: nat, ccnt: nat -> nat, e0: nat, a: seq<Node>, e1: nat, b: seq<Node>, e2: nat, more: bool)
    requires Tally(limit, ccnt, e0, a, e1, true) && Tally(limit, ccnt, e1, b, e2, more)
    ensures Tally(limit, ccnt, e0, a + b, e2, more)
    ensures forall room :: Enough(limit, ccnt, e1, b, room) ==> Enough(limit, ccnt, e0, a + b, |a| + room)
  {
    hide Elems;
    ElemsConcat(ccnt, a, b);
    if b != [] {
      ElemsConcat(ccnt, a, b[..|b| - 1]);
      assert (a + b)[..|a + b| - 1] == a + b[..|b| - 1];
    } else {
      assert a + b == a;
      ElemsNone(ccnt);
    }
  }

  lemma ElemsNone(ccnt: nat -> nat)
    ensures Elems(ccnt, []) == 0
  {}

  lemma ElemsSnoc(ccnt: nat -> nat, ns: seq<Node>, n: Node)
    ensures Elems(ccnt, ns + [n]) == Elems(ccnt, ns) + (if n.Item? then ccnt(n.id) else 0) && (ns + [n])[..|ns|] == ns
  {
    assert (ns + [n])[..|ns|] == ns;
  }

  /** The length of a chain, placeholders included. */
  function Len(root: seq<seq<Chain>>, t: nat, b: nat): nat {
    if t < |root| && b < |root[t]| then |root[t][b]| else 0
  }

  /** All chains but one keep their lengths. */
  ghost predicate SameElsewhere(root: seq<seq<Chain>>, root': seq<seq<Chain>>, t: nat, b: nat) {
    forall t': nat, b': nat | t' != t || b' != b :: Len(root', t', b') == Len(root, t', b')
  }

  lemma SetElsewhere(root: seq<seq<Chain>>, t: nat, b: nat, c: Chain)
    requires t < |root| && b < |root[t]|
    ensures SameElsewhere(root, SetChain(root, t, b, c), t, b)
  {}

  /** A stretch of a chain changes that chain only, and is not longer than it. */
  lemma AdvancedElsewhere(tb: Table, i: nat, from: nat, stop: nat)
    requires InChain(tb, i) && (tb.scans[i].linked ==> from < |ScanChain(tb, i)|) && stop <= |ScanChain(Freed(tb, i, from), i)|
    ensures var sc, tb' := tb.scans[i], Advanced(tb, i, from, stop);
            && SameElsewhere(tb.root, tb'.root, sc.tabidx, sc.bucket) && stop <= Len(tb.root, sc.tabidx, sc.bucket)
            && i in tb'.scans && tb'.scans[i].tabidx + (if tb'.scans[i].linked then 1 else 0) == sc.tabidx + 1
  {
    hide SetChain;
    var sc, f := tb.scans[i], Freed(tb, i, from);
    if sc.linked { SetElsewhere(tb.root, sc.tabidx, sc.bucket, RemoveAt(ScanChain(tb, i), from)); }
    if stop < |ScanChain(f, i)| { SetElsewhere(f.root, sc.tabidx, sc.bucket, InsertAt(ScanChain(f, i), stop, Hold(i))); }
  }

  /** What it costs at most to walk the chains of a bucket from sub-table `t0` up to `t1`. */
  function Row(root: seq<seq<Chain>>, b: nat, t0: nat, t1: nat): nat
    decreases t1
  {
    if t1 <= t0 then 0 else Row(root, b, t0, t1 - 1) + 1 + Len(root, t1 - 1, b)
  }

  /** The chains of other buckets, and those from sub-table `t` on, have the lengths they had. */
  ghost predicate Ahead(root: seq<seq<Chain>>, root': seq<seq<Chain>>, b: nat, t: nat) {
    forall t': nat, b': nat | b' != b || t' >= t :: Len(root', t', b') == Len(root, t', b')
  }

  /** The chains of a bucket from sub-table `t0` up to `t` were walked, at a cost of no more than theirs. */
  ghost predicate Strolled(root: seq<seq<Chain>>, root': seq<seq<Chain>>, b: nat, t0: nat, t: nat, cost: nat) {
    t0 <= t && Ahead(root, root', b, t) && cost <= Row(root, b, t0, t)
  }

  lemma StrolledStep(root: seq<seq<Chain>>, root1: seq<seq<Chain>>, root2: seq<seq<Chain>>, b: nat, t0: nat, t: nat, cost1: nat, cost2: nat)
    requires Strolled(root, root1, b, t0, t, cost1) && SameElsewhere(root1, root2, t, b) && cost2 <= cost1 + 1 + Len(root1, t, b)
    ensures Strolled(root, root2, b, t0, t + 1, cost2)
  {
    hide Len;
  }

  /** Where a scan has come to in its bucket. */
  function Reached(sc: Scan): nat { sc.tabidx + if sc.linked then 1 else 0 }

  /** What it costs at most to walk from a scan's position up to sub-table `t` of bucket `b`, with `n` sub-tables: one per chain and one per node. */
  function Way(root: seq<seq<Chain>>, sc: Scan, n: nat, b: nat, t: nat): nat
    decreases b
  {
    if b <= sc.bucket then Row(root, b, if sc.tabcnt > 0 then sc.tabidx else 0, t)
    else Way(root, sc, n, b - 1, if b - 1 == sc.bucket && sc.tabcnt > 0 then sc.tabcnt else n) + Row(root, b, 0, t)
  }

  /** Items are handed out in chain order until the array is full or the elements are too many. */
  method WalkChain(chain: Chain, from: nat, room: nat, elemLimit: nat, ccnt: nat -> nat, elems0: nat, cost0: nat)
    returns (got: seq<Node>, next: nat, elems: nat, cost: nat)
    requires from <= |chain| && room > 0 && (elemLimit > 0 ==> elems0 <= elemLimit)
    ensures from <= next <= |chain| && |got| <= room
    ensures got == Items(chain[from..if next < |chain| then next + 1 else next])
    ensures next < |chain| ==> got != []
    ensures |got| == room ==> next < |chain|
    ensures cost == cost0 + next - from
    ensures Tally(elemLimit, ccnt, elems0, got, elems, next == |chain|)
    ensures next < |chain| ==> Enough(elemLimit, ccnt, elems0, got, room)
  {
    hide Items, Elems;
    got, next, elems, cost := [], from, elems0, cost0;
    ItemsNone(chain, from);
    ElemsNone(ccnt);
    while next < |chain|
      invariant from <= next <= |chain| && |got| < room && cost == cost0 + next - from
      invariant got == Items(chain[from..next])
      invariant Tally(elemLimit, ccnt, elems0, got, elems, true)
    {
      ItemsStep(chain, from, next);
      if chain[next].Item? {
        ElemsSnoc(ccnt, got, chain[next]);
        got := got + [chain[next]];
        if |got| >= room { break; }
        if elemLimit > 0 {
          elems := elems + ccnt(chain[next].id);
          if elems > elemLimit { break; }
        }
      }
      next, cost := next + 1, cost + 1;
    }
  }

  /** The inner loop of redistribute: keep the items of sub-table `t`, push the others on the front of their chain. */
  method PartChain(c: Chain, hashOf: string -> uint32, rootsize: nat, t: nat) returns (stay: Chain, moved: Chain)
    requires NoClash(c) && rootsize > 0 && forall n | n in c :: n.Item?
    ensures NoClash(stay) && NoClash(moved)
    ensures forall n :: n in stay <==> n in c && n.Item? && hashOf(n.key) / HASHSIZE % rootsize == t
    ensures forall n :: n in moved <==> n in c && n.Item? && hashOf(n.key) / HASHSIZE % rootsize != t
  {
    stay, moved := [], [];
    var j := 0;
    while j < |c|
      invariant 0 <= j <= |c|
      invariant NoClash(stay) && NoClash(moved)
      invariant forall n :: n in stay <==> n in c[..j] && n.Item? && hashOf(n.key) / HASHSIZE % rootsize == t
      invariant forall n :: n in moved <==> n in c[..j] && n.Item? && hashOf(n.key) / HASHSIZE % rootsize != t
    {
      var it := c[j];
      assert c[..j + 1] == c[..j] + [it];
      forall n | n in c[..j] ensures !Clash(it, n) {
        var q :| 0 <= q < j && c[q] == n;
        assert !Clash(c[q], c[j]);
      }
      var tabidx := hashOf(it.key) / HASHSIZE % rootsize;
      if tabidx == t {
        NoClashInsert(stay, |stay|, it);
        stay := InsertAt(stay, |stay|, it);
      } else {
        NoClashInsert(moved, 0, it);
        moved := InsertAt(moved, 0, it);
      }
      j := j + 1;
    }
    assert c[..|c|] == c;
  }

  /** Four more chains of the bucket are parted, or the last ones; then comes the bucket before it, or the end of the expansion. */
  predicate Moved(g: Geometry, g': Geometry) {
    && g.expanding && g'.rootpower == g.rootpower
    && if g.expTabidx + 4 < g.PrevSize() then g'.expanding && g'.expBucket == g.expBucket && g'.expTabidx == g.expTabidx + 4
       else g'.expTabidx == 0 && (g'.expanding <==> g.expBucket > 0) && (g'.expanding ==> g'.expBucket == g.expBucket - 1)
  }

  lemma SetOut(limit: nat, ccnt: nat -> nat, e: nat, root: seq<seq<Chain>>, sc: Scan)
    requires limit > 0 ==> e <= limit
    ensures Tally(limit, ccnt, e, [], e, true) && Strolled(root, root, sc.bucket, sc.tabidx, sc.tabidx, 0)
  {}

  lemma TallyBelow(limit: nat, ccnt: nat -> nat, e0: nat, got: seq<Node>, e: nat)
    requires Tally(limit, ccnt, e0, got, e, true)
    ensures Tally(limit, ccnt, e0, got, e, false) && (limit > 0 ==> e <= limit)
  {}

  /** A call of the scan between two buckets: what it has handed out and where it has come to. */
  ghost predicate OnTheWay(limit: nat, ccnt: nat -> nat, out: seq<Node>, e: nat, root: seq<seq<Chain>>, root': seq<seq<Chain>>, sc: Scan, n: nat, now: Scan, cost: nat) {
    && Tally(limit, ccnt, 0, out, e, true) && (limit > 0 ==> e <= limit)
    && Come(root, root', sc, n, now.bucket, Begins(now), cost)
    && if now.bucket == sc.bucket then now == sc else now.tabcnt == 0
  }

  lemma SetOutAll(limit: nat, ccnt: nat -> nat, root: seq<seq<Chain>>, sc: Scan, n: nat)
    ensures OnTheWay(limit, ccnt, [], 0, root, root, sc, n, sc, 0)
  {
    hide Tally, Come;
    SetOut(limit, ccnt, 0, root, sc);
    ComeStart(root, sc, n);
  }

  /** Why a call of the scan stops. */
  ghost predicate Stopped(limit: nat, ccnt: nat -> nat, out: seq<Node>, size: nat, root: seq<seq<Chain>>, sc: Scan, n: nat, now: Scan) {
    || |out| == size || (limit > 0 && Elems(ccnt, out) > limit)
    || Way(root, sc, n, now.bucket, Reached(now)) > 2 * size
  }

  ghost predicate NoneOver(limit: nat, ccnt: nat -> nat, out: seq<Node>) {
    limit > 0 && out != [] ==> Elems(ccnt, out[..|out| - 1]) <= limit
  }

  lemma WayEnds(limit: nat, ccnt: nat -> nat, out: seq<Node>, e: nat, root: seq<seq<Chain>>, root': seq<seq<Chain>>, sc: Scan, n: nat, now: Scan, cost: nat)
    requires OnTheWay(limit, ccnt, out, e, root, root', sc, n, now, cost)
    ensures NoneOver(limit, ccnt, out)
  {
    hide Elems, Come;
  }

  /** Through one bucket: the call stops there, or goes on to the next. */
  lemma OneBucket(limit: nat, ccnt: nat -> nat, out: seq<Node>, e: nat, root: seq<seq<Chain>>, root1: seq<seq<Chain>>, sc: Scan, n: nat, sc1: Scan, cost1: nat,
                  got: seq<Node>, e2: nat, root2: seq<seq<Chain>>, sc2: Scan, cost: nat, done: bool, size: nat)
    requires OnTheWay(limit, ccnt, out, e, root, root1, sc, n, sc1, cost1) && |out| < size
    requires Tally(limit, ccnt, e, got, e2, !done) && (done ==> Enough(limit, ccnt, e, got, size - |out|) || cost > 2 * size)
    requires cost1 <= cost && Strolled(root1, root2, sc1.bucket, Begins(sc1), Reached(sc2), cost - cost1)
    requires sc2.bucket == sc1.bucket && sc2.tabcnt == if sc1.tabcnt > 0 then sc1.tabcnt else n
    requires !done ==> Reached(sc2) == sc2.tabcnt
    ensures done ==> Stopped(limit, ccnt, out + got, size, root, sc, n, sc2) && NoneOver(limit, ccnt, out + got)
    ensures !done ==> forall sc3: Scan | sc3.bucket == sc2.bucket + 1 && sc3.tabcnt == 0 ::
                        OnTheWay(limit, ccnt, out + got, e2, root, root2, sc, n, sc3, cost)
  {
    hide Tally, Enough, Come, Strolled, Elems, Way;
    TallyTwice(limit, ccnt, 0, out, e, got, e2, !done);
    ComeStroll(root, root1, root2, sc, n, sc1.bucket, Begins(sc1), Reached(sc2), cost1, cost - cost1);
    if done {
      Stops(limit, ccnt, out + got, e2, size, root, root2, sc, n, sc2, cost);
    } else {
      TallyBelow(limit, ccnt, 0, out + got, e2);
      ComeNext(root, root2, sc, n, sc2.bucket, cost);
      ComeBucket(root, root2, sc, n, sc2.bucket, sc2.tabcnt, cost);
    }
  }

  lemma ComeBucket(root: seq<seq<Chain>>, root': seq<seq<Chain>>, sc: Scan, n: nat, b: nat, t: nat, cost: nat)
    requires Come(root, root', sc, n, b, t, cost)
    ensures b >= sc.bucket
  {}

  lemma Stops(limit: nat, ccnt: nat -> nat, out: seq<Node>, e: nat, size: nat, root: seq<seq<Chain>>, root': seq<seq<Chain>>, sc: Scan, n: nat, now: Scan, cost: nat)
    requires Tally(limit, ccnt, 0, out, e, false) && (Enough(limit, ccnt, 0, out, size) || cost > 2 * size)
    requires Come(root, root', sc, n, now.bucket, Reached(now), cost)
    ensures Stopped(limit, ccnt, out, size, root, sc, n, now) && NoneOver(limit, ccnt, out)
  {
    hide Elems, Way, Len;
  }

  lemma TabBound(tb: Table, i: nat)
    requires Wf(tb) && i in tb.scans
    ensures tb.scans[i].tabcnt > 0 ==> tb.scans[i].tabidx <= tb.scans[i].tabcnt <= tb.geo.RootSize() && tb.scans[i].bucket < HASHSIZE
    ensures tb.scans[i].tabcnt > 0 && tb.scans[i].tabidx == tb.scans[i].tabcnt ==> !tb.scans[i].linked
  {
    assert ScanOk(tb, tb.scans[i]);
  }

  lemma InChainNow(tb: Table, i: nat)
    requires Wf(tb) && i in tb.scans && tb.scans[i].tabidx < tb.scans[i].tabcnt
    ensures InChain(tb, i)
  {
    assert ScanOk(tb, tb.scans[i]);
  }

  /** Where a scan begins in its bucket. */
  function Begins(sc: Scan): nat { if sc.tabcnt > 0 then sc.tabidx else 0 }

  /** How many sub-tables a scan visits in bucket `b`. */
  function Count(sc: Scan, n: nat, b: nat): nat { if b == sc.bucket && sc.tabcnt > 0 then sc.tabcnt else n }

  /** A scan that was at `sc` has come to sub-table `t` of bucket `b` at a cost of no more than that of the way; what lies ahead is as it was. */
  ghost predicate Come(root: seq<seq<Chain>>, root': seq<seq<Chain>>, sc: Scan, n: nat, b: nat, t: nat, cost: nat) {
    && b >= sc.bucket && (b == sc.bucket ==> t >= Begins(sc)) && cost <= Way(root, sc, n, b, t)
    && (forall t': nat, b': nat | b' > b || (b' == b && t' >= t) :: Len(root', t', b') == Len(root, t', b'))
  }

  lemma {:induction false} RowSplit(root: seq<seq<Chain>>, b: nat, t0: nat, t: nat, t1: nat)
    requires t0 <= t <= t1
    ensures Row(root, b, t0, t1) == Row(root, b, t0, t) + Row(root, b, t, t1)
    decreases t1
  {
    if t < t1 { RowSplit(root, b, t0, t, t1 - 1); }
  }

  lemma {:induction false} RowSame(root: seq<seq<Chain>>, root': seq<seq<Chain>>, b: nat, t0: nat, t1: nat)
    requires forall t: nat | t0 <= t < t1 :: Len(root', t, b) == Len(root, t, b)
    ensures Row(root', b, t0, t1) == Row(root, b, t0, t1)
    decreases t1
  {
    hide Len;
    if t0 < t1 { RowSame(root, root', b, t0, t1 - 1); }
  }

  lemma ComeStart(root: seq<seq<Chain>>, sc: Scan, n: nat)
    ensures Come(root, root, sc, n, sc.bucket, Begins(sc), 0)
  {}

  /** On through a bucket. */
  lemma ComeStroll(root: seq<seq<Chain>>, root1: seq<seq<Chain>>, root2: seq<seq<Chain>>, sc: Scan, n: nat, b: nat, t: nat, t2: nat, cost: nat, more: nat)
    requires Come(root, root1, sc, n, b, t, cost) && Strolled(root1, root2, b, t, t2, more)
    ensures Come(root, root2, sc, n, b, t2, cost + more)
  {
    hide Len;
    RowSame(root, root1, b, t, t2);
    RowSplit(root, b, if b == sc.bucket then Begins(sc) else 0, t, t2);
  }

  /** To the next bucket. */
  lemma ComeNext(root: seq<seq<Chain>>, root': seq<seq<Chain>>, sc: Scan, n: nat, b: nat, cost: nat)
    requires Come(root, root', sc, n, b, Count(sc, n, b), cost)
    ensures Come(root, root', sc, n, b + 1, 0, cost)
  {
    hide Len;
  }

  lemma StrolledMore(root: seq<seq<Chain>>, root': seq<seq<Chain>>, b: nat, t0: nat, sc: Scan, cost: nat)
    requires Strolled(root, root', b, t0, sc.tabidx, cost)
    ensures Strolled(root, root', b, t0, Reached(sc), cost)
  {}

  class HashTable {
    const hashOf: string -> uint32
    var rootpower: nat
    var expanding: bool
    var expBucket: nat
    var expTabidx: nat
    var roottable: seq<seq<Chain>>
    var infotable: seq<nat>
    var hashItems: nat
    var expansionLimit: nat
    var scans: map<nat, Scan>
    ghost var live: map<string, nat>

    function Geo(): Geometry
      reads this
    {
      Geometry(rootpower, expanding, expBucket, expTabidx)
    }

    ghost function View(): Table
      reads this
    {
      Table(hashOf, Geo(), roottable, infotable, hashItems, scans, live)
    }

    ghost predicate Valid()
      reads this
    {
      Wf(View()) && Geo().Settled() && rootpower <= 15 && expansionLimit == ExpansionLimit(rootpower)
    }

    constructor (hashOf: string -> uint32)
      ensures Valid() && this.hashOf == hashOf && live == map[] && scans == map[]
    {
      this.hashOf := hashOf;
      rootpower, expanding, expBucket, expTabidx := 0, false, 0, 0;
      roottable := [seq(HASHSIZE, _ => [])];
      infotable := seq(HASHSIZE, _ => 0);
      hashItems := 0;
      expansionLimit := HASHSIZE * 3 / 2;
      scans := map[];
      live := map[];
    }

    method Find(key: string) returns (r: Option<nat>)
      requires Valid()
      ensures r == if key in live then Some(live[key]) else None
    {
      var b, t := hashOf(key) % HASHSIZE, TabIdx(Geo(), hashOf(key));
      var chain := roottable[t][b];
      var p := 0;
      assert ChainOk(View(), t, b);
      assert key in live ==> KeyOk(View(), key);
      while p < |chain|
        invariant 0 <= p <= |chain|
        invariant forall q | 0 <= q < p :: chain[q].Hold? || chain[q].key != key
      {
        if chain[p].Item? && chain[p].key == key {
          assert NodeOk(View(), t, b, chain[p]);
          return Some(chain[p].id);
        }
        p := p + 1;
      }
      return None;
    }

    /** _hashitem_before: the position of a linked key in its chain. */
    method Locate(key: string) returns (p: nat)
      requires Valid() && key in live
      ensures LinkedAt(View(), key, p)
    {
      var chain := roottable[TabIdx(Geo(), hashOf(key))][hashOf(key) % HASHSIZE];
      assert KeyOk(View(), key);
      p := 0;
      while chain[p].Hold? || chain[p].key != key
        invariant 0 <= p < |chain|
        invariant exists q :: p <= q < |chain| && chain[q] == Item(key, live[key])
        decreases |chain| - p
      {
        p := p + 1;
      }
    }

    /** One sub-table of redistribute. */
    method MoveOne()
      requires Wf(View()) && Moving(View()) && infotable[expBucket] == 0
      modifies this`roottable, this`expTabidx
      ensures Wf(View()) && SamePassed(old(View()), View())
      ensures expTabidx == old(expTabidx) + 1
    {
      hide Wf, SamePassed, TabIdx, ChainOk, IndexOf;
      ghost var tb := View();
      var t, b, p := expTabidx, expBucket, Geo().PrevSize();
      WfChain(tb, t, b);
      QuietBucket(tb, b, t);
      var stay, moved := PartChain(roottable[t][b], hashOf, Geo().RootSize(), t);
      roottable := SetChain(SetChain(roottable, t, b, stay), t + p, b, moved + roottable[t + p][b]);
      expTabidx := expTabidx + 1;
      assert View() == MoveChain(tb, stay, moved);
      MoveChainWf(tb, stay, moved);
      MoveChainPassed(tb, stay, moved);
    }

    method Redistribute()
      requires Valid() && expanding && infotable[expBucket] == 0
      modifies this`roottable, this`expTabidx, this`expBucket, this`expanding
      ensures Valid() && SamePassed(old(View()), View())
      ensures Moved(old(Geo()), Geo())
    {
      hide Passed, TabIdx, ChainOk, KeyOk, ScanOk, HoldOk, ActiveAt;
      ghost var tb := View();
      var rdbcnt := 0;
      while rdbcnt < 4
        invariant Wf(View()) && expanding && expBucket == old(expBucket)
        invariant rdbcnt <= 4 && expTabidx == old(expTabidx) + rdbcnt < Geo().PrevSize()
        invariant SamePassed(tb, View())
      {
        ghost var now := View();
        MoveOne();
        SamePassedTwice(tb, now, View());
        if expTabidx >= Geo().PrevSize() { break; }
        rdbcnt := rdbcnt + 1;
      }
      ghost var now := View();
      if expTabidx >= Geo().PrevSize() {
        expTabidx := 0;
        if expBucket > 0 {
          expBucket := expBucket - 1;
        } else {
          expanding := false;
        }
      }
      NextBucketWf(now);
      assert View() == now.(geo := NextBucket(now.geo));
      SamePassedTwice(tb, now, View());
    }

    /** assoc_expand; it gives up silently when memory is short. */
    method Expand(memory: bool)
      requires Valid() && !expanding && rootpower < 15
      modifies this`roottable, this`rootpower, this`expTabidx, this`expBucket, this`expanding, this`expansionLimit
      ensures Valid() && SamePassed(old(View()), View()) && Grows(old(Geo()), Geo())
      ensures if memory then Geo() == Geometry(old(rootpower) + 1, true, HASHSIZE - 1, 0) else View() == old(View())
    {
      hide Passed, TabIdx, ChainOk, KeyOk, ScanOk, HoldOk, ActiveAt;
      ghost var tb := View();
      if !memory { return; }
      var extra := seq(|roottable|, _ => seq(HASHSIZE, _ => []));
      roottable := roottable + extra;
      rootpower := rootpower + 1;
      expansionLimit := ExpansionLimit(rootpower);
      expanding, expBucket, expTabidx := true, HASHSIZE - 1, 0;
      ExpandWf(tb, extra);
    }

    method Insert(key: string, id: nat, memory: bool)
      requires Valid() && key !in live
      modifies this
      ensures Valid() && Step(old(View()), Event.Insert(key, id), View())
      ensures old(expanding) ==> if old(infotable)[old(expBucket)] == 0 then Moved(old(Geo()), Geo()) else Geo() == old(Geo())
      ensures !old(expanding) ==>
                if memory && old(rootpower) < 15 && |live| > HASHSIZE * Pow2(old(rootpower)) * 3 / 2
                then Geo() == Geometry(old(rootpower) + 1, true, HASHSIZE - 1, 0) else Geo() == old(Geo())
    {
      hide Passed, TabIdx, ChainOk, KeyOk, ScanOk, HoldOk, ActiveAt;
      ghost var tb := View();
      var b, t := hashOf(key) % HASHSIZE, TabIdx(Geo(), hashOf(key));
      roottable := SetChain(roottable, t, b, InsertAt(roottable[t][b], 0, Item(key, id)));
      hashItems := hashItems + 1;
      live := live[key := id];
      PushWf(tb, key, id);
      PushPassed(tb, key, id);
      ghost var now := View();
      assert now == Push(tb, key, id);
      if expanding {
        if infotable[expBucket] == 0 {
          Redistribute();
          SamePassedTwice(tb, now, View());
        }
      } else if expansionLimit != 0 && hashItems > expansionLimit {
        Expand(memory);
        SamePassedTwice(tb, now, View());
      }
    }

    method Replace(key: string, id: nat)
      requires Valid() && key in live
      modifies this`roottable, this`live
      ensures Valid() && Step(old(View()), Event.Replace(key, id), View())
    {
      hide Passed, TabIdx, ChainOk, KeyOk, ScanOk, HoldOk, ActiveAt;
      ghost var tb := View();
      var at := Locate(key);
      var b, t := hashOf(key) % HASHSIZE, TabIdx(Geo(), hashOf(key));
      roottable := SetChain(roottable, t, b, roottable[t][b][at := Item(key, id)]);
      live := live[key := id];
      SwapWf(tb, key, at, id);
      SwapPassed(tb, key, at, id);
      assert View() == Swap(tb, key, at, id);
    }

    method Delete(key: string)
      requires Valid() && key in live
      modifies this`roottable, this`live, this`hashItems
      ensures Valid() && Step(old(View()), Event.Delete(key), View())
    {
      hide Passed, TabIdx, ChainOk, KeyOk, ScanOk, HoldOk, ActiveAt;
      ghost var tb := View();
      var at := Locate(key);
      PullWf(tb, key, at);
      PullPassed(tb, key, at);
      var b, t := hashOf(key) % HASHSIZE, TabIdx(Geo(), hashOf(key));
      hashItems := hashItems - 1;
      roottable := SetChain(roottable, t, b, RemoveAt(roottable[t][b], at));
      live := live - {key};
      assert View() == Pull(tb, key, at);
    }

    method ScanInit(i: nat)
      requires Valid() && i !in scans
      modifies this`scans
      ensures Valid() && Step(old(View()), Event.Open(i), View())
    {
      hide Passed, TabIdx, ChainOk, KeyOk, ScanOk, HoldOk, ActiveAt;
      OpenOk(View(), i);
      scans := scans[i := Scan(0, 0, 0, false)];
    }

    /** _unlink_scan_placeholder: returns where the placeholder was. */
    method UnlinkPlaceholder(i: nat) returns (at: nat)
      requires Wf(View()) && InChain(View(), i) && scans[i].linked
      modifies this`roottable, this`scans
      ensures StartsAt(old(View()), i, at) && View() == Unhold(old(View()), i, at)
    {
      ghost var tb := View();
      var sc := scans[i];
      var c := roottable[sc.tabidx][sc.bucket];
      assert HoldOk(tb, i);
      at := 0;
      while c[at] != Hold(i)
        invariant 0 <= at < |c| && at <= IndexOf(c, Hold(i)) < |c|
        decreases |c| - at
      {
        at := at + 1;
      }
      roottable := SetChain(roottable, sc.tabidx, sc.bucket, RemoveAt(c, at));
      scans := scans[i := sc.(linked := false)];
      assert View() == Unhold(tb, i, at);
    }

    /** One turn of the table loop of assoc_scan_next. */
    method ScanTable(i: nat, room: nat, elemLimit: nat, ccnt: nat -> nat, elems0: nat, cost0: nat)
      returns (got: seq<Node>, full: bool, elems: nat, cost: nat)
      requires Wf(View()) && InChain(View(), i) && room > 0 && (elemLimit > 0 ==> elems0 <= elemLimit)
      modifies this`roottable, this`scans
      ensures Handed(old(View()), View(), i, got) && |got| <= room
      ensures full ==> got != []
      ensures !full ==> |got| < room && scans[i] == old(scans)[i].(tabidx := old(scans)[i].tabidx + 1, linked := false)
      ensures scans[i].tabcnt == old(scans)[i].tabcnt && scans[i].bucket == old(scans)[i].bucket
      ensures Tally(elemLimit, ccnt, elems0, got, elems, !full) && (full ==> Enough(elemLimit, ccnt, elems0, got, room))
      ensures var t, b := old(scans)[i].tabidx, old(scans)[i].bucket;
              && cost0 <= cost <= cost0 + 1 + Len(old(roottable), t, b) && scans[i].tabidx + (if scans[i].linked then 1 else 0) == t + 1
              && SameElsewhere(old(roottable), roottable, t, b)
    {
      hide Wf, Handed, Behind, Passed, TabIdx, Items, NoClash, IndexOf, Tally, Enough, SameElsewhere;
      ghost var tb := View();
      var from := 0;
      if scans[i].linked {
        from := UnlinkPlaceholder(i);
      }
      assert View() == Freed(tb, i, from);
      FreedOk(tb, i, from);
      var sc := scans[i];
      var chain := roottable[sc.tabidx][sc.bucket];
      var next;
      got, next, elems, cost := WalkChain(chain, from, room, elemLimit, ccnt, elems0, cost0 + 1);
      full := next < |chain|;
      if next + 1 < |chain| {
        roottable := SetChain(roottable, sc.tabidx, sc.bucket, InsertAt(chain, next + 1, Hold(i)));
        scans := scans[i := sc.(linked := true)];
      } else {
        scans := scans[i := sc.(tabidx := sc.tabidx + 1)];
      }
      ghost var stop := if full then next + 1 else next;
      assert View() == Advanced(tb, i, from, stop);
      AdvancedElsewhere(tb, i, from, stop);
      ChainHanded(tb, i, from, stop);
    }

    /** The table loop of assoc_scan_next; `had` items are already in the array. */
    method ScanBucket(i: nat, arraySize: nat, elemLimit: nat, ccnt: nat -> nat, had: nat, elems0: nat, cost0: nat)
      returns (got: seq<Node>, done: bool, elems: nat, cost: nat)
      requires Wf(View()) && i in scans && scans[i].tabcnt > 0 && had < arraySize && (elemLimit > 0 ==> elems0 <= elemLimit)
      modifies this`roottable, this`scans
      ensures Handed(old(View()), View(), i, got) && had + |got| <= arraySize
      ensures done ==> had + |got| > 0
      ensures !done ==> had + |got| < arraySize && scans[i].tabidx == scans[i].tabcnt == Reached(scans[i])
      ensures scans[i].tabcnt == old(scans)[i].tabcnt && scans[i].bucket == old(scans)[i].bucket
      ensures Tally(elemLimit, ccnt, elems0, got, elems, !done)
      ensures done ==> Enough(elemLimit, ccnt, elems0, got, arraySize - had) || cost > 2 * arraySize
      ensures cost0 <= cost && Strolled(old(roottable), roottable, scans[i].bucket, old(scans)[i].tabidx, Reached(scans[i]), cost - cost0)
    {
      hide Wf, Handed, Tally, Enough, Strolled, SameElsewhere, Len;
      ghost var tb := View();
      got, done, elems, cost := [], false, elems0, cost0;
      HandedNothing(tb, i);
      SetOut(elemLimit, ccnt, elems0, roottable, scans[i]);
      TabBound(tb, i);
      while scans[i].tabidx < scans[i].tabcnt
        invariant i in scans && Handed(tb, View(), i, got) && scans[i].bucket == tb.scans[i].bucket
        invariant scans[i].tabcnt == tb.scans[i].tabcnt && scans[i].tabidx <= scans[i].tabcnt
        invariant had + |got| < arraySize && Tally(elemLimit, ccnt, elems0, got, elems, true) && (elemLimit > 0 ==> elems <= elemLimit)
        invariant cost0 <= cost && Strolled(tb.root, roottable, scans[i].bucket, tb.scans[i].tabidx, scans[i].tabidx, cost - cost0)
        decreases scans[i].tabcnt - scans[i].tabidx
      {
        StrolledMore(tb.root, roottable, scans[i].bucket, tb.scans[i].tabidx, scans[i], cost - cost0);
        TallyBelow(elemLimit, ccnt, elems0, got, elems);
        if cost > 2 * arraySize && had + |got| > 0 {
          done := true;
          return;
        }
        ghost var now := View();
        HandedWf(tb, now, i, got);
        InChainNow(now, i);
        ghost var elems1, cost1 := elems, cost;
        var more;
        more, done, elems, cost := ScanTable(i, arraySize - had - |got|, elemLimit, ccnt, elems, cost);
        HandedTwice(tb, now, View(), i, got, more);
        HandedWf(tb, View(), i, got + more);
        TabBound(View(), i);
        StrolledStep(tb.root, now.root, roottable, now.scans[i].bucket, tb.scans[i].tabidx, now.scans[i].tabidx, cost1 - cost0, cost - cost0);
        TallyTwice(elemLimit, ccnt, elems0, got, elems1, more, elems, !done);
        got := got + more;
        if done { return; }
        TallyBelow(elemLimit, ccnt, elems0, got, elems);
      }
      HandedWf(tb, View(), i, got);
      TabBound(View(), i);
    }

    method EnterBucket(i: nat)
      requires i in scans && scans[i].tabcnt == 0 && scans[i].bucket < HASHSIZE && Wf(Reset(View(), i))
      modifies this`scans, this`infotable
      ensures Handed(old(Reset(View(), i)), View(), i, [])
      ensures i in scans && scans[i].tabcnt == Geo().RootSize() > 0 && scans[i].bucket == old(scans)[i].bucket && scans[i].tabidx == 0
    {
      hide Handed, ChainOk, KeyOk, HoldOk, ActiveAt, TabIdx;
      ghost var now := Reset(View(), i);
      var b := scans[i].bucket;
      scans := scans[i := Scan(b, Geo().RootSize(), 0, scans[i].linked)];
      infotable := infotable[b := infotable[b] + 1];
      assert ScanOk(now, now.scans[i]);
      assert View() == Enter(now, i);
      EnterHanded(now, i);
    }

    method LeaveBucket(i: nat)
      requires Wf(View()) && i in scans && scans[i].tabcnt > 0 && scans[i].tabidx == scans[i].tabcnt
      modifies this`scans, this`infotable
      ensures i in scans && scans[i].bucket == old(scans)[i].bucket + 1 <= HASHSIZE && scans[i].tabcnt == 0
      ensures Handed(old(View()), if scans[i].bucket < HASHSIZE then Reset(View(), i) else View(), i, [])
    {
      hide Handed, ChainOk, KeyOk, HoldOk, ActiveAt, TabIdx;
      ghost var now := View();
      var b := scans[i].bucket;
      LeaveHanded(now, i);
      assert ScanOk(now, now.scans[i]);
      infotable := infotable[b := infotable[b] - 1];
      scans := scans[i := scans[i].(bucket := b + 1, tabcnt := 0)];
      ghost var left := Leave(now, i);
      assert Reset(View(), i) == left;
      if b + 1 == HASHSIZE {
        HandedWf(now, left, i, []);
        OverHanded(left, i, scans[i].tabidx);
        assert View() == left.(scans := left.scans[i := left.scans[i].(tabidx := scans[i].tabidx)]);
        HandedAppend(now, left, View(), i, []);
      }
    }

    /** One turn of the bucket loop of assoc_scan_next: the bucket is entered if need be, then its chains are walked. */
    method VisitBucket(i: nat, arraySize: nat, elemLimit: nat, ccnt: nat -> nat, had: nat, elems0: nat, cost0: nat)
      returns (got: seq<Node>, done: bool, elems: nat, cost: nat)
      requires i in scans && scans[i].bucket < HASHSIZE && Wf(Reset(View(), i)) && had < arraySize && (elemLimit > 0 ==> elems0 <= elemLimit)
      modifies this`roottable, this`scans, this`infotable
      ensures i in scans && Handed(old(Reset(View(), i)), View(), i, got) && had + |got| <= arraySize
      ensures done ==> had + |got| > 0
      ensures !done ==> had + |got| < arraySize && scans[i].tabidx == scans[i].tabcnt == Reached(scans[i])
      ensures scans[i].tabcnt == (if old(scans)[i].tabcnt > 0 then old(scans)[i].tabcnt else Geo().RootSize()) > 0 && scans[i].bucket == old(scans)[i].bucket
      ensures Tally(elemLimit, ccnt, elems0, got, elems, !done)
      ensures done ==> Enough(elemLimit, ccnt, elems0, got, arraySize - had) || cost > 2 * arraySize
      ensures cost0 <= cost && Strolled(old(roottable), roottable, scans[i].bucket, Begins(old(scans)[i]), Reached(scans[i]), cost - cost0)
    {
      hide Wf, Handed, Reset, Tally, Enough, Strolled;
      ghost var tb := Reset(View(), i);
      HandedNothing(tb, i) by { assert i in tb.scans by { ResetHas(View(), i); } }
      if scans[i].tabcnt == 0 {
        EnterBucket(i);
      } else {
        ResetActive(tb, View(), i);
      }
      ghost var now := View();
      HandedWf(tb, now, i, []);
      got, done, elems, cost := ScanBucket(i, arraySize, elemLimit, ccnt, had, elems0, cost0);
      HandedWf(now, View(), i, got);
      HandedTwice(tb, now, View(), i, [], got);
      assert [] + got == got;
    }

    /** One turn of the bucket loop, with what the call has handed out so far: it stops in the bucket, or leaves it. */
    method ScanTurn(i: nat, arraySize: nat, elemLimit: nat, ccnt: nat -> nat, had: seq<Node>, elems0: nat, cost0: nat, ghost tb: Table, ghost sc: Scan)
      returns (out: seq<Node>, done: bool, elems: nat, cost: nat)
      requires i in scans && scans[i].bucket < HASHSIZE && |had| < arraySize && Handed(tb, Reset(View(), i), i, had)
      requires OnTheWay(elemLimit, ccnt, had, elems0, tb.root, roottable, sc, Geo().RootSize(), scans[i], cost0)
      modifies this`roottable, this`scans, this`infotable
      ensures i in scans && |out| <= arraySize
      ensures done ==> out != [] && Handed(tb, View(), i, out) && NoneOver(elemLimit, ccnt, out)
      ensures done ==> Stopped(elemLimit, ccnt, out, arraySize, tb.root, sc, Geo().RootSize(), scans[i])
      ensures !done ==> |out| < arraySize && scans[i].bucket == old(scans)[i].bucket + 1
      ensures !done ==> Handed(tb, if scans[i].bucket < HASHSIZE then Reset(View(), i) else View(), i, out)
      ensures !done ==> OnTheWay(elemLimit, ccnt, out, elems, tb.root, roottable, sc, Geo().RootSize(), scans[i], cost)
    {
      hide Wf, Handed, Reset, Tally, Enough, Strolled, OnTheWay, Stopped, NoneOver, Geometry.RootSize, Reached;
      ghost var now := Reset(View(), i);
      HandedWf(tb, now, i, had);
      ghost var root1, sc1, n := roottable, scans[i], Geo().RootSize();
      ElemsBelow(elemLimit, ccnt, had, elems0, tb.root, roottable, sc, n, scans[i], cost0);
      var got;
      got, done, elems, cost := VisitBucket(i, arraySize, elemLimit, ccnt, |had|, elems0, cost0);
      HandedWf(now, View(), i, got);
      HandedTwice(tb, now, View(), i, had, got);
      OneBucket(elemLimit, ccnt, had, elems0, tb.root, root1, sc, n, sc1, cost0, got, elems, roottable, scans[i], cost, done, arraySize);
      out := had + got;
      if done { return; }
      now := View();
      LeaveBucket(i);
      HandedAppend(tb, now, if scans[i].bucket < HASHSIZE then Reset(View(), i) else View(), i, out);
    }

    /** Never hands out nothing unless the scan is over, and stops only for want of room, for too many elements or at too great a cost. */
    method ScanNext(i: nat, arraySize: nat, elemLimit: nat, ccnt: nat -> nat) returns (out: seq<Node>)
      requires Valid() && i in scans && arraySize > 0
      modifies this`roottable, this`scans, this`infotable
      ensures Valid() && Step(old(View()), Event.Next(i, out), View()) && |out| <= arraySize
      ensures elemLimit > 0 && out != [] ==> Elems(ccnt, out[..|out| - 1]) <= elemLimit
      ensures || scans[i].bucket >= HASHSIZE || |out| == arraySize || (elemLimit > 0 && Elems(ccnt, out) > elemLimit)
              || Way(old(roottable), old(scans)[i], Geo().RootSize(), scans[i].bucket, Reached(scans[i])) > 2 * arraySize
    {
      hide Wf, Handed, Reset, OnTheWay, Way, Elems, Step, Geometry.RootSize, Reached;
      ghost var tb, sc := View(), scans[i];
      var elems: nat, cost: nat, done := 0, 0, false;
      out := [];
      HandedNothing(tb, i);
      SetOutAll(elemLimit, ccnt, roottable, sc, Geo().RootSize());
      if scans[i].bucket < HASHSIZE { ResetSettled(tb, i); }
      while scans[i].bucket < HASHSIZE
        invariant i in scans && |out| < arraySize
        invariant Handed(tb, if scans[i].bucket < HASHSIZE then Reset(View(), i) else View(), i, out)
        invariant OnTheWay(elemLimit, ccnt, out, elems, tb.root, roottable, sc, Geo().RootSize(), scans[i], cost)
        decreases HASHSIZE - scans[i].bucket
      {
        out, done, elems, cost := ScanTurn(i, arraySize, elemLimit, ccnt, out, elems, cost, tb, sc);
        if done {
          NextStep(tb, View(), i, out);
          return;
        }
      }
      WayEnds(elemLimit, ccnt, out, elems, tb.root, roottable, sc, Geo().RootSize(), scans[i], cost);
      NextStep(tb, View(), i, out);
    }

    /** assoc_scan_in_visited_area, for a linked item. */
    method InVisitedArea(i: nat, key: string) returns (r: bool)
      requires Valid() && i in scans && key in live
      ensures r <==> Passed(View(), i, key)
    {
      hide Wf, TabIdx;
      var b := hashOf(key) % HASHSIZE;
      if b < scans[i].bucket { return true; }
      if b == scans[i].bucket {
        var t := TabIdx(Geo(), hashOf(key));
        WfShape(View());
        if t < scans[i].tabidx { return true; }
        if t == scans[i].tabidx {
          var chain, p := roottable[t][b], 0;
          if scans[i].linked {
            WfHold(View(), i);
            WfKey(View(), key);
            while chain[p] != Hold(i)
              invariant 0 <= p <= IndexOf(chain, Hold(i)) < |chain|
              invariant p <= IndexOf(chain, Item(key, live[key]))
              decreases |chain| - p
            {
              if chain[p].Item? && chain[p].key == key {
                WfItem(View(), t, b, chain[p]);
                return true;
              }
              p := p + 1;
            }
          }
        }
      }
      return false;
    }

    method DropScan(i: nat)
      requires Wf(View()) && i in scans && !scans[i].linked
      modifies this`scans, this`infotable
      ensures Wf(View()) && scans == old(scans) - {i}
      ensures forall j, k | j in scans :: Passed(View(), j, k) == Passed(old(View()), j, k)
    {
      hide Wf, Passed, TabIdx;
      ghost var tb := View();
      WfShape(tb);
      CloseWf(tb, i);
      if scans[i].bucket < HASHSIZE && scans[i].tabcnt > 0 {
        infotable := infotable[scans[i].bucket := infotable[scans[i].bucket] - 1];
      }
      scans := scans - {i};
      assert View() == Closed(tb, i);
      ClosePassed(tb, i);
    }

    /** assoc_scan_final: no other scan notices. */
    method ScanFinal(i: nat)
      requires Valid() && i in scans
      modifies this`roottable, this`scans, this`infotable
      ensures Valid() && Step(old(View()), Event.Close(i), View())
    {
      hide Wf, Passed, TabIdx, Unhold;
      ghost var tb := View();
      if scans[i].linked {
        WfHold(tb, i);
        var at := UnlinkPlaceholder(i);
        UnholdOthers(tb, i, at);
      }
      DropScan(i);
      assert scans == tb.scans - {i};
    }
  }

  lemma NextStep(tb: Table, tb': Table, i: nat, out: seq<Node>)
    requires Handed(tb, tb', i, out) && i in tb'.scans && (out == [] ==> tb'.scans[i].bucket >= HASHSIZE)
    ensures Wf(tb') && Step(tb, Event.Next(i, out), tb')
  {
    hide Wf, Passed;
  }

  lemma ElemsBelow(limit: nat, ccnt: nat -> nat, out: seq<Node>, e: nat, root: seq<seq<Chain>>, root': seq<seq<Chain>>, sc: Scan, n: nat, now: Scan, cost: nat)
    requires OnTheWay(limit, ccnt, out, e, root, root', sc, n, now, cost)
    ensures limit > 0 ==> e <= limit
  {}

  lemma ResetHas(tb: Table, i: nat)
    requires i in tb.scans
    ensures i in Reset(tb, i).scans
  {}

  lemma ResetActive(now: Table, tb: Table, i: nat)
    requires i in tb.scans && tb.scans[i].tabcnt > 0 && now == Reset(tb, i)
    ensures now == tb
  {}
}
