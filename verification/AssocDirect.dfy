/** The stateless scan assoc_scan_direct, whose cursor is a sub-table and a bucket. */
module AssocDirect {
  import opened Arith
  import opened Bits
  import opened Chains
  import opened AssocTable
  import opened AssocSteps
  import opened AssocRuns
  import opened Assoc
  import Cursor

  function High(tb: Table, k: string): (h: nat)
    ensures h < 65536
  {
    tb.hashOf(k) / HASHSIZE
  }

  /** The place of a key in the order of the scan; it never changes. */
  function Rank(tb: Table, k: string): nat {
    Bucket(tb, k) * 65536 + Mirror(High(tb, k), 16)
  }

  /** The place of a cursor in that order. */
  function CursorRank(t: nat, b: nat): nat {
    b * 65536 + Mirror(t, 16)
  }

  lemma Pow16()
    ensures Pow2(16) == 65536
  {
    assert Pow2(4) == 16 && Pow2(8) == 256;
    Cursor.PowSum(8, 8);
  }

  /** The mirror of a sub-table index, seen as a sixteen-bit number. */
  lemma MirrorOf(t: nat, rp: nat)
    requires rp <= 16 && t < Pow2(rp)
    ensures Mirror(t, 16) == Pow2(16 - rp) * Mirror(t, rp)
  {
    hide Mirror, Pow2;
    MirrorSplit(t, 0, rp, 16 - rp);
    MirrorZero(16 - rp);
    assert Pow2(rp) * 0 == 0;
  }

  lemma MirrorInjective(a: nat, b: nat, n: nat)
    requires a < Pow2(n) && b < Pow2(n) && Mirror(a, n) == Mirror(b, n)
    ensures a == b
  {
    hide Mirror, Pow2;
    MirrorTwice(a, n);
    MirrorTwice(b, n);
  }

  lemma SplitHigh(high: nat, rp: nat)
    requires rp <= 16 && high < Pow2(16)
    ensures high % Pow2(rp) < Pow2(rp) && high / Pow2(rp) < Pow2(16 - rp)
    ensures high == high % Pow2(rp) + Pow2(rp) * (high / Pow2(rp))
  {
    hide Pow2;
    var r := Pow2(rp);
    DivMod(high, r);
    Cursor.PowSum(rp, 16 - rp);
    var q := high / r;
    assert r * q == q * r;
    if q >= Pow2(16 - rp) {
      MulMonotone(Pow2(16 - rp), q, r);
    }
  }

  lemma MulMonotone(a: nat, b: nat, d: nat)
    requires a <= b
    ensures a * d <= b * d
  {
    if a < b { MulGap(a, b, d); }
  }

  /** The keys of one sub-table lie together in the order of the scan. */
  lemma RankClass(high: nat, rp: nat, t: nat)
    requires rp <= 16 && high < 65536 && t < Pow2(rp)
    ensures high % Pow2(rp) == t <==> Mirror(t, 16) <= Mirror(high, 16) < Mirror(t, 16) + Pow2(16 - rp)
  {
    hide Mirror, Pow2;
    Pow16();
    SplitHigh(high, rp);
    var u, v, d := high % Pow2(rp), high / Pow2(rp), Pow2(16 - rp);
    MirrorSplit(u, v, rp, 16 - rp);
    MirrorOf(t, rp);
    SameBlock(d, Mirror(u, rp), Mirror(t, rp), Mirror(v, 16 - rp));
    if Mirror(u, rp) == Mirror(t, rp) { MirrorInjective(u, t, rp); }
  }

  lemma SameBlock(d: nat, a: nat, b: nat, r: nat)
    requires r < d
    ensures a == b <==> d * b <= r + d * a < d * b + d
  {
    assert d * a == a * d && d * b == b * d;
    if a < b { MulGap(a, b, d); }
    if b < a { MulGap(b, a, d); }
  }

  /** The step from one sub-table to the next, or to the next bucket. */
  predicate NextPlace(rp: nat, t: nat, b: nat, t': nat, b': nat)
    requires rp <= 16 && t < Pow2(rp)
  {
    && t' < Pow2(rp)
    && if Mirror(t, rp) + 1 == Pow2(rp) then t' == 0 && b' == b + 1
       else t' != 0 && Mirror(t', rp) == Mirror(t, rp) + 1 && b' == b
  }

  lemma NextRank(rp: nat, t: nat, b: nat, t': nat, b': nat)
    requires rp <= 16 && t < Pow2(rp) && NextPlace(rp, t, b, t', b')
    ensures CursorRank(t', b') == CursorRank(t, b) + Pow2(16 - rp)
  {
    hide Mirror, Pow2;
    Pow16();
    MirrorOf(t, rp);
    MirrorOf(t', rp);
    var d := Pow2(16 - rp);
    Cursor.Distribute(d, Mirror(t, rp));
    if Mirror(t, rp) + 1 == Pow2(rp) {
      Cursor.PowSum(16 - rp, rp);
      MirrorZero(16);
    }
  }

  /** During an expansion the two halves of a split sub-table are visited one after the other. */
  lemma Twins(rp: nat, t: nat)
    requires 0 < rp <= 16 && t < Pow2(rp - 1)
    ensures Mirror(t + Pow2(rp - 1), rp) == Mirror(t, rp) + 1
    ensures Mirror(t, rp) % 2 == 0
  {
    hide Mirror, Pow2;
    assert Pow2(1) == 2 by { PowOne(); }
    MirrorSplit(t, 1, rp - 1, 1);
    MirrorSplit(t, 0, rp - 1, 1);
    MirrorOne();
    MirrorZero(1);
    assert Pow2(rp - 1) * 0 == 0 && Pow2(rp - 1) * 1 == Pow2(rp - 1);
  }

  lemma PowOne()
    ensures Pow2(1) == 2
  {}

  lemma MirrorOne()
    ensures Mirror(1, 1) == 1
  {
    assert Low(1, 1) == [true];
    assert Reversed([true]) == [true];
  }

  /** From the lower half the next place is the upper half; from the upper half it is a lower one. */
  lemma TwinNext(rp: nat, t: nat, b: nat, t': nat, b': nat)
    requires 0 < rp <= 16 && t < Pow2(rp) && NextPlace(rp, t, b, t', b')
    ensures t < Pow2(rp - 1) ==> t' == t + Pow2(rp - 1) && b' == b
    ensures t >= Pow2(rp - 1) ==> t' < Pow2(rp - 1)
  {
    hide Mirror;
    var p := Pow2(rp - 1);
    assert Pow2(rp) == 2 * p;
    if t < p {
      Twins(rp, t);
      if Mirror(t, rp) + 1 != Pow2(rp) { MirrorInjective(t', t + p, rp); }
    } else {
      Twins(rp, t - p);
      if t' >= p { Twins(rp, t' - p); }
    }
  }

  /** A key in the upper half of a split sub-table that still lies in the lower one. */
  predicate Early(tb: Table, t: nat, b: nat, k: string)
    requires tb.geo.Ok()
  {
    && tb.geo.expanding && t >= tb.geo.PrevSize() && Bucket(tb, k) == b
    && HighIdx(tb, k) == t && Tab(tb, k) != t
  }

  /** Keys of which the scan has seen the chain when it stands at a place. */
  predicate Seen(tb: Table, from: nat, t: nat, b: nat, k: string)
    requires tb.geo.Ok()
  {
    from <= Rank(tb, k) < CursorRank(t, b) || Early(tb, t, b, k)
  }

  lemma RankStep(tb: Table, t: nat, b: nat, t': nat, b': nat, k: string)
    requires tb.geo.Ok() && tb.geo.rootpower <= 16 && t < tb.geo.RootSize() && NextPlace(tb.geo.rootpower, t, b, t', b')
    ensures CursorRank(t', b') > CursorRank(t, b)
    ensures Rank(tb, k) < CursorRank(t', b') <==> Rank(tb, k) < CursorRank(t, b) || (Bucket(tb, k) == b && HighIdx(tb, k) == t)
    ensures Bucket(tb, k) == b && HighIdx(tb, k) == t ==> Rank(tb, k) >= CursorRank(t, b)
  {
    hide Mirror, Pow2;
    var rp := tb.geo.rootpower;
    NextRank(rp, t, b, t', b');
    RankClass(High(tb, k), rp, t);
    MirrorZero(16);
    Pow16();
  }

  lemma RankAtLeast(tb: Table, t: nat, b: nat, k: string)
    requires tb.geo.Ok() && tb.geo.rootpower <= 16 && t < tb.geo.RootSize()
    requires Bucket(tb, k) == b && HighIdx(tb, k) == t
    ensures Rank(tb, k) >= CursorRank(t, b)
  {
    hide Mirror, Pow2;
    RankClass(High(tb, k), tb.geo.rootpower, t);
  }

  lemma TabOptions(tb: Table, k: string)
    requires tb.geo.Ok()
    ensures HighIdx(tb, k) < tb.geo.RootSize()
    ensures Tab(tb, k) == HighIdx(tb, k) || (tb.geo.expanding && Tab(tb, k) + tb.geo.PrevSize() == HighIdx(tb, k))
    ensures tb.geo.expanding && HighIdx(tb, k) < tb.geo.PrevSize() ==> Tab(tb, k) == HighIdx(tb, k)
  {
    if tb.geo.expanding {
      ModDouble(tb.hashOf(k) / HASHSIZE, tb.geo.PrevSize(), tb.geo.RootSize());
    }
  }

  /** Looking at one chain adds exactly its keys to those seen. */
  lemma SeenStep(tb: Table, from: nat, t: nat, b: nat, t': nat, b': nat, k: string)
    requires tb.geo.Ok() && tb.geo.rootpower <= 16 && t < tb.geo.RootSize() && NextPlace(tb.geo.rootpower, t, b, t', b')
    requires from <= CursorRank(t, b)
    ensures Seen(tb, from, t', b', k) <==> Seen(tb, from, t, b, k) || (Bucket(tb, k) == b && Tab(tb, k) == t)
    ensures Bucket(tb, k) == b && Tab(tb, k) == t ==> !Seen(tb, from, t, b, k)
  {
    hide Mirror, Pow2, Rank, CursorRank, TabIdx, HighIdx;
    RankStep(tb, t, b, t', b', k);
    TabOptions(tb, k);
    if tb.geo.expanding {
      TwinNext(tb.geo.rootpower, t, b, t', b');
      if Bucket(tb, k) == b' && HighIdx(tb, k) == t' { RankAtLeast(tb, t', b', k); }
    }
  }

  predicate LinkedNode(tb: Table, n: Node) {
    n.Item? && n.key in tb.live && tb.live[n.key] == n.id
  }

  /**
   * `out` holds, once each, the linked items seen between two places of the
   * scan; those that were still in the lower half when the scan began in the
   * upper one are not among them.
   */
  ghost predicate Collected(tb: Table, t0: nat, b0: nat, t: nat, b: nat, out: seq<Node>)
    requires tb.geo.Ok()
  {
    && NoClash(out)
    && forall n :: n in out <==> LinkedNode(tb, n) && Seen(tb, CursorRank(t0, b0), t, b, n.key) && !Early(tb, t0, b0, n.key)
  }

  lemma CollectedNone(tb: Table, t: nat, b: nat)
    requires tb.geo.Ok()
    ensures Collected(tb, t, b, t, b, [])
  {
    EmptyNoClash();
  }

  /** What was early at the beginning lies in no chain visited since. */
  lemma EarlyBehind(tb: Table, t0: nat, b0: nat, t: nat, b: nat, k: string)
    requires tb.geo.Ok() && tb.geo.rootpower <= 16 && t0 < tb.geo.RootSize() && Early(tb, t0, b0, k)
    requires Bucket(tb, k) == b && Tab(tb, k) == t
    ensures CursorRank(t, b) < CursorRank(t0, b0)
  {
    hide Mirror, TabIdx, HighIdx;
    TabOptions(tb, k);
    var rp := tb.geo.rootpower;
    Twins(rp, t);
    MirrorOf(t, rp);
    MirrorOf(t0, rp);
    Cursor.Distribute(Pow2(16 - rp), Mirror(t, rp));
  }

  lemma ChainNodes(tb: Table, t: nat, b: nat, n: Node)
    requires Wf(tb) && t < |tb.root| && b < HASHSIZE
    ensures n in Items(tb.root[t][b]) <==> LinkedNode(tb, n) && Bucket(tb, n.key) == b && Tab(tb, n.key) == t
  {
    assert ChainOk(tb, t, b);
    if n in tb.root[t][b] { assert NodeOk(tb, t, b, n); }
    if LinkedNode(tb, n) { assert KeyOk(tb, n.key); }
  }

  lemma CollectedNode(tb: Table, t0: nat, b0: nat, t: nat, b: nat, t': nat, b': nat, n: Node)
    requires Wf(tb) && tb.geo.rootpower <= 16 && t < tb.geo.RootSize() && t0 < tb.geo.RootSize() && b < HASHSIZE
    requires CursorRank(t0, b0) <= CursorRank(t, b) && NextPlace(tb.geo.rootpower, t, b, t', b')
    ensures var old_ := LinkedNode(tb, n) && Seen(tb, CursorRank(t0, b0), t, b, n.key) && !Early(tb, t0, b0, n.key);
            var new_ := LinkedNode(tb, n) && Seen(tb, CursorRank(t0, b0), t', b', n.key) && !Early(tb, t0, b0, n.key);
            && (new_ <==> old_ || n in Items(tb.root[t][b]))
            && (n in Items(tb.root[t][b]) ==> LinkedNode(tb, n) && !old_)
  {
    hide Wf, Seen, Early, CursorRank, NextPlace, Items, Tab, Bucket, Mirror, Pow2;
    WfShape(tb);
    ChainNodes(tb, t, b, n);
    if LinkedNode(tb, n) {
      SeenStep(tb, CursorRank(t0, b0), t, b, t', b', n.key);
      if Bucket(tb, n.key) == b && Tab(tb, n.key) == t && Early(tb, t0, b0, n.key) {
        EarlyBehind(tb, t0, b0, t, b, n.key);
      }
    }
  }

  lemma CollectedStep(tb: Table, t0: nat, b0: nat, t: nat, b: nat, t': nat, b': nat, out: seq<Node>)
    requires Wf(tb) && tb.geo.rootpower <= 16 && t < tb.geo.RootSize() && t0 < tb.geo.RootSize() && b < HASHSIZE
    requires CursorRank(t0, b0) <= CursorRank(t, b) && NextPlace(tb.geo.rootpower, t, b, t', b')
    requires Collected(tb, t0, b0, t, b, out)
    ensures Collected(tb, t0, b0, t', b', out + Items(tb.root[t][b]))
  {
    hide Wf, Seen, Early, CursorRank, NextPlace, Items, Tab, Bucket, Mirror, Pow2;
    WfShape(tb);
    var more := Items(tb.root[t][b]);
    forall n
      ensures n in out + more <==> LinkedNode(tb, n) && Seen(tb, CursorRank(t0, b0), t', b', n.key) && !Early(tb, t0, b0, n.key)
      ensures n in more ==> LinkedNode(tb, n) && n !in out
    {
      CollectedNode(tb, t0, b0, t, b, t', b', n);
    }
    WfChain(tb, t, b);
    ItemsNoClash(tb.root[t][b]);
    forall x, y | x in out && y in more ensures !Clash(x, y) {
      assert x != y;
    }
    NoClashConcat(out, more);
  }

  /** What one chain adds to the array: at least one item, and no more than there is room for. */
  function Fill(out: seq<Node>, xs: seq<Node>, arraySize: nat): seq<Node> {
    var room := if |out| < arraySize then arraySize - |out| else 1;
    out + if |xs| <= room then xs else xs[..room]
  }

  method CollectChain(chain: Chain, out: seq<Node>, arraySize: nat) returns (r: seq<Node>)
    ensures r == Fill(out, Items(chain), arraySize)
  {
    hide Items;
    r := out;
    var p := 0;
    ItemsNone(chain, 0);
    assert chain[0..|chain|] == chain;
    while p < |chain|
      invariant 0 <= p <= |chain| && r == out + Items(chain[0..p]) && (|r| == |out| || |r| < arraySize)
    {
      ItemsStep(chain, 0, p);
      if chain[p].Item? {
        r := r + [chain[p]];
        if |r| >= arraySize {
          ItemsPrefix(chain, p + 1);
          return;
        }
      }
      p := p + 1;
    }
  }

  lemma ItemsPrefix(c: Chain, p: nat)
    requires p <= |c|
    ensures Items(c[0..p]) <= Items(c)
  {
    assert c == c[0..p] + c[p..];
    ItemsConcat(c[0..p], c[p..]);
  }

  /** What one call of assoc_scan_direct promises; the cursor 0 stands for the beginning and for the end. */
  ghost predicate Direct(tb: Table, cursor: nat, out: seq<Node>, next: nat)
    requires tb.geo.Ok()
  {
    var t0, b0 := cursor / HASHSIZE, cursor % HASHSIZE;
    && (next != 0 ==> Resumable(tb.geo, next))
    && CursorRank(t0, b0) < (if next == 0 then 65536 * 65536 else CursorRank(next / HASHSIZE, next % HASHSIZE))
    && if next == 0 then Collected(tb, t0, b0, 0, HASHSIZE, out)
       else Collected(tb, t0, b0, next / HASHSIZE, next % HASHSIZE, out)
  }

  /** A cursor that names a place between, not inside, the pairs of a running expansion. */
  predicate Resumable(g: Geometry, cursor: nat) {
    cursor / HASHSIZE < g.RootSize() && (g.expanding ==> cursor / HASHSIZE < g.PrevSize())
  }

  /** The place behind a place. */
  ghost function NextOf(rp: nat, t: nat, b: nat): (p: (nat, nat))
    requires rp <= 16 && t < Pow2(rp)
    ensures NextPlace(rp, t, b, p.0, p.1)
  {
    var m := Mirror(t, rp) + 1;
    if m == Pow2(rp) then
      (0, b + 1)
    else
      MirrorTwice(m, rp); MirrorZero(rp);
      (Mirror(m, rp), b)
  }

  lemma NextUnique(rp: nat, t: nat, b: nat, t': nat, b': nat)
    requires rp <= 16 && t < Pow2(rp) && NextPlace(rp, t, b, t', b')
    ensures (t', b') == NextOf(rp, t, b)
  {
    hide Mirror, Pow2, NextOf;
    var p := NextOf(rp, t, b);
    if Mirror(t, rp) + 1 != Pow2(rp) { MirrorInjective(t', p.0, rp); }
  }

  /** Another chain is visited: too few items and chains so far, or the second half of a pair is due. */
  predicate Goes(g: Geometry, reqCount: nat, t: nat, items: nat, chains: nat) {
    (items < reqCount && chains < reqCount * 4) || (g.expanding && t >= g.PrevSize())
  }

  ghost predicate Ready(tb: Table, t: nat, b: nat) {
    Shape(tb) && tb.geo.rootpower <= 16 && t < |tb.root| && b < HASHSIZE
  }

  /** The chains that are still visited from a place on, by a scan with room for all it finds. */
  ghost function Places(tb: Table, reqCount: nat, t: nat, b: nat, items: nat, chains: nat): seq<(nat, nat)>
    requires Ready(tb, t, b)
    decreases 65536 * 65536 - CursorRank(t, b)
  {
    if !Goes(tb.geo, reqCount, t, items, chains) then []
    else
      var p := NextOf(tb.geo.rootpower, t, b);
      NextRank(tb.geo.rootpower, t, b, p.0, p.1);
      RankBound(t, b);
      [(t, b)] + if p.1 >= HASHSIZE then []
                 else Places(tb, reqCount, p.0, p.1, items + |Items(tb.root[t][b])|, chains + 1)
  }

  ghost predicate AllReady(tb: Table, ps: seq<(nat, nat)>) {
    forall i | 0 <= i < |ps| :: Ready(tb, ps[i].0, ps[i].1)
  }

  /** The items of some chains. */
  ghost function Gather(tb: Table, ps: seq<(nat, nat)>): seq<Node>
    requires AllReady(tb, ps)
  {
    if ps == [] then []
    else
      var n := |ps| - 1;
      Gather(tb, ps[..n]) + Items(tb.root[ps[n].0][ps[n].1])
  }

  lemma GatherMore(tb: Table, ps: seq<(nat, nat)>, t: nat, b: nat)
    requires AllReady(tb, ps) && Ready(tb, t, b)
    ensures AllReady(tb, ps + [(t, b)]) && Gather(tb, ps + [(t, b)]) == Gather(tb, ps) + Items(tb.root[t][b])
  {
    hide Ready;
    assert (ps + [(t, b)])[..|ps|] == ps;
  }

  /** The last chain of a visit, if it is the second of a pair: its items come when the array may be full. */
  ghost function Second(tb: Table, ps: seq<(nat, nat)>): seq<Node>
    requires AllReady(tb, ps)
  {
    if ps == [] then []
    else
      var p := ps[|ps| - 1];
      if tb.geo.expanding && p.0 >= tb.geo.PrevSize() then Items(tb.root[p.0][p.1]) else []
  }

  /** The visit writes behind the end of the array. */
  ghost predicate Overruns(tb: Table, ps: seq<(nat, nat)>, arraySize: nat)
    requires AllReady(tb, ps)
  {
    Second(tb, ps) != [] && |Gather(tb, ps)| >= arraySize + |Second(tb, ps)|
  }

  function Clip(full: seq<Node>, arraySize: nat): seq<Node> {
    if |full| <= arraySize then full else full[..arraySize]
  }

  /** What the array holds after a visit: all that fits and, in an overrun, one item behind its end. */
  ghost function Filled(tb: Table, ps: seq<(nat, nat)>, arraySize: nat): seq<Node>
    requires AllReady(tb, ps)
  {
    Clip(Gather(tb, ps), arraySize) + if Overruns(tb, ps, arraySize) then [Second(tb, ps)[0]] else []
  }

  /** The last place was in the first half of a pair if the next one is in the second. */
  ghost predicate Paired(tb: Table, ps: seq<(nat, nat)>, t: nat)
    requires AllReady(tb, ps)
  {
    tb.geo.expanding && t >= tb.geo.PrevSize() ==> Second(tb, ps) == []
  }

  lemma FilledStep(tb: Table, ps: seq<(nat, nat)>, reqCount: nat, arraySize: nat, t: nat, b: nat, chains: nat)
    requires AllReady(tb, ps) && Ready(tb, t, b) && 0 < reqCount <= arraySize && Paired(tb, ps, t)
    requires Goes(tb.geo, reqCount, t, |Gather(tb, ps)|, chains)
    ensures AllReady(tb, ps + [(t, b)])
    ensures Fill(Filled(tb, ps, arraySize), Items(tb.root[t][b]), arraySize) == Filled(tb, ps + [(t, b)], arraySize)
  {
    hide Items, Gather, AllReady;
    GatherMore(tb, ps, t, b);
    var full, xs := Gather(tb, ps), Items(tb.root[t][b]);
    var qs := ps + [(t, b)];
    assert qs[|qs| - 1] == (t, b);
    assert !Overruns(tb, ps, arraySize);
    assert Filled(tb, ps, arraySize) == Clip(full, arraySize);
    if |full| < arraySize {
      assert !Overruns(tb, qs, arraySize);
      assert Fill(full, xs, arraySize) == Clip(full + xs, arraySize);
    } else {
      assert Clip(full + xs, arraySize) == full[..arraySize] == Clip(full, arraySize);
      assert |xs| > 1 ==> xs[..1] == [xs[0]];
    }
  }

  /** The count that the loop looks at is below the wanted one exactly if the number of items found is. */
  lemma FilledCount(tb: Table, ps: seq<(nat, nat)>, reqCount: nat, arraySize: nat)
    requires AllReady(tb, ps) && 0 < reqCount <= arraySize
    ensures |Filled(tb, ps, arraySize)| < reqCount <==> |Gather(tb, ps)| < reqCount
  {
    hide Items, Gather, Ready;
  }

  /** Behind the second half of a pair comes a first half. */
  lemma PairedStep(tb: Table, ps: seq<(nat, nat)>, t: nat, b: nat, t': nat, b': nat)
    requires AllReady(tb, ps) && Ready(tb, t, b) && NextPlace(tb.geo.rootpower, t, b, t', b')
    ensures AllReady(tb, ps + [(t, b)]) && Paired(tb, ps + [(t, b)], t')
  {
    hide Items, Gather, Mirror;
    GatherMore(tb, ps, t, b);
    var qs := ps + [(t, b)];
    assert qs[|qs| - 1] == (t, b);
    if tb.geo.expanding { TwinNext(tb.geo.rootpower, t, b, t', b'); }
  }

  /** The loop of assoc_scan_direct at one of its places: what was visited, and what is left to visit. */
  ghost predicate Walked(tb: Table, reqCount: nat, t0: nat, b0: nat, ps: seq<(nat, nat)>, t: nat, b: nat, chains: nat) {
    && Ready(tb, t0, b0) && Ready(tb, t, b) && AllReady(tb, ps) && Paired(tb, ps, t)
    && CursorRank(t0, b0) <= CursorRank(t, b)
    && Collected(tb, t0, b0, t, b, Gather(tb, ps))
    && Places(tb, reqCount, t0, b0, 0, 0) == ps + Places(tb, reqCount, t, b, |Gather(tb, ps)|, chains)
  }

  lemma WalkStart(tb: Table, reqCount: nat, t: nat, b: nat)
    requires Ready(tb, t, b)
    ensures Walked(tb, reqCount, t, b, [], t, b, 0)
  {
    hide Collected, Ready, Places;
    CollectedNone(tb, t, b) by { assert tb.geo.Ok() by { ReadyOk(tb, t, b); } }
  }

  lemma ReadyOk(tb: Table, t: nat, b: nat)
    requires Ready(tb, t, b)
    ensures tb.geo.Ok()
  {}

  lemma PlacesStep(tb: Table, reqCount: nat, t: nat, b: nat, items: nat, chains: nat, t': nat, b': nat)
    requires Ready(tb, t, b) && Goes(tb.geo, reqCount, t, items, chains) && NextPlace(tb.geo.rootpower, t, b, t', b')
    ensures b' < HASHSIZE ==> Ready(tb, t', b')
    ensures Places(tb, reqCount, t, b, items, chains) ==
            [(t, b)] + if b' >= HASHSIZE then [] else Places(tb, reqCount, t', b', items + |Items(tb.root[t][b])|, chains + 1)
  {
    hide Items, Mirror, Pow2, NextOf, CursorRank;
    NextUnique(tb.geo.rootpower, t, b, t', b');
  }

  lemma WalkStep(tb: Table, reqCount: nat, t0: nat, b0: nat, ps: seq<(nat, nat)>, t: nat, b: nat, chains: nat, t': nat, b': nat)
    requires Wf(tb) && Walked(tb, reqCount, t0, b0, ps, t, b, chains) && Goes(tb.geo, reqCount, t, |Gather(tb, ps)|, chains)
    requires NextPlace(tb.geo.rootpower, t, b, t', b')
    ensures CursorRank(t, b) < CursorRank(t', b')
    ensures AllReady(tb, ps + [(t, b)]) && Collected(tb, t0, b0, t', b', Gather(tb, ps + [(t, b)]))
    ensures b' < HASHSIZE ==> Walked(tb, reqCount, t0, b0, ps + [(t, b)], t', b', chains + 1)
    ensures b' >= HASHSIZE ==> Places(tb, reqCount, t0, b0, 0, 0) == ps + [(t, b)]
  {
    hide Wf, Collected, CursorRank, Items, Mirror, Pow2, Gather, Places, AllReady, Paired, Goes, NextPlace;
    WfShape(tb);
    GatherMore(tb, ps, t, b);
    CollectedStep(tb, t0, b0, t, b, t', b', Gather(tb, ps));
    NextRank(tb.geo.rootpower, t, b, t', b');
    PlacesStep(tb, reqCount, t, b, |Gather(tb, ps)|, chains, t', b');
    PairedStep(tb, ps, t, b, t', b');
    var rest := if b' >= HASHSIZE then [] else Places(tb, reqCount, t', b', |Gather(tb, ps + [(t, b)])|, chains + 1);
    assert ps + ([(t, b)] + rest) == ps + [(t, b)] + rest;
  }

  method NextPlaceOf(t: nat, b: nat, rp: nat) returns (t': nat, b': nat)
    requires rp <= 16 && t < Pow2(rp)
    ensures NextPlace(rp, t, b, t', b')
  {
    hide Mirror;
    t', b' := t, b;
    MirrorZero(0);
    if rp > 0 {
      t' := Cursor.NextTabidx(t, rp);
    }
    if t' == 0 {
      b' := b + 1;
    }
  }

  /** A chain is the second of a pair. */
  predicate IsSecond(tb: Table, p: (nat, nat)) { tb.geo.expanding && p.0 >= tb.geo.PrevSize() }

  /** Before each chain of a visit, but the second of a pair, too few items were found and too few chains visited. */
  ghost predicate Wanted(tb: Table, reqCount: nat, ps: seq<(nat, nat)>)
    requires AllReady(tb, ps)
  {
    && (forall i | 0 <= i < |ps| && !IsSecond(tb, ps[i]) :: WantedAt(tb, reqCount, ps, i))
    && (forall i | 0 < i < |ps| && IsSecond(tb, ps[i]) :: !IsSecond(tb, ps[..i][i - 1]))
  }

  ghost predicate WantedAt(tb: Table, reqCount: nat, ps: seq<(nat, nat)>, i: nat)
    requires AllReady(tb, ps) && i <= |ps|
  {
    |Gather(tb, ps[..i])| < reqCount && i < 4 * reqCount
  }

  lemma WantedStep(tb: Table, reqCount: nat, ps: seq<(nat, nat)>, t: nat, b: nat)
    requires AllReady(tb, ps) && Ready(tb, t, b) && Wanted(tb, reqCount, ps)
    requires IsSecond(tb, (t, b)) || (|Gather(tb, ps)| < reqCount && |ps| < 4 * reqCount)
    requires IsSecond(tb, (t, b)) && ps != [] ==> !IsSecond(tb, ps[|ps| - 1])
    ensures AllReady(tb, ps + [(t, b)]) && Wanted(tb, reqCount, ps + [(t, b)])
  {
    hide Items, Gather, Ready, IsSecond;
    var qs := ps + [(t, b)];
    forall i | 0 <= i < |qs| && !IsSecond(tb, qs[i])
      ensures WantedAt(tb, reqCount, qs, i)
    {
      assert qs[..i] == ps[..i];
      if i == |ps| { assert ps[..i] == ps; } else { assert WantedAt(tb, reqCount, ps, i); }
    }
    forall i | 0 < i < |qs| && IsSecond(tb, qs[i])
      ensures !IsSecond(tb, qs[..i][i - 1])
    {
      assert qs[..i] == ps[..i];
    }
  }

  /**
   * How far a call goes: the chains visited are the distance of the cursors; it
   * ends only with as many items or chains as wanted, or at the end, and goes
   * on past either by no more than one chain or, in an expansion, one pair.
   */
  ghost predicate Limited(tb: Table, cursor: nat, next: nat, reqCount: nat, ps: seq<(nat, nat)>)
    requires AllReady(tb, ps) && tb.geo.rootpower <= 16
  {
    var n, limit := |ps|, 4 * reqCount;
    && n > 0
    && CursorRank(cursor / HASHSIZE, cursor % HASHSIZE) + Pow2(16 - tb.geo.rootpower) * n ==
       (if next == 0 then 65536 * 65536 else CursorRank(next / HASHSIZE, next % HASHSIZE))
    && (next != 0 ==> |Gather(tb, ps)| >= reqCount || n >= limit)
    && (if IsSecond(tb, ps[n - 1]) then n <= limit + 1 && (n > 1 ==> |Gather(tb, ps[..n - 2])| < reqCount)
        else n <= limit && |Gather(tb, ps[..n - 1])| < reqCount)
  }

  /** At a place of the loop: the chains so far were wanted, and lie between the cursor and the place. */
  ghost predicate Going(tb: Table, reqCount: nat, t0: nat, b0: nat, ps: seq<(nat, nat)>, t: nat, b: nat)
    requires AllReady(tb, ps) && tb.geo.rootpower <= 16
  {
    && Wanted(tb, reqCount, ps) && (ps != [] && IsSecond(tb, (t, b)) ==> !IsSecond(tb, ps[|ps| - 1]))
    && CursorRank(t, b) == CursorRank(t0, b0) + Pow2(16 - tb.geo.rootpower) * |ps|
  }

  lemma GoingStart(tb: Table, reqCount: nat, t: nat, b: nat)
    requires tb.geo.rootpower <= 16
    ensures AllReady(tb, []) && Going(tb, reqCount, t, b, [], t, b)
  {
    hide CursorRank, Pow2;
  }

  /** One more chain is one more step of the order, and behind the second of a pair comes no second. */
  lemma OneFurther(tb: Table, t: nat, b: nat, t': nat, b': nat)
    requires Ready(tb, t, b) && NextPlace(tb.geo.rootpower, t, b, t', b')
    ensures CursorRank(t', b') == CursorRank(t, b) + Pow2(16 - tb.geo.rootpower)
    ensures IsSecond(tb, (t', b')) ==> !IsSecond(tb, (t, b))
  {
    hide CursorRank, Mirror;
    NextRank(tb.geo.rootpower, t, b, t', b');
    if tb.geo.expanding { TwinNext(tb.geo.rootpower, t, b, t', b'); }
  }

  lemma GoingStep(tb: Table, reqCount: nat, t0: nat, b0: nat, ps: seq<(nat, nat)>, t: nat, b: nat, t': nat, b': nat)
    requires AllReady(tb, ps) && Ready(tb, t, b) && Going(tb, reqCount, t0, b0, ps, t, b) && NextPlace(tb.geo.rootpower, t, b, t', b')
    requires IsSecond(tb, (t, b)) || (|Gather(tb, ps)| < reqCount && |ps| < 4 * reqCount)
    ensures AllReady(tb, ps + [(t, b)]) && Going(tb, reqCount, t0, b0, ps + [(t, b)], t', b')
  {
    hide CursorRank, Mirror, Pow2, NextPlace, Gather, Wanted, IsSecond;
    ReadySmall(tb, t, b);
    WantedStep(tb, reqCount, ps, t, b);
    OneFurther(tb, t, b, t', b');
    Cursor.Distribute(Pow2(16 - tb.geo.rootpower), |ps|);
    assert |ps + [(t, b)]| == |ps| + 1;
  }

  lemma ReadySmall(tb: Table, t: nat, b: nat)
    requires Ready(tb, t, b)
    ensures tb.geo.rootpower <= 16
  {}

  lemma LimitedNow(tb: Table, cursor: nat, next: nat, reqCount: nat, ps: seq<(nat, nat)>, t: nat, b: nat)
    requires AllReady(tb, ps) && tb.geo.rootpower <= 16 && Going(tb, reqCount, cursor / HASHSIZE, cursor % HASHSIZE, ps, t, b) && ps != []
    requires next != 0 ==> |Gather(tb, ps)| >= reqCount || |ps| >= 4 * reqCount
    requires CursorRank(t, b) == if next == 0 then 65536 * 65536 else CursorRank(next / HASHSIZE, next % HASHSIZE)
    ensures Limited(tb, cursor, next, reqCount, ps)
  {
    hide Items, Gather, Ready, IsSecond, CursorRank, Pow2;
    var n := |ps|;
    if IsSecond(tb, ps[n - 1]) {
      if n > 1 {
        assert ps[..n - 1][n - 2] == ps[n - 2];
        assert WantedAt(tb, reqCount, ps, n - 2);
      }
    } else {
      assert WantedAt(tb, reqCount, ps, n - 1);
    }
  }

  datatype Outcome = Invalid | Returned(out: seq<Node>, next: nat) | Overrun(out: seq<Node>, next: nat)

  /**
   * assoc_scan_direct. With an array of any size the call visits the same
   * chains and emits the same cursor; only what the array can take of their
   * items differs, and the second chain of a pair may come to a full array.
   */
  method ScanDirect(h: HashTable, cursor: uint32, reqCount: nat, arraySize: nat) returns (r: Outcome)
    requires h.Valid() && 0 < reqCount <= arraySize
    ensures r.Invalid? <==> cursor / HASHSIZE >= h.Geo().RootSize()
    ensures !r.Invalid? ==>
              && Ready(h.View(), cursor / HASHSIZE, cursor % HASHSIZE)
              && var tb := h.View(); var ps := Places(tb, reqCount, cursor / HASHSIZE, cursor % HASHSIZE, 0, 0);
              && AllReady(tb, ps) && Direct(tb, cursor, Gather(tb, ps), r.next)
              && r.out == Filled(tb, ps, arraySize) && (r.Overrun? <==> Overruns(tb, ps, arraySize))
              && Limited(tb, cursor, r.next, reqCount, ps)
  {
    hide Wf, Items, Mirror, Pow2, NextPlace, Collected, Places, Gather, Filled, Overruns, Paired, AllReady, Going, Limited, CursorRank;
    ghost var tb := h.View();
    WfShape(tb);
    var g := h.Geo();
    var tabidx: nat, bucket: nat := cursor / HASHSIZE, cursor % HASHSIZE;
    if tabidx >= g.RootSize() {
      return Invalid;
    }
    ghost var t0: nat, b0: nat, ps: seq<(nat, nat)> := tabidx, bucket, [];
    var out: seq<Node> := [];
    var hashCount, over := 0, false;
    WalkStart(tb, reqCount, t0, b0);
    GoingStart(tb, reqCount, t0, b0);
    NothingFilled(tb, arraySize);
    while (|out| < reqCount && hashCount < reqCount * 4) || (g.expanding && tabidx >= g.PrevSize())
      invariant Walked(tb, reqCount, t0, b0, ps, tabidx, bucket, hashCount)
      invariant out == Filled(tb, ps, arraySize) && over == Overruns(tb, ps, arraySize)
      invariant |out| < reqCount <==> |Gather(tb, ps)| < reqCount
      invariant hashCount > 0 ==> CursorRank(t0, b0) < CursorRank(tabidx, bucket)
      invariant hashCount == 0 ==> out == []
      invariant hashCount == |ps| && Going(tb, reqCount, t0, b0, ps, tabidx, bucket)
      decreases 65536 * 65536 - CursorRank(tabidx, bucket)
    {
      var t', b' := NextPlaceOf(tabidx, bucket, g.rootpower);
      FilledStep(tb, ps, reqCount, arraySize, tabidx, bucket, hashCount);
      WalkStep(tb, reqCount, t0, b0, ps, tabidx, bucket, hashCount, t', b');
      RankBound(tabidx, bucket);
      out := CollectChain(h.roottable[tabidx][bucket], out, arraySize);
      over := |out| > arraySize;
      ShortOrComplete(tb, ps + [(tabidx, bucket)], arraySize);
      AtEnd(tabidx, bucket, t', b', g.rootpower);
      GoingStep(tb, reqCount, t0, b0, ps, tabidx, bucket, t', b');
      ps := ps + [(tabidx, bucket)];
      FilledCount(tb, ps, reqCount, arraySize);
      tabidx, bucket := t', b';
      if bucket >= HASHSIZE {
        EndRank(tabidx, bucket);
        LimitedNow(tb, cursor, 0, reqCount, ps, tabidx, bucket);
        return if over then Overrun(out, 0) else Returned(out, 0);
      }
      hashCount := hashCount + 1;
    }
    var next := tabidx * HASHSIZE + bucket;
    assert next / HASHSIZE == tabidx && next % HASHSIZE == bucket;
    FirstRank(tabidx, bucket);
    NoMorePlaces(tb, reqCount, tabidx, bucket, |Gather(tb, ps)|, hashCount);
    assert ps + [] == ps;
    LimitedNow(tb, cursor, next, reqCount, ps, tabidx, bucket);
    return if over then Overrun(out, next) else Returned(out, next);
  }

  lemma NothingFilled(tb: Table, arraySize: nat)
    ensures AllReady(tb, []) && Gather(tb, []) == [] && Filled(tb, [], arraySize) == [] && !Overruns(tb, [], arraySize)
  {}

  lemma NoMorePlaces(tb: Table, reqCount: nat, t: nat, b: nat, items: nat, chains: nat)
    requires Ready(tb, t, b) && !Goes(tb.geo, reqCount, t, items, chains)
    ensures Places(tb, reqCount, t, b, items, chains) == []
  {}

  /** The call returns all that it found exactly if the array is as large; it is short of the rest, or it overruns. */
  lemma ShortOrComplete(tb: Table, ps: seq<(nat, nat)>, arraySize: nat)
    requires AllReady(tb, ps)
    ensures Filled(tb, ps, arraySize) == Gather(tb, ps) && !Overruns(tb, ps, arraySize) <==> |Gather(tb, ps)| <= arraySize
    ensures |Filled(tb, ps, arraySize)| > arraySize <==> Overruns(tb, ps, arraySize)
    ensures !Overruns(tb, ps, arraySize) && |Gather(tb, ps)| > arraySize ==> Filled(tb, ps, arraySize) == Gather(tb, ps)[..arraySize]
  {
    hide Items, Gather, Ready, Second;
  }

  /** The array can take what the last chain, or the last pair of chains, adds. */
  ghost predicate ChainsFit(tb: Table, reqCount: nat, arraySize: nat)
    requires Shape(tb)
  {
    forall t, b | 0 <= t < |tb.root| && 0 <= b < HASHSIZE :: ChainFits(tb, reqCount, arraySize, t, b)
  }

  ghost predicate ChainFits(tb: Table, reqCount: nat, arraySize: nat, t: nat, b: nat)
    requires Shape(tb) && t < |tb.root| && b < HASHSIZE
  {
    reqCount + |Items(tb.root[t][b])| +
    (if tb.geo.expanding && t < tb.geo.PrevSize() then |Items(tb.root[t + tb.geo.PrevSize()][b])| else 0) <= arraySize + 1
  }

  lemma {:induction false} GatherFirst(tb: Table, t: nat, b: nat, ps: seq<(nat, nat)>)
    requires Ready(tb, t, b) && AllReady(tb, ps)
    ensures AllReady(tb, [(t, b)] + ps) && Gather(tb, [(t, b)] + ps) == Items(tb.root[t][b]) + Gather(tb, ps)
    decreases |ps|
  {
    hide Items;
    var n := |ps| - 1;
    if n < 0 {
      assert ([(t, b)] + ps)[..0] == [] && Gather(tb, []) == [];
    } else {
      GatherFirst(tb, t, b, ps[..n]);
      assert ([(t, b)] + ps)[..n + 1] == [(t, b)] + ps[..n];
    }
  }

  /** As long as every chain or pair fits, a call is complete. */
  lemma {:induction false} ChainsFitComplete(tb: Table, reqCount: nat, arraySize: nat, t: nat, b: nat, items: nat, chains: nat)
    requires Ready(tb, t, b) && 0 < reqCount <= arraySize && ChainsFit(tb, reqCount, arraySize) && items <= arraySize
    requires tb.geo.expanding && t >= tb.geo.PrevSize() ==> items + |Items(tb.root[t][b])| <= arraySize
    ensures var ps := Places(tb, reqCount, t, b, items, chains); AllReady(tb, ps) && items + |Gather(tb, ps)| <= arraySize
    decreases 65536 * 65536 - CursorRank(t, b)
  {
    hide Items, Mirror, Pow2, Gather, CursorRank, NextPlace;
    if Goes(tb.geo, reqCount, t, items, chains) {
      var rp := tb.geo.rootpower;
      var p := NextOf(rp, t, b);
      PlacesStep(tb, reqCount, t, b, items, chains, p.0, p.1);
      NextRank(rp, t, b, p.0, p.1);
      RankBound(t, b);
      assert ChainFits(tb, reqCount, arraySize, t, b);
      if tb.geo.expanding { TwinNext(rp, t, b, p.0, p.1); }
      if p.1 < HASHSIZE {
        ChainsFitComplete(tb, reqCount, arraySize, p.0, p.1, items + |Items(tb.root[t][b])|, chains + 1);
        GatherFirst(tb, t, b, Places(tb, reqCount, p.0, p.1, items + |Items(tb.root[t][b])|, chains + 1));
      } else {
        GatherFirst(tb, t, b, []);
        NothingFilled(tb, arraySize);
      }
    } else {
      NoMorePlaces(tb, reqCount, t, b, items, chains);
      NothingFilled(tb, arraySize);
    }
  }

  /** A table in an expansion, with one item in each chain of a pair. */
  function Halves(): Table {
    Table(
      (k: string) => if k == "b" then 65537 else 1,
      Geometry(1, true, 0, 0),
      seq(2, t => seq(HASHSIZE, b => if b != 1 then [] else if t == 0 then [Item("a", 0)] else [Item("b", 1)])),
      seq(HASHSIZE, b => 0), 2, map[], map["a" := 0, "b" := 1])
  }

  lemma HalvesShape()
    ensures Shape(Halves()) && |Halves().root| == 2
  {
    assert Pow2(1) == 2;
  }

  lemma HalvesChain(t: nat, b: nat)
    requires t < 2 && b < HASHSIZE
    ensures Shape(Halves()) && |Halves().root| == 2
    ensures Halves().root[t][b] == if b != 1 then [] else if t == 0 then [Item("a", 0)] else [Item("b", 1)]
  {
    HalvesShape();
  }

  lemma HalvesKeys()
    ensures var tb := Halves(); tb.geo.Ok() && Bucket(tb, "a") == 1 && Bucket(tb, "b") == 1 && Tab(tb, "a") == 0 && Tab(tb, "b") == 1
    ensures Halves().live == map["a" := 0, "b" := 1] && Halves().scans == map[] && Halves().items == 2
    ensures forall b | 0 <= b < |Halves().refs| :: Halves().refs[b] == 0
  {
    assert Pow2(1) == 2;
  }

  lemma HalvesChainOk(t: nat, b: nat)
    requires t < 2 && b < HASHSIZE
    ensures Shape(Halves()) && |Halves().root| == 2 && ChainOk(Halves(), t, b)
  {
    hide Shape, Halves, Tab, Bucket;
    HalvesChain(t, b);
    HalvesKeys();
    var c := Halves().root[t][b];
    if b == 1 { assert c == [c[0]]; }
  }

  lemma HalvesWf()
    ensures Wf(Halves())
  {
    hide Halves, ChainOk, Bucket, Tab;
    var tb := Halves();
    HalvesShape();
    HalvesKeys();
    forall t, b | 0 <= t < |tb.root| && 0 <= b < HASHSIZE
      ensures ChainOk(tb, t, b)
    {
      HalvesChainOk(t, b);
    }
    HalvesChain(0, 1);
    HalvesChain(1, 1);
    assert KeyOk(tb, "a") && KeyOk(tb, "b");
    forall b | 0 <= b < HASHSIZE
      ensures tb.refs[b] == |ActiveAt(tb.scans, b)|
    {
      assert ActiveAt(tb.scans, b) == {};
    }
    assert tb.live.Keys == {"a", "b"};
  }

  /** With room for one item, a call that wants one writes a second one behind the array. */
  lemma OverrunsHere()
    ensures var tb := Halves();
            && Wf(tb) && Ready(tb, 0, 1)
            && var ps := Places(tb, 1, 0, 1, 0, 0);
            && ps == [(0, 1), (1, 1)] && AllReady(tb, ps) && Overruns(tb, ps, 1)
  {
    hide Wf;
    var tb := Halves();
    HalvesWf();
    WfShape(tb);
    assert Pow2(1) == 2;
    MirrorZero(1);
    MirrorOne();
    assert NextPlace(1, 0, 1, 1, 1) && NextPlace(1, 1, 1, 0, 2);
    PlacesStep(tb, 1, 0, 1, 0, 0, 1, 1);
    PlacesStep(tb, 1, 1, 1, 1, 1, 0, 2);
    NoMorePlaces(tb, 1, 0, 2, 2, 2);
    GatherMore(tb, [], 0, 1);
    GatherMore(tb, [(0, 1)], 1, 1);
    assert Items(tb.root[0][1]) == [Item("a", 0)] && Items(tb.root[1][1]) == [Item("b", 1)];
  }

  lemma RankBound(t: nat, b: nat)
    requires b < HASHSIZE
    ensures CursorRank(t, b) < 65536 * 65536
  {
    hide Mirror;
    Pow16();
  }

  lemma FirstRank(t: nat, b: nat)
    ensures CursorRank(t, b) > 0 ==> t * HASHSIZE + b != 0
  {
    MirrorZero(16);
  }

  lemma EndRank(t: nat, b: nat)
    requires t == 0 && b == HASHSIZE
    ensures CursorRank(t, b) == 65536 * 65536
  {
    MirrorZero(16);
  }

  lemma AtEnd(t: nat, b: nat, t': nat, b': nat, rp: nat)
    requires rp <= 16 && t < Pow2(rp) && NextPlace(rp, t, b, t', b') && b < HASHSIZE
    ensures b' >= HASHSIZE ==> b' == HASHSIZE && t' == 0
  {}

  lemma {:induction false} PowMonotone(a: nat, b: nat)
    requires a <= b
    ensures Pow2(a) <= Pow2(b)
  {
    if a < b { PowMonotone(a, b - 1); }
  }

  /** An emitted cursor stays good while the table grows. */
  lemma ResumableKept(g: Geometry, g': Geometry, cursor: nat)
    requires g.Ok() && g'.Ok() && Grows(g, g') && Resumable(g, cursor)
    ensures Resumable(g', cursor)
  {
    if g'.rootpower > g.rootpower { PowMonotone(g.rootpower, g'.rootpower - 1); }
  }

  /** One call of the scan, made in state number `at` of a run. */
  datatype Call = Call(at: nat, cursor: nat, out: seq<Node>, next: nat)

  predicate Follows(calls: seq<Call>, j: nat)
    requires 0 < j < |calls|
  {
    calls[j - 1].at <= calls[j].at && calls[j].cursor == calls[j - 1].next != 0
  }

  /** A whole scan: from cursor 0, each call resuming where the last one stopped, through a changing table. */
  ghost predicate DirectRun(st: seq<Table>, ev: seq<Event>, calls: seq<Call>) {
    && Run(st, ev)
    && (forall j | 0 <= j < |calls| :: calls[j].at < |st| && Wf(st[calls[j].at]) &&
                                       Direct(st[calls[j].at], calls[j].cursor, calls[j].out, calls[j].next))
    && (forall j | 0 < j < |calls| :: Follows(calls, j))
    && (calls != [] ==> calls[0].cursor == 0)
  }

  function AllOut(calls: seq<Call>): seq<Node> {
    if calls == [] then [] else AllOut(calls[..|calls| - 1]) + calls[|calls| - 1].out
  }

  /** How far the calls have come in the order of the scan. */
  function Reached(calls: seq<Call>): nat {
    if calls == [] then 0
    else
      var next := calls[|calls| - 1].next;
      if next == 0 then 65536 * 65536 else CursorRank(next / HASHSIZE, next % HASHSIZE)
  }

  lemma {:induction false} RunGrows(st: seq<Table>, ev: seq<Event>, a: nat, b: nat, cursor: nat)
    requires Run(st, ev) && a <= b < |st|
    ensures Wf(st[a]) && Wf(st[b]) && st[a].hashOf == st[b].hashOf
    ensures Resumable(st[a].geo, cursor) ==> Resumable(st[b].geo, cursor)
    decreases b - a
  {
    hide Resumable, Wf;
    RunWf(st, ev, a);
    RunWf(st, ev, b);
    if a < b {
      RunGrows(st, ev, a, b - 1, cursor);
      assert Step(st[b - 1], ev[b - 1], st[b]);
      WfShape(st[b - 1]);
      WfShape(st[b]);
      if Resumable(st[b - 1].geo, cursor) { ResumableKept(st[b - 1].geo, st[b].geo, cursor); }
    }
  }

  lemma StartResumable(g: Geometry)
    ensures Resumable(g, 0)
  {}

  /** Every call of the scan starts from a good cursor. */
  lemma CallResumable(st: seq<Table>, ev: seq<Event>, calls: seq<Call>, j: nat)
    requires DirectRun(st, ev, calls) && j < |calls|
    ensures Resumable(st[calls[j].at].geo, calls[j].cursor)
  {
    hide Resumable, Wf, Step, Collected;
    if j == 0 {
      StartResumable(st[calls[0].at].geo);
    } else {
      assert Follows(calls, j);
      RunGrows(st, ev, calls[j - 1].at, calls[j].at, calls[j].cursor);
    }
  }

  /** What a call returns when it starts from a good cursor. */
  lemma CallExact(tb: Table, c: Call, n: Node)
    requires Wf(tb) && Resumable(tb.geo, c.cursor) && Direct(tb, c.cursor, c.out, c.next)
    ensures var to := if c.next == 0 then 65536 * 65536 else CursorRank(c.next / HASHSIZE, c.next % HASHSIZE);
            var from := CursorRank(c.cursor / HASHSIZE, c.cursor % HASHSIZE);
            from < to && NoClash(c.out) &&
            (n in c.out <==> LinkedNode(tb, n) && from <= Rank(tb, n.key) < to)
  {
    hide Rank, HighIdx, TabIdx, Mirror;
    MirrorZero(16);
  }

  lemma DirectPrefix(st: seq<Table>, ev: seq<Event>, calls: seq<Call>)
    requires DirectRun(st, ev, calls) && calls != []
    ensures DirectRun(st, ev, calls[..|calls| - 1])
  {
    hide Run, Wf, Direct;
    var p := calls[..|calls| - 1];
    forall j | 0 < j < |p| ensures Follows(p, j) {
      assert Follows(calls, j);
    }
  }

  /** Where a call starts is where the calls before it had come to. */
  lemma ResumesThere(st: seq<Table>, ev: seq<Event>, calls: seq<Call>)
    requires DirectRun(st, ev, calls) && calls != []
    ensures var c := calls[|calls| - 1];
            Reached(calls[..|calls| - 1]) == CursorRank(c.cursor / HASHSIZE, c.cursor % HASHSIZE)
  {
    hide Run, Wf, Direct, Mirror;
    MirrorZero(16);
    if |calls| > 1 { assert Follows(calls, |calls| - 1); }
  }

  lemma SameRank(st: seq<Table>, ev: seq<Event>, j: nat, k: string)
    requires Run(st, ev) && j < |st|
    ensures Rank(st[j], k) == Rank(st[0], k)
  {
    hide Step, Mirror;
    RunGrows(st, ev, 0, j, 0);
  }

  /**
   * The calls so far have returned no key twice, only keys of the stretch they
   * have covered, and every key of that stretch that stayed linked.
   */
  lemma {:induction false} DirectCovers(st: seq<Table>, ev: seq<Event>, calls: seq<Call>, k: string)
    requires DirectRun(st, ev, calls)
    ensures NoClash(AllOut(calls))
    ensures forall n | n in AllOut(calls) :: n.Item? && Rank(st[0], n.key) < Reached(calls)
    ensures LinkedThroughout(st, k) ==> (HasKey(AllOut(calls), k) <==> Rank(st[0], k) < Reached(calls))
    decreases |calls|
  {
    hide Run, Wf, Direct, Rank, CursorRank, NoClash, HasKey, Resumable, Reached;
    if calls == [] {
      EmptyNoClash();
      NoKey(k);
      NothingReached();
    } else {
      var j := |calls| - 1;
      var c := calls[j];
      var tb := st[c.at];
      DirectPrefix(st, ev, calls);
      DirectCovers(st, ev, calls[..j], k);
      CallResumable(st, ev, calls, j);
      ResumesThere(st, ev, calls);
      var before := AllOut(calls[..j]);
      LastReached(calls);
      CallExact(tb, c, Hold(0));
      forall n ensures n in c.out <==> LinkedNode(tb, n) && Reached(calls[..j]) <= Rank(st[0], n.key) < Reached(calls) {
        CallExact(tb, c, n);
        if n.Item? { SameRank(st, ev, c.at, n.key); }
      }
      forall x, y | x in before && y in c.out ensures !Clash(x, y) {
        assert x.key != y.key;
      }
      NoClashConcat(before, c.out);
      HasKeyConcat(before, c.out, k);
      if LinkedThroughout(st, k) {
        assert k in st[c.at].live;
        OutKey(tb, c.out, k);
      }
    }
  }

  lemma NothingReached()
    ensures Reached([]) == 0
  {}

  lemma LastReached(calls: seq<Call>)
    requires calls != []
    ensures var next := calls[|calls| - 1].next;
            Reached(calls) == if next == 0 then 65536 * 65536 else CursorRank(next / HASHSIZE, next % HASHSIZE)
  {}

  lemma OutKey(tb: Table, out: seq<Node>, k: string)
    requires k in tb.live && forall n | n in out :: LinkedNode(tb, n)
    ensures HasKey(out, k) <==> Item(k, tb.live[k]) in out
  {
    if HasKey(out, k) {
      var n :| n in out && n.Item? && n.key == k;
      assert n == Item(k, tb.live[k]);
    }
  }

  /**
   * The cursor scan is complete: with any calls on the table between its own,
   * expansions included, it returns every item that stays linked exactly once
   * before the cursor comes back to 0.
   */
  lemma DirectComplete(st: seq<Table>, ev: seq<Event>, calls: seq<Call>, k: string)
    requires DirectRun(st, ev, calls) && calls != [] && calls[|calls| - 1].next == 0 && LinkedThroughout(st, k)
    ensures var r := AllOut(calls);
            exists p :: 0 <= p < |r| && r[p].Item? && r[p].key == k &&
                        forall q | 0 <= q < |r| && r[q].Item? && r[q].key == k :: q == p
  {
    hide Run, Wf, Direct, Rank;
    DirectCovers(st, ev, calls, k);
    RankBelow(st[0], k);
    var r := AllOut(calls);
    var n :| n in r && n.Item? && n.key == k;
    var p :| 0 <= p < |r| && r[p] == n;
    forall q | 0 <= q < |r| && r[q].Item? && r[q].key == k ensures q == p {
      NoClashUnique(r, q, p);
    }
  }

  lemma RankBelow(tb: Table, k: string)
    ensures Rank(tb, k) < 65536 * 65536
  {
    hide Mirror;
    Pow16();
  }
}
