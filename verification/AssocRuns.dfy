/**
 * Whole runs of the table: calls on it, in any order, by any number of scans.
 * What a scan returns over a run, and what the visited-area test means.
 */
module AssocRuns {
  import opened Chains
  import opened AssocTable
  import opened AssocSteps
  import opened AssocScan

  /** One call, made under the cache lock. */
  datatype Event =
    | Insert(key: string, id: nat)
    | Replace(key: string, id: nat)
    | Delete(key: string)
    | Open(scan: nat)
    | Next(scan: nat, out: seq<Node>)
    | Close(scan: nat)

  ghost predicate Step(tb: Table, e: Event, tb': Table) {
    && Wf(tb) && Wf(tb') && tb'.hashOf == tb.hashOf && Grows(tb.geo, tb'.geo)
    && match e
       case Insert(k, id) =>
         k !in tb.live && tb'.live == tb.live[k := id] && SamePassed(tb, tb')
       case Replace(k, id) =>
         k in tb.live && tb'.live == tb.live[k := id] && SamePassed(tb, tb')
       case Delete(k) =>
         && k in tb.live && tb'.live == tb.live - {k} && tb'.scans == tb.scans
         && (forall i, j | i in tb.scans && j != k :: Passed(tb', i, j) == Passed(tb, i, j))
         && (forall i | i in tb.scans && Passed(tb, i, k) :: Passed(tb', i, k))
       case Open(i) =>
         && i !in tb.scans && tb'.live == tb.live && tb'.scans == tb.scans[i := Scan(0, 0, 0, false)]
         && (forall k :: !Passed(tb', i, k))
         && (forall j, k | j in tb.scans :: Passed(tb', j, k) == Passed(tb, j, k))
       case Next(i, out) =>
         Handed(tb, tb', i, out) && (out == [] ==> tb'.scans[i].bucket >= HASHSIZE)
       case Close(i) =>
         && i in tb.scans && tb'.live == tb.live && tb'.scans == tb.scans - {i}
         && (forall j, k | j in tb'.scans :: Passed(tb', j, k) == Passed(tb, j, k))
  }

  /** A run: `st[j + 1]` is the table after call number `j`. */
  ghost predicate Run(st: seq<Table>, ev: seq<Event>) {
    |st| == |ev| + 1 && Wf(st[0]) && forall j | 0 <= j < |ev| :: Step(st[j], ev[j], st[j + 1])
  }

  /** Scan `i` is open in every state of the run and is not reopened in it. */
  ghost predicate OpenThroughout(st: seq<Table>, i: nat) {
    forall j | 0 <= j < |st| :: i in st[j].scans
  }

  ghost predicate LinkedThroughout(st: seq<Table>, k: string) {
    forall j | 0 <= j < |st| :: k in st[j].live
  }

  /** Everything scan `i` returned in the run, in order. */
  function Returned(ev: seq<Event>, i: nat): seq<Node> {
    if ev == [] then []
    else
      Returned(ev[..|ev| - 1], i) + Out(ev[|ev| - 1], i)
  }

  predicate HasKey(out: seq<Node>, k: string) {
    exists n :: n in out && n.Item? && n.key == k
  }

  /** A scan that is over has passed every key. */
  lemma OverPassed(tb: Table, i: nat, k: string)
    requires Wf(tb) && i in tb.scans && tb.scans[i].bucket >= HASHSIZE
    ensures Passed(tb, i, k)
  {}

  lemma StepMonotone(tb: Table, e: Event, tb': Table, i: nat, k: string)
    requires Step(tb, e, tb') && i in tb.scans && i in tb'.scans && Passed(tb, i, k)
    ensures Passed(tb', i, k)
  {
    hide Passed;
  }

  /** What one call returned to scan `i`. */
  function Out(e: Event, i: nat): seq<Node> {
    if e.Next? && e.scan == i then e.out else []
  }

  lemma StepPassed(tb: Table, e: Event, tb': Table, i: nat, k: string)
    requires Step(tb, e, tb') && i in tb.scans && i in tb'.scans && k in tb.live && k in tb'.live
    ensures Passed(tb', i, k) <==> Passed(tb, i, k) || HasKey(Out(e, i), k)
    ensures HasKey(Out(e, i), k) ==> !Passed(tb, i, k)
  {
    hide Passed, NoClash, ChainOk, KeyOk, ScanOk, HoldOk, ActiveAt, TabIdx;
    if e.Next? && e.scan == i {
      var n := Item(k, tb.live[k]);
      assert HasKey(e.out, k) <==> n in e.out by {
        if HasKey(e.out, k) {
          var m :| m in e.out && m.Item? && m.key == k;
          assert m == n;
        }
      }
    } else {
      assert !HasKey([], k);
    }
  }

  lemma RunWf(st: seq<Table>, ev: seq<Event>, j: nat)
    requires Run(st, ev) && j < |st|
    ensures Wf(st[j])
  {
    if j > 0 { assert Step(st[j - 1], ev[j - 1], st[j]); }
  }

  lemma RunPrefix(st: seq<Table>, ev: seq<Event>)
    requires Run(st, ev) && ev != []
    ensures var n := |ev| - 1; Run(st[..n + 1], ev[..n]) && Step(st[n], ev[n], st[n + 1])
  {
    hide Step, Wf;
    var n := |ev| - 1;
    forall j | 0 <= j < n ensures Step(st[..n + 1][j], ev[..n][j], st[..n + 1][j + 1]) {
      assert Step(st[j], ev[j], st[j + 1]);
    }
  }

  lemma HasKeyConcat(a: seq<Node>, b: seq<Node>, k: string)
    ensures HasKey(a + b, k) <==> HasKey(a, k) || HasKey(b, k)
  {
    if HasKey(a, k) {
      var n :| n in a && n.Item? && n.key == k;
      assert n in a + b;
    }
    if HasKey(b, k) {
      var n :| n in b && n.Item? && n.key == k;
      assert n in a + b;
    }
  }

  /**
   * The visited-area test is exact: over any stretch of a run in which a key
   * stays linked, the scan returns it if and only if it had not passed it
   * before and has passed it after; what it has passed stays passed.
   */
  lemma {:induction false} VisitedExact(st: seq<Table>, ev: seq<Event>, i: nat, k: string)
    requires Run(st, ev) && OpenThroughout(st, i) && LinkedThroughout(st, k)
    ensures Wf(st[|ev|])
    ensures HasKey(Returned(ev, i), k) <==> !Passed(st[0], i, k) && Passed(st[|ev|], i, k)
    ensures Passed(st[0], i, k) ==> Passed(st[|ev|], i, k)
    decreases |ev|
  {
    hide Step, Wf, Passed, HasKey;
    RunWf(st, ev, |ev|);
    var n := |ev| - 1;
    if ev != [] {
      RunPrefix(st, ev);
      VisitedExact(st[..n + 1], ev[..n], i, k);
      StepPassed(st[n], ev[n], st[n + 1], i, k);
      HasKeyConcat(Returned(ev[..n], i), Out(ev[n], i), k);
    } else {
      NoKey(k);
    }
  }

  lemma NoKey(k: string)
    ensures !HasKey([], k)
  {}

  lemma OutAhead(tb: Table, e: Event, tb': Table, i: nat)
    requires Step(tb, e, tb') && i in tb.scans && i in tb'.scans
    ensures NoClash(Out(e, i))
    ensures forall n | n in Out(e, i) :: n.Item? && !Passed(tb, i, n.key) && Passed(tb', i, n.key)
  {
    hide Passed, ChainOk, KeyOk, ScanOk, HoldOk, ActiveAt, TabIdx;
  }

  lemma NoClashConcat(a: seq<Node>, b: seq<Node>)
    requires NoClash(a) && NoClash(b) && forall x, y | x in a && y in b :: !Clash(x, y)
    ensures NoClash(a + b)
  {
    var c := a + b;
    forall p, q | 0 <= p < q < |c| ensures !Clash(c[p], c[q]) {
      if p < |a| <= q { assert c[p] in a && c[q] in b; }
    }
  }

  /**
   * No key is ever returned twice, not even one that was deleted and inserted
   * again: whatever was returned has been passed and stays passed.
   */
  lemma {:induction false} NoKeyTwice(st: seq<Table>, ev: seq<Event>, i: nat)
    requires Run(st, ev) && OpenThroughout(st, i)
    ensures NoClash(Returned(ev, i)) && Wf(st[|ev|])
    ensures forall n | n in Returned(ev, i) :: n.Item? && Passed(st[|ev|], i, n.key)
    decreases |ev|
  {
    hide Step, Wf, Passed, NoClash;
    RunWf(st, ev, |ev|);
    if ev == [] {
      EmptyNoClash();
    } else {
      var n := |ev| - 1;
      RunPrefix(st, ev);
      NoKeyTwice(st[..n + 1], ev[..n], i);
      var old_, new_ := Returned(ev[..n], i), Out(ev[n], i);
      OutAhead(st[n], ev[n], st[n + 1], i);
      forall m | m in old_ ensures Passed(st[n + 1], i, m.key) {
        StepMonotone(st[n], ev[n], st[n + 1], i, m.key);
      }
      forall x, y | x in old_ && y in new_ ensures !Clash(x, y) {
        assert x.key != y.key;
      }
      NoClashConcat(old_, new_);
    }
  }

  /**
   * The placeholder scan is complete: from its opening to its end, with any
   * calls in between, it returns every item that stays linked, exactly once.
   */
  lemma ScanComplete(st: seq<Table>, ev: seq<Event>, i: nat, k: string)
    requires Run(st, ev) && OpenThroughout(st, i) && LinkedThroughout(st, k)
    requires st[0].scans[i] == Scan(0, 0, 0, false) && st[|ev|].scans[i].bucket >= HASHSIZE
    ensures var r := Returned(ev, i);
            exists p :: 0 <= p < |r| && r[p].Item? && r[p].key == k &&
                        forall q | 0 <= q < |r| && r[q].Item? && r[q].key == k :: q == p
  {
    hide Step, Wf;
    var r := Returned(ev, i);
    RunWf(st, ev, 0);
    VisitedExact(st, ev, i, k);
    NoKeyTwice(st, ev, i);
    OverPassed(st[|ev|], i, k);
    FreshNotPassed(st[0], i, k);
    var n :| n in r && n.Item? && n.key == k;
    var p :| 0 <= p < |r| && r[p] == n;
    forall q | 0 <= q < |r| && r[q].Item? && r[q].key == k ensures q == p {
      NoClashUnique(r, q, p);
    }
  }

  lemma FreshNotPassed(tb: Table, i: nat, k: string)
    requires Wf(tb) && i in tb.scans && tb.scans[i] == Scan(0, 0, 0, false)
    ensures !Passed(tb, i, k)
  {}

  /**
   * The table refines a map: an item is in a chain exactly if it is linked and
   * the chain is the one its hash names at this stage of the expansion, and it
   * is there once; the item count is the size of the map.
   */
  lemma LinkedOnce(tb: Table, t: nat, b: nat, k: string, id: nat)
    requires Wf(tb) && t < |tb.root| && b < HASHSIZE
    ensures Item(k, id) in tb.root[t][b] <==> k in tb.live && tb.live[k] == id && Tab(tb, k) == t && Bucket(tb, k) == b
    ensures forall p, q | 0 <= p < |tb.root[t][b]| && 0 <= q < |tb.root[t][b]| && tb.root[t][b][p] == tb.root[t][b][q] == Item(k, id) :: p == q
    ensures tb.items == |tb.live|
  {
    WfChain(tb, t, b);
    if k in tb.live { WfKey(tb, k); }
    forall p, q | 0 <= p < |tb.root[t][b]| && 0 <= q < |tb.root[t][b]| && tb.root[t][b][p] == tb.root[t][b][q] == Item(k, id)
      ensures p == q
    {
      NoClashUnique(tb.root[t][b], p, q);
    }
  }

  /** What linking a key does to the map and to the scans. */
  lemma LinkLive(tb: Table, k: string, id: nat, tb': Table)
    requires Step(tb, Insert(k, id), tb') || Step(tb, Replace(k, id), tb')
    ensures Shape(tb) && Shape(tb') && tb'.live == tb.live[k := id] && tb'.scans == tb.scans
  {
    hide Wf, Passed;
    WfShape(tb);
    WfShape(tb');
  }
}
