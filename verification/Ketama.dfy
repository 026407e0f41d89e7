/**
 * Key ownership on the ketama ring (cluster_config.c). MD5 appears only as
 * the function that gives each node name its hash points.
 */
module Ketama {
  import opened Sorting

  const TWO32: nat := 0x1_0000_0000

  /** NUM_NODE_HASHES. */
  const SLICES: nat := 160

  type Point = x: int | 0 <= x < TWO32

  /** The hash points of a node. */
  type Slices = s: seq<Point> | |s| == SLICES witness seq(SLICES, _ => 0)

  /** strcmp. */
  predicate Less(a: string, b: string) {
    if b == [] then false
    else if a == [] then true
    else a[0] < b[0] || (a[0] == b[0] && Less(a[1..], b[1..]))
  }

  predicate Leq(a: string, b: string) { a == b || Less(a, b) }

  lemma {:induction false} LessTrans(a: string, b: string, c: string)
    requires Less(a, b) && Less(b, c)
    ensures Less(a, c)
  {
    if a != [] && a[0] == b[0] == c[0] {
      LessTrans(a[1..], b[1..], c[1..]);
    }
  }

  lemma {:induction false} LessTotal(a: string, b: string)
    ensures Less(a, b) || a == b || Less(b, a)
    ensures !(Less(a, b) && Less(b, a)) && !Less(a, a)
    decreases |a|
  {
    if a != [] && b != [] {
      LessTotal(a[1..], b[1..]);
      LessTotal(a[1..], a[1..]);
      if a[0] == b[0] && a[1..] == b[1..] {
        assert a == [a[0]] + a[1..] == b;
      }
    } else if a != [] {
      LessTotal(a[1..], a[1..]);
    }
  }

  /** How far clockwise point `p` lies from `h`. */
  function Ahead(h: Point, p: Point): int { if p >= h then p - h else p + TWO32 - h }

  predicate OnRing(points: string -> Slices, members: set<string>, p: Point, n: string) {
    n in members && p in points(n)
  }

  /** Nearer clockwise, or at the same point with the smaller name. */
  predicate Nearer(h: Point, p: Point, n: string, q: Point, m: string) {
    Ahead(h, p) < Ahead(h, q) || (p == q && Leq(n, m))
  }

  predicate NearestOf(points: string -> Slices, members: set<string>, h: Point, p: Point, n: string) {
    OnRing(points, members, p, n) && forall m, q | m in members && q in points(m) :: Nearer(h, p, n, q, m)
  }

  /** The owner of a hash value: the node at the nearest point clockwise. */
  ghost predicate Owns(points: string -> Slices, members: set<string>, h: Point, n: string) {
    exists p :: NearestOf(points, members, h, p, n)
  }

  lemma OwnerUnique(points: string -> Slices, members: set<string>, h: Point, n: string, m: string)
    requires Owns(points, members, h, n) && Owns(points, members, h, m)
    ensures n == m
  {
    var p :| NearestOf(points, members, h, p, n);
    var q :| NearestOf(points, members, h, q, m);
    assert Nearer(h, p, n, q, m) && Nearer(h, q, m, p, n);
    LessTotal(n, m);
  }

  /** A node that joins takes keys for itself only; a node that leaves gives up its own only. */
  lemma Monotone(points: string -> Slices, members: set<string>, x: string, h: Point, n: string, m: string)
    requires Owns(points, members, h, n) && Owns(points, members + {x}, h, m)
    ensures m == n || m == x
  {
    if m != x {
      var q :| NearestOf(points, members + {x}, h, q, m);
      assert NearestOf(points, members, h, q, m);
      OwnerUnique(points, members, h, n, m);
    }
  }

  /** A continuum item: a hash point and the index of its node. */
  datatype Cont = Cont(hpoint: Point, nindex: nat)

  predicate ContLe(a: Cont, b: Cont) {
    a.hpoint < b.hpoint || (a.hpoint == b.hpoint && a.nindex <= b.nindex)
  }

  predicate Increasing(names: seq<string>) {
    forall i, j | 0 <= i < j < |names| :: Less(names[i], names[j])
  }

  function Members(names: seq<string>): set<string> { set n | n in names }

  predicate ContOf(points: string -> Slices, names: seq<string>, c: Cont) {
    c.nindex < |names| && c.hpoint in points(names[c.nindex])
  }

  /** The hash ring of a node array: all slices of all nodes, in the order of their points. */
  predicate RingOf(points: string -> Slices, names: seq<string>, conts: seq<Cont>) {
    && Sorted(conts, ContLe) && |conts| == SLICES * |names|
    && (forall k | 0 <= k < |conts| :: ContOf(points, names, conts[k]))
    && (forall i, p: Point | 0 <= i < |names| && p in points(names[i]) :: Cont(p, i) in conts)
  }

  /** The first item at or after `h`, or the very first one if there is none. */
  predicate Successor(conts: seq<Cont>, h: Point, k: nat) {
    && k < |conts|
    && if conts[k].hpoint >= h then forall i | 0 <= i < k :: conts[i].hpoint < h
       else k == 0 && forall i | 0 <= i < |conts| :: conts[i].hpoint < h
  }

  /** The node of the successor is the owner. */
  lemma SuccessorOwns(points: string -> Slices, names: seq<string>, conts: seq<Cont>, h: Point, k: nat)
    requires Increasing(names) && RingOf(points, names, conts) && Successor(conts, h, k)
    ensures ContOf(points, names, conts[k]) && Owns(points, Members(names), h, names[conts[k].nindex])
  {
    var c := conts[k];
    var n := names[c.nindex];
    forall m, q: Point | m in Members(names) && q in points(m)
      ensures Nearer(h, c.hpoint, n, q, m)
    {
      var i :| 0 <= i < |names| && names[i] == m;
      assert Cont(q, i) in conts;
      var j :| 0 <= j < |conts| && conts[j] == Cont(q, i);
      assert j > k ==> ContLe(c, conts[j]);
    }
    assert NearestOf(points, Members(names), h, c.hpoint, n);
  }

  /** Every key has an owner as soon as there is a node. */
  lemma OwnerExists(points: string -> Slices, members: set<string>, h: Point) returns (n: string)
    requires members != {}
    ensures n in members && Owns(points, members, h, n)
    decreases members
  {
    var x :| x in members;
    var rest := members - {x};
    var p := Nearest(points(x), h);
    if rest == {} {
      n := x;
      assert members == {x} + rest;
      assert NearestOf(points, members, h, p, x);
    } else {
      var m := OwnerExists(points, rest, h);
      var q :| NearestOf(points, rest, h, q, m);
      LessTotal(x, m);
      n := if Nearer(h, p, x, q, m) then x else m;
      var r := if Nearer(h, p, x, q, m) then p else q;
      forall k, t: Point | k in members && t in points(k)
        ensures Nearer(h, r, n, t, k)
      {
        if k != x {
          assert Nearer(h, q, m, t, k);
          NearerTrans(h, p, x, q, m, t, k);
        } else {
          assert Nearer(h, p, x, t, x);
          NearerTrans(h, q, m, p, x, t, x);
        }
      }
      assert NearestOf(points, members, h, r, n);
    }
  }

  lemma NearerTrans(h: Point, p: Point, n: string, q: Point, m: string, r: Point, k: string)
    ensures Nearer(h, p, n, q, m) && Nearer(h, q, m, r, k) ==> Nearer(h, p, n, r, k)
    ensures Nearer(h, p, n, q, m) || Nearer(h, q, m, p, n)
  {
    LessTotal(n, m);
    if Less(n, m) && Less(m, k) { LessTrans(n, m, k); }
  }

  lemma {:induction false} Nearest(s: seq<Point>, h: Point) returns (p: Point)
    requires s != []
    ensures p in s && forall q | q in s :: Ahead(h, p) <= Ahead(h, q)
  {
    p := s[0];
    if |s| > 1 {
      var r := Nearest(s[1..], h);
      if Ahead(h, r) < Ahead(h, p) { p := r; }
    }
  }
}
