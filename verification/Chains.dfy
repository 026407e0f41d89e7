/**
 * Hash chains. The source links items and scan placeholders through `h_next`;
 * here a chain is the sequence of nodes met when following the links from the
 * bucket slot.
 */
module Chains {
  /** A cached item (`id` stands for its address) or the placeholder of a scan. */
  datatype Node = Item(key: string, id: nat) | Hold(scan: nat)

  type Chain = seq<Node>

  /** Two nodes that may not share a chain: same key, or same scan. */
  predicate Clash(a: Node, b: Node) {
    || (a.Item? && b.Item? && a.key == b.key)
    || (a.Hold? && b.Hold? && a.scan == b.scan)
  }

  predicate NoClash(c: Chain) {
    forall p, q | 0 <= p < q < |c| :: !Clash(c[p], c[q])
  }

  /** Where `x` is first met when the chain is followed from its head, or the chain's length. */
  function IndexOf(c: Chain, x: Node): (r: nat)
    ensures r <= |c| && (r < |c| ==> c[r] == x)
    ensures forall p | 0 <= p < r :: c[p] != x
    ensures r < |c| <==> x in c
  {
    if c == [] || c[0] == x then 0 else 1 + IndexOf(c[1..], x)
  }

  lemma IndexIs(c: Chain, x: Node, r: nat)
    requires r <= |c| && (r < |c| ==> c[r] == x) && forall p | 0 <= p < r :: c[p] != x
    ensures IndexOf(c, x) == r
  {}

  /** `x` is met before `y`. */
  predicate Before(c: Chain, x: Node, y: Node) {
    IndexOf(c, x) < IndexOf(c, y) < |c|
  }

  lemma NoClashUnique(c: Chain, p: nat, q: nat)
    requires NoClash(c) && p < |c| && q < |c| && Clash(c[p], c[q])
    ensures p == q
  {
  }

  /** The chain with `z` linked in front of its node number `at`. */
  function InsertAt(c: Chain, at: nat, z: Node): (d: Chain)
    requires at <= |c|
    ensures |d| == |c| + 1 && d[at] == z
    ensures forall p | 0 <= p < |c| :: c[p] == d[if p < at then p else p + 1]
    ensures forall n :: n in d <==> n == z || n in c
  {
    var d := seq(|c| + 1, p requires 0 <= p < |c| + 1 => if p < at then c[p] else if p == at then z else c[p - 1]);
    assert forall p | 0 <= p < |c| :: c[p] == d[if p < at then p else p + 1];
    assert d[at] == z;
    d
  }

  /** The chain without its node number `at`. */
  function RemoveAt(c: Chain, at: nat): (d: Chain)
    requires at < |c|
    ensures |d| == |c| - 1
    ensures InsertAt(d, at, c[at]) == c
  {
    seq(|c| - 1, p requires 0 <= p < |c| - 1 => if p < at then c[p] else c[p + 1])
  }

  lemma NoClashInsert(c: Chain, at: nat, z: Node)
    requires NoClash(c) && at <= |c| && forall m | m in c :: !Clash(z, m)
    ensures NoClash(InsertAt(c, at, z))
  {
    var d := InsertAt(c, at, z);
    forall p, q | 0 <= p < q < |d| ensures !Clash(d[p], d[q]) {
      var p', q' := if p < at then p else p - 1, if q < at then q else q - 1;
      if p == at {
        assert c[q'] in c;
      } else if q == at {
        assert c[p'] in c;
      } else {
        assert d[p] == c[p'] && d[q] == c[q'];
      }
    }
  }

  /** What a removal leaves. */
  lemma Removed(c: Chain, at: nat)
    requires at < |c| && NoClash(c)
    ensures NoClash(RemoveAt(c, at))
    ensures forall n :: n in RemoveAt(c, at) <==> n in c && n != c[at]
  {
    var d := RemoveAt(c, at);
    forall p, q | 0 <= p < q < |d| ensures !Clash(d[p], d[q]) {
      assert !Clash(c[if p < at then p else p + 1], c[if q < at then q else q + 1]);
    }
    forall n | n in d ensures n != c[at] {
      var p :| 0 <= p < |d| && d[p] == n;
      assert !Clash(c[if p < at then p else at], c[if p < at then at else p + 1]);
    }
  }

  /** The items of a chain, in chain order, without placeholders. */
  function Items(c: Chain): (r: seq<Node>)
    ensures forall n :: n in r <==> n in c && n.Item?
  {
    if c == [] then []
    else if c[0].Item? then [c[0]] + Items(c[1..])
    else Items(c[1..])
  }

  lemma {:induction false} ItemsConcat(a: Chain, b: Chain)
    ensures Items(a + b) == Items(a) + Items(b)
  {
    if a == [] {
      assert a + b == b;
    } else {
      ItemsConcat(a[1..], b);
      assert (a + b)[1..] == a[1..] + b;
    }
  }

  lemma ItemsNone(c: Chain, from: nat)
    requires from <= |c|
    ensures Items(c[from..from]) == []
  {}

  lemma ItemsStep(c: Chain, from: nat, next: nat)
    requires from <= next < |c|
    ensures Items(c[from..next + 1]) == Items(c[from..next]) + if c[next].Item? then [c[next]] else []
  {
    assert c[from..next + 1] == c[from..next] + [c[next]];
    ItemsConcat(c[from..next], [c[next]]);
  }

  lemma {:induction false} ItemsNoClash(c: Chain)
    requires NoClash(c)
    ensures NoClash(Items(c))
  {
    if c != [] {
      assert NoClash(c[1..]);
      ItemsNoClash(c[1..]);
      if c[0].Item? {
        var r := Items(c[1..]);
        forall q | 0 < q < |[c[0]] + r| ensures !Clash(c[0], ([c[0]] + r)[q]) {
          assert r[q - 1] in c[1..];
          var j :| 0 <= j < |c[1..]| && c[1..][j] == r[q - 1];
          assert !Clash(c[0], c[j + 1]);
        }
      }
    }
  }

  /** Insertion shifts what is behind it by one. */
  lemma IndexInsert(c: Chain, at: nat, z: Node, x: Node)
    requires at <= |c| && x != z
    ensures IndexOf(InsertAt(c, at, z), x) == IndexOf(c, x) + if IndexOf(c, x) < at then 0 else 1
  {
    var d, r := InsertAt(c, at, z), IndexOf(c, x);
    var r' := if r < at then r else r + 1;
    forall p | 0 <= p < r' ensures d[p] != x {
      if p != at {
        assert c[if p < at then p else p - 1] == d[p];
      }
    }
    IndexIs(d, x, r');
  }

  /** Order within a chain does not depend on what else is inserted. */
  lemma BeforeInsert(c: Chain, at: nat, z: Node, x: Node, y: Node)
    requires at <= |c| && x != z && y != z
    ensures Before(InsertAt(c, at, z), x, y) <==> Before(c, x, y)
  {
    IndexInsert(c, at, z, x);
    IndexInsert(c, at, z, y);
  }

  /** A node replaced in place by one that clashes with it: what the chain then holds, and where. */
  lemma Replaced(c: Chain, at: nat, z: Node)
    requires NoClash(c) && at < |c| && Clash(z, c[at])
    ensures NoClash(c[at := z])
    ensures forall n :: n in c[at := z] <==> n == z || (n in c && n != c[at])
    ensures IndexOf(c, c[at]) == at == IndexOf(c[at := z], z)
    ensures forall n | n != z && n != c[at] :: IndexOf(c[at := z], n) == IndexOf(c, n)
  {
    var d := c[at := z];
    forall p, q | 0 <= p < q < |d| ensures !Clash(d[p], d[q]) {
      assert !Clash(c[p], c[q]);
    }
    assert d[at] == z;
    NoClashUnique(d, IndexOf(d, z), at);
    NoClashUnique(c, IndexOf(c, c[at]), at);
    forall n | n != z && n != c[at] ensures IndexOf(d, n) == IndexOf(c, n) {
      IndexIs(d, n, IndexOf(c, n));
    }
    forall n ensures n in d <==> n == z || (n in c && n != c[at]) {
      if n in d {
        assert n == c[at] ==> IndexOf(d, n) == at by {
          if n == c[at] { NoClashUnique(d, IndexOf(d, n), at); }
        }
        assert n != z ==> c[IndexOf(d, n)] == n;
      }
      if n in c && n != c[at] {
        assert d[IndexOf(c, n)] == n;
      }
    }
  }

  lemma NoClashIndex(c: Chain, at: nat)
    requires NoClash(c) && at < |c|
    ensures IndexOf(c, c[at]) == at
  {
    NoClashUnique(c, IndexOf(c, c[at]), at);
  }
}
