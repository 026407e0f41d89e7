/** The circular doubly linked list with a head (topkeys.c). */
module DList {
  class Link {
    var prev: Link
    var next: Link
    const key: string

    constructor (key: string)
      ensures prev == next == this && this.key == key
    {
      this.key := key;
      prev, next := this, this;
    }
  }

  /** The position after `i` in a ring of `n`. */
  function After(i: nat, n: nat): nat { if i + 1 == n then 0 else i + 1 }

  /** The links of `ring` point at each other in order. */
  ghost predicate Linked(ring: seq<Link>)
    reads ring
  {
    && (forall i, j | 0 <= i < j < |ring| :: ring[i] != ring[j])
    && forall i | 0 <= i < |ring| :: ring[i].next == ring[After(i, |ring|)] && ring[After(i, |ring|)].prev == ring[i]
  }

  function Without<T>(s: seq<T>, i: nat): (r: seq<T>)
    requires i < |s|
    ensures |r| == |s| - 1
  {
    s[..i] + s[i + 1..]
  }

  /** dlist_remove. */
  method Remove(x: Link, ghost ring: seq<Link>, ghost i: nat)
    requires Linked(ring) && 0 < i < |ring| && ring[i] == x
    modifies ring
    ensures Linked(Without(ring, i))
  {
    ghost var r := Without(ring, i);
    ghost var n := |ring|;
    assert x.prev == ring[i - 1] by { assert After(i - 1, n) == i; }
    assert x.next == ring[After(i, n)];
    x.prev.next := x.next;
    x.next.prev := x.prev;
    forall k | 0 <= k < |r|
      ensures r[k].next == r[After(k, n - 1)] && r[After(k, n - 1)].prev == r[k]
    {
      ghost var j := if k < i then k else k + 1;
      assert r[k] == ring[j] && old(ring[j].next) == ring[After(j, n)] && old(ring[After(j, n)].prev) == ring[j];
    }
  }

  /** dlist_insert_after, at the head. */
  method InsertFirst(head: Link, x: Link, ghost ring: seq<Link>)
    requires Linked(ring) && |ring| > 0 && ring[0] == head && x !in ring
    modifies ring, x
    ensures Linked([head, x] + ring[1..])
  {
    ghost var r := [head, x] + ring[1..];
    ghost var n := |ring|;
    assert head.next == ring[After(0, n)];
    x.next := head.next;
    x.prev := head;
    head.next.prev := x;
    head.next := x;
    forall k | 1 < k < |r|
      ensures r[k] == ring[k - 1] && r[k].next == r[After(k, n + 1)] && r[After(k, n + 1)].prev == r[k]
    {
      assert old(ring[k - 1].next) == ring[After(k - 1, n)] && old(ring[After(k - 1, n)].prev) == ring[k - 1];
    }
    assert r[1].next == r[After(1, n + 1)] && r[After(1, n + 1)].prev == r[1];
  }
}
