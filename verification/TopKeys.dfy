/** The top-keys index: a hash table over a recency list (topkeys.c). */
module TopKeys {
  import opened DList
  import opened GenHash

  function Take<T>(s: seq<T>, n: nat): seq<T> { if |s| <= n then s else s[..n] }

  /** The list without a key. */
  function Drop(ks: seq<string>, k: string): seq<string> {
    if ks == [] then [] else (if ks[0] == k then [] else [ks[0]]) + Drop(ks[1..], k)
  }

  /** Using a key: it comes first, and the list keeps at most `n` keys. */
  function Touch(ks: seq<string>, k: string, n: nat): seq<string> { Take([k] + Drop(ks, k), n) }

  /** All keys used so far, the most recently used first. */
  function Recency(uses: seq<string>): seq<string> {
    if uses == [] then [] else [uses[|uses| - 1]] + Drop(Recency(uses[..|uses| - 1]), uses[|uses| - 1])
  }

  predicate NoDup(ks: seq<string>) { forall i, j | 0 <= i < j < |ks| :: ks[i] != ks[j] }

  lemma {:induction false} DropAbsent(ks: seq<string>, k: string)
    requires k !in ks
    ensures Drop(ks, k) == ks
  {
    if ks != [] {
      DropAbsent(ks[1..], k);
    }
  }

  lemma {:induction false} DropAt(ks: seq<string>, i: nat)
    requires NoDup(ks) && i < |ks|
    ensures Drop(ks, ks[i]) == Without(ks, i)
  {
    if i == 0 {
      DropAbsent(ks[1..], ks[0]);
    } else {
      DropAt(ks[1..], i - 1);
      assert Without(ks, i) == [ks[0]] + Without(ks[1..], i - 1);
    }
  }

  lemma DropNoDup(ks: seq<string>, k: string)
    requires NoDup(ks)
    ensures NoDup(Drop(ks, k)) && k !in Drop(ks, k)
    ensures forall x | x != k :: x in Drop(ks, k) <==> x in ks
  {
    if k in ks {
      var i :| 0 <= i < |ks| && ks[i] == k;
      DropAt(ks, i);
      var r := Without(ks, i);
      forall x | x != k && x in ks
        ensures x in r
      {
        var j :| 0 <= j < |ks| && ks[j] == x;
        assert r[if j < i then j else j - 1] == x;
      }
    } else {
      DropAbsent(ks, k);
    }
  }

  lemma {:induction false} RecencyNoDup(uses: seq<string>)
    ensures NoDup(Recency(uses)) && forall x :: x in Recency(uses) <==> x in uses
  {
    if uses != [] {
      var n := |uses| - 1;
      RecencyNoDup(uses[..n]);
      DropNoDup(Recency(uses[..n]), uses[n]);
    }
  }

  lemma WithoutFront(r: seq<string>, n: nat, i: nat)
    requires 0 < n < |r| && i < |r|
    ensures |Without(r, i)| >= n
    ensures Without(r, i)[..n - 1] == if i < n then Without(r[..n], i) else r[..n - 1]
  {}

  /** The front of the list without a key depends on the front of the list. */
  lemma DropFront(r: seq<string>, k: string, n: nat)
    requires NoDup(r) && 0 < n < |r|
    ensures |Drop(r, k)| >= n && |Drop(r[..n], k)| >= n - 1
    ensures Drop(r, k)[..n - 1] == Drop(r[..n], k)[..n - 1]
  {
    hide Drop;
    if k in r {
      var i :| 0 <= i < |r| && r[i] == k;
      DropAt(r, i);
      WithoutFront(r, n, i);
      if i < n {
        assert r[..n][i] == k;
        DropAt(r[..n], i);
        assert Without(r[..n], i)[..n - 1] == Without(r[..n], i);
      } else {
        DropAbsent(r[..n], k);
        assert r[..n][..n - 1] == r[..n - 1];
      }
    } else {
      DropAbsent(r, k);
      DropAbsent(r[..n], k);
      assert r[..n][..n - 1] == r[..n - 1];
    }
  }

  /** Keeping the `n` most recent keys at every step is keeping the `n` most recent keys of all. */
  lemma TouchTake(r: seq<string>, k: string, n: nat)
    requires NoDup(r) && n > 0
    ensures Touch(Take(r, n), k, n) == Take([k] + Drop(r, k), n)
  {
    hide Drop, NoDup;
    if |r| > n {
      DropFront(r, k, n);
      var a, b := Drop(r, k), Drop(r[..n], k);
      assert ([k] + a)[..n] == [k] + a[..n - 1];
      assert Take([k] + b, n) == [k] + b[..n - 1];
    }
  }

  /** When a key was used last. */
  function LastUse(uses: seq<string>, k: string): int {
    if uses == [] then -1 else if uses[|uses| - 1] == k then |uses| - 1 else LastUse(uses[..|uses| - 1], k)
  }

  /** Two places of the list without a key were two places of the list, in the same order. */
  lemma DropPair(r: seq<string>, k: string, i: nat, j: nat) returns (a: nat, b: nat)
    requires NoDup(r) && i < j < |Drop(r, k)|
    ensures a < b < |r| && r[a] == Drop(r, k)[i] != k && r[b] == Drop(r, k)[j] != k
  {
    DropNoDup(r, k);
    a, b := i, j;
    if k in r {
      var p :| 0 <= p < |r| && r[p] == k;
      DropAt(r, p);
      a, b := if i < p then i else i + 1, if j < p then j else j + 1;
    } else {
      DropAbsent(r, k);
    }
  }

  /** What recency order means: earlier in the list, used later. */
  lemma {:induction false} RecencyOrder(uses: seq<string>, i: nat, j: nat)
    requires i < j < |Recency(uses)|
    ensures LastUse(uses, Recency(uses)[i]) > LastUse(uses, Recency(uses)[j]) >= 0
  {
    hide Drop, NoDup;
    var n := |uses| - 1;
    var r, k := Recency(uses[..n]), uses[n];
    RecencyNoDup(uses[..n]);
    if i > 0 {
      var a, b := DropPair(r, k, i - 1, j - 1);
      RecencyOrder(uses[..n], a, b);
    } else {
      var x := Recency(uses)[j];
      RecencyNoDup(uses);
      DropNoDup(r, k);
      assert x == Drop(r, k)[j - 1];
      LastUsed(uses, x);
      LastUsed(uses[..n], x);
    }
  }

  lemma {:induction false} LastUsed(uses: seq<string>, k: string)
    ensures LastUse(uses, k) < |uses| && (k in uses <==> LastUse(uses, k) >= 0)
  {
    if uses != [] {
      LastUsed(uses[..|uses| - 1], k);
    }
  }

  function KeysOf(links: seq<Link>): (ks: seq<string>)
    ensures |ks| == |links|
  {
    seq(|links|, i requires 0 <= i < |links| => links[i].key)
  }

  /** Hash table and list hold the same items. */
  ghost predicate Agree(m: imap<string, Link>, ls: seq<Link>) {
    && (forall i | 0 <= i < |ls| :: ls[i].key in m && m[ls[i].key] == ls[i])
    && (forall k | k in m :: m[k] in ls && m[k].key == k)
  }

  lemma ForgetAgree(m: imap<string, Link>, ls: seq<Link>, i: nat)
    requires Agree(m, ls) && i < |ls| && forall j | 0 <= j < |ls| && j != i :: ls[j] != ls[i]
    ensures Agree(Cut(m, ls[i].key), Without(ls, i))
  {
    var r, n := Without(ls, i), Cut(m, ls[i].key);
    forall j | 0 <= j < |r|
      ensures r[j].key in n && n[r[j].key] == r[j]
    {
      assert r[j] == ls[if j < i then j else j + 1];
    }
    forall k | k in n
      ensures n[k] in r && n[k].key == k
    {
      var p :| 0 <= p < |ls| && ls[p] == m[k];
      assert r[if p < i then p else p - 1] == n[k];
    }
  }

  lemma AddAgree(m: imap<string, Link>, ls: seq<Link>, x: Link)
    requires Agree(m, ls) && x.key !in m
    ensures Agree(m[x.key := x], [x] + ls)
  {
    var r := [x] + ls;
    assert forall j | 0 <= j < |ls| :: r[j + 1] == ls[j];
  }

  class Index {
    const hash: Table<Link>
    const head: Link
    const maxKeys: nat
    var nkeys: nat
    /** The list behind the head. */
    ghost var links: seq<Link>
    ghost var uses: seq<string>

    ghost function Ring(): seq<Link>
      reads this
    {
      [head] + links
    }

    ghost function Repr(): set<object>
      reads this
    {
      {this, hash, hash.buckets, head} + set l | l in links
    }

    ghost predicate Valid()
      reads Repr()
    {
      && maxKeys > 0 && Linked(Ring()) && hash.Valid() && Agree(hash.Map(), links) && nkeys == |links|
      && KeysOf(links) == Take(Recency(uses), maxKeys)
    }

    constructor (hash: string -> nat, size: nat, maxKeys: nat)
      requires size > 0 && maxKeys > 0
      ensures Valid() && fresh(Repr()) && this.maxKeys == maxKeys && uses == []
    {
      this.hash := new Table<Link>(hash, size);
      head := new Link("");
      this.maxKeys := maxKeys;
      nkeys, links, uses := 0, [], [];
    }

    /** What holds between the steps of topkeys_item_get_or_create. */
    ghost predicate Core()
      reads Repr()
    {
      Linked(Ring()) && hash.Valid() && Agree(hash.Map(), links)
    }

    /** topkeys_item_delete of topkeys_tail: the least recently used item. */
    method DeleteTail()
      requires Core() && links != [] && nkeys > 0
      modifies Repr()
      ensures Core() && links == old(links)[..|old(links)| - 1]
      ensures nkeys == old(nkeys) - 1 && uses == old(uses) && hash.Map() == Cut(old(hash.Map()), old(links)[|old(links)| - 1].key)
    {
      hide Linked, Agree, Cut, Without, Table.Valid, Table.Map;
      ghost var n := |links|;
      var item := head.prev;
      RingEnds(Ring());
      assert item == links[n - 1];
      LinksDistinct(head, links, n - 1);
      ForgetAgree(hash.Map(), links, n - 1);
      WithoutLast(head, links);
      var deleted := hash.Delete(item.key);
      Remove(item, Ring(), n);
      links := links[..n - 1];
      nkeys := nkeys - 1;
    }

    /** dlist_insert_after at the head; `rest` is the list that the item goes before. */
    method LinkFirst(item: Link, ghost rest: seq<Link>)
      requires Linked([head] + rest) && item !in [head] + rest && hash.Valid() && Agree(hash.Map(), [item] + rest)
      modifies this`links, head, rest, item
      ensures Core() && links == [item] + rest
    {
      hide Linked, Agree, Table.Valid, Table.Map;
      InsertFirst(head, item, [head] + rest);
      assert [head, item] + ([head] + rest)[1..] == [head] + ([item] + rest);
      links := [item] + rest;
    }

    /** A key that is known: its item moves to the front. */
    method MoveToFront(item: Link, ghost i: nat)
      requires Core() && i < |links| && links[i] == item
      modifies Repr()
      ensures Core() && links == [item] + Without(old(links), i)
      ensures nkeys == old(nkeys) && uses == old(uses)
    {
      hide Linked, Agree, Table.Valid, Table.Map, Without;
      ghost var rest := Without(links, i);
      WithoutRing(head, links, i);
      MoveAgree(hash.Map(), links, i);
      Remove(item, Ring(), i + 1);
      LinkFirst(item, rest);
    }

    /** A new key: the oldest item makes room if the list is full. */
    method Create(key: string) returns (item: Link)
      requires Core() && key !in hash.Map() && maxKeys > 0 && nkeys == |links| <= maxKeys
      modifies Repr()
      ensures Core() && item.key == key && fresh(item) && uses == old(uses) && nkeys == |links|
      ensures links == [item] + if |old(links)| < maxKeys then old(links) else old(links)[..maxKeys - 1]
    {
      hide Linked, Agree, Table.Valid, Table.Map;
      item := new Link(key);
      nkeys := nkeys + 1;
      if nkeys > maxKeys {
        DeleteTail();
      }
      AddAgree(hash.Map(), links, item);
      hash.Update(key, item);
      LinkFirst(item, links);
    }

    /** topkeys_item_get_or_create. */
    method Use(key: string) returns (item: Link)
      requires Valid()
      modifies Repr()
      ensures Valid() && uses == old(uses) + [key] && links != [] && links[0] == item && item.key == key
      ensures fresh(Repr() - old(Repr()))
    {
      hide Linked, Agree, Table.Valid, Table.Map, Recency, Touch, Drop, NoDup, KeysOf;
      ghost var ls := links;
      var found := hash.Find(key);
      UsedAgree(hash.Map(), links, key);
      UseRecency(uses, key, maxKeys);
      if found.None? {
        item := Create(key);
        TouchNew(ls, item, maxKeys);
      } else {
        item := found.value;
        ghost var i :| 0 <= i < |links| && links[i] == item;
        TouchOld(ls, i, maxKeys);
        MoveToFront(item, i);
      }
      uses := uses + [key];
    }
  }

  lemma WithoutRing(head: Link, links: seq<Link>, i: nat)
    requires Linked([head] + links) && i < |links|
    ensures Without([head] + links, i + 1) == [head] + Without(links, i)
    ensures links[i] !in [head] + Without(links, i)
    ensures forall l | l in Without(links, i) :: l in links
  {
    var ring, rest := [head] + links, [head] + Without(links, i);
    forall j | 0 <= j < |rest|
      ensures rest[j] != links[i] && rest[j] in ring
    {
      assert rest[j] == ring[if j <= i then j else j + 1] && ring[i + 1] == links[i];
    }
  }

  /** What the hash table says about a key. */
  lemma UsedAgree(m: imap<string, Link>, ls: seq<Link>, k: string)
    requires Agree(m, ls)
    ensures k in m ==> m[k] in ls && m[k].key == k
    ensures k !in m ==> k !in KeysOf(ls)
  {
    if k in KeysOf(ls) {
      var i :| 0 <= i < |ls| && KeysOf(ls)[i] == k;
      assert ls[i].key in m;
    }
  }

  /** The head's `prev` is the last link, and no link occurs twice. */
  lemma RingEnds(ring: seq<Link>)
    requires Linked(ring) && |ring| > 0
    ensures ring[0].prev == ring[|ring| - 1]
    ensures forall i, j | 0 <= i < j < |ring| :: ring[i] != ring[j]
  {
    assert After(|ring| - 1, |ring|) == 0;
  }

  lemma LinksDistinct(head: Link, links: seq<Link>, i: nat)
    requires i < |links| && forall a, b | 0 <= a < b < |[head] + links| :: ([head] + links)[a] != ([head] + links)[b]
    ensures forall j | 0 <= j < |links| && j != i :: links[j] != links[i]
  {
    forall j | 0 <= j < |links| && j != i
      ensures links[j] != links[i]
    {
      assert ([head] + links)[j + 1] == links[j] && ([head] + links)[i + 1] == links[i];
    }
  }

  lemma WithoutLast(head: Link, links: seq<Link>)
    requires links != []
    ensures Without([head] + links, |links|) == [head] + links[..|links| - 1] && Without(links, |links| - 1) == links[..|links| - 1]
  {}

  lemma TouchNew(ls: seq<Link>, item: Link, n: nat)
    requires item.key !in KeysOf(ls) && |ls| <= n && n > 0
    ensures KeysOf([item] + if |ls| < n then ls else ls[..n - 1]) == Touch(KeysOf(ls), item.key, n)
  {
    DropAbsent(KeysOf(ls), item.key);
  }

  lemma TouchOld(ls: seq<Link>, i: nat, n: nat)
    requires NoDup(KeysOf(ls)) && i < |ls| <= n
    ensures KeysOf([ls[i]] + Without(ls, i)) == Touch(KeysOf(ls), ls[i].key, n)
  {
    DropAt(KeysOf(ls), i);
    assert KeysOf(Without(ls, i)) == Without(KeysOf(ls), i);
  }

  lemma MoveAgree(m: imap<string, Link>, ls: seq<Link>, i: nat)
    requires Agree(m, ls) && i < |ls|
    ensures Agree(m, [ls[i]] + Without(ls, i))
  {
    var r := [ls[i]] + Without(ls, i);
    forall k | k in m
      ensures m[k] in r
    {
      var p :| 0 <= p < |ls| && ls[p] == m[k];
      assert r[if p == i then 0 else if p < i then p + 1 else p] == m[k];
    }
    forall j | 0 <= j < |r|
      ensures r[j] in ls
    {
      assert r[j] == ls[if j == 0 then i else if j - 1 < i then j - 1 else j];
    }
  }

  /** One more use, as the bounded list sees it. */
  lemma UseRecency(uses: seq<string>, k: string, n: nat)
    requires n > 0
    ensures NoDup(Take(Recency(uses), n)) && Touch(Take(Recency(uses), n), k, n) == Take(Recency(uses + [k]), n)
  {
    hide Touch, Drop;
    RecencyNoDup(uses);
    TouchTake(Recency(uses), k, n);
    assert (uses + [k])[..|uses|] == uses;
  }
}
