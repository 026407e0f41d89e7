/** The cluster configuration of one server (cluster_config.c). */
module Cluster {
  import opened Sorting
  import opened Ketama

  /** do_nodearray_find: binary search by name. */
  method FindNode(names: seq<string>, name: string) returns (id: int)
    requires Increasing(names)
    ensures if name in names then 0 <= id < |names| && names[id] == name else id == -1
  {
    var left, right := 0, |names| - 1;
    while left <= right
      invariant 0 <= left <= right + 1 <= |names|
      invariant forall i | 0 <= i < |names| && names[i] == name :: left <= i <= right
    {
      var mid := (left + right) / 2;
      if name == names[mid] { return mid; }
      LessTotal(name, names[mid]);
      if Less(name, names[mid]) {
        forall i | mid <= i < |names| ensures names[i] != name {
          if i > mid { LessTotal(names[mid], names[i]); }
        }
        right := mid - 1;
      } else {
        forall i | 0 <= i <= mid ensures names[i] != name {
          if i < mid { LessTotal(names[i], names[mid]); }
        }
        left := mid + 1;
      }
    }
    id := -1;
  }

  /** do_continuum_find: binary search by point, back over equal points, around the end. */
  method FindCont(conts: seq<Cont>, h: Point) returns (found: nat)
    requires conts != [] && Sorted(conts, ContLe)
    ensures Successor(conts, h, found)
  {
    var left, right := 0, |conts| - 1;
    while left <= right
      invariant 0 <= left <= right + 1 <= |conts|
      invariant forall i | 0 <= i < left :: conts[i].hpoint < h
      invariant forall i | right < i < |conts| :: conts[i].hpoint > h
    {
      var mid := (left + right) / 2;
      if h == conts[mid].hpoint {
        while mid > 0 && conts[mid - 1].hpoint == h
          invariant 0 <= mid < |conts| && conts[mid].hpoint == h
        {
          mid := mid - 1;
        }
        assert forall i | 0 <= i < mid :: ContLe(conts[i], conts[mid - 1]) || i == mid - 1;
        return mid;
      }
      if h < conts[mid].hpoint {
        right := mid - 1;
      } else {
        left := mid + 1;
      }
    }
    found := if left < |conts| then left else 0;
  }

  predicate Distinct(s: seq<string>) { forall i, j | 0 <= i < j < |s| :: s[i] != s[j] }

  /** How many of the names need a new node item: neither in use nor the server itself. */
  function Fresh(strs: seq<string>, names: seq<string>, self: string): nat {
    if strs == [] then 0
    else
      var n := strs[|strs| - 1];
      Fresh(strs[..|strs| - 1], names, self) + if n in names || n == self then 0 else 1
  }

  /** How many of the names are in use. */
  function Found(strs: seq<string>, names: seq<string>): nat {
    if strs == [] then 0
    else Found(strs[..|strs| - 1], names) + if strs[|strs| - 1] in names then 1 else 0
  }

  function One(b: bool): nat { if b then 1 else 0 }

  /** Reference counts: one for each array that holds the node, and one that keeps the server's own node. */
  predicate Refs(refs: map<string, nat>, names: seq<string>, more: seq<string>, self: string) {
    && refs.Keys == Members(names) + Members(more) + {self}
    && forall n | n in refs :: refs[n] == One(n in names) + One(n in more) + One(n == self)
  }

  datatype Result = Emptied | Unchanged | Replaced | Aborted

  class Config {
    const points: string -> Slices
    const self: string
    var names: seq<string>
    var conts: seq<Cont>
    var selfId: int
    var isValid: bool
    var freeSize: nat
    var refs: map<string, nat>

    ghost predicate Valid()
      reads this
    {
      && Increasing(names) && RingOf(points, names, conts)
      && (if self in names then 0 <= selfId < |names| && names[selfId] == self else selfId == -1)
      && Refs(refs, names, [], self)
    }

    /** All node items but the server's own, free or in use. */
    ghost function Items(): int
      reads this
    {
      freeSize + |refs| - 1
    }

    constructor (points: string -> Slices, self: string)
      ensures Valid() && this.points == points && this.self == self && names == [] && !isValid && freeSize == 10
    {
      this.points, this.self := points, self;
      names, conts, selfId, isValid := [], [], -1, false;
      freeSize, refs := 10, map[self := 1];
    }

    /** do_node_free_list_prepare. */
    method PrepareFree(count: nat)
      modifies this`freeSize
      ensures freeSize == if old(freeSize) + |names| < count then count - |names| else old(freeSize)
    {
      if freeSize + |names| < count {
        var addition := count - (freeSize + |names|);
        for i := 0 to addition
          modifies this`freeSize
          invariant freeSize == old(freeSize) + i
        {
          freeSize := freeSize + 1;
        }
      }
    }

    /** The loop of do_nodearray_build_for_replace: take a node item for every name. */
    method Acquire(strs: seq<string>) returns (ok: bool, nfound: nat)
      requires Valid() && Distinct(strs)
      modifies this`freeSize, this`refs
      ensures ok <==> Fresh(strs, names, self) <= old(freeSize)
      ensures ok ==> nfound == Found(strs, names) && Refs(refs, names, strs, self)
      ensures ok ==> freeSize == old(freeSize) - Fresh(strs, names, self) && Items() == old(Items())
    {
      hide Refs, RingOf, Increasing, Fresh, Found;
      ok, nfound := true, 0;
      assert strs[..0] == [];
      CountNone(names, self);
      for i := 0 to |strs|
        modifies this`freeSize, this`refs
        invariant ok && nfound == Found(strs[..i], names) && Refs(refs, names, strs[..i], self)
        invariant Fresh(strs[..i], names, self) <= old(freeSize)
        invariant freeSize == old(freeSize) - Fresh(strs[..i], names, self) && Items() == old(Items())
      {
        var name := strs[i];
        assert strs[..i + 1] == strs[..i] + [name];
        CountMore(strs[..i], name, names, self);
        FreshMore(strs, names, self, i + 1);
        RefsTake(refs, names, strs[..i], self, name);
        var id := if |names| > 0 then 0 else -1;
        if |names| > 0 { id := FindNode(names, name); }
        if id >= 0 {
          nfound := nfound + 1;
          refs := refs[name := refs[name] + 1];
        } else if name == self {
          refs := refs[name := refs[name] + 1];
        } else {
          if freeSize == 0 {
            ok := false;
            return;
          }
          freeSize := freeSize - 1;
          refs := refs[name := 1];
        }
      }
      assert strs[..|strs|] == strs;
    }

    /** do_nodearray_release: items that nobody holds any more go back to the free list. */
    method Release(nodes: seq<string>, ghost kept: seq<string>)
      requires Distinct(nodes) && Refs(refs, nodes, kept, self)
      modifies this`freeSize, this`refs
      ensures Refs(refs, kept, [], self) && Items() == old(Items())
    {
      hide Refs;
      assert nodes[0..] == nodes;
      for i := 0 to |nodes|
        modifies this`freeSize, this`refs
        invariant Refs(refs, nodes[i..], kept, self) && Items() == old(Items())
      {
        var n := nodes[i];
        assert nodes[i..] == [n] + nodes[i + 1..];
        RefsDrop(refs, nodes[i + 1..], kept, self, n);
        refs := refs[n := refs[n] - 1];
        if refs[n] == 0 {
          refs := map m | m in refs && m != n :: refs[m];
          freeSize := freeSize + 1;
        }
      }
      assert nodes[|nodes|..] == [];
      RefsSwap(refs, kept, self);
    }

    /** do_continuum_build: all slices of all nodes, with their node's index, sorted. */
    method BuildContinuum(nodes: seq<string>) returns (continuum: seq<Cont>)
      requires Increasing(nodes)
      ensures RingOf(points, nodes, continuum)
    {
      hide RingOf, ContOf;
      continuum := [];
      for i := 0 to |nodes|
        invariant Slicing(points, nodes, continuum, i, 0)
      {
        for j := 0 to SLICES
          invariant Slicing(points, nodes, continuum, i, j)
        {
          SlicingMore(points, nodes, continuum, i, j);
          continuum := continuum + [Cont(points(nodes[i])[j], i)];
        }
        SlicingRow(points, nodes, continuum, i);
      }
      SlicingAll(points, nodes, continuum);
      continuum := Sort(continuum, ContLe);
    }

    /** do_hashring_replace. */
    method ReplaceRing(nodes: seq<string>, continuum: seq<Cont>, id: int)
      requires Increasing(nodes) && RingOf(points, nodes, continuum) && Increasing(names) && Refs(refs, names, nodes, self)
      requires if self in nodes then 0 <= id < |nodes| && nodes[id] == self else id == -1
      modifies this
      ensures Valid() && names == nodes && isValid && Items() == old(Items())
    {
      hide Refs, RingOf;
      var oldNodes := names;
      names, conts, selfId, isValid := nodes, continuum, id, true;
      IncreasingDistinct(oldNodes);
      Release(oldNodes, nodes);
    }

    /**
     * cluster_config_reconfigure. A node item is missing, and the server stops
     * on an assertion, exactly when more new names come than items are free
     * once the free list was prepared.
     */
    method Reconfigure(strs: seq<string>) returns (r: Result)
      requires Valid() && Distinct(strs)
      modifies this
      ensures r == Aborted <==> strs != [] && Fresh(strs, old(names), self) > Prepared(old(freeSize), |old(names)|, |strs|)
      ensures r != Aborted ==> Valid() && Members(names) == Members(strs)
      ensures (r == Emptied <==> strs == []) && (r == Unchanged ==> names == old(names))
      ensures r != Aborted && strs != [] ==> (r == Unchanged <==> Members(strs) == Members(old(names)))
      ensures isValid == (old(isValid) || r == Emptied || r == Replaced)
      ensures r != Aborted ==> Items() == old(Items()) + Prepared(old(freeSize), |old(names)|, |strs|) - old(freeSize)
    {
      hide Refs, RingOf, Fresh, Found, Increasing;
      if strs == [] {
        EmptyRing(points);
        ReplaceRing([], [], -1);
        return Emptied;
      }
      PrepareFree(|strs|);
      var ok, nfound := Acquire(strs);
      if !ok { return Aborted; }
      SameFound(strs, names);
      if |strs| == |names| && |strs| == nfound {
        RefsSym(refs, names, strs, self);
        Release(strs, names);
        SameMembers(strs, names);
        return Unchanged;
      }
      var nodes := Sort(strs, Leq);
      SortNames(strs);
      RefsSorted(refs, names, strs, nodes, self);
      var id := FindNode(nodes, self);
      var continuum := BuildContinuum(nodes);
      ReplaceRing(nodes, continuum, id);
      r := Replaced;
    }

    /**
     * cluster_config_key_is_mine, for a key with hash value `h`. Before the
     * first configuration there is no ring, which an assertion refuses; after a
     * configuration without nodes there is no item for the search to return.
     */
    method KeyIsMine(h: Point) returns (r: Answer)
      requires Valid()
      ensures r.Stopped? <==> !isValid
      ensures r.NoItem? <==> isValid && names == []
      ensures r.Answer? ==> r.keyId < |names| && Owns(points, Members(names), h, names[r.keyId])
      ensures r.Answer? ==> (r.mine <==> Owns(points, Members(names), h, self))
    {
      hide Refs, Owns, Less;
      if !isValid { return Stopped; }
      if |conts| == 0 { return NoItem; }
      var found := FindCont(conts, h);
      SuccessorOwns(points, names, conts, h, found);
      var keyId := conts[found].nindex;
      IncreasingDistinct(names);
      if Owns(points, Members(names), h, self) {
        OwnerUnique(points, Members(names), h, self, names[keyId]);
        OwnerMember(points, Members(names), h, self);
      }
      r := Answer(keyId == selfId, keyId);
    }
  }

  /** What comes of asking a server for a key: it has no ring and an assertion stops it, its ring is empty, or whose the key is. */
  datatype Answer = Stopped | NoItem | Answer(mine: bool, keyId: nat)

  /** How many items are free once the list was prepared for `count` nodes. */
  function Prepared(free: int, used: nat, count: nat): int {
    if free + used < count then count - used else free
  }

  lemma OwnerMember(points: string -> Slices, members: set<string>, h: Point, n: string)
    requires Owns(points, members, h, n)
    ensures n in members
  {}

  lemma EmptyRing(points: string -> Slices)
    ensures Increasing([]) && RingOf(points, [], [])
  {}

  lemma IncreasingDistinct(names: seq<string>)
    requires Increasing(names)
    ensures Distinct(names)
  {
    forall i, j | 0 <= i < j < |names|
      ensures names[i] != names[j]
    {
      LessTotal(names[i], names[j]);
    }
  }

  lemma RefsSym(refs: map<string, nat>, a: seq<string>, b: seq<string>, self: string)
    requires Refs(refs, a, b, self)
    ensures Refs(refs, b, a, self)
  {}

  lemma RefsSorted(refs: map<string, nat>, a: seq<string>, b: seq<string>, c: seq<string>, self: string)
    requires Refs(refs, a, b, self) && forall x :: x in b <==> x in c
    ensures Refs(refs, a, c, self)
  {
    assert Members(b) == Members(c);
  }

  /** Sorting distinct names makes a node array. */
  lemma SortNames(strs: seq<string>)
    requires Distinct(strs)
    ensures var r := Sort(strs, Leq); Increasing(r) && Members(r) == Members(strs) && forall x :: x in strs <==> x in r
  {
    hide Sort, Less;
    LeqOrder();
    SortSorted(strs, Leq);
    SortSame(strs, Leq);
    var r := Sort(strs, Leq);
    assert multiset(r) == multiset(strs);
    DistinctCount(strs);
    CountDistinct(r);
  }

  lemma LeqOrder()
    ensures Order(Leq)
  {
    forall a, b
      ensures Leq(a, b) || Leq(b, a)
    {
      LessTotal(a, b);
    }
    forall a, b, c | Leq(a, b) && Leq(b, c)
      ensures Leq(a, c)
    {
      if Less(a, b) && Less(b, c) { LessTrans(a, b, c); }
    }
  }

  lemma {:induction false} DistinctCount(s: seq<string>)
    requires Distinct(s)
    ensures forall x :: multiset(s)[x] <= 1
  {
    if s != [] {
      DistinctCount(s[1..]);
      assert s == [s[0]] + s[1..];
      assert s[0] !in s[1..];
    }
  }

  lemma CountDistinct(s: seq<string>)
    requires forall x :: multiset(s)[x] <= 1
    ensures Distinct(s)
  {
    forall i, j | 0 <= i < j < |s|
      ensures s[i] != s[j]
    {
      assert s == s[..j] + [s[j]] + s[j + 1..];
      assert multiset(s) == multiset(s[..j]) + multiset{s[j]} + multiset(s[j + 1..]);
      var x := s[i];
      assert x in s[..j] && multiset(s[..j])[x] >= 1;
      assert multiset(s)[x] == multiset(s[..j])[x] + multiset{s[j]}[x] + multiset(s[j + 1..])[x];
    }
  }

  /** As many names as there are nodes, all of them found: the same names. */
  lemma SameMembers(strs: seq<string>, names: seq<string>)
    requires Distinct(strs) && Increasing(names) && |strs| == |names| == Found(strs, names)
    ensures Members(strs) == Members(names)
  {
    IncreasingDistinct(names);
    FoundAll(strs, names);
    MembersSize(strs);
    MembersSize(names);
    SubsetSize(Members(strs), Members(names));
  }

  lemma {:induction false} FoundAll(strs: seq<string>, names: seq<string>)
    ensures Found(strs, names) <= |strs| && (Found(strs, names) == |strs| ==> Members(strs) <= Members(names))
  {
    if strs != [] {
      var n := |strs| - 1;
      FoundAll(strs[..n], names);
      assert strs == strs[..n] + [strs[n]];
    }
  }

  lemma {:induction false} MembersSize(s: seq<string>)
    requires Distinct(s)
    ensures |Members(s)| == |s|
  {
    if s != [] {
      MembersSize(s[1..]);
      assert Members(s) == {s[0]} + Members(s[1..]);
      assert s[0] !in s[1..];
    }
  }

  lemma {:induction false} SubsetSize(a: set<string>, b: set<string>)
    requires a <= b && |a| == |b|
    ensures a == b
  {
    assert |b - a| == |b| - |a|;
    assert b == a + (b - a);
  }

  lemma InCons(n: string, nodes: seq<string>)
    ensures forall m :: m in [n] + nodes <==> m == n || m in nodes
    ensures Members([n] + nodes) == {n} + Members(nodes)
  {}

  lemma RefsDrop(refs: map<string, nat>, nodes: seq<string>, kept: seq<string>, self: string, n: string)
    requires Refs(refs, [n] + nodes, kept, self) && n !in nodes
    ensures n in refs && refs[n] > 0 && (refs[n] == 1 <==> n !in kept && n != self)
    ensures refs[n] > 1 ==> var r := refs[n := refs[n] - 1]; Refs(r, nodes, kept, self) && |r| == |refs|
    ensures refs[n] == 1 ==>
              var r := refs[n := refs[n] - 1]; var s := map m | m in r && m != n :: r[m];
              Refs(s, nodes, kept, self) && |s| == |refs| - 1
  {
    InCons(n, nodes);
    assert n in refs;
    if refs[n] > 1 { RefsLess(refs, nodes, kept, self, n); } else { RefsGone(refs, nodes, kept, self, n); }
  }

  lemma RefsLess(refs: map<string, nat>, nodes: seq<string>, kept: seq<string>, self: string, n: string)
    requires Refs(refs, [n] + nodes, kept, self) && n !in nodes && (n in kept || n == self)
    ensures n in refs && refs[n] > 0
    ensures var r := refs[n := refs[n] - 1]; Refs(r, nodes, kept, self) && |r| == |refs|
  {
    InCons(n, nodes);
    var r := refs[n := refs[n] - 1];
    assert r.Keys == refs.Keys;
    assert |r| == |r.Keys| && |refs| == |refs.Keys|;
  }

  lemma RefsGone(refs: map<string, nat>, nodes: seq<string>, kept: seq<string>, self: string, n: string)
    requires Refs(refs, [n] + nodes, kept, self) && n !in nodes && n !in kept && n != self
    ensures n in refs && refs[n] > 0
    ensures var r := refs[n := refs[n] - 1]; var s := map m | m in r && m != n :: r[m];
            Refs(s, nodes, kept, self) && |s| == |refs| - 1
  {
    InCons(n, nodes);
    var r := refs[n := refs[n] - 1];
    var s := map m | m in r && m != n :: r[m];
    assert s.Keys == refs.Keys - {n};
    assert |s| == |s.Keys| && |refs| == |refs.Keys|;
  }

  lemma RefsSwap(refs: map<string, nat>, kept: seq<string>, self: string)
    requires Refs(refs, [], kept, self)
    ensures Refs(refs, kept, [], self)
  {}

  /** The first `i` nodes, and the first `j` slices of node `i`, are in the continuum. */
  predicate Slicing(points: string -> Slices, names: seq<string>, conts: seq<Cont>, i: nat, j: nat) {
    && i <= |names| && |conts| == SLICES * i + j && (forall k | 0 <= k < |conts| :: ContOf(points, names, conts[k]))
    && (forall a, b | 0 <= a < i && 0 <= b < SLICES :: Cont(points(names[a])[b], a) in conts)
    && (i < |names| ==> forall b | 0 <= b < j <= SLICES :: Cont(points(names[i])[b], i) in conts)
  }

  lemma SlicingMore(points: string -> Slices, names: seq<string>, conts: seq<Cont>, i: nat, j: nat)
    requires Slicing(points, names, conts, i, j) && i < |names| && j < SLICES
    ensures Slicing(points, names, conts + [Cont(points(names[i])[j], i)], i, j + 1)
  {
    hide ContOf;
    var c := Cont(points(names[i])[j], i);
    assert ContOf(points, names, c) by { SliceOf(points, names, i, j); }
  }

  lemma SliceOf(points: string -> Slices, names: seq<string>, i: nat, j: nat)
    requires i < |names| && j < SLICES
    ensures ContOf(points, names, Cont(points(names[i])[j], i))
  {}

  lemma SlicingRow(points: string -> Slices, names: seq<string>, conts: seq<Cont>, i: nat)
    requires Slicing(points, names, conts, i, SLICES) && i < |names|
    ensures Slicing(points, names, conts, i + 1, 0)
  {
    hide ContOf;
  }

  lemma SlicingAll(points: string -> Slices, names: seq<string>, conts: seq<Cont>)
    requires Slicing(points, names, conts, |names|, 0)
    ensures RingOf(points, names, Sort(conts, ContLe))
  {
    hide Sort, ContOf;
    assert Order(ContLe);
    SortSorted(conts, ContLe);
    SortSame(conts, ContLe);
    forall i, p: Point | 0 <= i < |names| && p in points(names[i])
      ensures Cont(p, i) in conts
    {
      var b :| 0 <= b < SLICES && points(names[i])[b] == p;
    }
    var r := Sort(conts, ContLe);
    forall k | 0 <= k < |r|
      ensures ContOf(points, names, r[k])
    {
      assert r[k] in conts;
    }
  }

  lemma CountNone(names: seq<string>, self: string)
    ensures Fresh([], names, self) == 0 && Found([], names) == 0
  {}

  lemma CountMore(strs: seq<string>, n: string, names: seq<string>, self: string)
    ensures Fresh(strs + [n], names, self) == Fresh(strs, names, self) + One(n !in names && n != self)
    ensures Found(strs + [n], names) == Found(strs, names) + One(n in names)
  {
    assert (strs + [n])[..|strs|] == strs;
  }

  /** Taking a reference, on a node in use or on a new one. */
  lemma RefsTake(refs: map<string, nat>, names: seq<string>, more: seq<string>, self: string, n: string)
    requires Refs(refs, names, more, self) && n !in more
    ensures n in refs <==> n in names || n == self
    ensures var r := refs[n := if n in refs then refs[n] + 1 else 1];
            Refs(r, names, more + [n], self) && |r| == |refs| + One(n !in refs)
  {
    var r := refs[n := if n in refs then refs[n] + 1 else 1];
    assert r.Keys == refs.Keys + {n};
    assert |r| == |r.Keys| && |refs| == |refs.Keys|;
  }

  lemma {:induction false} FreshMore(strs: seq<string>, names: seq<string>, self: string, k: nat)
    requires k <= |strs|
    ensures Fresh(strs[..k], names, self) <= Fresh(strs, names, self)
    decreases |strs| - k
  {
    if k < |strs| {
      FreshMore(strs, names, self, k + 1);
      assert strs[..k + 1][..k] == strs[..k];
    } else {
      assert strs[..k] == strs;
    }
  }

  lemma {:induction false} AllFresh(strs: seq<string>, names: seq<string>, self: string)
    requires forall i | 0 <= i < |strs| :: strs[i] !in names && strs[i] != self
    ensures Fresh(strs, names, self) == |strs|
  {
    if strs != [] {
      AllFresh(strs[..|strs| - 1], names, self);
    }
  }

  /**
   * The free list is prepared as if the nodes that leave were free already:
   * ten nodes cannot be replaced by ten others at once.
   */
  method ReplaceAll(points: string -> Slices, self: string, a: seq<string>, b: seq<string>) returns (r: Result)
    requires |a| == |b| == 10 && Distinct(a) && Distinct(b) && Members(a) !! Members(b)
    requires self !in a && self !in b
    ensures r == Aborted
  {
    hide Config.Valid, Fresh;
    var c := new Config(points, self);
    ItemsInUse(c);
    AllFresh(a, [], self);
    var first := c.Reconfigure(a);
    ItemsInUse(c);
    MembersSize(a);
    assert forall i | 0 <= i < |b| :: b[i] in Members(b) && b[i] !in Members(c.names);
    AllFresh(b, c.names, self);
    r := c.Reconfigure(b);
  }

  /** The items in use are those of the other members. */
  lemma ItemsInUse(c: Config)
    requires c.Valid()
    ensures |c.names| == |Members(c.names)| && c.Items() == c.freeSize + |Members(c.names) - {c.self}|
  {
    IncreasingDistinct(c.names);
    MembersSize(c.names);
    assert c.refs.Keys - {c.self} == Members(c.names) - {c.self};
    assert |c.refs| == |c.refs.Keys| && |c.refs.Keys - {c.self}| == |c.refs.Keys| - 1;
  }

  /** However its members were configured, exactly one node of a cluster takes a key for its own. */
  lemma ExactlyOneOwner(points: string -> Slices, members: set<string>, h: Point) returns (n: string)
    requires members != {}
    ensures n in members && forall m :: Owns(points, members, h, m) <==> m == n
  {
    hide Owns;
    n := OwnerExists(points, members, h);
    forall m | Owns(points, members, h, m)
      ensures m == n
    {
      OwnerUnique(points, members, h, m, n);
    }
  }

  lemma MembersSnoc(strs: seq<string>)
    requires Distinct(strs) && strs != []
    ensures var n, front := strs[|strs| - 1], strs[..|strs| - 1]; Distinct(front) && n !in Members(front) && Members(strs) == Members(front) + {n}
  {
    var n, front := strs[|strs| - 1], strs[..|strs| - 1];
    assert strs == front + [n];
  }

  /** As many names, all of them found, are the same names. */
  lemma SameFound(strs: seq<string>, names: seq<string>)
    requires Distinct(strs) && Increasing(names)
    ensures |strs| == |names| && Found(strs, names) == |strs| <==> Members(strs) == Members(names)
  {
    hide Members, Found, Distinct;
    IncreasingDistinct(names);
    MembersSize(strs);
    MembersSize(names);
    if Members(strs) == Members(names) { AllFound(strs, names); }
    if |strs| == |names| && Found(strs, names) == |strs| { SameMembers(strs, names); }
  }

  lemma {:induction false} AllFound(strs: seq<string>, names: seq<string>)
    requires Members(strs) <= Members(names)
    ensures Found(strs, names) == |strs|
    decreases |strs|
  {
    if strs != [] {
      var n, front := strs[|strs| - 1], strs[..|strs| - 1];
      assert n in Members(strs);
      assert forall m | m in Members(front) :: m in Members(strs);
      AllFound(front, names);
    }
  }

  lemma MembersNone()
    ensures Members([]) == {}
  {}

  lemma {:induction false} FreshCounts(strs: seq<string>, names: seq<string>, self: string)
    requires Distinct(strs)
    ensures Fresh(strs, names, self) == |Members(strs) - Members(names) - {self}| && |Members(strs)| == |strs|
    decreases |strs|
  {
    hide Members, Distinct;
    if strs == [] {
      MembersNone();
    } else {
      var n, front := strs[|strs| - 1], strs[..|strs| - 1];
      MembersSnoc(strs);
      FreshCounts(front, names, self);
      IsMember(n, names);
      OneMore(Members(front), Members(names) + {self}, n);
      assert forall s: set<string> :: s - Members(names) - {self} == s - (Members(names) + {self});
    }
  }

  lemma IsMember(n: string, names: seq<string>)
    ensures n in Members(names) <==> n in names
  {}

  lemma OneMore(a: set<string>, b: set<string>, n: string)
    requires n !in a
    ensures |a + {n}| == |a| + 1 && |a + {n} - b| == |a - b| + if n in b then 0 else 1
  {
    assert a + {n} - b == if n in b then a - b else a - b + {n};
  }

  function Last(history: seq<seq<string>>): set<string> {
    if history == [] then {} else Members(history[|history| - 1])
  }

  /** The node items of a server that has `items` of them when the members change, or -1 if the change is too much. */
  function Restock(items: int, were: set<string>, are: set<string>, self: string): int {
    if are == {} then items
    else
      var free := items - |were - {self}|;
      var ready := Prepared(free, |were|, |are|);
      if |are - were - {self}| > ready then -1 else items + ready - free
  }

  /** The node items after a history of configurations, or -1 if one of them was too much. */
  function Stock(history: seq<seq<string>>, self: string): int {
    if history == [] then 10
    else
      var front := history[..|history| - 1];
      var items := Stock(front, self);
      if items < 0 then items else Restock(items, Last(front), Last(history), self)
  }

  lemma {:induction false} StaysStopped(history: seq<seq<string>>, self: string, n: nat)
    requires n <= |history| && Stock(history[..n], self) < 0
    ensures Stock(history, self) < 0
    decreases |history|
  {
    hide Last;
    if n == |history| {
      assert history[..n] == history;
    } else {
      assert history[..|history| - 1][..n] == history[..n];
      StaysStopped(history[..|history| - 1], self, n);
    }
  }

  /** Nodes only join, or only leave. */
  predicate OneWay(history: seq<seq<string>>, i: nat)
    requires i < |history|
  {
    Last(history[..i]) <= Last(history[..i + 1]) || Last(history[..i + 1]) <= Last(history[..i])
  }

  /** A history in which nodes join or leave, but not both in one step, is never too much. */
  lemma {:induction false} OneWayWorks(history: seq<seq<string>>, self: string)
    requires forall i | 0 <= i < |history| :: OneWay(history, i)
    ensures Stock(history, self) >= |Last(history) - {self}|
    decreases |history|
  {
    hide Last, Restock;
    if history == [] {
      NoneLast();
    } else {
      var n := |history| - 1;
      var front := history[..n];
      forall i | 0 <= i < n
        ensures OneWay(front, i)
      {
        assert OneWay(history, i) && front[..i] == history[..i] && front[..i + 1] == history[..i + 1];
      }
      OneWayWorks(front, self);
      assert OneWay(history, n) && history[..n + 1] == history;
      OneStepWorks(Last(front), Last(history), self, Stock(front, self));
    }
  }

  lemma LastIs(history: seq<seq<string>>)
    requires history != []
    ensures Last(history) == Members(history[|history| - 1])
  {}

  /** The change of one configuration, in the numbers of the free list. */
  lemma RestockIs(strs: seq<string>, names: seq<string>, self: string, free: nat, items: int)
    requires Distinct(strs) && |names| == |Members(names)| && items == free + |Members(names) - {self}|
    ensures var ready := Prepared(free, |names|, |strs|); var r := Restock(items, Members(names), Members(strs), self);
            if strs == [] then r == items && ready == free
            else if Fresh(strs, names, self) > ready then r == -1 else r == items + ready - free
  {
    hide Members, Fresh, Distinct;
    FreshCounts(strs, names, self);
    MembersNone();
    if strs != [] { IsMember(strs[0], strs); }
  }

  lemma NoneLast()
    ensures Last([]) == {}
  {}

  lemma OneStepWorks(were: set<string>, are: set<string>, self: string, items: int)
    requires (were <= are || are <= were) && items >= |were - {self}|
    ensures Restock(items, were, are, self) >= |are - {self}|
  {
    if were <= are {
      Larger(were, are);
      Larger(are - were - {self}, are - were);
      assert |are - were| == |are| - |were| by { assert were + (are - were) == are; }
      assert (are - {self}) == (were - {self}) + (are - were - {self});
    } else {
      assert are - were == {};
      Larger(are - {self}, were - {self});
    }
  }

  lemma Larger(a: set<string>, b: set<string>)
    requires a <= b
    ensures |a| <= |b|
  {
    assert a + (b - a) == b;
  }

  /** A server that goes through a history of configurations; one that is too much stops it. */
  method Follow(points: string -> Slices, self: string, history: seq<seq<string>>) returns (c: Config, ok: bool)
    requires forall i | 0 <= i < |history| :: Distinct(history[i])
    ensures fresh(c) && c.points == points && c.self == self
    ensures ok <==> Stock(history, self) >= 0
    ensures ok && history != [] ==> c.Valid() && Members(c.names) == Members(history[|history| - 1])
    ensures ok && history != [] && history[|history| - 1] != [] ==> c.isValid
  {
    hide Config.Valid, Fresh, Owns, Members, Config.Items, Prepared, Restock, Last;
    c := new Config(points, self);
    ok := true;
    NoneLast();
    MembersNone();
    ItemsInUse(c);
    assert history[..0] == [];
    for i := 0 to |history|
      invariant ok && fresh(c) && c.points == points && c.self == self && c.Valid()
      invariant Members(c.names) == Last(history[..i]) && Stock(history[..i], self) == c.Items() >= 0
      invariant !c.isValid ==> c.names == []
    {
      assert history[..i + 1][..i] == history[..i];
      LastIs(history[..i + 1]);
      ItemsInUse(c);
      RestockIs(history[i], c.names, self, c.freeSize, c.Items());
      var r := c.Reconfigure(history[i]);
      if r == Aborted {
        StaysStopped(history, self, i + 1);
        return c, false;
      }
      NoMembers(c.names, history[i]);
      ItemsInUse(c);
    }
    assert history[..|history|] == history;
    if history != [] { LastIs(history); }
    if history != [] && !c.isValid { NoMembers(c.names, history[|history| - 1]); }
  }

  lemma NoMembers(names: seq<string>, strs: seq<string>)
    requires Members(names) == Members(strs)
    ensures names == [] <==> strs == []
  {
    if names != [] { assert names[0] in Members(names); }
    if strs != [] { assert strs[0] in Members(strs); }
  }

  /**
   * Two servers with histories of their own, whose last configurations name the
   * same nodes in any order, give every key to the same node, and each takes it
   * for its own exactly if it is that node.
   */
  method Agreement(points: string -> Slices, h: Point,
                   selfA: string, historyA: seq<seq<string>>, selfB: string, historyB: seq<seq<string>>)
    returns (ok: bool, ownerA: string, mineA: bool, ownerB: string, mineB: bool)
    requires historyA != [] && forall i | 0 <= i < |historyA| :: Distinct(historyA[i])
    requires historyB != [] && forall i | 0 <= i < |historyB| :: Distinct(historyB[i])
    requires Members(historyA[|historyA| - 1]) == Members(historyB[|historyB| - 1]) != {}
    ensures ok <==> Stock(historyA, selfA) >= 0 && Stock(historyB, selfB) >= 0
    ensures ok ==> ownerA == ownerB && ownerA in Members(historyA[|historyA| - 1])
    ensures ok ==> (mineA <==> ownerA == selfA) && (mineB <==> ownerB == selfB)
  {
    hide Config.Valid, Owns;
    ok, ownerA, mineA, ownerB, mineB := false, "", false, "", false;
    var a, okA := Follow(points, selfA, historyA);
    var b, okB := Follow(points, selfB, historyB);
    if !okA || !okB { return; }
    ghost var members := Members(a.names);
    NoMembers(a.names, historyA[|historyA| - 1]);
    NoMembers(b.names, historyB[|historyB| - 1]);
    var ra := a.KeyIsMine(h);
    var rb := b.KeyIsMine(h);
    ok, ownerA, mineA, ownerB, mineB := true, a.names[ra.keyId], ra.mine, b.names[rb.keyId], rb.mine;
    OwnerUnique(points, members, h, ownerA, ownerB);
    if mineA { OwnerUnique(points, members, h, ownerA, selfA); }
    if mineB { OwnerUnique(points, members, h, ownerB, selfB); }
    OwnerMember(points, members, h, ownerA);
  }
}
