/** The generic hash table with chained buckets (genhash.c). */
module GenHash {
  import opened Options

  datatype Entry<V> = Entry(key: string, value: V)

  /** What a chain says about a key: its first entry counts. */
  function Lookup<V>(c: seq<Entry<V>>, k: string): Option<V> {
    if c == [] then None else if c[0].key == k then Some(c[0].value) else Lookup(c[1..], k)
  }

  predicate Distinct<V>(c: seq<Entry<V>>) {
    c == [] || (Lookup(c[1..], c[0].key).None? && Distinct(c[1..]))
  }

  /** The first `i` entries are for other keys. */
  predicate Past<V>(c: seq<Entry<V>>, k: string, i: nat)
    requires i <= |c|
  {
    forall j | 0 <= j < i :: c[j].key != k
  }

  lemma {:induction false} LookupPast<V>(c: seq<Entry<V>>, k: string, i: nat)
    requires i <= |c| && Past(c, k, i)
    ensures Lookup(c, k) == Lookup(c[i..], k)
  {
    if i > 0 {
      LookupPast(c[1..], k, i - 1);
      assert c[1..][i - 1..] == c[i..];
    } else {
      assert c[0..] == c;
    }
  }

  /** A new entry at the front of the chain. */
  lemma LookupPush<V>(c: seq<Entry<V>>, key: string, v: V, k: string)
    ensures var d := [Entry(key, v)] + c;
            && Lookup(d, k) == (if k == key then Some(v) else Lookup(c, k))
            && (Lookup(c, key).None? && Distinct(c) ==> Distinct(d))
  {
    assert ([Entry(key, v)] + c)[1..] == c;
  }

  /** Overwriting the value of entry `i`. */
  lemma {:induction false} LookupSet<V>(c: seq<Entry<V>>, i: nat, v: V, k: string)
    requires i < |c| && Past(c, c[i].key, i)
    ensures var d := c[i := Entry(c[i].key, v)];
            && Lookup(d, k) == (if k == c[i].key then Some(v) else Lookup(c, k))
            && (Distinct(c) ==> Distinct(d))
  {
    var d := c[i := Entry(c[i].key, v)];
    if i > 0 {
      LookupSet(c[1..], i - 1, v, k);
      LookupSet(c[1..], i - 1, v, c[0].key);
      assert d[1..] == c[1..][i - 1 := Entry(c[i].key, v)];
    } else {
      assert d[1..] == c[1..];
    }
  }

  /** Unlinking entry `i`. */
  lemma {:induction false} LookupDrop<V>(c: seq<Entry<V>>, i: nat, k: string)
    requires i < |c| && Past(c, c[i].key, i) && Distinct(c)
    ensures var d := c[..i] + c[i + 1..];
            Lookup(d, k) == (if k == c[i].key then None else Lookup(c, k)) && Distinct(d)
  {
    var d := c[..i] + c[i + 1..];
    if i > 0 {
      var e := c[1..];
      assert e[i - 1] == c[i] && Past(e, c[i].key, i - 1) by { assert forall j | 0 <= j < i - 1 :: e[j] == c[j + 1]; }
      LookupDrop(e, i - 1, k);
      LookupDrop(e, i - 1, c[0].key);
      assert d[0] == c[0] && d[1..] == e[..i - 1] + e[i..];
    } else {
      assert d == c[1..];
    }
  }

  ghost function Cut<V>(m: imap<string, V>, k: string): imap<string, V> {
    imap x | x in m && x != k :: m[x]
  }

  class Table<V> {
    const hash: string -> nat
    const buckets: array<seq<Entry<V>>>

    ghost predicate Valid()
      reads this, buckets
    {
      buckets.Length > 0 && forall n | 0 <= n < buckets.Length :: Distinct(buckets[n])
    }

    function Slot(k: string): nat
      requires buckets.Length > 0
    {
      hash(k) % buckets.Length
    }

    /** What the table says about a key. */
    ghost function Get(k: string): Option<V>
      reads this, buckets
      requires buckets.Length > 0
    {
      Lookup(buckets[Slot(k)], k)
    }

    /** The contents of the table. */
    ghost function Map(): imap<string, V>
      reads this, buckets
      requires Valid()
    {
      imap k | Get(k).Some? :: Get(k).value
    }

    /** genhash_init; the size is chosen by estimate_table_size. */
    constructor (hash: string -> nat, size: nat)
      requires size > 0
      ensures Valid() && fresh(buckets) && this.hash == hash
      ensures Map() == imap[]
    {
      this.hash := hash;
      buckets := new seq<Entry<V>>[size](_ => []);
    }

    /** genhash_find_entry: the first entry for the key in its chain, or the end of the chain. */
    method FindEntry(k: string) returns (n: nat, i: nat)
      requires Valid()
      ensures n == Slot(k) && i <= |buckets[n]| && Past(buckets[n], k, i)
      ensures i < |buckets[n]| ==> buckets[n][i].key == k
      ensures Get(k) == if i < |buckets[n]| then Some(buckets[n][i].value) else None
    {
      n, i := Slot(k), 0;
      while i < |buckets[n]| && buckets[n][i].key != k
        invariant i <= |buckets[n]| && Past(buckets[n], k, i)
      {
        i := i + 1;
      }
      LookupPast(buckets[n], k, i);
    }

    /** genhash_find. */
    method Find(k: string) returns (r: Option<V>)
      requires Valid()
      ensures r == if k in Map() then Some(Map()[k]) else None
    {
      var n, i := FindEntry(k);
      r := if i < |buckets[n]| then Some(buckets[n][i].value) else None;
    }

    /** genhash_update: overwrite the value, or store a new entry at the front of the chain. */
    method Update(k: string, v: V)
      requires Valid()
      modifies buckets
      ensures Valid()
      ensures Map() == old(Map())[k := v]
    {
      hide Lookup, Distinct;
      var n, i := FindEntry(k);
      ghost var c := buckets[n];
      if i < |buckets[n]| {
        buckets[n] := buckets[n][i := Entry(k, v)];
        forall key
          ensures Lookup(buckets[n], key) == if key == k then Some(v) else Lookup(c, key)
        {
          LookupSet(c, i, v, key);
        }
        LookupSet(c, i, v, k);
      } else {
        buckets[n] := [Entry(k, v)] + buckets[n];
        forall key
          ensures Lookup(buckets[n], key) == if key == k then Some(v) else Lookup(c, key)
        {
          LookupPush(c, k, v, key);
        }
        LookupPush(c, k, v, k);
      }
    }

    /** genhash_delete. */
    method Delete(k: string) returns (deleted: bool)
      requires Valid()
      modifies buckets
      ensures Valid() && (deleted <==> k in old(Map()))
      ensures Map() == Cut(old(Map()), k)
    {
      hide Lookup, Distinct;
      var n, i := FindEntry(k);
      ghost var c := buckets[n];
      deleted := i < |buckets[n]|;
      if deleted {
        buckets[n] := buckets[n][..i] + buckets[n][i + 1..];
        forall key
          ensures Lookup(buckets[n], key) == if key == k then None else Lookup(c, key)
        {
          LookupDrop(c, i, key);
        }
        LookupDrop(c, i, k);
      }
    }
  }
}
