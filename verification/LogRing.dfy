/**
 * The log buffer of engines/default/cmdlogbuf.c: a byte ring with a wrap mark
 * and a ring of flush requests. A method is one critical section of
 * log_write_lock; a flush is two of them with the file write in between.
 */
module LogRing {
  import opened Octets

  /** CMDLOG_FLUSH_AUTO_SIZE. */
  const AUTO: nat := 32768

  /** A flush request: how many bytes, and whether they go to two files. */
  datatype Freq = Freq(nflush: nat, dual: bool)

  const EMPTY: Freq := Freq(0, false)

  function Repeat(b: bool, n: nat): (r: seq<bool>)
    ensures |r| == n
  {
    seq(n, _ => b)
  }

  /** The dual-write flag of every queued byte, in order. */
  function Flags(s: seq<Freq>): seq<bool> {
    if s == [] then [] else Repeat(s[0].dual, s[0].nflush) + Flags(s[1..])
  }

  lemma {:induction false} FlagsConcat(a: seq<Freq>, b: seq<Freq>)
    ensures Flags(a + b) == Flags(a) + Flags(b)
  {
    hide Repeat;
    if a == [] {
      assert a + b == b;
    } else {
      FlagsConcat(a[1..], b);
      assert (a + b)[1..] == a[1..] + b;
      assert Flags(a + b) == Repeat(a[0].dual, a[0].nflush) + (Flags(a[1..]) + Flags(b));
    }
  }

  lemma FlagsSnoc(a: seq<Freq>, f: Freq)
    ensures Flags(a + [f]) == Flags(a) + Repeat(f.dual, f.nflush)
  {
    FlagsConcat(a, [f]);
    assert Flags([f]) == Repeat(f.dual, f.nflush);
  }

  /** Complete requests are not empty and not too long; the growing one is not full. */
  predicate SlotsOk(s: seq<Freq>) {
    && s != []
    && (forall k | 0 <= k < |s| - 1 :: 0 < s[k].nflush <= AUTO)
    && s[|s| - 1].nflush < AUTO
    && (s[|s| - 1].nflush == 0 ==> s[|s| - 1] == EMPTY)
  }

  /** The growing request. */
  function Last(s: seq<Freq>): Freq
    requires s != []
  {
    s[|s| - 1]
  }

  /** Bytes with another flag start a new request. */
  predicate Turns(s: seq<Freq>, dual: bool)
    requires s != []
  {
    Last(s).nflush > 0 && Last(s).dual != dual
  }

  /** The part of a request that bytes with flag `dual` join. */
  function Joins(s: seq<Freq>, dual: bool): nat
    requires s != []
  {
    if Turns(s, dual) then 0 else Last(s).nflush
  }

  /** The request slots in use when `len` more bytes with flag `dual` are queued. */
  function Taken(s: seq<Freq>, len: nat, dual: bool): nat
    requires s != []
  {
    |s| + (if Turns(s, dual) then 1 else 0) + (Joins(s, dual) + len) / AUTO
  }

  /** A request ends inside what was queued between `a` and `b`. */
  ghost predicate Divided(a: seq<Freq>, b: seq<Freq>) {
    exists k | 0 < k < |b| :: |Flags(a)| < |Flags(b[..k])| < |Flags(b)|
  }

  /** What `len` more bytes make of the requests: the first `n` slots, then more if the last of them is full. */
  predicate Grown(b: seq<Freq>, n: nat, g: nat, len: nat) {
    && 0 < n <= |b|
    && (if |b| == n then b[n - 1].nflush == g + len < AUTO else b[n - 1].nflush == AUTO <= g + len)
    && (g + len == AUTO ==> |b| == n + 1 && b[n] == EMPTY)
  }

  /** The growing request took `n` more bytes, and was closed if that filled it. */
  predicate Piece(s: seq<Freq>, t: seq<Freq>, n: nat, dual: bool) {
    && s != [] && Last(s).nflush + n <= AUTO
    && var r := s[|s| - 1 := Freq(Last(s).nflush + n, dual)]; t == if Last(r).nflush == AUTO then r + [EMPTY] else r
  }

  /** `len` bytes with flag `dual` were queued: the slots in use, and the growing request. */
  predicate Queues(a: seq<Freq>, b: seq<Freq>, len: nat, dual: bool) {
    && a != [] && |b| == Taken(a, len, dual) && !Turns(b, dual)
    && (Joins(a, dual) + len < AUTO ==> Last(b).nflush == Joins(a, dual) + len)
  }

  lemma GrownLast(b: seq<Freq>, n: nat, g: nat, len: nat)
    requires Grown(b, n, g, len) && g + len < AUTO
    ensures |b| == n && Last(b).nflush == g + len
  {}

  lemma FlagsTake(s: seq<Freq>, k: nat)
    requires k < |s|
    ensures |Flags(s[..k + 1])| == |Flags(s[..k])| + s[k].nflush
  {
    assert s[..k + 1] == s[..k] + [s[k]];
    FlagsSnoc(s[..k], s[k]);
  }

  lemma {:induction false} FlagsMonotone(s: seq<Freq>, j: nat, k: nat)
    requires j <= k <= |s|
    ensures |Flags(s[..j])| <= |Flags(s[..k])|
    decreases k
  {
    if j < k {
      FlagsMonotone(s, j, k - 1);
      FlagsTake(s, k - 1);
    }
  }

  /** Where the requests stand that `len` more bytes made. */
  lemma GrownFlags(a: seq<Freq>, b: seq<Freq>, n: nat, len: nat, dual: bool)
    requires a != [] && n == |a| + (if Turns(a, dual) then 1 else 0) && Grown(b, n, Joins(a, dual), len)
    requires b[..|a| - 1] == a[..|a| - 1] && (Turns(a, dual) ==> b[|a| - 1] == Last(a))
    ensures |Flags(b[..n - 1])| + Joins(a, dual) == |Flags(a)|
    ensures |Flags(b[..n])| == |Flags(b[..n - 1])| + b[n - 1].nflush
  {
    hide Flags, Repeat;
    var m := |a| - 1;
    assert a[..m + 1] == a;
    FlagsTake(a, m);
    FlagsTake(b, m);
    FlagsTake(b, n - 1);
  }

  /** A record is cut by a request exactly if the growing one has no room for all of it. */
  lemma DividedExact(a: seq<Freq>, b: seq<Freq>, n: nat, len: nat, dual: bool)
    requires SlotsOk(a) && len > 0 && n == |a| + (if Turns(a, dual) then 1 else 0) && Grown(b, n, Joins(a, dual), len)
    requires b[..|a| - 1] == a[..|a| - 1] && (Turns(a, dual) ==> b[|a| - 1] == Last(a)) && |Flags(b)| == |Flags(a)| + len
    ensures Divided(a, b) <==> Joins(a, dual) + len > AUTO
    ensures b[|a| - 1].nflush >= Last(a).nflush
  {
    hide Flags, Repeat, SlotsOk;
    GrowingOk(a);
    GrownFlags(a, b, n, len, dual);
    var g := Joins(a, dual);
    if g + len > AUTO {
      assert |Flags(a)| < |Flags(b[..n])| < |Flags(b)|;
    } else {
      forall k | 0 < k < |b|
        ensures !(|Flags(a)| < |Flags(b[..k])| < |Flags(b)|)
      {
        if k < n { FlagsMonotone(b, k, n - 1); }
      }
    }
  }

  /** The index of element number `k` of a ring that begins at `first`. */
  function Idx(first: nat, length: nat, k: nat): int {
    if first + k < length then first + k else first + k - length
  }

  class RequestQueue {
    const fque: array<Freq>
    var fbgn: nat
    var fend: nat
    /** The requests from the next to flush up to the growing one. */
    ghost var slots: seq<Freq>

    ghost predicate Ring()
      reads this, fque
    {
      && fque.Length > 1 && fbgn < fque.Length && 0 < |slots| <= fque.Length && fend == Idx(fbgn, fque.Length, |slots| - 1)
      && (forall k | 0 <= k < |slots| :: fque[Idx(fbgn, fque.Length, k)] == slots[k])
      && (forall k | |slots| <= k < fque.Length :: fque[Idx(fbgn, fque.Length, k)] == EMPTY)
    }

    ghost predicate Valid()
      reads this, fque
    {
      Ring() && SlotsOk(slots)
    }

    constructor (size: nat)
      requires size > 1
      ensures Valid() && fresh(fque) && fque.Length == size && slots == [EMPTY]
    {
      fque := new Freq[size](_ => EMPTY);
      fbgn, fend := 0, 0;
      slots := [EMPTY];
    }

    /**
     * The growing request is complete; the next one starts empty. The source
     * does not see when the ring has come full circle; nothing holds then.
     */
    method Advance() returns (full: bool)
      requires Ring()
      modifies this`fend, this`slots
      ensures full <==> |old(slots)| == fque.Length
      ensures !full ==> Ring() && slots == old(slots) + [EMPTY]
    {
      fend := fend + 1;
      if fend == fque.Length { fend := 0; }
      full := fend == fbgn;
      if !full {
        assert fque[Idx(fbgn, fque.Length, |slots|)] == EMPTY;
        slots := slots + [EMPTY];
      }
    }

    /** The growing request grows. */
    method Extend(n: nat, dual: bool)
      requires Ring()
      modifies this`slots, fque
      ensures Ring() && slots == old(slots)[|old(slots)| - 1 := Freq(old(slots)[|old(slots)| - 1].nflush + n, dual)]
    {
      fque[fend] := Freq(fque[fend].nflush + n, dual);
      slots := slots[|slots| - 1 := fque[fend]];
    }

    /** Clear the request that was flushed. */
    method Retire()
      requires Valid() && |slots| > 1
      modifies this`fbgn, this`slots, fque
      ensures Valid() && slots == old(slots)[1..] && fbgn == Idx(old(fbgn), fque.Length, 1)
    {
      fque[fbgn] := EMPTY;
      fbgn := fbgn + 1;
      if fbgn == fque.Length { fbgn := 0; }
      slots := slots[1..];
      forall k | 0 <= k < |slots| ensures fque[Idx(fbgn, fque.Length, k)] == slots[k] {
        assert old(fque[Idx(fbgn, fque.Length, k + 1)]) == old(slots)[k + 1];
      }
      forall k | |slots| <= k < fque.Length ensures fque[Idx(fbgn, fque.Length, k)] == EMPTY {
        if k + 1 < fque.Length { assert old(fque[Idx(fbgn, fque.Length, k + 1)]) == EMPTY; }
      }
    }

    /** Start a new request unless the growing one is still empty. */
    method CloseGrowing() returns (full: bool)
      requires Valid()
      modifies this`fend, this`slots
      ensures full <==> Last(old(slots)).nflush > 0 && |old(slots)| == fque.Length
      ensures !full ==> Valid() && slots == if Last(old(slots)).nflush > 0 then old(slots) + [EMPTY] else old(slots)
      ensures !full ==> slots[|slots| - 1] == EMPTY && Flags(slots) == Flags(old(slots))
    {
      assert fque[fend] == slots[|slots| - 1];
      full := false;
      if fque[fend].nflush > 0 {
        FlagsSnoc(slots, EMPTY);
        full := Advance();
      }
    }

    /** One turn of the request loop: as much of `left` bytes as the growing request takes. */
    method AddPiece(left: nat, dual: bool) returns (spare: nat, full: bool)
      requires Valid() && left > 0 && !Turns(slots, dual)
      modifies this`fend, this`slots, fque
      ensures 0 < spare <= left && spare == (if AUTO - Last(old(slots)).nflush < left then AUTO - Last(old(slots)).nflush else left)
      ensures full <==> Last(old(slots)).nflush + spare == AUTO && |old(slots)| == fque.Length
      ensures !full ==> Valid() && Flags(slots) == Flags(old(slots)) + Repeat(dual, spare) && Piece(old(slots), slots, spare, dual)
      ensures !full ==> !Turns(slots, dual) && |slots| >= |old(slots)| && slots[..|old(slots)| - 1] == old(slots)[..|old(slots)| - 1]
    {
      hide Flags, Repeat;
      ghost var last := |slots| - 1;
      assert fque[fend] == slots[last];
      spare, full := AUTO - fque[fend].nflush, false;
      if spare >= left { spare := left; }
      ExtendFlags(slots, spare, dual);
      Extend(spare, dual);
      assert fque[fend] == slots[last];
      if fque[fend].nflush == AUTO {
        FlagsSnoc(slots, EMPTY);
        RepeatNone(false);
        full := Advance();
      }
    }

    /** The request loop. */
    method AddPieces(len: nat, dual: bool) returns (full: bool)
      requires Valid() && len > 0 && !Turns(slots, dual)
      modifies this`fend, this`slots, fque
      ensures full <==> |old(slots)| + (Last(old(slots)).nflush + len) / AUTO > fque.Length
      ensures !full ==> Valid() && Flags(slots) == Flags(old(slots)) + Repeat(dual, len)
      ensures !full ==> |slots| >= |old(slots)| && slots[..|old(slots)| - 1] == old(slots)[..|old(slots)| - 1]
      ensures !full ==> Grown(slots, |old(slots)|, Last(old(slots)).nflush, len)
      ensures !full ==> |slots| == |old(slots)| + (Last(old(slots)).nflush + len) / AUTO && !Turns(slots, dual)
    {
      hide Flags, Repeat, SlotsOk, Grown, RequestQueue.Ring, Piece, Turns;
      GrowingOk(slots);
      RingEnds(this);
      ghost var base := slots;
      ghost var n, g := |base|, Last(base).nflush;
      var left: nat := len;
      full := false;
      RepeatNone(dual);
      assert Flags(slots) == Flags(base) + Repeat(dual, 0);
      while left > 0
        invariant Valid() && left <= len && n <= |slots| <= fque.Length && n > 0 && !Turns(slots, dual) && !full
        invariant |slots| + (Last(slots).nflush + left) / AUTO == n + (g + len) / AUTO
        invariant Flags(slots) == Flags(base) + Repeat(dual, len - left)
        invariant slots[..n - 1] == base[..n - 1]
        invariant if left == len then slots == base else Grown(slots, n, g, len - left)
      {
        ghost var s1 := slots;
        GrowingOk(slots);
        var spare;
        spare, full := AddPiece(left, dual);
        PieceSlots(Last(s1).nflush, left, spare);
        if full { return; }
        PieceCount(s1, slots, spare, dual);
        RingEnds(this);
        RepeatMore(Flags(base), dual, len - left, spare);
        PieceGrows(base, s1, slots, g, len - left, spare, dual);
        PrefixThrough(base, s1, slots);
        left := left - spare;
      }
      GrowingOk(slots);
    }

    /**
     * Queue `len` bytes of one record: they extend the growing request if it
     * has the same flag, and every request is cut at AUTO bytes.
     */
    method Add(len: nat, dual: bool) returns (full: bool)
      requires Valid() && len > 0
      modifies this`fend, this`slots, fque
      ensures full <==> Taken(old(slots), len, dual) > fque.Length
      ensures !full ==> Valid() && Flags(slots) == Flags(old(slots)) + Repeat(dual, len)
      ensures !full ==> |slots| >= |old(slots)| && slots[..|old(slots)| - 1] == old(slots)[..|old(slots)| - 1]
      ensures !full ==> slots[|old(slots)| - 1].nflush >= Last(old(slots)).nflush
      ensures !full ==> (Divided(old(slots), slots) <==> Joins(old(slots), dual) + len > AUTO)
      ensures !full ==> Queues(old(slots), slots, len, dual)
    {
      hide Flags, Repeat, SlotsOk, Divided, Grown, RequestQueue.Ring;
      GrowingOk(slots);
      RingEnds(this);
      ghost var s0 := slots;
      full := false;
      if fque[fend].nflush > 0 && fque[fend].dual != dual {
        full := CloseGrowing();
      }
      if full { return; }
      ghost var base := slots;
      full := AddPieces(len, dual);
      if full { return; }
      BasePrefix(s0, base, slots);
      DividedExact(s0, slots, |base|, len, dual);
      if Joins(s0, dual) + len < AUTO { GrownLast(slots, |base|, Joins(s0, dual), len); }
    }

    /** Overwrite request number `k`, which lies at `index`. */
    method Overwrite(index: nat, ghost k: nat, f: Freq)
      requires Ring() && k < |slots| && index == Idx(fbgn, fque.Length, k)
      modifies this`slots, fque
      ensures Ring() && slots == old(slots)[k := f]
    {
      fque[index] := f;
      slots := slots[k := f];
    }

    /** After a failed checkpoint no queued byte goes to two files. */
    method ClearDual()
      requires Valid()
      modifies this`slots, fque
      ensures Valid() && slots == Single(old(slots))
    {
      hide RequestQueue.Ring, Cleared, Single;
      ghost var s0 := slots;
      ClearedEnds(s0);
      RingAt(this, 0);
      var index := fbgn;
      ghost var k: nat := 0;
      while fque[index].nflush > 0
        invariant Ring() && |slots| == |s0| <= fque.Length && k < fque.Length && index == Idx(fbgn, fque.Length, k) < fque.Length
        invariant k <= |s0| && slots == Cleared(s0, k)
        decreases fque.Length - k
      {
        RingAt(this, k);
        ClearedStep(s0, k);
        if fque[index].dual {
          Overwrite(index, k, Freq(fque[index].nflush, false));
        }
        k := k + 1;
        index := index + 1;
        if index == fque.Length { index := 0; }
        if index == fbgn { break; }
      }
      if k < fque.Length { RingAt(this, k); }
      if k < |s0| { ClearedStep(s0, k); }
    }
  }

  lemma RingEnds(q: RequestQueue)
    requires q.Ring()
    ensures q.fend < q.fque.Length && 0 < |q.slots| <= q.fque.Length && q.fque[q.fend] == q.slots[|q.slots| - 1]
  {}

  lemma PieceSlots(g: nat, left: nat, spare: nat)
    requires g < AUTO && 0 < spare <= left && spare == (if AUTO - g < left then AUTO - g else left)
    ensures (g + left) / AUTO == if g + spare == AUTO then 1 + (left - spare) / AUTO else 0
    ensures g + spare < AUTO ==> spare == left
  {}

  lemma PieceCount(s: seq<Freq>, t: seq<Freq>, n: nat, dual: bool)
    requires Piece(s, t, n, dual)
    ensures |t| == |s| + (if Last(s).nflush + n == AUTO then 1 else 0)
    ensures Last(t).nflush == if Last(s).nflush + n == AUTO then 0 else Last(s).nflush + n
  {}

  /** One more piece. */
  lemma PieceGrows(base: seq<Freq>, s: seq<Freq>, t: seq<Freq>, g: nat, done: nat, spare: nat, dual: bool)
    requires 0 < |base| <= |s| && g == Last(base).nflush < AUTO && 0 < spare && Last(s).nflush < AUTO
    requires (if done == 0 then s == base else Grown(s, |base|, g, done)) && Piece(s, t, spare, dual)
    ensures Grown(t, |base|, g, done + spare)
  {}

  /** What closing the growing request first leaves. */
  lemma BasePrefix(s: seq<Freq>, base: seq<Freq>, t: seq<Freq>)
    requires 0 < |s| <= |base| <= |t| && t[..|base| - 1] == base[..|base| - 1] && |base| <= |s| + 1
    requires s <= base
    ensures t[..|s| - 1] == s[..|s| - 1] && (|base| > |s| ==> t[|s| - 1] == Last(s))
  {
    assert t[..|s| - 1] == t[..|base| - 1][..|s| - 1];
    if |base| > |s| { assert t[|s| - 1] == t[..|base| - 1][|s| - 1]; }
  }

  /** What request number `k` of the ring is. */
  lemma RingAt(q: RequestQueue, k: nat)
    requires q.Ring() && (k == 0 || k < q.fque.Length)
    ensures q.fbgn < q.fque.Length && |q.slots| <= q.fque.Length && Idx(q.fbgn, q.fque.Length, k) < q.fque.Length
    ensures q.fque[Idx(q.fbgn, q.fque.Length, k)] == if k < |q.slots| then q.slots[k] else EMPTY
  {}

  /** The first `k` requests are for one file only. */
  function Cleared(s: seq<Freq>, k: nat): (r: seq<Freq>)
    requires k <= |s|
    ensures |r| == |s|
  {
    Single(s)[..k] + s[k..]
  }

  lemma ClearedStep(s: seq<Freq>, k: nat)
    requires k < |s|
    ensures Cleared(s, k)[k] == s[k]
    ensures Cleared(s, k + 1) == if s[k].dual then Cleared(s, k)[k := Freq(s[k].nflush, false)] else Cleared(s, k)
  {}

  lemma ClearedEnds(s: seq<Freq>)
    ensures Cleared(s, 0) == s && Cleared(s, |s|) == Single(s)
    ensures SlotsOk(s) ==> SlotsOk(Single(s))
  {}

  /** The same requests, each for one file only. */
  function Single(s: seq<Freq>): (r: seq<Freq>)
    ensures |r| == |s|
  {
    seq(|s|, k requires 0 <= k < |s| => Freq(s[k].nflush, false))
  }

  lemma {:induction false} SingleFlags(s: seq<Freq>)
    ensures Flags(Single(s)) == Repeat(false, |Flags(s)|)
  {
    if s != [] {
      SingleFlags(s[1..]);
      assert Single(s)[1..] == Single(s[1..]);
    }
  }

  lemma GrowingOk(s: seq<Freq>)
    requires SlotsOk(s)
    ensures s != [] && s[|s| - 1].nflush < AUTO
  {}

  lemma PrefixThrough(a: seq<Freq>, b: seq<Freq>, c: seq<Freq>)
    requires 0 < |a| <= |b| <= |c| && b[..|a| - 1] == a[..|a| - 1] && c[..|b| - 1] == b[..|b| - 1]
    ensures c[..|a| - 1] == a[..|a| - 1]
  {
    assert c[..|a| - 1] == c[..|b| - 1][..|a| - 1];
  }

  /** The bytes of the log buffer: what is queued lies between head and tail, over the wrap mark if there is one. */
  class ByteRing {
    const data: array<Byte>
    var head: nat
    var tail: nat
    var last: int

    ghost predicate Valid()
      reads this
    {
      if last == -1 then head <= tail <= data.Length else tail < head <= last <= data.Length
    }

    /** The queued bytes, in the order they were written. */
    ghost function Queued(): (s: seq<Byte>)
      reads this, data
      requires Valid()
      ensures |s| == if last == -1 then tail - head else last - head + tail
    {
      if last == -1 then data[head..tail] else data[head..last] + data[..tail]
    }

    constructor (size: nat)
      ensures Valid() && fresh(data) && data.Length == size && head == tail == 0 && last == -1
    {
      data := new Byte[size];
      head, tail, last := 0, 0, -1;
    }

    /** Copy a record behind the queued bytes. */
    method Copy(rec: seq<Byte>)
      requires Valid() && tail + |rec| <= data.Length && (last != -1 ==> tail + |rec| < head)
      modifies this`tail, data
      ensures Valid() && tail == old(tail) + |rec| && Queued() == old(Queued()) + rec
    {
      forall i | 0 <= i < |rec| {
        data[tail + i] := rec[i];
      }
      tail := tail + |rec|;
      assert data[old(tail)..tail] == rec;
      if last == -1 {
        assert data[head..tail] == old(data[head..tail]) + rec;
      } else {
        assert data[head..last] == old(data[head..last]);
        assert data[..tail] == old(data[..tail]) + rec;
      }
    }

    /** Leave the rest of the buffer unused and continue at its beginning. */
    method Wrap()
      requires Valid() && last == -1 && head > 0
      modifies this`tail, this`last
      ensures Valid() && last == old(tail) && tail == 0 && Queued() == old(Queued())
    {
      last := tail;
      tail := 0;
    }

    /** Once nothing is left before the wrap mark, continue at the beginning. */
    method Unwrap()
      requires Valid()
      modifies this`head, this`last
      ensures Valid() && Queued() == old(Queued())
      ensures if old(head) == old(last) then last == -1 && head == 0 else last == old(last) && head == old(head)
    {
      if head == last {
        assert data[..tail] == data[0..tail];
        last := -1;
        head := 0;
      }
    }

    /** The first `n` queued bytes lie together in memory. */
    method Front(n: nat) returns (bytes: seq<Byte>)
      requires Valid() && head + n <= (if last == -1 then tail else last)
      ensures |Queued()| >= n && bytes == Queued()[..n]
    {
      bytes := data[head..head + n];
    }

    /** The first `n` queued bytes are no longer needed. */
    method Drop(n: nat)
      requires Valid() && head + n <= (if last == -1 then tail else last)
      modifies this`head, this`last
      ensures Valid() && |old(Queued())| >= n && Queued() == old(Queued())[n..]
      ensures if old(head) + n == old(last) then last == -1 && head == 0 else last == old(last) && head == old(head) + n
    {
      head := head + n;
      Unwrap();
    }
  }

  lemma RepeatNone(b: bool)
    ensures Repeat(b, 0) == []
  {}

  lemma RepeatMore(f: seq<bool>, b: bool, n: nat, m: nat)
    ensures f + Repeat(b, n) + Repeat(b, m) == f + Repeat(b, n + m)
  {}

  lemma ExtendFlags(s: seq<Freq>, n: nat, dual: bool)
    requires s != [] && (s[|s| - 1].nflush > 0 ==> s[|s| - 1].dual == dual)
    ensures Flags(s[|s| - 1 := Freq(s[|s| - 1].nflush + n, dual)]) == Flags(s) + Repeat(dual, n)
  {
    var i := |s| - 1;
    var f := s[i];
    assert s == s[..i] + [f];
    assert s[i := Freq(f.nflush + n, dual)] == s[..i] + [Freq(f.nflush + n, dual)];
    FlagsSnoc(s[..i], f);
    FlagsSnoc(s[..i], Freq(f.nflush + n, dual));
    if f.nflush == 0 {
      assert Repeat(f.dual, 0) == [] == Repeat(dual, 0);
    }
    RepeatMore(Flags(s[..i]), dual, f.nflush, n);
  }
}
