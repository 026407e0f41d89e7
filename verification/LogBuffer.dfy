/** The log buffer itself: the byte ring, its flush requests and the dual-write mark. */
module LogBuffer {
  import opened Octets
  import opened LogRing

  lemma FlagsFirst(s: seq<Freq>)
    requires s != []
    ensures Flags(s) == Repeat(s[0].dual, s[0].nflush) + Flags(s[1..])
  {}

  lemma FlagsOpen(s: seq<Freq>)
    requires s != [] && s[|s| - 1] == EMPTY
    ensures Flags(s[..|s| - 1]) == Flags(s)
  {
    assert s == s[..|s| - 1] + [EMPTY];
    FlagsSnoc(s[..|s| - 1], EMPTY);
    RepeatNone(false);
  }

  /** What the first request and the requests before the wrap mark leave behind. */
  lemma FlagsRetired(s: seq<Freq>, bound: nat)
    requires 0 < bound < |s|
    ensures |Flags(s[..bound])| == s[0].nflush + |Flags(s[1..][..bound - 1])|
  {
    FlagsFirst(s[..bound]);
    assert s[..bound][1..] == s[1..][..bound - 1];
  }

  /** Complete requests mean queued bytes. */
  lemma SomeQueued(q: RequestQueue)
    requires q.Valid() && |q.slots| > 1
    ensures |Flags(q.slots)| >= q.slots[0].nflush > 0
  {
    FlagsFirst(q.slots);
  }

  /** Without complete requests less than one request is queued. */
  lemma LittleQueued(q: RequestQueue)
    requires q.Valid() && |q.slots| == 1
    ensures |Flags(q.slots)| < AUTO && Flags(q.slots[..0]) == []
  {
    FlagsFirst(q.slots);
    assert Flags([]) == [];
  }

  lemma OneQueued(q: RequestQueue)
    requires q.Valid() && |q.slots| == 1
    ensures |Flags(q.slots)| == q.slots[0].nflush
  {
    FlagsFirst(q.slots);
    assert Flags([]) == [];
  }

  /**
   * What the log buffer means: the queued bytes with their dual-write flags,
   * the bytes written twice, how many queued bytes lie before the end of the
   * dual write (or -1), and how many are being flushed.
   */
  datatype State = State(queued: seq<Byte>, flags: seq<bool>, dwSize: nat, mark: int, first: nat)

  /** How one turn of the space-finding loop ends; `Full` is the ring of requests run over, which the source does not see. */
  datatype Turn = Placed | NoRoom | Full

  /** The growing request closed, if there is anything in it. */
  function Closed(s: seq<Freq>): (r: seq<Freq>)
    requires s != []
    ensures r != []
  {
    if Last(s).nflush > 0 then s + [EMPTY] else s
  }

  /** How a log buffer stands: its requests, their slots, and the two ends of the queued bytes. */
  datatype Stand = Stand(slots: seq<Freq>, cap: nat, head: nat, tail: nat, last: int, size: nat) {
    /** A record of this length does not fit behind the last one. */
    predicate Wraps(len: nat) { head <= tail && len >= size - tail }

    /** There is room for it, behind the last one or at the beginning of the buffer. */
    predicate RoomFor(len: nat) {
      if Wraps(len) then 0 < len < head
      else if head <= tail then true
      else len < head - tail
    }

    /** The requests before the record is queued. */
    function Before(len: nat): (r: seq<Freq>)
      requires slots != []
      ensures r != []
    {
      if Wraps(len) && head > 0 then Closed(slots) else slots
    }

    /** The ring of requests runs over in a turn: when the buffer wraps, or when the record is queued. */
    predicate RunsOver(len: nat, dual: bool)
      requires slots != []
    {
      |Before(len)| > cap || (RoomFor(len) && Taken(Before(len), len, dual) > cap)
    }

    /** A turn that finds no room may have gone back to the beginning of the buffer. */
    function Turned(len: nat): (r: Stand)
      requires slots != []
      ensures r.slots == Before(len)
    {
      if Wraps(len) && head > 0 then this.(slots := Closed(slots), last := tail, tail := 0) else this
    }

    /** Once nothing is left before the wrap mark, reading continues at the beginning. */
    function Unwrapped(): Stand {
      if head == last then this.(head := 0, last := -1) else this
    }

    /** The first request was flushed. */
    function Dropped(): Stand
      requires slots != []
    {
      this.(slots := slots[1..], head := head + slots[0].nflush).Unwrapped()
    }

    /** A whole flush, if there is a complete request. */
    function Relieved(): Stand {
      if |slots| > 1 then Unwrapped().Dropped() else this
    }

    /** After so many turns without room for the record, each with a forced flush. */
    function After(len: nat, turns: nat): (r: Stand)
      requires slots != []
      ensures r.slots != []
    {
      if turns == 0 then this
      else
        After(len, turns - 1).Turned(len).Relieved()
    }

    /** So many turns find no room, without the ring running over. */
    ghost predicate Tries(len: nat, dual: bool, turns: nat)
      requires slots != []
    {
      forall j: nat | j < turns :: var t := After(len, j); !t.RoomFor(len) && !t.RunsOver(len, dual)
    }
  }

  lemma DroppedIs(s: Stand, t: Stand)
    requires s.slots != [] && t.slots == s.slots[1..] && t.cap == s.cap && t.tail == s.tail && t.size == s.size
    requires var h := s.head + s.slots[0].nflush; if h == s.last then t.last == -1 && t.head == 0 else t.last == s.last && t.head == h
    ensures t == s.Dropped()
  {}

  lemma TriesNone(s: Stand, len: nat, dual: bool)
    requires s.slots != []
    ensures s.After(len, 0) == s && s.Tries(len, dual, 0)
  {}

  lemma TriesNow(s: Stand, len: nat, dual: bool, turns: nat)
    requires s.slots != [] && s.Tries(len, dual, turns)
    ensures s.RoomFor(len) || s.RunsOver(len, dual) ==> turns == 0
  {
    TriesNone(s, len, dual);
    assert turns > 0 ==> !s.After(len, 0).RoomFor(len) && !s.After(len, 0).RunsOver(len, dual);
  }

  lemma TriesMore(s: Stand, len: nat, dual: bool, turns: nat)
    requires s.slots != [] && s.Tries(len, dual, turns)
    requires var t := s.After(len, turns); !t.RoomFor(len) && !t.RunsOver(len, dual)
    ensures s.Tries(len, dual, turns + 1) && s.After(len, turns + 1) == s.After(len, turns).After(len, 1)
  {
    hide Stand.RoomFor, Stand.RunsOver, Stand.Turned, Stand.Dropped, Stand.Unwrapped;
    TriesNone(s.After(len, turns), len, dual);
  }

  /** The forced flushes take at least the requests that the turns close. */
  lemma {:induction false} AfterSlots(s: Stand, len: nat, turns: nat)
    requires s.slots != []
    ensures |s.After(len, turns).slots| <= |s.slots| && s.After(len, turns).cap == s.cap && s.After(len, turns).size == s.size
    decreases turns
  {
    if turns > 0 {
      AfterSlots(s, len, turns - 1);
    }
  }

  class Buffer {
    const ring: ByteRing
    const q: RequestQueue
    /** No record is longer. */
    const maxRec: nat
    var dwEnd: int
    var dwSize: nat
    /** How many requests lie before the wrap mark. */
    ghost var bound: nat
    /** How many requests lie before the end of the dual write, or -1. */
    ghost var mark: int
    /** The first request is being written to the file. */
    ghost var flushing: bool

    ghost function Repr(): set<object>
      reads this
    {
      {this, ring, ring.data, q, q.fque}
    }

    ghost predicate Valid()
      reads Repr()
    {
      && ring.Valid() && q.Valid()
      && (ring.last != -1 ==> ring.last + maxRec >= ring.data.Length)
      && |Flags(q.slots)| == |ring.Queued()|
      && bound < |q.slots|
      && (ring.last == -1 ==> bound == 0)
      && (ring.last != -1 ==> |Flags(q.slots[..bound])| == ring.last - ring.head)
      && -1 <= mark < |q.slots|
      && dwEnd == (if mark == -1 then -1 else Idx(q.fbgn, q.fque.Length, mark))
      && (flushing ==> |q.slots| > 1 && mark != 0 && (ring.last != -1 ==> ring.head < ring.last))
    }

    /** How many queued bytes lie before the end of the dual write. */
    ghost function MarkBytes(): nat
      reads this, q
      requires 0 <= mark <= |q.slots|
    {
      |Flags(q.slots[..mark])|
    }

    ghost function View(): State
      reads Repr()
      requires Valid()
    {
      State(ring.Queued(), Flags(q.slots), dwSize, if mark == -1 then -1 else MarkBytes(), if flushing then q.slots[0].nflush else 0)
    }

    constructor (size: nat, maxRec: nat)
      requires size >= 32
      ensures Valid() && fresh(Repr()) && ring.data.Length == size && this.maxRec == maxRec && q.fque.Length == size / 16
      ensures View() == State([], [], 0, -1, 0) && q.slots == [EMPTY] && ring.head == 0
    {
      ring := new ByteRing(size);
      q := new RequestQueue(size / 16);
      this.maxRec := maxRec;
      dwEnd, dwSize := -1, 0;
      bound, mark, flushing := 0, -1, false;
      new;
      assert Flags([EMPTY]) == [] by { FlagsSnoc([], EMPTY); RepeatNone(false); }
    }

    /** Copy a record behind the queued bytes and queue it for flushing. */
    method Place(rec: seq<Byte>, dual: bool) returns (full: bool)
      requires Valid() && 0 < |rec|
      requires ring.tail + |rec| <= ring.data.Length && (ring.last != -1 ==> ring.tail + |rec| < ring.head)
      modifies this`dwSize, ring`tail, ring.data, q`fend, q`slots, q.fque
      ensures full <==> Taken(old(q.slots), |rec|, dual) > q.fque.Length
      ensures !full ==> Valid() && ring.Queued() == old(ring.Queued()) + rec
      ensures !full ==> Flags(q.slots) == old(Flags(q.slots)) + Repeat(dual, |rec|)
      ensures !full ==> dwSize == old(dwSize) + if dual then |rec| else 0
      ensures !full ==> Onward(old(q.slots), q.slots)
      ensures !full ==> (Divided(old(q.slots), q.slots) <==> Joins(old(q.slots), dual) + |rec| > AUTO)
      ensures !full ==> Queues(old(q.slots), q.slots, |rec|, dual)
    {
      hide Flags, Repeat, RequestQueue.Valid, ByteRing.Queued, Divided, Queues;
      ring.Copy(rec);
      if dual { dwSize := dwSize + |rec|; }
      full := q.Add(|rec|, dual);
      if full { return; }
      assert q.slots[..bound] == old(q.slots)[..bound];
    }

    /** Too little room at the end of the buffer: continue at its beginning, in a new request. */
    method WrapAround(len: nat) returns (full: bool)
      requires Valid() && ring.last == -1 && ring.head > 0 && ring.data.Length - ring.tail <= len <= maxRec
      modifies this`bound, ring`tail, ring`last, q`fend, q`slots
      ensures full <==> Last(old(q.slots)).nflush > 0 && |old(q.slots)| == q.fque.Length
      ensures !full ==> Valid() && ring.last == old(ring.tail) && ring.tail == 0
      ensures !full ==> ring.Queued() == old(ring.Queued()) && Flags(q.slots) == old(Flags(q.slots))
      ensures !full ==> q.slots == Closed(old(q.slots)) && Onward(old(q.slots), q.slots)
      ensures !full ==> ring.Queued() != [] ==> |q.slots| > 1
    {
      hide Flags, Repeat, RequestQueue.Valid, ByteRing.Queued;
      if |q.slots| > 1 { SomeQueued(q); } else { OneQueued(q); }
      ring.Wrap();
      full := q.CloseGrowing();
      if full { return; }
      FlagsOpen(q.slots);
      bound := |q.slots| - 1;
    }

    /** How the buffer stands. */
    ghost function Standing(): Stand
      reads ring, q
    {
      Stand(q.slots, q.fque.Length, ring.head, ring.tail, ring.last, ring.data.Length)
    }

    /** There is room for a record, behind the last one or at the beginning of the buffer. */
    ghost predicate RoomFor(len: nat)
      reads ring, q
    {
      Standing().RoomFor(len)
    }

    /** The requests before the record is queued. */
    ghost function Before(len: nat): seq<Freq>
      reads ring, q
      requires q.slots != []
    {
      Standing().Before(len)
    }

    /** The ring of requests runs over in a turn. */
    ghost predicate RunsOver(len: nat, dual: bool)
      reads ring, q
      requires q.slots != []
    {
      Standing().RunsOver(len, dual)
    }

    /** Look for space, going back to the beginning of the buffer if need be. */
    method FindSpace(len: nat) returns (ok: bool, full: bool)
      requires Valid() && 0 < len <= maxRec && len < ring.data.Length
      modifies this`bound, ring`tail, ring`last, q`fend, q`slots
      ensures full <==> |old(Before(len))| > q.fque.Length
      ensures !full ==> Valid() && View() == old(View()) && Onward(old(q.slots), q.slots)
      ensures !full ==> q.slots == old(Before(len)) && |q.slots| <= |old(q.slots)| + 1 && Flags(q.slots) == old(Flags(q.slots))
      ensures !full ==> (ok <==> old(RoomFor(len)))
      ensures !full && ok ==> ring.tail + len <= ring.data.Length && (ring.last != -1 ==> ring.tail + len < ring.head)
      ensures !full && !ok ==> Standing() == old(Standing()).Turned(len)
      ensures !full && !ok && 2 * maxRec + AUTO <= ring.data.Length ==> |q.slots| > 1
    {
      hide Flags, Repeat, RequestQueue.Valid, ByteRing.Queued;
      ok, full := false, false;
      ghost var s0 := q.slots;
      QueueEnds(q);
      if |q.slots| > 1 { SomeQueued(q); } else { LittleQueued(q); }
      if ring.head <= ring.tail {
        if len < ring.data.Length - ring.tail {
          ok := true;
        } else if ring.head > 0 {
          full := WrapAround(len);
          if full { return; }
          ok := len < ring.head;
        }
      } else {
        ok := len < ring.head - ring.tail;
      }
      OnwardSame(s0, q.slots);
    }

    /**
     * One turn of the space-finding loop of do_log_buff_write. When the buffer
     * is large enough for two records and a request, a failed turn leaves a
     * complete request to flush.
     */
    method TryWrite(rec: seq<Byte>, dual: bool) returns (r: Turn)
      requires Valid() && 0 < |rec| <= maxRec && |rec| < ring.data.Length
      modifies this`dwSize, this`bound, ring`tail, ring`last, ring.data, q`fend, q`slots, q.fque
      ensures r == Full <==> old(RunsOver(|rec|, dual))
      ensures r != Full ==> Valid() && var v := old(View()); View() == if r == NoRoom then v else
              v.(queued := v.queued + rec, flags := v.flags + Repeat(dual, |rec|), dwSize := v.dwSize + if dual then |rec| else 0)
      ensures r != Full ==> Onward(old(q.slots), q.slots) && (r == NoRoom ==> |q.slots| <= |old(q.slots)| + 1)
      ensures r == NoRoom ==> |Flags(q.slots)| == |Flags(old(q.slots))|
      ensures r == Placed ==> (Divided(old(q.slots), q.slots) <==> Joins(old(Before(|rec|)), dual) + |rec| > AUTO)
      ensures r == Placed ==> Queues(old(Before(|rec|)), q.slots, |rec|, dual)
      ensures r != Full ==> (r == NoRoom <==> !old(RoomFor(|rec|)))
      ensures r == NoRoom ==> Standing() == old(Standing()).Turned(|rec|)
      ensures r == NoRoom && 2 * maxRec + AUTO <= ring.data.Length ==> |q.slots| > 1
    {
      hide Flags, Repeat, RequestQueue.Valid, ByteRing.Queued, Divided, Taken, Queues, Stand.Before, Stand.RoomFor, Joins;
      QueueEnds(q);
      ghost var s0 := q.slots;
      var ok, full := FindSpace(|rec|);
      if full { return Full; }
      if !ok { return NoRoom; }
      QueueEnds(q);
      ghost var s1 := q.slots;
      full := Place(rec, dual);
      if full { return Full; }
      OnwardThrough(s0, s1, q.slots);
      OnwardSame(s0, q.slots);
      OnwardSame(s1, q.slots);
      DividedSame(s0, s1, q.slots);
      r := Placed;
    }

    /** Everything before the end of the dual write was flushed. */
    method TakeMark() returns (complete: bool, dwBytes: nat)
      requires Valid() && !flushing
      modifies this`dwEnd, this`dwSize, this`mark
      ensures Valid() && var v := old(View());
              && (complete <==> v.mark == 0) && (complete ==> dwBytes == v.dwSize)
              && View() == if complete then v.(dwSize := 0, mark := -1) else v
      ensures mark != 0
    {
      hide Flags, ByteRing.Queued, RequestQueue.Valid;
      QueueEnds(q);
      if mark != -1 { MarkedBytes(q, mark); }
      complete, dwBytes := false, 0;
      if q.fbgn == dwEnd {
        dwBytes, complete := dwSize, true;
        dwSize, dwEnd, mark := 0, -1, -1;
      }
    }

    /** The request to flush: the first complete one, or the growing one if asked for. */
    method Choose(flushAll: bool) returns (n: nat, dual: bool)
      requires Valid() && !flushing
      modifies q`fend, q`slots
      ensures Valid() && View() == old(View())
      ensures n > 0 <==> |old(q.slots)| > 1 || (flushAll && old(View()).queued != [])
      ensures n > 0 ==> |q.slots| > 1 && n == q.slots[0].nflush && dual == q.slots[0].dual
      ensures |old(q.slots)| > 1 ==> q.slots == old(q.slots)
      ensures n == 0 ==> !dual
      ensures q.slots == old(q.slots) || q.slots == old(q.slots) + [EMPTY]
    {
      hide Flags, Repeat, RequestQueue.Valid, ByteRing.Queued, SlotsOk, Idx;
      n, dual := 0, false;
      ghost var s0 := q.slots;
      QueueEnds(q);
      if q.fbgn != q.fend {
        n, dual := q.fque[q.fbgn].nflush, q.fque[q.fbgn].dual;
      } else {
        OneQueued(q);
        if q.fque[q.fend].nflush > 0 && flushAll {
          n, dual := q.fque[q.fend].nflush, q.fque[q.fend].dual;
          var full := q.CloseGrowing();
          PrefixSame(s0, q.slots);
        }
      }
    }

    /** The first request is taken; if nothing is left before the wrap mark, reading continues at the beginning. */
    method StartFlush()
      requires Valid() && !flushing && |q.slots| > 1 && mark != 0
      modifies this`bound, this`flushing, ring`head, ring`last
      ensures Valid() && flushing && View() == old(View()).(first := q.slots[0].nflush) && Standing() == old(Standing()).Unwrapped()
    {
      hide Flags, Repeat, RequestQueue.Valid, ByteRing.Queued, SlotsOk, Idx;
      SomeQueued(q);
      if ring.head == ring.last { bound := 0; }
      ring.Unwrap();
      flushing := true;
    }

    /**
     * The first critical section of do_log_buff_flush: choose a request, and
     * report the end of a dual write when everything before it was flushed.
     */
    method FlushBegin(flushAll: bool) returns (n: nat, dual: bool, complete: bool, dwBytes: nat)
      requires Valid() && !flushing
      modifies this`dwEnd, this`dwSize, this`bound, this`mark, this`flushing, ring`head, ring`last, q`fend, q`slots
      ensures Valid() && var v := old(View());
              && (complete <==> v.mark == 0) && (complete ==> dwBytes == v.dwSize)
              && View() == if complete then v.(dwSize := 0, mark := -1, first := n) else v.(first := n)
      ensures n > 0 <==> |old(q.slots)| > 1 || (flushAll && old(View()).queued != [])
      ensures n <= |View().flags| && (n > 0 ==> View().flags[..n] == Repeat(dual, n))
      ensures View().mark != -1 ==> n <= View().mark
      ensures |old(q.slots)| > 1 ==> Standing() == old(Standing()).Unwrapped()
      ensures n == 0 ==> !dual
      ensures n > 0 ==> |q.slots| > 1 && n == q.slots[0].nflush
      ensures q.slots == old(q.slots) || q.slots == old(q.slots) + [EMPTY]
    {
      hide Flags, Repeat, Buffer.Valid, RequestQueue.Valid, ByteRing.Queued;
      complete, dwBytes := TakeMark();
      n, dual := Choose(flushAll);
      BufferShape(this);
      if n > 0 {
        StartFlush();
        BufferShape(this);
        FlagsFirst(q.slots);
        if mark != -1 { MarkedBytes(q, mark); }
      }
    }

    /** The bytes that cmdlog_file_write is given, read without the lock. */
    method Chunk() returns (bytes: seq<Byte>)
      requires Valid() && flushing
      ensures var v := View(); |bytes| == v.first <= |v.queued| && bytes == v.queued[..v.first]
    {
      hide Flags, Repeat, ByteRing.Queued, RequestQueue.Valid;
      QueueEnds(q);
      FirstFits(this);
      bytes := ring.Front(q.fque[q.fbgn].nflush);
    }

    /** The last critical section of do_log_buff_flush. */
    method FlushEnd()
      requires Valid() && flushing
      modifies this`bound, this`mark, this`flushing, ring`head, ring`last, q`fbgn, q`slots, q.fque
      ensures Valid() && q.slots == old(q.slots)[1..] && Standing() == old(Standing()).Dropped()
      ensures var v := old(View());
              && 0 < v.first <= |v.queued| && v.first <= |v.flags|
              && View() == v.(queued := v.queued[v.first..], flags := v.flags[v.first..],
                              mark := if v.mark == -1 then -1 else v.mark - v.first, first := 0)
    {
      hide Flags, Repeat, ByteRing.Queued, RequestQueue.Valid, SlotsOk, Idx, Stand.Dropped;
      ghost var s0, stand := q.slots, Standing();
      QueueEnds(q);
      FirstFits(this);
      FlagsFirst(s0);
      if bound > 0 { FlagsRetired(s0, bound); }
      if mark > 0 { FlagsRetired(s0, mark); }
      if mark > 0 { IdxShift(q.fbgn, q.fque.Length, mark); }
      ring.Drop(q.fque[q.fbgn].nflush);
      q.Retire();
      bound := if ring.last == -1 then 0 else bound - 1;
      if mark > 0 { mark := mark - 1; }
      flushing := false;
      DroppedIs(stand, Standing());
    }

    /** A checkpoint succeeded: what is written from here on belongs to the next file. */
    method CompleteDual() returns (full: bool)
      requires Valid() && mark == -1
      modifies this`dwEnd, this`mark, q`fend, q`slots
      ensures full <==> |old(q.slots)| == q.fque.Length && Last(old(q.slots)).nflush > 0
      ensures !full ==> Valid() && View() == old(View()).(mark := |old(View()).queued|)
      ensures !full ==> q.slots == old(q.slots) || q.slots == old(q.slots) + [EMPTY]
    {
      hide Flags, Repeat, RequestQueue.Valid, ByteRing.Queued, SlotsOk, Idx;
      QueueEnds(q);
      ghost var s0 := q.slots;
      full := q.CloseGrowing();
      if full { return; }
      assert s0 <= q.slots && q.slots[..bound] == s0[..bound];
      FlagsOpen(q.slots);
      QueueEnds(q);
      dwEnd := q.fend;
      mark := |q.slots| - 1;
    }

    /** A checkpoint failed: nothing queued goes to a second file any more. */
    method AbandonDual()
      requires Valid()
      modifies this`dwSize, q`slots, q.fque
      ensures Valid() && var v := old(View()); View() == v.(dwSize := 0, flags := Repeat(false, |v.flags|))
      ensures q.slots == Single(old(q.slots))
    {
      hide Flags, Repeat, RequestQueue.Valid, ByteRing.Queued, Single;
      dwSize := 0;
      ghost var s0 := q.slots;
      q.ClearDual();
      SingleFlags(s0);
      SingleTake(s0, bound);
      SingleFlags(s0[..bound]);
      if mark != -1 {
        SingleTake(s0, mark);
        SingleFlags(s0[..mark]);
      }
      if flushing { assert q.slots[0] == Freq(s0[0].nflush, false) by { SingleFirst(s0); } }
    }
  }

  /** Requests before the growing one stay what they are, and it does not shrink. */
  predicate Onward(a: seq<Freq>, b: seq<Freq>) {
    0 < |a| <= |b| && b[..|a| - 1] == a[..|a| - 1] && b[|a| - 1].nflush >= Last(a).nflush
  }

  lemma OnwardThrough(a: seq<Freq>, b: seq<Freq>, c: seq<Freq>)
    requires Onward(a, b) && Onward(b, c)
    ensures Onward(a, c)
  {
    assert c[..|a| - 1] == c[..|b| - 1][..|a| - 1];
    assert b[..|a| - 1] == b[..|b| - 1][..|a| - 1];
    if |a| < |b| { assert c[|a| - 1] == c[..|b| - 1][|a| - 1] == b[..|b| - 1][|a| - 1]; }
  }

  lemma OnwardSame(a: seq<Freq>, b: seq<Freq>)
    requires Onward(a, b)
    ensures forall k | 0 <= k < |a| :: b[..k] == a[..k]
    ensures |a| > 1 ==> b[0] == a[0]
  {
    PrefixSame(a, b);
  }

  lemma DividedSame(a: seq<Freq>, b: seq<Freq>, c: seq<Freq>)
    requires Flags(a) == Flags(b)
    ensures Divided(a, c) <==> Divided(b, c)
  {}

  /** Requests before the growing one stay what they are. */
  lemma PrefixSame(a: seq<Freq>, b: seq<Freq>)
    requires 0 < |a| <= |b| && b[..|a| - 1] == a[..|a| - 1]
    ensures forall k | 0 <= k < |a| :: b[..k] == a[..k]
    ensures |a| > 1 ==> b[0] == a[0]
  {
    forall k | 0 <= k < |a|
      ensures b[..k] == a[..k]
    {
      assert b[..k] == b[..|a| - 1][..k];
    }
    assert |a| > 1 ==> b[..|a| - 1][0] == a[0];
  }

  lemma SingleFirst(s: seq<Freq>)
    requires s != []
    ensures Single(s)[0] == Freq(s[0].nflush, false)
  {}

  lemma BufferShape(b: Buffer)
    requires b.Valid()
    ensures b.ring.Valid() && b.q.Valid() && 0 < |b.q.slots| <= b.q.fque.Length
    ensures -1 <= b.mark < |b.q.slots| && (b.flushing ==> |b.q.slots| > 1 && b.mark != 0)
  {}

  lemma SingleTake(s: seq<Freq>, k: nat)
    requires k <= |s|
    ensures Single(s)[..k] == Single(s[..k])
  {}

  lemma IdxShift(first: nat, length: nat, k: nat)
    requires first < length && 0 < k <= length
    ensures Idx(first, length, 1) >= 0 && Idx(Idx(first, length, 1), length, k - 1) == Idx(first, length, k)
  {}

  /** Every request before the last is for some byte. */
  lemma MarkedBytes(q: RequestQueue, k: nat)
    requires q.Valid() && k < |q.slots|
    ensures |Flags(q.slots[..k])| == 0 <==> k == 0
    ensures k > 0 ==> q.slots[0].nflush <= |Flags(q.slots[..k])|
  {
    if k > 0 { FlagsFirst(q.slots[..k]); }
  }

  /** Both ends of the request queue, in the array. */
  lemma QueueEnds(q: RequestQueue)
    requires q.Valid()
    ensures 0 < |q.slots| <= q.fque.Length && q.fbgn < q.fque.Length && q.fend < q.fque.Length && q.fque.Length > 1
    ensures q.fque[q.fbgn] == q.slots[0] && q.fque[q.fend] == q.slots[|q.slots| - 1]
    ensures q.fend == Idx(q.fbgn, q.fque.Length, |q.slots| - 1) && (q.fbgn == q.fend <==> |q.slots| == 1)
    ensures |q.slots| > 1 ==> q.slots[0].nflush > 0
  {
    assert q.fque[Idx(q.fbgn, q.fque.Length, 0)] == q.slots[0];
  }

  /** The request being flushed lies on one side of the wrap mark. */
  lemma FirstFits(lb: Buffer)
    requires lb.Valid() && lb.flushing
    ensures lb.ring.head + lb.q.slots[0].nflush <= (if lb.ring.last == -1 then lb.ring.tail else lb.ring.last)
    ensures lb.ring.last != -1 ==> lb.bound > 0
  {
    hide Repeat, ByteRing.Queued;
    FlagsFirst(lb.q.slots);
    if lb.ring.last != -1 {
      FlagsNone(lb.q.slots);
      FlagsRetired(lb.q.slots, lb.bound);
    }
  }

  lemma FlagsNone(s: seq<Freq>)
    ensures Flags(s[..0]) == []
  {}

  // Range markers have no body: they are half as long as the shortest record that the ring of requests is made for.

  /** Records that go to two files and records that do not, in turn: a range marker, then the shortest record of an item. */
  function Alternating(i: nat): (rec: seq<Byte>)
    ensures |rec| == if i % 2 == 0 then 8 else 16
  {
    seq(if i % 2 == 0 then 8 else 16, _ => 0)
  }

  /** How many bytes the first `i` of them take. */
  function AlternatingSize(i: nat): nat { 12 * i - if i % 2 == 0 then 0 else 4 }

  /** After `i` of them, each is a request of its own. */
  ghost predicate AloneEach(s: seq<Freq>, i: nat) {
    if i == 0 then s == [EMPTY] else |s| == i && 0 < Last(s).nflush < AUTO && Last(s).dual == (i % 2 == 1)
  }

  lemma AloneNext(a: seq<Freq>, b: seq<Freq>, i: nat)
    requires AloneEach(a, i) && a != [] && b != []
    ensures Taken(a, |Alternating(i)|, i % 2 == 0) == i + 1
    ensures Queues(a, b, |Alternating(i)|, i % 2 == 0) ==> AloneEach(b, i + 1)
  {}

  /** The first `i` of them are in the buffer, and nothing was flushed. */
  ghost predicate Filled(b: Buffer, i: nat)
    reads b.Repr()
  {
    && b.Valid() && b.ring.head == 0 && |b.ring.Queued()| == AlternatingSize(i) && b.q.slots != [] && AloneEach(b.q.slots, i)
    && b.ring.data.Length >= 64 && b.maxRec >= 16 && b.q.fque.Length == b.ring.data.Length / 16
  }

  method WriteNext(b: Buffer, i: nat)
    requires Filled(b, i) && i < b.q.fque.Length
    modifies b`dwSize, b`bound, b.ring`tail, b.ring`last, b.ring.data, b.q`fend, b.q`slots, b.q.fque
    ensures Filled(b, i + 1)
  {
    hide Flags, Repeat, RequestQueue.Valid, ByteRing.Queued, Taken, Queues, Divided, AloneEach, Onward, Alternating;
    ghost var s := b.q.slots;
    AlternatingFits(b.ring.data.Length, i);
    AloneNext(s, s, i);
    QueueEnds(b.q);
    assert b.RoomFor(|Alternating(i)|) && b.Before(|Alternating(i)|) == s;
    var r := b.TryWrite(Alternating(i), i % 2 == 0);
    QueueEnds(b.q);
    AloneNext(s, b.q.slots, i);
  }

  /**
   * While a checkpoint scans and nothing is flushed, deletions of single
   * elements from an item it has not visited, each in a range, with unlinks of
   * other such items in between, use up the requests when three quarters of the
   * bytes are in use. There is room for the next record, and the ring runs over.
   */
  method MarkersRunOver(size: nat, maxRec: nat) returns (b: Buffer)
    requires size >= 64 && maxRec >= 16
    ensures b.Valid() && fresh(b.Repr()) && b.ring.data.Length == size && b.q.fque.Length == size / 16
    ensures |b.View().queued| <= 12 * (size / 16)
    ensures var i := size / 16; b.RoomFor(|Alternating(i)|) && b.RunsOver(|Alternating(i)|, i % 2 == 0)
  {
    hide Flags, Repeat, RequestQueue.Valid, Taken, Queues, AloneEach;
    b := new Buffer(size, maxRec);
    EmptyAlone();
    var i := 0;
    while i < size / 16
      invariant i <= size / 16 && fresh(b.Repr()) && b.ring.data.Length == size && Filled(b, i)
    {
      WriteNext(b, i);
      i := i + 1;
    }
    AlternatingFits(size, i);
    AloneNext(b.q.slots, b.q.slots, i);
  }

  lemma AlternatingFits(size: nat, i: nat)
    requires size >= 64 && i <= size / 16
    ensures AlternatingSize(i) + |Alternating(i)| < size
  {}

  lemma EmptyAlone()
    ensures AloneEach([EMPTY], 0)
  {}
}
