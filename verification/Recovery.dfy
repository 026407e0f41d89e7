/**
 * Applying a command log file after a restart (engines/default/cmdlogfile.c).
 * A record is an opaque image behind an eight-byte header; redoing one is
 * appending it to the list of redone records.
 */
module Recovery {
  import opened Options
  import opened Octets

  const HDR: nat := 8

  /** MAX_LOG_RECORD_SIZE. */
  const MAX_RECORD: nat := 2 * 1024 * 1024

  /** LOG_OPERATION_BEGIN and LOG_OPERATION_END. */
  const BEGIN: Byte := 13
  const END: Byte := 14

  datatype Rec = Rec(logtype: Byte, updtype: Byte, res0: Byte, res1: Byte, body: seq<Byte>)

  predicate Marker(r: Rec) { r.logtype == BEGIN || r.logtype == END }

  /** The image of a record: header with little-endian body length, then the body. */
  function Encode(r: Rec): (b: seq<Byte>)
    requires |r.body| <= MAX_RECORD
    ensures |b| == HDR + |r.body|
  {
    var n := |r.body|;
    [r.logtype, r.updtype, r.res0, r.res1, n % 256, n / 256 % 256, n / 65536 % 256, n / 16777216] + r.body
  }

  /** The layout of an image: type, update type, two reserved bytes, the length of the body with the low byte first, the body. */
  lemma EncodeLayout(r: Rec)
    requires |r.body| <= MAX_RECORD
    ensures var b := Encode(r);
            && |b| == 8 + |r.body| && b[0] == r.logtype && b[1] == r.updtype && b[2] == r.res0 && b[3] == r.res1
            && b[4] as int + 256 * (b[5] as int) + 65536 * (b[6] as int) + 16777216 * (b[7] as int) == |r.body| && b[8..] == r.body
  {
    LittleEndian(|r.body|);
    assert Encode(r)[8..] == r.body;
  }

  /** A record as the server writes it. */
  predicate RecOk(r: Rec) {
    HDR + |r.body| <= MAX_RECORD && (Marker(r) <==> r.body == [])
  }

  predicate RecsOk(rs: seq<Rec>) { forall i | 0 <= i < |rs| :: RecOk(rs[i]) }

  function Image(rs: seq<Rec>): seq<Byte>
    requires RecsOk(rs)
  {
    if rs == [] then [] else Encode(rs[0]) + Image(rs[1..])
  }

  function LengthAt(file: seq<Byte>, off: nat): nat
    requires off + HDR <= |file|
  {
    var b0: int, b1: int, b2: int, b3: int := file[off + 4], file[off + 5], file[off + 6], file[off + 7];
    b0 + 256 * b1 + 65536 * b2 + 16777216 * b3
  }

  predicate Readable(file: seq<Byte>, off: nat) {
    off + HDR <= |file| && off + HDR + LengthAt(file, off) <= |file|
  }

  function RecAt(file: seq<Byte>, off: nat): Rec
    requires Readable(file, off)
  {
    Rec(file[off], file[off + 1], file[off + 2], file[off + 3], file[off + HDR..off + HDR + LengthAt(file, off)])
  }

  /** The records of a range, and where reading them ended. */
  datatype Range = Broken | Range(recs: seq<Rec>, at: nat)

  function Ahead(rs: seq<Rec>, r: Range): Range {
    if r.Broken? then Broken else Range(rs + r.recs, r.at)
  }

  function Bodied(r: Rec): seq<Rec> { if r.body != [] then [r] else [] }

  /** Reading a range: records without a body are not redone. */
  function ReadRange(file: seq<Byte>, off: nat, end: nat): (r: Range)
    ensures r.Range? ==> r.at >= end
    decreases end - off
  {
    if off >= end then Range([], off)
    else if !Readable(file, off) then Broken
    else Ahead(Bodied(RecAt(file, off)), ReadRange(file, off + HDR + LengthAt(file, off), end))
  }

  /** What recovery did: whether it succeeded, what it redid, and where the log resumes. */
  datatype Outcome = Failed | Applied(redone: seq<Rec>, size: nat)

  function More(rs: seq<Rec>, o: Outcome): Outcome {
    if o.Failed? then Failed else Applied(rs + o.redone, o.size)
  }

  /**
   * Reading on with the offset at `seek`, the file position at `pos` and an
   * open range at `start`, if any.
   */
  function Scan(file: seq<Byte>, seek: nat, pos: nat, start: Option<nat>): Outcome
    requires seek <= pos
    decreases |file| - seek
  {
    if |file| < seek + HDR then Applied([], seek)
    else if |file| < pos + HDR then Failed
    else
      var n := LengthAt(file, pos);
      if file[pos] == BEGIN then
        if start.Some? then Failed else Scan(file, seek + HDR, pos + HDR, Some(seek + HDR))
      else if file[pos] == END then
        if start.None? then Failed
        else
          var held := ReadRange(file, start.value + pos - seek, seek + HDR);
          if held.Broken? then Failed else More(held.recs, Scan(file, seek + HDR, held.at, None))
      else if |file| < seek + HDR + n then Applied([], pos)
      else if MAX_RECORD < HDR + n || !Readable(file, pos) then Failed
      else More(if start.Some? then [] else [RecAt(file, pos)], Scan(file, seek + HDR + n, pos + HDR + n, start))
  }

  function Recover(file: seq<Byte>): Outcome { Scan(file, 0, 0, None) }

  lemma RangeMore(redone: seq<Rec>, file: seq<Byte>, off: nat, end: nat)
    requires off < end && Readable(file, off)
    ensures var n := LengthAt(file, off);
            Ahead(redone, ReadRange(file, off, end)) ==
              Ahead(if n > 0 then redone + [RecAt(file, off)] else redone, ReadRange(file, off + HDR + n, end))
  {
    hide LengthAt;
    var r := ReadRange(file, off + HDR + LengthAt(file, off), end);
    if r.Range? {
      assert redone + (Bodied(RecAt(file, off)) + r.recs) == redone + Bodied(RecAt(file, off)) + r.recs;
    }
  }

  /** do_redo_pending_lrec. */
  method RedoPending(file: seq<Byte>, from: nat, end: nat) returns (ok: bool, redone: seq<Rec>, at: nat)
    ensures ok <==> ReadRange(file, from, end).Range?
    ensures ok ==> ReadRange(file, from, end) == Range(redone, at)
  {
    hide LengthAt, RecAt;
    ok, redone, at := true, [], from;
    while at < end
      invariant Ahead(redone, ReadRange(file, at, end)) == ReadRange(file, from, end)
    {
      if |file| < at + HDR {
        ok := false;
        return;
      }
      var n := LengthAt(file, at);
      if |file| < at + HDR + n {
        ok := false;
        return;
      }
      RangeMore(redone, file, at, end);
      if n > 0 {
        redone := redone + [RecAt(file, at)];
      }
      at := at + HDR + n;
    }
  }

  lemma MoreTwice(a: seq<Rec>, b: seq<Rec>, o: Outcome)
    ensures More(a, More(b, o)) == More(a + b, o)
  {
    if o.Applied? { assert a + (b + o.redone) == a + b + o.redone; }
  }

  lemma MoreNone(o: Outcome)
    ensures More([], o) == o
  {}

  /** One record of the scan. */
  lemma ScanOnce(file: seq<Byte>, seek: nat, pos: nat, start: Option<nat>)
    requires seek <= pos && seek + HDR <= |file|
    ensures Scan(file, seek, pos, start) ==
              if |file| < pos + HDR then Failed
              else
                var n := LengthAt(file, pos);
                if file[pos] == BEGIN then
                  if start.Some? then Failed else Scan(file, seek + HDR, pos + HDR, Some(seek + HDR))
                else if file[pos] == END then
                  if start.None? then Failed
                  else
                    var held := ReadRange(file, start.value + pos - seek, seek + HDR);
                    if held.Broken? then Failed else More(held.recs, Scan(file, seek + HDR, held.at, None))
                else if |file| < seek + HDR + n then Applied([], pos)
                else if MAX_RECORD < HDR + n || !Readable(file, pos) then Failed
                else More(if start.Some? then [] else [RecAt(file, pos)], Scan(file, seek + HDR + n, pos + HDR + n, start))
  {
    hide LengthAt, RecAt, ReadRange;
  }

  lemma ScanDone(file: seq<Byte>, seek: nat, pos: nat, start: Option<nat>)
    requires seek <= pos && |file| < seek + HDR
    ensures Scan(file, seek, pos, start) == Applied([], seek)
  {}

  /** Offsets are of type int: from here on they overflow. */
  const INT_LIMIT: nat := 0x8000_0000

  /** The offset counted while reading on, or the one at which the log is to resume, overflows. */
  predicate Overflows(file: seq<Byte>, seek: nat, pos: nat, start: Option<nat>)
    requires seek <= pos
    decreases |file| - seek
  {
    if |file| < seek + HDR || |file| < pos + HDR then false
    else if seek + HDR >= INT_LIMIT then true
    else
      var n := LengthAt(file, pos);
      if file[pos] == BEGIN then start.None? && Overflows(file, seek + HDR, pos + HDR, Some(seek + HDR))
      else if file[pos] == END then
        start.Some? && var held := ReadRange(file, start.value + pos - seek, seek + HDR);
        held.Range? && Overflows(file, seek + HDR, held.at, None)
      else if |file| < seek + HDR + n then pos >= INT_LIMIT
      else MAX_RECORD >= HDR + n && Readable(file, pos) &&
           (seek + HDR + n >= INT_LIMIT || Overflows(file, seek + HDR + n, pos + HDR + n, start))
  }

  /** What cmdlog_file_apply returns, or that an offset overflowed. */
  datatype Status = Success | Failure | Overflow

  /** cmdlog_file_apply. */
  method Apply(file: seq<Byte>) returns (status: Status, redone: seq<Rec>, size: nat)
    ensures status == Overflow <==> Overflows(file, 0, 0, None)
    ensures status == Overflow ==> |file| >= INT_LIMIT
    ensures status == Success ==> Recover(file) == Applied(redone, size) && size < INT_LIMIT
    ensures status == Failure ==> Recover(file) == Failed
  {
    hide LengthAt, RecAt, ReadRange, Scan;
    status, redone, size := Success, [], 0;
    var seek: nat, pos: nat := 0, 0;
    var start: Option<nat> := None;
    MoreNone(Recover(file));
    while seek < |file|
      invariant status == Success && seek <= pos && seek < INT_LIMIT
      invariant More(redone, Scan(file, seek, pos, start)) == Recover(file)
      invariant Overflows(file, seek, pos, start) <==> Overflows(file, 0, 0, None)
      decreases |file| - seek
    {
      if |file| - seek < HDR { break; }
      ScanOnce(file, seek, pos, start);
      if |file| < pos + HDR { return Failure, redone, size; }
      if seek + HDR >= INT_LIMIT { return Overflow, redone, size; }
      var n := LengthAt(file, pos);
      if file[pos] == BEGIN {
        if start.Some? { return Failure, redone, size; }
        seek, pos := seek + HDR, pos + HDR;
        start := Some(seek);
      } else if file[pos] == END {
        if start.None? { return Failure, redone, size; }
        var done, held, at := RedoPending(file, start.value + pos - seek, seek + HDR);
        if !done { return Failure, redone, size; }
        MoreTwice(redone, held, Scan(file, seek + HDR, at, None));
        redone := redone + held;
        seek, pos, start := seek + HDR, at, None;
      } else {
        if |file| - (seek + HDR) < n {
          if pos >= INT_LIMIT { return Overflow, redone, size; }
          return Success, redone, pos;
        }
        if MAX_RECORD - HDR < n || |file| < pos + HDR + n { return Failure, redone, size; }
        if seek + HDR + n >= INT_LIMIT { return Overflow, redone, size; }
        var one := if start.Some? then [] else [RecAt(file, pos)];
        MoreTwice(redone, one, Scan(file, seek + HDR + n, pos + HDR + n, start));
        redone := redone + one;
        seek, pos := seek + HDR + n, pos + HDR + n;
      }
    }
    ScanDone(file, seek, pos, start);
    size := seek;
  }

  lemma LittleEndian(n: nat)
    requires n <= MAX_RECORD
    ensures n % 256 + 256 * (n / 256 % 256) + 65536 * (n / 65536 % 256) + 16777216 * (n / 16777216) == n
  {
    assert n / 65536 < 256 && n / 16777216 == 0;
    assert n / 256 == n / 65536 * 256 + n / 256 % 256;
  }

  /** The header can be read as soon as its eight bytes are there. */
  lemma HeaderRead(file: seq<Byte>, off: nat, r: Rec, rest: seq<Byte>)
    requires |r.body| <= MAX_RECORD && off + HDR <= |file| && file[off..] <= Encode(r) + rest
    ensures LengthAt(file, off) == |r.body| && file[off] == r.logtype
  {
    var e := Encode(r) + rest;
    assert forall k | 0 <= k < HDR :: file[off + k] == file[off..][k] == e[k];
    LittleEndian(|r.body|);
  }

  /** A complete image reads back as its record. */
  lemma RecordRead(file: seq<Byte>, off: nat, r: Rec, rest: seq<Byte>)
    requires |r.body| <= MAX_RECORD && off + HDR + |r.body| <= |file| && file[off..] <= Encode(r) + rest
    ensures Readable(file, off) && LengthAt(file, off) == |r.body| && RecAt(file, off) == r && file[off] == r.logtype
    ensures file[off + HDR + |r.body|..] <= rest
  {
    hide LengthAt;
    HeaderRead(file, off, r, rest);
    var e, n := Encode(r) + rest, HDR + |r.body|;
    assert forall k | 0 <= k < HDR :: file[off + k] == file[off..][k] == e[k];
    assert file[off + HDR..off + n] == file[off..][HDR..n] == e[HDR..n] == r.body;
    assert file[off + n..] == file[off..][n..] && e[n..] == rest;
  }

  /** The records whose images are complete within `n` bytes. */
  function Complete(rs: seq<Rec>, n: nat): (c: seq<Rec>)
    requires RecsOk(rs)
    ensures RecsOk(c)
  {
    if rs == [] || n < HDR + |rs[0].body| then [] else [rs[0]] + Complete(rs[1..], n - HDR - |rs[0].body|)
  }

  /** They are the longest prefix of the log that fits. */
  lemma {:induction false} CompleteLongest(rs: seq<Rec>, n: nat)
    requires RecsOk(rs)
    ensures var c := Complete(rs, n);
            && c <= rs && RecsOk(c) && |Image(c)| <= n
            && (|c| < |rs| ==> n < |Image(c)| + HDR + |rs[|c|].body|)
  {
    if rs != [] && n >= HDR + |rs[0].body| {
      CompleteLongest(rs[1..], n - HDR - |rs[0].body|);
      assert Complete(rs, n)[1..] == Complete(rs[1..], n - HDR - |rs[0].body|);
    }
  }

  /** Ranges are not nested, and every END closes one. */
  predicate WellFormed(rs: seq<Rec>, open: bool) {
    if rs == [] then true
    else if rs[0].logtype == BEGIN then !open && WellFormed(rs[1..], true)
    else if rs[0].logtype == END then open && WellFormed(rs[1..], false)
    else WellFormed(rs[1..], open)
  }

  function Before(rs: seq<Rec>, o: Option<seq<Rec>>): Option<seq<Rec>> {
    if o.None? then None else Some(rs + o.value)
  }

  /** Replaying records one after the other, holding back those of an open range; markers out of place are an error. */
  function Redo(rs: seq<Rec>, open: bool, held: seq<Rec>): Option<seq<Rec>> {
    if rs == [] then Some([])
    else if rs[0].logtype == BEGIN then (if open then None else Redo(rs[1..], true, []))
    else if rs[0].logtype == END then (if open then Before(held, Redo(rs[1..], false, [])) else None)
    else if open then Redo(rs[1..], true, held + [rs[0]])
    else Before([rs[0]], Redo(rs[1..], false, []))
  }

  predicate Bodies(rs: seq<Rec>) { forall i | 0 <= i < |rs| :: RecOk(rs[i]) && !Marker(rs[i]) }

  /** A range reads back as its records; the END that closes it has no body. */
  lemma {:induction false} RangeRead(file: seq<Byte>, off: nat, rs: seq<Rec>, end: nat)
    requires Bodies(rs) && off + |Image(rs)| == end - HDR && end <= |file| && file[off..] <= Image(rs) + file[end - HDR..]
    requires LengthAt(file, end - HDR) == 0
    ensures ReadRange(file, off, end) == Range(rs, end)
    decreases |rs|
  {
    hide LengthAt, Encode, Image, RecAt;
    if rs == [] {
      ImageNone();
      RangeClosed(file, off);
    } else {
      ImageFirst(rs);
      var rest := Image(rs[1..]) + file[end - HDR..];
      assert Image(rs) + file[end - HDR..] == Encode(rs[0]) + rest;
      RecordRead(file, off, rs[0], rest);
      RangeRead(file, off + HDR + |rs[0].body|, rs[1..], end);
      assert [rs[0]] + rs[1..] == rs;
    }
  }

  lemma RangeClosed(file: seq<Byte>, off: nat)
    requires off + HDR <= |file| && LengthAt(file, off) == 0
    ensures ReadRange(file, off, off + HDR) == Range([], off + HDR)
  {
    hide LengthAt;
  }

  lemma {:induction false} ImageSnoc(rs: seq<Rec>, r: Rec)
    requires RecsOk(rs) && RecOk(r)
    ensures RecsOk(rs + [r]) && Image(rs + [r]) == Image(rs) + Encode(r)
  {
    hide Encode;
    if rs == [] {
      assert [r][1..] == [];
      assert Image([r]) == Encode(r) + [];
    } else {
      ImageSnoc(rs[1..], r);
      assert (rs + [r])[1..] == rs[1..] + [r];
      assert Encode(rs[0]) + (Image(rs[1..]) + Encode(r)) == Encode(rs[0]) + Image(rs[1..]) + Encode(r);
    }
  }

  /** What `Scan` makes of records replayed from offset `off`. */
  function Told(o: Option<seq<Rec>>, size: nat): Outcome {
    if o.None? then Failed else Applied(o.value, size)
  }

  /** How one complete record moves the scan on. */
  lemma ScanStep(file: seq<Byte>, off: nat, r: Rec, start: Option<nat>, held: seq<Rec>)
    requires RecOk(r) && Readable(file, off) && LengthAt(file, off) == |r.body| && RecAt(file, off) == r && file[off] == r.logtype
    requires start.Some? && r.logtype == END ==> start.value <= off && ReadRange(file, start.value, off + HDR) == Range(held, off + HDR)
    ensures var next := off + HDR + |r.body|;
            Scan(file, off, off, start) ==
              if r.logtype == BEGIN then (if start.Some? then Failed else Scan(file, next, next, Some(next)))
              else if r.logtype == END then (if start.Some? then More(held, Scan(file, next, next, None)) else Failed)
              else if start.Some? then Scan(file, next, next, start)
              else More([r], Scan(file, next, next, None))
  {
    hide LengthAt, RecAt, ReadRange;
    if start.Some? && !Marker(r) {
      var next := off + HDR + |r.body|;
      MoreNone(Scan(file, next, next, start));
    }
  }

  /** A record that is cut off ends the scan. */
  lemma ScanEnds(file: seq<Byte>, off: nat, rs: seq<Rec>, start: Option<nat>)
    requires RecsOk(rs) && off <= |file| && file[off..] <= Image(rs)
    requires rs == [] || |file| < off + HDR + |rs[0].body|
    ensures Scan(file, off, off, start) == Applied([], off)
  {
    hide LengthAt, RecAt, ReadRange, Encode;
    if rs != [] && off + HDR <= |file| {
      HeaderRead(file, off, rs[0], Image(rs[1..]));
    }
  }

  /** Scanning a cut-off log is replaying its complete records. */
  lemma {:induction false} ScanReads(file: seq<Byte>, off: nat, rs: seq<Rec>, start: Option<nat>, held: seq<Rec>)
    requires RecsOk(rs) && off <= |file| && file[off..] <= Image(rs)
    requires start.Some? ==> start.value <= off && Bodies(held) && file[start.value..off] == Image(held)
    ensures var c := Complete(rs, |file| - off);
            RecsOk(c) && Scan(file, off, off, start) == Told(Redo(c, start.Some?, held), off + |Image(c)|)
    decreases |rs|
  {
    hide LengthAt, Encode, Image, Scan, RecAt, ReadRange, Readable, Complete;
    ImageNone();
    if rs == [] || |file| < off + HDR + |rs[0].body| {
      CompleteNone(rs, |file| - off);
      ScanEnds(file, off, rs, start);
    } else {
      var r, rest := rs[0], Image(rs[1..]);
      ImageFirst(rs);
      var next := off + HDR + |r.body|;
      RecordRead(file, off, r, rest);
      CompleteFirst(rs, |file| - off);
      if start.Some? && r.logtype == END { HeldRead(file, start.value, off, held); }
      ScanStep(file, off, r, start, held);
      if r.logtype == BEGIN {
        assert file[next..next] == [];
        ScanReads(file, next, rs[1..], Some(next), []);
      } else if r.logtype != END && start.Some? {
        HeldMore(file, start.value, off, held, r, rest);
        ScanReads(file, next, rs[1..], start, held + [r]);
      } else {
        ScanReads(file, next, rs[1..], None, []);
      }
    }
  }

  /** A cut-off log overflows exactly if its complete records reach the limit, or the header of the one that is cut off does. */
  lemma {:induction false} OverflowsCut(file: seq<Byte>, off: nat, rs: seq<Rec>, start: Option<nat>, held: seq<Rec>)
    requires RecsOk(rs) && off <= |file| && file[off..] <= Image(rs) && off < INT_LIMIT
    requires start.Some? ==> start.value <= off && Bodies(held) && file[start.value..off] == Image(held)
    requires WellFormed(Complete(rs, |file| - off), start.Some?)
    ensures var c := Complete(rs, |file| - off);
            RecsOk(c) && var e := off + |Image(c)|;
            Overflows(file, off, off, start) <==> e >= INT_LIMIT || (e + HDR <= |file| && e + HDR >= INT_LIMIT)
    decreases |rs|
  {
    hide LengthAt, Encode, Image, RecAt, ReadRange, Complete, Overflows;
    ImageNone();
    if rs == [] || |file| < off + HDR + |rs[0].body| {
      CompleteNone(rs, |file| - off);
      OverflowEnds(file, off, rs, start);
    } else {
      var r, rest := rs[0], Image(rs[1..]);
      ImageFirst(rs);
      var next := off + HDR + |r.body|;
      RecordRead(file, off, r, rest);
      CompleteFirst(rs, |file| - off);
      if start.Some? && r.logtype == END { HeldRead(file, start.value, off, held); }
      OverflowStep(file, off, r, start);
      if next < INT_LIMIT {
        if r.logtype == BEGIN {
          assert file[next..next] == [];
          OverflowsCut(file, next, rs[1..], Some(next), []);
        } else if r.logtype != END && start.Some? {
          HeldMore(file, start.value, off, held, r, rest);
          OverflowsCut(file, next, rs[1..], start, held + [r]);
        } else {
          OverflowsCut(file, next, rs[1..], None, []);
        }
      }
    }
  }

  lemma OverflowStep(file: seq<Byte>, off: nat, r: Rec, start: Option<nat>)
    requires RecOk(r) && Readable(file, off) && LengthAt(file, off) == |r.body| && file[off] == r.logtype
    requires r.logtype == BEGIN ==> start.None?
    requires r.logtype == END ==>
               start.Some? && start.value <= off && var held := ReadRange(file, start.value, off + HDR); held.Range? && held.at == off + HDR
    ensures var next := off + HDR + |r.body|;
            Overflows(file, off, off, start) <==>
              next >= INT_LIMIT || Overflows(file, next, next, if r.logtype == BEGIN then Some(next) else if r.logtype == END then None else start)
  {
    hide LengthAt, ReadRange;
  }

  lemma OverflowEnds(file: seq<Byte>, off: nat, rs: seq<Rec>, start: Option<nat>)
    requires RecsOk(rs) && off <= |file| && file[off..] <= Image(rs) && off < INT_LIMIT
    requires rs == [] || |file| < off + HDR + |rs[0].body|
    ensures Overflows(file, off, off, start) <==> off + HDR <= |file| && off + HDR >= INT_LIMIT
  {
    hide LengthAt, RecAt, ReadRange, Encode;
    if rs != [] && off + HDR <= |file| {
      HeaderRead(file, off, rs[0], Image(rs[1..]));
    }
  }

  lemma CompleteNone(rs: seq<Rec>, n: nat)
    requires RecsOk(rs) && (rs == [] || n < HDR + |rs[0].body|)
    ensures Complete(rs, n) == []
  {}

  lemma ImageNone()
    ensures Image([]) == []
  {}

  lemma ImageFirst(rs: seq<Rec>)
    requires RecsOk(rs) && rs != []
    ensures RecsOk(rs[1..]) && Image(rs) == Encode(rs[0]) + Image(rs[1..])
  {}

  lemma CompleteFirst(rs: seq<Rec>, n: nat)
    requires RecsOk(rs) && rs != [] && HDR + |rs[0].body| <= n
    ensures var c, d := Complete(rs, n), Complete(rs[1..], n - HDR - |rs[0].body|);
            c == [rs[0]] + d && c[1..] == d && RecsOk(c) && RecsOk(d) && |Image(c)| == HDR + |rs[0].body| + |Image(d)|
  {
    CompleteLongest(rs, n);
    CompleteLongest(rs[1..], n - HDR - |rs[0].body|);
    var d := Complete(rs[1..], n - HDR - |rs[0].body|);
    assert ([rs[0]] + d)[1..] == d;
  }

  lemma HeldRead(file: seq<Byte>, start: nat, off: nat, held: seq<Rec>)
    requires Bodies(held) && start <= off && off + HDR <= |file| && file[start..off] == Image(held) && LengthAt(file, off) == 0
    ensures ReadRange(file, start, off + HDR) == Range(held, off + HDR)
  {
    hide LengthAt, Image;
    assert file[start..] == file[start..off] + file[off..];
    RangeRead(file, start, held, off + HDR);
  }

  lemma HeldMore(file: seq<Byte>, start: nat, off: nat, held: seq<Rec>, r: Rec, rest: seq<Byte>)
    requires Bodies(held) && RecOk(r) && !Marker(r) && start <= off && off + HDR + |r.body| <= |file|
    requires file[start..off] == Image(held) && file[off..] <= Encode(r) + rest
    ensures Bodies(held + [r]) && file[start..off + HDR + |r.body|] == Image(held + [r])
  {
    hide Encode;
    ImageSnoc(held, r);
    var n := HDR + |r.body|;
    assert file[off..off + n] == file[off..][..n] == (Encode(r) + rest)[..n] == Encode(r);
    assert file[start..off + n] == file[start..off] + file[off..off + n];
  }

  predicate Ends(rs: seq<Rec>, i: int) { 0 <= i < |rs| && rs[i].logtype == END }

  predicate Begins(rs: seq<Rec>, i: int) { 0 <= i < |rs| && rs[i].logtype == BEGIN }

  /** Every range that begins before `i` has its END before `n`. */
  predicate ClosedBefore(rs: seq<Rec>, i: nat, n: nat) {
    forall b | 0 <= b < i && Begins(rs, b) :: exists e :: b < e < n && Ends(rs, e)
  }

  /** Record `i` lies outside all ranges or in one whose END is present. */
  predicate Settled(rs: seq<Rec>, i: nat)
    requires i < |rs|
  {
    !Marker(rs[i]) && ClosedBefore(rs, i, |rs|)
  }

  /** The settled ones among the first `n` records, in order. */
  function Selected(rs: seq<Rec>, n: nat): seq<Rec>
    requires n <= |rs|
  {
    if n == 0 then [] else Selected(rs, n - 1) + if Settled(rs, n - 1) then [rs[n - 1]] else []
  }

  lemma {:induction false} SelectedNone(rs: seq<Rec>, b: nat, n: nat)
    requires b < n <= |rs| && Begins(rs, b) && forall i | b < i < |rs| :: !Marker(rs[i])
    ensures Selected(rs, n) == Selected(rs, b)
  {
    if n - 1 > b {
      SelectedNone(rs, b, n - 1);
      assert !ClosedBefore(rs, n - 1, |rs|);
    }
  }

  /** Once its END is present, a range is settled as a whole. */
  lemma {:induction false} SelectedRange(rs: seq<Rec>, b: nat, k: nat, n: nat)
    requires b < n <= k < |rs| && Begins(rs, b) && Ends(rs, k) && forall i | b < i < k :: !Marker(rs[i])
    ensures Selected(rs, n) == Selected(rs, b) + rs[b + 1..n]
  {
    if n - 1 > b {
      SelectedRange(rs, b, k, n - 1);
      assert ClosedBefore(rs, n - 1, |rs|);
      assert rs[b + 1..n] == rs[b + 1..n - 1] + [rs[n - 1]];
    }
  }

  lemma RedoStep(rs: seq<Rec>, k: nat, open: bool, held: seq<Rec>)
    requires k < |rs| && WellFormed(rs[k..], open)
    ensures var r, rest := rs[k], rs[k + 1..];
            if r.logtype == BEGIN then !open && WellFormed(rest, true) && Redo(rs[k..], open, held) == Redo(rest, true, [])
            else if r.logtype == END then open && WellFormed(rest, false) && Redo(rs[k..], open, held) == Before(held, Redo(rest, false, []))
            else
              && WellFormed(rest, open)
              && Redo(rs[k..], open, held) == if open then Redo(rest, true, held + [r]) else Before([r], Redo(rest, false, []))
  {
    assert rs[k..][0] == rs[k] && rs[k..][1..] == rs[k + 1..];
  }

  lemma SelectedNext(rs: seq<Rec>, k: nat)
    requires k < |rs|
    ensures Selected(rs, k + 1) == Selected(rs, k) + if Settled(rs, k) then [rs[k]] else []
  {}

  lemma Regroup(a: seq<Rec>, b: seq<Rec>, c: seq<Rec>)
    ensures a + (b + c) == a + b + c
  {}

  /** The records that replaying holds back at record `k`. */
  function Held(rs: seq<Rec>, k: nat, b: int): seq<Rec>
    requires -1 <= b < k <= |rs|
  {
    if b >= 0 then rs[b + 1..k] else []
  }

  /** The END of a range settles it. */
  lemma SelectedEnd(rs: seq<Rec>, k: nat, b: nat)
    requires b < k < |rs| && rs[k].logtype == END && ClosedBefore(rs, b, k) && Begins(rs, b) && forall i | b < i < k :: !Marker(rs[i])
    ensures Selected(rs, k + 1) == Selected(rs, b) + Held(rs, k, b) && ClosedBefore(rs, k + 1, k + 1)
  {
    hide ClosedBefore, Selected, Settled;
    SelectedRange(rs, b, k, k);
    SelectedNext(rs, k);
    EndCloses(rs, k);
  }

  /** Replaying from record `k` on, with a range open since `b` or none (`b` is -1), redoes the settled records not yet redone. */
  lemma {:induction false} RedoSettles(rs: seq<Rec>, k: nat, b: int)
    requires k <= |rs| && -1 <= b < k && ClosedBefore(rs, if b == -1 then k else b, k)
    requires b >= 0 ==> Begins(rs, b) && forall i | b < i < k :: !Marker(rs[i])
    requires WellFormed(rs[k..], b >= 0)
    ensures var o := Redo(rs[k..], b >= 0, Held(rs, k, b));
            o.Some? && Selected(rs, |rs|) == Selected(rs, if b == -1 then k else b) + o.value
    decreases |rs| - k
  {
    hide ClosedBefore, Redo, WellFormed, Selected, Settled;
    if k == |rs| {
      RedoNothing(rs[k..], b >= 0, Held(rs, k, b));
      if b >= 0 { SelectedNone(rs, b, k); }
    } else {
      RedoStep(rs, k, b >= 0, Held(rs, k, b));
      if rs[k].logtype == BEGIN {
        ClosedOn(rs, k);
        RedoSettles(rs, k + 1, k);
        assert Held(rs, k + 1, k) == [];
      } else if rs[k].logtype == END {
        SelectedEnd(rs, k, b);
        RedoSettles(rs, k + 1, -1);
        Regroup(Selected(rs, b), Held(rs, k, b), Redo(rs[k + 1..], false, []).value);
      } else if b >= 0 {
        ClosedLater(rs, b, k, k + 1);
        assert Held(rs, k + 1, b) == Held(rs, k, b) + [rs[k]];
        RedoSettles(rs, k + 1, b);
      } else {
        SettledNow(rs, k);
        SelectedNext(rs, k);
        RedoSettles(rs, k + 1, -1);
        Regroup(Selected(rs, k), [rs[k]], Redo(rs[k + 1..], false, []).value);
      }
    }
  }

  lemma RedoNothing(rs: seq<Rec>, open: bool, held: seq<Rec>)
    requires rs == []
    ensures Redo(rs, open, held) == Some([])
  {}

  lemma SettledNow(rs: seq<Rec>, k: nat)
    requires k < |rs| && !Marker(rs[k]) && ClosedBefore(rs, k, k)
    ensures Settled(rs, k) && ClosedBefore(rs, k + 1, k + 1)
  {
    hide ClosedBefore;
    ClosedLater(rs, k, k, |rs|);
    ClosedOn(rs, k);
  }

  lemma ClosedOn(rs: seq<Rec>, k: nat)
    requires k < |rs| && ClosedBefore(rs, k, k)
    ensures ClosedBefore(rs, k, k + 1)
    ensures !Begins(rs, k) ==> ClosedBefore(rs, k + 1, k + 1)
  {
    ClosedLater(rs, k, k, k + 1);
  }

  lemma ClosedLater(rs: seq<Rec>, i: nat, n: nat, m: nat)
    requires n <= m && ClosedBefore(rs, i, n)
    ensures ClosedBefore(rs, i, m)
  {
    forall b | 0 <= b < i && Begins(rs, b)
      ensures exists e :: b < e < m && Ends(rs, e)
    {
      var e :| b < e < n && Ends(rs, e);
    }
  }

  lemma EndCloses(rs: seq<Rec>, k: nat)
    requires Ends(rs, k)
    ensures ClosedBefore(rs, k + 1, k + 1) && !Settled(rs, k)
  {}

  lemma {:induction false} WellFormedPrefix(rs: seq<Rec>, c: seq<Rec>, open: bool)
    requires c <= rs && WellFormed(rs, open)
    ensures WellFormed(c, open)
  {
    if c != [] {
      WellFormedPrefix(rs[1..], c[1..], if c[0].logtype == BEGIN then true else if c[0].logtype == END then false else open);
    }
  }

  /** Markers out of place are what makes replaying fail. */
  lemma {:induction false} RedoFails(rs: seq<Rec>, open: bool, held: seq<Rec>)
    ensures Redo(rs, open, held).Some? <==> WellFormed(rs, open)
    decreases |rs|
  {
    if rs != [] {
      RedoFails(rs[1..], true, []);
      RedoFails(rs[1..], false, []);
      RedoFails(rs[1..], true, held + [rs[0]]);
    }
  }

  /** Recovery of any log of valid records, cut at any byte. */
  lemma RecoverCut(file: seq<Byte>, rs: seq<Rec>)
    requires RecsOk(rs) && file <= Image(rs)
    ensures var c := Complete(rs, |file|);
            && RecsOk(c)
            && Recover(file) == if WellFormed(c, false) then Applied(Selected(c, |c|), |Image(c)|) else Failed
  {
    hide Scan, Image, Complete, Redo, WellFormed, Selected;
    assert file[0..] == file;
    ScanReads(file, 0, rs, None, []);
    var c := Complete(rs, |file|);
    RedoFails(c, false, []);
    if WellFormed(c, false) {
      assert c[0..] == c;
      RedoSettles(c, 0, -1);
      assert Selected(c, 0) == [] by { SelectedZero(c); }
    }
  }

  lemma SelectedZero(rs: seq<Rec>)
    ensures Selected(rs, 0) == []
  {}

  /**
   * Recovery under truncation: a well-formed log cut at any byte is replayed
   * up to its last complete record, each record outside ranges or in a range
   * whose END is present once and in order, and the log resumes there.
   */
  lemma RecoverTruncated(file: seq<Byte>, rs: seq<Rec>)
    requires RecsOk(rs) && WellFormed(rs, false) && file <= Image(rs)
    ensures var c := Complete(rs, |file|);
            && c <= rs && RecsOk(c) && |Image(c)| <= |file| && (|c| < |rs| ==> |file| < |Image(c)| + HDR + |rs[|c|].body|)
            && Recover(file) == Applied(Selected(c, |c|), |Image(c)|)
  {
    hide Scan, Image, Complete, WellFormed, Selected, Recover;
    CompleteLongest(rs, |file|);
    WellFormedPrefix(rs, Complete(rs, |file|), false);
    RecoverCut(file, rs);
  }

  /** A range is open after these records. */
  predicate OpenAfter(rs: seq<Rec>, open: bool) {
    if rs == [] then open
    else OpenAfter(rs[1..], if rs[0].logtype == BEGIN then true else if rs[0].logtype == END then false else open)
  }

  lemma {:induction false} WellFormedConcat(a: seq<Rec>, b: seq<Rec>, open: bool)
    ensures WellFormed(a + b, open) <==> WellFormed(a, open) && WellFormed(b, OpenAfter(a, open))
  {
    if a == [] {
      assert a + b == b;
    } else {
      assert (a + b)[1..] == a[1..] + b;
      WellFormedConcat(a[1..], b, true);
      WellFormedConcat(a[1..], b, false);
      WellFormedConcat(a[1..], b, open);
    }
  }

  /** Records that are well-formed in and outside a range have no markers, so an open range holds them all back. */
  lemma {:induction false} HeldForever(rs: seq<Rec>, held: seq<Rec>)
    requires WellFormed(rs, true) && WellFormed(rs, false)
    ensures Redo(rs, true, held) == Some([]) && Redo(rs, false, []) == Some(rs)
    decreases |rs|
  {
    if rs != [] {
      HeldForever(rs[1..], held + [rs[0]]);
      assert [rs[0]] + rs[1..] == rs;
    }
  }

  lemma NothingHeld(rs: seq<Rec>, held: seq<Rec>)
    ensures Redo(rs, false, held) == Redo(rs, false, [])
  {}

  lemma {:induction false} RedoConcat(a: seq<Rec>, b: seq<Rec>, open: bool, held: seq<Rec>)
    requires WellFormed(a + b, open) && WellFormed(b, false)
    ensures Redo(a, open, held).Some? && Redo(b, false, []).Some?
    ensures Redo(a + b, open, held) == Some(Redo(a, open, held).value + if OpenAfter(a, open) then [] else Redo(b, false, []).value)
    decreases |a|
  {
    RedoFails(b, false, []);
    if a == [] {
      assert a + b == b;
      RedoNothing(a, open, held);
      if open { HeldForever(b, held); } else { NothingHeld(b, held); }
      var tail := if open then [] else Redo(b, false, []).value;
      assert [] + tail == tail;
    } else {
      assert (a + b)[1..] == a[1..] + b;
      if a[0].logtype == BEGIN {
        RedoConcat(a[1..], b, true, []);
      } else if a[0].logtype != END && open {
        RedoConcat(a[1..], b, true, held + [a[0]]);
      } else {
        RedoConcat(a[1..], b, false, []);
        Regroup(if a[0].logtype == END then held else [a[0]], Redo(a[1..], false, []).value,
                if OpenAfter(a[1..], false) then [] else Redo(b, false, []).value);
      }
    }
  }

  lemma RedoIsSelected(rs: seq<Rec>)
    requires WellFormed(rs, false)
    ensures Redo(rs, false, []) == Some(Selected(rs, |rs|))
  {
    hide Redo, WellFormed, Selected;
    assert rs[0..] == rs;
    RedoSettles(rs, 0, -1);
    SelectedZero(rs);
    var o := Redo(rs, false, []);
    assert o.Some? && [] + o.value == o.value;
  }

  /** The records that are no markers. */
  function Plain(rs: seq<Rec>): seq<Rec> {
    if rs == [] then [] else (if Marker(rs[0]) then [] else [rs[0]]) + Plain(rs[1..])
  }

  lemma PlainFirst(rs: seq<Rec>, n: nat)
    requires 0 < n <= |rs|
    ensures Plain(rs[..n]) == (if Marker(rs[0]) then [] else [rs[0]]) + Plain(rs[1..][..n - 1])
    ensures forall open :: OpenAfter(rs[..n], open) == OpenAfter(rs[1..][..n - 1], if rs[0].logtype == BEGIN then true else if rs[0].logtype == END then false else open)
  {
    assert rs[..n][1..] == rs[1..][..n - 1];
  }

  /** No range is open after the first `s` records, and `s` is the largest such number, or -1 if there is none. */
  ghost predicate LastClosed(rs: seq<Rec>, open: bool, s: int) {
    && -1 <= s <= |rs| && (s >= 0 ==> !OpenAfter(rs[..s], open))
    && (forall i: nat | i <= |rs| && !OpenAfter(rs[..i], open) :: i <= s)
  }

  lemma LastClosedNext(rs: seq<Rec>, open: bool, t: int)
    requires rs != [] && LastClosed(rs[1..], if rs[0].logtype == BEGIN then true else if rs[0].logtype == END then false else open, t)
    ensures LastClosed(rs, open, if t >= 0 then t + 1 else if open then -1 else 0)
  {
    hide OpenAfter;
    assert OpenAfter(rs[..0], open) == open by { OpenNone(open); assert rs[..0] == []; }
    if t >= 0 { PlainFirst(rs, t + 1); }
    forall i: nat | 0 < i <= |rs| && !OpenAfter(rs[..i], open)
      ensures i - 1 <= t
    {
      PlainFirst(rs, i);
    }
  }

  lemma OpenNone(open: bool)
    ensures OpenAfter([], open) == open
  {}

  /** Replaying redoes the records up to the last point at which no range is open, and those held back before if there is one. */
  lemma {:induction false} RedoClosed(rs: seq<Rec>, open: bool, held: seq<Rec>) returns (s: int)
    requires WellFormed(rs, open)
    ensures LastClosed(rs, open, s)
    ensures Redo(rs, open, held) == Some(if s < 0 then [] else (if open then held else []) + Plain(rs[..s]))
    decreases |rs|
  {
    hide LastClosed;
    if rs == [] {
      s := if open then -1 else 0;
      assert LastClosed(rs, open, s) by { NoneClosed(open); }
      assert rs[..0] == [] && [] + Plain(rs[..0]) == [];
    } else {
      var r := rs[0];
      var open' := if r.logtype == BEGIN then true else if r.logtype == END then false else open;
      var held' := if open && open' then held + [r] else [];
      var t := RedoClosed(rs[1..], open', held');
      LastClosedNext(rs, open, t);
      s := if t >= 0 then t + 1 else if open then -1 else 0;
      ClosedStart(rs[1..], open', t);
      assert rs[..0] == [] && [] + Plain(rs[..0]) == [];
      if t >= 0 {
        var x := Plain(rs[1..][..t]);
        PlainFirst(rs, t + 1);
        Regroup(held, [r], x);
        assert [] + x == x && [] + ([r] + x) == [r] + x;
        assert Plain(rs[..s]) == if Marker(r) then x else [r] + x;
      }
    }
  }

  lemma NoneClosed(open: bool)
    ensures LastClosed([], open, if open then -1 else 0)
  {
    var rs: seq<Rec> := [];
    assert rs[..0] == [];
  }

  lemma ClosedStart(rs: seq<Rec>, open: bool, t: int)
    requires LastClosed(rs, open, t)
    ensures -1 <= t <= |rs| && (!open ==> t >= 0)
  {
    assert rs[..0] == [];
  }

  lemma {:induction false} ImageConcat(a: seq<Rec>, b: seq<Rec>)
    requires RecsOk(a) && RecsOk(b)
    ensures RecsOk(a + b) && Image(a + b) == Image(a) + Image(b)
  {
    hide Encode;
    if a == [] {
      assert a + b == b;
    } else {
      ImageConcat(a[1..], b);
      assert (a + b)[1..] == a[1..] + b;
      assert Encode(a[0]) + (Image(a[1..]) + Image(b)) == Encode(a[0]) + Image(a[1..]) + Image(b);
    }
  }

  /** Scanning over complete records is replaying them and scanning on, inside a range if they leave one open. */
  lemma {:induction false} ScanPast(file: seq<Byte>, off: nat, rs: seq<Rec>, start: Option<nat>, held: seq<Rec>) returns (start': Option<nat>)
    requires RecsOk(rs) && off <= |file| && Image(rs) <= file[off..]
    requires start.Some? ==> start.value <= off && Bodies(held) && file[start.value..off] == Image(held)
    ensures var end, o := off + |Image(rs)|, Redo(rs, start.Some?, held);
            && (o.Some? ==> (start'.Some? <==> OpenAfter(rs, start.Some?)))
            && Scan(file, off, off, start) == if o.None? then Failed else More(o.value, Scan(file, end, end, start'))
    decreases |rs|
  {
    hide LengthAt, Encode, Image, Scan, RecAt, ReadRange, Readable;
    ImageNone();
    if rs == [] {
      start' := start;
      MoreNone(Scan(file, off, off, start));
    } else {
      var r := rs[0];
      ImageFirst(rs);
      var next := off + HDR + |r.body|;
      var rest := file[next..];
      assert file[off..] == Encode(r) + rest by { FrontOf(file, off, Encode(r), Image(rs[1..])); }
      assert Image(rs[1..]) <= rest by { FrontOf(file, off, Encode(r), Image(rs[1..])); }
      RecordRead(file, off, r, rest);
      if start.Some? && r.logtype == END { HeldRead(file, start.value, off, held); }
      ScanStep(file, off, r, start, held);
      if r.logtype == BEGIN {
        assert file[next..next] == [];
        start' := ScanPast(file, next, rs[1..], Some(next), []);
      } else if r.logtype != END && start.Some? {
        HeldMore(file, start.value, off, held, r, rest);
        start' := ScanPast(file, next, rs[1..], start, held + [r]);
      } else {
        start' := ScanPast(file, next, rs[1..], None, []);
        var o, end := Redo(rs[1..], false, []), off + |Image(rs)|;
        if o.Some? {
          MoreTwice(if r.logtype == END then held else [r], o.value, Scan(file, end, end, start'));
        }
      }
    }
  }

  lemma FrontOf(file: seq<Byte>, off: nat, a: seq<Byte>, b: seq<Byte>)
    requires off <= |file| && a + b <= file[off..]
    ensures off + |a| <= |file| && file[off..] == a + file[off + |a|..] && b <= file[off + |a|..]
  {
    assert file[off..][..|a|] == (a + b)[..|a|] == a;
    assert file[off..][|a|..] == file[off + |a|..];
    assert file[off..][..|a| + |b|] == a + b;
    assert file[off + |a|..][..|b|] == file[off..][|a|..|a| + |b|] == b;
  }

  /** Bytes that read as no more than a record cut off. */
  predicate Quiet(tail: seq<Byte>) {
    |tail| < HDR || (tail[0] != BEGIN && tail[0] != END && |tail| < HDR + LengthAt(tail, 0))
  }

  lemma {:induction false} ScanSize(file: seq<Byte>, seek: nat, pos: nat, start: Option<nat>)
    requires seek <= pos
    ensures Scan(file, seek, pos, start).Applied? ==> Scan(file, seek, pos, start).size >= seek
    decreases |file| - seek
  {
    hide LengthAt, RecAt, ReadRange, Scan;
    if |file| < seek + HDR {
      ScanDone(file, seek, pos, start);
    } else {
      ScanOnce(file, seek, pos, start);
      if pos + HDR <= |file| {
        var n := LengthAt(file, pos);
        if file[pos] == BEGIN {
          ScanSize(file, seek + HDR, pos + HDR, Some(seek + HDR));
        } else if file[pos] == END && start.Some? {
          var held := ReadRange(file, start.value + pos - seek, seek + HDR);
          if held.Range? { ScanSize(file, seek + HDR, held.at, None); }
        } else if seek + HDR + n <= |file| {
          ScanSize(file, seek + HDR + n, pos + HDR + n, start);
        }
      }
    }
  }

  /** The scan stops where it is exactly if what is left is quiet. */
  lemma ScanQuiet(file: seq<Byte>, off: nat, start: Option<nat>)
    requires off <= |file|
    ensures Quiet(file[off..]) ==> Scan(file, off, off, start) == Applied([], off)
    ensures !Quiet(file[off..]) ==> Scan(file, off, off, start).Failed? || Scan(file, off, off, start).size > off
  {
    hide RecAt, ReadRange, Scan;
    var tail := file[off..];
    if |file| < off + HDR {
      ScanDone(file, off, off, start);
    } else {
      ScanOnce(file, off, off, start);
      assert tail[0] == file[off] && LengthAt(tail, 0) == LengthAt(file, off);
      var n := LengthAt(file, off);
      if file[off] == BEGIN {
        ScanSize(file, off + HDR, off + HDR, Some(off + HDR));
      } else if file[off] == END && start.Some? {
        var held := ReadRange(file, start.value, off + HDR);
        if held.Range? { ScanSize(file, off + HDR, held.at, None); }
      } else if off + HDR + n <= |file| {
        ScanSize(file, off + HDR + n, off + HDR + n, start);
      }
    }
  }

  /** Writing at an offset: what lies beyond the new bytes stays. */
  function Overwrite(file: seq<Byte>, at: nat, bytes: seq<Byte>): seq<Byte>
    requires at <= |file|
  {
    file[..at] + bytes + Leftover(file, at + |bytes|)
  }

  function Leftover(file: seq<Byte>, from: nat): seq<Byte> { if from <= |file| then file[from..] else [] }

  /** What is logged from the resume point on overwrites the record that was cut off. */
  lemma ResumedFile(file: seq<Byte>, rs: seq<Rec>, more: seq<Rec>)
    requires RecsOk(rs) && file <= Image(rs) && RecsOk(more)
    ensures var c := Complete(rs, |file|);
            && RecsOk(c) && RecsOk(c + more) && |Image(c)| <= |file| && |Image(c + more)| == |Image(c)| + |Image(more)|
            && Overwrite(file, |Image(c)|, Image(more)) == Image(c + more) + Leftover(file, |Image(c + more)|)
  {
    hide Image, Complete;
    CompleteLongest(rs, |file|);
    var c := Complete(rs, |file|);
    assert rs == c + rs[|c|..];
    ImageConcat(c, rs[|c|..]);
    ImageConcat(c, more);
    assert file[..|Image(c)|] == Image(rs)[..|Image(c)|] == Image(c);
  }

  /**
   * Logging resumes behind the last complete record `c` of a recovered log, in
   * the same file, which is not cut there. A second recovery redoes what was
   * redone before and what was logged since, and resumes behind it, if and only
   * if the first one did not stop inside a range and what is left over of the
   * record that was cut off reads as no more than a record cut off.
   */
  lemma RecoverAgain(file: seq<Byte>, rs: seq<Rec>, more: seq<Rec>)
    requires RecsOk(rs) && WellFormed(rs, false) && file <= Image(rs)
    requires RecsOk(more) && WellFormed(more, false) && more != []
    ensures var c := Complete(rs, |file|); var at := |Image(c)|; var end := at + |Image(more)|;
            && at <= |file|
            && (Recover(Overwrite(file, at, Image(more))) == Applied(Selected(c, |c|) + Selected(more, |more|), end)
                <==> !OpenAfter(c, false) && Quiet(Leftover(file, end)))
  {
    hide Redo, WellFormed, Selected, Image, Complete, Scan, OpenAfter, Quiet, Overwrite, Leftover;
    CompleteLongest(rs, |file|);
    var c := Complete(rs, |file|);
    WellFormedPrefix(rs, c, false);
    ResumedFile(file, rs, more);
    RedoMore(c, more);
    var tail, end := Leftover(file, |Image(c + more)|), |Image(c + more)|;
    var all := Image(c + more) + tail;
    assert all[0..] == all && Image(c + more) <= all && all[end..] == tail;
    var start := ScanPast(all, 0, c + more, None, []);
    ScanQuiet(all, end, start);
    var o := Redo(c + more, false, []);
    if o.Some? { assert o.value + [] == o.value; }
  }

  /** Replaying both parts of the resumed log gives what each gives if and only if the first leaves no range open. */
  lemma RedoMore(c: seq<Rec>, more: seq<Rec>)
    requires WellFormed(c, false) && WellFormed(more, false) && more != []
    ensures Redo(c + more, false, []) == Some(Selected(c, |c|) + Selected(more, |more|)) <==> !OpenAfter(c, false)
  {
    hide Redo, WellFormed, Selected, OpenAfter;
    WellFormedConcat(c, more, false);
    RedoFails(c + more, false, []);
    RedoIsSelected(c);
    RedoIsSelected(more);
    if WellFormed(c + more, false) {
      RedoConcat(c, more, false, []);
      if OpenAfter(c, false) {
        HeldForever(more, []);
        assert Selected(c, |c|) + [] != Selected(c, |c|) + more;
      }
    }
  }

  lemma {:induction false} CompleteAll(rs: seq<Rec>)
    requires RecsOk(rs)
    ensures Complete(rs, |Image(rs)|) == rs
  {
    hide Encode;
    if rs != [] {
      CompleteAll(rs[1..]);
    }
  }

  /** So a restart inside a range makes the next restart fail or forget what was logged in between. */
  lemma DanglingRange(r: Rec, s: Rec)
    requires RecOk(r) && RecOk(s) && r.logtype == BEGIN && !Marker(s)
    ensures Recover(Image([r])) == Applied([], HDR)
    ensures Recover(Image([r, s])) == Applied([], |Image([r, s])|)
    ensures Recover(Image([r, r])) == Failed
  {
    hide Image, Recover, Selected;
    CompleteAll([r]);
    CompleteAll([r, s]);
    CompleteAll([r, r]);
    RecoverCut(Image([r]), [r]);
    RecoverCut(Image([r, s]), [r, s]);
    RecoverCut(Image([r, r]), [r, r]);
    SelectedNone([r], 0, 1);
    SelectedNone([r, s], 0, 2);
    SelectedZero([r]);
    SelectedZero([r, s]);
    ImageFirst([r]);
    ImageNone();
    assert [r, r][1..] == [r] && [r, s][1..] == [s] && [r][1..] == [] && [s][1..] == [];
  }

  /**
   * A record with a body of 24 bytes is cut off after 28, and a record with a
   * body of 8 is logged over it: the byte left over at offset 16 is read as a
   * log type. If it is that of END, the next recovery fails.
   */
  lemma StaleTail(r: Rec, s: Rec)
    requires RecOk(r) && !Marker(r) && |r.body| == 24 && r.body[8] == END
    requires RecOk(s) && !Marker(s) && |s.body| == 8
    ensures var file := Encode(r)[..28];
            Recover(file) == Applied([], 0) && Recover(Overwrite(file, 0, Encode(s))) == Failed
  {
    hide Scan, RecAt, ReadRange;
    var file := Encode(r)[..28];
    assert file[0..] == file && file <= Encode(r) + [];
    HeaderRead(file, 0, r, []);
    ScanQuiet(file, 0, None);
    var all := Overwrite(file, 0, Encode(s));
    assert all == Encode(s) + file[16..] && all[0..] == all;
    RecordRead(all, 0, s, file[16..]);
    ScanOnce(all, 0, 0, None);
    assert all[16] == file[16] == r.body[8];
    ScanOnce(all, 16, 16, None);
  }
}
