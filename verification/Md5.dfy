/**
 * Streaming an MD5 digest (rfc1321/md5c.c; sections 3.1 to 3.3 of RFC 1321).
 * The block function is a parameter.
 */
module Md5 {
  import opened Arith
  import opened Octets

  type Word = x: int | 0 <= x < 0x1_0000_0000

  const TWO32: nat := 0x1_0000_0000
  const TWO64: nat := 0x1_0000_0000_0000_0000

  /** The four chaining words. */
  datatype Chain = Chain(a: Word, b: Word, c: Word, d: Word)

  const INIT: Chain := Chain(0x67452301, 0xefcdab89, 0x98badcfe, 0x10325476)

  type Transform = (Chain, seq<Byte>) -> Chain

  /** The block function over the complete 64-byte blocks of a message. */
  function Fold(f: Transform, s: Chain, msg: seq<Byte>): Chain
    decreases |msg|
  {
    if |msg| < 64 then s else Fold(f, f(s, msg[..64]), msg[64..])
  }

  lemma {:induction false} FoldConcat(f: Transform, s: Chain, a: seq<Byte>, b: seq<Byte>)
    requires |a| % 64 == 0
    ensures Fold(f, s, a + b) == Fold(f, Fold(f, s, a), b)
    decreases |a|
  {
    if a == [] {
      assert a + b == b;
    } else {
      assert (a + b)[..64] == a[..64] && (a + b)[64..] == a[64..] + b;
      FoldConcat(f, f(s, a[..64]), a[64..], b);
    }
  }

  lemma FoldBlock(f: Transform, s: Chain, a: seq<Byte>, block: seq<Byte>)
    requires |a| % 64 == 0 && |block| == 64
    ensures Fold(f, s, a + block) == f(Fold(f, s, a), block)
  {
    FoldConcat(f, s, a, block);
    assert block[..64] == block;
  }

  lemma FoldTail(f: Transform, s: Chain, a: seq<Byte>, tail: seq<Byte>)
    requires |a| % 64 == 0 && |tail| < 64
    ensures Fold(f, s, a + tail) == Fold(f, s, a)
  {
    FoldConcat(f, s, a, tail);
  }

  function LittleEndian(w: Word): (b: seq<Byte>)
    ensures |b| == 4
  {
    [w % 256, w / 256 % 256, w / 65536 % 256, w / 16777216]
  }

  function Words(s: seq<Word>): (b: seq<Byte>)
    ensures |b| == 4 * |s|
  {
    if s == [] then [] else LittleEndian(s[0]) + Words(s[1..])
  }

  lemma {:induction false} WordsSnoc(s: seq<Word>, w: Word)
    ensures Words(s + [w]) == Words(s) + LittleEndian(w)
  {
    hide LittleEndian;
    if s == [] {
      assert [w][1..] == [];
    } else {
      WordsSnoc(s[1..], w);
      assert (s + [w])[1..] == s[1..] + [w];
      assert LittleEndian(s[0]) + (Words(s[1..]) + LittleEndian(w)) == LittleEndian(s[0]) + Words(s[1..]) + LittleEndian(w);
    }
  }

  /** The four bytes from `at` on make the word `w`, low byte first. */
  predicate Reads(b: seq<Byte>, at: nat, w: int) {
    at + 4 <= |b| && b[at] as int + 256 * (b[at + 1] as int) + 65536 * (b[at + 2] as int) + 16777216 * (b[at + 3] as int) == w
  }

  lemma ReadsOne(w: Word)
    ensures Reads(LittleEndian(w), 0, w)
  {
    DivMod(w, 256);
    DivMod(w / 256, 256);
    DivMod(w / 65536, 256);
  }

  lemma ReadsIn(a: seq<Byte>, b: seq<Byte>, c: seq<Byte>, at: nat, w: int)
    requires Reads(b, at, w)
    ensures Reads(a + b + c, |a| + at, w)
  {}

  /** What the bytes of some words say of each of them. */
  lemma {:induction false} WordsRead(s: seq<Word>, i: nat)
    requires i < |s|
    ensures Reads(Words(s), 4 * i, s[i])
  {
    hide LittleEndian, Reads;
    if i == 0 {
      ReadsOne(s[0]);
      ReadsIn([], LittleEndian(s[0]), Words(s[1..]), 0, s[0]);
      assert [] + LittleEndian(s[0]) == LittleEndian(s[0]);
    } else {
      WordsRead(s[1..], i - 1);
      ReadsIn(LittleEndian(s[0]), Words(s[1..]), [], 4 * (i - 1), s[i]);
      assert LittleEndian(s[0]) + Words(s[1..]) + [] == Words(s);
    }
  }

  /** Encode: words to bytes, low byte first. */
  method Encode(input: seq<Word>) returns (output: seq<Byte>)
    ensures |output| == 4 * |input|
    ensures forall i | 0 <= i < |input| ::
              output[4 * i] as int + 256 * (output[4 * i + 1] as int) + 65536 * (output[4 * i + 2] as int) + 16777216 * (output[4 * i + 3] as int) == input[i]
    ensures output == Words(input)
  {
    hide LittleEndian;
    output := [];
    for i := 0 to |input|
      invariant output == Words(input[..i])
    {
      WordsSnoc(input[..i], input[i]);
      assert input[..i + 1] == input[..i] + [input[i]];
      output := output + LittleEndian(input[i]);
    }
    assert input[..|input|] == input;
    forall i | 0 <= i < |input|
      ensures Reads(output, 4 * i, input[i])
    {
      WordsRead(input, i);
    }
  }

  /** Section 3.1: one bit, then zeros up to 56 bytes modulo 64. */
  function Padding(n: nat): (p: seq<Byte>)
    ensures 0 < |p| <= 64 && (n + |p|) % 64 == 56
  {
    var index := n % 64;
    var len := if index < 56 then 56 - index else 120 - index;
    seq(len, i => if i == 0 then 0x80 else 0)
  }

  /** Section 3.2: the number of bits modulo 2^64, low word first. */
  function Length(n: nat): (b: seq<Byte>)
    ensures |b| == 8
  {
    var bits := 8 * n % TWO64;
    Words([bits % TWO32, bits / TWO32])
  }

  function Padded(msg: seq<Byte>): (p: seq<Byte>)
    ensures |p| % 64 == 0
  {
    msg + Padding(|msg|) + Length(|msg|)
  }

  /** What sections 3.1 and 3.2 of RFC 1321 ask of the padded message, in its bytes. */
  ghost predicate IsPadded(msg: seq<Byte>, p: seq<Byte>) {
    && |msg| + 9 <= |p| <= |msg| + 72 && |p| % 64 == 0
    && p[..|msg|] == msg && p[|msg|] == 0x80
    && (forall i | |msg| < i < |p| - 8 :: p[i] == 0)
    && Reads(p, |p| - 8, 8 * |msg| % TWO64 % TWO32) && Reads(p, |p| - 4, 8 * |msg| % TWO64 / TWO32)
  }

  lemma PaddedIs(msg: seq<Byte>)
    ensures IsPadded(msg, Padded(msg))
  {
    hide Words, Reads;
    var n, p := |msg|, Padded(msg);
    var pad, bits := Padding(n), 8 * n % TWO64;
    var s: seq<Word> := [bits % TWO32, bits / TWO32];
    assert p == msg + pad + Words(s);
    WordsRead(s, 0);
    WordsRead(s, 1);
    ReadsIn(msg + pad, Words(s), [], 0, s[0]);
    ReadsIn(msg + pad, Words(s), [], 4, s[1]);
    assert p + [] == p;
    assert forall i | n <= i < |p| - 8 :: p[i] == pad[i - n];
    assert p[..n] == msg;
  }

  lemma WordsFour(a: Word, b: Word, c: Word, d: Word)
    ensures Words([a, b, c, d]) == LittleEndian(a) + LittleEndian(b) + LittleEndian(c) + LittleEndian(d)
  {
    hide LittleEndian;
    WordsSnoc([], a);
    WordsSnoc([a], b);
    WordsSnoc([a, b], c);
    WordsSnoc([a, b, c], d);
    assert [] + [a] == [a] && [a] + [b] == [a, b] && [a, b] + [c] == [a, b, c] && [a, b, c] + [d] == [a, b, c, d];
  }

  /** The chaining words at the start are the bytes 01 23 45 67 89 ab cd ef and then the same backwards (section 3.3). */
  lemma InitBytes()
    ensures Words([INIT.a, INIT.b, INIT.c, INIT.d]) ==
            [0x01, 0x23, 0x45, 0x67, 0x89, 0xab, 0xcd, 0xef, 0xfe, 0xdc, 0xba, 0x98, 0x76, 0x54, 0x32, 0x10]
  {
    hide Words;
    assert LittleEndian(INIT.a) == [0x01, 0x23, 0x45, 0x67] && LittleEndian(INIT.b) == [0x89, 0xab, 0xcd, 0xef];
    assert LittleEndian(INIT.c) == [0xfe, 0xdc, 0xba, 0x98] && LittleEndian(INIT.d) == [0x76, 0x54, 0x32, 0x10];
    WordsFour(INIT.a, INIT.b, INIT.c, INIT.d);
  }

  /** The digest is four words, low byte first. */
  predicate IsDigest(d: seq<Byte>, s: Chain) {
    |d| == 16 && Reads(d, 0, s.a) && Reads(d, 4, s.b) && Reads(d, 8, s.c) && Reads(d, 12, s.d)
  }

  /** What the two-word counter says. */
  function Bits(count0: Word, count1: Word): nat { count0 + TWO32 * count1 }

  /** Shifting a length left by three bits, in one word. */
  lemma ShiftLeft(len: nat)
    requires len < TWO32
    ensures 8 * len == len / 0x2000_0000 * TWO32 + 8 * len % TWO32 && len / 0x2000_0000 < 8
  {
    DivMod(len, 0x2000_0000);
    DivModUnique(8 * len, TWO32, len / 0x2000_0000, 8 * (len % 0x2000_0000));
  }

  /** The carry out of the low word shows as a sum below the addend. */
  lemma Carry(a: Word, b: Word)
    ensures var c := (a + b) % TWO32; a + b == c + TWO32 * if c < b then 1 else 0
  {
    if a + b < TWO32 { DivModUnique(a + b, TWO32, 0, a + b); } else { DivModUnique(a + b, TWO32, 1, a + b - TWO32); }
  }

  lemma ModAdd(x: nat, y: nat, m: nat)
    requires m > 0
    ensures (x % m + y) % m == (x + y) % m
  {
    DivMod(x, m);
    DivMod(x % m + y, m);
    var q := x / m + (x % m + y) / m;
    assert q * m == x / m * m + (x % m + y) / m * m;
    DivModUnique(x + y, m, q, (x % m + y) % m);
  }

  /** Adding the bits of `len` bytes to the counter, with the carry between its words. */
  lemma CountBits(n: nat, count0: Word, count1: Word, len: nat, c0: Word, carry: nat)
    requires Bits(count0, count1) == 8 * n % TWO64 && len < TWO32
    requires count0 + 8 * len % TWO32 == c0 + TWO32 * carry
    ensures Bits(c0, (count1 + carry + len / 0x2000_0000) % TWO32) == 8 * (n + len) % TWO64
  {
    ShiftLeft(len);
    DivMod(8 * n, TWO64);
    var q, hi := 8 * n / TWO64, count1 + carry + len / 0x2000_0000;
    DivMod(hi, TWO32);
    Linear(8 * n, 8 * len, q, count0, count1, 8 * len % TWO32, len / 0x2000_0000, c0, carry, hi / TWO32, hi % TWO32);
    DivModUnique(8 * (n + len), TWO64, q + hi / TWO32, c0 + TWO32 * (hi % TWO32));
  }

  lemma Linear(x: int, y: int, q: int, a0: int, a1: int, low: int, high: int, c0: int, carry: int, hq: int, hr: int)
    requires x == q * TWO64 + a0 + TWO32 * a1 && y == high * TWO32 + low
    requires a0 + low == c0 + TWO32 * carry && a1 + carry + high == hq * TWO32 + hr
    ensures x + y == (q + hq) * TWO64 + (c0 + TWO32 * hr)
  {}

  lemma CountIndex(n: nat, count0: Word, count1: Word)
    requires Bits(count0, count1) == 8 * n % TWO64
    ensures count0 / 8 % 64 == n % 64
  {
    DivMod(8 * n, TWO64);
    var q := 8 * n / TWO64;
    var m := n - 0x2000_0000_0000_0000 * q - 0x2000_0000 * count1;
    DivModUnique(count0, 8, m, 0);
    DivMod(m, 64);
    DivModUnique(n, 64, m / 64 + 0x80_0000_0000_0000 * q + 0x80_0000 * count1, m % 64);
  }

  class Context {
    const f: Transform
    var state: Chain
    var count0: Word
    var count1: Word
    const buffer: array<Byte>
    /** Everything fed so far. */
    ghost var msg: seq<Byte>

    ghost predicate Valid()
      reads this, buffer
    {
      && buffer.Length == 64
      && Bits(count0, count1) == 8 * |msg| % TWO64
      && state == Fold(f, INIT, msg)
      && buffer[..|msg| % 64] == msg[|msg| - |msg| % 64..]
    }

    /** MD5Init. */
    constructor (f: Transform)
      ensures Valid() && fresh(buffer) && this.f == f && msg == []
    {
      this.f := f;
      state, count0, count1 := INIT, 0, 0;
      buffer := new Byte[64];
      msg := [];
    }

    /** Copy bytes into the buffer. */
    method Fill(index: nat, bytes: seq<Byte>)
      requires buffer.Length == 64 && index + |bytes| <= 64
      modifies buffer
      ensures buffer[..index] == old(buffer[..index]) && buffer[index..index + |bytes|] == bytes
    {
      forall i | 0 <= i < |bytes| {
        buffer[index + i] := bytes[i];
      }
    }

    /** The counter of bits, as MD5Update advances it. */
    method Count(len: nat)
      requires Bits(count0, count1) == 8 * |msg| % TWO64 && len < TWO32
      modifies this`count0, this`count1
      ensures Bits(count0, count1) == 8 * (|msg| + len) % TWO64
    {
      hide Bits;
      var low := 8 * len % TWO32;
      Carry(count0, low);
      var c0 := (count0 + low) % TWO32;
      ghost var carry := if c0 < low then 1 else 0;
      CountBits(|msg|, count0, count1, len, c0, carry);
      ModAdd(count1 + carry, len / 0x2000_0000, TWO32);
      DivModUnique(count1, TWO32, 0, count1);
      count0 := c0;
      if count0 < low { count1 := (count1 + 1) % TWO32; }
      count1 := (count1 + len / 0x2000_0000) % TWO32;
    }

    /** The buffered bytes and `part` make one block. */
    method FirstBlock(index: nat, part: seq<Byte>)
      requires Valid() && index == |msg| % 64 && |part| == 64 - index
      modifies this`state, buffer
      ensures state == Fold(f, INIT, msg + part)
    {
      hide Fold, Bits;
      Fill(index, part);
      assert buffer[..] == buffer[..index] + buffer[index..index + |part|];
      FoldFirst(f, INIT, msg, part, index);
      state := f(state, buffer[..]);
    }

    /**
     * The complete blocks of the input from `from` on. The index is one word: if
     * it wraps in the comparison, the next block lies outside the input.
     */
    method Blocks(input: seq<Byte>, from: nat) returns (ok: bool, i: nat)
      requires 0 < from <= |input| < TWO32 && (|msg| + from) % 64 == 0 && state == Fold(f, INIT, msg + input[..from])
      modifies this`state
      ensures ok <==> |msg| % 64 + |input| < TWO32
      ensures ok ==> from <= i <= |input| < i + 64 && (|msg| + i) % 64 == 0 && state == Fold(f, INIT, msg + input)
    {
      hide Fold, Continues, Edge;
      i := from;
      ok := true;
      EdgeNext(|msg| + i);
      while Continues(i, |input|)
        invariant from <= i <= |input| && Edge(|msg| + i)
        invariant state == Fold(f, INIT, msg + input[..i])
        decreases |input| - i
      {
        WordIndex(i, |input|, |msg|);
        EdgeNext(|msg| + i);
        if i + 64 > |input| { return false, i; }
        FoldBlock(f, INIT, msg + input[..i], input[i..i + 64]);
        assert msg + input[..i] + input[i..i + 64] == msg + input[..i + 64];
        state := f(state, input[i..i + 64]);
        i := i + 64;
      }
      WordIndex(i, |input|, |msg|);
      EdgeNext(|msg| + i);
      FoldTail(f, INIT, msg + input[..i], input[i..]);
      assert msg + input[..i] + input[i..] == msg + input;
    }

    /** How many bytes are buffered, as MD5Update reads it off the counter. */
    method Index() returns (index: nat)
      requires Valid()
      ensures index == |msg| % 64
    {
      hide Fold, Bits;
      CountIndex(|msg|, count0, count1);
      index := count0 / 8 % 64;
    }

    /** The input from `i` on stays in the buffer, behind `index` bytes that are there. */
    method Store(index: nat, input: seq<Byte>, i: nat)
      requires buffer.Length == 64 && i <= |input| && Bits(count0, count1) == 8 * (|msg| + |input|) % TWO64
      requires state == Fold(f, INIT, msg + input)
      requires if i == 0 then index == |msg| % 64 && index + |input| < 64 && buffer[..index] == msg[|msg| - index..]
               else index == 0 && (|msg| + i) % 64 == 0 && |input| < i + 64
      modifies this`msg, buffer
      ensures Valid() && msg == old(msg) + input
    {
      hide Fold, Bits;
      Remainder(msg, input, i);
      Fill(index, input[i..]);
      ghost var n := index + |input| - i;
      assert buffer[..n] == buffer[..index] + buffer[index..n];
      msg := msg + input;
    }

    /** MD5Update: it leaves its input exactly if the buffered bytes and the input do not fit in a word together. */
    method Update(input: seq<Byte>) returns (ok: bool)
      requires Valid() && |input| < TWO32
      modifies this, buffer
      ensures ok <==> |old(msg)| % 64 + |input| < TWO32
      ensures ok ==> Valid() && msg == old(msg) + input
    {
      hide Fold, Bits;
      var index := Index();
      var partLen := 64 - index;
      var i := 0;
      ok := true;
      if |input| >= partLen {
        FirstBlock(index, input[..partLen]);
        ok, i := Blocks(input, partLen);
        if !ok { return; }
        index := 0;
      } else {
        FoldShort(f, INIT, msg, input);
      }
      Count(|input|);
      Store(index, input, i);
    }

    /** MD5Final: the digest of everything fed. */
    method Final() returns (digest: seq<Byte>)
      requires Valid()
      modifies this, buffer
      ensures IsPadded(old(msg), Padded(old(msg))) && IsDigest(digest, Fold(f, INIT, Padded(old(msg))))
      ensures var s := Fold(f, INIT, Padded(old(msg))); digest == Words([s.a, s.b, s.c, s.d])
    {
      hide Fold, Words, Bits, Padding, LittleEndian, IsPadded;
      PaddedIs(msg);
      ghost var m := msg;
      CountWords(|msg|, count0, count1);
      var bits := Encode([count0, count1]);
      var index := Index();
      var padLen := if index < 56 then 56 - index else 120 - index;
      var padding := seq(padLen, i => if i == 0 then 0x80 else 0);
      assert padding == Padding(|m|) by { PaddingIs(|m|, padding); }
      var ok := Update(padding);
      ok := Update(bits);
      var words := [state.a, state.b, state.c, state.d];
      digest := Encode(words);
      DigestIs(digest, words);
    }
  }

  lemma DigestIs(d: seq<Byte>, s: seq<Word>)
    requires |s| == 4 && |d| == 16 && d == Words(s)
    ensures IsDigest(d, Chain(s[0], s[1], s[2], s[3]))
  {
    hide Words, Reads;
    WordsRead(s, 0);
    WordsRead(s, 1);
    WordsRead(s, 2);
    WordsRead(s, 3);
  }

  /** The loop test of MD5Update, in words. */
  predicate Continues(i: nat, len: nat) { (i + 63) % TWO32 < len }

  predicate Edge(n: nat) { n % 64 == 0 }

  lemma EdgeNext(n: nat)
    ensures (Edge(n) ==> Edge(n + 64)) && (Edge(n) <==> n % 64 == 0)
  {}

  /** What comparing the index in one word means at a block boundary. */
  lemma WordIndex(i: nat, len: nat, n: nat)
    requires 0 < i <= len < TWO32 && Edge(n + i)
    ensures Continues(i, len) <==> i + 63 < len || i + 63 >= TWO32
    ensures len < i + 64 ==> (i + 63 >= TWO32 <==> n % 64 + len >= TWO32)
  {
    if i + 63 < TWO32 { DivModUnique(i + 63, TWO32, 0, i + 63); } else { DivModUnique(i + 63, TWO32, 1, i + 63 - TWO32); }
    DivMod(n, 64);
    DivMod(n + i, 64);
    var q := (n + i) / 64 - n / 64;
    assert n % 64 + i == 64 * q && TWO32 == 64 * 0x400_0000;
    if q >= 0x400_0000 { assert n % 64 + i >= TWO32; } else { assert n % 64 + i <= TWO32 - 64; }
  }

  lemma PaddingIs(n: nat, padding: seq<Byte>)
    requires |padding| == (if n % 64 < 56 then 56 - n % 64 else 120 - n % 64)
    requires forall i | 0 <= i < |padding| :: padding[i] == if i == 0 then 0x80 else 0
    ensures padding == Padding(n)
  {}

  lemma CountWords(n: nat, count0: Word, count1: Word)
    requires Bits(count0, count1) == 8 * n % TWO64
    ensures Words([count0, count1]) == Length(n)
  {
    hide Words;
    DivModUnique(8 * n % TWO64, TWO32, count1, count0);
  }

  /** What is buffered and `part` make the next block. */
  lemma FoldFirst(f: Transform, s: Chain, msg: seq<Byte>, part: seq<Byte>, index: nat)
    requires index == |msg| % 64 && index + |part| == 64
    ensures Fold(f, s, msg + part) == f(Fold(f, s, msg), msg[|msg| - index..] + part)
  {
    hide Fold;
    var n := |msg| - index;
    DivMod(|msg|, 64);
    DivModUnique(n, 64, |msg| / 64, 0);
    assert msg == msg[..n] + msg[n..] && msg + part == msg[..n] + (msg[n..] + part);
    FoldTail(f, s, msg[..n], msg[n..]);
    FoldBlock(f, s, msg[..n], msg[n..] + part);
  }

  /** Too little input for a block changes nothing. */
  lemma FoldShort(f: Transform, s: Chain, msg: seq<Byte>, input: seq<Byte>)
    requires |msg| % 64 + |input| < 64
    ensures Fold(f, s, msg + input) == Fold(f, s, msg)
  {
    hide Fold;
    var n := |msg| - |msg| % 64;
    assert msg == msg[..n] + msg[n..] && msg + input == msg[..n] + (msg[n..] + input);
    FoldTail(f, s, msg[..n], msg[n..]);
    FoldTail(f, s, msg[..n], msg[n..] + input);
  }

  /** What stays in the buffer. */
  lemma Remainder(msg: seq<Byte>, input: seq<Byte>, i: nat)
    requires i <= |input| && if i == 0 then |msg| % 64 + |input| < 64 else (|msg| + i) % 64 == 0 && |input| < i + 64
    ensures var all := msg + input; var n := |all| % 64;
            n == (if i == 0 then |msg| % 64 else 0) + |input| - i && all[|all| - n..] == (if i == 0 then msg[|msg| - |msg| % 64..] else []) + input[i..]
  {
    var all := msg + input;
    if i == 0 {
      assert |all| % 64 == |msg| % 64 + |input|;
    } else {
      assert |all| % 64 == |input| - i;
    }
  }

  function Joined(parts: seq<seq<Byte>>): seq<Byte> {
    if parts == [] then [] else Joined(parts[..|parts| - 1]) + parts[|parts| - 1]
  }

  /** However a message is split into updates that MD5Update can take, the digest is that of the padded message. */
  method Stream(f: Transform, parts: seq<seq<Byte>>) returns (ok: bool, digest: seq<Byte>)
    requires forall i | 0 <= i < |parts| :: |parts[i]| < TWO32
    ensures ok <==> forall i | 0 <= i < |parts| :: |Joined(parts[..i])| % 64 + |parts[i]| < TWO32
    ensures ok ==> IsPadded(Joined(parts), Padded(Joined(parts))) && IsDigest(digest, Fold(f, INIT, Padded(Joined(parts))))
  {
    hide Fold, Words, Padded, IsPadded, IsDigest, Context.Valid;
    var context := new Context(f);
    ok, digest := true, [];
    for i := 0 to |parts|
      invariant ok && context.Valid() && context.f == f && fresh(context) && fresh(context.buffer)
      invariant context.msg == Joined(parts[..i])
      invariant forall k | 0 <= k < i :: |Joined(parts[..k])| % 64 + |parts[k]| < TWO32
    {
      assert parts[..i + 1][..i] == parts[..i];
      ok := context.Update(parts[i]);
      if !ok { return; }
    }
    assert parts[..|parts|] == parts;
    digest := context.Final();
  }
}
