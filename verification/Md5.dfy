/** Incremental MD5: a context that is fed pieces of a message computes what section 3 of
    RFC 1321 defines on the whole message.  The block transform of section 3.4 is a
    parameter: nothing here depends on what it does to a state and a block. */
module Md5 {
  import opened Words

  newtype byte = x: int | 0 <= x < 0x100
  newtype word = x: int | 0 <= x < 0x1_0000_0000

  const BLOCK := 64

  datatype State = State(a: word, b: word, c: word, d: word)
  type Transform = (State, seq<byte>) -> State

  // section 3.3
  const INITIAL := State(0x67452301, 0xefcdab89, 0x98badcfe, 0x10325476)

  // ----- the one-shot definition ------------------------------------------------------------

  /** The transform applied to the complete blocks of m, in order (section 3.4). */
  function Fold(t: Transform, st: State, m: seq<byte>): State
    decreases |m|
  {
    if |m| < BLOCK then st else Fold(t, t(st, m[..BLOCK]), m[BLOCK..])
  }

  /** The bytes behind the last complete block. */
  function Tail(m: seq<byte>): (rest: seq<byte>)
    ensures |rest| == |m| % BLOCK
  {
    m[|m| - |m| % BLOCK..]
  }

  function Zeros(n: nat): (z: seq<byte>)
    ensures |z| == n && forall i :: 0 <= i < n ==> z[i] == 0
  {
    seq(n, _ => 0)
  }

  /** n in k bytes, low-order byte first. */
  function LittleEndian(n: nat, k: nat): (bytes: seq<byte>)
    ensures |bytes| == k
  {
    if k == 0 then [] else [(n % 0x100) as byte] + LittleEndian(n / 0x100, k - 1)
  }

  function FromLittleEndian(bytes: seq<byte>): nat {
    if bytes == [] then 0 else bytes[0] as nat + 0x100 * FromLittleEndian(bytes[1..])
  }

  /** Zero bytes between the mark and the length: up to 56 modulo 64 (section 3.1). */
  function PadZeros(n: nat): (k: nat)
    ensures (n + 1 + k) % BLOCK == 56 && k < BLOCK
  {
    (119 - n % BLOCK) % BLOCK
  }

  /** The message with its padding and its length in bits (sections 3.1 and 3.2). */
  function Padded(m: seq<byte>): seq<byte> {
    m + Padding(|m|) + LengthBytes(|m|)
  }

  function Padding(n: nat): (p: seq<byte>)
    ensures (n + |p|) % BLOCK == 56 && 1 <= |p| <= BLOCK
  {
    [0x80] + Zeros(PadZeros(n))
  }

  function LengthBytes(n: nat): (bytes: seq<byte>)
    ensures |bytes| == 8
  {
    LittleEndian(8 * n % (WORDS * WORDS), 8)
  }

  function StateBytes(st: State): (digest: seq<byte>)
    ensures |digest| == 16
  {
    LittleEndian(st.a as nat, 4) + LittleEndian(st.b as nat, 4) + LittleEndian(st.c as nat, 4) + LittleEndian(st.d as nat, 4)
  }

  /** The digest of a message (section 3.5). */
  function Digest(t: Transform, m: seq<byte>): seq<byte> {
    StateBytes(Fold(t, INITIAL, Padded(m)))
  }

  // ----- folding piece by piece ---------------------------------------------------------------

  lemma TailSkipsBlock(m: seq<byte>)
    requires |m| >= BLOCK
    ensures Tail(m[BLOCK..]) == Tail(m)
  {
    assert |m[BLOCK..]| % BLOCK == |m| % BLOCK;
  }

  lemma {:induction false} FoldResumes(t: Transform, st: State, m: seq<byte>, more: seq<byte>)
    ensures Fold(t, st, m + more) == Fold(t, Fold(t, st, m), Tail(m) + more)
    ensures Tail(m + more) == Tail(Tail(m) + more)
    decreases |m|
  {
    if |m| < BLOCK {
      assert Tail(m) == m;
    } else {
      var rest, st' := m[BLOCK..], t(st, m[..BLOCK]);
      FoldResumes(t, st', rest, more);
      BlockInFront(m, more);
      TailSkipsBlock(m);
      TailSkipsBlock(m + more);
    }
  }

  lemma BlockInFront(m: seq<byte>, more: seq<byte>)
    requires |m| >= BLOCK
    ensures (m + more)[..BLOCK] == m[..BLOCK] && (m + more)[BLOCK..] == m[BLOCK..] + more
  {
  }

  function Power256(k: nat): (p: nat)
    ensures p > 0
  {
    if k == 0 then 1 else 0x100 * Power256(k - 1)
  }

  /** Decode undoes Encode. */
  lemma {:induction false} EndianRoundTrip(n: nat, k: nat)
    requires n < Power256(k)
    ensures FromLittleEndian(LittleEndian(n, k)) == n
  {
    if k > 0 {
      EndianRoundTrip(n / 0x100, k - 1);
      assert LittleEndian(n, k)[1..] == LittleEndian(n / 0x100, k - 1);
    }
  }

  /** A number of j + k bytes is its low k bytes followed by its high j bytes. */
  lemma {:induction false} EndianSplit(low: nat, high: nat, k: nat, j: nat)
    requires low < Power256(k)
    ensures LittleEndian(high * Power256(k) + low, k + j) == LittleEndian(low, k) + LittleEndian(high, j)
  {
    if k == 0 {
      assert [] + LittleEndian(high, j) == LittleEndian(high, j);
    } else {
      var p := Power256(k - 1);
      var n := high * (0x100 * p) + low;
      assert n == 0x100 * (high * p) + low by {
        assert high * (0x100 * p) == 0x100 * (high * p);
      }
      assert n % 0x100 == low % 0x100 && n / 0x100 == high * p + low / 0x100;
      EndianSplit(low / 0x100, high, k - 1, j);
    }
  }

  /** The padded message is a whole number of blocks, and the fewest that have room for the mark
      and the length. */
  lemma PaddedIsLeast(m: seq<byte>)
    ensures |Padded(m)| % BLOCK == 0 && |m| + 9 <= |Padded(m)| < |m| + 9 + BLOCK
  {
    LengthLeast(|m|, |Padding(|m|)|);
  }

  lemma LengthLeast(n: nat, p: nat)
    requires (n + p) % BLOCK == 56
    ensures (n + p + 8) % BLOCK == 0
  {
    var q := (n + p) / BLOCK;
    assert n + p + 8 == BLOCK * (q + 1);
  }

  // ----- the context ---------------------------------------------------------------------------

  /** The two words of the bit count after a message of n bytes. */
  predicate CountIs(lo: nat, hi: nat, n: nat) {
    lo < WORDS && hi < WORDS && hi * WORDS + lo == 8 * n % (WORDS * WORDS)
  }

  /** What is buffered and the input are together shorter than 2^32 bytes; then and only then the
      block loop of MD5Update comes to its end. */
  predicate LoopFits(index: nat, len: nat) {
    index + len < WORDS
  }

  class Context {
    const transform: Transform
    var state: State
    var countLo: nat
    var countHi: nat
    const buffer: array<byte>
    ghost var msg: seq<byte>        // everything fed in so far

    /** The fields say exactly what msg determines: the folded state, the length in bits,
        and the bytes that do not fill a block yet. */
    ghost predicate Valid()
      reads this, buffer
    {
      && buffer.Length == BLOCK
      && state == Fold(transform, INITIAL, msg)
      && CountIs(countLo, countHi, |msg|)
      && buffer[..|msg| % BLOCK] == Tail(msg)
    }

    /** MD5Init. */
    constructor (t: Transform)
      ensures Valid() && msg == [] && transform == t && fresh(buffer)
    {
      transform := t;
      state := INITIAL;
      countLo, countHi := 0, 0;
      buffer := new byte[BLOCK];
      msg := [];
    }
  
    /** Number of bits, modulo 2^64, with a carry by hand. */
    method AddLength(len: nat, ghost n: nat)
      requires len < WORDS && CountIs(countLo, countHi, n)
      modifies this`countLo, this`countHi
      ensures CountIs(countLo, countHi, n + len)
    {
      var bits := len * 8 % WORDS;
      ghost var lo, hi := countLo, countHi;
      countLo := (countLo + bits) % WORDS;
      if countLo < bits {
        countHi := (countHi + 1) % WORDS;
      }
      countHi := (countHi + len / 0x2000_0000) % WORDS;
      CountAdds(lo, hi, n, len);
    }

    /** The number of bytes in the buffer, as the count tells it. */
    method Index() returns (index: nat)
      requires CountIs(countLo, countHi, |msg|)
      ensures index == |msg| % BLOCK
    {
      CountGivesIndex(countLo, countHi, |msg|);
      index := countLo / 8 % BLOCK;
    }

    /** MD5_memcpy into the buffer. */
    method Store(at: nat, bytes: seq<byte>)
      requires buffer.Length == BLOCK && at + |bytes| <= BLOCK
      modifies buffer
      ensures buffer[..] == old(buffer[..at]) + bytes + old(buffer[at + |bytes|..])
    {
      forall i | 0 <= i < |bytes| {
        buffer[at + i] := bytes[i];
      }
    }

    /** The block loop of MD5Update, from position i of the input on. */
    method FoldInput(input: seq<byte>, i: nat) returns (i': nat)
      requires 1 <= i <= BLOCK && i <= |input| && LoopFits(BLOCK - i, |input|)
      modifies this`state
      ensures i <= i' <= |input| && |input| - i' == (|input| - i) % BLOCK
      ensures state == Fold(transform, old(state), input[i..])
    {
      ghost var blocks, rest := (|input| - i) / BLOCK, (|input| - i) % BLOCK;
      i' := i;
      LoopEndFits(BLOCK - i, |input|);
      while (i' + 63) % WORDS < |input|
        invariant i <= i' && blocks >= 0 && |input| == i' + BLOCK * blocks + rest
        invariant Fold(transform, state, input[i'..]) == Fold(transform, old(state), input[i..])
        decreases blocks
      {
        assert blocks > 0;
        assert input[i'..][..BLOCK] == input[i'..i' + BLOCK] && input[i'..][BLOCK..] == input[i' + BLOCK..];
        state := transform(state, input[i'..i' + BLOCK]);
        i' := (i' + 64) % WORDS;
        blocks := blocks - 1;
      }
    }

    /** The second half of MD5Update: fill the buffer, transform what is complete, keep the
        rest.  tail is what the buffer already holds. */
    method Absorb(index: nat, input: seq<byte>, ghost tail: seq<byte>)
      requires buffer.Length == BLOCK && index < BLOCK && |input| < WORDS
      requires |tail| == index && buffer[..index] == tail && LoopFits(index, |input|)
      modifies this`state, buffer
      ensures state == Fold(transform, old(state), tail + input)
      ensures buffer[..|Tail(tail + input)|] == Tail(tail + input)
    {
      var partLen := BLOCK - index;
      if |input| >= partLen {
        FirstBlock(transform, state, tail, input);
        Store(index, input[..partLen]);
        assert buffer[..] == tail + input[..partLen];
        state := transform(state, buffer[..]);
        var i := FoldInput(input, partLen);
        TailOfRest(tail, input, i);
        Store(0, input[i..]);
      } else {
        Store(index, input);
        assert Tail(tail + input) == tail + input;
      }
    }

    /** MD5Update. */
    method Update(input: seq<byte>)
      requires Valid() && |input| < WORDS && LoopFits(|msg| % BLOCK, |input|)
      modifies this`state, this`countLo, this`countHi, this`msg, buffer
      ensures Valid() && msg == old(msg) + input
    {
      var index := Index();
      AddLength(|input|, |msg|);
      FoldResumes(transform, INITIAL, msg, input);
      Absorb(index, input, Tail(msg));
      msg := msg + input;
    }
  
    /** MD5Final: pad, append the length, and read off the state; then wipe the context. */
    method Final() returns (digest: seq<byte>)
      requires Valid()
      modifies this, buffer
      ensures digest == Digest(transform, old(msg))
      ensures state == State(0, 0, 0, 0) && countLo == countHi == 0
      ensures forall i :: 0 <= i < buffer.Length ==> buffer[i] == 0
    {
      ghost var m := msg;
      var bits := LittleEndian(countLo, 4) + LittleEndian(countHi, 4);
      CountBytes(countLo, countHi, |msg|);
      var index := Index();
      var padLen := if index < 56 then 56 - index else 120 - index;
      PaddingIs(|m|, padLen);
      Update(PADDING[..padLen]);
      Update(bits);
      assert msg == Padded(m);
      digest := StateBytes(state);
      state := State(0, 0, 0, 0);
      countLo, countHi := 0, 0;
      forall i | 0 <= i < buffer.Length {
        buffer[i] := 0;
      }
    }
  }

  const PADDING := [0x80] + Zeros(63)

  lemma PaddingIs(n: nat, padLen: nat)
    requires padLen == if n % BLOCK < 56 then 56 - n % BLOCK else 120 - n % BLOCK
    ensures padLen <= |PADDING| && PADDING[..padLen] == Padding(n)
  {
  }

  /** Encode of the two count words is the length as an eight-byte number. */
  lemma CountBytes(lo: nat, hi: nat, n: nat)
    requires CountIs(lo, hi, n)
    ensures LittleEndian(lo, 4) + LittleEndian(hi, 4) == LengthBytes(n)
  {
    assert Power256(4) == WORDS by {
      assert Power256(1) == 0x100 && Power256(2) == 0x1_0000 && Power256(3) == 0x100_0000;
    }
    EndianSplit(lo, hi, 4, 4);
  }

  // ----- the loop index -----------------------------------------------------------------------

  /** Where the loop would stop, its index does not wrap round. */
  lemma LoopEndFits(index: nat, len: nat)
    requires index < BLOCK && BLOCK - index <= len && LoopFits(index, len)
    ensures len - (len - (BLOCK - index)) % BLOCK + 63 < WORDS
  {
    var blocks := (index + len) / BLOCK;
    assert (len - (BLOCK - index)) % BLOCK == (index + len) % BLOCK;
    assert BLOCK * blocks < WORDS;
  }

  /** The 32-bit index of the block loop after n rounds, if it runs that long. */
  function IndexAfter(index: nat, n: nat): (i: nat)
    requires index < BLOCK
    ensures i < WORDS
  {
    if n == 0 then BLOCK - index else (IndexAfter(index, n - 1) + 64) % WORDS
  }

  /** The loop test i + 63 < inputLen. */
  predicate GoesOn(i: nat, len: nat) {
    (i + 63) % WORDS < len
  }

  lemma {:induction false} IndexBeforeWrap(index: nat, n: nat)
    requires index < BLOCK && BLOCK - index + 64 * n < WORDS
    ensures IndexAfter(index, n) == BLOCK - index + 64 * n
  {
    if n > 0 {
      IndexBeforeWrap(index, n - 1);
    }
  }

  lemma {:induction false} IndexKeepsPlace(index: nat, n: nat)
    requires index < BLOCK
    ensures (IndexAfter(index, n) + index) % BLOCK == 0
  {
    if n > 0 {
      IndexKeepsPlace(index, n - 1);
      PlaceKept(IndexAfter(index, n - 1), index);
    }
  }

  lemma PlaceKept(i: nat, index: nat)
    requires (i + index) % BLOCK == 0
    ensures ((i + 64) % WORDS + index) % BLOCK == 0
  {
    var k := (i + 64) / WORDS;
    assert (i + 64) % WORDS + index == i + index + BLOCK * (1 - 0x400_0000 * k);
  }

  /** An index in its place passes the test whenever buffer and input are too long together. */
  lemma AlwaysOn(i: nat, index: nat, len: nat)
    requires i < WORDS && index < BLOCK && len < WORDS && (i + index) % BLOCK == 0 && !LoopFits(index, len)
    ensures GoesOn(i, len)
  {
    var q := (i + index) / BLOCK;
    assert i + index == BLOCK * q && WORDS == BLOCK * 0x400_0000;
    if q < 0x400_0000 {
      assert i + 63 < len;
    } else {
      assert q == 0x400_0000;
      assert (i + 63) % WORDS == 63 - index;
    }
  }

  /** The block loop ends if and only if buffer and input are together shorter than 2^32 bytes. */
  lemma LoopEndsIffFits(index: nat, len: nat)
    requires index < BLOCK && BLOCK - index <= len < WORDS
    ensures (exists n: nat :: !GoesOn(IndexAfter(index, n), len)) <==> LoopFits(index, len)
  {
    if LoopFits(index, len) {
      var n := (len - (BLOCK - index)) / BLOCK;
      LoopEndFits(index, len);
      IndexBeforeWrap(index, n);
      assert !GoesOn(IndexAfter(index, n), len);
    } else {
      forall n: nat
        ensures GoesOn(IndexAfter(index, n), len)
      {
        IndexKeepsPlace(index, n);
        AlwaysOn(IndexAfter(index, n), index, len);
      }
    }
  }

  /** One byte buffered and the longest input there is: the loop never ends. */
  lemma LoopMayNotEnd(n: nat)
    ensures GoesOn(IndexAfter(1, n), WORDS - 1)
  {
    LoopEndsIffFits(1, WORDS - 1);
  }

  // ----- any way of cutting the message up ------------------------------------------------------

  function Concat(pieces: seq<seq<byte>>): seq<byte> {
    if pieces == [] then [] else pieces[0] + Concat(pieces[1..])
  }

  /** Feeding a message in pieces gives the digest of the whole. */
  method HashPieces(t: Transform, pieces: seq<seq<byte>>) returns (digest: seq<byte>)
    requires forall i :: 0 <= i < |pieces| ==> LoopFits(|Concat(pieces[..i])| % BLOCK, |pieces[i]|)
    ensures digest == Digest(t, Concat(pieces))
  {
    var context := new Context(t);
    for i := 0 to |pieces|
      invariant context.Valid() && context.transform == t && fresh(context) && fresh(context.buffer)
      invariant context.msg == Concat(pieces[..i])
    {
      ConcatOne(pieces[..i], pieces[i]);
      assert pieces[..i + 1] == pieces[..i] + [pieces[i]];
      context.Update(pieces[i]);
    }
    assert pieces[..|pieces|] == pieces;
    digest := context.Final();
  }

  lemma {:induction false} ConcatOne(pieces: seq<seq<byte>>, last: seq<byte>)
    ensures Concat(pieces + [last]) == Concat(pieces) + last
  {
    if pieces == [] {
      assert [last][1..] == [] && pieces + [last] == [last] && [] + last == last == last + [];
    } else {
      ConcatOne(pieces[1..], last);
      assert (pieces + [last])[1..] == pieces[1..] + [last];
      assert pieces[0] + (Concat(pieces[1..]) + last) == (pieces[0] + Concat(pieces[1..])) + last;
    }
  }

  /** Two contexts that were fed the same bytes, however they were cut up, agree in every
      field and in every byte of the buffer that counts. */
  lemma SameMessageSameContext(c: Context, d: Context)
    requires c.Valid() && d.Valid() && c.msg == d.msg && c.transform == d.transform
    ensures c.state == d.state && c.countLo == d.countLo && c.countHi == d.countHi
    ensures c.buffer[..|c.msg| % BLOCK] == d.buffer[..|c.msg| % BLOCK]
  {
    CountIsUnique(c.countLo, c.countHi, d.countLo, d.countHi, |c.msg|);
  }

  lemma CountIsUnique(lo: nat, hi: nat, lo': nat, hi': nat, n: nat)
    requires CountIs(lo, hi, n) && CountIs(lo', hi', n)
    ensures lo == lo' && hi == hi'
  {
  }

  lemma FirstBlock(t: Transform, st: State, tail: seq<byte>, input: seq<byte>)
    requires |tail| < BLOCK <= |tail| + |input|
    ensures var head := tail + input[..BLOCK - |tail|];
            Fold(t, st, tail + input) == Fold(t, t(st, head), input[BLOCK - |tail|..])
  {
    var k := BLOCK - |tail|;
    assert (tail + input)[..BLOCK] == tail + input[..k] && (tail + input)[BLOCK..] == input[k..];
  }

  lemma TailOfRest(tail: seq<byte>, input: seq<byte>, i: nat)
    requires |tail| < BLOCK <= |tail| + |input| && i <= |input|
    requires |input| - i == (|input| - (BLOCK - |tail|)) % BLOCK
    ensures Tail(tail + input) == input[i..]
  {
  }

  /** A 64-bit sum written as two words with a carry. */
  lemma CountAdds(lo: nat, hi: nat, n: nat, len: nat)
    requires CountIs(lo, hi, n) && len < WORDS
    ensures var bits := len * 8 % WORDS;
            var lo' := (lo + bits) % WORDS;
            var carried := if lo' < bits then (hi + 1) % WORDS else hi;
            CountIs(lo', (carried + len / 0x2000_0000) % WORDS, n + len)
  {
    var bits, high := len * 8 % WORDS, len / 0x2000_0000;
    var carry := if lo + bits >= WORDS then 1 else 0;
    var lo' := lo + bits - carry * WORDS;
    LowWord(lo, bits, carry);
    HighWord(hi, carry, high);
    LengthInBits(len, high, bits);
    LowAndHigh(8 * n, hi, lo, 8 * len, hi + carry + high, lo');
  }

  lemma LowWord(lo: nat, bits: nat, carry: nat)
    requires lo < WORDS && bits < WORDS && carry == if lo + bits >= WORDS then 1 else 0
    ensures (lo + bits) % WORDS == lo + bits - carry * WORDS
    ensures (lo + bits) % WORDS < bits <==> carry == 1
  {
  }

  lemma LengthInBits(len: nat, high: nat, bits: nat)
    requires high == len / 0x2000_0000 && bits == len * 8 % WORDS
    ensures 8 * len == high * WORDS + bits
  {
    assert len == 0x2000_0000 * high + len % 0x2000_0000;
  }

  lemma HighWord(hi: nat, carry: nat, high: nat)
    requires carry <= 1
    ensures ((if carry == 1 then (hi + 1) % WORDS else hi) + high) % WORDS == (hi + carry + high) % WORDS
  {
  }

  lemma LowAndHigh(x: nat, hi: nat, lo: nat, y: nat, c: nat, lo': nat)
    requires hi * WORDS + lo == x % (WORDS * WORDS)
    requires hi * WORDS + lo + y == c * WORDS + lo' && lo' < WORDS
    ensures c % WORDS * WORDS + lo' == (x + y) % (WORDS * WORDS)
  {
    var q, k := x / (WORDS * WORDS), c / WORDS;
    assert x + y == (q + k) * (WORDS * WORDS) + (c % WORDS * WORDS + lo');
  }

  lemma CountGivesIndex(lo: nat, hi: nat, n: nat)
    requires CountIs(lo, hi, n)
    ensures lo / 8 % BLOCK == n % BLOCK
  {
    var q := 8 * n / (WORDS * WORDS);
    assert lo == 8 * (n - 0x2000_0000 * (q * WORDS + hi));
    Eighth(lo, n, 0x80_0000 * (q * WORDS + hi));
  }

  lemma Eighth(lo: nat, n: nat, k: int)
    requires lo == 8 * (n - BLOCK * k)
    ensures lo / 8 % BLOCK == n % BLOCK
  {
    assert lo / 8 == n - BLOCK * k;
  }
}
