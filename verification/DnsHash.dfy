/** The hash that picks the bucket of a DNS name, computed in 32-bit words over signed bytes,
    and the comparison of names that the lookup uses. */
module DnsHash {
  type Name = seq<bv8>

  const HASH_SIZE := 1024

  /** The number of a bucket, and a way to pick one for a name. */
  type Slot = x: int | 0 <= x < HASH_SIZE witness 0
  type Hash = Name -> Slot

  /** A char promoted to int. */
  function Widen(c: bv8): bv32 {
    if c < 0x80 then c as bv32 else (c as bv32) | 0xffff_ff00
  }

  function FourBytes(a: bv8, b: bv8, c: bv8, d: bv8): bv32 {
    ((Widen(a) << 24) + (Widen(b) << 16) + (Widen(c) << 8) + Widen(d)) | 0x2020_2020
  }

  /** What the update macros do with a whole word, with a trailing byte, and with a finished value. */
  datatype Mixer = Mixer(
    word: (bv8, bv8, bv8, bv8) -> bv32,
    byte: (bv32, bv8) -> bv32,
    add: (bv32, bv32) -> bv32)

  function CaseByte(v: bv32, c: bv8): bv32 {
    (v << 8) + (Widen(c) | 0x20)
  }

  function Add(h: bv32, v: bv32): bv32 {
    h + (v ^ (v >> 3))
  }

  /** hash_update_case_str. */
  const CASE_STR := Mixer(FourBytes, CaseByte, Add)

  /** The up to three bytes behind the last whole word. */
  function Rest(m: Mixer, v: bv32, s: Name): bv32
    decreases |s|
  {
    if s == [] then v else Rest(m, m.byte(v, s[0]), s[1..])
  }

  function Update(m: Mixer, h: bv32, s: Name): bv32
    decreases |s|
  {
    if |s| >= 4
    then Update(m, m.add(h, m.word(s[0], s[1], s[2], s[3])), s[4..])
    else m.add(h, Rest(m, 0, s))
  }

  function Finish(h: bv32): bv32 {
    (h + (h >> 11)) + ((h >> 13) + (h >> 23))
  }

  function CaseHash(s: Name): bv32 {
    Finish(Update(CASE_STR, 0, s))
  }

  /** dns_hash_no. */
  function Bucket(s: Name): Slot {
    CaseHash(s) as int % HASH_SIZE
  }

  /** The two loops of an update macro. */
  method UpdateStr(m: Mixer, h0: bv32, s: Name) returns (h: bv32)
    ensures h == Update(m, h0, s)
  {
    h := h0;
    var p := 0;
    while p + 4 <= |s|
      invariant p <= |s| && Update(m, h, s[p..]) == Update(m, h0, s)
    {
      assert s[p..][4..] == s[p + 4..];
      var v := m.word(s[p], s[p + 1], s[p + 2], s[p + 3]);
      h := m.add(h, v);
      p := p + 4;
    }
    ghost var tail := p;
    var v: bv32 := 0;
    while p < |s|
      invariant tail <= p <= |s| && Rest(m, v, s[p..]) == Rest(m, 0, s[tail..])
    {
      assert s[p..][1..] == s[p + 1..];
      v := m.byte(v, s[p]);
      p := p + 1;
    }
    h := m.add(h, v);
  }

  /** get_hash1_case_raw, and the bucket that dns_hash_no makes of it. */
  method HashNo(s: Name) returns (b: Slot)
    ensures b == Bucket(s)
  {
    var h := UpdateStr(CASE_STR, 0, s);
    b := Finish(h) as int % HASH_SIZE;
  }

  // ----- names that differ in case only -------------------------------------------------------

  function Lower(c: bv8): bv8 {
    if 0x41 <= c <= 0x5a then c + 0x20 else c
  }

  predicate SameUpToCase(s: Name, t: Name) {
    |s| == |t| && forall i :: 0 <= i < |s| ==> Lower(s[i]) == Lower(t[i])
  }

  /** strncasecmp over at most n bytes gives zero: it stops at a zero byte in both. */
  predicate CaseEqual(s: Name, t: Name, n: nat)
    requires n <= |s| && n <= |t|
    decreases n
  {
    n == 0 || (Lower(s[0]) == Lower(t[0]) && (s[0] == 0 || CaseEqual(s[1..], t[1..], n - 1)))
  }

  /** The names are taken as equal by the lookup. */
  predicate Matches(s: Name, t: Name) {
    |s| == |t| && CaseEqual(s, t, |s|)
  }

  /** On names without a zero byte the comparison is equality up to case. */
  lemma {:induction false} MatchesIffSameUpToCase(s: Name, t: Name)
    requires 0 !in s
    ensures Matches(s, t) <==> SameUpToCase(s, t)
  {
    if |s| == |t| && s != [] {
      MatchesIffSameUpToCase(s[1..], t[1..]);
      assert SameUpToCase(s, t) <==> Lower(s[0]) == Lower(t[0]) && SameUpToCase(s[1..], t[1..]) by {
        assert forall i :: 0 <= i < |s| - 1 ==> s[1..][i] == s[i + 1] && t[1..][i] == t[i + 1];
        assert forall i :: 0 < i < |s| ==> s[i] == s[1..][i - 1] && t[i] == t[1..][i - 1];
      }
    }
  }

  // Signed bytes borrow from the byte above, but never so far that the case bit of a letter
  // could matter.

  lemma Flip0(a: bv8, b: bv8, c: bv8, d: bv8, x: bv8)
    requires Lower(a) == Lower(x)
    ensures FourBytes(a, b, c, d) == FourBytes(x, b, c, d)
  {
  }

  lemma Flip1(a: bv8, b: bv8, c: bv8, d: bv8, x: bv8)
    requires Lower(b) == Lower(x)
    ensures FourBytes(a, b, c, d) == FourBytes(a, x, c, d)
  {
  }

  lemma Flip2(a: bv8, b: bv8, c: bv8, d: bv8, x: bv8)
    requires Lower(c) == Lower(x)
    ensures FourBytes(a, b, c, d) == FourBytes(a, b, x, d)
  {
  }

  lemma Flip3(a: bv8, b: bv8, c: bv8, d: bv8, x: bv8)
    requires Lower(d) == Lower(x)
    ensures FourBytes(a, b, c, d) == FourBytes(a, b, c, x)
  {
  }

  lemma WordIgnoresCase(a: bv8, b: bv8, c: bv8, d: bv8, a': bv8, b': bv8, c': bv8, d': bv8)
    requires Lower(a) == Lower(a') && Lower(b) == Lower(b') && Lower(c) == Lower(c') && Lower(d) == Lower(d')
    ensures FourBytes(a, b, c, d) == FourBytes(a', b', c', d')
  {
    Flip0(a, b, c, d, a');
    Flip1(a', b, c, d, b');
    Flip2(a', b', c, d, c');
    Flip3(a', b', c', d, d');
  }

  lemma ByteIgnoresCase(v: bv32, a: bv8, b: bv8)
    requires Lower(a) == Lower(b)
    ensures CaseByte(v, a) == CaseByte(v, b)
  {
  }

  ghost predicate IgnoresCase(m: Mixer) {
    && (forall a, b, c, d, a', b', c', d' |
          Lower(a) == Lower(a') && Lower(b) == Lower(b') && Lower(c) == Lower(c') && Lower(d) == Lower(d') ::
          m.word(a, b, c, d) == m.word(a', b', c', d'))
    && (forall v, a, b | Lower(a) == Lower(b) :: m.byte(v, a) == m.byte(v, b))
  }

  lemma {:induction false} RestIgnoresCase(m: Mixer, v: bv32, s: Name, t: Name)
    requires IgnoresCase(m) && SameUpToCase(s, t)
    ensures Rest(m, v, s) == Rest(m, v, t)
    decreases |s|
  {
    if s != [] {
      RestIgnoresCase(m, m.byte(v, s[0]), s[1..], t[1..]);
    }
  }

  lemma {:induction false} UpdateIgnoresCase(m: Mixer, h: bv32, s: Name, t: Name)
    requires IgnoresCase(m) && SameUpToCase(s, t)
    ensures Update(m, h, s) == Update(m, h, t)
    decreases |s|
  {
    if |s| >= 4 {
      UpdateIgnoresCase(m, m.add(h, m.word(s[0], s[1], s[2], s[3])), s[4..], t[4..]);
    } else {
      RestIgnoresCase(m, 0, s, t);
    }
  }

  lemma CaseStrIgnoresCase()
    ensures IgnoresCase(CASE_STR)
  {
    forall a, b, c, d, a', b', c', d' |
      Lower(a) == Lower(a') && Lower(b) == Lower(b') && Lower(c) == Lower(c') && Lower(d) == Lower(d')
      ensures CASE_STR.word(a, b, c, d) == CASE_STR.word(a', b', c', d')
    {
      WordIgnoresCase(a, b, c, d, a', b', c', d');
    }
    forall v, a, b | Lower(a) == Lower(b) ensures CASE_STR.byte(v, a) == CASE_STR.byte(v, b) {
      ByteIgnoresCase(v, a, b);
    }
  }

  /** Names that are equal up to case share a bucket. */
  lemma SameBucket(s: Name, t: Name)
    requires SameUpToCase(s, t)
    ensures Bucket(s) == Bucket(t)
  {
    CaseStrIgnoresCase();
    UpdateIgnoresCase(CASE_STR, 0, s, t);
  }
}
