/** Lists of cache entries as values: which entries are live, what they weigh, and what a name
    leads to. */
module DnsEntries {
  import opened Wrappers
  import opened DnsHash
  import opened DnsTypes
  import opened Words

  const MAX_CNAME_CHAIN := 10

  /** Addition and subtraction of unsigned 32-bit values. */
  function Plus(a: Word, b: Word): (r: Word)
    ensures r == (a + b) % WORDS
  {
    if a + b < WORDS then a + b else a + b - WORDS
  }

  function Minus(a: Word, b: Word): (r: Word)
    ensures r == (a - b) % WORDS
  {
    if a >= b then a - b else a - b + WORDS
  }

  /** An entry of the cache.  target is the name in the first record of a CNAME entry. */
  class Entry {
    const name: Name
    const kind: nat
    const expire: Word
    const size: Word
    const target: Name

    constructor (name: Name, kind: nat, expire: Word, size: Word, target: Name)
      ensures this.name == name && this.kind == kind && this.expire == expire && this.size == size
      ensures this.target == target
    {
      this.name, this.kind, this.expire, this.size, this.target := name, kind, expire, size, target;
    }
  }

  predicate Expired(e: Entry, now: Word) {
    Passed(e.expire, now)
  }

  /** The entries of l that have not expired, in order. */
  function Live(l: seq<Entry>, now: Word): seq<Entry> {
    if l == [] then []
    else if Expired(l[0], now) then Live(l[1..], now)
    else [l[0]] + Live(l[1..], now)
  }

  lemma {:induction false} LiveContents(l: seq<Entry>, now: Word)
    ensures forall e :: e in Live(l, now) <==> e in l && !Expired(e, now)
  {
    if l != [] {
      LiveContents(l[1..], now);
    }
  }

  lemma {:induction false} LiveIsThere(l: seq<Entry>, now: Word, e: Entry)
    requires e in Live(l, now)
    ensures e in l
  {
    if e != l[0] {
      LiveIsThere(l[1..], now, e);
    }
  }

  function Total(l: seq<Entry>): nat {
    if l == [] then 0 else l[0].size + Total(l[1..])
  }

  predicate Distinct(l: seq<Entry>) {
    forall i, j :: 0 <= i < j < |l| ==> l[i] != l[j]
  }

  /** l with e taken out. */
  function Without(l: seq<Entry>, e: Entry): seq<Entry> {
    if l == [] then [] else if l[0] == e then l[1..] else [l[0]] + Without(l[1..], e)
  }

  lemma {:induction false} WithoutContents(l: seq<Entry>, e: Entry)
    requires Distinct(l)
    ensures Distinct(Without(l, e))
    ensures forall x :: x in Without(l, e) <==> x in l && x != e
  {
    if l != [] {
      assert Distinct(l[1..]);
      WithoutContents(l[1..], e);
      assert l[0] !in l[1..];
      assert forall x :: x in l <==> x == l[0] || x in l[1..];
    }
  }

  lemma {:induction false} WithoutTotal(l: seq<Entry>, e: Entry)
    requires e in l
    ensures Total(Without(l, e)) == Total(l) - e.size
  {
    if l[0] != e {
      WithoutTotal(l[1..], e);
    }
  }

  lemma {:induction false} AppendTotal(l: seq<Entry>, e: Entry)
    ensures Total(l + [e]) == Total(l) + e.size
  {
    if l == [] {
      assert [e][1..] == [];
    } else {
      assert (l + [e])[1..] == l[1..] + [e];
      AppendTotal(l[1..], e);
    }
  }

  /** Taking out an expired entry does not show among the live ones. */
  lemma {:induction false} WithoutExpired(l: seq<Entry>, e: Entry, now: Word)
    requires Expired(e, now)
    ensures Live(Without(l, e), now) == Live(l, now)
  {
    if l != [] && l[0] != e {
      WithoutExpired(l[1..], e, now);
    }
  }

  lemma {:induction false} LiveAppend(l: seq<Entry>, m: seq<Entry>, now: Word)
    ensures Live(l + m, now) == Live(l, now) + Live(m, now)
  {
    if l == [] {
      assert l + m == m;
    } else {
      assert (l + m)[1..] == l[1..] + m;
      LiveAppend(l[1..], m, now);
    }
  }

  lemma {:induction false} WithoutLive(l: seq<Entry>, e: Entry, now: Word)
    requires !Expired(e, now)
    ensures Live(Without(l, e), now) == Without(Live(l, now), e)
  {
    if l != [] && l[0] != e {
      WithoutLive(l[1..], e, now);
    }
  }

  /** e becomes the most recently used. */
  function Touch(l: seq<Entry>, e: Entry): seq<Entry> {
    Without(l, e) + [e]
  }

  function TouchAll(l: seq<Entry>, path: seq<Entry>): seq<Entry>
    decreases |path|
  {
    if path == [] then l else TouchAll(Touch(l, path[0]), path[1..])
  }

  lemma LiveTouch(l: seq<Entry>, e: Entry, now: Word)
    requires !Expired(e, now)
    ensures Live(Touch(l, e), now) == Touch(Live(l, now), e)
  {
    LiveAppend(Without(l, e), [e], now);
    WithoutLive(l, e, now);
    assert Live([e], now) == [e] by {
      assert [e][1..] == [];
    }
  }

  // ----- what a name leads to -----------------------------------------------------------------

  predicate Answers(e: Entry, name: Name, kind: nat) {
    Matches(e.name, name) && (e.kind == kind || e.kind == T_CNAME)
  }

  /** The first entry of l that is of the kind or an alias, under the name. */
  function First(l: seq<Entry>, name: Name, kind: nat): (r: Option<Entry>)
    ensures r.Some? ==> r.value in l && Answers(r.value, name, kind)
    ensures r.None? ==> forall e | e in l :: !Answers(e, name, kind)
  {
    if l == [] then None else if Answers(l[0], name, kind) then Some(l[0]) else First(l[1..], name, kind)
  }

  /** What a lookup reports, and the entries that it used in order. */
  datatype Found = Found(entry: Option<Entry>, error: bool, path: seq<Entry>)

  /** A lookup that answers one name with look and follows the aliases it meets.  last is the
      alias that led to name, hops how many were followed. */
  function Search(look: Name -> Option<Entry>, name: Name, kind: nat, hops: nat, last: Option<Entry>): Found
    requires hops <= MAX_CNAME_CHAIN + 1
    decreases MAX_CNAME_CHAIN + 1 - hops
  {
    match look(name)
    case None => Found(last, false, [])
    case Some(e) =>
      if e.kind == kind then Found(Some(e), false, [e])
      else if hops > MAX_CNAME_CHAIN then Found(None, true, [e])
      else
        var rest := Search(look, e.target, kind, hops + 1, Some(e));
        Found(rest.entry, rest.error, [e] + rest.path)
  }

  // the cases of a lookup

  lemma SearchEnds(look: Name -> Option<Entry>, name: Name, kind: nat, hops: nat, last: Option<Entry>)
    requires hops <= MAX_CNAME_CHAIN + 1 && look(name) == None
    ensures Search(look, name, kind, hops, last) == Found(last, false, [])
  {
  }

  lemma SearchHits(look: Name -> Option<Entry>, name: Name, kind: nat, hops: nat, last: Option<Entry>, e: Entry)
    requires hops <= MAX_CNAME_CHAIN + 1 && look(name) == Some(e) && e.kind == kind
    ensures Search(look, name, kind, hops, last) == Found(Some(e), false, [e])
  {
  }

  lemma SearchGivesUp(look: Name -> Option<Entry>, name: Name, kind: nat, last: Option<Entry>, e: Entry)
    requires look(name) == Some(e) && e.kind != kind
    ensures Search(look, name, kind, MAX_CNAME_CHAIN + 1, last) == Found(None, true, [e])
  {
  }

  lemma SearchFollows(look: Name -> Option<Entry>, name: Name, kind: nat, hops: nat, last: Option<Entry>, e: Entry,
                      l: seq<Entry>)
    requires hops <= MAX_CNAME_CHAIN && look(name) == Some(e) && e.kind != kind
    ensures var r := Search(look, name, kind, hops, last);
      var q := Search(look, e.target, kind, hops + 1, Some(e));
      r.entry == q.entry && r.error == q.error && TouchAll(l, r.path) == TouchAll(Touch(l, e), q.path)
  {
  }

  lemma TouchAllOne(l: seq<Entry>, e: Entry)
    ensures TouchAll(l, [e]) == Touch(l, e)
  {
    assert [e][1..] == [];
  }

  /** Plain search through a sequence of entries. */
  function Through(l: seq<Entry>, kind: nat): Name -> Option<Entry> {
    name => First(l, name, kind)
  }

  /** Search of the bucket of the name only. */
  function ByBucket(hash: Hash, bs: seq<seq<Entry>>, kind: nat): Name -> Option<Entry>
    requires |bs| == HASH_SIZE
  {
    name => First(bs[hash(name)], name, kind)
  }

  function Flatten(bs: seq<seq<Entry>>): seq<Entry> {
    if bs == [] then [] else bs[0] + Flatten(bs[1..])
  }

  /** Names that are equal up to case share a bucket. */
  ghost predicate CaseBlind(hash: Hash) {
    forall s, t | SameUpToCase(s, t) :: hash(s) == hash(t)
  }

  lemma BucketIsCaseBlind()
    ensures CaseBlind(Bucket)
  {
    forall s, t | SameUpToCase(s, t) ensures Bucket(s) == Bucket(t) {
      SameBucket(s, t);
    }
  }

  /** Every entry is in the bucket of its name, and no name holds a zero byte. */
  predicate InPlace(hash: Hash, bs: seq<seq<Entry>>, from: nat) {
    forall i, e | 0 <= i < |bs| && e in bs[i] :: 0 !in e.name && hash(e.name) == from + i
  }

  lemma {:induction false} FirstInSum(l: seq<Entry>, m: seq<Entry>, name: Name, kind: nat)
    ensures First(l + m, name, kind) ==
      if First(l, name, kind).Some? then First(l, name, kind) else First(m, name, kind)
  {
    if l == [] {
      assert l + m == m;
    } else {
      assert (l + m)[1..] == l[1..] + m;
      FirstInSum(l[1..], m, name, kind);
    }
  }

  lemma ElsewhereNoAnswer(hash: Hash, l: seq<Entry>, b: nat, name: Name, kind: nat)
    requires CaseBlind(hash)
    requires forall e | e in l :: 0 !in e.name && hash(e.name) == b
    requires b != hash(name)
    ensures First(l, name, kind) == None
  {
    var r := First(l, name, kind);
    if r.Some? {
      MatchesIffSameUpToCase(r.value.name, name);
      assert false;
    }
  }

  /** Looking into one bucket finds what looking through everything finds. */
  lemma {:induction false} BucketIsEnough(hash: Hash, bs: seq<seq<Entry>>, from: nat, name: Name, kind: nat)
    requires CaseBlind(hash) && InPlace(hash, bs, from)
    ensures First(Flatten(bs), name, kind) ==
      if from <= hash(name) < from + |bs| then First(bs[hash(name) - from], name, kind) else None
    decreases |bs|
  {
    if bs != [] {
      assert forall e | e in bs[0] :: 0 !in e.name && hash(e.name) == from;
      assert InPlace(hash, bs[1..], from + 1) by {
        forall i, e | 0 <= i < |bs[1..]| && e in bs[1..][i] ensures 0 !in e.name && hash(e.name) == from + 1 + i {
          assert e in bs[i + 1];
        }
      }
      BucketIsEnough(hash, bs[1..], from + 1, name, kind);
      FirstInSum(bs[0], Flatten(bs[1..]), name, kind);
      if hash(name) != from {
        ElsewhereNoAnswer(hash, bs[0], from, name, kind);
      }
    }
  }

  lemma {:induction false} SameLookSameSearch(f: Name -> Option<Entry>, g: Name -> Option<Entry>,
                                              name: Name, kind: nat, hops: nat, last: Option<Entry>)
    requires hops <= MAX_CNAME_CHAIN + 1 && forall n :: f(n) == g(n)
    ensures Search(f, name, kind, hops, last) == Search(g, name, kind, hops, last)
    decreases MAX_CNAME_CHAIN + 1 - hops
  {
    if f(name).Some? && f(name).value.kind != kind && hops <= MAX_CNAME_CHAIN {
      SameLookSameSearch(f, g, f(name).value.target, kind, hops + 1, f(name));
    }
  }

  lemma LooksAgree(hash: Hash, bs: seq<seq<Entry>>, name: Name, kind: nat)
    requires CaseBlind(hash) && |bs| == HASH_SIZE && InPlace(hash, bs, 0)
    ensures ByBucket(hash, bs, kind)(name) == Through(Flatten(bs), kind)(name)
  {
    BucketIsEnough(hash, bs, 0, name, kind);
  }

  /** The lookup by buckets is the plain search of all entries. */
  lemma BucketsSearchEverything(hash: Hash, bs: seq<seq<Entry>>, name: Name, kind: nat)
    requires CaseBlind(hash) && |bs| == HASH_SIZE && InPlace(hash, bs, 0)
    ensures Search(ByBucket(hash, bs, kind), name, kind, 0, None) == Search(Through(Flatten(bs), kind), name, kind, 0, None)
  {
    var f, g := ByBucket(hash, bs, kind), Through(Flatten(bs), kind);
    forall n ensures f(n) == g(n) {
      LooksAgree(hash, bs, n, kind);
    }
    SameLookSameSearch(f, g, name, kind, 0, None);
  }

  // ----- chains of aliases --------------------------------------------------------------------

  /** The name reached after following n aliases, if there are that many. */
  function Follow(look: Name -> Option<Entry>, name: Name, kind: nat, n: nat): Option<Name>
    decreases n
  {
    if n == 0 then Some(name)
    else match look(name)
      case None => None
      case Some(e) => if e.kind == kind then None else Follow(look, e.target, kind, n - 1)
  }

  /** A lookup fails with an error exactly when it meets a twelfth alias. */
  lemma {:induction false} ErrorIffTooManyAliases(look: Name -> Option<Entry>, name: Name, kind: nat, hops: nat,
                                                  last: Option<Entry>)
    requires hops <= MAX_CNAME_CHAIN + 1
    ensures Search(look, name, kind, hops, last).error <==> Follow(look, name, kind, MAX_CNAME_CHAIN + 2 - hops).Some?
    decreases MAX_CNAME_CHAIN + 1 - hops
  {
    match look(name)
    case None =>
    case Some(e) =>
      if e.kind != kind {
        if hops <= MAX_CNAME_CHAIN {
          ErrorIffTooManyAliases(look, e.target, kind, hops + 1, Some(e));
        } else {
          assert Follow(look, e.target, kind, 0) == Some(e.target);
        }
      }
  }

  /** names holds a loop: each of them leads by an alias to one of them. */
  predicate Loops(look: Name -> Option<Entry>, names: set<Name>, kind: nat) {
    forall n | n in names :: look(n).Some? && look(n).value.kind != kind && look(n).value.target in names
  }

  lemma {:induction false} LoopGoesOn(look: Name -> Option<Entry>, names: set<Name>, kind: nat, name: Name, n: nat)
    requires Loops(look, names, kind) && name in names
    ensures Follow(look, name, kind, n).Some?
    decreases n
  {
    if n > 0 {
      LoopGoesOn(look, names, kind, look(name).value.target, n - 1);
    }
  }

  /** Every loop of aliases is reported. */
  lemma {:induction false} LoopIsReported(look: Name -> Option<Entry>, names: set<Name>, kind: nat, name: Name)
    requires Loops(look, names, kind) && name in names
    ensures Search(look, name, kind, 0, None).error
  {
    LoopGoesOn(look, names, kind, name, MAX_CNAME_CHAIN + 2);
    ErrorIffTooManyAliases(look, name, kind, 0, None);
  }

  /** Without an error the entry found is the last one used: of the kind asked for, or an alias
      that leads to a name without an entry. */
  lemma {:induction false} FoundIsLastUsed(look: Name -> Option<Entry>, name: Name, kind: nat, hops: nat,
                                           last: Option<Entry>)
    requires hops <= MAX_CNAME_CHAIN + 1
    ensures var r := Search(look, name, kind, hops, last);
      && (r.error ==> r.entry == None)
      && (!r.error && r.path == [] ==> r.entry == last && look(name) == None)
      && (!r.error && r.path != [] ==>
            var e := r.path[|r.path| - 1];
            r.entry == Some(e) && (e.kind == kind || look(e.target) == None))
    decreases MAX_CNAME_CHAIN + 1 - hops
  {
    match look(name)
    case None =>
    case Some(e) =>
      if e.kind != kind && hops <= MAX_CNAME_CHAIN {
        FoundIsLastUsed(look, e.target, kind, hops + 1, Some(e));
      }
  }
}
