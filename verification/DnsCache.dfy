/** The DNS cache: hash buckets, the last-used list and the memory counter, changed together
    under the hash lock. */
module DnsCache {
  import opened Wrappers
  import opened DnsHash
  import opened DnsEntries
  import opened DnsTypes
  import opened Words
  import opened Sequences

  // ----- making room, as a function of the last-used list -------------------------------------

  predicate Removable(e: Entry, expiredOnly: bool, now: Word) {
    !expiredOnly || Expired(e, now)
  }

  /** What is left of the list and of the counter when the clean-up stops at target. */
  function Swept(l: seq<Entry>, mem: Word, target: Word, expiredOnly: bool, now: Word): (seq<Entry>, Word) {
    if l == [] || mem <= target then (l, mem)
    else if Removable(l[0], expiredOnly, now) then Swept(l[1..], Minus(mem, l[0].size), target, expiredOnly, now)
    else
      var r := Swept(l[1..], mem, target, expiredOnly, now);
      ([l[0]] + r.0, r.1)
  }

  /** What is left when up to no entries are looked at. */
  function Cleaned(l: seq<Entry>, no: nat, expiredOnly: bool, now: Word): seq<Entry> {
    if l == [] || no == 0 then l
    else if Removable(l[0], expiredOnly, now) then Cleaned(l[1..], no - 1, expiredOnly, now)
    else [l[0]] + Cleaned(l[1..], no - 1, expiredOnly, now)
  }

  /** The clean-up ends at the target or with nothing removable left. */
  lemma {:induction false} SweepReachesTarget(l: seq<Entry>, mem: Word, target: Word, expiredOnly: bool, now: Word)
    ensures var r := Swept(l, mem, target, expiredOnly, now);
      r.1 <= target || forall e | e in r.0 :: !Removable(e, expiredOnly, now)
    decreases |l|
  {
    if l != [] && mem > target {
      if Removable(l[0], expiredOnly, now) {
        SweepReachesTarget(l[1..], Minus(mem, l[0].size), target, expiredOnly, now);
      } else {
        SweepReachesTarget(l[1..], mem, target, expiredOnly, now);
      }
    }
  }

  /** Only expired entries go: the live ones stay, in order. */
  lemma {:induction false} SweepSparesLive(l: seq<Entry>, mem: Word, target: Word, now: Word)
    ensures Live(Swept(l, mem, target, true, now).0, now) == Live(l, now)
    decreases |l|
  {
    if l != [] && mem > target {
      if Expired(l[0], now) {
        SweepSparesLive(l[1..], Minus(mem, l[0].size), target, now);
      } else {
        SweepSparesLive(l[1..], mem, target, now);
        var r := Swept(l[1..], mem, target, true, now).0;
        assert ([l[0]] + r)[1..] == r;
      }
    }
  }

  /** Otherwise the least recently used entries go, and no more of them than needed. */
  lemma {:induction false} SweepTakesPrefix(l: seq<Entry>, mem: Word, target: Word, now: Word)
    ensures var r := Swept(l, mem, target, false, now);
      && |r.0| <= |l| && r.0 == l[|l| - |r.0|..]
      && forall j :: 0 <= j < |l| - |r.0| ==> (mem - Total(l[..j])) % WORDS > target
    decreases |l|
  {
    if l != [] && mem > target {
      var mem' := Minus(mem, l[0].size);
      SweepTakesPrefix(l[1..], mem', target, now);
      var r := Swept(l, mem, target, false, now);
      forall j | 0 <= j < |l| - |r.0| ensures (mem - Total(l[..j])) % WORDS > target {
        if j > 0 {
          assert l[..j][1..] == l[1..][..j - 1];
          Wrap(mem - l[0].size, Total(l[1..][..j - 1]));
        } else {
          assert mem % WORDS == mem;
        }
      }
    }
  }

  lemma Wrap(a: int, b: int)
    ensures (a % WORDS - b) % WORDS == (a - b) % WORDS
    ensures (a % WORDS + b) % WORDS == (a + b) % WORDS
  {
    assert a == a / WORDS * WORDS + a % WORDS;
    Shift(a % WORDS - b, a / WORDS);
    Shift(a % WORDS + b, a / WORDS);
  }

  lemma Shift(a: int, k: int)
    ensures (a + k * WORDS) % WORDS == a % WORDS
  {
  }

  /** The counter goes down by the sizes of what was removed. */
  lemma {:induction false} SweepAccounts(l: seq<Entry>, mem: Word, target: Word, expiredOnly: bool, now: Word)
    ensures var r := Swept(l, mem, target, expiredOnly, now);
      r.1 == (mem - (Total(l) - Total(r.0))) % WORDS
    decreases |l|
  {
    if l != [] && mem > target {
      if Removable(l[0], expiredOnly, now) {
        SweepAccounts(l[1..], Minus(mem, l[0].size), target, expiredOnly, now);
        Wrap(mem - l[0].size, Total(l[1..]) - Total(Swept(l, mem, target, expiredOnly, now).0));
      } else {
        SweepAccounts(l[1..], mem, target, expiredOnly, now);
        var r := Swept(l[1..], mem, target, expiredOnly, now).0;
        assert ([l[0]] + r)[1..] == r;
      }
    } else {
      assert mem % WORDS == mem;
    }
  }

  /** A clean-up of expired entries spares the live ones, and leaves nothing else when it may
      look at the whole list. */
  lemma {:induction false} CleanSparesLive(l: seq<Entry>, no: nat, now: Word)
    ensures Live(Cleaned(l, no, true, now), now) == Live(l, now)
    ensures |l| <= no ==> Cleaned(l, no, true, now) == Live(l, now)
    decreases |l|
  {
    if l != [] && no > 0 {
      CleanSparesLive(l[1..], no - 1, now);
      var r := Cleaned(l[1..], no - 1, true, now);
      assert ([l[0]] + r)[1..] == r;
    }
  }

  lemma Rejoin(l: seq<Entry>, i: nat)
    requires i <= |l|
    ensures l[..i] + l[i..] == l
  {
  }

  // one step of a walk that has reached position i

  lemma SweepRemoves(l: seq<Entry>, i: nat, mem: Word, target: Word, expiredOnly: bool, now: Word)
    requires i < |l| && mem > target && Removable(l[i], expiredOnly, now)
    ensures var m := l[..i] + l[i + 1..];
      m[..i] == l[..i]
      && Swept(m[i..], Minus(mem, l[i].size), target, expiredOnly, now) == Swept(l[i..], mem, target, expiredOnly, now)
  {
    assert l[i..][1..] == l[i + 1..];
    assert (l[..i] + l[i + 1..])[i..] == l[i + 1..];
  }

  lemma SweepSkips(l: seq<Entry>, i: nat, mem: Word, target: Word, expiredOnly: bool, now: Word)
    requires i < |l| && mem > target && !Removable(l[i], expiredOnly, now)
    ensures var r := Swept(l[i..], mem, target, expiredOnly, now);
      var q := Swept(l[i + 1..], mem, target, expiredOnly, now);
      l[..i + 1] + q.0 == l[..i] + r.0 && q.1 == r.1
  {
    assert l[i..][1..] == l[i + 1..];
    Regroup(l[..i], [l[i]], Swept(l[i + 1..], mem, target, expiredOnly, now).0);
    assert l[..i + 1] == l[..i] + [l[i]];
  }

  lemma CleanRemoves(l: seq<Entry>, i: nat, no: nat, expiredOnly: bool, now: Word)
    requires i < |l| && no > 0 && Removable(l[i], expiredOnly, now)
    ensures var m := l[..i] + l[i + 1..];
      m[..i] + Cleaned(m[i..], no - 1, expiredOnly, now) == l[..i] + Cleaned(l[i..], no, expiredOnly, now)
  {
    assert l[i..][1..] == l[i + 1..];
    assert (l[..i] + l[i + 1..])[i..] == l[i + 1..];
  }

  lemma CleanSkips(l: seq<Entry>, i: nat, no: nat, expiredOnly: bool, now: Word)
    requires i < |l| && no > 0 && !Removable(l[i], expiredOnly, now)
    ensures l[..i + 1] + Cleaned(l[i + 1..], no - 1, expiredOnly, now) == l[..i] + Cleaned(l[i..], no, expiredOnly, now)
  {
    assert l[i..][1..] == l[i + 1..];
    Regroup(l[..i], [l[i]], Cleaned(l[i + 1..], no - 1, expiredOnly, now));
    assert l[..i + 1] == l[..i] + [l[i]];
  }

  /** The walk has reached position l, may look at left more entries, and will leave goal. */
  predicate CleaningTo(lru: seq<Entry>, l: nat, left: nat, expiredOnly: bool, now: Word, goal: seq<Entry>) {
    l <= |lru| && lru[..l] + Cleaned(lru[l..], left, expiredOnly, now) == goal
  }

  lemma CleaningStarts(lru: seq<Entry>, left: nat, expiredOnly: bool, now: Word)
    ensures CleaningTo(lru, 0, left, expiredOnly, now, Cleaned(lru, left, expiredOnly, now))
  {
    assert lru[0..] == lru && lru[..0] == [];
  }

  lemma CleaningEnds(lru: seq<Entry>, l: nat, left: nat, expiredOnly: bool, now: Word, goal: seq<Entry>)
    requires CleaningTo(lru, l, left, expiredOnly, now, goal) && (left == 0 || l == |lru|)
    ensures lru == goal
  {
    Rejoin(lru, l);
  }

  // ----- the buckets --------------------------------------------------------------------------

  /** The entries of l that are in s, in order. */
  function Restrict(l: seq<Entry>, s: set<Entry>): (r: seq<Entry>)
    ensures forall e | e in r :: e in l && e in s
    ensures forall e | e in l && e in s :: e in r
  {
    if l == [] then []
    else if l[0] in s then [l[0]] + Restrict(l[1..], s)
    else Restrict(l[1..], s)
  }

  lemma {:induction false} RestrictAll(l: seq<Entry>, s: set<Entry>)
    requires forall e | e in l :: e in s
    ensures Restrict(l, s) == l
  {
    if l != [] {
      RestrictAll(l[1..], s);
    }
  }

  lemma {:induction false} RestrictWithout(l: seq<Entry>, s: set<Entry>, e: Entry)
    requires Distinct(l)
    ensures Without(Restrict(l, s), e) == Restrict(l, s - {e})
  {
    if l != [] {
      var r := Restrict(l[1..], s);
      RestrictWithout(l[1..], s, e);
      assert ([l[0]] + r)[1..] == r;
      if l[0] == e {
        assert e !in l[1..];
        SameRestrict(l[1..], s, s - {e});
        if l[0] !in s {
          NotThere(r, e);
        }
      }
    }
  }

  lemma {:induction false} SameRestrict(l: seq<Entry>, s: set<Entry>, t: set<Entry>)
    requires forall e | e in l :: e in s <==> e in t
    ensures Restrict(l, s) == Restrict(l, t)
  {
    if l != [] {
      SameRestrict(l[1..], s, t);
    }
  }

  lemma {:induction false} NotThere(l: seq<Entry>, e: Entry)
    requires e !in l
    ensures Without(l, e) == l
  {
    if l != [] {
      NotThere(l[1..], e);
    }
  }

  predicate Within(l: seq<Entry>, m: seq<Entry>) {
    forall e | e in l :: e in m
  }

  function Elems(l: seq<Entry>): set<Entry> {
    set e | e in l
  }

  function Restricts(bs: seq<seq<Entry>>, s: set<Entry>): (r: seq<seq<Entry>>)
    ensures |r| == |bs| && forall i :: 0 <= i < |bs| ==> r[i] == Restrict(bs[i], s)
  {
    seq(|bs|, i requires 0 <= i < |bs| => Restrict(bs[i], s))
  }

  /** The live entries of every bucket. */
  function Lives(bs: seq<seq<Entry>>, now: Word): (r: seq<seq<Entry>>)
    ensures |r| == |bs| && forall i :: 0 <= i < |bs| ==> r[i] == Live(bs[i], now)
  {
    seq(|bs|, i requires 0 <= i < |bs| => Live(bs[i], now))
  }

  lemma LivesWithout(bs: seq<seq<Entry>>, b: nat, e: Entry, now: Word)
    requires b < |bs| && Expired(e, now)
    ensures Lives(bs[b := Without(bs[b], e)], now) == Lives(bs, now)
  {
    WithoutExpired(bs[b], e, now);
  }

  lemma Dropped(bs: seq<seq<Entry>>, lru: seq<Entry>, b: nat, i: nat, e: Entry, now: Word)
    requires b < |bs| && i < |bs[b]| && bs[b][i] == e && Expired(e, now) && Distinct(bs[b]) && Distinct(lru)
    ensures Without(bs[b], e) == bs[b][..i] + bs[b][i + 1..] && Within(Without(lru, e), lru)
    ensures Lives(bs[b := Without(bs[b], e)], now) == Lives(bs, now) && Live(Without(lru, e), now) == Live(lru, now)
  {
    Cut(bs[b], i);
    LivesWithout(bs, b, e, now);
    WithoutExpired(lru, e, now);
    WithoutContents(lru, e);
  }

  predicate Placed(hash: Hash, bs: seq<seq<Entry>>) {
    && |bs| == HASH_SIZE
    && (forall i | 0 <= i < HASH_SIZE :: Distinct(bs[i]))
    && (forall i, e | 0 <= i < HASH_SIZE && e in bs[i] :: hash(e.name) == i)
  }

  lemma RestrictsWithout(hash: Hash, bs: seq<seq<Entry>>, s: set<Entry>, e: Entry)
    requires Placed(hash, bs)
    ensures var b := hash(e.name);
      var r := Restricts(bs, s);
      r[b := Without(r[b], e)] == Restricts(bs, s - {e})
  {
    var b := hash(e.name);
    RestrictWithout(bs[b], s, e);
    forall i | 0 <= i < HASH_SIZE && i != b ensures Restrict(bs[i], s) == Restrict(bs[i], s - {e}) {
      SameRestrict(bs[i], s, s - {e});
    }
  }

  lemma RestrictsAll(bs: seq<seq<Entry>>, s: set<Entry>)
    requires forall i, e | 0 <= i < |bs| && e in bs[i] :: e in s
    ensures Restricts(bs, s) == bs
  {
    forall i | 0 <= i < |bs| ensures Restrict(bs[i], s) == bs[i] {
      RestrictAll(bs[i], s);
    }
  }

  /** The removal of one entry during a walk leaves the part walked and the rest as they are. */
  lemma {:induction false} Cut(l: seq<Entry>, i: nat)
    requires Distinct(l) && i < |l|
    ensures Without(l, l[i]) == l[..i] + l[i + 1..]
    decreases i
  {
    if i > 0 {
      assert l[0] != l[i] && Distinct(l[1..]);
      Cut(l[1..], i - 1);
      assert l[..i] == [l[0]] + l[1..][..i - 1];
    }
  }

  /** e at the end of the bucket of its name. */
  function Appended(hash: Hash, bs: seq<seq<Entry>>, e: Entry): seq<seq<Entry>>
    requires |bs| == HASH_SIZE
  {
    bs[hash(e.name) := bs[hash(e.name)] + [e]]
  }

  /** The list and the counter after dns_cache_add made room for e, if it had to. */
  function Roomy(l: seq<Entry>, mem: Word, maxMem: Word, e: Entry, now: Word): (seq<Entry>, Word) {
    if Plus(mem, e.size) >= maxMem then Swept(l, mem, mem / 16 * 14, true, now) else (l, mem)
  }

  lemma {:induction false} SweptKeeps(l: seq<Entry>, mem: Word, target: Word, expiredOnly: bool, now: Word)
    ensures forall e | e in Swept(l, mem, target, expiredOnly, now).0 :: e in l
    decreases |l|
  {
    if l != [] && mem > target {
      if Removable(l[0], expiredOnly, now) {
        SweptKeeps(l[1..], Minus(mem, l[0].size), target, expiredOnly, now);
      } else {
        SweptKeeps(l[1..], mem, target, expiredOnly, now);
      }
    }
  }

  /** The bound that a successful add checks is a bound on the real sum exactly when the sum
      does not wrap. */
  lemma AddBoundsTheSum(l: seq<Entry>, e: Entry, mem: Word, maxMem: Word)
    requires mem == Total(l) && Plus(mem, e.size) < maxMem
    ensures Total(l + [e]) < maxMem <==> mem + e.size < WORDS
  {
    AppendTotal(l, e);
  }

  lemma TouchContents(l: seq<Entry>, e: Entry)
    requires Distinct(l) && e in l
    ensures Distinct(Touch(l, e)) && Total(Touch(l, e)) == Total(l)
    ensures forall x :: x in Touch(l, e) <==> x in l
  {
    WithoutContents(l, e);
    WithoutTotal(l, e);
    AppendTotal(Without(l, e), e);
  }

  /** What a lookup returns, and what it does to the list of live entries. */
  predicate Reports(r: Found, ret: Option<Entry>, err: bool, before: seq<Entry>, after: seq<Entry>) {
    ret == r.entry && err == r.error && after == TouchAll(before, r.path)
  }

  /** The lookup r from the list before goes on as the lookup q from the list after. */
  predicate Leads(r: Found, before: seq<Entry>, q: Found, after: seq<Entry>) {
    r.entry == q.entry && r.error == q.error && TouchAll(before, r.path) == TouchAll(after, q.path)
  }

  /** What keeps the live entries keeps every entry that has not expired. */
  lemma LiveEntriesStay(bs: seq<seq<Entry>>, bs': seq<seq<Entry>>, now: Word, b: nat, e: Entry)
    requires Lives(bs', now) == Lives(bs, now) && b < |bs| && e in bs[b] && !Expired(e, now)
    ensures |bs'| == |bs| && e in bs'[b]
  {
    assert |Lives(bs', now)| == |Lives(bs, now)|;
    assert Lives(bs', now)[b] == Live(bs'[b], now) && Lives(bs, now)[b] == Live(bs[b], now);
    LiveContents(bs[b], now);
    LiveContents(bs'[b], now);
  }

  /** A lookup uses, and returns, live entries only. */
  lemma {:induction false} FoundIsLive(hash: Hash, bs: seq<seq<Entry>>, now: Word, name: Name, kind: nat, hops: nat,
                                       last: Option<Entry>)
    requires |bs| == HASH_SIZE && hops <= MAX_CNAME_CHAIN + 1 && (last.Some? ==> !Expired(last.value, now))
    ensures var r := Search(ByBucket(hash, Lives(bs, now), kind), name, kind, hops, last);
      && (r.entry.Some? ==> !Expired(r.entry.value, now))
      && forall e | e in r.path :: !Expired(e, now)
    decreases MAX_CNAME_CHAIN + 1 - hops
  {
    var look := ByBucket(hash, Lives(bs, now), kind);
    var m := look(name);
    if m.Some? {
      LiveContents(bs[hash(name)], now);
      if m.value.kind != kind && hops <= MAX_CNAME_CHAIN {
        FoundIsLive(hash, bs, now, m.value.target, kind, hops + 1, m);
      }
    }
  }

  // ----- the cache ----------------------------------------------------------------------------

  /** No name holds a zero byte: names are taken from C strings. */
  predicate Named(l: seq<Entry>) {
    forall e | e in l :: 0 !in e.name
  }

  /** init_dns_cache: an empty cache that files names by dns_hash_no. */
  method InitCache(maxMem: Word) returns (c: Cache)
    ensures fresh(c) && c.Valid() && c.lru == [] && c.memUsed == 0 && c.maxMem == maxMem
    ensures c.hash == Bucket && CaseBlind(c.hash)
  {
    BucketIsCaseBlind();
    c := new Cache(maxMem, Bucket);
  }

  class Cache {
    var buckets: seq<seq<Entry>>
    var lru: seq<Entry>
    var memUsed: Word
    const maxMem: Word
    const hash: Hash

    /** Both structures hold the same entries, each once and in the bucket of its name, the
        counter is the sum of their sizes, and no name holds a zero byte. */
    ghost predicate Valid()
      reads this
    {
      && |buckets| == HASH_SIZE
      && Distinct(lru)
      && (forall i | 0 <= i < HASH_SIZE :: Distinct(buckets[i]))
      && (forall e | e in lru :: e in buckets[hash(e.name)])
      && (forall i, e | 0 <= i < HASH_SIZE && e in buckets[i] :: hash(e.name) == i && e in lru)
      && memUsed == Total(lru) % WORDS
      && Named(lru)
    }

    constructor (maxMem: Word, hash: Hash)
      ensures Valid() && lru == [] && memUsed == 0 && this.maxMem == maxMem && this.hash == hash
    {
      buckets := seq(HASH_SIZE, _ => []);
      lru := [];
      memUsed := 0;
      this.maxMem, this.hash := maxMem, hash;
    }

    /** _dns_hash_remove, up to the release of the table's reference. */
    method Remove(e: Entry)
      requires Valid() && e in lru
      modifies this
      ensures Valid()
      ensures lru == Without(old(lru), e)
      ensures buckets == old(buckets)[hash(e.name) := Without(old(buckets[hash(e.name)]), e)]
      ensures memUsed == Minus(old(memUsed), e.size)
    {
      var b := hash(e.name);
      WithoutContents(lru, e);
      WithoutTotal(lru, e);
      WithoutContents(buckets[b], e);
      Wrap(Total(lru), e.size);
      buckets := buckets[b := Without(buckets[b], e)];
      lru := Without(lru, e);
      memUsed := Minus(memUsed, e.size);
    }

    /** The body of a removing walk at position l of the last-used list. */
    method RemoveAt(l: nat, ghost bs: seq<seq<Entry>>)
      requires Valid() && l < |lru| && Placed(hash, bs) && buckets == Restricts(bs, Elems(lru))
      modifies this
      ensures Valid()
      ensures lru == old(lru)[..l] + old(lru)[l + 1..]
      ensures memUsed == Minus(old(memUsed), old(lru[l]).size)
      ensures buckets == Restricts(bs, Elems(lru))
    {
      var e := lru[l];
      Cut(lru, l);
      RestrictsWithout(hash, bs, Elems(lru), e);
      WithoutContents(lru, e);
      assert Elems(Without(lru, e)) == Elems(lru) - {e};
      Remove(e);
    }

    /** dns_cache_free_mem. */
    method FreeMem(target: Word, expiredOnly: bool, now: Word) returns (deleted: nat)
      requires Valid()
      modifies this
      ensures Valid()
      ensures (lru, memUsed) == Swept(old(lru), old(memUsed), target, expiredOnly, now)
      ensures buckets == Restricts(old(buckets), Elems(lru))
      ensures deleted == |old(lru)| - |lru|
    {
      deleted := 0;
      var l := 0;
      ghost var bs := buckets;
      RestrictsAll(bs, Elems(lru));
      ghost var goal := Swept(lru, memUsed, target, expiredOnly, now);
      assert lru[0..] == lru && lru[..0] + goal.0 == goal.0;
      while l < |lru|
        invariant Valid() && l <= |lru|
        invariant deleted == |old(lru)| - |lru|
        invariant var r := Swept(lru[l..], memUsed, target, expiredOnly, now); (lru[..l] + r.0, r.1) == goal
        invariant buckets == Restricts(bs, Elems(lru))
        decreases |lru| - l
      {
        if memUsed <= target {
          break;
        }
        if !expiredOnly || Expired(lru[l], now) {
          SweepRemoves(lru, l, memUsed, target, expiredOnly, now);
          RemoveAt(l, bs);
          deleted := deleted + 1;
        } else {
          SweepSkips(lru, l, memUsed, target, expiredOnly, now);
          l := l + 1;
        }
      }
      Rejoin(lru, l);
    }

    /** dns_cache_clean. */
    method Clean(no: Word, expiredOnly: bool, now: Word) returns (deleted: nat)
      requires Valid()
      modifies this
      ensures Valid()
      ensures lru == Cleaned(old(lru), if no == 0 then 1 else no, expiredOnly, now)
      ensures buckets == Restricts(old(buckets), Elems(lru))
      ensures deleted == |old(lru)| - |lru|
    {
      deleted := 0;
      var l: nat, n: nat := 0, 0;
      ghost var bs := buckets;
      RestrictsAll(bs, Elems(lru));
      ghost var most := if no == 0 then 1 else no;
      ghost var goal := Cleaned(lru, most, expiredOnly, now);
      CleaningStarts(lru, most, expiredOnly, now);
      while l < |lru|
        invariant n < most && Cleaning(l, most - n, expiredOnly, now, bs, goal)
        invariant deleted == |old(lru)| - |lru|
        decreases |lru| - l
      {
        var removed;
        l, removed := CleanOne(l, expiredOnly, now, most - n, bs, goal);
        deleted := deleted + removed;
        n := n + 1;
        if n >= no {
          break;
        }
      }
      CleaningEnds(lru, l, most - n, expiredOnly, now, goal);
    }

    /** The walk of dns_cache_clean over the buckets bs has come to position l. */
    ghost predicate Cleaning(l: nat, left: nat, expiredOnly: bool, now: Word, bs: seq<seq<Entry>>, goal: seq<Entry>)
      reads this
    {
      && Valid() && CleaningTo(lru, l, left, expiredOnly, now, goal)
      && Placed(hash, bs) && buckets == Restricts(bs, Elems(lru))
    }

    /** The entry at position l is removed or passed over. */
    method CleanOne(l: nat, expiredOnly: bool, now: Word, ghost left: nat, ghost bs: seq<seq<Entry>>,
                    ghost goal: seq<Entry>)
      returns (l': nat, removed: nat)
      requires Cleaning(l, left, expiredOnly, now, bs, goal) && l < |lru| && left > 0
      modifies this
      ensures Cleaning(l', left - 1, expiredOnly, now, bs, goal)
      ensures |lru| + removed == old(|lru|) && |lru| - l' < old(|lru|) - l
    {
      l', removed := l, 0;
      if !expiredOnly || Expired(lru[l], now) {
        CleanRemoves(lru, l, left, expiredOnly, now);
        RemoveAt(l, bs);
        removed := 1;
      } else {
        CleanSkips(lru, l, left, expiredOnly, now);
        l' := l + 1;
      }
    }

    /** dns_cache_add, undisturbed by other processes. */
    method Add(e: Entry, now: Word) returns (ok: bool)
      requires Valid() && e !in lru && 0 !in e.name
      modifies this
      ensures Valid()
      ensures var r := Roomy(old(lru), old(memUsed), maxMem, e, now);
        && (ok <==> Plus(r.1, e.size) < maxMem)
        && lru == (if ok then r.0 + [e] else r.0)
        && memUsed == (if ok then Plus(r.1, e.size) else r.1)
        && buckets == (if ok then Appended(hash, Restricts(old(buckets), Elems(r.0)), e) else Restricts(old(buckets), Elems(r.0)))
      ensures ok ==> memUsed < maxMem
    {
      RestrictsAll(buckets, Elems(lru));
      if Plus(memUsed, e.size) >= maxMem {
        var _ := FreeMem(memUsed / 16 * 14, true, now);
        SweptKeeps(old(lru), old(memUsed), old(memUsed) / 16 * 14, true, now);
      }
      ok := AddIfFits(e);
    }

    /** What dns_cache_add_unsafe does after taking the lock again. */
    method AddIfFits(e: Entry) returns (ok: bool)
      requires Valid() && e !in lru && 0 !in e.name
      modifies this
      ensures Valid() && (ok <==> Plus(old(memUsed), e.size) < maxMem) && (ok ==> memUsed < maxMem)
      ensures lru == (if ok then old(lru) + [e] else old(lru))
      ensures memUsed == (if ok then Plus(old(memUsed), e.size) else old(memUsed))
      ensures buckets == (if ok then Appended(hash, old(buckets), e) else old(buckets))
    {
      ok := Plus(memUsed, e.size) < maxMem;
      if ok {
        Append(e);
      }
    }

    /** dns_timer: room is made when more than three quarters of the memory are used. */
    method Timer(now: Word) returns (deleted: nat)
      requires Valid()
      modifies this
      ensures Valid()
      ensures Live(lru, now) == Live(old(lru), now)
      ensures old(memUsed) > 12 * (maxMem / 16) ==> memUsed <= maxMem / 2 || forall e | e in lru :: !Expired(e, now)
      ensures old(memUsed) <= 12 * (maxMem / 16) && |old(lru)| < WORDS ==> lru == Live(old(lru), now)
    {
      if memUsed > 12 * (maxMem / 16) {
        deleted := FreeMem(maxMem / 2, true, now);
        SweepSparesLive(old(lru), old(memUsed), maxMem / 2, now);
        SweepReachesTarget(old(lru), old(memUsed), maxMem / 2, true, now);
      } else {
        deleted := Clean(WORDS - 1, true, now);
        CleanSparesLive(old(lru), WORDS - 1, now);
      }
    }

    /** What dns_cache_add does under the lock. */
    method Append(e: Entry)
      requires Valid() && e !in lru && 0 !in e.name
      modifies this
      ensures Valid()
      ensures lru == old(lru) + [e]
      ensures buckets == Appended(hash, old(buckets), e)
      ensures memUsed == Plus(old(memUsed), e.size)
    {
      var b := hash(e.name);
      AppendTotal(lru, e);
      Wrap(Total(lru), e.size);
      memUsed := Plus(memUsed, e.size);
      buckets := buckets[b := buckets[b] + [e]];
      lru := lru + [e];
    }

    /** The walk of _dns_hash_find through the bucket of one name. */
    method Scan(name: Name, kind: nat, now: Word) returns (m: Option<Entry>)
      requires Valid()
      modifies this
      ensures Valid()
      ensures m == First(Live(old(buckets[hash(name)]), now), name, kind)
      ensures Lives(buckets, now) == Lives(old(buckets), now)
      ensures Live(lru, now) == if m.Some? then Touch(Live(old(lru), now), m.value) else Live(old(lru), now)
      ensures Within(lru, old(lru))
    {
      var h := hash(name);
      var i := 0;
      m := None;
      ghost var bs, l0 := buckets, lru;
      assert buckets[h][0..] == buckets[h];
      while i < |buckets[h]|
        invariant Valid() && i <= |buckets[h]| && Within(lru, l0)
        invariant First(Live(buckets[h][i..], now), name, kind) == First(Live(bs[h], now), name, kind)
        invariant Lives(buckets, now) == Lives(bs, now)
        invariant Live(lru, now) == Live(l0, now)
        decreases |buckets[h]| - i
      {
        var e := buckets[h][i];
        assert buckets[h][i..][1..] == buckets[h][i + 1..];
        if Expired(e, now) {
          DropExpired(e, i, now);
        } else if Matches(e.name, name) && (e.kind == kind || e.kind == T_CNAME) {
          MoveToEnd(e, now);
          return Some(e);
        } else {
          i := i + 1;
        }
      }
    }

    /** _dns_hash_remove of an expired entry met at position i of its bucket. */
    method DropExpired(e: Entry, i: nat, now: Word)
      requires Valid() && e in lru && Expired(e, now)
      requires i < |buckets[hash(e.name)]| && buckets[hash(e.name)][i] == e
      modifies this
      ensures Valid()
      ensures Within(lru, old(lru))
      ensures var b := hash(e.name); buckets[b] == old(buckets)[b][..i] + old(buckets)[b][i + 1..]
      ensures Lives(buckets, now) == Lives(old(buckets), now)
      ensures Live(lru, now) == Live(old(lru), now)
    {
      var b := hash(e.name);
      Dropped(buckets, lru, b, i, e, now);
      Remove(e);
    }

    /** The entry becomes the most recently used one. */
    method MoveToEnd(e: Entry, now: Word)
      requires Valid() && e in lru && !Expired(e, now)
      modifies this`lru
      ensures Valid()
      ensures lru == Touch(old(lru), e) && Within(lru, old(lru))
      ensures Live(lru, now) == Touch(Live(old(lru), now), e)
    {
      TouchContents(lru, e);
      LiveTouch(lru, e, now);
      lru := Without(lru, e) + [e];
    }

    /** One round of _dns_hash_find: the walk through a bucket and what is made of its result. */
    method Hop(name: Name, kind: nat, chain: nat, last: Option<Entry>, now: Word, ghost bs: seq<seq<Entry>>)
      returns (done: bool, ret: Option<Entry>, err: bool, cname: Name)
      requires Valid() && chain <= MAX_CNAME_CHAIN + 1 && Lives(buckets, now) == bs
      modifies this
      ensures Valid() && Within(lru, old(lru)) && Lives(buckets, now) == bs
      ensures done ==>
        Reports(Search(ByBucket(hash, bs, kind), name, kind, chain, last), ret, err, Live(old(lru), now), Live(lru, now))
      ensures !done ==>
        && chain <= MAX_CNAME_CHAIN
        && Leads(Search(ByBucket(hash, bs, kind), name, kind, chain, last), Live(old(lru), now),
                 Search(ByBucket(hash, bs, kind), cname, kind, chain + 1, ret), Live(lru, now))
    {
      ghost var look := ByBucket(hash, bs, kind);
      var m := Scan(name, kind, now);
      assert m == look(name);
      if m == None {
        SearchEnds(look, name, kind, chain, last);
        return true, last, false, name;
      }
      TouchAllOne(Live(old(lru), now), m.value);
      if m.value.kind == kind {
        SearchHits(look, name, kind, chain, last, m.value);
        return true, m, false, name;
      }
      if chain > MAX_CNAME_CHAIN {
        SearchGivesUp(look, name, kind, last, m.value);
        return true, None, true, name;
      }
      SearchFollows(look, name, kind, chain, last, m.value, Live(old(lru), now));
      return false, m, false, m.value.target;
    }

    /** _dns_hash_find: the answer of a plain search of all live entries, which stay as they are
        but for the order of use. */
    method Find(name: Name, kind: nat, now: Word) returns (ret: Option<Entry>, err: bool)
      requires Valid() && CaseBlind(hash)
      modifies this
      ensures Valid()
      ensures Within(lru, old(lru)) && Lives(buckets, now) == Lives(old(buckets), now)
      ensures Reports(Search(Through(Flatten(Lives(old(buckets), now)), kind), name, kind, 0, None), ret, err,
                      Live(old(lru), now), Live(lru, now))
    {
      ghost var bs := Lives(buckets, now);
      LivesInPlace(now);
      BucketsSearchEverything(hash, bs, name, kind);
      ret, err := FindFrom(name, kind, 0, None, now, bs);
    }

    lemma LivesInPlace(now: Word)
      requires Valid()
      ensures InPlace(hash, Lives(buckets, now), 0)
    {
      var bs := Lives(buckets, now);
      forall i, e: Entry | 0 <= i < HASH_SIZE && e in bs[i] ensures 0 !in e.name && hash(e.name) == i {
        LiveIsThere(buckets[i], now, e);
      }
    }

    /** From the label that _dns_hash_find goes back to, with chain aliases followed. */
    method FindFrom(name: Name, kind: nat, chain: nat, last: Option<Entry>, now: Word, ghost bs: seq<seq<Entry>>)
      returns (ret: Option<Entry>, err: bool)
      requires Valid() && chain <= MAX_CNAME_CHAIN + 1 && Lives(buckets, now) == bs
      modifies this
      ensures Valid() && Within(lru, old(lru)) && Lives(buckets, now) == bs
      ensures
        Reports(Search(ByBucket(hash, bs, kind), name, kind, chain, last), ret, err, Live(old(lru), now), Live(lru, now))
      decreases MAX_CNAME_CHAIN + 1 - chain
    {
      var done, n;
      done, ret, err, n := Hop(name, kind, chain, last, now, bs);
      if !done {
        ret, err := FindFrom(n, kind, chain + 1, ret, now, bs);
      }
    }
  }
}
