/** Making one cache entry from the records of a DNS answer: the records that belong to the entry
    are taken out of the answer's linked list, measured, and copied into one block of memory. */
module DnsRecords {
  import opened Wrappers
  import opened DnsHash
  import opened DnsTypes
  import opened Words

  // sizes on a 64-bit machine
  const PTR_SIZE: nat := 8
  const SHORT: nat := 2
  const RR_SIZE: nat := 24
  const ENTRY_SIZE: nat := 64
  const SRV_FIXED: nat := 8
  const CNAME_FIXED: nat := 2
  const NAPTR_FIXED: nat := 48

  /** A record of the answer; data is what its rdata points to. */
  datatype Rec = Rec(name: Name, kind: nat, ttl: Word, data: seq<Byte>)

  predicate Belongs(r: Rec, name: Name, kind: nat) {
    Matches(r.name, name) && r.kind == kind
  }

  // ----- sizes --------------------------------------------------------------------------------

  /** Rounds up to a multiple of the pointer size. */
  function RoundPointer(s: nat): (r: nat)
    ensures s <= r < s + PTR_SIZE && r % PTR_SIZE == 0
  {
    (s + PTR_SIZE - 1) / PTR_SIZE * PTR_SIZE
  }

  /** Rounds up to a multiple of the size of a short. */
  function RoundShort(s: nat): (r: nat)
    ensures s <= r < s + SHORT && r % SHORT == 0
  {
    (s + SHORT - 1) / SHORT * SHORT
  }

  predicate Supported(kind: nat) {
    kind == T_A || kind == T_AAAA || kind == T_SRV || kind == T_NAPTR || kind == T_CNAME
  }

  /** The size of the rdata of a record; SRV and CNAME records end in a name of the length given
      in front of it, NAPTR records in four strings. */
  function DataSize(r: Rec): nat
    requires Sized(r)
  {
    if r.kind == T_A then 4
    else if r.kind == T_AAAA then 16
    else if r.kind == T_SRV then SRV_FIXED + r.data[6]
    else if r.kind == T_NAPTR then NAPTR_FIXED + r.data[36] + r.data[37] + r.data[38] + r.data[39]
    else if r.kind == T_CNAME then CNAME_FIXED + r.data[0]
    else 0
  }

  /** The record has the bytes that its kind and its name length call for; the pointers of a NAPTR
      record count as distances from its start. */
  predicate Sized(r: Rec) {
    if r.kind == T_A then |r.data| >= 4
    else if r.kind == T_AAAA then |r.data| >= 16
    else if r.kind == T_SRV then |r.data| >= SRV_FIXED && |r.data| >= SRV_FIXED + r.data[6]
    else if r.kind == T_NAPTR then
      |r.data| >= NAPTR_FIXED && |r.data| >= NAPTR_FIXED + r.data[36] + r.data[37] + r.data[38] + r.data[39]
    else if r.kind == T_CNAME then |r.data| >= CNAME_FIXED && |r.data| >= CNAME_FIXED + r.data[0]
    else true
  }

  /** Where the rdata starts behind the start of its dns_rr. */
  function DataAt(kind: nat): nat {
    if kind == T_SRV then RoundShort(RR_SIZE) else if kind == T_NAPTR then RoundPointer(RR_SIZE) else RR_SIZE
  }

  /** The room that a record takes in the block. */
  function Room(r: Rec): nat
    requires Sized(r)
  {
    RoundPointer(DataAt(r.kind) + DataSize(r))
  }

  function Rooms(l: seq<Node>): nat
    requires forall n | n in l :: Sized(n.rec)
  {
    if l == [] then 0 else Room(l[0].rec) + Rooms(l[1..])
  }

  lemma {:induction false} RoomsSnoc(l: seq<Node>, n: Node)
    requires (forall m | m in l :: Sized(m.rec)) && Sized(n.rec)
    ensures Rooms(l + [n]) == Rooms(l) + Room(n.rec)
  {
    if l == [] {
      assert [n][1..] == [];
    } else {
      assert (l + [n])[1..] == l[1..] + [n];
      RoomsSnoc(l[1..], n);
    }
  }

  lemma NoRoomNothing(l: seq<Node>)
    requires (forall n | n in l :: Sized(n.rec)) && Rooms(l) == 0
    ensures l == []
  {
  }

  // ----- the block ----------------------------------------------------------------------------

  /** FIX_TTL. */
  function Clamp(ttl: Word, low: Word, high: Word): Word {
    if ttl < low then low else if ttl > high then high else ttl
  }

  /** now + S_TO_TICKS(ttl), in unsigned 32-bit arithmetic. */
  function ExpireAt(now: Word, ttl: Word): Word {
    (now + ttl * 16) % WORDS
  }

  function Max(a: Word, b: Word): Word {
    if a > b then a else b
  }

  function MaxTtl(l: seq<Node>, low: Word, high: Word): Word {
    if l == [] then 0 else Max(Clamp(l[0].rec.ttl, low, high), MaxTtl(l[1..], low, high))
  }

  /** A dns_rr in the block: where it is, where its rdata is, and what is in it. */
  datatype Rr = Rr(at: nat, dataAt: nat, data: seq<Byte>, expire: Word)

  datatype Entry = Entry(name: Name, kind: nat, size: nat, expire: Word, rrs: seq<Rr>)

  /** The record r, copied to position at. */
  function RrOf(r: Rec, at: nat, now: Word, low: Word, high: Word): Rr
    requires Sized(r)
  {
    Rr(at, at + DataAt(r.kind), r.data[..DataSize(r)], ExpireAt(now, Clamp(r.ttl, low, high)))
  }

  /** The records laid out one behind the other from position at. */
  function Laid(l: seq<Node>, at: nat, now: Word, low: Word, high: Word): (rrs: seq<Rr>)
    requires forall n | n in l :: Sized(n.rec)
    ensures |rrs| == |l| && (l != [] ==> rrs[0].at == at)
  {
    if l == [] then []
    else [RrOf(l[0].rec, at, now, low, high)] + Laid(l[1..], at + Room(l[0].rec), now, low, high)
  }

  /** What the copy loop leaves: for NAPTR records it does not advance, and the last one stays. */
  function Kept(l: seq<Node>, kind: nat, at: nat, now: Word, low: Word, high: Word): (rrs: seq<Rr>)
    requires forall n | n in l :: Sized(n.rec)
  {
    if kind != T_NAPTR then Laid(l, at, now, low, high)
    else if l == [] then []
    else [RrOf(l[|l| - 1].rec, at, now, low, high)]
  }

  lemma RrFits(r: Rec, at: nat, now: Word, low: Word, high: Word)
    requires Sized(r) && at % PTR_SIZE == 0
    ensures var rr := RrOf(r, at, now, low, high);
      && rr.at == at && at + RR_SIZE <= rr.dataAt && rr.dataAt + |rr.data| <= at + Room(r)
      && (at + Room(r)) % PTR_SIZE == 0
  {
  }

  /** Each dns_rr is aligned, its rdata lies behind it and before the next one, and the last one
      ends where the measured block ends. */
  lemma {:induction false} LayoutFits(l: seq<Node>, at: nat, now: Word, low: Word, high: Word, i: nat)
    requires (forall n | n in l :: Sized(n.rec)) && at % PTR_SIZE == 0 && i < |l|
    ensures var rrs := Laid(l, at, now, low, high);
      && rrs[i].at % PTR_SIZE == 0 && at <= rrs[i].at && rrs[i].at + RR_SIZE <= rrs[i].dataAt
      && rrs[i].dataAt + |rrs[i].data| <= if i + 1 < |rrs| then rrs[i + 1].at else at + Rooms(l)
    decreases |l|
  {
    var r := l[0].rec;
    RrFits(r, at, now, low, high);
    if i > 0 {
      LayoutFits(l[1..], at + Room(r), now, low, high, i - 1);
    } else if |l| == 1 {
      assert Rooms(l[1..]) == 0;
    }
  }

  /** The NAPTR record that stays fits the block that was measured for all. */
  lemma {:induction false} NaptrFits(l: seq<Node>, at: nat, now: Word, low: Word, high: Word)
    requires l != [] && at % PTR_SIZE == 0 && forall n | n in l :: Sized(n.rec)
    ensures var rrs := Kept(l, T_NAPTR, at, now, low, high);
      |rrs| == 1 && rrs[0].at == at && rrs[0].dataAt + |rrs[0].data| <= at + Rooms(l)
  {
    if |l| == 1 {
      RrFits(l[0].rec, at, now, low, high);
      assert Rooms(l[1..]) == 0;
    } else {
      assert l[|l| - 1] == l[1..][|l| - 2];
      NaptrFits(l[1..], at, now, low, high);
    }
  }

  /** The entry lives as long as the longest lived of its records. */
  lemma {:induction false} MaxTtlIsMax(l: seq<Node>, low: Word, high: Word)
    ensures forall n | n in l :: Clamp(n.rec.ttl, low, high) <= MaxTtl(l, low, high)
    ensures l != [] ==> exists n :: n in l && Clamp(n.rec.ttl, low, high) == MaxTtl(l, low, high)
  {
    if l != [] {
      MaxTtlIsMax(l[1..], low, high);
      if l[1..] == [] || Clamp(l[0].rec.ttl, low, high) > MaxTtl(l[1..], low, high) {
        assert l[0] in l && Clamp(l[0].rec.ttl, low, high) == MaxTtl(l, low, high);
      } else {
        var n :| n in l[1..] && Clamp(n.rec.ttl, low, high) == MaxTtl(l[1..], low, high);
        assert n in l && Clamp(n.rec.ttl, low, high) == MaxTtl(l, low, high);
      }
    }
  }

  // ----- the split, as sequences --------------------------------------------------------------

  function Taken(l: seq<Node>, name: Name, kind: nat): seq<Node> {
    if l == [] then []
    else if Belongs(l[0].rec, name, kind) then [l[0]] + Taken(l[1..], name, kind)
    else Taken(l[1..], name, kind)
  }

  function Left(l: seq<Node>, name: Name, kind: nat): seq<Node> {
    if l == [] then []
    else if Belongs(l[0].rec, name, kind) then Left(l[1..], name, kind)
    else [l[0]] + Left(l[1..], name, kind)
  }

  /** The kind of the first record that is of the wanted kind or an alias, under the name. */
  function KindFor(l: seq<Node>, name: Name, kind: nat): nat {
    if l == [] then kind
    else if Belongs(l[0].rec, name, kind) || Belongs(l[0].rec, name, T_CNAME) then l[0].rec.kind
    else KindFor(l[1..], name, kind)
  }

  lemma {:induction false} TakenSnoc(l: seq<Node>, n: Node, name: Name, kind: nat)
    ensures Taken(l + [n], name, kind) == Taken(l, name, kind) + if Belongs(n.rec, name, kind) then [n] else []
    ensures Left(l + [n], name, kind) == Left(l, name, kind) + if Belongs(n.rec, name, kind) then [] else [n]
  {
    if l == [] {
      assert [n][1..] == [];
    } else {
      assert (l + [n])[1..] == l[1..] + [n];
      TakenSnoc(l[1..], n, name, kind);
    }
  }

  /** The split loses and shares no record. */
  lemma {:induction false} SplitIsPartition(l: seq<Node>, name: Name, kind: nat)
    ensures multiset(Taken(l, name, kind)) + multiset(Left(l, name, kind)) == multiset(l)
    ensures forall n | n in Taken(l, name, kind) :: Belongs(n.rec, name, kind)
    ensures forall n | n in Left(l, name, kind) :: !Belongs(n.rec, name, kind)
  {
    if l != [] {
      SplitIsPartition(l[1..], name, kind);
      assert l == [l[0]] + l[1..];
    }
  }

  lemma {:induction false} SplitFrom(l: seq<Node>, name: Name, kind: nat)
    ensures forall n | n in Taken(l, name, kind) :: n in l
    ensures forall n | n in Left(l, name, kind) :: n in l
  {
    if l != [] {
      SplitFrom(l[1..], name, kind);
    }
  }

  // ----- the list -----------------------------------------------------------------------------

  class Node {
    const rec: Rec
    var next: Node?

    constructor (rec: Rec)
      ensures this.rec == rec && next == null
    {
      this.rec := rec;
      next := null;
    }
  }

  predicate Distinct(l: seq<Node>) {
    forall i, j :: 0 <= i < j < |l| ==> l[i] != l[j]
  }

  /** The links inside l; the last one may lead anywhere. */
  ghost predicate Linked(l: seq<Node>, first: Node?)
    reads l
  {
    && (l != [] ==> first == l[0])
    && forall i | 0 <= i < |l| - 1 :: l[i].next == l[i + 1]
  }

  /** first leads through l and then to end. */
  ghost predicate Chained(l: seq<Node>, first: Node?, end: Node?)
    reads l
  {
    if l == [] then first == end else Linked(l, first) && l[|l| - 1].next == end
  }

  lemma ChainTail(l: seq<Node>, first: Node, end: Node?)
    requires Chained(l, first, end) && l != []
    ensures Chained(l[1..], first.next, end)
  {
    assert forall i | 0 <= i < |l| - 1 :: l[1..][i] == l[i + 1];
  }

  function Last(l: seq<Node>): Node? {
    if l == [] then null else l[|l| - 1]
  }

  /** The three lists hold different nodes, all from all. */
  ghost predicate Apart(a: seq<Node>, b: seq<Node>, c: seq<Node>, all: seq<Node>) {
    && Distinct(a) && Distinct(b) && Distinct(c)
    && (forall n | n in a :: n !in b && n !in c && n in all)
    && (forall n | n in b :: n !in c && n in all)
    && (forall n | n in c :: n in all)
  }

  /** What *p holds: the link that leads to the node under the walk. */
  function Link(head: Node?, p: Node?): Node?
    reads p
  {
    if p == null then head else p.next
  }

  /** The links of the three lists and the variables of the walk, which stands on cur. */
  ghost predicate Standing(kept: seq<Node>, taken: seq<Node>, rest: seq<Node>, head: Node?, tmp: Node?,
                           p: Node?, tail: Node?, cur: Node?)
    reads kept, taken, rest
  {
    && Linked(kept, head) && Linked(taken, tmp) && Chained(rest, cur, null)
    && p == Last(kept) && tail == Last(taken) && (if kept == [] then head else kept[|kept| - 1].next) == cur
    && (taken == [] ==> tmp == null)
  }

  /** The current node goes from the front of rest to the end of taken. */
  method Detach(head0: Node?, tmp0: Node?, p: Node?, tail: Node?, cur: Node,
                ghost kept: seq<Node>, ghost taken: seq<Node>, ghost rest: seq<Node>, ghost all: seq<Node>)
    returns (head: Node?, tmp: Node?)
    requires rest != [] && Apart(kept, taken, rest, all) && Standing(kept, taken, rest, head0, tmp0, p, tail, cur)
    modifies all
    ensures Standing(kept, taken + [cur], rest[1..], head, tmp, p, cur, Link(head, p))
  {
    head, tmp := head0, tmp0;
    assert cur in rest && forall n | n in rest[1..] :: n in rest;
    ChainTail(rest, cur, null);
    if tail == null {
      tmp := cur;
    } else {
      assert tail in taken;
      tail.next := cur;
    }
    if p == null {
      head := cur.next;
    } else {
      assert p in kept;
      p.next := cur.next;
    }
  }

  /** The walk steps over the current node. */
  lemma Keep(head: Node?, tmp: Node?, p: Node?, tail: Node?, cur: Node, kept: seq<Node>, taken: seq<Node>,
             rest: seq<Node>)
    requires rest != [] && Standing(kept, taken, rest, head, tmp, p, tail, cur)
    ensures Standing(kept + [cur], taken, rest[1..], head, tmp, cur, tail, cur.next)
  {
    ChainTail(rest, cur, null);
  }

  /** The state of the walk: where it is, and the three lists. */
  ghost predicate Walking(all: seq<Node>, i: nat, name: Name, kind: nat,
                          kept: seq<Node>, taken: seq<Node>, rest: seq<Node>)
  {
    && i <= |all| && rest == all[i..] && Apart(kept, taken, rest, all)
    && kept == Left(all[..i], name, kind) && taken == Taken(all[..i], name, kind)
  }

  lemma WalkTakes(all: seq<Node>, i: nat, name: Name, kind: nat, kept: seq<Node>, taken: seq<Node>, rest: seq<Node>)
    requires Walking(all, i, name, kind, kept, taken, rest) && rest != [] && Belongs(rest[0].rec, name, kind)
    ensures Walking(all, i + 1, name, kind, kept, taken + [rest[0]], rest[1..])
  {
    TakenSnoc(all[..i], rest[0], name, kind);
    assert all[..i + 1] == all[..i] + [rest[0]];
    assert rest[0] in rest && rest == [rest[0]] + rest[1..];
  }

  lemma WalkSkips(all: seq<Node>, i: nat, name: Name, kind: nat, kept: seq<Node>, taken: seq<Node>, rest: seq<Node>)
    requires Walking(all, i, name, kind, kept, taken, rest) && rest != [] && !Belongs(rest[0].rec, name, kind)
    ensures Walking(all, i + 1, name, kind, kept + [rest[0]], taken, rest[1..])
  {
    TakenSnoc(all[..i], rest[0], name, kind);
    assert all[..i + 1] == all[..i] + [rest[0]];
    assert rest[0] in rest && rest == [rest[0]] + rest[1..];
  }

  lemma WalkEnds(all: seq<Node>, i: nat, name: Name, kind: nat, kept: seq<Node>, taken: seq<Node>, rest: seq<Node>)
    requires Walking(all, i, name, kind, kept, taken, rest) && rest == []
    ensures kept == Left(all, name, kind) && taken == Taken(all, name, kind)
    ensures forall n | n in taken :: n in all
  {
    assert all[..i] == all;
  }

  /** Nothing in front of the first match belongs to the entry. */
  lemma {:induction false} NothingTaken(l: seq<Node>, name: Name, kind: nat)
    requires forall n | n in l :: !Belongs(n.rec, name, kind)
    ensures Taken(l, name, kind) == [] && Left(l, name, kind) == l
  {
    if l != [] {
      assert l[0] in l && l == [l[0]] + l[1..];
      NothingTaken(l[1..], name, kind);
    }
  }

  lemma {:induction false} NoKindYet(l: seq<Node>, i: nat, name: Name, kind: nat)
    requires i <= |l|
    requires forall n | n in l[..i] :: !Belongs(n.rec, name, kind) && !Belongs(n.rec, name, T_CNAME)
    ensures KindFor(l, name, kind) == KindFor(l[i..], name, kind)
    decreases i
  {
    if i > 0 {
      assert l[0] in l[..i] && l[..i][1..] == l[1..][..i - 1];
      assert forall n | n in l[1..][..i - 1] :: n in l[..i];
      NoKindYet(l[1..], i - 1, name, kind);
    } else {
      assert l[0..] == l;
    }
  }

  /** The first loop: finds the first record that matches, and the kind to go on with. */
  method FindKind(head: Node?, ghost all: seq<Node>, name: Name, kind: nat)
    returns (kind': nat, p: Node?, ghost i: nat)
    requires Chained(all, head, null)
    ensures kind' == KindFor(all, name, kind) && i <= |all|
    ensures p == Last(all[..i]) && Chained(all[i..], Link(head, p), null)
    ensures forall n | n in all[..i] :: !Belongs(n.rec, name, kind')
  {
    p := null;
    i := 0;
    var cur := head;
    assert all[0..] == all;
    while cur != null
      invariant i <= |all| && p == Last(all[..i]) && cur == Link(head, p) && Chained(all[i..], cur, null)
      invariant forall n | n in all[..i] :: !Belongs(n.rec, name, kind) && !Belongs(n.rec, name, T_CNAME)
      decreases |all| - i
    {
      if Matches(cur.rec.name, name) && (cur.rec.kind == kind || cur.rec.kind == T_CNAME) {
        NoKindYet(all, i, name, kind);
        return cur.rec.kind, p, i;
      }
      ChainTail(all[i..], cur, null);
      assert all[i..][1..] == all[i + 1..] && all[..i + 1] == all[..i] + [cur];
      p := cur;
      i := i + 1;
      cur := p.next;
    }
    NoKindYet(all, i, name, kind);
    kind' := kind;
  }

  /** The loop of one kind: takes the records that belong to (name, kind) out of the list at
      head, from the link of p on, and measures them. */
  method Split(head0: Node?, p0: Node?, ghost i0: nat, ghost all: seq<Node>, name: Name, kind: nat)
    returns (head: Node?, tmp: Node?, size: nat)
    requires Distinct(all) && Chained(all, head0, null) && forall n | n in all :: Sized(n.rec)
    requires i0 <= |all| && p0 == Last(all[..i0]) && Chained(all[i0..], Link(head0, p0), null)
    requires forall n | n in all[..i0] :: !Belongs(n.rec, name, kind)
    modifies all
    ensures Chained(Left(all, name, kind), head, null)
    ensures Chained(Taken(all, name, kind), tmp, null)
    ensures (forall n | n in Taken(all, name, kind) :: n in all) && size == Rooms(Taken(all, name, kind))
  {
    head := head0;
    tmp := null;
    size := 0;
    var p, tail: Node? := p0, null;
    var cur := Link(head, p);
    ghost var i: nat := i0;
    ghost var kept: seq<Node>, taken: seq<Node>, rest: seq<Node> := all[..i0], [], all[i0..];
    Starts(all, i0, name, kind, head, p);
    while cur != null
      invariant Here(all, i, name, kind, kept, taken, rest, head, tmp, p, tail, cur, size)
      decreases |rest|
    {
      if !Belongs(cur.rec, name, kind) {
        StepOver(cur, all, i, name, kind, kept, taken, rest, head, tmp, p, tail, size);
        p := cur;
        kept := kept + [cur];
      } else {
        head, tmp, size := TakeOut(cur, all, i, name, kind, kept, taken, rest, head, tmp, p, tail, size);
        tail := cur;
        taken := taken + [cur];
      }
      rest := rest[1..];
      i := i + 1;
      cur := Link(head, p);
    }
    tmp := Terminate(all, i, name, kind, kept, taken, rest, head, tmp, p, tail, size);
  }

  /** The loop stands on cur, at position i, with these variables. */
  ghost predicate Here(all: seq<Node>, i: nat, name: Name, kind: nat, kept: seq<Node>, taken: seq<Node>,
                       rest: seq<Node>, head: Node?, tmp: Node?, p: Node?, tail: Node?, cur: Node?, size: nat)
    requires forall n | n in all :: Sized(n.rec)
    reads kept, taken, rest
  {
    && Walking(all, i, name, kind, kept, taken, rest) && Standing(kept, taken, rest, head, tmp, p, tail, cur)
    && size == Rooms(taken)
  }

  lemma StepOver(cur: Node, all: seq<Node>, i: nat, name: Name, kind: nat, kept: seq<Node>, taken: seq<Node>,
                 rest: seq<Node>, head: Node?, tmp: Node?, p: Node?, tail: Node?, size: nat)
    requires forall n | n in all :: Sized(n.rec)
    requires Here(all, i, name, kind, kept, taken, rest, head, tmp, p, tail, cur, size)
    requires !Belongs(cur.rec, name, kind)
    ensures rest != []
    ensures Here(all, i + 1, name, kind, kept + [cur], taken, rest[1..], head, tmp, cur, tail, Link(head, cur), size)
  {
    WalkSkips(all, i, name, kind, kept, taken, rest);
    Keep(head, tmp, p, tail, cur, kept, taken, rest);
  }

  method TakeOut(cur: Node, ghost all: seq<Node>, ghost i: nat, ghost name: Name, ghost kind: nat,
                 ghost kept: seq<Node>, ghost taken: seq<Node>, ghost rest: seq<Node>,
                 head0: Node?, tmp0: Node?, p: Node?, tail: Node?, size0: nat)
    returns (head: Node?, tmp: Node?, size: nat)
    requires forall n | n in all :: Sized(n.rec)
    requires Here(all, i, name, kind, kept, taken, rest, head0, tmp0, p, tail, cur, size0)
    requires Belongs(cur.rec, name, kind)
    modifies all
    ensures rest != []
    ensures Here(all, i + 1, name, kind, kept, taken + [cur], rest[1..], head, tmp, p, cur, Link(head, p), size)
  {
    WalkTakes(all, i, name, kind, kept, taken, rest);
    assert cur in all;
    RoomsSnoc(taken, cur);
    size := size0 + Room(cur.rec);
    head, tmp := Detach(head0, tmp0, p, tail, cur, kept, taken, rest, all);
  }

  /** *tail=0. */
  method Terminate(ghost all: seq<Node>, ghost i: nat, ghost name: Name, ghost kind: nat, ghost kept: seq<Node>,
                   ghost taken: seq<Node>, ghost rest: seq<Node>, ghost head: Node?, tmp0: Node?, ghost p: Node?,
                   tail: Node?, ghost size: nat)
    returns (tmp: Node?)
    requires forall n | n in all :: Sized(n.rec)
    requires Here(all, i, name, kind, kept, taken, rest, head, tmp0, p, tail, null, size)
    modifies all
    ensures Chained(Left(all, name, kind), head, null) && Chained(Taken(all, name, kind), tmp, null)
    ensures (forall n | n in Taken(all, name, kind) :: n in all) && size == Rooms(Taken(all, name, kind))
  {
    WalkEnds(all, i, name, kind, kept, taken, rest);
    tmp := tmp0;
    if tail != null {
      assert tail in taken;
      tail.next := null;
    }
  }

  lemma StartsApart(all: seq<Node>, i: nat)
    requires Distinct(all) && i <= |all|
    ensures Apart(all[..i], [], all[i..], all)
  {
  }

  lemma LinkedFront(all: seq<Node>, i: nat, head: Node?)
    requires i <= |all| && Chained(all, head, null)
    ensures Linked(all[..i], head)
  {
  }

  lemma Starts(all: seq<Node>, i: nat, name: Name, kind: nat, head: Node?, p: Node?)
    requires Distinct(all) && Chained(all, head, null) && forall n | n in all :: Sized(n.rec)
    requires i <= |all| && p == Last(all[..i]) && Chained(all[i..], Link(head, p), null)
    requires forall n | n in all[..i] :: !Belongs(n.rec, name, kind)
    ensures Here(all, i, name, kind, all[..i], [], all[i..], head, null, p, null, Link(head, p), 0)
  {
    NothingTaken(all[..i], name, kind);
    StartsApart(all, i);
    LinkedFront(all, i, head);
  }

  /** With rest still to be copied to position at, the copy will come to goal, end and top. */
  predicate Becomes(rest: seq<Node>, rrs: seq<Rr>, at: nat, maxTtl: Word, now: Word, low: Word, high: Word,
                    goal: seq<Rr>, end: nat, top: Word)
    requires forall n | n in rest :: Sized(n.rec)
  {
    && rrs + Laid(rest, at, now, low, high) == goal
    && at + Rooms(rest) == end
    && Max(maxTtl, MaxTtl(rest, low, high)) == top
  }

  /** rr, room and ttl are what the first record of rest comes to. */
  lemma CopyOn(rest: seq<Node>, rrs: seq<Rr>, at: nat, maxTtl: Word, now: Word, low: Word, high: Word,
               goal: seq<Rr>, end: nat, top: Word, rr: Rr, room: nat, ttl: Word)
    requires rest != [] && (forall n | n in rest :: Sized(n.rec))
    requires Becomes(rest, rrs, at, maxTtl, now, low, high, goal, end, top)
    requires rr == RrOf(rest[0].rec, at, now, low, high)
    requires room == Room(rest[0].rec) && ttl == Clamp(rest[0].rec.ttl, low, high)
    ensures Becomes(rest[1..], rrs + [rr], at + room, Max(maxTtl, ttl), now, low, high, goal, end, top)
  {
  }

  /** The second pass: fills the block with the records in the list at tmp, from position at. */
  method CopyRecords(tmp: Node?, ghost taken: seq<Node>, at0: nat, now: Word, low: Word, high: Word)
    returns (rrs: seq<Rr>, at: nat, maxTtl: Word)
    requires Chained(taken, tmp, null) && forall n | n in taken :: Sized(n.rec)
    ensures rrs == Laid(taken, at0, now, low, high)
    ensures at == at0 + Rooms(taken) && maxTtl == MaxTtl(taken, low, high)
  {
    rrs, at, maxTtl := [], at0, 0;
    var l := tmp;
    ghost var rest := taken;
    ghost var goal, end, top := Laid(taken, at0, now, low, high), at0 + Rooms(taken), MaxTtl(taken, low, high);
    while l != null
      invariant Chained(rest, l, null) && forall n | n in rest :: Sized(n.rec)
      invariant Becomes(rest, rrs, at, maxTtl, now, low, high, goal, end, top)
      decreases |rest|
    {
      ChainTail(rest, l, null);
      rrs, at, maxTtl := CopyStep(l.rec, rest, rrs, at, maxTtl, now, low, high, goal, end, top);
      rest := rest[1..];
      l := l.next;
    }
  }

  /** The second pass for NAPTR records, which writes each over the one before. */
  method CopyNaptr(tmp: Node?, ghost taken: seq<Node>, at: nat, now: Word, low: Word, high: Word)
    returns (rrs: seq<Rr>, maxTtl: Word)
    requires Chained(taken, tmp, null) && forall n | n in taken :: Sized(n.rec)
    ensures rrs == Kept(taken, T_NAPTR, at, now, low, high) && maxTtl == MaxTtl(taken, low, high)
  {
    rrs, maxTtl := [], 0;
    var l := tmp;
    ghost var rest := taken;
    while l != null
      invariant Chained(rest, l, null) && forall n | n in rest :: Sized(n.rec)
      invariant Max(maxTtl, MaxTtl(rest, low, high)) == MaxTtl(taken, low, high)
      invariant Kept(taken, T_NAPTR, at, now, low, high) == if rest == [] then rrs else Kept(rest, T_NAPTR, at, now, low, high)
      decreases |rest|
    {
      ChainTail(rest, l, null);
      var rr, _, ttl := CopyOne(l.rec, at, now, low, high);
      rrs, maxTtl := [rr], Max(maxTtl, ttl);
      rest := rest[1..];
      l := l.next;
    }
  }

  /** The body of the copy loop. */
  method CopyStep(r: Rec, ghost rest: seq<Node>, rrs: seq<Rr>, at: nat, maxTtl: Word, now: Word, low: Word, high: Word,
                  ghost goal: seq<Rr>, ghost end: nat, ghost top: Word)
    returns (rrs': seq<Rr>, at': nat, maxTtl': Word)
    requires rest != [] && r == rest[0].rec && forall n | n in rest :: Sized(n.rec)
    requires Becomes(rest, rrs, at, maxTtl, now, low, high, goal, end, top)
    ensures Becomes(rest[1..], rrs', at', maxTtl', now, low, high, goal, end, top)
  {
    var rr, room, ttl := CopyOne(r, at, now, low, high);
    CopyOn(rest, rrs, at, maxTtl, now, low, high, goal, end, top, rr, room, ttl);
    return rrs + [rr], at + room, Max(maxTtl, ttl);
  }

  /** What the loop does for one record. */
  method CopyOne(r: Rec, at: nat, now: Word, low: Word, high: Word) returns (rr: Rr, room: nat, ttl: Word)
    requires Sized(r)
    ensures rr == RrOf(r, at, now, low, high) && room == Room(r) && ttl == Clamp(r.ttl, low, high)
  {
    ttl := Clamp(r.ttl, low, high);
    var expire := ExpireAt(now, ttl);
    var dataAt := at + DataAt(r.kind);
    rr := Rr(at, dataAt, r.data[..DataSize(r)], expire);
    room := RoundPointer(DataAt(r.kind) + DataSize(r));
  }

  /** The entry that the records taken make up. */
  function EntryOf(taken: seq<Node>, name: Name, kind: nat, now: Word, low: Word, high: Word): Entry
    requires forall n | n in taken :: Sized(n.rec)
  {
    var start := RoundPointer(ENTRY_SIZE + |name|);
    Entry(name, kind, start + Rooms(taken), ExpireAt(now, MaxTtl(taken, low, high)),
          Kept(taken, kind, start, now, low, high))
  }

  /** Where the copy pass stops: at the measured size, unless it does not advance. */
  function CopyEnd(e: Entry, kind: nat): nat {
    if kind == T_NAPTR then RoundPointer(ENTRY_SIZE + |e.name|) else e.size
  }

  /** dns_cache_mk_rd_entry.  room: the allocation succeeds; end: where the copy pass stops. */
  method MkRdEntry(head0: Node?, ghost all: seq<Node>, name: Name, kind: nat, room: bool, now: Word, low: Word, high: Word)
    returns (e: Option<Entry>, head: Node?, ghost lost: seq<Node>, end: nat)
    requires Distinct(all) && Chained(all, head0, null) && forall n | n in all :: Sized(n.rec)
    modifies all
    ensures var k := KindFor(all, name, kind);
      if !Supported(k) then e == None && Chained(all, head, null) && lost == []
      else
        var taken := Taken(all, name, k);
        && Chained(Left(all, name, k), head, null)
        && (forall n | n in taken :: Sized(n.rec))
        && e == (if taken != [] && room then Some(EntryOf(taken, name, k, now, low, high)) else None)
        && lost == (if room then [] else taken)
        && (e.Some? ==> end == CopyEnd(e.value, k))
  {
    var k, p, i := FindKind(head0, all, name, kind);
    head := head0;
    lost := [];
    end := 0;
    if !Supported(k) {
      return None, head, lost, end;
    }
    var tmp, size;
    head, tmp, size := Split(head, p, i, all, name, k);
    SplitFrom(all, name, k);
    assert Chained(Left(all, name, k), head, null);
    ghost var taken := Taken(all, name, k);
    if size == 0 {
      NoRoomNothing(taken);
      return None, head, lost, end;
    }
    var start := RoundPointer(ENTRY_SIZE + |name| - 1 + 1);
    size := size + start;
    if !room {
      // the records in the list at tmp are neither in the answer any more nor given back
      assert Chained(Left(all, name, k), head, null);
      return None, head, taken, end;
    }
    var rrs, maxTtl;
    if k == T_NAPTR {
      end := start;
      rrs, maxTtl := CopyNaptr(tmp, taken, start, now, low, high);
    } else {
      rrs, end, maxTtl := CopyRecords(tmp, taken, start, now, low, high);
    }
    e := Some(Entry(name, k, size, ExpireAt(now, maxTtl), rrs));
    assert Chained(Left(all, name, k), head, null);
  }
}
