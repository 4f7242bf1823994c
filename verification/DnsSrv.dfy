/** SRV failover: a handle that walks through the records of an SRV entry and, inside each, through
    the addresses of its target. */
module DnsSrv {
  import opened Wrappers
  import opened Words

  type Host = seq<bv8>
  type Addr = seq<bv8>

  // return codes
  const OK: int := 0
  const E_DNS_EOR: int := 1
  const E_DNS_NO_SRV: int := 5
  const E_DNS_NO_IP: int := 7

  /** A stripped-down record and its error mark. */
  datatype Rr<T> = Rr(data: T, bad: bool)

  /** A cache entry with the records of one kind; id tells entries apart. */
  datatype Entry<T> = Entry(id: nat, rrs: seq<Rr<T>>, expire: Word)

  datatype Srv = Srv(host: Host, port: nat)

  datatype Flags = Flags(ipv4Only: bool, ipv6Only: bool, ipv6First: bool)

  /** What the lookups give during a walk: the SRV entry of the name, the A and AAAA entries of the
      targets, and the targets that are addresses themselves. */
  datatype World = World(
    srv: Option<Entry<Srv>>,
    a: map<Host, Entry<Addr>>,
    aaaa: map<Host, Entry<Addr>>,
    literal4: map<Host, Addr>,
    literal6: map<Host, Addr>)

  predicate Expired<T>(e: Entry<T>, now: Word) {
    Passed(e.expire, now)
  }

  /** The records that an entry still gives. */
  function Live<T>(e: Entry<T>, now: Word): seq<Rr<T>> {
    if Expired(e, now) then [] else e.rrs
  }

  // ----- what the walk yields, as sequences ---------------------------------------------------

  /** The first good record at or behind position s. */
  function NextGood<T>(rrs: seq<Rr<T>>, s: nat): (r: Option<T>)
    ensures r.Some? ==> s < |rrs|
    decreases |rrs| - s
  {
    if s >= |rrs| then None
    else if rrs[s].bad then NextGood(rrs, s + 1)
    else Some(rrs[s].data)
  }

  /** What repeated calls with growing start positions give. */
  function From<T>(rrs: seq<Rr<T>>, s: nat): seq<T>
    decreases |rrs| - s
  {
    var r := NextGood(rrs, s);
    if r.None? then [] else [r.value] + From(rrs, s + 1)
  }

  /** What dns_ip_resolve finds for a target. */
  datatype Target = Literal(ip: Addr) | Records(entry: Entry<Addr>) | Nothing

  function Try4(w: World, host: Host): Target {
    if host in w.literal4 then Literal(w.literal4[host])
    else if host in w.a then Records(w.a[host])
    else Nothing
  }

  function Try6(w: World, host: Host): Target {
    if host in w.literal6 then Literal(w.literal6[host])
    else if host in w.aaaa then Records(w.aaaa[host])
    else Nothing
  }

  function OrElse(t: Target, u: Target): Target {
    if t.Nothing? then u else t
  }

  function Resolve(w: World, f: Flags, host: Host): Target {
    if f.ipv6First then OrElse(Try6(w, host), Try4(w, host))
    else if f.ipv6Only then Try6(w, host)
    else if f.ipv4Only then Try4(w, host)
    else OrElse(Try4(w, host), Try6(w, host))
  }

  /** A destination: an address and the port of the SRV record it comes from. */
  datatype Dest = Dest(ip: Addr, port: nat)

  function WithPort(ips: seq<Addr>, port: nat): seq<Dest> {
    if ips == [] then [] else [Dest(ips[0], port)] + WithPort(ips[1..], port)
  }

  function Dests(w: World, f: Flags, r: Srv, now: Word): seq<Dest> {
    match Resolve(w, f, r.host)
    case Literal(ip) => [Dest(ip, r.port)]
    case Records(e) => WithPort(From(Live(e, now), 0), r.port)
    case Nothing => []
  }

  /** The destinations of the SRV records met from position s on, in order. */
  function Flatten(w: World, f: Flags, rrs: seq<Rr<Srv>>, s: nat, now: Word): seq<Dest>
    decreases |rrs| - s
  {
    var r := NextGood(rrs, s);
    if r.None? then [] else Dests(w, f, r.value, now) + Flatten(w, f, rrs, s + 1, now)
  }

  /** Everything a walk is to yield. */
  function All(w: World, f: Flags, now: Word): seq<Dest> {
    if w.srv.None? then [] else Flatten(w, f, Live(w.srv.value, now), 0, now)
  }

  /** The code that ends a walk. */
  function Exhausted(w: World): int {
    if w.srv.Some? then -E_DNS_EOR else -E_DNS_NO_SRV
  }

  // ----- marked records -----------------------------------------------------------------------

  function Good<T>(rrs: seq<Rr<T>>): seq<T> {
    if rrs == [] then [] else (if rrs[0].bad then [] else [rrs[0].data]) + Good(rrs[1..])
  }

  /** From position s on, no marked record stands before an unmarked one. */
  predicate GoodFirst<T>(rrs: seq<Rr<T>>, s: nat) {
    forall i, j :: s <= i < j < |rrs| && rrs[i].bad ==> rrs[j].bad
  }

  lemma {:induction false} NoneGood<T>(rrs: seq<Rr<T>>, s: nat)
    requires s <= |rrs|
    ensures NextGood(rrs, s) == None <==> forall i :: s <= i < |rrs| ==> rrs[i].bad
    ensures NextGood(rrs, s) == None <==> Good(rrs[s..]) == []
    decreases |rrs| - s
  {
    if s < |rrs| {
      NoneGood(rrs, s + 1);
      assert rrs[s..][1..] == rrs[s + 1..];
    }
  }

  /** The counter of a record that follows a marked one lags behind, so that the record comes up
      again: the walk gives at least as many records as there are good ones, and just as many
      exactly when the marked ones come last. */
  lemma {:induction false} CountOfYields<T>(rrs: seq<Rr<T>>, s: nat)
    requires s <= |rrs|
    ensures |From(rrs, s)| >= |Good(rrs[s..])|
    ensures |From(rrs, s)| == |Good(rrs[s..])| <==> GoodFirst(rrs, s)
    ensures GoodFirst(rrs, s) ==> From(rrs, s) == Good(rrs[s..])
    decreases |rrs| - s
  {
    NoneGood(rrs, s);
    if s < |rrs| {
      CountOfYields(rrs, s + 1);
      NoneGood(rrs, s + 1);
      assert rrs[s..][1..] == rrs[s + 1..];
      if !rrs[s].bad {
        assert GoodFirst(rrs, s) <==> GoodFirst(rrs, s + 1);
      } else if NextGood(rrs, s).Some? {
        assert !GoodFirst(rrs, s);
      }
    }
  }

  /** A walk gives exactly the good records, each once and in order, if and only if no marked
      record stands before an unmarked one. */
  lemma YieldsGoodIffMarkedLast<T>(rrs: seq<Rr<T>>)
    ensures From(rrs, 0) == Good(rrs) <==> GoodFirst(rrs, 0)
  {
    CountOfYields(rrs, 0);
    assert rrs[0..] == rrs;
  }

  /** A marked record in front of a good one: the good one comes twice. */
  lemma MarkedFirstRepeats<T>(x: T, y: T)
    ensures var rrs := [Rr(x, true), Rr(y, false)];
            Good(rrs) == [y] && From(rrs, 0) == [y, y]
  {
    var rrs := [Rr(x, true), Rr(y, false)];
    assert rrs[1..] == [Rr(y, false)] && rrs[1..][1..] == [];
    assert Good(rrs[1..]) == [y];
    assert NextGood(rrs, 2) == None && NextGood(rrs, 1) == Some(y) && NextGood(rrs, 0) == Some(y);
    assert From(rrs, 2) == [] && From(rrs, 1) == [y];
  }

  /** Every good SRV record in order, and for each the good addresses of its target in order. */
  function Plain(w: World, f: Flags, rs: seq<Srv>, now: Word): seq<Dest> {
    if rs == [] then [] else PlainDests(w, f, rs[0], now) + Plain(w, f, rs[1..], now)
  }

  function PlainDests(w: World, f: Flags, r: Srv, now: Word): seq<Dest> {
    match Resolve(w, f, r.host)
    case Literal(ip) => [Dest(ip, r.port)]
    case Records(e) => WithPort(Good(Live(e, now)), r.port)
    case Nothing => []
  }

  lemma {:induction false} FlattenIsPlain(w: World, f: Flags, rrs: seq<Rr<Srv>>, s: nat, now: Word)
    requires s <= |rrs| && GoodFirst(rrs, s)
    requires forall h | Resolve(w, f, h).Records? :: GoodFirst(Live(Resolve(w, f, h).entry, now), 0)
    ensures Flatten(w, f, rrs, s, now) == Plain(w, f, Good(rrs[s..]), now)
    decreases |rrs| - s
  {
    NoneGood(rrs, s);
    if NextGood(rrs, s).Some? {
      var r := rrs[s].data;
      assert rrs[s..][1..] == rrs[s + 1..];
      assert Good(rrs[s..]) == [r] + Good(rrs[s + 1..]);
      FlattenIsPlain(w, f, rrs, s + 1, now);
      if Resolve(w, f, r.host).Records? {
        YieldsGoodIffMarkedLast(Live(Resolve(w, f, r.host).entry, now));
      }
    }
  }

  /** A walk over entries whose marked records come last yields each good destination once. */
  lemma WalkIsPlain(w: World, f: Flags, now: Word)
    requires w.srv.Some? ==> GoodFirst(Live(w.srv.value, now), 0)
    requires forall h | Resolve(w, f, h).Records? :: GoodFirst(Live(Resolve(w, f, h).entry, now), 0)
    ensures All(w, f, now) == if w.srv.Some? then Plain(w, f, Good(Live(w.srv.value, now)), now) else []
  {
    if w.srv.Some? {
      var rrs := Live(w.srv.value, now);
      assert rrs[0..] == rrs;
      FlattenIsPlain(w, f, rrs, 0, now);
    }
  }

  lemma {:induction false} NoneFromThereOn<T>(rrs: seq<Rr<T>>, no: Byte)
    ensures NextGood(rrs, no) == None ==> NextGood(rrs, 255) == None
    decreases 255 - no
  {
    if no < 255 {
      NoneFromThereOn(rrs, no + 1);
    }
  }

  /** The one-byte counter after n steps, from a handle just initialised. */
  function CounterAfter(n: nat): Byte {
    n % 0x100
  }

  /** A one-byte counter can come to the end: no good record stands at position 255 or behind. */
  predicate Ends<T>(rrs: seq<Rr<T>>) {
    NextGood(rrs, 255) == None
  }

  /** A walk with a one-byte counter meets the end of the records if and only if no good record
      stands at position 255 or behind; otherwise it wraps and every step yields a record. */
  lemma CounterMeetsEnd<T>(rrs: seq<Rr<T>>)
    ensures (exists n: nat :: NextGood(rrs, CounterAfter(n)) == None) <==> Ends(rrs)
  {
    if Ends(rrs) {
      assert NextGood(rrs, CounterAfter(255)) == None;
    } else {
      forall n: nat
        ensures NextGood(rrs, CounterAfter(n)) != None
      {
        NoneFromThereOn(rrs, CounterAfter(n));
      }
    }
  }

  // ----- the walk -----------------------------------------------------------------------------

  /** dns_entry_get_rr: the record, and the number that is filled in. */
  method EntryGetRr<T>(e: Entry<T>, no: Byte, now: Word) returns (r: Option<T>, filled: Byte)
    ensures r == NextGood(Live(e, now), no)
    ensures filled == if no <= |e.rrs| then no else |e.rrs|
  {
    var k := 0;
    var n := 0;
    while k < |e.rrs| && n < no
      invariant k == n <= |e.rrs| && n <= no
    {
      k, n := k + 1, n + 1;
    }
    filled := n;
    if no > |e.rrs| {
      assert NextGood(e.rrs, no) == None;
    }
    while k < |e.rrs|
      invariant n <= k <= |e.rrs|
      invariant !Expired(e, now) ==> NextGood(e.rrs, k) == NextGood(e.rrs, no)
    {
      if Expired(e, now) || e.rrs[k].bad {
        k := k + 1;
      } else {
        return Some(e.rrs[k].data), n;
      }
    }
    r := None;
  }

  /** The walk through the SRV records can come to its end. */
  predicate SrvEnds(w: World) {
    w.srv.Some? ==> Ends(w.srv.value.rrs)
  }

  /** So can the walks through the addresses. */
  ghost predicate AddressesEnd(w: World) {
    && (forall h | h in w.a :: Ends(w.a[h].rrs))
    && (forall h | h in w.aaaa :: Ends(w.aaaa[h].rrs))
  }

  lemma FoundEnds(w: World, six: bool, host: Host)
    ensures var t := if six then Try6(w, host) else Try4(w, host);
      AddressesEnd(w) && t.Records? ==> Ends(t.entry.rrs)
  {
  }

  /** What is still to come from an entry of addresses, searched from position no. */
  function CurrentOf(a: Option<Entry<Addr>>, no: nat, port: nat, now: Word): seq<Dest> {
    if a.Some? then WithPort(From(Live(a.value, now), no), port) else []
  }

  /** e was asked for a record from position from on; filled is the number it gave back. */
  predicate AnsweredBy(e: Entry<Addr>, from: nat, ret: int, ip: Addr, filled: nat, now: Word) {
    match NextGood(Live(e, now), from)
    case Some(x) => ret == OK && ip == x && filled == from
    case None => ret == -E_DNS_EOR && filled == if from <= |e.rrs| then from else |e.rrs|
  }

  /** Resolving t put e into the slot and gave (ret, ip). */
  predicate ResolvedTo(t: Target, ret: int, ip: Addr, e: Option<Entry<Addr>>, filled: nat, now: Word) {
    match t
    case Literal(x) => ret == OK && ip == x && e.None?
    case Records(r) => e == Some(r) && AnsweredBy(r, 0, ret, ip, filled, now)
    case Nothing => ret == -E_DNS_NO_IP && e.None?
  }

  /** What is to come, once the target of the next SRV record r was resolved. */
  lemma ReachedRecord(w: World, f: Flags, rrs: seq<Rr<Srv>>, s: nat, r: Srv, ret: int, ip: Addr,
                      e: Option<Entry<Addr>>, filled: nat, now: Word)
    requires NextGood(rrs, s) == Some(r) && ResolvedTo(Resolve(w, f, r.host), ret, ip, e, filled, now)
    ensures Came(Flatten(w, f, rrs, s, now), ret, Dest(ip, r.port), CurrentOf(e, filled + 1, r.port, now),
                 Flatten(w, f, rrs, s + 1, now))
    ensures ret >= 0 && e.Some? ==> NextGood(Live(e.value, now), filled).Some?
  {
    RecordStep(w, f, rrs, s, r, now);
  }

  /** Of the destinations d the next one came, with behind and tail to follow, or none in front of
      tail. */
  predicate Came(d: seq<Dest>, ret: int, next: Dest, behind: seq<Dest>, tail: seq<Dest>) {
    if ret < 0 then d == tail else ret == OK && d != [] && d[0] == next && d[1..] == behind + tail
  }

  class SrvHandle {
    const w: World
    var srv: Option<Entry<Srv>>
    var a: Option<Entry<Addr>>
    var port: nat
    var srvNo: Byte
    var ipNo: Byte
    /** The ids of the entries whose references were taken and not yet given back. */
    var held: multiset<nat>

    ghost predicate Valid()
      reads this
    {
      && SrvEnds(w) && Given()
      && (srv.Some? ==> srv == w.srv && srvNo <= |srv.value.rrs|)
      && (srv.None? ==> a.None? && srvNo == 0)
      && (a.Some? ==> NextGood(srv.value.rrs, srvNo).Some?)
      && held == Slots()
    }

    /** The entry in the address slot is one that the lookups give. */
    ghost predicate Given()
      reads this
    {
      a.Some? && AddressesEnd(w) ==> Ends(a.value.rrs)
    }

    /** One reference for each slot in use. */
    function Slots(): multiset<nat>
      reads this
    {
      (if srv.Some? then multiset{srv.value.id} else multiset{})
      + (if a.Some? then multiset{a.value.id} else multiset{})
    }

    /** What is still to come from the current entry of addresses, searched from position no. */
    function Current(no: nat, now: Word): seq<Dest>
      reads this
    {
      CurrentOf(a, no, port, now)
    }

    /** What is still to come. */
    function Rest(f: Flags, no: nat, now: Word): seq<Dest>
      reads this
    {
      if srv.None? then All(w, f, now)
      else Current(no, now) + Flatten(w, f, Live(srv.value, now), if a.Some? then srvNo + 1 else srvNo, now)
    }

    /** dns_srv_handle_init. */
    constructor (w: World)
      requires SrvEnds(w)
      ensures Valid() && this.w == w && srv == None && a == None && ipNo == 0
      ensures forall f, now :: Rest(f, ipNo, now) == All(w, f, now)
    {
      this.w := w;
      srv, a, port, srvNo, ipNo := None, None, 0, 0, 0;
      held := multiset{};
    }

    /** dns_srv_handle_put. */
    method Put()
      requires Valid()
      modifies this
      ensures srv == None && a == None && held == multiset{}
    {
      if srv.Some? {
        held := held - multiset{srv.value.id};
        srv := None;
      }
      if a.Some? {
        held := held - multiset{a.value.id};
        a := None;
      }
    }

    /** dns_srv_handle_next. */
    method Next(err: int) returns (more: bool)
      requires Valid()
      modifies this`ipNo
      ensures Valid()
      ensures err < 0 ==> !more && ipNo == old(ipNo)
      ensures err >= 0 ==> (more <==> srv.Some? || a.Some?) && ipNo == (old(ipNo) + 1) % 0x100
      ensures err >= 0 && (a.Some? ==> old(ipNo) < 255) ==> forall f, now :: Rest(f, ipNo, now) == old(Rest(f, ipNo + 1, now))
    {
      if err < 0 {
        return false;
      }
      if a.Some? && ipNo < 255 {
        assert (ipNo + 1) % 0x100 == ipNo + 1;
      }
      ipNo := (ipNo + 1) % 0x100;
      more := srv.Some? || a.Some?;
    }

    /** The outcome of asking the current entry of addresses for a record from position no on. */
    predicate Answered(no: nat, ret: int, ip: Addr, now: Word)
      reads this
    {
      a.Some? && AnsweredBy(a.value, no, ret, ip, ipNo, now)
    }

    /** The outcome of resolving a target that turned out to be t. */
    predicate Resolved(t: Target, ret: int, ip: Addr, now: Word)
      reads this
    {
      ResolvedTo(t, ret, ip, a, ipNo, now)
    }

    /** dns_get_entry for the empty address slot, unless the host is an address itself. */
    method LookUp(six: bool, host: Host) returns (t: Target)
      requires held == Slots() && a.None?
      modifies this`a, this`ipNo, this`held
      ensures held == Slots() && Given() && t == (if six then Try6(w, host) else Try4(w, host))
      ensures a == (if t.Records? then Some(t.entry) else None)
      ensures !t.Nothing? ==> ipNo == 0
    {
      t := if six then Try6(w, host) else Try4(w, host);
      FoundEnds(w, six, host);
      if t.Records? {
        a := Some(t.entry);
        held := held + multiset{t.entry.id};
      }
      if !t.Nothing? {
        ipNo := 0;
      }
    }

    /** dns_a_resolve, or dns_aaaa_resolve when six, on the address slot of the handle. */
    method AddrResolve(six: bool, host: Host, now: Word) returns (ret: int, ip: Addr)
      requires held == Slots() && Given()
      modifies this`a, this`ipNo, this`held
      ensures held == Slots() && Given()
      ensures old(a).Some? ==> a == old(a) && Answered(old(ipNo), ret, ip, now)
      ensures old(a).None? ==> Resolved(if six then Try6(w, host) else Try4(w, host), ret, ip, now)
    {
      if a.None? {
        var t := LookUp(six, host);
        if t.Literal? {
          return OK, t.ip;
        } else if t.Nothing? {
          return -E_DNS_NO_IP, [];
        }
      }
      ret, ip := AskCurrent(now);
    }

    /** The next record of the current entry of addresses. */
    method AskCurrent(now: Word) returns (ret: int, ip: Addr)
      requires a.Some?
      modifies this`ipNo
      ensures Answered(old(ipNo), ret, ip, now)
    {
      var rr;
      rr, ipNo := EntryGetRr(a.value, ipNo, now);
      if rr.Some? {
        return OK, rr.value;
      }
      return -E_DNS_EOR, [];
    }

    /** dns_ip_resolve on the address slot of the handle. */
    method IpResolve(host: Host, f: Flags, now: Word) returns (ret: int, ip: Addr)
      requires held == Slots() && Given()
      modifies this`a, this`ipNo, this`held
      ensures held == Slots() && Given()
      ensures old(a).Some? ==> a == old(a) && Answered(old(ipNo), ret, ip, now)
      ensures old(a).None? ==> Resolved(Resolve(w, f, host), ret, ip, now)
    {
      var six := f.ipv6First || f.ipv6Only;
      ret, ip := AddrResolve(six, host, now);
      if ret >= 0 {
        return;
      }
      if f.ipv6First {
        ret, ip := TryOther(false, host, now);
      } else if !(f.ipv6Only || f.ipv4Only) {
        ret, ip := TryOther(true, host, now);
      }
    }

    /** The second address family: an entry of the first one stays, and gives no more than before. */
    method TryOther(six: bool, host: Host, now: Word) returns (ret: int, ip: Addr)
      requires held == Slots() && Given()
      requires a.Some? ==> ipNo <= |a.value.rrs| && NextGood(Live(a.value, now), ipNo) == None
      modifies this`a, this`ipNo, this`held
      ensures held == Slots() && Given()
      ensures old(a).Some? ==> a == old(a) && ipNo == old(ipNo) && ret == -E_DNS_EOR
      ensures old(a).None? ==> Resolved(if six then Try6(w, host) else Try4(w, host), ret, ip, now)
    {
      ret, ip := AddrResolve(six, host, now);
    }

    /** dns_get_entry for the empty SRV slot. */
    method SrvLookUp() returns (found: bool)
      requires srv.None? && a.None? && held == Slots()
      modifies this`srv, this`srvNo, this`held
      ensures found == w.srv.Some? && srv == w.srv && held == Slots()
      ensures srvNo == if found then 0 else old(srvNo)
    {
      found := w.srv.Some?;
      if found {
        srv := w.srv;
        held := held + multiset{srv.value.id};
        srvNo := 0;
      }
    }

    /** dns_srv_resolve on the SRV slot of the handle. */
    method SrvResolve(now: Word) returns (ret: int, host: Host, p: nat)
      requires Valid() && a.None?
      modifies this`srv, this`srvNo, this`held
      ensures Valid() && srv == w.srv && srvNo == old(srvNo)
      ensures w.srv.None? ==> ret == -E_DNS_NO_SRV
      ensures w.srv.Some? ==>
        match NextGood(Live(w.srv.value, now), srvNo)
        case Some(x) => ret == OK && host == x.host && p == x.port
        case None => ret == -E_DNS_EOR
    {
      if srv.None? {
        var found := SrvLookUp();
        if !found {
          return -E_DNS_NO_SRV, [], 0;
        }
      }
      ret, host, p := SrvNext(now);
    }

    /** The next record of the SRV entry in use. */
    method SrvNext(now: Word) returns (ret: int, host: Host, p: nat)
      requires srv.Some? && srvNo <= |srv.value.rrs|
      modifies this`srvNo
      ensures srvNo == old(srvNo)
      ensures match NextGood(Live(srv.value, now), srvNo)
        case Some(x) => ret == OK && host == x.host && p == x.port
        case None => ret == -E_DNS_EOR
    {
      var rr;
      rr, srvNo := EntryGetRr(srv.value, srvNo, now);
      if rr.Some? {
        return OK, rr.value.host, rr.value.port;
      }
      return -E_DNS_EOR, [], 0;
    }

    /** The handle yields the first of the destinations d, and more are to come as in d[1..]. */
    ghost predicate Yields(d: seq<Dest>, f: Flags, ret: int, ip: Addr, p: nat, now: Word)
      reads this
    {
      if d == [] then ret == Exhausted(w)
      else
        && ret == OK && Dest(ip, p) == d[0] && srv.Some? && Rest(f, ipNo + 1, now) == d[1..]
        && (a.Some? ==> NextGood(Live(a.value, now), ipNo).Some?)
    }

    /** The reference in the address slot is given back. */
    method DropAddresses()
      requires held == Slots() && a.Some?
      modifies this`a, this`held
      ensures held == Slots() && a == None
    {
      held := held - multiset{a.value.id};
      a := None;
    }

    /** The handle moves to the next SRV record unless there are addresses to stay with. */
    method StepOver(ret: int, ghost no: nat, ghost now: Word)
      requires held == Slots() && srvNo < 0xff
      modifies this`a, this`held, this`srvNo
      ensures held == Slots() && a == (if ret < 0 then None else old(a))
      ensures srvNo == old(srvNo) + if ret < 0 || old(a).None? then 1 else 0
      ensures Current(no, now) == if ret < 0 then [] else old(Current(no, now))
    {
      if ret < 0 {
        srvNo := srvNo + 1;
        if a.Some? {
          DropAddresses();
        }
      } else if a.None? {
        srvNo := srvNo + 1;
      }
    }

    /** dns_ip_resolve with addresses left from the call before. */
    method ReachNext(f: Flags, now: Word, ghost tail: seq<Dest>) returns (ret: int, ip: Addr)
      requires held == Slots() && Given() && a.Some?
      modifies this`a, this`ipNo, this`held
      ensures held == Slots() && a == old(a)
      ensures ret >= 0 <==> NextGood(Live(a.value, now), old(ipNo)).Some?
      ensures Came(old(Current(ipNo, now)) + tail, ret, Dest(ip, port), Current(ipNo + 1, now), tail)
      ensures ret >= 0 ==> ipNo == old(ipNo)
    {
      FromStep(Live(a.value, now), ipNo, port, tail);
      ret, ip := IpResolve([], f, now);
    }

    /** The body of the loop of dns_srv_resolve_ip when an entry of addresses is in use. */
    method NextAddress(f: Flags, now: Word, ghost d: seq<Dest>) returns (ret: int, ip: Addr, p: nat)
      requires Valid() && a.Some? && d == Rest(f, ipNo, now)
      modifies this`a, this`ipNo, this`held, this`srvNo
      ensures Valid() && srv == old(srv)
      ensures ret >= 0 <==> old(NextGood(Live(a.value, now), ipNo)).Some?
      ensures ret >= 0 ==> a == old(a) && srvNo == old(srvNo) && ipNo == old(ipNo) && Yields(d, f, ret, ip, p, now)
      ensures ret < 0 ==> a.None? && srvNo == old(srvNo) + 1 && Rest(f, 0, now) == d
    {
      GoodBeforeEnd(srv.value.rrs, srvNo);
      ghost var behind, tail := [], Flatten(w, f, Live(srv.value, now), srvNo + 1, now);
      p := port;
      ret, ip, behind := TakeAddress(f, now, d, tail);
      Arrived(f, d, ret, ip, behind, tail, now);
    }

    /** The next address of the entry in use, and the step to the next record if there is none. */
    method TakeAddress(f: Flags, now: Word, ghost d: seq<Dest>, ghost tail: seq<Dest>)
      returns (ret: int, ip: Addr, ghost behind: seq<Dest>)
      requires held == Slots() && Given() && a.Some? && srvNo < 0xff && d == Current(ipNo, now) + tail
      modifies this`a, this`ipNo, this`held, this`srvNo
      ensures held == Slots() && Came(d, ret, Dest(ip, port), behind, tail)
      ensures a == (if ret < 0 then None else old(a)) && srvNo == old(srvNo) + if ret < 0 then 1 else 0
      ensures ret >= 0 <==> old(NextGood(Live(a.value, now), ipNo)).Some?
      ensures ret >= 0 ==> ipNo == old(ipNo) && behind == Current(ipNo + 1, now)
    {
      ret, ip := ReachNext(f, now, tail);
      behind := Current(ipNo + 1, now);
      StepOver(ret, ipNo + 1, now);
    }

    /** What came, once the handle has moved on, is what it yields. */
    lemma Arrived(f: Flags, d: seq<Dest>, ret: int, ip: Addr, behind: seq<Dest>, tail: seq<Dest>, now: Word)
      requires srv.Some? && Came(d, ret, Dest(ip, port), behind, tail)
      requires ret < 0 ==> a.None? && tail == Flatten(w, f, Live(srv.value, now), srvNo, now)
      requires a.Some? ==> NextGood(Live(a.value, now), ipNo).Some?
      requires ret >= 0 ==>
        && behind == Current(ipNo + 1, now)
        && tail == Flatten(w, f, Live(srv.value, now), if a.Some? then srvNo + 1 else srvNo, now)
      ensures ret >= 0 ==> Yields(d, f, ret, ip, port, now)
      ensures ret < 0 ==> Rest(f, 0, now) == d
    {
    }

    /** The target of the SRV record r, which is the next one, is resolved. */
    method UseRecord(r: Srv, f: Flags, now: Word, ghost d: seq<Dest>) returns (ret: int, ip: Addr)
      requires Valid() && a.None? && srv.Some? && NextGood(Live(srv.value, now), srvNo) == Some(r) && port == r.port
      requires d == Rest(f, 0, now)
      modifies this`a, this`ipNo, this`held, this`srvNo
      ensures Valid() && srvNo >= old(srvNo)
      ensures ret >= 0 ==> Yields(d, f, ret, ip, port, now)
      ensures ret < 0 ==> a.None? && srvNo == old(srvNo) + 1 && Rest(f, 0, now) == d
    {
      ghost var s, behind := srvNo, [];
      ghost var rrs := Live(srv.value, now);
      GoodBeforeEnd(srv.value.rrs, srvNo);
      ret, ip, behind := TakeRecord(r, f, now, rrs, s);
      Arrived(f, d, ret, ip, behind, Flatten(w, f, rrs, s + 1, now), now);
    }

    /** The target of the record, which is the next one in rrs from s on, is resolved, and the handle
        steps over the record if nothing more of it is to come. */
    method TakeRecord(r: Srv, f: Flags, now: Word, ghost rrs: seq<Rr<Srv>>, ghost s: nat)
      returns (ret: int, ip: Addr, ghost behind: seq<Dest>)
      requires held == Slots() && a.None? && srvNo < 0xff
      requires NextGood(rrs, s) == Some(r) && port == r.port
      modifies this`a, this`ipNo, this`held, this`srvNo
      ensures held == Slots() && Given() && (ret < 0 ==> a == None)
      ensures srvNo == old(srvNo) + if a.None? then 1 else 0
      ensures Came(Flatten(w, f, rrs, s, now), ret, Dest(ip, port), behind, Flatten(w, f, rrs, s + 1, now))
      ensures ret >= 0 ==> behind == Current(ipNo + 1, now) && (a.Some? ==> NextGood(Live(a.value, now), ipNo).Some?)
    {
      ret, ip := ReachTarget(r, f, now, rrs, s);
      behind := Current(ipNo + 1, now);
      StepOver(ret, ipNo + 1, now);
    }

    /** dns_ip_resolve for the target of the record r. */
    method ReachTarget(r: Srv, f: Flags, now: Word, ghost rrs: seq<Rr<Srv>>, ghost s: nat) returns (ret: int, ip: Addr)
      requires held == Slots() && a.None?
      requires NextGood(rrs, s) == Some(r) && port == r.port
      modifies this`a, this`ipNo, this`held
      ensures held == Slots() && Given()
      ensures Came(Flatten(w, f, rrs, s, now), ret, Dest(ip, port), Current(ipNo + 1, now), Flatten(w, f, rrs, s + 1, now))
      ensures ret >= 0 && a.Some? ==> NextGood(Live(a.value, now), ipNo).Some?
    {
      ret, ip := IpResolve(r.host, f, now);
      ReachedRecord(w, f, rrs, s, r, ret, ip, a, ipNo, now);
    }

    /** The body of the loop of dns_srv_resolve_ip when the next SRV record is to be used. */
    method NextRecord(f: Flags, now: Word, ghost d: seq<Dest>) returns (ret: int, ip: Addr, p: nat, last: bool)
      requires Valid() && a.None? && d == Rest(f, 0, now)
      modifies this
      ensures Valid() && srv == w.srv && srvNo >= old(srvNo)
      ensures last || ret >= 0 ==> Yields(d, f, ret, ip, p, now)
      ensures last ==> ret < 0
      ensures !last && ret < 0 ==> srv.Some? && a.None? && srvNo == old(srvNo) + 1 && Rest(f, 0, now) == d
    {
      var host;
      ip := [];
      ret, host, p := SrvResolve(now);
      if ret < 0 {
        last := true;
        return;
      }
      last := false;
      port := p;
      ret, ip := UseRecord(Srv(host, p), f, now, d);
    }

    /** dns_srv_resolve_ip: the next destination, if there is one. */
    method ResolveIp(f: Flags, now: Word) returns (ret: int, ip: Addr, p: nat)
      requires Valid()
      modifies this
      ensures Valid()
      ensures Yields(old(Rest(f, ipNo, now)), f, ret, ip, p, now)
      ensures old(a.Some? && NextGood(Live(a.value, now), ipNo).Some?) ==>
        a == old(a) && ipNo == old(ipNo) && srv == old(srv)
    {
      ghost var d := Rest(f, ipNo, now);
      var last := false;
      ret := -1;
      ip, p := [], 0;
      while ret < 0 && !last
        invariant Valid()
        invariant ret < 0 && !last ==> Rest(f, ipNo, now) == d
        invariant ret >= 0 || last ==> Yields(d, f, ret, ip, p, now)
        invariant old(a.Some? && NextGood(Live(a.value, now), ipNo).Some?) ==>
          !last && a == old(a) && ipNo == old(ipNo) && srv == old(srv)
        decreases if w.srv.None? then 0 else |w.srv.value.rrs| + 1 - srvNo, ret < 0 && !last
      {
        if a.None? {
          ret, ip, p, last := NextRecord(f, now, d);
        } else {
          ret, ip, p := NextAddress(f, now, d);
        }
      }
    }

    /** The caller's loop over all destinations: resolve, use the result, step on. */
    method Walk(f: Flags, now: Word) returns (out: seq<Dest>, ret: int)
      requires Valid() && AddressesEnd(w) && srv.None? && ipNo == 0
      modifies this
      ensures Valid() && out == All(w, f, now)
      ensures ret == Exhausted(w)
    {
      out := [];
      ghost var goal := All(w, f, now);
      var more := true;
      ret := 0;
      while more
        invariant Valid()
        invariant more ==> out + Rest(f, ipNo, now) == goal
        invariant !more ==> out == goal && ret == Exhausted(w)
        decreases |goal| - |out|, more
      {
        ghost var d := Rest(f, ipNo, now);
        var ip, p;
        ret, ip, p := ResolveIp(f, now);
        Yielded(out, d);
        if ret >= 0 {
          out := out + [Dest(ip, p)];
          assert a.Some? ==> ipNo < 255;
        }
        more := Next(ret);
      }
    }

    /** The same loop over an entry of addresses with a good record at position 255 or behind: after
        any number of rounds it is still in that entry. */
    method Rounds(f: Flags, now: Word, n: nat) returns (out: seq<Dest>)
      requires Valid() && a.Some? && !Ends(Live(a.value, now))
      modifies this
      ensures Valid() && |out| == n && a == old(a) && srv == old(srv)
    {
      out := [];
      for i := 0 to n
        invariant Valid() && |out| == i && a == old(a) && srv == old(srv)
      {
        NoneFromThereOn(Live(a.value, now), ipNo);
        ghost var d := Rest(f, ipNo, now);
        FromStep(Live(a.value, now), ipNo, port, Flatten(w, f, Live(srv.value, now), srvNo + 1, now));
        var ret, ip, p := ResolveIp(f, now);
        assert ret == OK;
        out := out + [Dest(ip, p)];
        var more := Next(ret);
        assert more;
      }
    }
  }

  /** A good record that is met stands in front of position 255. */
  lemma GoodBeforeEnd<T>(rrs: seq<Rr<T>>, s: Byte)
    requires Ends(rrs) && NextGood(rrs, s).Some?
    ensures s < 255
  {
  }

  lemma Yielded(out: seq<Dest>, d: seq<Dest>)
    ensures d == [] ==> out + d == out
    ensures d != [] ==> out + d == out + [d[0]] + d[1..]
  {
  }

  lemma FromStep(rrs: seq<Rr<Addr>>, no: nat, port: nat, tail: seq<Dest>)
    ensures var d := WithPort(From(rrs, no), port) + tail;
      match NextGood(rrs, no)
      case Some(x) => d != [] && d[0] == Dest(x, port) && d[1..] == WithPort(From(rrs, no + 1), port) + tail
      case None => d == tail
  {
    if NextGood(rrs, no).Some? {
      var l := From(rrs, no);
      assert l[1..] == From(rrs, no + 1);
      assert WithPort(l, port) == [Dest(l[0], port)] + WithPort(l[1..], port);
    }
  }

  /** One SRV record: its destinations come first, then those of the records behind it. */
  lemma RecordStep(w: World, f: Flags, rrs: seq<Rr<Srv>>, s: nat, r: Srv, now: Word)
    requires NextGood(rrs, s) == Some(r)
    ensures var d := Flatten(w, f, rrs, s, now);
      var tail := Flatten(w, f, rrs, s + 1, now);
      match Resolve(w, f, r.host)
      case Literal(ip) => d != [] && d[0] == Dest(ip, r.port) && d[1..] == tail
      case Records(e) =>
        (match NextGood(Live(e, now), 0)
         case Some(x) => d != [] && d[0] == Dest(x, r.port) && d[1..] == WithPort(From(Live(e, now), 1), r.port) + tail
         case None => d == tail)
      case Nothing => d == tail
  {
    match Resolve(w, f, r.host)
    case Literal(_) =>
    case Records(e) => FromStep(Live(e, now), 0, r.port, Flatten(w, f, rrs, s + 1, now));
    case Nothing =>
  }
}
