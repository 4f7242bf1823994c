/** The list of cache entries that dns_get_related makes from one DNS answer, and the entries that
    it loses on the way. */
module DnsRelated {
  import opened Wrappers
  import opened DnsHash
  import opened DnsTypes
  import opened DnsEntries
  import opened Sequences
  import C = CList

  /** What matters of a made entry: its type, and the names its records point to. */
  datatype Made = Made(kind: nat, targets: seq<Name>)

  /** dns_cache_mk_rd_entry: an entry made from the records of an answer, and the records it leaves. */
  type Maker<!Rec> = (Name, nat, seq<Rec>) -> (Option<Made>, seq<Rec>)

  /** It takes records for every entry; an entry of another type than the one asked for is an alias. */
  ghost predicate Makes<Rec(!new)>(mk: Maker<Rec>) {
    forall name, kind, l :: Took(mk(name, kind, l), kind, l)
  }

  predicate Took<Rec>(r: (Option<Made>, seq<Rec>), kind: nat, l: seq<Rec>) {
    && |r.1| <= |l|
    && (r.0.Some? ==> |r.1| < |l| && Fits(r.0.value, kind))
  }

  predicate Fits(e: Made, kind: nat) {
    (e.kind == kind || e.kind == T_CNAME) && (e.kind == T_CNAME ==> e.targets != [])
  }

  /** DNS_IPV4_ONLY and DNS_IPV6_ONLY. */
  datatype Flags = Flags(ipv4Only: bool, ipv6Only: bool)

  // ----- the outcome --------------------------------------------------------------------------

  /** list is what hangs together at the end, lost was made and does not; rest are the records left. */
  datatype Outcome<Rec> = Outcome(list: seq<Made>, lost: seq<Made>, rest: seq<Rec>, found: Option<Made>)

  ghost function Related<Rec(!new)>(mk: Maker<Rec>, f: Flags, e: Made, kind: nat,
                                    records: seq<Rec>, depth: nat): (r: Outcome<Rec>)
    requires Makes(mk) && Fits(e, kind)
    ensures r.list != [] && r.list[0] == e && |r.rest| <= |records|
    decreases |records|, 2
  {
    if e.kind == kind then
      if kind == T_SRV then
        var r := OfTargets(mk, f, e.targets, records, depth);
        Outcome([e] + r.list, r.lost, r.rest, Some(e))
      else Outcome([e], [], records, Some(e))
    else if depth < MAX_CNAME_CHAIN then
      assert Took(mk(e.targets[0], kind, records), kind, records);
      var (t, rest) := mk(e.targets[0], kind, records);
      if t.None? then Outcome([e], [], rest, None)
      else if rest == [] then Outcome([e, t.value], [], rest, if t.value.kind == kind then t else None)
      else
        var r := Related(mk, f, t.value, kind, rest, depth + 1);
        Outcome([e] + r.list, r.lost, r.rest, r.found)
    else Outcome([e], [], records, None)
  }

  /** The entries for the targets of SRV records. */
  ghost function OfTargets<Rec(!new)>(mk: Maker<Rec>, f: Flags, targets: seq<Name>,
                                      records: seq<Rec>, depth: nat): Outcome<Rec>
    requires Makes(mk)
    ensures |OfTargets(mk, f, targets, records, depth).rest| <= |records|
    decreases |records|, 1, |targets|
  {
    if targets == [] || records == [] then Outcome([], [], records, None)
    else
      var r := OfBoth(mk, f, targets[0], records, depth);
      var more := OfTargets(mk, f, targets[1..], r.rest, depth);
      Outcome(r.list + more.list, r.lost + more.lost, more.rest, None)
  }

  ghost function OfBoth<Rec(!new)>(mk: Maker<Rec>, f: Flags, target: Name,
                                   records: seq<Rec>, depth: nat): (r: Outcome<Rec>)
    requires Makes(mk)
    ensures |r.rest| <= |records|
    decreases |records|, 1, 0
  {
    var r4 := if f.ipv6Only then Outcome([], [], records, None) else OfTarget(mk, f, target, T_A, records, depth);
    var r6 := if f.ipv4Only then Outcome([], [], r4.rest, None) else OfTarget(mk, f, target, T_AAAA, r4.rest, depth);
    Outcome(r4.list + r6.list, r4.lost + r6.lost, r6.rest, None)
  }

  /** An alias is linked anew after what it leads to was linked behind it. */
  ghost function OfTarget<Rec(!new)>(mk: Maker<Rec>, f: Flags, target: Name, kind: nat,
                                     records: seq<Rec>, depth: nat): (r: Outcome<Rec>)
    requires Makes(mk)
    ensures |r.rest| <= |records|
    decreases |records|, 0
  {
    assert Took(mk(target, kind, records), kind, records);
    var (t, rest) := mk(target, kind, records);
    if t.None? then Outcome([], [], rest, None)
    else if t.value.kind == T_CNAME && rest != [] then
      var r := Related(mk, f, t.value, kind, rest, depth);
      Outcome([t.value], r.list[1..] + r.lost, r.rest, None)
    else Outcome([t.value], [], rest, None)
  }

  // ----- what is lost -------------------------------------------------------------------------

  /** The answer holds an alias for the target, and an entry for the name it leads to. */
  ghost predicate Followed<Rec(!new)>(mk: Maker<Rec>, target: Name, kind: nat, records: seq<Rec>, depth: nat)
    requires Makes(mk)
  {
    assert Took(mk(target, kind, records), kind, records);
    var (t, rest) := mk(target, kind, records);
    && t.Some? && t.value.kind == T_CNAME && rest != [] && depth < MAX_CNAME_CHAIN
    && mk(t.value.targets[0], kind, rest).0.Some?
  }

  ghost predicate FollowedEither<Rec(!new)>(mk: Maker<Rec>, f: Flags, target: Name, records: seq<Rec>, depth: nat)
    requires Makes(mk)
  {
    || (!f.ipv6Only && Followed(mk, target, T_A, records, depth))
    || (!f.ipv4Only
        && var left := if f.ipv6Only then records else OfTarget(mk, f, target, T_A, records, depth).rest;
           Followed(mk, target, T_AAAA, left, depth))
  }

  /** Some target is met that is followed through an alias. */
  ghost predicate FollowedSome<Rec(!new)>(mk: Maker<Rec>, f: Flags, targets: seq<Name>, records: seq<Rec>, depth: nat)
    requires Makes(mk)
    decreases |targets|
  {
    targets != [] && records != []
    && (FollowedEither(mk, f, targets[0], records, depth)
        || FollowedSome(mk, f, targets[1..], OfBoth(mk, f, targets[0], records, depth).rest, depth))
  }

  /** Nothing is lost when addresses are asked for. */
  lemma {:induction false} AddressesKeepAll<Rec(!new)>(mk: Maker<Rec>, f: Flags, e: Made, kind: nat,
                                                       records: seq<Rec>, depth: nat)
    requires Makes(mk) && Fits(e, kind) && kind != T_SRV
    ensures Related(mk, f, e, kind, records, depth).lost == []
    decreases |records|
  {
    if e.kind != kind && depth < MAX_CNAME_CHAIN {
      assert Took(mk(e.targets[0], kind, records), kind, records);
      var (t, rest) := mk(e.targets[0], kind, records);
      if t.Some? && rest != [] {
        AddressesKeepAll(mk, f, t.value, kind, rest, depth + 1);
      }
    }
  }

  lemma {:induction false} LostOfTarget<Rec(!new)>(mk: Maker<Rec>, f: Flags, target: Name, kind: nat,
                                                   records: seq<Rec>, depth: nat)
    requires Makes(mk) && kind != T_SRV && kind != T_CNAME
    ensures OfTarget(mk, f, target, kind, records, depth).lost != [] <==> Followed(mk, target, kind, records, depth)
  {
    assert Took(mk(target, kind, records), kind, records);
    var (t, rest) := mk(target, kind, records);
    if t.Some? && t.value.kind == T_CNAME && rest != [] {
      AddressesKeepAll(mk, f, t.value, kind, rest, depth);
      assert Took(mk(t.value.targets[0], kind, rest), kind, rest);
    }
  }

  lemma {:induction false} LostOfTargets<Rec(!new)>(mk: Maker<Rec>, f: Flags, targets: seq<Name>,
                                                    records: seq<Rec>, depth: nat)
    requires Makes(mk)
    ensures OfTargets(mk, f, targets, records, depth).lost != [] <==> FollowedSome(mk, f, targets, records, depth)
    decreases |targets|
  {
    if targets != [] && records != [] {
      LostOfTarget(mk, f, targets[0], T_A, records, depth);
      var left := if f.ipv6Only then records else OfTarget(mk, f, targets[0], T_A, records, depth).rest;
      LostOfTarget(mk, f, targets[0], T_AAAA, left, depth);
      LostOfTargets(mk, f, targets[1..], OfBoth(mk, f, targets[0], records, depth).rest, depth);
    }
  }

  /** From an SRV entry on, something is lost exactly when the same answer holds an alias for some
      target and an entry for the name that the alias leads to. */
  lemma LostIffAliasFollowed<Rec(!new)>(mk: Maker<Rec>, f: Flags, e: Made, records: seq<Rec>, depth: nat)
    requires Makes(mk) && e.kind == T_SRV
    ensures Related(mk, f, e, T_SRV, records, depth).lost != [] <==> FollowedSome(mk, f, e.targets, records, depth)
  {
    LostOfTargets(mk, f, e.targets, records, depth);
  }

  /** What was found is on the list; if nothing was, the list is a chain of aliases. */
  lemma {:induction false} FoundOrAliases<Rec(!new)>(mk: Maker<Rec>, f: Flags, e: Made, kind: nat,
                                                     records: seq<Rec>, depth: nat)
    requires Makes(mk) && Fits(e, kind)
    ensures var r := Related(mk, f, e, kind, records, depth);
      && (r.found.Some? ==> r.found.value in r.list && r.found.value.kind == kind)
      && (r.found.None? ==> r.lost == [] && forall x | x in r.list :: x.kind == T_CNAME)
    decreases |records|
  {
    if e.kind != kind && depth < MAX_CNAME_CHAIN {
      assert Took(mk(e.targets[0], kind, records), kind, records);
      var (t, rest) := mk(e.targets[0], kind, records);
      if t.Some? && rest != [] {
        FoundOrAliases(mk, f, t.value, kind, rest, depth + 1);
      }
    }
  }

  /** An SRV target whose alias and whose address are in one answer: the address is lost. */
  lemma AddressBehindAlias<Rec(!new)>(mk: Maker<Rec>, e: Made, alias: Made, address: Made, records: seq<Rec>,
                                      rest: seq<Rec>, depth: nat)
    requires Makes(mk) && e.kind == T_SRV && |e.targets| == 1 && depth < MAX_CNAME_CHAIN
    requires alias.kind == T_CNAME && alias.targets != [] && address.kind == T_A && rest != []
    requires mk(e.targets[0], T_A, records) == (Some(alias), rest)
    requires mk(alias.targets[0], T_A, rest) == (Some(address), [])
    ensures var r := Related(mk, Flags(true, false), e, T_SRV, records, depth);
      r.list == [e, alias] && r.lost == [address]
  {
    var f := Flags(true, false);
    assert Took(mk(e.targets[0], T_A, records), T_A, records);
    assert Related(mk, f, alias, T_A, rest, depth) == Outcome([alias, address], [], [], Some(address));
    assert OfTarget(mk, f, e.targets[0], T_A, records, depth) == Outcome([alias], [address], [], None);
    assert OfBoth(mk, f, e.targets[0], records, depth) == Outcome([alias], [address], [], None);
    assert OfTargets(mk, f, e.targets[1..], [], depth) == Outcome([], [], [], None);
  }

  // ----- the list in memory -------------------------------------------------------------------

  class Entry {
    const made: Made
    const link: C.Node

    constructor (made: Made)
      ensures this.made == made && fresh(link)
    {
      this.made := made;
      link := new C.Node();
    }
  }

  ghost function Links(m: seq<Entry>): (l: seq<C.Node>)
    ensures |l| == |m| && forall i | 0 <= i < |m| :: l[i] == m[i].link
  {
    seq(|m|, i requires 0 <= i < |m| => m[i].link)
  }

  ghost function Mades(m: seq<Entry>): (l: seq<Made>)
    ensures |l| == |m| && forall i | 0 <= i < |m| :: l[i] == m[i].made
  {
    seq(|m|, i requires 0 <= i < |m| => m[i].made)
  }

  lemma Joins(a: seq<Entry>, b: seq<Entry>)
    ensures Links(a + b) == Links(a) + Links(b) && Mades(a + b) == Mades(a) + Mades(b)
  {
  }

  lemma JoinsFirst(e: Entry, m: seq<Entry>)
    ensures Links([e] + m) == [e.link] + Links(m) && Mades([e] + m) == [e.made] + Mades(m)
  {
  }

  lemma Single(t: Entry)
    ensures Links([t]) == [t.link] && Mades([t]) == [t.made]
  {
  }

  /** The entries m hang at e. */
  ghost predicate Hang(e: Entry, m: seq<Entry>)
    reads e.link, Links(m)
  {
    C.Ring(e.link, Links(m))
  }

  /** No link is in both. */
  ghost predicate Off(m: seq<Entry>, a: seq<Entry>) {
    C.Apart(Links(a), Links(m))
  }

  /** clist_append. */
  method Append(e: Entry, t: Entry, ghost m: seq<Entry>)
    requires Hang(e, m) && Off([t], [e] + m)
    modifies e.link, Links(m), t.link
    ensures Hang(e, m + [t])
  {
    Joins(m, [t]);
    JoinsFirst(e, m);
    Single(t);
    assert t.link !in [e.link] + Links(m) by {
      assert [t.link][0] == t.link;
    }
    C.Append(e.link, t.link, Links(m));
  }

  method AppendNext(e: Entry, t: Entry, ghost m: seq<Entry>)
    requires Hang(e, m) && e.link != t.link && forall i | 0 <= i < |m| :: m[i].link != t.link
    modifies e.link, Links(m), t.link
    ensures Hang(e, m + [t])
  {
    Single(t);
    JoinsFirst(e, m);
    Append(e, t, m);
  }

  /** clist_append_sublist with all that hangs at t. */
  method AppendAll(e: Entry, t: Entry, ghost m: seq<Entry>, ghost n: seq<Entry>)
    requires Hang(e, m) && Hang(t, n) && Off([t] + n, [e] + m)
    modifies e.link, Links(m), t.link, Links(n)
    ensures Hang(e, m + ([t] + n))
  {
    Joins(m, [t] + n);
    JoinsFirst(t, n);
    JoinsFirst(e, m);
    var last := t.link.prev;
    C.AppendSublist(e.link, t.link, last, Links(m), Links(n));
  }

  twostate predicate New(new m: seq<Entry>) {
    forall i | 0 <= i < |m| :: fresh(m[i]) && fresh(m[i].link)
  }

  /** dns_get_related, with cname_chain_len as depth. */
  method GetRelated<Rec(!new)>(mk: Maker<Rec>, f: Flags, e: Entry, kind: nat, records: seq<Rec>, depth: nat)
    returns (found: Entry?, rest: seq<Rec>, ghost m: seq<Entry>, ghost lost: seq<Entry>)
    requires Makes(mk) && Fits(e.made, kind)
    modifies e.link
    ensures Hang(e, m) && New(m) && New(lost) && Off(lost, [e] + m)
    ensures Gives(Related(mk, f, e.made, kind, records, depth), [e] + m, lost, rest)
    ensures Names(Related(mk, f, e.made, kind, records, depth), [e] + m, found)
    decreases |records|, 3
  {
    m, lost, rest, found := [], [], records, null;
    C.Init(e.link);
    JoinsFirst(e, []);
    if e.made.kind == kind {
      found := e;
      if kind == T_SRV {
        rest, m, lost := GetTargets(mk, f, e, records, depth);
        JoinsFirst(e, m);
      }
    } else if depth < MAX_CNAME_CHAIN {
      found, rest, m, lost := FollowAlias(mk, f, e, kind, records, depth);
    }
  }

  /** The entries are the ones of the outcome. */
  ghost predicate Gives<Rec>(r: Outcome<Rec>, list: seq<Entry>, lost: seq<Entry>, rest: seq<Rec>) {
    Mades(list) == r.list && Mades(lost) == r.lost && rest == r.rest
  }

  ghost predicate Names<Rec>(r: Outcome<Rec>, list: seq<Entry>, found: Entry?) {
    if found == null then r.found == None else found in list && r.found == Some(found.made)
  }

  lemma OffFirst(lost: seq<Entry>, e: Entry, m: seq<Entry>)
    requires Off(lost, m) && forall i | 0 <= i < |lost| :: lost[i].link != e.link
    ensures Off(lost, [e] + m)
  {
    JoinsFirst(e, m);
  }

  lemma GivesFirst<Rec>(r: Outcome<Rec>, e: Entry, list: seq<Entry>, lost: seq<Entry>, rest: seq<Rec>, found: Entry?)
    requires Gives(r, list, lost, rest) && Names(r, list, found)
    ensures Gives(Outcome([e.made] + r.list, r.lost, r.rest, r.found), [e] + list, lost, rest)
    ensures Names(Outcome([e.made] + r.list, r.lost, r.rest, r.found), [e] + list, found)
  {
    JoinsFirst(e, list);
  }

  lemma OffEmpty(e: Entry, t: Entry, n: seq<Entry>)
    requires t.link != e.link && forall i | 0 <= i < |n| :: n[i].link != e.link
    ensures Off([t] + n, [e] + [])
  {
    JoinsFirst(t, n);
    JoinsFirst(e, []);
  }

  /** The branch for an alias. */
  method FollowAlias<Rec(!new)>(mk: Maker<Rec>, f: Flags, e: Entry, kind: nat, records: seq<Rec>, depth: nat)
    returns (found: Entry?, rest: seq<Rec>, ghost m: seq<Entry>, ghost lost: seq<Entry>)
    requires Makes(mk) && Fits(e.made, kind) && e.made.kind != kind && depth < MAX_CNAME_CHAIN && Hang(e, [])
    modifies e.link
    ensures Hang(e, m) && New(m) && New(lost) && Off(lost, [e] + m)
    ensures Gives(Related(mk, f, e.made, kind, records, depth), [e] + m, lost, rest)
    ensures Names(Related(mk, f, e.made, kind, records, depth), [e] + m, found)
    decreases |records|, 2
  {
    assert Took(mk(e.made.targets[0], kind, records), kind, records);
    var r := mk(e.made.targets[0], kind, records);
    m, lost, rest, found := [], [], r.1, null;
    JoinsFirst(e, []);
    if r.0.Some? {
      var t := new Entry(r.0.value);
      if rest != [] {
        ghost var o := Related(mk, f, t.made, kind, rest, depth + 1);
        found, rest, m, lost := FollowOn(mk, f, e, t, kind, rest, depth + 1);
        GivesFirst(o, e, m, lost, rest, found);
      } else {
        found, m := FollowLast(e, t, kind);
      }
    }
  }

  /** t is the last entry that the answer gives. */
  method FollowLast(e: Entry, t: Entry, kind: nat) returns (found: Entry?, ghost m: seq<Entry>)
    requires Hang(e, []) && e.link != t.link
    modifies e.link, t.link
    ensures m == [t] && Hang(e, m) && Off([], [e] + m) && Mades([e] + m) == [e.made, t.made]
    ensures found == if t.made.kind == kind then t else null
  {
    found, m := null, [t];
    if t.made.kind == kind {
      found := t;
    }
    AppendNext(e, t, []);
    assert [] + [t] == m;
    JoinsFirst(e, m);
    Single(t);
  }

  /** What t leads to hangs at t, and then all of it at e. */
  method FollowOn<Rec(!new)>(mk: Maker<Rec>, f: Flags, e: Entry, t: Entry, kind: nat, records: seq<Rec>, depth: nat)
    returns (found: Entry?, rest: seq<Rec>, ghost m: seq<Entry>, ghost lost: seq<Entry>)
    requires Makes(mk) && Fits(t.made, kind) && Hang(e, []) && e.link != t.link
    modifies e.link, t.link
    ensures Hang(e, m) && New(lost) && Off(lost, [e] + m) && m != [] && m[0] == t && New(m[1..])
    ensures Gives(Related(mk, f, t.made, kind, records, depth), m, lost, rest)
    ensures Names(Related(mk, f, t.made, kind, records, depth), m, found)
    decreases |records|, 4
  {
    ghost var n;
    found, rest, n, lost := GetRelated(mk, f, t, kind, records, depth);
    m := [t] + n;
    assert [] + m == m && m[1..] == n;
    OffEmpty(e, t, n);
    AppendAll(e, t, [], n);
    OffFirst(lost, e, m);
  }

  lemma OffRing(e: Entry, m: seq<Entry>, t: Entry, lost: seq<Entry>)
    requires forall i | 0 <= i < |lost| :: lost[i].link != e.link && lost[i].link != t.link
    requires forall i, j | 0 <= i < |lost| && 0 <= j < |m| :: lost[i].link != m[j].link
    ensures Off(lost, [e] + (m + [t]))
  {
    JoinsFirst(e, m + [t]);
    Joins(m, [t]);
    Single(t);
  }

  lemma OffBoth(a: seq<Entry>, b: seq<Entry>, c: seq<Entry>)
    requires Off(a, c) && Off(b, c)
    ensures Off(a + b, c)
  {
    Joins(a, b);
  }

  /** An alias is linked into the list although its own list hangs at it. */
  method GetTarget<Rec(!new)>(mk: Maker<Rec>, f: Flags, e: Entry, target: Name, kind: nat,
                              records: seq<Rec>, depth: nat,
                              ghost m: seq<Entry>)
    returns (rest: seq<Rec>, ghost more: seq<Entry>, ghost lost: seq<Entry>)
    requires Makes(mk) && Hang(e, m)
    modifies e.link, Links(m)
    ensures Hang(e, m + more) && New(more) && New(lost) && Off(lost, [e] + (m + more))
    ensures Gives(OfTarget(mk, f, target, kind, records, depth), more, lost, rest)
    decreases |records|, 0
  {
    assert Took(mk(target, kind, records), kind, records);
    var r := mk(target, kind, records);
    more, lost, rest := [], [], r.1;
    assert m + [] == m;
    if r.0.Some? {
      var t := new Entry(r.0.value);
      if t.made.kind == T_CNAME && rest != [] {
        rest, lost := GetBehind(mk, f, t, kind, rest, depth);
      }
      more := [t];
      Single(t);
      OffRing(e, m, t, lost);
      AppendNext(e, t, m);
    }
  }

  /** What is lost when t is linked anew. */
  method GetBehind<Rec(!new)>(mk: Maker<Rec>, f: Flags, t: Entry, kind: nat, records: seq<Rec>, depth: nat)
    returns (rest: seq<Rec>, ghost lost: seq<Entry>)
    requires Makes(mk) && Fits(t.made, kind)
    modifies t.link
    ensures New(lost) && forall i | 0 <= i < |lost| :: lost[i].link != t.link
    ensures var r := Related(mk, f, t.made, kind, records, depth);
      Mades(lost) == r.list[1..] + r.lost && rest == r.rest
    decreases |records|, 4
  {
    ghost var n, l;
    var found;
    found, rest, n, l := GetRelated(mk, f, t, kind, records, depth);
    lost := n + l;
    Behind(t, n, l);
    MadeBehind(t, n, l);
  }

  /** Neither what hangs at t nor what is off that list is t. */
  lemma Behind(t: Entry, n: seq<Entry>, l: seq<Entry>)
    requires Hang(t, n) && Off(l, [t] + n)
    ensures forall i | 0 <= i < |n + l| :: (n + l)[i].link != t.link
  {
    JoinsFirst(t, n);
    var r := [t.link] + Links(n);
    assert r[0] == t.link;
    forall i | 0 <= i < |n + l| ensures (n + l)[i].link != t.link {
      if i < |n| {
        assert (n + l)[i].link == r[i + 1];
      } else {
        assert (n + l)[i].link == Links(l)[i - |n|];
      }
    }
  }

  lemma MadeBehind(t: Entry, n: seq<Entry>, l: seq<Entry>)
    ensures Mades(n + l) == Mades([t] + n)[1..] + Mades(l)
  {
    Joins(n, l);
    JoinsFirst(t, n);
  }

  /** The addresses of both families. */
  method GetBoth<Rec(!new)>(mk: Maker<Rec>, f: Flags, e: Entry, target: Name, records: seq<Rec>, depth: nat,
                            ghost m: seq<Entry>)
    returns (rest: seq<Rec>, ghost more: seq<Entry>, ghost lost: seq<Entry>)
    requires Makes(mk) && Hang(e, m)
    modifies e.link, Links(m)
    ensures Hang(e, m + more) && New(more) && New(lost) && Off(lost, [e] + (m + more))
    ensures Gives(OfBoth(mk, f, target, records, depth), more, lost, rest)
    decreases |records|, 1
  {
    more, lost, rest := [], [], records;
    assert m + [] == m;
    if !f.ipv6Only {
      rest, more, lost := GetTarget(mk, f, e, target, T_A, rest, depth, m);
    }
    if !f.ipv4Only {
      ghost var more6, lost6;
      rest, more6, lost6 := GetTarget(mk, f, e, target, T_AAAA, rest, depth, m + more);
      Combined(e, m, more, lost, more6, lost6);
      more, lost := more + more6, lost + lost6;
    }
  }

  lemma OffMore(lost: seq<Entry>, e: Entry, m: seq<Entry>, more: seq<Entry>)
    requires Off(lost, [e] + m) && forall i, j | 0 <= i < |lost| && 0 <= j < |more| :: lost[i].link != more[j].link
    ensures Off(lost, [e] + (m + more))
  {
    assert [e] + (m + more) == ([e] + m) + more;
    Joins([e] + m, more);
  }

  lemma Combined(e: Entry, m: seq<Entry>, more: seq<Entry>, lost: seq<Entry>, more6: seq<Entry>, lost6: seq<Entry>)
    requires Off(lost, [e] + (m + more)) && Off(lost6, [e] + ((m + more) + more6))
    requires forall i, j | 0 <= i < |lost| && 0 <= j < |more6| :: lost[i].link != more6[j].link
    ensures (m + more) + more6 == m + (more + more6) && Off(lost + lost6, [e] + (m + (more + more6)))
    ensures Mades(more + more6) == Mades(more) + Mades(more6) && Mades(lost + lost6) == Mades(lost) + Mades(lost6)
  {
    OffMore(lost, e, m + more, more6);
    OffBoth(lost, lost6, [e] + ((m + more) + more6));
    Regroup(m, more, more6);
    Joins(more, more6);
    Joins(lost, lost6);
  }

  /** With m linked and lost lost, the targets and records left will make it the outcome goal. */
  ghost predicate Gathering<Rec(!new)>(mk: Maker<Rec>, f: Flags, targets: seq<Name>, rest: seq<Rec>, depth: nat,
                                       m: seq<Entry>, lost: seq<Entry>, goal: Outcome<Rec>)
    requires Makes(mk)
  {
    var r := OfTargets(mk, f, targets, rest, depth);
    goal == Outcome(Mades(m) + r.list, Mades(lost) + r.lost, r.rest, None)
  }

  lemma GathersOn<Rec(!new)>(mk: Maker<Rec>, f: Flags, targets: seq<Name>, rest: seq<Rec>, depth: nat,
                             m: seq<Entry>, lost: seq<Entry>, goal: Outcome<Rec>,
                             rest': seq<Rec>, more: seq<Entry>, lost': seq<Entry>)
    requires Makes(mk) && targets != [] && rest != [] && Gathering(mk, f, targets, rest, depth, m, lost, goal)
    requires Gives(OfBoth(mk, f, targets[0], rest, depth), more, lost', rest')
    ensures Gathering(mk, f, targets[1..], rest', depth, m + more, lost + lost', goal)
  {
    var r := OfTargets(mk, f, targets[1..], rest', depth);
    Joins(m, more);
    Joins(lost, lost');
    Regroup(Mades(m), Mades(more), r.list);
    Regroup(Mades(lost), Mades(lost'), r.lost);
  }

  /** The loop over the SRV records. */
  method GetTargets<Rec(!new)>(mk: Maker<Rec>, f: Flags, e: Entry, records: seq<Rec>, depth: nat)
    returns (rest: seq<Rec>, ghost m: seq<Entry>, ghost lost: seq<Entry>)
    requires Makes(mk) && Hang(e, [])
    modifies e.link
    ensures Hang(e, m) && New(m) && New(lost) && Off(lost, [e] + m)
    ensures Gives(OfTargets(mk, f, e.made.targets, records, depth), m, lost, rest)
    decreases |records|, 2
  {
    rest, m, lost := records, [], [];
    ghost var goal := OfTargets(mk, f, e.made.targets, records, depth);
    var i := 0;
    assert e.made.targets[0..] == e.made.targets;
    while i < |e.made.targets| && rest != []
      invariant i <= |e.made.targets| && |rest| <= |records|
      invariant Hang(e, m) && New(m) && New(lost) && Off(lost, [e] + m)
      invariant Gathering(mk, f, e.made.targets[i..], rest, depth, m, lost, goal)
    {
      ghost var targets, was, more, lost' := e.made.targets[i..], rest, [], [];
      assert targets[1..] == e.made.targets[i + 1..];
      rest, more, lost' := GetBoth(mk, f, e, e.made.targets[i], rest, depth, m);
      GathersOn(mk, f, targets, was, depth, m, lost, goal, rest, more, lost');
      OffMore(lost, e, m, more);
      OffBoth(lost, lost', [e] + (m + more));
      m, lost := m + more, lost + lost';
      i := i + 1;
    }
  }
}
