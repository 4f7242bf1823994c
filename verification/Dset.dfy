/** The destination set of a request: its branches, and the Contact header of a redirection that
    lists them. */
module Dset {
  import opened Wrappers
  import opened Sequences
  import opened Buffers
  import opened SipText
  import Qvalue

  const MAX_BRANCHES := 12
  const MAX_URI_SIZE := 1024
  const MAX_REDIRECTION_LEN := 512
  const CONTACT := "Contact: "
  const CONTACT_DELIM := ", "
  const Q_PARAM := ">;q="

  datatype Branch = Branch(uri: string, dstUri: string, q: int)

  // ----- the header ---------------------------------------------------------------------------

  /** One contact: in angle brackets with its q value, if that is known. */
  function Item(uri: string, q: int): string {
    if q == Qvalue.Q_UNSPECIFIED then uri else "<" + uri + Q_PARAM + Qvalue.Text(q)
  }

  function Items(l: seq<(string, int)>): string {
    if l == [] then "" else Item(l[0].0, l[0].1) + Behind(l[1..])
  }

  /** The contacts that follow another one. */
  function Behind(l: seq<(string, int)>): string {
    if l == [] then "" else CONTACT_DELIM + Item(l[0].0, l[0].1) + Behind(l[1..])
  }

  function ContactText(l: seq<(string, int)>): string {
    CONTACT + Items(l) + CRLF
  }

  /** What the first pass adds for one contact. */
  function ItemLen(uri: string, q: int): nat {
    |uri| + if q == Qvalue.Q_UNSPECIFIED then 0 else 1 + |Q_PARAM| + Qvalue.LenQ(q)
  }

  function ItemsLen(l: seq<(string, int)>): nat {
    if l == [] then 0 else ItemLen(l[0].0, l[0].1) + ItemsLen(l[1..])
  }

  lemma ItemAgrees(uri: string, q: int)
    ensures |Item(uri, q)| == ItemLen(uri, q)
  {
    Qvalue.LengthsAgree(q);
  }

  lemma {:induction false} BehindAgrees(l: seq<(string, int)>)
    ensures |Behind(l)| == ItemsLen(l) + |l| * 2
  {
    if l != [] {
      ItemAgrees(l[0].0, l[0].1);
      BehindAgrees(l[1..]);
    }
  }

  /** The length of the first pass is the length of the text of the second. */
  lemma {:induction false} LengthsAgree(l: seq<(string, int)>)
    requires l != []
    ensures |ContactText(l)| == ItemsLen(l) + |CONTACT| + |CRLF| + (|l| - 1) * |CONTACT_DELIM|
  {
    ItemAgrees(l[0].0, l[0].1);
    BehindAgrees(l[1..]);
  }

  function Pairs(l: seq<Branch>): seq<(string, int)> {
    if l == [] then [] else [(l[0].uri, l[0].q)] + Pairs(l[1..])
  }

  /** One contact in the first pass. */
  method MeasureItem(uri: string, q: int) returns (len: nat)
    ensures len == ItemLen(uri, q)
  {
    len := |uri|;
    if q != Qvalue.Q_UNSPECIFIED {
      len := len + 1 + |Q_PARAM| + Qvalue.LenQ(q);
    }
  }

  class DestinationSet {
    var branches: seq<Branch>
    var next: nat
    var ruriQ: int

    ghost predicate Valid()
      reads this
    {
      && |branches| <= MAX_BRANCHES - 1 && next <= |branches|
      && forall b | b in branches :: |b.dstUri| < MAX_URI_SIZE
    }

    constructor ()
      ensures Valid() && branches == [] && ruriQ == Qvalue.Q_UNSPECIFIED
    {
      branches, next, ruriQ := [], 0, Qvalue.Q_UNSPECIFIED;
    }

    /** init_branch_iterator. */
    method InitIterator()
      modifies this`next
      ensures next == 0
    {
      next := 0;
    }

    /** next_branch. */
    method NextBranch() returns (b: Option<Branch>)
      requires Valid()
      modifies this`next
      ensures Valid()
      ensures old(next) < |branches| ==> b == Some(branches[old(next)]) && next == old(next) + 1
      ensures old(next) == |branches| ==> b == None && next == old(next)
    {
      if next < |branches| {
        b := Some(branches[next]);
        next := next + 1;
      } else {
        b := None;
      }
    }

    /** append_branch; without a uri the current one of the request is taken, which is not checked:
        overrun says that it is longer than the room in the branch. */
    method Append(uri: Option<string>, current: string, dstUri: string, q: int) returns (ok: bool, overrun: bool)
      requires Valid()
      modifies this`branches
      ensures Valid()
      ensures ok <==>
        && |old(branches)| < MAX_BRANCHES - 1 && |dstUri| < MAX_URI_SIZE
        && (uri.Some? ==> |uri.value| < MAX_URI_SIZE)
      ensures overrun <==> ok && uri.None? && |current| >= MAX_URI_SIZE
      ensures branches == old(branches)
        + if ok then [Branch(if uri.Some? then uri.value else current, dstUri, q)] else []
    {
      if |branches| == MAX_BRANCHES - 1 {
        return false, false;
      }
      if uri.Some? && |uri.value| > MAX_URI_SIZE - 1 {
        return false, false;
      }
      if |dstUri| > MAX_URI_SIZE - 1 {
        return false, false;
      }
      var text := if uri.Some? then uri.value else current;
      ok, overrun := true, |text| + 1 > MAX_URI_SIZE;
      branches := branches + [Branch(text, dstUri, q)];
    }

    /** The contacts of the header: the new request URI, then the branches. */
    function Contacts(newUri: Option<string>): seq<(string, int)>
      reads this
    {
      (if newUri.Some? then [(newUri.value, ruriQ)] else []) + Pairs(branches)
    }

    /** The first pass of print_dset. */
    method Measure(newUri: Option<string>) returns (cnt: nat, len: nat)
      requires Valid()
      modifies this`next
      ensures Valid() && cnt == |Contacts(newUri)| && len == ItemsLen(Contacts(newUri))
    {
      cnt, len := 0, 0;
      if newUri.Some? {
        cnt := 1;
        len := MeasureItem(newUri.value, ruriQ);
      }
      ghost var goal := Contacts(newUri);
      InitIterator();
      assert branches[0..] == branches;
      ContactsSplit(newUri, ruriQ, Pairs(branches));
      var b := NextBranch();
      while b.Some?
        invariant Valid() && branches == old(branches) && ruriQ == old(ruriQ)
        invariant b.Some? ==> next > 0 && b == Some(branches[next - 1])
        invariant b.None? ==> next == |branches|
        invariant var rest := Pairs(branches[if b.Some? then next - 1 else next..]);
          cnt + |rest| == |goal| && len + ItemsLen(rest) == ItemsLen(goal)
        decreases |branches| - next, b.Some?
      {
        assert branches[next - 1..][1..] == branches[next..];
        var n := MeasureItem(b.value.uri, b.value.q);
        cnt, len := cnt + 1, len + n;
        b := NextBranch();
      }
    }

    /** print_dset: the Contact header, if there is a contact and the header fits the buffer.  The
        length leaves out the blank that is written behind the line end. */
    method Print(newUri: Option<string>) returns (buf: array<char>, len: nat, ok: bool)
      requires Valid()
      modifies this`next
      ensures Valid() && fresh(buf) && buf.Length == MAX_REDIRECTION_LEN
      ensures ok <==> Contacts(newUri) != [] && |ContactText(Contacts(newUri))| + 1 <= MAX_REDIRECTION_LEN
      ensures ok ==>
        && len == |ContactText(Contacts(newUri))| && buf[..len] == ContactText(Contacts(newUri)) && buf[len] == ' '
    {
      buf := new char[MAX_REDIRECTION_LEN];
      var cnt;
      cnt, len := Measure(newUri);
      if cnt == 0 {
        return buf, 0, false;
      }
      ghost var l := Contacts(newUri);
      LengthsAgree(l);
      len := len + |CONTACT| + |CRLF| + (cnt - 1) * |CONTACT_DELIM|;
      if len + 1 > MAX_REDIRECTION_LEN {
        return buf, len, false;
      }
      WriteHeader(buf, newUri, l);
      ok := true;
    }

    /** The second pass, with the line end and the blank behind it. */
    method WriteHeader(buf: array<char>, newUri: Option<string>, ghost l: seq<(string, int)>)
      requires Valid() && l == Contacts(newUri) != [] && |ContactText(l)| < buf.Length
      modifies this`next, buf
      ensures Valid() && buf[..|ContactText(l)|] == ContactText(l) && buf[|ContactText(l)|] == ' '
    {
      var p := WriteContacts(buf, newUri, l);
      PutLineEnd(buf, p);
    }

    /** The second pass: the header without its line end. */
    method WriteContacts(buf: array<char>, newUri: Option<string>, ghost l: seq<(string, int)>) returns (p: nat)
      requires Valid() && l == Contacts(newUri) && |CONTACT + Items(l)| <= buf.Length
      modifies this`next, buf
      ensures Valid() && p == |CONTACT + Items(l)| && buf[..p] == CONTACT + Items(l)
    {
      p := Buffers.Append(buf, 0, CONTACT);
      assert buf[..p] == CONTACT;
      FirstItem(CONTACT, newUri, ruriQ, Pairs(branches));
      if newUri.Some? {
        p := PutItem(buf, p, newUri.value, ruriQ);
      }
      p := WriteBranches(buf, p, newUri.None?, CONTACT + Items(l));
    }

    /** The loop of the second pass; first says that no contact was written in front. */
    method WriteBranches(buf: array<char>, p0: nat, first: bool, ghost goal: string) returns (p: nat)
      requires Valid() && p0 <= buf.Length && |goal| <= buf.Length
      requires Writing(buf[..p0], first, Pairs(branches), goal)
      modifies this`next, buf
      ensures Valid() && p == |goal| && buf[..p] == goal
    {
      p := p0;
      var i := if first then 0 else 1;
      ghost var rest := branches;
      InitIterator();
      assert branches[0..] == branches;
      var b := NextBranch();
      while b.Some?
        invariant Valid() && branches == old(branches) && p <= buf.Length
        invariant b.Some? ==> next > 0 && rest == branches[next - 1..] && b == Some(rest[0])
        invariant b.None? ==> rest == []
        invariant Writing(buf[..p], i == 0, Pairs(rest), goal)
        decreases |rest|, b.Some?
      {
        p := PutBranch(buf, p, i == 0, rest, b.value, goal);
        i := i + 1;
        rest := rest[1..];
        b := NextBranch();
      }
      assert buf[..p] + "" == buf[..p];
    }
  }

  /** With done written and l to come, the text will be goal. */
  predicate Writing(done: string, first: bool, l: seq<(string, int)>, goal: string) {
    done + (if first then Items(l) else Behind(l)) == goal
  }

  method PutBranch(buf: array<char>, p: nat, first: bool, ghost rest: seq<Branch>, b: Branch, ghost goal: string)
    returns (next: nat)
    requires rest != [] && b == rest[0] && p <= buf.Length && |goal| <= buf.Length
    requires Writing(buf[..p], first, Pairs(rest), goal)
    modifies buf
    ensures next <= buf.Length && Writing(buf[..next], false, Pairs(rest[1..]), goal)
  {
    NextItem(buf[..p], first, Pairs(rest));
    next := p;
    if !first {
      next := Append(buf, next, CONTACT_DELIM);
    }
    next := PutItem(buf, next, b.uri, b.q);
  }

  /** The line end and a blank. */
  method PutLineEnd(buf: array<char>, p: nat)
    requires p + |CRLF| + 1 <= buf.Length
    modifies buf
    ensures buf[..p + |CRLF|] == old(buf[..p]) + CRLF && buf[p + |CRLF|] == ' '
  {
    var q := Append(buf, p, CRLF);
    buf[q] := ' ';
  }

  /** One contact, written at position p. */
  method PutItem(buf: array<char>, p: nat, uri: string, q: int) returns (next: nat)
    requires p + |Item(uri, q)| <= buf.Length
    modifies buf
    ensures next == p + |Item(uri, q)| && buf[..next] == old(buf[..p]) + Item(uri, q)
  {
    next := p;
    if q == Qvalue.Q_UNSPECIFIED {
      next := Append(buf, next, uri);
    } else {
      var qbuf := new char[6];
      var qlen := Qvalue.Q2Str(q, qbuf);
      next := Append2(buf, next, "<", uri);
      next := Append2(buf, next, Q_PARAM, qbuf[..qlen]);
      Regroup(old(buf[..p]), "<" + uri, Q_PARAM + Qvalue.Text(q));
      Regroup("<" + uri, Q_PARAM, Qvalue.Text(q));
    }
  }

  lemma FirstItem(done: string, newUri: Option<string>, q: int, rest: seq<(string, int)>)
    ensures var l := (if newUri.Some? then [(newUri.value, q)] else []) + rest;
      done + Items(l) == if newUri.Some? then done + Item(newUri.value, q) + Behind(rest) else done + Items(rest)
  {
    if newUri.Some? {
      assert ([(newUri.value, q)] + rest)[1..] == rest;
      Regroup(done, Item(newUri.value, q), Behind(rest));
    } else {
      assert [] + rest == rest;
    }
  }

  lemma NextItem(done: string, first: bool, rest: seq<(string, int)>)
    requires rest != []
    ensures var item := Item(rest[0].0, rest[0].1);
      if first then done + Items(rest) == done + item + Behind(rest[1..])
      else done + Behind(rest) == done + CONTACT_DELIM + item + Behind(rest[1..])
  {
    var item := Item(rest[0].0, rest[0].1);
    if first {
      Regroup(done, item, Behind(rest[1..]));
    } else {
      Regroup(done, CONTACT_DELIM + item, Behind(rest[1..]));
      Regroup(done, CONTACT_DELIM, item);
    }
  }

  lemma ContactsSplit(newUri: Option<string>, q: int, rest: seq<(string, int)>)
    ensures var l := (if newUri.Some? then [(newUri.value, q)] else []) + rest;
      && |l| == |rest| + (if newUri.Some? then 1 else 0)
      && ItemsLen(l) == ItemsLen(rest) + if newUri.Some? then ItemLen(newUri.value, q) else 0
  {
    if newUri.Some? {
      assert ([(newUri.value, q)] + rest)[1..] == rest;
    } else {
      assert [] + rest == rest;
    }
  }
}
