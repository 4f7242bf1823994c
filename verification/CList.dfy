/** Circular doubly linked lists: a head and its elements in order.  The cache's buckets and its
    last-used list are such lists. */
module CList {
  import opened Sequences

  class Node {
    var next: Node?
    var prev: Node?

    constructor ()
      ensures next == null && prev == null
    {
      next, prev := null, null;
    }
  }

  predicate Distinct(r: seq<Node>) {
    forall i, j :: 0 <= i < j < |r| ==> r[i] != r[j]
  }

  /** The links between neighbours of r lead both ways. */
  ghost predicate Linked(r: seq<Node>)
    reads r
  {
    forall i | 0 <= i < |r| - 1 :: r[i].next == r[i + 1] && r[i + 1].prev == r[i]
  }

  /** The ring at head holds the elements l. */
  ghost predicate Ring(head: Node, l: seq<Node>)
    reads head, l
  {
    var r := [head] + l;
    Distinct(r) && Linked(r) && r[|r| - 1].next == head && head.prev == r[|r| - 1]
  }

  /** clist_init. */
  method Init(c: Node)
    modifies c
    ensures Ring(c, [])
  {
    c.next := c;
    c.prev := c;
  }

  /** clist_append. */
  method Append(head: Node, c: Node, ghost l: seq<Node>)
    requires Ring(head, l) && c !in [head] + l
    modifies head, l, c
    ensures Ring(head, l + [c])
  {
    ghost var r := [head] + l;
    assert head == r[0] && r[|r| - 1] in r;
    c.prev := head.prev;
    c.next := head;
    c.prev.next := c;
    head.prev := c;
    assert [head] + (l + [c]) == r + [c];
  }

  predicate Apart(r: seq<Node>, t: seq<Node>) {
    forall k, i | 0 <= k < |r| && 0 <= i < |t| :: r[k] != t[i]
  }

  /** clist_append_sublist, for a whole ring with its head s, the last element of which is e. */
  method AppendSublist(head: Node, s: Node, e: Node, ghost l: seq<Node>, ghost m: seq<Node>)
    requires Ring(head, l) && Ring(s, m) && e == ([s] + m)[|m|] && Apart([head] + l, [s] + m)
    modifies head, l, s, m
    ensures Ring(head, l + ([s] + m))
  {
    ghost var r, t := [head] + l, [s] + m;
    assert head == r[0] && s == t[0] && t[|t| - 1] == e;
    assert r[|r| - 1] in r && e in t;
    s.prev := head.prev;
    e.next := head;
    s.prev.next := s;
    head.prev := e;
    assert Linked(r);
    assert Linked(t);
    Joined(head, l, s, m);
  }

  lemma Joined(head: Node, l: seq<Node>, s: Node, m: seq<Node>)
    requires Distinct([head] + l) && Distinct([s] + m) && Apart([head] + l, [s] + m)
    requires Linked([head] + l) && Linked([s] + m)
    requires ([head] + l)[|l|].next == s && s.prev == ([head] + l)[|l|]
    requires ([s] + m)[|m|].next == head && head.prev == ([s] + m)[|m|]
    ensures Ring(head, l + ([s] + m))
  {
    var r, t, j := [head] + l, [s] + m, [head] + (l + ([s] + m));
    assert |j| == |r| + |t|;
    assert forall k | 0 <= k < |r| :: j[k] == r[k];
    assert forall k | |r| <= k < |j| :: j[k] == t[k - |r|];
  }

  /** clist_insert. */
  method Insert(head: Node, c: Node, ghost l: seq<Node>)
    requires Ring(head, l) && c !in [head] + l
    modifies head, l, c
    ensures Ring(head, [c] + l)
  {
    ghost var r := [head] + l;
    assert head == r[0] && (l != [] ==> r[1] == l[0] && l[0] in r);
    c.prev := head;
    c.next := head.next;
    c.next.prev := c;
    head.next := c;
    ghost var t := [head] + ([c] + l);
    assert forall i | 1 < i < |t| :: t[i] == r[i - 1];
  }

  /** The rings before and after the element at position i of l goes. */
  lemma CutRing(head: Node, l: seq<Node>, i: nat)
    requires i < |l|
    ensures var r, t := [head] + l, [head] + (l[..i] + l[i + 1..]);
      && |t| == |r| - 1
      && (forall k | 0 <= k <= i :: t[k] == r[k])
      && (forall k | i < k < |t| :: t[k] == r[k + 1])
  {
  }

  /** clist_rm. */
  method Remove(c: Node, ghost head: Node, ghost l: seq<Node>, ghost i: nat)
    requires Ring(head, l) && i < |l| && c == l[i]
    modifies head, l
    ensures Ring(head, l[..i] + l[i + 1..])
    ensures c.next == old(c.next) && c.prev == old(c.prev)
  {
    ghost var r := [head] + l;
    ghost var after := if i + 2 < |r| then r[i + 2] else head;
    assert r[i + 1] == c && c.prev == r[i] && c.next == after;
    assert r[i] == head || r[i] == l[i - 1];
    assert after == head || after == l[i + 1];
    c.prev.next := c.next;
    c.next.prev := c.prev;
    CutRing(head, l, i);
  }

  /** The cache's "most recently used": the element is taken out and put at the end. */
  method MoveToEnd(c: Node, head: Node, ghost l: seq<Node>, ghost i: nat)
    requires Ring(head, l) && i < |l| && c == l[i]
    modifies head, l
    ensures Ring(head, l[..i] + l[i + 1..] + [c])
  {
    Remove(c, head, l, i);
    ghost var rest := l[..i] + l[i + 1..];
    CutRing(head, l, i);
    assert ([head] + l)[i + 1] == c;
    Append(head, c, rest);
  }

  function Without(l: seq<Node>, drop: set<Node>): seq<Node> {
    if l == [] then [] else if l[0] in drop then Without(l[1..], drop) else [l[0]] + Without(l[1..], drop)
  }

  /** clist_foreach_safe with a body that removes some of the elements: every element is visited,
      and the others stay in order. */
  method ForEachSafe(head: Node, drop: set<Node>, ghost l: seq<Node>) returns (ghost visited: seq<Node>)
    requires Ring(head, l)
    modifies head, l
    ensures Ring(head, Without(l, drop)) && visited == l
  {
    visited := [];
    ghost var k: nat, kept: seq<Node> := 0, [];
    assert l[0..] == l && [] + l == l && [] + Without(l, drop) == Without(l, drop);
    First(head, kept, l);
    var v := head.next;
    var bak := v.next;
    while v != head
      invariant Going(head, kept, k, v, drop, l) && bak == v.next && visited == l[..k]
      decreases |l| - k
    {
      GoesOn(head, kept, k, v, drop, l);
      visited := visited + [v];
      kept := Visit(v, drop, head, kept, k, l);
      k := k + 1;
      v := bak;
      bak := v.next;
    }
    Gone(head, kept, k, drop, l);
  }

  /** The loop has come to v, the element at position k or, behind the last one, the head. */
  ghost predicate Going(head: Node, kept: seq<Node>, k: nat, v: Node?, drop: set<Node>, l: seq<Node>)
    reads head, l, kept
  {
    && k <= |l| && Within(kept, l)
    && Ring(head, kept + l[k..]) && v == (if k == |l| then head else l[k]) && (k < |l| ==> v != head)
    && kept + Without(l[k..], drop) == Without(l, drop)
  }

  lemma GoesOn(head: Node, kept: seq<Node>, k: nat, v: Node?, drop: set<Node>, l: seq<Node>)
    requires Going(head, kept, k, v, drop, l) && v != head
    ensures k < |l| && v == l[k] && l[..k + 1] == l[..k] + [v] && v.next == if k + 1 == |l| then head else l[k + 1]
  {
    OneFurther(l, k);
    Second(head, kept, l[k..]);
  }

  lemma Gone(head: Node, kept: seq<Node>, k: nat, drop: set<Node>, l: seq<Node>)
    requires Going(head, kept, k, head, drop, l)
    ensures k == |l| && l[..k] == l && Ring(head, Without(l, drop))
  {
    assert l[k..] == [];
    assert kept + [] == kept;
  }

  /** The body of the loop: the element is removed or kept. */
  method Visit(v: Node, drop: set<Node>, ghost head: Node, ghost kept: seq<Node>, ghost k: nat, ghost l: seq<Node>)
    returns (ghost kept': seq<Node>)
    requires Going(head, kept, k, v, drop, l) && v != head
    modifies head, l
    ensures kept' == kept + (if v in drop then [] else [v])
    ensures Going(head, kept', k + 1, old(v.next), drop, l) && v.next == old(v.next)
  {
    ghost var rest := l[k..];
    GoesOn(head, kept, k, v, drop, l);
    OneFurther(l, k);
    Walked(kept, rest, drop);
    assert Within(rest, l);
    if v in drop {
      RemoveFirst(v, head, kept, rest, l);
      kept' := kept;
    } else {
      kept' := kept + [v];
    }
    First(head, kept', rest[1..]);
  }

  predicate Within(a: seq<Node>, l: seq<Node>) {
    forall n | n in a :: n in l
  }

  method RemoveFirst(v: Node, ghost head: Node, ghost kept: seq<Node>, ghost rest: seq<Node>, ghost l: seq<Node>)
    requires Ring(head, kept + rest) && rest != [] && v == rest[0] && Within(kept, l) && Within(rest, l)
    modifies head, l
    ensures Ring(head, kept + rest[1..]) && v.next == old(v.next)
  {
    assert (kept + rest)[|kept|] == v;
    ghost var cur := kept + rest;
    assert Within(cur, l);
    assert forall i | 0 <= i < |cur| :: cur[i] in cur;
    Remove(v, head, cur, |kept|);
    assert cur[..|kept|] + cur[|kept| + 1..] == kept + rest[1..];
  }

  lemma Walked(kept: seq<Node>, rest: seq<Node>, drop: set<Node>)
    requires rest != []
    ensures kept + rest == kept + [rest[0]] + rest[1..]
    ensures rest[0] in drop ==> kept + Without(rest, drop) == kept + Without(rest[1..], drop)
    ensures rest[0] !in drop ==> kept + Without(rest, drop) == kept + [rest[0]] + Without(rest[1..], drop)
  {
    assert rest == [rest[0]] + rest[1..];
    Regroup(kept, [rest[0]], rest[1..]);
    if rest[0] !in drop {
      Regroup(kept, [rest[0]], Without(rest[1..], drop));
    }
  }

  /** No element of a ring is its head. */
  lemma First(head: Node, kept: seq<Node>, rest: seq<Node>)
    requires Ring(head, kept + rest)
    ensures kept == [] ==> head.next == if rest == [] then head else rest[0]
    ensures rest != [] ==> rest[0] != head
  {
    var r := [head] + (kept + rest);
    assert r[0] == head && |r| == 1 + |kept| + |rest|;
    assert kept == [] && rest != [] ==> r[1] == rest[0];
    assert rest != [] ==> rest[0] == r[1 + |kept|];
  }

  /** The element behind the first one of rest. */
  lemma Second(head: Node, kept: seq<Node>, rest: seq<Node>)
    requires Ring(head, kept + rest) && rest != []
    ensures rest[0].next == if |rest| == 1 then head else rest[1]
  {
    var r := [head] + (kept + rest);
    assert r[|kept| + 1] == rest[0] && (|rest| > 1 ==> r[|kept| + 2] == rest[1]);
  }
}
