/** Shallow copies of lump lists for other processes: which memory they take, what they have in
    common with the original, and what is given back when one is freed. */
module LumpCopy {
  import opened Wrappers
  import opened LumpModel

  /** The bits of lump_flag. */
  datatype Flags = Flags(duped: bool, shmem: bool, branch: bool)

  const DUPED := Flags(true, false, false)

  /** A pointer to a struct lump, with the memory of the lump (id) and of its text (value). */
  datatype Lump =
    | Null
    | At(id: nat, op: Op, value: nat, flags: Flags, before: Lump, after: Lump, next: Lump)

  datatype Dir = LdNext | LdBefore | LdAfter

  // ----- what a list means --------------------------------------------------------------------

  function Chain(l: Lump, dir: Dir): seq<Op>
    requires !dir.LdNext?
  {
    if l.Null? then [] else [l.op] + Chain(if dir.LdBefore? then l.before else l.after, dir)
  }

  /** The list as the length pass and the writing pass see it. */
  function Entries(l: Lump): seq<Entry> {
    if l.Null? then []
    else [Entry(l.op, Chain(l.before, LdBefore), Chain(l.after, LdAfter))] + Entries(l.next)
  }

  // ----- the memory of a list -----------------------------------------------------------------

  function Ids(l: Lump, dir: Dir): set<nat> {
    if l.Null? then {}
    else
      match dir
      case LdNext => {l.id} + Ids(l.before, LdBefore) + Ids(l.after, LdAfter) + Ids(l.next, LdNext)
      case LdBefore => {l.id} + Ids(l.before, LdBefore)
      case LdAfter => {l.id} + Ids(l.after, LdAfter)
  }

  function Count(l: Lump, dir: Dir): nat {
    if l.Null? then 0
    else
      match dir
      case LdNext => 1 + Count(l.before, LdBefore) + Count(l.after, LdAfter) + Count(l.next, LdNext)
      case LdBefore => 1 + Count(l.before, LdBefore)
      case LdAfter => 1 + Count(l.after, LdAfter)
  }

  /** No node is met twice on the way through the list. */
  predicate Unshared(l: Lump, dir: Dir) {
    l.Null? ||
    match dir
    case LdNext =>
      && Unshared(l.before, LdBefore) && Unshared(l.after, LdAfter) && Unshared(l.next, LdNext)
      && Ids(l.before, LdBefore) !! Ids(l.after, LdAfter) !! Ids(l.next, LdNext) !! {l.id}
    case LdBefore => Unshared(l.before, LdBefore) && l.id !in Ids(l.before, LdBefore)
    case LdAfter => Unshared(l.after, LdAfter) && l.id !in Ids(l.after, LdAfter)
  }

  predicate AllDuped(l: Lump, dir: Dir) {
    l.Null? ||
    (l.flags == DUPED &&
     match dir
     case LdNext => AllDuped(l.before, LdBefore) && AllDuped(l.after, LdAfter) && AllDuped(l.next, LdNext)
     case LdBefore => AllDuped(l.before, LdBefore)
     case LdAfter => AllDuped(l.after, LdAfter))
  }

  /** The memory: lumps and texts in use, and how many lumps can still be allocated. */
  class Pool {
    var lumps: set<nat>
    var values: set<nat>
    var room: nat
    var nextId: nat

    ghost predicate Valid()
      reads this
    {
      forall i | i in lumps :: i < nextId
    }

    constructor (room: nat)
      ensures Valid() && lumps == {} && values == {} && this.room == room
    {
      lumps, values, nextId := {}, {}, 0;
      this.room := room;
    }

    /** pkg_malloc of a struct lump. */
    method Malloc() returns (id: Option<nat>)
      requires Valid()
      modifies this
      ensures Valid() && values == old(values)
      ensures id.Some? <==> old(room) > 0
      ensures id.None? ==> lumps == old(lumps) && room == old(room) && nextId == old(nextId)
      ensures id.Some? ==>
        && id.value == old(nextId) && nextId == old(nextId) + 1
        && lumps == old(lumps) + {id.value} && room == old(room) - 1
    {
      if room == 0 {
        return None;
      }
      id := Some(nextId);
      lumps := lumps + {nextId};
      nextId, room := nextId + 1, room - 1;
    }

    /** pkg_free of a struct lump. */
    method Free(id: nat)
      requires Valid() && id in lumps
      modifies this`lumps, this`room
      ensures Valid() && lumps == old(lumps) - {id} && room == old(room) + 1
    {
      lumps, room := lumps - {id}, room + 1;
    }
  }

  /** One of the loops of the freeing functions along a chain, for lumps that hold no text. */
  method FreeChain(pool: Pool, l: Lump, dir: Dir)
    requires pool.Valid() && !dir.LdNext? && Ids(l, dir) <= pool.lumps && Unshared(l, dir)
    modifies pool`lumps, pool`room
    ensures pool.Valid() && pool.lumps == old(pool.lumps) - Ids(l, dir) && pool.room == old(pool.room) + Count(l, dir)
  {
    var r := l;
    while !r.Null?
      invariant pool.Valid() && Ids(r, dir) <= pool.lumps && Unshared(r, dir)
      invariant pool.lumps - Ids(r, dir) == old(pool.lumps) - Ids(l, dir)
      invariant pool.room + Count(r, dir) == old(pool.room) + Count(l, dir)
      decreases r
    {
      var foo := r;
      r := if dir.LdBefore? then r.before else r.after;
      pool.Free(foo.id);
    }
  }

  /** free_shallow_lump. */
  method FreeShallow(pool: Pool, l: Lump)
    requires pool.Valid() && l.At? && l.next.Null? && Ids(l, LdNext) <= pool.lumps && Unshared(l, LdNext)
    modifies pool`lumps, pool`room
    ensures pool.Valid() && pool.lumps == old(pool.lumps) - Ids(l, LdNext)
    ensures pool.room == old(pool.room) + Count(l, LdNext)
  {
    FreeChain(pool, l.before, LdBefore);
    FreeChain(pool, l.after, LdAfter);
    pool.Free(l.id);
  }

  /** c is a copy of l along dir: same operations in the same order, marked as copied. */
  predicate Copies(l: Lump, c: Lump, dir: Dir) {
    if l.Null? then c.Null?
    else
      && c.At? && c.op == l.op && c.value == l.value && c.flags == DUPED
      && match dir
         case LdNext =>
           Copies(l.before, c.before, LdBefore) && Copies(l.after, c.after, LdAfter) && Copies(l.next, c.next, LdNext)
         case LdBefore => Copies(l.before, c.before, LdBefore) && c.after.Null? && c.next.Null?
         case LdAfter => Copies(l.after, c.after, LdAfter) && c.before.Null? && c.next.Null?
  }

  /** The nodes of c are those allocated since the pool's counter stood at from. */
  predicate Between(c: Lump, dir: Dir, from: nat, to: nat) {
    forall i | i in Ids(c, dir) :: from <= i < to
  }

  /** What dup_lump_list_r leaves behind when it is done with l. */
  twostate predicate Duplicated(pool: Pool, l: Lump, dir: Dir, n: Lump, error: bool)
    reads pool
  {
    && pool.Valid() && pool.values == old(pool.values) && pool.nextId >= old(pool.nextId)
    && (error <==> old(pool.room) < Count(l, dir))
    && (error ==> n.Null? && pool.lumps == old(pool.lumps) && pool.room == old(pool.room))
    && (!error ==>
          && Copies(l, n, dir) && Count(n, dir) == Count(l, dir) && Unshared(n, dir) && Between(n, dir, old(pool.nextId), pool.nextId)
          && pool.lumps == old(pool.lumps) + Ids(n, dir) && pool.room == old(pool.room) - Count(l, dir))
  }

  /** A new node in front of parts that were allocated one after the other is made of all of them. */
  lemma Assembled(n: Lump, a: nat, b: nat, c: nat)
    requires n.At? && n.id < a <= b <= c
    requires Unshared(n.before, LdBefore) && Unshared(n.after, LdAfter) && Unshared(n.next, LdNext)
    requires forall i | i in Ids(n.before, LdBefore) :: a <= i < b
    requires forall i | i in Ids(n.after, LdAfter) :: b <= i < c
    requires forall i | i in Ids(n.next, LdNext) :: c <= i
    ensures Unshared(n, LdNext)
    ensures Ids(n, LdNext) == {n.id} + Ids(n.before, LdBefore) + Ids(n.after, LdAfter) + Ids(n.next, LdNext)
    ensures Count(n, LdNext) == 1 + Count(n.before, LdBefore) + Count(n.after, LdAfter) + Count(n.next, LdNext)
  {
  }

  /** dup_lump_list_r along a chain. */
  method DupChain(pool: Pool, l: Lump, dir: Dir) returns (n: Lump, error: bool)
    requires pool.Valid() && !dir.LdNext?
    modifies pool
    ensures Duplicated(pool, l, dir, n, error)
    decreases l
  {
    if l.Null? {
      return Null, false;
    }
    var id := pool.Malloc();
    if id.None? {
      return Null, true;
    }
    var rest;
    if dir.LdBefore? {
      rest, error := DupChain(pool, l.before, LdBefore);
      n := At(id.value, l.op, l.value, DUPED, rest, Null, Null);
    } else {
      rest, error := DupChain(pool, l.after, LdAfter);
      n := At(id.value, l.op, l.value, DUPED, Null, rest, Null);
    }
    if error {
      Assembled(n, id.value + 1, id.value + 1, id.value + 1);
      FreeShallow(pool, n);
      return Null, true;
    }
  }

  /** Both chains of a node; after an error the first one may have been made already. */
  method DupSides(pool: Pool, l: Lump) returns (before: Lump, after: Lump, error: bool, ghost b: nat)
    requires pool.Valid() && l.At?
    modifies pool
    ensures pool.Valid() && pool.values == old(pool.values) && old(pool.nextId) <= b <= pool.nextId
    ensures error <==> old(pool.room) < Count(l.before, LdBefore) + Count(l.after, LdAfter)
    ensures !error ==> Copies(l.before, before, LdBefore) && Copies(l.after, after, LdAfter)
    ensures !error ==>
      Count(before, LdBefore) == Count(l.before, LdBefore) && Count(after, LdAfter) == Count(l.after, LdAfter)
    ensures Unshared(before, LdBefore) && Between(before, LdBefore, old(pool.nextId), b)
    ensures Unshared(after, LdAfter) && Between(after, LdAfter, b, pool.nextId)
    ensures pool.lumps == old(pool.lumps) + Ids(before, LdBefore) + Ids(after, LdAfter)
    ensures pool.room == old(pool.room) - Count(before, LdBefore) - Count(after, LdAfter)
  {
    after := Null;
    before, error := DupChain(pool, l.before, LdBefore);
    b := pool.nextId;
    if !error {
      after, error := DupChain(pool, l.after, LdAfter);
    }
  }

  /** dup_lump_list_r along the list. */
  method DupList(pool: Pool, l: Lump) returns (n: Lump, error: bool)
    requires pool.Valid()
    modifies pool
    ensures Duplicated(pool, l, LdNext, n, error)
    decreases l, 1
  {
    if l.Null? {
      return Null, false;
    }
    var id := pool.Malloc();
    if id.None? {
      return Null, true;
    }
    n, error := DupFields(pool, l, id.value);
  }

  /** What follows for a lump of the list once the node id was allocated for its copy. */
  method DupFields(pool: Pool, l: Lump, id: nat) returns (n: Lump, error: bool)
    requires pool.Valid() && l.At? && id in pool.lumps && id + 1 == pool.nextId
    modifies pool
    ensures pool.Valid() && pool.values == old(pool.values) && pool.nextId > id
    ensures error <==> old(pool.room) + 1 < Count(l, LdNext)
    ensures error ==> n.Null? && pool.lumps == old(pool.lumps) - {id} && pool.room == old(pool.room) + 1
    ensures !error ==>
      && n.At? && n.id == id && Copies(l, n, LdNext) && Count(n, LdNext) == Count(l, LdNext) && Unshared(n, LdNext)
      && Between(n, LdNext, id, pool.nextId)
      && pool.lumps == old(pool.lumps) + Ids(n, LdNext) && pool.room == old(pool.room) + 1 - Count(l, LdNext)
    decreases l, 0
  {
    var before, after, next := Null, Null, Null;
    ghost var b;
    before, after, error, b := DupSides(pool, l);
    ghost var c := pool.nextId;
    if !error {
      next, error := DupList(pool, l.next);
    }
    n := At(id, l.op, l.value, DUPED, before, after, next);
    Assembled(n, id + 1, b, c);
    if error {
      GiveBack(pool, n, old(pool.lumps));
      return Null, true;
    }
    AllBelong(old(pool.lumps), id, Ids(before, LdBefore), Ids(after, LdAfter), Ids(next, LdNext));
  }

  /** The ids of a copy beside the ids in use before, one of which it has. */
  lemma AllBelong(was: set<nat>, id: nat, b: set<nat>, a: set<nat>, n: set<nat>)
    requires id in was
    ensures was + b + a + n == was + ({id} + b + a + n)
    ensures was !! b && was !! a ==> was + b + a - ({id} + b + a) == was - {id}
  {
  }

  /** The way out of dup_lump_list_r when the rest of the list cannot be copied. */
  method GiveBack(pool: Pool, n: Lump, ghost was: set<nat>)
    requires pool.Valid() && n.At? && n.next.Null? && n.id in was && Unshared(n, LdNext)
    requires Ids(n, LdNext) == {n.id} + Ids(n.before, LdBefore) + Ids(n.after, LdAfter)
    requires was !! Ids(n.before, LdBefore) && was !! Ids(n.after, LdAfter)
    requires pool.lumps == was + Ids(n.before, LdBefore) + Ids(n.after, LdAfter)
    modifies pool`lumps, pool`room
    ensures pool.Valid() && pool.lumps == was - {n.id} && pool.room == old(pool.room) + Count(n, LdNext)
  {
    AllBelong(was, n.id, Ids(n.before, LdBefore), Ids(n.after, LdAfter), {});
    FreeShallow(pool, n);
  }

  /** dup_lump_list: the caller sees a null pointer when memory runs out. */
  method DupLumpList(pool: Pool, l: Lump) returns (n: Lump)
    requires pool.Valid() && Ids(l, LdNext) <= pool.lumps
    modifies pool
    ensures pool.Valid() && pool.values == old(pool.values)
    ensures old(pool.room) < Count(l, LdNext) ==> n.Null? && pool.lumps == old(pool.lumps) && pool.room == old(pool.room)
    ensures old(pool.room) >= Count(l, LdNext) ==>
      && Copies(l, n, LdNext) && Unshared(n, LdNext) && Ids(n, LdNext) !! Ids(l, LdNext)
      && pool.lumps == old(pool.lumps) + Ids(n, LdNext) && Ids(n, LdNext) !! old(pool.lumps)
  {
    var error;
    n, error := DupList(pool, l);
  }

  // ----- what a copy is worth -----------------------------------------------------------------

  lemma {:induction false} CopiedChain(l: Lump, c: Lump, dir: Dir)
    requires !dir.LdNext? && Copies(l, c, dir)
    ensures Chain(c, dir) == Chain(l, dir) && AllDuped(c, dir)
  {
    if l.At? {
      if dir.LdBefore? {
        CopiedChain(l.before, c.before, dir);
      } else {
        CopiedChain(l.after, c.after, dir);
      }
    }
  }

  /** A copy reads the same: the length pass and the writing pass cannot tell it apart. */
  lemma {:induction false} CopyReadsTheSame(l: Lump, c: Lump)
    requires Copies(l, c, LdNext)
    ensures Entries(c) == Entries(l) && AllDuped(c, LdNext)
  {
    if l.At? {
      CopiedChain(l.before, c.before, LdBefore);
      CopiedChain(l.after, c.after, LdAfter);
      CopyReadsTheSame(l.next, c.next);
    }
  }

  // ----- freeing a copied list ----------------------------------------------------------------

  /** The texts that go when a list is freed as a copy: those of lumps added after the copying. */
  function Texts(l: Lump, dir: Dir): set<nat> {
    if l.Null? then {}
    else
      (if l.flags != DUPED && l.op.Add? then {l.value} else {})
      + match dir
        case LdNext => Texts(l.before, LdBefore) + Texts(l.after, LdAfter) + Texts(l.next, LdNext)
        case LdBefore => Texts(l.before, LdBefore)
        case LdAfter => Texts(l.after, LdAfter)
  }

  /** No added lump keeps its text in memory that free_lump refuses to free, and no two share one. */
  predicate Freeable(l: Lump, dir: Dir) {
    l.Null? ||
    (&& (l.flags != DUPED && l.op.Add? ==> !l.flags.duped && !l.flags.shmem)
     && var own := if l.flags != DUPED && l.op.Add? then {l.value} else {};
       match dir
       case LdNext =>
         && Freeable(l.before, LdBefore) && Freeable(l.after, LdAfter) && Freeable(l.next, LdNext)
         && own !! Texts(l.before, LdBefore) !! Texts(l.after, LdAfter) !! Texts(l.next, LdNext)
       case LdBefore => Freeable(l.before, LdBefore) && own !! Texts(l.before, LdBefore)
       case LdAfter => Freeable(l.after, LdAfter) && own !! Texts(l.after, LdAfter))
  }

  /** free_lump, which gives back the text of an ADD lump. */
  method FreeLump(pool: Pool, l: Lump)
    requires l.At? && (l.op.Add? ==> !l.flags.duped && !l.flags.shmem && l.value in pool.values)
    modifies pool`values
    ensures pool.values == old(pool.values) - if l.op.Add? then {l.value} else {}
  {
    if l.op.Add? {
      pool.values := pool.values - {l.value};
    }
  }

  /** The inner loops of free_duped_lump_list. */
  method FreeDupedChain(pool: Pool, l: Lump, dir: Dir)
    requires pool.Valid() && !dir.LdNext? && Ids(l, dir) <= pool.lumps && Unshared(l, dir)
    requires Texts(l, dir) <= pool.values && Freeable(l, dir)
    modifies pool`lumps, pool`room, pool`values
    ensures pool.Valid() && pool.lumps == old(pool.lumps) - Ids(l, dir) && pool.values == old(pool.values) - Texts(l, dir)
  {
    var r := l;
    while !r.Null?
      invariant pool.Valid() && Ids(r, dir) <= pool.lumps && Unshared(r, dir)
      invariant Texts(r, dir) <= pool.values && Freeable(r, dir)
      invariant pool.lumps - Ids(r, dir) == old(pool.lumps) - Ids(l, dir)
      invariant pool.values - Texts(r, dir) == old(pool.values) - Texts(l, dir)
      decreases r
    {
      var foo := r;
      r := if dir.LdBefore? then r.before else r.after;
      if foo.flags != DUPED {
        FreeLump(pool, foo);
      }
      pool.Free(foo.id);
    }
  }

  /** free_duped_lump_list: all lumps of the list go, and only the texts added after the copying. */
  method FreeDupedList(pool: Pool, l0: Lump)
    requires pool.Valid() && Ids(l0, LdNext) <= pool.lumps && Unshared(l0, LdNext)
    requires Texts(l0, LdNext) <= pool.values && Freeable(l0, LdNext)
    modifies pool`lumps, pool`room, pool`values
    ensures pool.Valid() && pool.lumps == old(pool.lumps) - Ids(l0, LdNext)
    ensures pool.values == old(pool.values) - Texts(l0, LdNext)
  {
    var l := l0;
    while !l.Null?
      invariant pool.Valid() && Ids(l, LdNext) <= pool.lumps && Unshared(l, LdNext)
      invariant Texts(l, LdNext) <= pool.values && Freeable(l, LdNext)
      invariant pool.lumps - Ids(l, LdNext) == old(pool.lumps) - Ids(l0, LdNext)
      invariant pool.values - Texts(l, LdNext) == old(pool.values) - Texts(l0, LdNext)
      decreases l
    {
      var crt := l;
      l := l.next;
      FreeDupedChain(pool, crt.before, LdBefore);
      FreeDupedChain(pool, crt.after, LdAfter);
      if crt.flags != DUPED {
        FreeLump(pool, crt);
      }
      pool.Free(crt.id);
    }
  }

  /** Freeing an untouched copy gives back no text. */
  lemma {:induction false} CopyOwnsNoText(c: Lump, dir: Dir)
    requires AllDuped(c, dir)
    ensures Texts(c, dir) == {} && Freeable(c, dir)
  {
    if c.At? {
      match dir
      case LdNext =>
        CopyOwnsNoText(c.before, LdBefore);
        CopyOwnsNoText(c.after, LdAfter);
        CopyOwnsNoText(c.next, LdNext);
      case LdBefore => CopyOwnsNoText(c.before, LdBefore);
      case LdAfter => CopyOwnsNoText(c.after, LdAfter);
    }
  }

  /** Copying a list and freeing the copy leaves the memory as it was. */
  method DupThenFree(pool: Pool, l: Lump)
    requires pool.Valid() && Ids(l, LdNext) <= pool.lumps
    modifies pool
    ensures pool.lumps == old(pool.lumps) && pool.values == old(pool.values)
  {
    var n := DupLumpList(pool, l);
    if n.At? {
      CopyReadsTheSame(l, n);
      CopyOwnsNoText(n, LdNext);
      FreeDupedList(pool, n);
    }
  }
}
