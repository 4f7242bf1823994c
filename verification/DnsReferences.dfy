/** Reference counts of the DNS cache entries shared between processes.  Each process runs the
    lookup, release, add and clean-up code one atomic step at a time: a step takes or drops the
    hash lock, changes a list under that lock, or performs one atomic operation on a counter. */
module DnsReferences {
  import opened Wrappers

  type Pid = nat
  type Eid = nat
  type Rid = nat

  /** linked: in the hash table and in the last-used list. */
  datatype Entry = Entry(linked: bool, refcnt: int, freed: bool)

  /** A counted pointer to an entry, and the process that may give it back. */
  datatype Ref = Ref(holder: Pid, entry: Eid)

  /** Where a process is in the cache code. */
  datatype Pc =
    | Idle
    // an entry made for a literal address or for a failed request
    | Fresh(entry: Eid)
    | Made(entry: Eid, ref: Rid)
    // dns_cache_add; room: space was already made once
    | AddTry(entry: Eid, ref: Rid, room: bool)
    | AddCounted(entry: Eid, extra: Rid)
    | AddLocked(entry: Eid, extra: Rid)
    | AddDone
    // the entries made from one answer, and the loop that stores them
    | Build(todo: seq<Eid>, picked: bool)
    | Store(todo: seq<Eid>)
    | StoreTry(entry: Eid, room: bool, todo: seq<Eid>)
    | StoreRelock(entry: Eid, todo: seq<Eid>)
    | StoreCounted(entry: Eid, extra: Rid, todo: seq<Eid>)
    | StoreTest(entry: Eid, added: bool, todo: seq<Eid>)
    // dns_hash_get
    | GetEnter
    | GetWalk
    | GetFound(entry: Eid)
    | GetTaken(entry: Eid, ref: Rid)
    // dns_cache_free_mem and dns_cache_clean, called from the code that goes on at after
    | SweepEnter(after: Pc)
    | Sweep(after: Pc)
    // _dns_hash_remove, then dns_hash_put
    | Removed(entry: Eid, ref: Rid, back: Pc)
    | Dying(entry: Eid, back: Pc)

  /** forgotten only records what happened: the entries that left a list of made entries unstored. */
  datatype State = State(entries: map<Eid, Entry>, refs: map<Rid, Ref>, pcs: map<Pid, Pc>, lock: Option<Pid>,
                         forgotten: set<Eid>)

  const START := State(map[], map[], map[], None, {})

  datatype Step =
    | Alloc(e: Eid)              // shm_malloc of a single entry, counter 0
    | SetOne(t: Rid)             // atomic_set(&e->refcnt, 1)
    | Return                     // hand the entry to the caller
    | AddEnter
    | AddFull                    // no space: make room once
    | AddFail
    | AddCount(t: Rid)           // atomic_inc on behalf of the table
    | Link                       // append to the bucket and to the last-used list
    | BuildStart
    | BuildMore(e: Eid)
    | BuildForget(i: nat)        // dns_get_related relinks the alias in front of the entry
    | BuildPick(i: nat, t: Rid)  // atomic_set(&e->refcnt, 1) on the entry that was asked for
    | StoreNext
    | Test                       // atomic_get(&r->refcnt)==0
    | GetStart
    | Find(e: Eid)
    | Take(t: Rid)               // atomic_inc under the lock
    | SweepStart
    | Unlink(e: Eid, t: Rid)     // take the entry out of both lists
    | Release(t: Rid)            // atomic_dec_and_test
    | Free                       // shm_free
    | Lock
    | Unlock
    | Copy(t: Rid, u: Rid)       // dns_srv_handle_ref on one slot
    | Pass(t: Rid, to: Pid)      // the reference moves to another process

  function At(s: State, p: Pid): Pc {
    if p in s.pcs then s.pcs[p] else Idle
  }

  // ----- the steps ----------------------------------------------------------------------------

  predicate NewRef(s: State, t: Rid) {
    t !in s.refs
  }

  /** The place behind a successful LOCK_DNS_HASH. */
  function Locked(pc: Pc): Option<Pc> {
    match pc
    case AddCounted(e, t) => Some(AddLocked(e, t))
    case Build(todo, _) => Some(Store(todo))
    case StoreRelock(e, todo) => Some(StoreTry(e, true, todo))
    case GetEnter => Some(GetWalk)
    case SweepEnter(after) => Some(Sweep(after))
    case _ => None
  }

  /** The place behind UNLOCK_DNS_HASH. */
  function Unlocked(pc: Pc): Option<Pc> {
    match pc
    case AddDone => Some(Idle)
    case Store(todo) => if todo == [] then Some(Idle) else None
    case StoreTry(e, room, todo) => if room then None else Some(SweepEnter(StoreRelock(e, todo)))
    case GetWalk => Some(Idle)
    case GetTaken(_, _) => Some(Idle)
    case Sweep(after) => Some(after)
    case _ => None
  }

  /** The place behind an atomic_inc done on behalf of the table. */
  function Counted(pc: Pc, t: Rid): Option<Pc> {
    match pc
    case AddTry(e, _, _) => Some(AddCounted(e, t))
    case StoreTry(e, _, todo) => Some(StoreCounted(e, t, todo))
    case _ => None
  }

  /** What the code allows process p to do next. */
  predicate Enabled(s: State, p: Pid, step: Step) {
    var pc := At(s, p);
    match step
    case Alloc(e) => pc.Idle? && e !in s.entries
    case SetOne(t) => pc.Fresh? && pc.entry in s.entries && NewRef(s, t)
    case Return => pc.Made?
    case AddEnter => pc.Made?
    case AddFull => pc.AddTry? && !pc.room
    case AddFail => (pc.AddTry? && pc.room) || (pc.StoreTry? && pc.room)
    case AddCount(t) => Counted(pc, t).Some? && pc.entry in s.entries && NewRef(s, t)
    case Link => (pc.AddLocked? || pc.StoreCounted?) && pc.entry in s.entries && pc.extra in s.refs
    case BuildStart => pc.Idle?
    case BuildMore(e) => pc.Build? && e !in s.entries
    case BuildForget(i) => pc.Build? && !pc.picked && 0 < i < |pc.todo|
    case BuildPick(i, t) => pc.Build? && !pc.picked && i < |pc.todo| && pc.todo[i] in s.entries && NewRef(s, t)
    case StoreNext => pc.Store? && pc.todo != []
    case Test => pc.StoreTest? && pc.entry in s.entries
    case GetStart => pc.Idle?
    case Find(e) => pc.GetWalk? && e in s.entries && s.entries[e].linked
    case Take(t) => pc.GetFound? && pc.entry in s.entries && NewRef(s, t)
    case SweepStart => pc.Idle?
    case Unlink(e, t) => (pc.GetWalk? || pc.Sweep?) && e in s.entries && s.entries[e].linked && NewRef(s, t)
    case Release(t) =>
      && t in s.refs && s.refs[t].entry in s.entries
      && if pc.Removed? then t == pc.ref else pc.Idle? && s.refs[t].holder == p
    case Free => pc.Dying? && pc.entry in s.entries
    case Lock => s.lock.None? && Locked(pc).Some?
    case Unlock => Unlocked(pc).Some?
    case Copy(t, u) => pc.Idle? && t in s.refs && s.refs[t].holder == p && s.refs[t].entry in s.entries && NewRef(s, u)
    case Pass(t, _) => pc.Idle? && t in s.refs && s.refs[t].holder == p
  }

  function Go(s: State, p: Pid, pc: Pc): State {
    s.(pcs := s.pcs[p := pc])
  }

  /** The counter of e changes by d. */
  function Bump(s: State, e: Eid, d: int): State
    requires e in s.entries
  {
    s.(entries := s.entries[e := s.entries[e].(refcnt := s.entries[e].refcnt + d)])
  }

  function SetCount(s: State, e: Eid): State
    requires e in s.entries
  {
    s.(entries := s.entries[e := s.entries[e].(refcnt := 1)])
  }

  function SetLinked(s: State, e: Eid, linked: bool): State
    requires e in s.entries
  {
    s.(entries := s.entries[e := s.entries[e].(linked := linked)])
  }

  function Grant(s: State, t: Rid, p: Pid, e: Eid): State {
    s.(refs := s.refs[t := Ref(p, e)])
  }

  function Revoke(s: State, t: Rid): State {
    s.(refs := s.refs - {t})
  }

  function New(s: State, e: Eid): State {
    s.(entries := s.entries[e := Entry(false, 0, false)])
  }

  function Apply(s: State, p: Pid, step: Step): State
    requires Enabled(s, p, step)
  {
    var pc := At(s, p);
    match step
    case Alloc(e) => Go(New(s, e), p, Fresh(e))
    case SetOne(t) => Go(Grant(SetCount(s, pc.entry), t, p, pc.entry), p, Made(pc.entry, t))
    case Return => Go(s, p, Idle)
    case AddEnter => Go(s, p, AddTry(pc.entry, pc.ref, false))
    case AddFull => Go(s, p, SweepEnter(AddTry(pc.entry, pc.ref, true)))
    case AddFail => Go(s, p, if pc.AddTry? then Idle else StoreTest(pc.entry, false, pc.todo))
    case AddCount(t) => Go(Grant(Bump(s, pc.entry, 1), t, p, pc.entry), p, Counted(pc, t).value)
    case Link =>
      Go(Revoke(SetLinked(s, pc.entry, true), pc.extra), p,
         if pc.AddLocked? then AddDone else StoreTest(pc.entry, true, pc.todo))
    case BuildStart => Go(s, p, Build([], false))
    case BuildMore(e) => Go(New(s, e), p, Build(pc.todo + [e], pc.picked))
    case BuildForget(i) =>
      Go(s.(forgotten := s.forgotten + {pc.todo[i]}), p, Build(pc.todo[..i] + pc.todo[i + 1..], false))
    case BuildPick(i, t) => Go(Grant(SetCount(s, pc.todo[i]), t, p, pc.todo[i]), p, Build(pc.todo, true))
    case StoreNext => Go(s, p, StoreTry(pc.todo[0], false, pc.todo[1..]))
    case Test =>
      Go(s, p, if s.entries[pc.entry].refcnt == 0 then Dying(pc.entry, Store(pc.todo)) else Store(pc.todo))
    case GetStart => Go(s, p, GetEnter)
    case Find(e) => Go(s, p, GetFound(e))
    case Take(t) => Go(Grant(Bump(s, pc.entry, 1), t, p, pc.entry), p, GetTaken(pc.entry, t))
    case SweepStart => Go(s, p, SweepEnter(Idle))
    case Unlink(e, t) => Go(Grant(SetLinked(s, e, false), t, p, e), p, Removed(e, t, pc))
    case Release(t) =>
      var e := s.refs[t].entry;
      var back := if pc.Removed? then pc.back else pc;
      Go(Revoke(Bump(s, e, -1), t), p, if s.entries[e].refcnt == 1 then Dying(e, back) else back)
    case Free => Go(s.(entries := s.entries[pc.entry := s.entries[pc.entry].(freed := true)]), p, pc.back)
    case Lock => Go(s, p, Locked(pc).value).(lock := Some(p))
    case Unlock => Go(s, p, Unlocked(pc).value).(lock := None)
    case Copy(t, u) => Grant(Bump(s, s.refs[t].entry, 1), u, p, s.refs[t].entry)
    case Pass(t, to) => Grant(s, t, to, s.refs[t].entry)
  }

  /** The entries whose memory a step reads or writes. */
  function Touched(s: State, p: Pid, step: Step): set<Eid>
    requires Enabled(s, p, step)
  {
    var pc := At(s, p);
    match step
    case SetOne(_) => {pc.entry}
    case AddEnter => {pc.entry}
    case AddFull => {pc.entry}
    case AddFail => {pc.entry}
    case AddCount(_) => {pc.entry}
    case Link => {pc.entry}
    case BuildPick(i, _) => {pc.todo[i]}
    case StoreNext => {pc.todo[0]}
    case Test => {pc.entry}
    case Find(e) => {e}
    case Take(_) => {pc.entry}
    case Unlink(e, _) => {e}
    case Release(t) => {s.refs[t].entry}
    case Free => {pc.entry}
    case Copy(t, _) => {s.refs[t].entry}
    case _ => {}
  }
}
