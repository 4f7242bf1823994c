/** What holds of the cache's reference counts in every interleaving of many processes. */
module DnsRefTheorems {
  import opened Wrappers
  import opened DnsReferences

  // ----- who may touch what -------------------------------------------------------------------

  /** The entries that only a process at pc knows of as an unlisted entry. */
  ghost predicate Owns(pc: Pc, e: Eid) {
    match pc
    case Fresh(x) => x == e
    case Made(x, _) => x == e
    case AddTry(x, _, _) => x == e
    case AddCounted(x, _) => x == e
    case AddLocked(x, _) => x == e
    case Build(todo, _) => e in todo
    case Store(todo) => e in todo
    case StoreTry(x, _, todo) => x == e || e in todo
    case StoreRelock(x, todo) => x == e || e in todo
    case StoreCounted(x, _, todo) => x == e || e in todo
    case StoreTest(x, added, todo) => (x == e && !added) || e in todo
    case SweepEnter(after) => Owns(after, e)
    case Sweep(after) => Owns(after, e)
    case Removed(_, _, back) => Owns(back, e)
    case Dying(x, back) => x == e || Owns(back, e)
    case _ => false
  }

  /** Entries of pc whose counter is still, or again, zero. */
  ghost predicate Zero(pc: Pc, e: Eid) {
    match pc
    case Fresh(x) => x == e
    case Build(todo, picked) => !picked && e in todo
    case Dying(x, _) => x == e
    case _ => false
  }

  /** The references that the code at pc has in local variables, with the entries they name. */
  ghost predicate Carries(pc: Pc, t: Rid, e: Eid) {
    match pc
    case Made(x, u) => x == e && u == t
    case AddTry(x, u, _) => x == e && u == t
    case AddCounted(x, u) => x == e && u == t
    case AddLocked(x, u) => x == e && u == t
    case StoreCounted(x, u, _) => x == e && u == t
    case GetTaken(x, u) => x == e && u == t
    case SweepEnter(after) => Carries(after, t, e)
    case Sweep(after) => Carries(after, t, e)
    case Removed(x, u, back) => (x == e && u == t) || Carries(back, t, e)
    case Dying(_, back) => Carries(back, t, e)
    case _ => false
  }

  predicate InLock(pc: Pc) {
    match pc
    case Removed(_, _, back) => InLock(back)
    case Dying(_, back) => InLock(back)
    case _ =>
      || pc.AddLocked? || pc.AddDone? || pc.Store? || pc.StoreTry? || pc.StoreCounted? || pc.StoreTest?
      || pc.GetWalk? || pc.GetFound? || pc.GetTaken? || pc.Sweep?
  }

  predicate Distinct(todo: seq<Eid>) {
    forall i, j :: 0 <= i < j < |todo| ==> todo[i] != todo[j]
  }

  /** The nesting of continuations that the code can produce. */
  ghost predicate Shaped(pc: Pc) {
    match pc
    case Build(todo, _) => Distinct(todo)
    case Store(todo) => Distinct(todo)
    case StoreTry(e, _, todo) => Distinct(todo) && e !in todo
    case StoreRelock(e, todo) => Distinct(todo) && e !in todo
    case StoreCounted(e, _, todo) => Distinct(todo) && e !in todo
    case StoreTest(e, _, todo) => Distinct(todo) && e !in todo
    case SweepEnter(after) => (after.Idle? || after.AddTry? || after.StoreRelock?) && Shaped(after)
    case Sweep(after) => (after.Idle? || after.AddTry? || after.StoreRelock?) && Shaped(after)
    case Removed(e, t, back) =>
      (back.GetWalk? || back.Sweep?) && Shaped(back) && !Owns(back, e)
      && forall x :: !Carries(back, t, x)
    case Dying(e, back) =>
      (back.Idle? || back.GetWalk? || back.Sweep? || back.Store?) && Shaped(back) && !Owns(back, e)
    case _ => true
  }

  // ----- the invariant ------------------------------------------------------------------------

  ghost function RefsTo(s: State, e: Eid): set<Rid> {
    set t | t in s.refs && s.refs[t].entry == e
  }

  /** The counter is one for the table and one for every outstanding reference. */
  ghost predicate Counts(s: State) {
    forall e | e in s.entries :: s.entries[e].refcnt == (if s.entries[e].linked then 1 else 0) + |RefsTo(s, e)|
  }

  ghost predicate RefsKnown(s: State) {
    forall t | t in s.refs :: s.refs[t].entry in s.entries
  }

  /** Memory is given back only when nothing counts the entry any more. */
  ghost predicate FreedUnused(s: State) {
    forall e | e in s.entries && s.entries[e].freed :: !s.entries[e].linked && s.entries[e].refcnt == 0
  }

  ghost predicate OwnedAlone(s: State) {
    forall p, e | Owns(At(s, p), e) ::
      && e in s.entries && !s.entries[e].freed && !s.entries[e].linked
      && forall t | t in s.refs && s.refs[t].entry == e :: s.refs[t].holder == p
  }

  ghost predicate OneOwner(s: State) {
    forall p, q, e | Owns(At(s, p), e) && Owns(At(s, q), e) :: p == q
  }

  ghost predicate ZeroCounted(s: State) {
    forall p, e | Zero(At(s, p), e) :: e in s.entries && s.entries[e].refcnt == 0
  }

  ghost predicate CarriedHeld(s: State) {
    forall p, t, e | Carries(At(s, p), t, e) :: t in s.refs && s.refs[t] == Ref(p, e)
  }

  ghost predicate LockHeld(s: State) {
    forall p: Pid :: InLock(At(s, p)) <==> s.lock == Some(p)
  }

  ghost predicate PcsShaped(s: State) {
    forall p: Pid :: Shaped(At(s, p))
  }

  /** Entries that are in the lists for as long as the process stays where it is. */
  predicate Sees(pc: Pc, e: Eid) {
    match pc
    case GetFound(x) => x == e
    case StoreTest(x, added, _) => added && x == e
    case _ => false
  }

  ghost predicate SeenLinked(s: State) {
    forall p, e | Sees(At(s, p), e) :: e in s.entries && s.entries[e].linked
  }

  /** An entry that nothing counts is freed, or some process is about to use or free it, or it was
      forgotten. */
  ghost predicate NoOtherLeak(s: State) {
    forall e | e in s.entries && !s.entries[e].freed && s.entries[e].refcnt == 0 && e !in s.forgotten ::
      exists p :: Owns(At(s, p), e)
  }

  /** Nobody knows of e any more, and it is still allocated. */
  ghost predicate Lost(s: State, e: Eid) {
    && e in s.entries && !s.entries[e].freed && !s.entries[e].linked && s.entries[e].refcnt == 0
    && forall p: Pid :: !Owns(At(s, p), e)
  }

  ghost predicate ForgottenLost(s: State) {
    forall e | e in s.forgotten :: Lost(s, e)
  }

  ghost predicate Inv(s: State) {
    && Counts(s) && RefsKnown(s) && FreedUnused(s) && OwnedAlone(s) && OneOwner(s) && ZeroCounted(s)
    && CarriedHeld(s) && LockHeld(s) && PcsShaped(s) && SeenLinked(s) && NoOtherLeak(s) && ForgottenLost(s)
  }

  /** The steps that leave the entries and the references alone. */
  predicate Quiet(step: Step) {
    || step.Return? || step.AddEnter? || step.AddFull? || step.AddFail? || step.BuildStart? || step.StoreNext?
    || step.Test? || step.GetStart? || step.Find? || step.SweepStart? || step.Lock? || step.Unlock? || step.BuildForget?
  }

  lemma {:induction false} QuietKeeps(s: State, p: Pid, step: Step)
    requires Enabled(s, p, step) && Quiet(step)
    ensures Apply(s, p, step).entries == s.entries && Apply(s, p, step).refs == s.refs
  {
  }

  // ----- safety of one step -------------------------------------------------------------------

  lemma {:induction false} RefIsCounted(s: State, t: Rid)
    requires Counts(s) && RefsKnown(s) && FreedUnused(s) && t in s.refs
    ensures s.entries[s.refs[t].entry].refcnt >= 1 && !s.entries[s.refs[t].entry].freed
  {
    assert t in RefsTo(s, s.refs[t].entry);
  }

  /** No step reads or writes an entry whose memory was given back. */
  lemma {:induction false} TouchesOnlyLive(s: State, p: Pid, step: Step)
    requires Inv(s) && Enabled(s, p, step)
    ensures forall e | e in Touched(s, p, step) :: e in s.entries && !s.entries[e].freed
  {
    var pc := At(s, p);
    match step
    case SetOne(_) => assert Owns(pc, pc.entry);
    case AddEnter => assert Owns(pc, pc.entry);
    case AddFull => assert Owns(pc, pc.entry);
    case AddFail => assert Owns(pc, pc.entry);
    case AddCount(_) => assert Owns(pc, pc.entry);
    case Link => assert Owns(pc, pc.entry);
    case BuildPick(i, _) => assert Owns(pc, pc.todo[i]);
    case StoreNext => assert Owns(pc, pc.todo[0]);
    case Test => assert Owns(pc, pc.entry) || Sees(pc, pc.entry);
    case Release(t) => RefIsCounted(s, t);
    case Take(_) => assert Sees(pc, pc.entry);
    case Free => assert Owns(pc, pc.entry);
    case Copy(t, _) => RefIsCounted(s, t);
    case _ =>
  }

  // ----- the effect of one step on the place of the process ------------------------------------

  /** The place of p after the step. */
  ghost function Next(s: State, p: Pid, step: Step): Pc
    requires Enabled(s, p, step)
  {
    At(Apply(s, p, step), p)
  }

  lemma {:induction false} OthersStay(s: State, p: Pid, step: Step, q: Pid)
    requires Enabled(s, p, step) && q != p
    ensures At(Apply(s, p, step), q) == At(s, q)
  {
  }

  /** The entry that the step makes p the only one to know of. */
  ghost predicate Gains(s: State, step: Step, e: Eid) {
    match step
    case Alloc(x) => x == e
    case BuildMore(x) => x == e
    case Release(t) => t in s.refs && s.refs[t].entry == e && e in s.entries && s.entries[e].refcnt == 1
    case _ => false
  }

  lemma {:induction false} OwnedBefore(s: State, p: Pid, step: Step, e: Eid)
    requires Counts(s) && SeenLinked(s) && Enabled(s, p, step) && Shaped(At(s, p)) && Owns(Next(s, p, step), e)
    ensures Owns(At(s, p), e) || Gains(s, step, e)
  {
    if Quiet(step) {
      OwnedBeforeQuietly(s, p, step, e);
    } else {
      OwnedBeforeLoudly(s, p, step, e);
    }
  }

  lemma {:induction false} OwnedBeforeQuietly(s: State, p: Pid, step: Step, e: Eid)
    requires Quiet(step)
    requires Counts(s) && SeenLinked(s) && Enabled(s, p, step) && Shaped(At(s, p)) && Owns(Next(s, p, step), e)
    ensures Owns(At(s, p), e) || Gains(s, step, e)
  {
    var pc := At(s, p);
    match step
    case StoreNext => assert pc.todo == [pc.todo[0]] + pc.todo[1..];
    case AddFull => assert Owns(AddTry(pc.entry, pc.ref, true), e);
    case Test =>
      assert pc.added ==> Sees(pc, pc.entry);
      assert Owns(Store(pc.todo), e) ==> e in pc.todo;
    case BuildForget(i) => InWithout(pc.todo, i, e);
    case Lock => OwnedBeforeLock(pc, e);
    case Unlock => OwnedBeforeLock(pc, e);
    case _ =>
  }

  lemma {:induction false} InWithout(todo: seq<Eid>, i: nat, e: Eid)
    requires i < |todo|
    ensures e in todo[..i] + todo[i + 1..] ==> e in todo
    ensures e in todo && e != todo[i] ==> e in todo[..i] + todo[i + 1..]
    ensures Distinct(todo) ==> Distinct(todo[..i] + todo[i + 1..]) && todo[i] !in todo[..i] + todo[i + 1..]
  {
    assert todo == todo[..i] + [todo[i]] + todo[i + 1..];
  }

  lemma {:induction false} OwnedBeforeLoudly(s: State, p: Pid, step: Step, e: Eid)
    requires !Quiet(step)
    requires Counts(s) && SeenLinked(s) && Enabled(s, p, step) && Shaped(At(s, p)) && Owns(Next(s, p, step), e)
    ensures Owns(At(s, p), e) || Gains(s, step, e)
  {
    var pc := At(s, p);
    match step
    case BuildMore(x) => assert e in pc.todo + [x] ==> e in pc.todo || e == x;
    case _ =>
  }

  lemma {:induction false} ZeroBefore(s: State, p: Pid, step: Step, e: Eid)
    requires Enabled(s, p, step) && Shaped(At(s, p)) && Zero(Next(s, p, step), e)
    ensures Zero(At(s, p), e) || Gains(s, step, e) || (step.Test? && e in s.entries && s.entries[e].refcnt == 0)
  {
    if Quiet(step) {
      ZeroBeforeQuietly(s, p, step, e);
    } else {
      ZeroBeforeLoudly(s, p, step, e);
    }
  }

  lemma {:induction false} ZeroBeforeQuietly(s: State, p: Pid, step: Step, e: Eid)
    requires Quiet(step)
    requires Enabled(s, p, step) && Shaped(At(s, p)) && Zero(Next(s, p, step), e)
    ensures Zero(At(s, p), e) || Gains(s, step, e) || (step.Test? && e in s.entries && s.entries[e].refcnt == 0)
  {
    if step.BuildForget? {
      InWithout(At(s, p).todo, step.i, e);
    }
  }

  lemma {:induction false} ZeroBeforeLoudly(s: State, p: Pid, step: Step, e: Eid)
    requires !Quiet(step)
    requires Enabled(s, p, step) && Shaped(At(s, p)) && Zero(Next(s, p, step), e)
    ensures Zero(At(s, p), e) || Gains(s, step, e) || (step.Test? && e in s.entries && s.entries[e].refcnt == 0)
  {
    var pc := At(s, p);
    match step
    case BuildMore(x) => assert e in pc.todo + [x] ==> e in pc.todo || e == x;
    case _ =>
  }

  lemma {:induction false} CarriedBefore(s: State, p: Pid, step: Step, t: Rid, e: Eid)
    requires Enabled(s, p, step) && Shaped(At(s, p)) && Carries(Next(s, p, step), t, e)
    ensures Carries(At(s, p), t, e) || (t !in s.refs && t in Apply(s, p, step).refs && Apply(s, p, step).refs[t] == Ref(p, e))
  {
    if Quiet(step) {
      CarriedBeforeQuietly(s, p, step, t, e);
    } else {
      CarriedBeforeLoudly(s, p, step, t, e);
    }
  }

  lemma {:induction false} CarriedBeforeQuietly(s: State, p: Pid, step: Step, t: Rid, e: Eid)
    requires Quiet(step)
    requires Enabled(s, p, step) && Shaped(At(s, p)) && Carries(Next(s, p, step), t, e)
    ensures Carries(At(s, p), t, e) || (t !in s.refs && t in Apply(s, p, step).refs && Apply(s, p, step).refs[t] == Ref(p, e))
  {
  }

  lemma {:induction false} CarriedBeforeLoudly(s: State, p: Pid, step: Step, t: Rid, e: Eid)
    requires !Quiet(step)
    requires Enabled(s, p, step) && Shaped(At(s, p)) && Carries(Next(s, p, step), t, e)
    ensures Carries(At(s, p), t, e) || (t !in s.refs && t in Apply(s, p, step).refs && Apply(s, p, step).refs[t] == Ref(p, e))
  {
  }


  /** Only references of p are dropped or passed on. */
  lemma {:induction false} OthersRefsStay(s: State, p: Pid, step: Step, t: Rid)
    requires CarriedHeld(s) && Enabled(s, p, step) && t in s.refs && s.refs[t].holder != p
    ensures t in Apply(s, p, step).refs && Apply(s, p, step).refs[t] == s.refs[t]
  {
    var pc := At(s, p);
    match step
    case Link => assert Carries(pc, pc.extra, pc.entry);
    case Release(u) => assert pc.Removed? ==> Carries(pc, pc.ref, pc.entry);
    case _ =>
  }

  lemma {:induction false} CarriedStays(s: State, p: Pid, step: Step, t: Rid, e: Eid)
    requires CarriedHeld(s) && Shaped(At(s, p)) && Enabled(s, p, step)
    requires Carries(At(s, p), t, e) && Carries(Next(s, p, step), t, e)
    ensures t in Apply(s, p, step).refs && Apply(s, p, step).refs[t] == Ref(p, e)
  {
    var pc := At(s, p);
    match step
    case Release(u) => assert pc.Removed? ==> !Carries(pc.back, pc.ref, e);
    case _ =>
  }

  lemma {:induction false} GainedAlone(s: State, p: Pid, step: Step, e: Eid, q: Pid)
    requires CarriedHeld(s) && OwnedAlone(s) && Enabled(s, p, step) && Gains(s, step, e) && q != p
    ensures !Owns(At(s, q), e)
  {
    var pc := At(s, p);
    match step
    case Release(t) => assert pc.Removed? ==> Carries(pc, pc.ref, pc.entry);
    case _ =>
  }

  lemma {:induction false} ZeroIsOwned(pc: Pc, e: Eid)
    requires Zero(pc, e)
    ensures Owns(pc, e)
  {
  }

  /** Another process leaves an unlisted entry alone. */
  lemma {:induction false} OwnedStays(s: State, p: Pid, step: Step, q: Pid, e: Eid)
    requires Inv(s) && Enabled(s, p, step) && q != p && Owns(At(s, q), e)
    ensures e in Apply(s, p, step).entries && Apply(s, p, step).entries[e] == s.entries[e]
  {
    OwnedUntouched(s, p, step, q, e);
    UntouchedStays(s, p, step, e);
  }

  lemma {:induction false} OwnedUntouched(s: State, p: Pid, step: Step, q: Pid, e: Eid)
    requires OwnedAlone(s) && OneOwner(s) && SeenLinked(s) && CarriedHeld(s)
    requires Enabled(s, p, step) && q != p && Owns(At(s, q), e)
    ensures e !in Touched(s, p, step)
  {
    var pc := At(s, p);
    assert !Owns(pc, e);
    match step
    case Take(_) => assert Sees(pc, pc.entry);
    case Test => assert Owns(pc, pc.entry) || Sees(pc, pc.entry);
    case Release(_) => assert pc.Removed? ==> Carries(pc, pc.ref, pc.entry);
    case _ =>
  }

  lemma {:induction false} UntouchedStays(s: State, p: Pid, step: Step, e: Eid)
    requires Enabled(s, p, step) && e in s.entries && e !in Touched(s, p, step)
    ensures e in Apply(s, p, step).entries && Apply(s, p, step).entries[e] == s.entries[e]
    ensures !Gains(s, step, e)
  {
    if Quiet(step) {
      QuietKeeps(s, p, step);
    } else {
      UntouchedStaysLoudly(s, p, step, e);
    }
  }

  lemma {:induction false} UntouchedStaysLoudly(s: State, p: Pid, step: Step, e: Eid)
    requires !Quiet(step)
    requires Enabled(s, p, step) && e in s.entries && e !in Touched(s, p, step)
    ensures e in Apply(s, p, step).entries && Apply(s, p, step).entries[e] == s.entries[e]
    ensures !Gains(s, step, e)
  {
  }

  lemma {:induction false} ZeroStays(s: State, p: Pid, step: Step, e: Eid)
    requires Inv(s) && Enabled(s, p, step) && Zero(At(s, p), e) && Zero(Next(s, p, step), e)
    ensures e in Apply(s, p, step).entries && Apply(s, p, step).entries[e].refcnt == 0
  {
  }

  /** The steps that make p forget an unlisted entry. */
  ghost predicate Leaves(s: State, p: Pid, step: Step, e: Eid) {
    var pc := At(s, p);
    match step
    case Return => pc.Made? && Carries(pc, pc.ref, e)
    case AddFail => pc.AddTry? && Carries(pc, pc.ref, e)
    case Link => (pc.AddLocked? || pc.StoreCounted?) && Carries(pc, pc.extra, e)
    case Test => e in s.entries && s.entries[e].refcnt != 0
    case Free => pc.Dying? && pc.entry == e
    case BuildForget(i) => pc.Build? && i < |pc.todo| && pc.todo[i] == e
    case _ => false
  }

  lemma {:induction false} OwnedAfter(s: State, p: Pid, step: Step, e: Eid)
    requires Shaped(At(s, p)) && Enabled(s, p, step) && Owns(At(s, p), e)
    ensures Owns(Next(s, p, step), e) || Leaves(s, p, step, e)
  {
    if Quiet(step) {
      OwnedAfterQuietly(s, p, step, e);
    } else {
      OwnedAfterLoudly(s, p, step, e);
    }
  }

  lemma {:induction false} OwnedAfterQuietly(s: State, p: Pid, step: Step, e: Eid)
    requires Quiet(step)
    requires Shaped(At(s, p)) && Enabled(s, p, step) && Owns(At(s, p), e)
    ensures Owns(Next(s, p, step), e) || Leaves(s, p, step, e)
  {
    var pc := At(s, p);
    match step
    case AddFull => assert Owns(AddTry(pc.entry, pc.ref, true), e);
    case StoreNext => assert pc.todo == [pc.todo[0]] + pc.todo[1..];
    case Test => assert e in pc.todo ==> Owns(Store(pc.todo), e);
    case BuildForget(i) => InWithout(pc.todo, i, e);
    case Lock => OwnedAcrossLock(pc, e);
    case Unlock => OwnedAcrossLock(pc, e);
    case _ =>
  }

  lemma {:induction false} OwnedAfterLoudly(s: State, p: Pid, step: Step, e: Eid)
    requires !Quiet(step)
    requires Shaped(At(s, p)) && Enabled(s, p, step) && Owns(At(s, p), e)
    ensures Owns(Next(s, p, step), e) || Leaves(s, p, step, e)
  {
  }

  lemma {:induction false} OwnedBeforeLock(pc: Pc, e: Eid)
    requires (Locked(pc).Some? && Owns(Locked(pc).value, e)) || (Unlocked(pc).Some? && Owns(Unlocked(pc).value, e))
    ensures Owns(pc, e)
  {
    assert pc.StoreTry? ==> Owns(StoreRelock(pc.entry, pc.todo), e) == Owns(pc, e);
  }

  lemma {:induction false} OwnedAcrossLock(pc: Pc, e: Eid)
    requires Owns(pc, e)
    ensures Locked(pc).Some? ==> Owns(Locked(pc).value, e)
    ensures Unlocked(pc).Some? ==> Owns(Unlocked(pc).value, e)
  {
    assert pc.StoreTry? ==> Owns(StoreRelock(pc.entry, pc.todo), e);
  }

  /** p leaves an unlisted entry only after freeing it, because something counts it, or by forgetting it. */
  lemma {:induction false} LeavesNoLeak(s: State, p: Pid, step: Step, e: Eid)
    requires Counts(s) && RefsKnown(s) && FreedUnused(s) && CarriedHeld(s)
    requires Enabled(s, p, step) && Leaves(s, p, step, e) && e in s.entries && s.entries[e].refcnt == 0
    ensures step.Free? || (step.BuildForget? && e in Apply(s, p, step).forgotten)
  {
    var pc := At(s, p);
    match step
    case Return => RefIsCounted(s, pc.ref);
    case AddFail => RefIsCounted(s, pc.ref);
    case Link => RefIsCounted(s, pc.extra);
    case _ =>
  }

  // ----- the invariant is kept ----------------------------------------------------------------

  lemma {:induction false} KeepsCarried(s: State, p: Pid, step: Step)
    requires Inv(s) && Enabled(s, p, step)
    ensures CarriedHeld(Apply(s, p, step))
  {
    var s' := Apply(s, p, step);
    forall q, t, e | Carries(At(s', q), t, e) ensures t in s'.refs && s'.refs[t] == Ref(q, e) {
      if q == p {
        CarriedBefore(s, p, step, t, e);
        if Carries(At(s, p), t, e) {
          CarriedStays(s, p, step, t, e);
        }
      } else {
        OthersStay(s, p, step, q);
        OthersRefsStay(s, p, step, t);
      }
    }
  }

  lemma {:induction false} KeepsOneOwner(s: State, p: Pid, step: Step)
    requires Inv(s) && Enabled(s, p, step)
    ensures OneOwner(Apply(s, p, step))
  {
    var s' := Apply(s, p, step);
    forall q, e | Owns(At(s', p), e) && q != p ensures !Owns(At(s', q), e) {
      OthersStay(s, p, step, q);
      OwnedBefore(s, p, step, e);
      if Gains(s, step, e) {
        GainedAlone(s, p, step, e, q);
      }
    }
    forall q, r, e | Owns(At(s', q), e) && Owns(At(s', r), e) ensures q == r {
      if q != p && r != p {
        OthersStay(s, p, step, q);
        OthersStay(s, p, step, r);
      }
    }
  }

  lemma {:induction false} KeepsZero(s: State, p: Pid, step: Step)
    requires Inv(s) && Enabled(s, p, step)
    ensures ZeroCounted(Apply(s, p, step))
  {
    var s' := Apply(s, p, step);
    forall q, e | Zero(At(s', q), e) ensures e in s'.entries && s'.entries[e].refcnt == 0 {
      if q == p {
        ZeroBefore(s, p, step, e);
        if Zero(At(s, p), e) {
          ZeroStays(s, p, step, e);
        }
      } else {
        OthersStay(s, p, step, q);
        ZeroIsOwned(At(s, q), e);
        OwnedStays(s, p, step, q, e);
      }
    }
  }

  lemma {:induction false} KeepsSeen(s: State, p: Pid, step: Step)
    requires Inv(s) && Enabled(s, p, step)
    ensures SeenLinked(Apply(s, p, step))
  {
    var s' := Apply(s, p, step);
    forall q, e | Sees(At(s', q), e) ensures e in s'.entries && s'.entries[e].linked {
      if q == p {
        SeenNext(s, p, step, e);
      } else {
        OthersStay(s, p, step, q);
        SeenElsewhere(s, p, step, q, e);
      }
    }
  }

  lemma {:induction false} SeenNext(s: State, p: Pid, step: Step, e: Eid)
    requires SeenLinked(s) && Shaped(At(s, p)) && Enabled(s, p, step) && Sees(Next(s, p, step), e)
    ensures e in Apply(s, p, step).entries && Apply(s, p, step).entries[e].linked
  {
    if Quiet(step) {
      QuietKeeps(s, p, step);
    } else {
      SeenNextLoudly(s, p, step, e);
    }
  }

  lemma {:induction false} SeenNextLoudly(s: State, p: Pid, step: Step, e: Eid)
    requires !Quiet(step)
    requires SeenLinked(s) && Shaped(At(s, p)) && Enabled(s, p, step) && Sees(Next(s, p, step), e)
    ensures e in Apply(s, p, step).entries && Apply(s, p, step).entries[e].linked
  {
  }

  /** Only who has the lock sees entries, and only who has it takes entries out of the table. */
  lemma {:induction false} SeenElsewhere(s: State, p: Pid, step: Step, q: Pid, e: Eid)
    requires SeenLinked(s) && LockHeld(s) && Enabled(s, p, step) && q != p && Sees(At(s, q), e)
    ensures e in Apply(s, p, step).entries && Apply(s, p, step).entries[e].linked
  {
    assert InLock(At(s, q)) && (step.Unlink? ==> InLock(At(s, p)));
  }

  lemma {:induction false} FreedStaysUnused(s: State, p: Pid, step: Step)
    requires Counts(s) && RefsKnown(s) && FreedUnused(s) && Enabled(s, p, step)
    requires forall e | e in Touched(s, p, step) :: e in s.entries && !s.entries[e].freed
    requires step.Free? ==> !s.entries[At(s, p).entry].linked && s.entries[At(s, p).entry].refcnt == 0
    ensures FreedUnused(Apply(s, p, step))
  {
    if Quiet(step) {
      QuietKeeps(s, p, step);
    } else {
      FreedStaysUnusedLoudly(s, p, step);
    }
  }

  lemma {:induction false} FreedStaysUnusedLoudly(s: State, p: Pid, step: Step)
    requires !Quiet(step)
    requires Counts(s) && RefsKnown(s) && FreedUnused(s) && Enabled(s, p, step)
    requires forall e | e in Touched(s, p, step) :: e in s.entries && !s.entries[e].freed
    requires step.Free? ==> !s.entries[At(s, p).entry].linked && s.entries[At(s, p).entry].refcnt == 0
    ensures FreedUnused(Apply(s, p, step))
  {
  }

  lemma {:induction false} RefsStayKnown(s: State, p: Pid, step: Step)
    requires RefsKnown(s) && Enabled(s, p, step)
    ensures RefsKnown(Apply(s, p, step))
  {
  }

  lemma {:induction false} KeepsFreed(s: State, p: Pid, step: Step)
    requires Inv(s) && Enabled(s, p, step)
    ensures FreedUnused(Apply(s, p, step)) && RefsKnown(Apply(s, p, step))
  {
    TouchesOnlyLive(s, p, step);
    if step.Free? {
      assert Owns(At(s, p), At(s, p).entry) && Zero(At(s, p), At(s, p).entry);
    }
    FreedStaysUnused(s, p, step);
    RefsStayKnown(s, p, step);
  }

  lemma {:induction false} KeepsLeakFree(s: State, p: Pid, step: Step)
    requires Inv(s) && Enabled(s, p, step)
    ensures NoOtherLeak(Apply(s, p, step))
  {
    var s' := Apply(s, p, step);
    forall e | e in s'.entries && !s'.entries[e].freed && s'.entries[e].refcnt == 0 && e !in s'.forgotten
      ensures exists q :: Owns(At(s', q), e)
    {
      if e !in s.entries || s.entries[e].refcnt != 0 {
        ZeroIsNew(s, p, step, e);
      } else {
        FreedStays(s, p, step, e);
        var q :| Owns(At(s, q), e);
        if q == p {
          OwnedAfter(s, p, step, e);
          if Leaves(s, p, step, e) {
            LeavesNoLeak(s, p, step, e);
          }
          assert Owns(At(s', p), e);
        } else {
          OthersStay(s, p, step, q);
        }
      }
    }
  }

  // what was forgotten stays lost

  /** No step reads or writes an entry that is lost. */
  lemma {:induction false} LostUntouched(s: State, p: Pid, step: Step, e: Eid)
    requires Inv(s) && Enabled(s, p, step) && Lost(s, e)
    ensures e !in Touched(s, p, step)
  {
    var pc := At(s, p);
    assert !Owns(pc, e);
    match step
    case Release(t) => RefIsCounted(s, t);
    case Copy(t, _) => RefIsCounted(s, t);
    case Take(_) => assert Sees(pc, pc.entry);
    case Test => assert Owns(pc, pc.entry) || Sees(pc, pc.entry);
    case _ =>
  }

  lemma {:induction false} LostStays(s: State, p: Pid, step: Step, e: Eid)
    requires Inv(s) && Enabled(s, p, step) && Lost(s, e)
    ensures Lost(Apply(s, p, step), e)
  {
    LostUntouched(s, p, step, e);
    UntouchedStays(s, p, step, e);
    forall q: Pid ensures !Owns(At(Apply(s, p, step), q), e) {
      if q == p {
        if Owns(Next(s, p, step), e) {
          OwnedBefore(s, p, step, e);
        }
      } else {
        OthersStay(s, p, step, q);
      }
    }
  }

  lemma {:induction false} ForgottenIsLost(s: State, p: Pid, i: nat)
    requires Inv(s) && Enabled(s, p, BuildForget(i))
    ensures Lost(Apply(s, p, BuildForget(i)), At(s, p).todo[i])
  {
    var s', e := Apply(s, p, BuildForget(i)), At(s, p).todo[i];
    assert Owns(At(s, p), e) && Zero(At(s, p), e);
    QuietKeeps(s, p, BuildForget(i));
    forall q: Pid ensures !Owns(At(s', q), e) {
      if q == p {
        InWithout(At(s, p).todo, i, e);
      } else {
        OthersStay(s, p, BuildForget(i), q);
      }
    }
  }

  lemma {:induction false} KeepsForgotten(s: State, p: Pid, step: Step)
    requires Inv(s) && Enabled(s, p, step)
    ensures ForgottenLost(Apply(s, p, step))
  {
    forall e | e in Apply(s, p, step).forgotten ensures Lost(Apply(s, p, step), e) {
      if e in s.forgotten {
        LostStays(s, p, step, e);
      } else {
        ForgottenIsLost(s, p, step.i);
      }
    }
  }

  /** A counter reaches zero only in the hands of p. */
  lemma {:induction false} ZeroIsNew(s: State, p: Pid, step: Step, e: Eid)
    requires Enabled(s, p, step) && e in Apply(s, p, step).entries && Apply(s, p, step).entries[e].refcnt == 0
    requires e !in s.entries || s.entries[e].refcnt != 0
    requires Counts(s)
    ensures Owns(At(Apply(s, p, step), p), e)
  {
    if Quiet(step) {
      QuietKeeps(s, p, step);
    } else {
      ZeroIsNewLoudly(s, p, step, e);
    }
  }

  lemma {:induction false} ZeroIsNewLoudly(s: State, p: Pid, step: Step, e: Eid)
    requires !Quiet(step)
    requires Enabled(s, p, step) && e in Apply(s, p, step).entries && Apply(s, p, step).entries[e].refcnt == 0
    requires e !in s.entries || s.entries[e].refcnt != 0
    requires Counts(s)
    ensures Owns(At(Apply(s, p, step), p), e)
  {
  }

  lemma {:induction false} FreedStays(s: State, p: Pid, step: Step, e: Eid)
    requires Enabled(s, p, step) && e in s.entries
    ensures e in Apply(s, p, step).entries && (s.entries[e].freed ==> Apply(s, p, step).entries[e].freed)
  {
    if Quiet(step) {
      QuietKeeps(s, p, step);
    } else {
      FreedStaysLoudly(s, p, step, e);
    }
  }

  lemma {:induction false} FreedStaysLoudly(s: State, p: Pid, step: Step, e: Eid)
    requires !Quiet(step)
    requires Enabled(s, p, step) && e in s.entries
    ensures e in Apply(s, p, step).entries && (s.entries[e].freed ==> Apply(s, p, step).entries[e].freed)
  {
  }

  // shape and lock

  lemma {:induction false} ShapedNext(s: State, p: Pid, step: Step)
    requires CarriedHeld(s) && OwnedAlone(s) && Enabled(s, p, step) && Shaped(At(s, p))
    ensures Shaped(Next(s, p, step))
  {
    if Quiet(step) {
      ShapedNextQuietly(s, p, step);
    } else {
      ShapedNextLoudly(s, p, step);
    }
  }

  lemma {:induction false} ShapedNextQuietly(s: State, p: Pid, step: Step)
    requires Quiet(step)
    requires CarriedHeld(s) && OwnedAlone(s) && Enabled(s, p, step) && Shaped(At(s, p))
    ensures Shaped(Next(s, p, step))
  {
    var pc := At(s, p);
    match step
    case Test => assert !Owns(Store(pc.todo), pc.entry);
    case BuildForget(i) => InWithout(pc.todo, i, pc.todo[i]);
    case _ =>
  }

  lemma {:induction false} ShapedNextLoudly(s: State, p: Pid, step: Step)
    requires !Quiet(step)
    requires CarriedHeld(s) && OwnedAlone(s) && Enabled(s, p, step) && Shaped(At(s, p))
    ensures Shaped(Next(s, p, step))
  {
    var pc := At(s, p);
    match step
    case BuildMore(e) => assert forall x :: x in pc.todo ==> Owns(pc, x);
    case Unlink(e, t) => assert !Owns(pc, e) && forall x :: Carries(pc, t, x) ==> t in s.refs;
    case Release(t) => assert pc.Removed? ==> Carries(pc, pc.ref, pc.entry) && !Owns(pc.back, pc.entry);
    case _ =>
  }

  lemma {:induction false} KeepsShaped(s: State, p: Pid, step: Step)
    requires Inv(s) && Enabled(s, p, step)
    ensures PcsShaped(Apply(s, p, step))
  {
    forall q: Pid ensures Shaped(At(Apply(s, p, step), q)) {
      if q == p {
        ShapedNext(s, p, step);
      } else {
        OthersStay(s, p, step, q);
      }
    }
  }

  lemma {:induction false} LockNext(s: State, p: Pid, step: Step)
    requires Enabled(s, p, step) && Shaped(At(s, p)) && (InLock(At(s, p)) <==> s.lock == Some(p))
    ensures InLock(Next(s, p, step)) <==> Apply(s, p, step).lock == Some(p)
  {
    if !step.Lock? && !step.Unlock? {
      LockNextInside(s, p, step);
    }
  }

  /** No other step moves p into the lock or out of it. */
  lemma {:induction false} LockNextInside(s: State, p: Pid, step: Step)
    requires Enabled(s, p, step) && !step.Lock? && !step.Unlock?
    ensures InLock(Next(s, p, step)) == InLock(At(s, p)) && Apply(s, p, step).lock == s.lock
  {
  }

  lemma {:induction false} LockMoves(s: State, p: Pid, step: Step)
    requires Enabled(s, p, step) && (Unlocked(At(s, p)).Some? ==> s.lock == Some(p))
    ensures Apply(s, p, step).lock == s.lock || {s.lock, Apply(s, p, step).lock} == {None, Some(p)}
  {
  }

  lemma {:induction false} KeepsLock(s: State, p: Pid, step: Step)
    requires Inv(s) && Enabled(s, p, step)
    ensures LockHeld(Apply(s, p, step))
  {
    LockNext(s, p, step);
    LockMoves(s, p, step);
    forall q: Pid | q != p ensures InLock(At(Apply(s, p, step), q)) <==> Apply(s, p, step).lock == Some(q) {
      OthersStay(s, p, step, q);
    }
  }

  // exclusive knowledge

  lemma {:induction false} OwnerHolds(s: State, q: Pid, e: Eid, t: Rid)
    requires OwnedAlone(s) && Owns(At(s, q), e) && t in s.refs && s.refs[t].entry == e
    ensures s.refs[t].holder == q
  {
    assert Owns(At(s, q), e);
    assert !s.entries[e].freed;
    assert forall u | u in s.refs && s.refs[u].entry == e :: s.refs[u].holder == q;
  }

  lemma {:induction false} OthersEntryUnreferenced(s: State, p: Pid, step: Step, q: Pid, e: Eid, t: Rid)
    requires CarriedHeld(s) && OwnedAlone(s) && OneOwner(s) && SeenLinked(s)
    requires Enabled(s, p, step) && q != p && Owns(At(s, q), e)
    requires t in Apply(s, p, step).refs && Apply(s, p, step).refs[t].entry == e
    ensures Apply(s, p, step).refs[t].holder == q
  {
    var pc := At(s, p);
    if t in s.refs && s.refs[t].entry == e {
      OwnerHolds(s, q, e, t);
    }
    match step
    case SetOne(_) => assert Owns(pc, pc.entry);
    case AddCount(_) => assert Owns(pc, pc.entry);
    case BuildPick(i, _) => assert Owns(pc, pc.todo[i]);
    case Take(_) => assert Sees(pc, pc.entry);
    case _ =>
  }

  lemma {:induction false} OwnEntryStays(s: State, p: Pid, step: Step, e: Eid)
    requires OwnedAlone(s) && Shaped(At(s, p)) && Enabled(s, p, step)
    requires Owns(At(s, p), e) && Owns(Next(s, p, step), e)
    ensures e in Apply(s, p, step).entries
    ensures !Apply(s, p, step).entries[e].freed && !Apply(s, p, step).entries[e].linked
    ensures forall t | t in Apply(s, p, step).refs && Apply(s, p, step).refs[t].entry == e ::
      Apply(s, p, step).refs[t].holder == p
  {
    if Quiet(step) {
      QuietKeeps(s, p, step);
    } else {
      OwnEntryStaysLoudly(s, p, step, e);
    }
  }

  lemma {:induction false} OwnEntryStaysLoudly(s: State, p: Pid, step: Step, e: Eid)
    requires !Quiet(step)
    requires OwnedAlone(s) && Shaped(At(s, p)) && Enabled(s, p, step)
    requires Owns(At(s, p), e) && Owns(Next(s, p, step), e)
    ensures e in Apply(s, p, step).entries
    ensures !Apply(s, p, step).entries[e].freed && !Apply(s, p, step).entries[e].linked
    ensures forall t | t in Apply(s, p, step).refs && Apply(s, p, step).refs[t].entry == e ::
      Apply(s, p, step).refs[t].holder == p
  {
  }

  lemma {:induction false} GainedUnused(s: State, p: Pid, step: Step, e: Eid)
    requires Counts(s) && RefsKnown(s) && FreedUnused(s) && Enabled(s, p, step) && Gains(s, step, e)
    ensures e in Apply(s, p, step).entries
    ensures !Apply(s, p, step).entries[e].freed && !Apply(s, p, step).entries[e].linked
    ensures RefsTo(Apply(s, p, step), e) == {}
  {
    if step.Release? {
      var t := step.t;
      RefIsCounted(s, t);
      assert t in RefsTo(s, e);
      assert RefsTo(s, e) == {t} by {
        forall u | u in RefsTo(s, e) ensures u == t {
          if u != t {
            assert {t, u} <= RefsTo(s, e);
            SetSize({t, u}, RefsTo(s, e));
          }
        }
      }
    }
  }

  lemma {:induction false} SetSize(a: set<Rid>, b: set<Rid>)
    requires a <= b
    ensures |a| <= |b|
  {
    assert a + (b - a) == b;
  }

  lemma {:induction false} KeepsOwned(s: State, p: Pid, step: Step)
    requires Inv(s) && Enabled(s, p, step)
    ensures OwnedAlone(Apply(s, p, step))
  {
    var s' := Apply(s, p, step);
    forall q, e | Owns(At(s', q), e)
      ensures e in s'.entries && !s'.entries[e].freed && !s'.entries[e].linked
      ensures forall t | t in s'.refs && s'.refs[t].entry == e :: s'.refs[t].holder == q
    {
      if q == p {
        OwnedBefore(s, p, step, e);
        if Owns(At(s, p), e) {
          OwnEntryStays(s, p, step, e);
        } else {
          GainedUnused(s, p, step, e);
          assert forall t | t in s'.refs && s'.refs[t].entry == e :: t in RefsTo(s', e);
        }
      } else {
        OthersStay(s, p, step, q);
        OwnedStays(s, p, step, q, e);
        forall t | t in s'.refs && s'.refs[t].entry == e ensures s'.refs[t].holder == q {
          OthersEntryUnreferenced(s, p, step, q, e, t);
        }
      }
    }
  }

  // the counters

  /** How many references to e a step adds. */
  ghost function NewRefs(s: State, p: Pid, step: Step, e: Eid): int
    requires Enabled(s, p, step)
  {
    var pc := At(s, p);
    match step
    case SetOne(_) => if pc.entry == e then 1 else 0
    case AddCount(_) => if pc.entry == e then 1 else 0
    case Link => if s.refs[pc.extra].entry == e then -1 else 0
    case BuildPick(i, _) => if pc.todo[i] == e then 1 else 0
    case Take(_) => if pc.entry == e then 1 else 0
    case Unlink(x, _) => if x == e then 1 else 0
    case Release(t) => if s.refs[t].entry == e then -1 else 0
    case Copy(t, _) => if s.refs[t].entry == e then 1 else 0
    case _ => 0
  }

  lemma {:induction false} RefGranted(s: State, t: Rid, p: Pid, x: Eid, e: Eid)
    requires NewRef(s, t)
    ensures |RefsTo(Grant(s, t, p, x), e)| == |RefsTo(s, e)| + if x == e then 1 else 0
  {
    assert RefsTo(Grant(s, t, p, x), e) == if x == e then RefsTo(s, e) + {t} else RefsTo(s, e);
  }

  lemma {:induction false} RefRevoked(s: State, t: Rid, e: Eid)
    requires t in s.refs
    ensures |RefsTo(Revoke(s, t), e)| == |RefsTo(s, e)| - if s.refs[t].entry == e then 1 else 0
  {
    assert RefsTo(Revoke(s, t), e) == if s.refs[t].entry == e then RefsTo(s, e) - {t} else RefsTo(s, e);
  }

  lemma {:induction false} SameRefs(s: State, s': State, e: Eid)
    requires s.refs.Keys == s'.refs.Keys && forall t | t in s.refs :: s'.refs[t].entry == s.refs[t].entry
    ensures RefsTo(s', e) == RefsTo(s, e)
  {
  }

  lemma {:induction false} RefsChange(s: State, p: Pid, step: Step, e: Eid)
    requires Enabled(s, p, step)
    ensures |RefsTo(Apply(s, p, step), e)| == |RefsTo(s, e)| + NewRefs(s, p, step, e)
  {
    var s' := Apply(s, p, step);
    var pc := At(s, p);
    match step
    case SetOne(t) => RefGranted(s, t, p, pc.entry, e);
    case AddCount(t) => RefGranted(s, t, p, pc.entry, e);
    case Link => RefRevoked(s, pc.extra, e);
    case BuildPick(i, t) => RefGranted(s, t, p, pc.todo[i], e);
    case Take(t) => RefGranted(s, t, p, pc.entry, e);
    case Unlink(x, t) => RefGranted(s, t, p, x, e);
    case Release(t) => RefRevoked(s, t, e);
    case Copy(t, u) => RefGranted(s, u, p, s.refs[t].entry, e);
    case _ => SameRefs(s, s', e);
  }

  lemma {:induction false} KeepsCounts(s: State, p: Pid, step: Step)
    requires Inv(s) && Enabled(s, p, step)
    ensures Counts(Apply(s, p, step))
  {
    var s' := Apply(s, p, step);
    var pc := At(s, p);
    forall e | e in s'.entries
      ensures s'.entries[e].refcnt == (if s'.entries[e].linked then 1 else 0) + |RefsTo(s', e)|
    {
      RefsChange(s, p, step, e);
      if e in s.entries {
        CountChange(s, p, step, e);
      } else {
        assert RefsTo(s, e) == {};
      }
    }
  }

  lemma {:induction false} CountChange(s: State, p: Pid, step: Step, e: Eid)
    requires OwnedAlone(s) && ZeroCounted(s) && CarriedHeld(s) && SeenLinked(s) && Enabled(s, p, step) && e in s.entries
    ensures e in Apply(s, p, step).entries
    ensures Apply(s, p, step).entries[e].refcnt - (if Apply(s, p, step).entries[e].linked then 1 else 0)
      == s.entries[e].refcnt - (if s.entries[e].linked then 1 else 0) + NewRefs(s, p, step, e)
  {
    var pc := At(s, p);
    match step
    case SetOne(_) => assert Zero(pc, pc.entry);
    case Link => assert Owns(pc, pc.entry) && Carries(pc, pc.extra, pc.entry);
    case BuildPick(i, _) => assert Zero(pc, pc.todo[i]);
    case _ =>
  }

  // ----- every run ----------------------------------------------------------------------------

  lemma {:induction false} StartsSound()
    ensures Inv(START)
  {
  }

  lemma {:induction false} StepKeepsInv(s: State, p: Pid, step: Step)
    requires Inv(s) && Enabled(s, p, step)
    ensures Inv(Apply(s, p, step))
  {
    KeepsCounts(s, p, step);
    KeepsFreed(s, p, step);
    KeepsOwned(s, p, step);
    KeepsOneOwner(s, p, step);
    KeepsZero(s, p, step);
    KeepsCarried(s, p, step);
    KeepsLock(s, p, step);
    KeepsShaped(s, p, step);
    KeepsSeen(s, p, step);
    KeepsLeakFree(s, p, step);
    KeepsForgotten(s, p, step);
  }

  /** A step of one process in an interleaving. */
  datatype Move = Move(p: Pid, step: Step)

  /** The moves can be made one after the other from s. */
  ghost predicate CanRun(s: State, run: seq<Move>)
    decreases run
  {
    run == [] || (Enabled(s, run[0].p, run[0].step) && CanRun(Apply(s, run[0].p, run[0].step), run[1..]))
  }

  ghost function Run(s: State, run: seq<Move>): State
    requires CanRun(s, run)
    decreases run
  {
    if run == [] then s else Run(Apply(s, run[0].p, run[0].step), run[1..])
  }

  lemma {:induction false} RunKeepsInv(s: State, run: seq<Move>)
    requires Inv(s) && CanRun(s, run)
    ensures Inv(Run(s, run))
    decreases run
  {
    if run != [] {
      StepKeepsInv(s, run[0].p, run[0].step);
      RunKeepsInv(Apply(s, run[0].p, run[0].step), run[1..]);
    }
  }

  /** In every interleaving the counter of an entry is one for the tables plus one for each
      outstanding reference; freed entries have neither, and no reference names one. */
  lemma {:induction false} CountersAreExact(run: seq<Move>, e: Eid)
    requires CanRun(START, run) && e in Run(START, run).entries
    ensures
      var s := Run(START, run);
      && s.entries[e].refcnt == (if s.entries[e].linked then 1 else 0) + |RefsTo(s, e)|
      && (s.entries[e].freed ==> !s.entries[e].linked && RefsTo(s, e) == {})
  {
    StartsSound();
    RunKeepsInv(START, run);
    var s := Run(START, run);
    if s.entries[e].freed {
      assert |RefsTo(s, e)| == 0;
    }
  }

  /** Nothing touches an entry after it was freed; in particular it is not freed again. */
  lemma {:induction false} RunTouchesOnlyLive(run: seq<Move>, p: Pid, step: Step, e: Eid)
    requires CanRun(START, run) && Enabled(Run(START, run), p, step)
    requires e in Touched(Run(START, run), p, step)
    ensures e in Run(START, run).entries && !Run(START, run).entries[e].freed
  {
    StartsSound();
    RunKeepsInv(START, run);
    TouchesOnlyLive(Run(START, run), p, step);
  }

  /** Freeing is final. */
  lemma {:induction false} FreedForever(s: State, run: seq<Move>, e: Eid)
    requires CanRun(s, run) && e in s.entries && s.entries[e].freed
    ensures e in Run(s, run).entries && Run(s, run).entries[e].freed
    decreases run
  {
    if run != [] {
      FreedStays(s, run[0].p, run[0].step, e);
      FreedForever(Apply(s, run[0].p, run[0].step), run[1..], e);
    }
  }

  /** Two frees in one run are frees of two entries. */
  lemma {:induction false} FreedOnce(run: seq<Move>, p: Pid, more: seq<Move>, q: Pid)
    requires CanRun(START, run) && Enabled(Run(START, run), p, Free)
    requires CanRun(Apply(Run(START, run), p, Free), more)
    requires Enabled(Run(Apply(Run(START, run), p, Free), more), q, Free)
    ensures At(Run(START, run), p).entry != At(Run(Apply(Run(START, run), p, Free), more), q).entry
  {
    StartsSound();
    RunKeepsInv(START, run);
    var s := Run(START, run);
    var s' := Apply(s, p, Free);
    StepKeepsInv(s, p, Free);
    RunKeepsInv(s', more);
    FreedForever(s', more, At(s, p).entry);
    TouchesOnlyLive(Run(s', more), q, Free);
  }

  /** Once every process is outside the cache code, an entry is freed exactly when nothing counts it
      and it was not forgotten. */
  lemma {:induction false} QuietMeansFreed(run: seq<Move>, e: Eid)
    requires CanRun(START, run) && e in Run(START, run).entries
    requires forall p: Pid :: At(Run(START, run), p).Idle?
    ensures var s := Run(START, run);
      s.entries[e].freed <==> !s.entries[e].linked && RefsTo(s, e) == {} && e !in s.forgotten
  {
    CountersAreExact(run, e);
    StartsSound();
    RunKeepsInv(START, run);
    var s := Run(START, run);
    assert forall p: Pid :: At(s, p).Idle? ==> !Owns(At(s, p), e);
  }

  /** The run leads from s to v. */
  ghost predicate Leads(s: State, run: seq<Move>, v: State) {
    CanRun(s, run) && Run(s, run) == v
  }

  lemma {:induction false} LeadsOn(s: State, step: Step, s': State, rest: seq<Move>, v: State)
    requires Enabled(s, 0, step) && Apply(s, 0, step) == s' && Leads(s', rest, v)
    ensures Leads(s, [Move(0, step)] + rest, v)
  {
    assert ([Move(0, step)] + rest)[1..] == rest;
  }

  const NEW := Entry(false, 0, false)
  const STORED := Entry(true, 1, false)

  /** One process, without references outside the lock. */
  function Outside(es: map<Eid, Entry>, pc: Pc, forgotten: set<Eid>): State {
    State(es, map[], map[0 := pc], None, forgotten)
  }

  function Inside(es: map<Eid, Entry>, refs: map<Rid, Ref>, pc: Pc, forgotten: set<Eid>): State {
    State(es, refs, map[0 := pc], Some(0), forgotten)
  }

  lemma {:induction false} MakesOne(es: map<Eid, Entry>, e: Eid, todo: seq<Eid>, rest: seq<Move>, v: State)
    requires e !in es && Leads(Outside(es[e := NEW], Build(todo + [e], false), {}), rest, v)
    ensures Leads(Outside(es, Build(todo, false), {}), [Move(0, BuildMore(e))] + rest, v)
  {
    LeadsOn(Outside(es, Build(todo, false), {}), BuildMore(e), Outside(es[e := NEW], Build(todo + [e], false), {}), rest, v);
  }

  lemma {:induction false} CountsOne(es: map<Eid, Entry>, e: Eid, todo: seq<Eid>, f: set<Eid>)
    requires e in es && es[e] == NEW
    ensures Enabled(Inside(es, map[], StoreTry(e, false, todo), f), 0, AddCount(0))
    ensures Apply(Inside(es, map[], StoreTry(e, false, todo), f), 0, AddCount(0))
            == Inside(es[e := Entry(false, 1, false)], map[0 := Ref(0, e)], StoreCounted(e, 0, todo), f)
  {
  }

  lemma {:induction false} LinksOne(es: map<Eid, Entry>, e: Eid, todo: seq<Eid>, f: set<Eid>)
    ensures var s := Inside(es[e := Entry(false, 1, false)], map[0 := Ref(0, e)], StoreCounted(e, 0, todo), f);
      Enabled(s, 0, Link) && Apply(s, 0, Link) == Inside(es[e := STORED], map[], StoreTest(e, true, todo), f)
  {
  }

  /** An entry is taken from the list and stored. */
  lemma {:induction false} StoresOne(es: map<Eid, Entry>, e: Eid, todo: seq<Eid>, f: set<Eid>, rest: seq<Move>, v: State)
      returns (run: seq<Move>)
    requires e in es && es[e] == NEW && Leads(Inside(es[e := STORED], map[], Store(todo), f), rest, v)
    ensures Leads(Inside(es, map[], Store([e] + todo), f), run, v)
  {
    var s1, s2 := Inside(es, map[], Store([e] + todo), f), Inside(es, map[], StoreTry(e, false, todo), f);
    var s3 := Inside(es[e := Entry(false, 1, false)], map[0 := Ref(0, e)], StoreCounted(e, 0, todo), f);
    var s4 := Inside(es[e := STORED], map[], StoreTest(e, true, todo), f);
    run := [Move(0, Test)] + rest;
    LeadsOn(s4, Test, Inside(es[e := STORED], map[], Store(todo), f), rest, v);
    LinksOne(es, e, todo, f);
    LeadsOn(s3, Link, s4, run, v);
    run := [Move(0, Link)] + run;
    CountsOne(es, e, todo, f);
    LeadsOn(s2, AddCount(0), s3, run, v);
    run := [Move(0, AddCount(0))] + run;
    assert ([e] + todo)[1..] == todo;
    LeadsOn(s1, StoreNext, s2, run, v);
    run := [Move(0, StoreNext)] + run;
  }

  lemma {:induction false} StoresNoMore(es: map<Eid, Entry>, f: set<Eid>)
    ensures Leads(Inside(es, map[], Store([]), f), [Move(0, Unlock)], Outside(es, Idle, f))
  {
    LeadsOn(Inside(es, map[], Store([]), f), Unlock, Outside(es, Idle, f), [], Outside(es, Idle, f));
    assert [Move(0, Unlock)] + [] == [Move(0, Unlock)];
  }

  lemma {:induction false} StartsStoring(es: map<Eid, Entry>, todo: seq<Eid>, f: set<Eid>, rest: seq<Move>, v: State)
    requires Leads(Inside(es, map[], Store(todo), f), rest, v)
    ensures Leads(Outside(es, Build(todo, false), f), [Move(0, Lock)] + rest, v)
  {
    LeadsOn(Outside(es, Build(todo, false), f), Lock, Inside(es, map[], Store(todo), f), rest, v);
  }

  /** The two entries on the list are stored, and nothing else. */
  lemma {:induction false} StoresTwo(es: map<Eid, Entry>, c: Eid, d: Eid, f: set<Eid>) returns (run: seq<Move>)
    requires c != d && c in es && d in es && es[c] == NEW && es[d] == NEW
    ensures Leads(Outside(es, Build([c, d], false), f), run, Outside(es[c := STORED][d := STORED], Idle, f))
  {
    var v := Outside(es[c := STORED][d := STORED], Idle, f);
    StoresNoMore(es[c := STORED][d := STORED], f);
    assert [d] + [] == [d] && [c] + [d] == [c, d];
    run := StoresOne(es[c := STORED], d, [], f, [Move(0, Unlock)], v);
    run := StoresOne(es, c, [d], f, run, v);
    StartsStoring(es, [c, d], f, run, v);
    run := [Move(0, Lock)] + run;
  }

  lemma {:induction false} ForgetsLast(es: map<Eid, Entry>, rest: seq<Move>, v: State)
    requires Leads(Outside(es, Build([0, 1], false), {2}), rest, v)
    ensures Leads(Outside(es, Build([0, 1, 2], false), {}), [Move(0, BuildForget(2))] + rest, v)
  {
    var todo: seq<Eid> := [0, 1, 2];
    assert todo[..2] + todo[3..] == [0, 1];
    LeadsOn(Outside(es, Build(todo, false), {}), BuildForget(2), Outside(es, Build([0, 1], false), {2}), rest, v);
  }

  /** An SRV entry 0, the alias 1 of its target and the address 2 that the alias leads to come in one
      answer: the first two are stored, and the third is still allocated when all is done. */
  lemma {:induction false} AddressBehindAliasLeaks() returns (run: seq<Move>)
    ensures CanRun(START, run) && forall p: Pid :: At(Run(START, run), p).Idle?
    ensures var s := Run(START, run);
      && 2 in s.entries && !s.entries[2].freed && !s.entries[2].linked && RefsTo(s, 2) == {}
      && 0 in s.entries && s.entries[0].linked && 1 in s.entries && s.entries[1].linked
  {
    var e0: map<Eid, Entry>, none: seq<Eid> := map[], [];
    var e1, e2, e3 := e0[0 := NEW], e0[0 := NEW][1 := NEW], e0[0 := NEW][1 := NEW][2 := NEW];
    var v := Outside(e3[0 := STORED][1 := STORED], Idle, {2});
    run := StoresTwo(e3, 0, 1, {2});
    ForgetsLast(e3, run, v);
    run := [Move(0, BuildForget(2))] + run;
    assert [0, 1] + [2] == [0, 1, 2] && [0] + [1] == [0, 1] && none + [0] == [0];
    MakesOne(e2, 2, [0, 1], run, v);
    run := [Move(0, BuildMore(2))] + run;
    MakesOne(e1, 1, [0], run, v);
    run := [Move(0, BuildMore(1))] + run;
    MakesOne(e0, 0, none, run, v);
    run := [Move(0, BuildMore(0))] + run;
    LeadsOn(START, BuildStart, Outside(e0, Build(none, false), {}), run, v);
    run := [Move(0, BuildStart)] + run;
    assert RefsTo(v, 2) == {};
  }

  /** A forgotten entry is never used and never freed. */
  lemma {:induction false} ForgottenForever(s: State, run: seq<Move>, e: Eid)
    requires Inv(s) && CanRun(s, run) && e in s.forgotten
    ensures e in Run(s, run).forgotten && Lost(Run(s, run), e)
    decreases run
  {
    if run != [] {
      StepKeepsInv(s, run[0].p, run[0].step);
      ForgottenForever(Apply(s, run[0].p, run[0].step), run[1..], e);
    }
  }

  /** The lists and the lock: two processes are never inside at once. */
  lemma {:induction false} OneProcessInside(run: seq<Move>, p: Pid, q: Pid)
    requires CanRun(START, run) && InLock(At(Run(START, run), p)) && InLock(At(Run(START, run), q))
    ensures p == q
  {
    StartsSound();
    RunKeepsInv(START, run);
  }
}
