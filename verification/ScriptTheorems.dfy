/** What the structured semantics guarantees: how far a return and an exit reach, what the
    nesting limit does, and when a return inside a condition is harmless. */
module ScriptTheorems {
  import opened Wrappers
  import opened Script

  // ----- how far a return and an exit reach ---------------------------------------------------

  /** A place in a script: in a block between pre and post, directly or deeper inside. */
  datatype Place = Place(pre: Actions, frame: Frame, post: Actions)

  datatype Frame =
    | Here
    | InYes(cond: Expr, inner: Place, no: Option<Actions>)
    | InNo(cond: Expr, yes: Option<Actions>, inner: Place)
    | InRoute(table: int, inner: Place)
    | InCondition(where: CondPlace, yes: Option<Actions>, no: Option<Actions>)

  datatype CondPlace =
    | InCommand(inner: Place)
    | LeftOfAnd(where: CondPlace, right: Expr)
    | RightOfAnd(left: Expr, where: CondPlace)
    | LeftOfOr(where: CondPlace, right: Expr)
    | RightOfOr(left: Expr, where: CondPlace)
    | UnderNot(where: CondPlace)

  function Append(a: Actions, b: Actions): Actions {
    match a
    case End => b
    case Then(first, rest) => Then(first, Append(rest, b))
  }

  /** The block with action a at the place. */
  function Fill(p: Place, a: Action): Actions {
    Append(p.pre, Then(FillFrame(p.frame, a), p.post))
  }

  function FillFrame(f: Frame, a: Action): Action {
    match f
    case Here => a
    case InYes(cond, inner, no) => If(Some(cond), Some(Fill(inner, a)), no)
    case InNo(cond, yes, inner) => If(Some(cond), yes, Some(Fill(inner, a)))
    case InRoute(table, _) => Route(Some(table))
    case InCondition(wh, yes, no) => If(Some(FillCond(wh, a)), yes, no)
  }

  function FillCond(c: CondPlace, a: Action): Expr {
    match c
    case InCommand(inner) => Command(Fill(inner, a))
    case LeftOfAnd(wh, right) => And(FillCond(wh, a), right)
    case RightOfAnd(left, wh) => And(left, FillCond(wh, a))
    case LeftOfOr(wh, right) => Or(FillCond(wh, a), right)
    case RightOfOr(left, wh) => Or(left, FillCond(wh, a))
    case UnderNot(wh) => Not(FillCond(wh, a))
  }

  /** The routes a place goes through hold the rest of the place. */
  predicate Routed(w: World, p: Place, a: Action) {
    RoutedFrame(w, p.frame, a)
  }

  predicate RoutedFrame(w: World, f: Frame, a: Action) {
    match f
    case Here => true
    case InYes(_, inner, _) => Routed(w, inner, a)
    case InNo(_, _, inner) => Routed(w, inner, a)
    case InRoute(table, inner) => 0 <= table < |w.routes| && w.routes[table] == Fill(inner, a) && Routed(w, inner, a)
    case InCondition(wh, _, _) => RoutedCond(w, wh, a)
  }

  predicate RoutedCond(w: World, c: CondPlace, a: Action) {
    match c
    case InCommand(inner) => Routed(w, inner, a)
    case LeftOfAnd(wh, _) => RoutedCond(w, wh, a)
    case RightOfAnd(_, wh) => RoutedCond(w, wh, a)
    case LeftOfOr(wh, _) => RoutedCond(w, wh, a)
    case RightOfOr(_, wh) => RoutedCond(w, wh, a)
    case UnderNot(wh) => RoutedCond(w, wh, a)
  }

  datatype Arrival = Arrival(lev: nat, st: State)

  /** The level and state in which control reaches a place, starting a block at lev in st. */
  function Reach(w: World, absorb: bool, p: Place, lev: nat, st: State): Option<Arrival> {
    if lev >= ROUTE_MAX_REC_LEV then None
    else
      var r := RunList(w, absorb, p.pre, lev + 1, E_UNSPEC, st);
      if r.Exited? || r.st.returning then None else ReachFrame(w, absorb, p.frame, lev + 1, r.st)
  }

  function ReachFrame(w: World, absorb: bool, f: Frame, lev: nat, st: State): Option<Arrival>
    requires lev <= ROUTE_MAX_REC_LEV
  {
    match f
    case Here => Some(Arrival(lev, st))
    case InYes(cond, inner, _) =>
      var c := EvalExpr(w, absorb, cond, lev, st);
      if c.Exited? || c.ret <= 0 then None else Reach(w, absorb, inner, lev, c.st.(returning := false))
    case InNo(cond, _, inner) =>
      var c := EvalExpr(w, absorb, cond, lev, st);
      if c.Exited? || c.ret > 0 then None else Reach(w, absorb, inner, lev, c.st.(returning := false))
    case InRoute(_, inner) => Reach(w, absorb, inner, lev, st)
    case InCondition(wh, _, _) => ReachCond(w, absorb, wh, lev, st)
  }

  function ReachCond(w: World, absorb: bool, c: CondPlace, lev: nat, st: State): Option<Arrival>
    requires lev <= ROUTE_MAX_REC_LEV
  {
    match c
    case InCommand(inner) => Reach(w, absorb, inner, lev, st)
    case LeftOfAnd(wh, _) => ReachCond(w, absorb, wh, lev, st)
    case RightOfAnd(left, wh) =>
      var l := EvalExpr(w, absorb, left, lev, st);
      if l.Exited? || l.ret != 1 then None else ReachCond(w, absorb, wh, lev, l.st)
    case LeftOfOr(wh, _) => ReachCond(w, absorb, wh, lev, st)
    case RightOfOr(left, wh) =>
      var l := EvalExpr(w, absorb, left, lev, st);
      if l.Exited? || l.ret != 0 then None else ReachCond(w, absorb, wh, lev, l.st)
    case UnderNot(wh) => ReachCond(w, absorb, wh, lev, st)
  }

  /** Blocks and branches only: no route() call and no condition on the way. */
  predicate Enclosed(p: Place) {
    match p.frame
    case Here => true
    case InYes(_, inner, _) => Enclosed(inner)
    case InNo(_, _, inner) => Enclosed(inner)
    case _ => false
  }

  lemma {:induction false} ListRunsOn(w: World, absorb: bool, pre: Actions, rest: Actions, lev: nat, ret: int, st: State)
    requires lev <= ROUTE_MAX_REC_LEV
    ensures var r := RunList(w, absorb, pre, lev, ret, st);
            RunList(w, absorb, Append(pre, rest), lev, ret, st)
            == if r.Exited? || (pre != End && r.st.returning) then r else RunList(w, absorb, rest, lev, r.ret, r.st)
    decreases pre
  {
    match pre
    case End =>
    case Then(first, more) =>
      var r := RunAction(w, absorb, first, lev, st);
      if r.Ran? && !r.st.returning {
        ListRunsOn(w, absorb, more, rest, lev, r.ret, r.st);
      }
  }

  /** The start value of a block's result is overwritten by the first action. */
  lemma StartValue(w: World, absorb: bool, pre: Actions, lev: nat, ret: int, ret': int, st: State)
    requires lev <= ROUTE_MAX_REC_LEV
    ensures pre != End ==> RunList(w, absorb, pre, lev, ret, st) == RunList(w, absorb, pre, lev, ret', st)
    ensures pre == End ==> RunList(w, absorb, pre, lev, ret, st) == Ran(ret, st)
  {
  }

  lemma BlockStops(w: World, absorb: bool, p: Place, a: Action, lev: nat, st: State, r: Result)
    requires lev < ROUTE_MAX_REC_LEV
    requires var q := RunList(w, absorb, p.pre, lev + 1, E_UNSPEC, st);
             && q.Ran? && !q.st.returning
             && r == RunAction(w, absorb, FillFrame(p.frame, a), lev + 1, q.st)
    requires r.Exited? || r.st.returning
    ensures RunBlock(w, absorb, Fill(p, a), lev, st) == r
  {
    var rest := Then(FillFrame(p.frame, a), p.post);
    ListRunsOn(w, absorb, p.pre, rest, lev + 1, E_UNSPEC, st);
    StartValue(w, absorb, Fill(p, a), lev + 1, if Fill(p, a) == End then 1 else E_UNSPEC, E_UNSPEC, st);
  }

  /** A return that is reached stops every block around it, whatever else they contain. */
  lemma {:induction false} ReturnLeavesBlocks(w: World, absorb: bool, p: Place, a: Action, lev: nat, st: State)
    requires Enclosed(p) && Reach(w, absorb, p, lev, st).Some?
    requires var at := Reach(w, absorb, p, lev, st).value;
             at.lev <= ROUTE_MAX_REC_LEV
             && RunAction(w, absorb, a, at.lev, at.st).Ran? && RunAction(w, absorb, a, at.lev, at.st).st.returning
    ensures var at := Reach(w, absorb, p, lev, st).value;
            RunBlock(w, absorb, Fill(p, a), lev, st) == RunAction(w, absorb, a, at.lev, at.st)
    decreases p
  {
    var at := Reach(w, absorb, p, lev, st).value;
    var q := RunList(w, absorb, p.pre, lev + 1, E_UNSPEC, st);
    match p.frame {
      case Here =>
      case InYes(cond, inner, no) =>
        var c := EvalExpr(w, absorb, cond, lev + 1, q.st);
        ReturnLeavesBlocks(w, absorb, inner, a, lev + 1, c.st.(returning := false));
      case InNo(cond, yes, inner) =>
        var c := EvalExpr(w, absorb, cond, lev + 1, q.st);
        ReturnLeavesBlocks(w, absorb, inner, a, lev + 1, c.st.(returning := false));
    }
    BlockStops(w, absorb, p, a, lev, st, RunAction(w, absorb, a, at.lev, at.st));
  }

  /** ... and no more than its route: the call itself goes on, with the returned value. */
  lemma ReturnEndsAtRoute(w: World, absorb: bool, p: Place, a: Action, table: int, lev: nat, st: State)
    requires lev <= ROUTE_MAX_REC_LEV && 0 <= table < |w.routes| && w.routes[table] == Fill(p, a)
    requires Enclosed(p) && Reach(w, absorb, p, lev, st).Some?
    requires var at := Reach(w, absorb, p, lev, st).value;
             at.lev <= ROUTE_MAX_REC_LEV
             && RunAction(w, absorb, a, at.lev, at.st).Ran? && RunAction(w, absorb, a, at.lev, at.st).st.returning
    ensures var at := Reach(w, absorb, p, lev, st).value;
            var r := RunAction(w, absorb, a, at.lev, at.st);
            RunAction(w, absorb, Route(Some(table)), lev, st) == Ran(r.ret, State(r.ret, false, r.st.trace))
  {
    ReturnLeavesBlocks(w, absorb, p, a, lev, st);
  }

  /** An exit that is reached ends the whole run with its code, through blocks, conditions
      and route() calls alike. */
  lemma {:induction false} ExitLeavesEverything(w: World, absorb: bool, p: Place, a: Action, lev: nat, st: State)
    requires Routed(w, p, a) && Reach(w, absorb, p, lev, st).Some?
    requires var at := Reach(w, absorb, p, lev, st).value;
             at.lev <= ROUTE_MAX_REC_LEV && RunAction(w, absorb, a, at.lev, at.st).Exited?
    ensures var at := Reach(w, absorb, p, lev, st).value;
            RunBlock(w, absorb, Fill(p, a), lev, st) == RunAction(w, absorb, a, at.lev, at.st)
    decreases p
  {
    var at := Reach(w, absorb, p, lev, st).value;
    var q := RunList(w, absorb, p.pre, lev + 1, E_UNSPEC, st);
    match p.frame {
      case Here =>
      case InYes(cond, inner, no) =>
        var c := EvalExpr(w, absorb, cond, lev + 1, q.st);
        ExitLeavesEverything(w, absorb, inner, a, lev + 1, c.st.(returning := false));
      case InNo(cond, yes, inner) =>
        var c := EvalExpr(w, absorb, cond, lev + 1, q.st);
        ExitLeavesEverything(w, absorb, inner, a, lev + 1, c.st.(returning := false));
      case InRoute(table, inner) =>
        ExitLeavesEverything(w, absorb, inner, a, lev + 1, q.st);
      case InCondition(wh, yes, no) =>
        ExitLeavesCondition(w, absorb, wh, a, lev + 1, q.st);
    }
    BlockStops(w, absorb, p, a, lev, st, RunAction(w, absorb, a, at.lev, at.st));
  }

  lemma {:induction false} ExitLeavesCondition(w: World, absorb: bool, c: CondPlace, a: Action, lev: nat, st: State)
    requires lev <= ROUTE_MAX_REC_LEV && RoutedCond(w, c, a)
    requires ReachCond(w, absorb, c, lev, st).Some?
    requires var at := ReachCond(w, absorb, c, lev, st).value;
             at.lev <= ROUTE_MAX_REC_LEV && RunAction(w, absorb, a, at.lev, at.st).Exited?
    ensures var at := ReachCond(w, absorb, c, lev, st).value;
            EvalExpr(w, absorb, FillCond(c, a), lev, st) == RunAction(w, absorb, a, at.lev, at.st)
    decreases c
  {
    match c
    case InCommand(inner) => ExitLeavesEverything(w, absorb, inner, a, lev, st);
    case LeftOfAnd(wh, _) => ExitLeavesCondition(w, absorb, wh, a, lev, st);
    case RightOfAnd(left, wh) => ExitLeavesCondition(w, absorb, wh, a, lev, EvalExpr(w, absorb, left, lev, st).st);
    case LeftOfOr(wh, _) => ExitLeavesCondition(w, absorb, wh, a, lev, st);
    case RightOfOr(left, wh) => ExitLeavesCondition(w, absorb, wh, a, lev, EvalExpr(w, absorb, left, lev, st).st);
    case UnderNot(wh) => ExitLeavesCondition(w, absorb, wh, a, lev, st);
  }

  // ----- the nesting limit --------------------------------------------------------------------

  /** The worlds have the same outside and as many routes. */
  ghost predicate SameOutside(w: World, v: World) {
    |w.routes| == |v.routes| && w.call == v.call && w.act == v.act && w.test == v.test
  }

  /** At the limit no route, branch or command is entered: a block goes on as if the routes held
      anything else. */
  lemma {:induction false} LimitEntersNothing(w: World, v: World, absorb: bool, actions: Actions, ret: int, st: State)
    requires SameOutside(w, v)
    ensures RunList(w, absorb, actions, ROUTE_MAX_REC_LEV, ret, st) == RunList(v, absorb, actions, ROUTE_MAX_REC_LEV, ret, st)
    decreases actions
  {
    if actions.Then? {
      LimitAction(w, v, absorb, actions.first, st);
      var r := RunAction(w, absorb, actions.first, ROUTE_MAX_REC_LEV, st);
      if r.Ran? && !r.st.returning {
        LimitEntersNothing(w, v, absorb, actions.rest, r.ret, r.st);
      }
    }
  }

  lemma {:induction false} LimitAction(w: World, v: World, absorb: bool, a: Action, st: State)
    requires SameOutside(w, v)
    ensures RunAction(w, absorb, a, ROUTE_MAX_REC_LEV, st) == RunAction(v, absorb, a, ROUTE_MAX_REC_LEV, st)
  {
    if a.If? && a.cond.Some? {
      LimitCondition(w, v, absorb, a.cond.value, st);
    }
  }

  lemma {:induction false} LimitCondition(w: World, v: World, absorb: bool, e: Expr, st: State)
    requires SameOutside(w, v)
    ensures EvalExpr(w, absorb, e, ROUTE_MAX_REC_LEV, st) == EvalExpr(v, absorb, e, ROUTE_MAX_REC_LEV, st)
    decreases e
  {
    match e
    case And(left, right) =>
      LimitCondition(w, v, absorb, left, st);
      var l := EvalExpr(w, absorb, left, ROUTE_MAX_REC_LEV, st);
      LimitCondition(w, v, absorb, right, l.st);
    case Or(left, right) =>
      LimitCondition(w, v, absorb, left, st);
      var l := EvalExpr(w, absorb, left, ROUTE_MAX_REC_LEV, st);
      LimitCondition(w, v, absorb, right, l.st);
    case Not(arg) => LimitCondition(w, v, absorb, arg, st);
    case _ =>
  }

  function Times(n: nat, e: Event): seq<Event> {
    if n == 0 then [] else Times(n - 1, e) + [e]
  }

  /** A route that calls itself is entered once for every level that is left, then unwinds:
      the action behind the call happens exactly that many times. */
  lemma {:induction false} SelfCallUnwinds(w: World, absorb: bool, table: int, id: nat, lev: nat, st: State)
    requires 0 <= table < |w.routes| && !st.returning && lev <= ROUTE_MAX_REC_LEV
    requires w.routes[table] == Then(Route(Some(table)), Then(Other(id), End))
    ensures var r := RunBlock(w, absorb, w.routes[table], lev, st);
            && r.Ran? && !r.st.returning
            && r.st.trace == st.trace + Times(ROUTE_MAX_REC_LEV - lev, Did(id))
    decreases ROUTE_MAX_REC_LEV - lev
  {
    var body := w.routes[table];
    if lev < ROUTE_MAX_REC_LEV {
      SelfCallUnwinds(w, absorb, table, id, lev + 1, st);
      var inner := RunBlock(w, absorb, body, lev + 1, st);
      var st' := inner.st.(last := inner.ret, returning := false);
      assert RunAction(w, absorb, Route(Some(table)), lev + 1, st) == Ran(inner.ret, st');
      assert RunBlock(w, absorb, body, lev, st) == RunList(w, absorb, Then(Other(id), End), lev + 1, inner.ret, st');
      var r := RunAction(w, absorb, Other(id), lev + 1, st');
      assert RunList(w, absorb, Then(Other(id), End), lev + 1, inner.ret, st') == RunList(w, absorb, End, lev + 1, r.ret, r.st);
      assert (st.trace + Times(ROUTE_MAX_REC_LEV - lev - 1, Did(id))) + [Did(id)]
          == st.trace + Times(ROUTE_MAX_REC_LEV - lev, Did(id));
    } else {
      assert st.trace + [] == st.trace;
    }
  }

  // ----- returns inside conditions --------------------------------------------------------------

  /** The block may leave a return under way; an if catches those of its condition, a route()
      call those of the route. */
  predicate MayReturn(actions: Actions) {
    actions.Then? && (ActionMayReturn(actions.first) || MayReturn(actions.rest))
  }

  predicate ActionMayReturn(a: Action) {
    match a
    case Drop(_, _, setsReturn) => setsReturn
    case If(_, yes, no) => (yes.Some? && MayReturn(yes.value)) || (no.Some? && MayReturn(no.value))
    case _ => false
  }

  predicate CondMayReturn(e: Expr) {
    match e
    case And(left, right) => CondMayReturn(left) || CondMayReturn(right)
    case Or(left, right) => CondMayReturn(left) || CondMayReturn(right)
    case Not(arg) => CondMayReturn(arg)
    case Command(actions) => MayReturn(actions)
    case _ => false
  }

  /** A return under way cannot cut such a command short: nothing stands behind the first action,
      or that ends the block anyway, or it is a branch, which catches the return. */
  predicate Uncut(actions: Actions) {
    match actions
    case End => true
    case Then(Drop(_, setsExit, setsReturn), rest) => setsExit || setsReturn || rest == End
    case Then(Route(table), rest) => table.None? && rest == End
    case Then(If(Some(cond), _, _), _) => UncutCond(cond)
    case Then(_, rest) => rest == End
  }

  predicate UncutCond(e: Expr) {
    match e
    case And(left, right) => UncutCond(left) && UncutCond(right)
    case Or(left, right) => UncutCond(left) && UncutCond(right)
    case Not(arg) => UncutCond(arg)
    case Command(actions) => Uncut(actions)
    case _ => true
  }

  /** No condition has a command that can be cut short behind one that may return. */
  predicate Guarded(actions: Actions) {
    actions.Then? ==> GuardedAction(actions.first) && Guarded(actions.rest)
  }

  predicate GuardedAction(a: Action) {
    match a
    case If(cond, yes, no) =>
      && (cond.Some? ==> GuardedCond(cond.value))
      && (yes.Some? ==> Guarded(yes.value))
      && (no.Some? ==> Guarded(no.value))
    case _ => true
  }

  predicate GuardedCond(e: Expr) {
    match e
    case And(left, right) => GuardedCond(left) && GuardedCond(right) && (CondMayReturn(left) ==> UncutCond(right))
    case Or(left, right) => GuardedCond(left) && GuardedCond(right) && (CondMayReturn(left) ==> UncutCond(right))
    case Not(arg) => GuardedCond(arg)
    case Command(actions) => Guarded(actions)
    case _ => true
  }

  predicate GuardedRoutes(w: World) {
    forall i :: 0 <= i < |w.routes| ==> Guarded(w.routes[i])
  }

  /** The same result; behind an exit nobody asks whether a return was under way. */
  predicate SameRun(r: Result, clean: Result) {
    if r.Exited? && clean.Exited? then
      r.code == clean.code && r.st.(returning := false) == clean.st.(returning := false)
    else r == clean
  }

  lemma {:induction false} BlocksAgree(w: World, actions: Actions, lev: nat, st: State)
    requires GuardedRoutes(w) && Guarded(actions) && !st.returning
    ensures SameRun(RunBlock(w, false, actions, lev, st), RunBlock(w, true, actions, lev, st))
    ensures var r := RunBlock(w, true, actions, lev, st); r.Ran? && r.st.returning ==> MayReturn(actions)
    decreases ROUTE_MAX_REC_LEV - lev, 0
  {
    if lev < ROUTE_MAX_REC_LEV {
      ListsAgree(w, actions, lev + 1, if actions == End then 1 else E_UNSPEC, st);
    }
  }

  lemma {:induction false} ListsAgree(w: World, actions: Actions, lev: nat, ret: int, st: State)
    requires lev <= ROUTE_MAX_REC_LEV && GuardedRoutes(w) && Guarded(actions) && !st.returning
    ensures SameRun(RunList(w, false, actions, lev, ret, st), RunList(w, true, actions, lev, ret, st))
    ensures var r := RunList(w, true, actions, lev, ret, st); r.Ran? && r.st.returning ==> MayReturn(actions)
    decreases ROUTE_MAX_REC_LEV - lev, 1, actions
  {
    if actions.Then? {
      ActionsAgree(w, actions.first, lev, st);
      var r := RunAction(w, true, actions.first, lev, st);
      if r.Ran? && !r.st.returning {
        ListsAgree(w, actions.rest, lev, r.ret, r.st);
      }
    }
  }

  lemma {:induction false} ActionsAgree(w: World, a: Action, lev: nat, st: State)
    requires lev <= ROUTE_MAX_REC_LEV && GuardedRoutes(w) && GuardedAction(a) && !st.returning
    ensures SameRun(RunAction(w, false, a, lev, st), RunAction(w, true, a, lev, st))
    ensures var r := RunAction(w, true, a, lev, st); r.Ran? && r.st.returning ==> ActionMayReturn(a)
    decreases ROUTE_MAX_REC_LEV - lev, 1, a
  {
    match a
    case Route(Some(n)) =>
      if 0 <= n < |w.routes| {
        BlocksAgree(w, w.routes[n], lev, st);
      }
    case If(Some(cond), yes, no) =>
      CondsAgree(w, cond, lev, st, st);
      var c := EvalExpr(w, true, cond, lev, st);
      if c.Ran? {
        var branch := if c.ret > 0 then yes else no;
        if branch.Some? {
          BlocksAgree(w, branch.value, lev, c.st.(returning := false));
        }
      }
    case _ =>
  }

  /** Two results that differ at most in a return that is still under way in the first. */
  predicate SameButReturning(r: Result, clean: Result) {
    if r.Exited? || clean.Exited? then SameRun(r, clean)
    else r.ret == clean.ret && r.st.(returning := false) == clean.st
  }

  lemma {:induction false} CondsAgree(w: World, e: Expr, lev: nat, st: State, clean: State)
    requires lev <= ROUTE_MAX_REC_LEV && GuardedRoutes(w) && GuardedCond(e)
    requires st.(returning := false) == clean && (st.returning ==> UncutCond(e))
    ensures SameButReturning(EvalExpr(w, false, e, lev, st), EvalExpr(w, true, e, lev, clean))
    ensures var r := EvalExpr(w, false, e, lev, st); r.Ran? && r.st.returning ==> st.returning || CondMayReturn(e)
    decreases ROUTE_MAX_REC_LEV - lev, 1, e
  {
    match e
    case And(left, right) =>
      CondsAgree(w, left, lev, st, clean);
      var l, c := EvalExpr(w, false, left, lev, st), EvalExpr(w, true, left, lev, clean);
      if l.Ran? && l.ret == 1 {
        CondsAgree(w, right, lev, l.st, c.st);
      }
    case Or(left, right) =>
      CondsAgree(w, left, lev, st, clean);
      var l, c := EvalExpr(w, false, left, lev, st), EvalExpr(w, true, left, lev, clean);
      if l.Ran? && l.ret == 0 {
        CondsAgree(w, right, lev, l.st, c.st);
      }
    case Not(arg) =>
      CondsAgree(w, arg, lev, st, clean);
    case Command(actions) =>
      if st.returning {
        UncutAgrees(w, actions, lev, st);
      } else {
        BlocksAgree(w, actions, lev, st);
      }
    case _ =>
  }

  /** A return under way does not show in such a command. */
  lemma {:induction false} UncutAgrees(w: World, actions: Actions, lev: nat, st: State)
    requires lev <= ROUTE_MAX_REC_LEV && GuardedRoutes(w) && Guarded(actions) && Uncut(actions) && st.returning
    ensures SameButReturning(EvalExpr(w, false, Command(actions), lev, st),
                             EvalExpr(w, true, Command(actions), lev, st.(returning := false)))
    decreases ROUTE_MAX_REC_LEV - lev, 0
  {
    var clean := st.(returning := false);
    if lev >= ROUTE_MAX_REC_LEV {
      assert RunBlock(w, false, actions, lev, st) == Ran(E_UNSPEC, st);
      assert RunBlock(w, true, actions, lev, clean) == Ran(E_UNSPEC, clean);
    } else if actions == End {
      assert RunBlock(w, false, actions, lev, st) == Ran(1, st);
      assert RunBlock(w, true, actions, lev, clean) == Ran(1, clean);
    } else {
      BlockIsFirst(w, false, actions, lev, st);
      BlockIsFirst(w, true, actions, lev, clean);
      if actions.first.If? && actions.first.cond.Some? {
        BranchAgrees(w, actions.first, lev + 1, st);
        var r := RunAction(w, true, actions.first, lev + 1, clean);
        if r.Ran? && !r.st.returning {
          ListsAgree(w, actions.rest, lev + 1, r.ret, r.st);
        }
      }
    }
  }

  /** A branch forgets the return as soon as it has its condition. */
  lemma {:induction false} BranchAgrees(w: World, a: Action, lev: nat, st: State)
    requires lev <= ROUTE_MAX_REC_LEV && GuardedRoutes(w) && GuardedAction(a)
    requires a.If? && a.cond.Some? && UncutCond(a.cond.value)
    ensures SameRun(RunAction(w, false, a, lev, st), RunAction(w, true, a, lev, st.(returning := false)))
    decreases ROUTE_MAX_REC_LEV - lev, 1, a
  {
    var clean := st.(returning := false);
    CondsAgree(w, a.cond.value, lev, st, clean);
    var c := EvalExpr(w, true, a.cond.value, lev, clean);
    if c.Ran? {
      var branch := if c.ret > 0 then a.yes else a.no;
      if branch.Some? {
        BlocksAgree(w, branch.value, lev, c.st.(returning := false));
      }
    }
  }

  lemma {:induction false} BlockIsFirst(w: World, absorb: bool, actions: Actions, lev: nat, st: State)
    requires lev < ROUTE_MAX_REC_LEV && actions.Then?
    ensures var r := RunAction(w, absorb, actions.first, lev + 1, st);
      RunBlock(w, absorb, actions, lev, st)
      == if r.Exited? || r.st.returning then r else RunList(w, absorb, actions.rest, lev + 1, r.ret, r.st)
  {
  }

  /** For guarded scripts the interpreter's run is the one in which a return inside a
      condition ends just the command it stands in. */
  lemma GuardedScriptsRunCleanly(w: World, actions: Actions, trace: seq<Event>)
    requires GuardedRoutes(w) && Guarded(actions)
    ensures RunScript(w, false, actions, trace) == RunScript(w, true, actions, trace)
  {
    BlocksAgree(w, actions, 0, State(0, false, trace));
  }

  /** Without the guard a return left under way cuts the next command of the condition short:
      whatever its first action is, as long as it neither branches nor calls a route, nothing
      behind it runs. */
  lemma PendingReturnCutsShort(w: World, first: Action, rest: Actions, lev: nat, st: State)
    requires lev < ROUTE_MAX_REC_LEV && st.returning && !first.Route? && !first.If?
    ensures RunBlock(w, false, Then(first, rest), lev, st) == RunAction(w, false, first, lev + 1, st)
  {
  }

  // ----- a command cut short shows -----------------------------------------------------------

  /** The action leaves an event behind, whatever its result. */
  predicate Marks(a: Action) {
    a.Other? || (a.Module? && a.command.Some?)
  }

  /** Nothing that was done is taken back. */
  lemma {:induction false} BlockGrows(w: World, absorb: bool, actions: Actions, lev: nat, st: State)
    ensures |st.trace| <= |RunBlock(w, absorb, actions, lev, st).st.trace|
    decreases ROUTE_MAX_REC_LEV - lev, 0
  {
    if lev < ROUTE_MAX_REC_LEV {
      ListGrows(w, absorb, actions, lev + 1, if actions == End then 1 else E_UNSPEC, st);
    }
  }

  lemma {:induction false} ListGrows(w: World, absorb: bool, actions: Actions, lev: nat, ret: int, st: State)
    requires lev <= ROUTE_MAX_REC_LEV
    ensures |st.trace| <= |RunList(w, absorb, actions, lev, ret, st).st.trace|
    decreases ROUTE_MAX_REC_LEV - lev, 1, actions
  {
    if actions.Then? {
      ActionGrows(w, absorb, actions.first, lev, st);
      var r := RunAction(w, absorb, actions.first, lev, st);
      if r.Ran? && !r.st.returning {
        ListGrows(w, absorb, actions.rest, lev, r.ret, r.st);
      }
    }
  }

  lemma {:induction false} ActionGrows(w: World, absorb: bool, a: Action, lev: nat, st: State)
    requires lev <= ROUTE_MAX_REC_LEV
    ensures |st.trace| <= |RunAction(w, absorb, a, lev, st).st.trace|
    decreases ROUTE_MAX_REC_LEV - lev, 1, a
  {
    match a
    case Route(Some(n)) =>
      if 0 <= n < |w.routes| {
        BlockGrows(w, absorb, w.routes[n], lev, st);
      }
    case If(Some(cond), yes, no) =>
      CondGrows(w, absorb, cond, lev, st);
      var c := EvalExpr(w, absorb, cond, lev, st);
      var branch := if c.Ran? && c.ret > 0 then yes else no;
      if c.Ran? && branch.Some? {
        BlockGrows(w, absorb, branch.value, lev, c.st.(returning := false));
      }
    case _ =>
  }

  lemma {:induction false} CondGrows(w: World, absorb: bool, e: Expr, lev: nat, st: State)
    requires lev <= ROUTE_MAX_REC_LEV
    ensures |st.trace| <= |EvalExpr(w, absorb, e, lev, st).st.trace|
    decreases ROUTE_MAX_REC_LEV - lev, 1, e
  {
    match e
    case And(left, right) =>
      CondGrows(w, absorb, left, lev, st);
      CondGrows(w, absorb, right, lev, EvalExpr(w, absorb, left, lev, st).st);
    case Or(left, right) =>
      CondGrows(w, absorb, left, lev, st);
      CondGrows(w, absorb, right, lev, EvalExpr(w, absorb, left, lev, st).st);
    case Not(arg) => CondGrows(w, absorb, arg, lev, st);
    case Command(actions) => BlockGrows(w, absorb, actions, lev, st);
    case _ =>
  }

  /** A command whose first action goes on to a second one that leaves an event: with a return
      under way it always fares otherwise than without. */
  lemma CutShows(w: World, first: Action, second: Action, rest: Actions, lev: nat, st: State)
    requires lev < ROUTE_MAX_REC_LEV && st.returning && !first.Route? && !first.If? && Marks(second)
    requires var r := RunAction(w, true, first, lev + 1, st.(returning := false)); r.Ran? && !r.st.returning
    ensures !SameButReturning(EvalExpr(w, false, Command(Then(first, Then(second, rest))), lev, st),
                              EvalExpr(w, true, Command(Then(first, Then(second, rest))), lev, st.(returning := false)))
  {
    var clean, actions := st.(returning := false), Then(first, Then(second, rest));
    BlockIsFirst(w, false, actions, lev, st);
    BlockIsFirst(w, true, actions, lev, clean);
    var r := RunAction(w, true, first, lev + 1, clean);
    var r2 := RunAction(w, true, second, lev + 1, r.st);
    assert |r2.st.trace| == |r.st.trace| + 1;
    if r2.Ran? {
      ListGrows(w, true, rest, lev + 1, r2.ret, r2.st);
    }
  }

  /** Actions that run no script and end nothing. */
  predicate Plain(actions: Actions) {
    actions.Then? ==> actions.first.Other? && Plain(actions.rest)
  }

  /** A command of such actions survives a return under way exactly when the guard says so, that is
      when it has at most one. */
  lemma PlainCommandSurvivesIff(w: World, actions: Actions, lev: nat, st: State)
    requires Plain(actions) && lev < ROUTE_MAX_REC_LEV && st.returning
    ensures SameButReturning(EvalExpr(w, false, Command(actions), lev, st),
                             EvalExpr(w, true, Command(actions), lev, st.(returning := false)))
            <==> Uncut(actions)
    ensures Uncut(actions) <==> actions == End || actions.rest == End
  {
    var clean := st.(returning := false);
    if actions == End {
      assert RunBlock(w, false, actions, lev, st) == Ran(1, st);
      assert RunBlock(w, true, actions, lev, clean) == Ran(1, clean);
    } else if actions.rest == End {
      BlockIsFirst(w, false, actions, lev, st);
      BlockIsFirst(w, true, actions, lev, clean);
      var r := RunAction(w, true, actions.first, lev + 1, clean);
      assert RunList(w, true, End, lev + 1, r.ret, r.st) == r;
    } else {
      CutShows(w, actions.first, actions.rest.first, actions.rest.rest, lev, st);
    }
  }

  // { return 1; } && { a; b; } as a condition
  const LEAVE := Then(Drop(Some(1), false, true), End)
  const BOTH := Then(Other(7), Then(Other(8), End))
  const CUT_COND := And(Command(LEAVE), Command(BOTH))
  const CUT_SCRIPT := Then(If(Some(CUT_COND), None, None), End)

  lemma {:induction false} LeaveLeaves(w: World, absorb: bool, st: State)
    requires !st.returning
    ensures EvalExpr(w, absorb, Command(LEAVE), 1, st) == Ran(1, st.(returning := !absorb))
  {
    assert RunBlock(w, absorb, LEAVE, 1, st) == Ran(1, st.(returning := true));
  }

  lemma {:induction false} BothCutShort(w: World)
    requires w.act(7, []) > 0
    ensures EvalExpr(w, false, CUT_COND, 1, State(0, false, [])) == Ran(1, State(0, true, [Did(7)]))
  {
    var st := State(0, false, []);
    LeaveLeaves(w, false, st);
    PendingReturnCutsShort(w, Other(7), Then(Other(8), End), 1, st.(returning := true));
  }

  lemma {:induction false} BothDone(w: World)
    ensures var r := EvalExpr(w, true, CUT_COND, 1, State(0, false, []));
            r.Ran? && r.st == State(0, false, [Did(7), Did(8)])
  {
    var st, st7 := State(0, false, []), State(0, false, [Did(7)]);
    LeaveLeaves(w, true, st);
    assert RunList(w, true, Then(Other(8), End), 2, w.act(7, []), st7) == Ran(w.act(8, [Did(7)]), State(0, false, [Did(7), Did(8)]));
    assert RunAction(w, true, Other(7), 2, st) == Ran(w.act(7, []), st7);
    assert RunList(w, true, BOTH, 2, E_UNSPEC, st) == RunList(w, true, Then(Other(8), End), 2, w.act(7, []), st7);
    assert RunBlock(w, true, BOTH, 1, st) == Ran(w.act(8, [Did(7)]), State(0, false, [Did(7), Did(8)]));
  }

  /** In this script b is never done, although a return in front of it means only its own braces. */
  lemma {:induction false} UnguardedScriptIsCutShort(w: World)
    requires w.act(7, []) > 0
    ensures !Guarded(CUT_SCRIPT)
    ensures RunScript(w, false, CUT_SCRIPT, []) == (1, [Did(7)])
    ensures RunScript(w, true, CUT_SCRIPT, []) == (1, [Did(7), Did(8)])
  {
    BothCutShort(w);
    BothDone(w);
  }
}
