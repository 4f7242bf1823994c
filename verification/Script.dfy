/** Routing scripts: their syntax, and a structured meaning without flags, jumps or a level
    counter that is stepped up and down.  A piece of script either runs on, runs on with a
    return under way, or ends the whole run. */
module Script {
  import opened Wrappers

  const ROUTE_MAX_REC_LEV: nat := 100
  const E_UNSPEC := -1
  const E_BUG := -5
  const E_CFG := -6

  /** A list of actions, linked as in the configuration parser; End is the null list. */
  datatype Actions = End | Then(first: Action, rest: Actions)

  datatype Action =
    | Drop(code: Option<int>, setsExit: bool, setsReturn: bool)  // drop, return, break; no code: the last one
    | Route(table: Option<int>)                             // None: the argument is not a number
    | If(cond: Option<Expr>, yes: Option<Actions>, no: Option<Actions>)
    | Module(command: Option<nat>)                         // None: nothing to call
    | Other(id: nat)                                        // any action that runs no script and sets no flag

  datatype CompOp = EqualOp | DiffOp | GtOp | LtOp | GteOp | LteOp | OtherOp

  datatype Expr =
    | And(left: Expr, right: Expr)
    | Or(left: Expr, right: Expr)
    | Not(arg: Expr)
    | Malformed                                             // an unknown operator or node
    | Number(value: int)
    | RetCode(op: CompOp, value: int)
    | Command(actions: Actions)                             // actions used as a condition
    | Test(id: nat)                                         // any other comparison

  /** What a script does to the world, in order. */
  datatype Event = Called(command: nat) | Did(id: nat) | Tested(id: nat) | OnBreak

  /** The route table, and the results of everything outside the interpreter, each of which
      may depend on all that has happened so far. */
  datatype World = World(
    routes: seq<Actions>,
    call: (nat, seq<Event>) -> int,
    act: (nat, seq<Event>) -> int,
    test: (nat, seq<Event>) -> int)

  datatype State = State(last: int, returning: bool, trace: seq<Event>)

  /** Ran: execution goes on in st, where returning says that a return is under way.
      Exited: the whole run is over, with this code. */
  datatype Result = Ran(ret: int, st: State) | Exited(code: int, st: State)

  function CompNum(op: CompOp, left: int, right: int): int {
    match op
    case EqualOp => if left == right then 1 else 0
    case DiffOp => if left != right then 1 else 0
    case GtOp => if left > right then 1 else 0
    case LtOp => if left < right then 1 else 0
    case GteOp => if left >= right then 1 else 0
    case LteOp => if left <= right then 1 else 0
    case OtherOp => E_BUG
  }

  // ----- the structured semantics -------------------------------------------------------------
  // absorb tells what becomes of a return inside a condition: true, the command that contains
  // it simply ends; false, it stays under way until the enclosing if has its condition.

  /** A block of actions entered from level lev; the nesting limit makes it fail at once. */
  function RunBlock(w: World, absorb: bool, actions: Actions, lev: nat, st: State): Result
    decreases ROUTE_MAX_REC_LEV - lev, 0
  {
    if lev >= ROUTE_MAX_REC_LEV then Ran(E_UNSPEC, st)
    else RunList(w, absorb, actions, lev + 1, if actions == End then 1 else E_UNSPEC, st)
  }

  function RunList(w: World, absorb: bool, actions: Actions, lev: nat, ret: int, st: State): Result
    requires lev <= ROUTE_MAX_REC_LEV
    decreases ROUTE_MAX_REC_LEV - lev, 1, actions
  {
    match actions
    case End => Ran(ret, st)
    case Then(first, rest) =>
      var r := RunAction(w, absorb, first, lev, st);
      if r.Exited? || r.st.returning then r else RunList(w, absorb, rest, lev, r.ret, r.st)
  }

  function RunAction(w: World, absorb: bool, a: Action, lev: nat, st: State): Result
    requires lev <= ROUTE_MAX_REC_LEV
    decreases ROUTE_MAX_REC_LEV - lev, 1, a
  {
    match a
    case Drop(code, setsExit, setsReturn) =>
      var ret := if code.Some? then code.value else st.last;
      var st' := st.(returning := st.returning || setsReturn);
      if setsExit then Exited(ret, st'.(last := ret)) else Ran(ret, st')
    case Route(None) => Ran(E_BUG, st)
    case Route(Some(n)) =>
      if n >= |w.routes| || n < 0 then Ran(E_CFG, st)
      else
        var r := RunBlock(w, absorb, w.routes[n], lev, st);
        if r.Exited? then r else Ran(r.ret, r.st.(last := r.ret, returning := false))
    case If(None, _, _) => Ran(E_BUG, st)
    case If(Some(cond), yes, no) =>
      var c := EvalExpr(w, absorb, cond, lev, st);
      if c.Exited? then c
      else
        var branch := if c.ret > 0 then yes else no;
        var st' := c.st.(returning := false);
        if branch.None? then Ran(1, st') else RunBlock(w, absorb, branch.value, lev, st')
    case Module(None) => Ran(E_BUG, st)
    case Module(Some(f)) =>
      var ret := w.call(f, st.trace);
      var st' := st.(last := ret, trace := st.trace + [Called(f)]);
      if ret == 0 then Exited(ret, st') else Ran(ret, st')
    case Other(id) =>
      Ran(w.act(id, st.trace), st.(trace := st.trace + [Did(id)]))
  }

  function EvalExpr(w: World, absorb: bool, e: Expr, lev: nat, st: State): Result
    requires lev <= ROUTE_MAX_REC_LEV
    decreases ROUTE_MAX_REC_LEV - lev, 1, e
  {
    match e
    case And(left, right) =>
      var l := EvalExpr(w, absorb, left, lev, st);
      if l.Exited? || l.ret != 1 then l else EvalExpr(w, absorb, right, lev, l.st)
    case Or(left, right) =>
      var l := EvalExpr(w, absorb, left, lev, st);
      if l.Exited? || l.ret != 0 then l else EvalExpr(w, absorb, right, lev, l.st)
    case Not(arg) =>
      var r := EvalExpr(w, absorb, arg, lev, st);
      if r.Exited? || r.ret < 0 then r else r.(ret := if r.ret == 0 then 1 else 0)
    case Malformed => Ran(-1, st)
    case Number(value) => Ran(if value != 0 then 1 else 0, st)
    case RetCode(op, value) => Ran(CompNum(op, st.last, value), st)
    case Command(actions) =>
      var r := RunBlock(w, absorb, actions, lev, st);
      if r.Exited? then r
      else Ran(if r.ret <= 0 then 0 else 1, r.st.(returning := r.st.returning && !absorb))
    case Test(id) =>
      Ran(w.test(id, st.trace), st.(trace := st.trace + [Tested(id)]))
  }

  /** A whole run, started outside any script. */
  function RunScript(w: World, absorb: bool, actions: Actions, trace: seq<Event>): (int, seq<Event>) {
    var r := RunBlock(w, absorb, actions, 0, State(0, false, trace));
    var code := if r.Exited? then r.code else r.ret;
    (code, if code == 0 then r.st.trace + [OnBreak] else r.st.trace)
  }
}
