/** The interpreter as it runs: run_flags and last_retcode are global, rec_lev is stepped up
    and down by every block, and an exit jumps from wherever it happens to the outermost
    block.  jumped marks a longjmp on its way there; nothing runs until it arrives. */
module ScriptMachine {
  import opened Wrappers
  import opened Script

  class Interpreter {
    const w: World
    var exitFlag: bool       // EXIT_R_F of run_flags
    var returnFlag: bool     // RETURN_R_F of run_flags
    var lastRetcode: int
    var recLev: nat
    var trace: seq<Event>

    constructor (w: World)
      ensures this.w == w && recLev == 0
    {
      this.w, recLev := w, 0;
    }

    ghost function Now(): State
      reads this
    {
      State(lastRetcode, returnFlag, trace)
    }

    /** Between two actions of a block: at some level, and no exit is under way. */
    ghost predicate Running()
      reads this
    {
      1 <= recLev <= ROUTE_MAX_REC_LEV && !exitFlag
    }

    /** The machine's state after a piece of script that means r, run from level lev. */
    ghost predicate Agrees(r: Result, lev: nat, ret: int, jumped: bool)
      reads this
    {
      match r
      case Ran(ret', st) => !jumped && !exitFlag && recLev == lev && ret == ret' && Now() == st
      case Exited(code, st) => jumped && exitFlag && lastRetcode == code && trace == st.trace
    }

    /** run_actions. */
    method RunActions(a: Actions) returns (ret: int, jumped: bool)
      requires recLev <= ROUTE_MAX_REC_LEV && (recLev > 0 ==> Running())
      modifies this`exitFlag, this`returnFlag, this`lastRetcode, this`recLev, this`trace
      ensures old(recLev) > 0 ==> Agrees(RunBlock(w, false, a, old(recLev), old(Now())), old(recLev), ret, jumped)
      ensures old(recLev) == 0 ==> !jumped && recLev == 0 && (ret, trace) == RunScript(w, false, a, old(trace))
      decreases ROUTE_MAX_REC_LEV + 1 - recLev, 0
    {
      ghost var lev, st := recLev, if recLev == 0 then State(0, false, trace) else Now();
      ret := E_UNSPEC;
      recLev := recLev + 1;
      if recLev > ROUTE_MAX_REC_LEV {
        recLev := recLev - 1;
        return ret, false;
      }
      var outermost := recLev == 1;
      if outermost {
        exitFlag, returnFlag, lastRetcode := false, false, 0;
      }
      if a == End {
        ret := 1;
      }
      jumped := false;
      var t := a;
      while t != End
        invariant !jumped && !exitFlag && recLev == lev + 1
        invariant RunBlock(w, false, a, lev, st) == RunList(w, false, t, lev + 1, ret, Now())
        decreases t
      {
        ret, jumped := DoAction(t.first);
        if jumped {
          break;
        }
        if returnFlag || exitFlag {
          if exitFlag {
            lastRetcode := ret;
            jumped := true;
          }
          break;
        }
        t := t.rest;
      }
      if jumped {
        if !outermost {
          return ret, true;
        }
        recLev := 0;
        ret := lastRetcode;
        jumped := false;
      } else {
        recLev := recLev - 1;
      }
      if recLev == 0 && ret == 0 {
        trace := trace + [OnBreak];
      }
    }

    /** do_action, for the actions that steer the run.  An exit has only set its flag when it
        comes back from here; the block it is in makes the jump. */
    method DoAction(a: Action) returns (ret: int, jumped: bool)
      requires Running()
      modifies this`exitFlag, this`returnFlag, this`lastRetcode, this`recLev, this`trace
      ensures var r := RunAction(w, false, a, old(recLev), old(Now()));
              if exitFlag && !jumped
              then r.Exited? && ret == r.code && recLev == old(recLev) && trace == r.st.trace
              else Agrees(r, old(recLev), ret, jumped)
      decreases ROUTE_MAX_REC_LEV + 1 - recLev, 1, a
    {
      ret, jumped := E_BUG, false;
      match a {
        case Drop(code, setsExit, setsReturn) =>
          ret := if code.Some? then code.value else lastRetcode;
          exitFlag, returnFlag := exitFlag || setsExit, returnFlag || setsReturn;
        case Route(table) =>
          if table.None? {
            return;
          }
          if table.value >= |w.routes| || table.value < 0 {
            return E_CFG, false;
          }
          ret, jumped := RunActions(w.routes[table.value]);
          if jumped {
            return;
          }
          lastRetcode := ret;
          returnFlag := false;
        case If(cond, yes, no) =>
          if cond.Some? {
            var v;
            v, jumped := EvalExpr(cond.value);
            if jumped {
              return v, true;
            }
            if exitFlag {
              return 0, false;
            }
            returnFlag := false;
            ret := 1;
            if v > 0 {
              if yes.Some? {
                ret, jumped := RunActions(yes.value);
              }
            } else if no.Some? {
              ret, jumped := RunActions(no.value);
            }
          }
        case Module(command) =>
          if command.Some? {
            ret := w.call(command.value, trace);
            trace := trace + [Called(command.value)];
            if ret == 0 {
              exitFlag := true;
            }
            lastRetcode := ret;
          }
        case Other(id) =>
          ret := w.act(id, trace);
          trace := trace + [Did(id)];
      }
    }

    /** eval_expr, with the cases of eval_elem that depend on the interpreter. */
    method EvalExpr(e: Expr) returns (ret: int, jumped: bool)
      requires Running()
      modifies this`exitFlag, this`returnFlag, this`lastRetcode, this`recLev, this`trace
      ensures Agrees(Script.EvalExpr(w, false, e, old(recLev), old(Now())), old(recLev), ret, jumped)
      decreases ROUTE_MAX_REC_LEV + 1 - recLev, 1, e
    {
      jumped := false;
      match e {
        case And(left, right) =>
          ret, jumped := EvalExpr(left);
          if jumped || ret != 1 {
            return;
          }
          ret, jumped := EvalExpr(right);
        case Or(left, right) =>
          ret, jumped := EvalExpr(left);
          if jumped || ret != 0 {
            return;
          }
          ret, jumped := EvalExpr(right);
        case Not(arg) =>
          ret, jumped := EvalExpr(arg);
          if jumped || ret < 0 {
            return;
          }
          ret := if ret == 0 then 1 else 0;
        case Malformed =>
          ret := -1;
        case Number(value) =>
          ret := if value != 0 then 1 else 0;
        case RetCode(op, value) =>
          ret := CompNum(op, lastRetcode, value);
        case Command(actions) =>
          ret, jumped := RunActions(actions);
          if jumped {
            return;
          }
          ret := if ret <= 0 then 0 else 1;
        case Test(id) =>
          ret := w.test(id, trace);
          trace := trace + [Tested(id)];
      }
    }
  }
}
