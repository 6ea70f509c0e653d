/**
 * The command registry of the gator command-line front end: a map from a
 * command name to the handler that implements it, filled in place by
 * `register` and consulted by `run`, which dispatches one command by exact
 * name match.
 *
 * The program state that Go passes to every handler as `*state` is the type
 * parameter `S`. A handler may change that state, so here it returns the
 * state it leaves behind together with the error it reports. For a name
 * that is not registered, `run` yields the fixed step that pairs the
 * unchanged state with "command not found", which depends on no handler.
 */
module Registry {

  /** One parsed invocation: a command name and its ordered arguments. */
  datatype Command = Command(name: string, args: seq<string>)

  /** Go's `error` result: nil (`Success`) or an error with its message. */
  datatype Outcome = Success | Failure(message: string)

  /** The message of the error `run` reports for a name nobody registered. */
  const NotFoundMessage: string := "command not found"

  /** What one call leaves behind: the program state after it and its error. */
  datatype Step<S> = Step(state: S, outcome: Outcome)

  /** A handler: the program state and the command in, the new state and an error out. */
  type Handler<!S> = (S, Command) -> Step<S>

  /** One `register` call at start-up: a name and the handler to bind it to. */
  datatype Registration<!S> = Registration(name: string, handler: Handler<S>)

  /**
   * The registry after binding `name` to `f`: `name` now selects `f`, whether
   * or not it was bound before, and every other binding is kept.
   */
  function Registered<S>(m: map<string, Handler<S>>, name: string, f: Handler<S>): (r: map<string, Handler<S>>)
    ensures name in r && r[name] == f
    ensures r.Keys == m.Keys + {name}
    ensures forall n :: n in m && n != name ==> r[n] == m[n]
  {
    m[name := f]
  }

  /** What `run` yields for `cmd` against the registry `m` in state `s`. */
  function Dispatch<S>(m: map<string, Handler<S>>, s: S, cmd: Command): (r: Step<S>)
  {
    if cmd.name in m then m[cmd.name](s, cmd) else Step(s, Failure(NotFoundMessage))
  }

  /** The registry after the registrations `regs`, made one after another, starting from `m`. */
  function RegisterAll<S>(m: map<string, Handler<S>>, regs: seq<Registration<S>>): (r: map<string, Handler<S>>)
  {
    if regs == [] then m
    else
      var last := regs[|regs| - 1];
      Registered(RegisterAll(m, regs[..|regs| - 1]), last.name, last.handler)
  }

  /** The names bound by the registrations `regs`. */
  function Names<S>(regs: seq<Registration<S>>): (r: set<string>)
  {
    set j | 0 <= j < |regs| :: regs[j].name
  }

  class Commands<S> {
    /** The registry: each registered command name and its handler. */
    var legitCommands: map<string, Handler<S>>

    /**
     * A registry with an initialised, empty map. This stands for the caller's
     * `make(map…)` before the first `register`; Go's zero `commands` value
     * holds a nil map, and writing to it panics.
     */
    constructor ()
      ensures legitCommands == map[]
    {
      legitCommands := map[];
    }

    /** Binds `name` to `f`, silently replacing any handler bound to it before. */
    method Register(name: string, f: Handler<S>)
      modifies this
      ensures legitCommands == Registered(old(legitCommands), name, f)
      ensures legitCommands[name] == f
      ensures legitCommands.Keys == old(legitCommands.Keys) + {name}
      ensures forall n :: n in old(legitCommands) && n != name ==> legitCommands[n] == old(legitCommands)[n]
    {
      legitCommands := legitCommands[name := f];
    }

    /**
     * Runs `cmd`: the result is that of the handler registered under exactly
     * `cmd.name`, applied to the same state and command and passed back
     * unchanged; for an unregistered name it is the fixed step pairing `s`
     * with "command not found". The registry itself is not changed (no
     * modifies clause).
     */
    method Run(s: S, cmd: Command) returns (r: Step<S>)
      ensures cmd.name in legitCommands ==> r == legitCommands[cmd.name](s, cmd)
      ensures cmd.name !in legitCommands ==> r == Step(s, Failure(NotFoundMessage))
      ensures r == Dispatch(legitCommands, s, cmd)
    {
      if cmd.name !in legitCommands {
        return Step(s, Failure(NotFoundMessage));
      }
      var f := legitCommands[cmd.name];
      r := f(s, cmd);
    }
  }

  /** After `register(name, f)`, `run` for `name` uses `f`, and every other name behaves as before. */
  lemma RunAfterRegister<S>(m: map<string, Handler<S>>, name: string, f: Handler<S>, s: S, cmd: Command)
    ensures cmd.name == name ==> Dispatch(Registered(m, name, f), s, cmd) == f(s, cmd)
    ensures cmd.name != name ==> Dispatch(Registered(m, name, f), s, cmd) == Dispatch(m, s, cmd)
  {
  }

  /**
   * Only the name selects the handler: two commands with the same name reach
   * the same handler (each with its own arguments), or both are not found.
   * This is the selection rule of `Commands.Run`'s first two ensures clauses,
   * stated over `Dispatch` for use by other lemmas.
   */
  lemma ArgsDoNotSelectHandler<S>(m: map<string, Handler<S>>, s: S, c1: Command, c2: Command)
    requires c1.name == c2.name
    ensures c1.name in m ==> Dispatch(m, s, c1) == m[c1.name](s, c1) && Dispatch(m, s, c2) == m[c1.name](s, c2)
    ensures c1.name !in m ==> Dispatch(m, s, c1) == Dispatch(m, s, c2) == Step(s, Failure(NotFoundMessage))
  {
  }

  /** The names registered after a start-up sequence are the earlier ones plus every name it registers. */
  lemma {:induction false} RegisteredNames<S>(m: map<string, Handler<S>>, regs: seq<Registration<S>>)
    ensures RegisterAll(m, regs).Keys == m.Keys + Names(regs)
  {
    if regs != [] {
      var init := regs[..|regs| - 1];
      RegisteredNames(m, init);
      assert Names(regs) == Names(init) + {regs[|regs| - 1].name} by {
        forall n | n in Names(regs) ensures n in Names(init) + {regs[|regs| - 1].name} {
          var j :| 0 <= j < |regs| && regs[j].name == n;
          if j < |regs| - 1 {
            assert init[j].name == n;
          }
        }
        forall n | n in Names(init) ensures n in Names(regs) {
          var j :| 0 <= j < |init| && init[j].name == n;
          assert regs[j].name == n;
        }
      }
    }
  }

  /**
   * Last registration wins: when registration `i` is the last one of
   * `cmd.name`, `run` calls its handler, whatever was registered before.
   */
  lemma {:induction false} LastRegistrationWins<S>(m: map<string, Handler<S>>, regs: seq<Registration<S>>, i: nat, s: S, cmd: Command)
    requires i < |regs| && regs[i].name == cmd.name
    requires forall j :: i < j < |regs| ==> regs[j].name != cmd.name
    ensures Dispatch(RegisterAll(m, regs), s, cmd) == regs[i].handler(s, cmd)
  {
    var init := regs[..|regs| - 1];
    if i < |regs| - 1 {
      LastRegistrationWins(m, init, i, s, cmd);
      RunAfterRegister(RegisterAll(m, init), regs[|regs| - 1].name, regs[|regs| - 1].handler, s, cmd);
    }
  }

  /** A name no registration mentions runs against the registry as it was before them. */
  lemma {:induction false} UnregisteredNameUnaffected<S>(m: map<string, Handler<S>>, regs: seq<Registration<S>>, s: S, cmd: Command)
    requires forall j :: 0 <= j < |regs| ==> regs[j].name != cmd.name
    ensures Dispatch(RegisterAll(m, regs), s, cmd) == Dispatch(m, s, cmd)
  {
    if regs != [] {
      var init := regs[..|regs| - 1];
      UnregisteredNameUnaffected(m, init, s, cmd);
      RunAfterRegister(RegisterAll(m, init), regs[|regs| - 1].name, regs[|regs| - 1].handler, s, cmd);
    }
  }

  /** Registering "x" twice and running "x" yields the second handler's result on that command. */
  method ReRegisterThenRun<S>(h1: Handler<S>, h2: Handler<S>, s: S, args: seq<string>) returns (r: Step<S>)
    ensures r == h2(s, Command("x", args))
  {
    var c := new Commands<S>();
    c.Register("x", h1);
    c.Register("x", h2);
    r := c.Run(s, Command("x", args));
  }

  /** Names match exactly: with only "login" registered, "Login" is not found and the state is untouched. */
  method NameMatchIsExact<S>(h: Handler<S>, s: S, args: seq<string>) returns (r: Step<S>)
    ensures r == Step(s, Failure(NotFoundMessage))
  {
    var c := new Commands<S>();
    c.Register("login", h);
    r := c.Run(s, Command("Login", args));
  }
}
