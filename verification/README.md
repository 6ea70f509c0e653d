# gator command registry, modelled in Dafny

gator is a small command-line front end. Each typed command name maps to a registered
handler function. This project models that command registry (`commands.go`):

- a `command`: a name plus an ordered list of argument strings;
- a `commands` value: it owns a map from command name to handler;
- `register`: writes a handler into that map in place, and a later registration of the same name silently replaces the earlier one;
- `run`: looks up the command's name exactly. A missing name gives the error `"command not found"`. A found name calls its handler with the same state and command and returns the handler's error unchanged.

The model is one module, `Registry`, in `registry.dfy`:

- `Commands<S>` is a class whose field `legitCommands: map<string, Handler<S>>` is updated in place by `Register`. `Run` only reads it and has no `modifies` clause, so the verifier checks that `Run`'s own code never changes the registry.
- The program state (Go's `*state`) is the type parameter `S`. A handler is a total function `(S, Command) -> Step<S>`: it returns the state it leaves behind and its error (`Outcome`: `Success` for a nil error, `Failure(message)` otherwise). For a registered name the result is the handler's own result `h(s, cmd)`; for a missing name it is the fixed step pairing the unchanged state with "command not found", which depends on no handler.
- The specification functions are `Registered` (one `register` on a map value), `Dispatch` (what `run` yields) and `RegisterAll` (a start-up sequence of registrations, applied in order). Lemmas relate them across several calls.

## Model

| member | source | states |
|---|---|---|
| `Registry.Registered` | commands.go:14-16 | binding `name` to `f` makes `name` select `f`; the key set becomes the old keys plus `name`; every other name keeps its handler |
| `Registry.Commands.constructor` | commands.go:10-12 | a new registry holds an initialised, empty map of command names to handlers; it stands for the caller's `make(map…)` initialisation, which belongs to the program's entry point, outside this model (Go's zero `commands` value has a nil map) |
| `Registry.Commands.Register` | commands.go:14-16 | the new map is the old map with `name` bound to `f`, whether or not `name` was bound before (silent replacement, no error). `name` now maps to `f`, the keys are the old keys plus `name`, and all other entries are unchanged |
| `Registry.Commands.Run` | commands.go:18-24 | for a registered `cmd.name`, the result is exactly that handler's result on the same state and command. For an unregistered name, the result is the fixed step `Step(s, Failure("command not found"))`, which depends on no handler. The registry is unchanged because the method has no modifies clause |
| `Registry.RunAfterRegister` | commands.go:14-24 | after `register(name, f)`, running `name` calls `f`; running any other name gives the same result as before the registration |
| `Registry.ArgsDoNotSelectHandler` | commands.go:19 | two commands with the same name either reach the same registered handler, each with its own arguments, or both fail with "command not found"; the arguments play no part in the lookup (the same rule as `Run`'s first two clauses, stated over `Dispatch` for the other lemmas) |
| `Registry.RegisteredNames` | commands.go:15 | after a sequence of registrations, the registered names are the earlier names plus every name that the sequence registers |
| `Registry.LastRegistrationWins` | commands.go:14-24 | if registration `i` is the last one of a name, running that name calls registration `i`'s handler, whatever was registered under that name before |
| `Registry.UnregisteredNameUnaffected` | commands.go:14-24 | a name that no registration in a sequence mentions runs exactly as it did before the sequence |
| `Registry.ReRegisterThenRun` | commands.go:14-24 | registering "x" with `h1` and then `h2`, then running "x", gives `h2(s, Command("x", args))`, the second handler's result on that command |
| `Registry.NameMatchIsExact` | commands.go:18-22 | with only "login" registered, running "Login" gives the "command not found" error and leaves the state unchanged, because names match case-sensitively |

## Left out

- Configuration store (`internal/config/config.go`): `SetUser`, `Read` and `write` have empty bodies, so they have no behaviour to model. `getConfigFilePath` only asks the operating system for the home directory and joins a path. The JSON encoding of `Config` is done by Go's `encoding/json`, which is not part of this model.
- `handlerLogin` (`handler_user.go`) is one particular handler. It prints to standard output and calls the empty `SetUser`. Inside the registry every handler is an opaque function value. Its argument check builds an error and then discards it, so it does not work as a usage check.
- The zero `commands` value: its Go map is nil, and `register` on a nil map panics. The model always starts from the constructor's empty map, which stands for the caller's `make(map…)`. The entry point that does this and wires up the handlers is not part of this model.
- A nil handler: Go lets `register` store a nil function, and `run` on that name then panics. Handlers here are total Dafny functions, so they cannot be nil.
- Handler panics and non-termination: `run` calls the handler directly (commands.go:23), so a handler that panics makes `run` panic. For example, `handlerLogin` indexes `cmd.Args[0]` on an empty argument list (handler_user.go:12). Handlers here are total Dafny functions, so neither panics nor non-termination can be expressed.
- Whether a handler was invoked, and how many times: handlers are pure functions here, so only their result is observable. A handler that returns its input state, or the same step as the not-found case, cannot be told apart from no call. Two equal handlers registered one after the other cannot be told apart either.
- Shared mutation through `*state`: the handler receives a pointer and may change the state in place. The model instead threads the state through the handler by value: `Step.state` is the state after the call. Aliasing between the state and other objects is not captured.
- Handlers reaching the registry: in Go a handler is any function value, so a closure that captured the `commands` value could call `register` while `run` is calling it (commands.go:23). Handlers here are pure functions that cannot reach the registry, so that re-entrant change is not captured.
- Concurrency: the registry has no synchronisation, and concurrent `register`/`run` calls are outside this model.
