# Graceful shutdown coordinator, modelled in Dafny

The Go package `shutdown` keeps one process-wide queue of closers. Application
code registers closers while the process runs. A background listener, started
when the package is initialised, waits for the first interrupt signal. It then
calls every registered closer's `OnShutdown`, front to back and one at a time.
Finally it sends once on the completion channel, which releases the caller
blocked in `WaitingShutDown`.

This project models the coordinator as an immutable state, `Shutdown.Queue`,
with four fields:

- the phase, `Listening`, then `Draining`, then `Completed`;
- the registry, an ordered sequence of closers;
- the trace, the events of the handlers run so far;
- `fired`, the number of sends on the completion channel.

Goroutine start, mutex, channel and signal delivery are each treated as one
atomic transition. The transitions are:

- `Register` appends to the registry;
- `Signal` is the listener's single receive of a termination signal;
- `InvokeNext` is one iteration of the drain loop;
- `Complete` is the completion send. The channel is unbuffered, so this send
  is the same event as the waiter's receive.

`Step`, `Apply` and `Run` make these transitions into a transition system.
`Inv` is the invariant of every state reachable from `Init`: the trace is the
registry's prefix run in order, and completion has fired once in the completed
phase and never before it, and that phase is reached only after the whole
registry has run. The listener goroutine is the method
`Listener.WaitingSignal`. Its loop invariant says that after `i` iterations the
trace is the first `i` closers invoked in order.

Closers are `Closers.Closer`. `Struct(id)` is a stateful handler known by its
object identity. `Func(fn)` is the adapter around a bare function. Invoking a
closer yields an `Event`. The adapter's event is exactly the event of calling
the wrapped function (`Call`).

Files: `wrappers.dfy` (an `Option` type), `closers.dfy`, `shutdown.dfy`,
`listener.dfy` and `scenarios.dfy`.

## Model

| member | source | states |
|---|---|---|
| Closers.OnShutdown | gracefully_shutdown.go:25-29 | A closer's `OnShutdown` leaves a call of function `fn` exactly when the closer is the adapter `Func(fn)`, and leaves object `id` closed exactly when the closer is that struct handler: the adapter behaves as the wrapped function and as nothing else |
| Closers.OnShutdownInjective | gracefully_shutdown.go:13-29 | Two closers leave the same event exactly when they are the same closer, so the trace identifies which handlers ran |
| Closers.InvokeAll | gracefully_shutdown.go:71-78 | Walking a closer list front to back yields one event per entry, and the event at position i is entry i's `OnShutdown` |
| Closers.InvokeAllCount | gracefully_shutdown.go:71-78 | Every closer's event occurs in the walk exactly as many times as the closer occurs in the list, so nothing is skipped or deduplicated |
| Shutdown.Init | gracefully_shutdown.go:54-58 | Initialisation gives an empty list, a listening coordinator and no completion yet, and this state satisfies the invariant |
| Shutdown.Register | gracefully_shutdown.go:39-44 | Registration appends exactly one entry at the back; earlier entries, the phase, the trace and the completion count stay the same; the invariant is preserved |
| Shutdown.Signal | gracefully_shutdown.go:61-65 | The first signal moves a listening coordinator to draining; any later signal leaves the state unchanged; the invariant is preserved |
| Shutdown.InvokeNext | gracefully_shutdown.go:71-78 | One loop iteration appends the event of the next closer in registration order and changes nothing else; the invariant is preserved |
| Shutdown.Complete | gracefully_shutdown.go:78-84 | Completion is allowed only once the loop has reached the end of the list; it fires once and leaves the trace equal to the whole registry invoked in order |
| Shutdown.WaitingShutDown | gracefully_shutdown.go:47-50 | The waiter returns only once completion has fired, and then the trace is the whole registry invoked in order; once the coordinator is completed the waiter does return |
| Shutdown.WaitReturnsEachInvokedOnce | gracefully_shutdown.go:47-50 | When the waiter returns, each closer has run exactly as often as it was registered |
| Shutdown.Apply | gracefully_shutdown.go:39-84 | Says when each step can be taken: registration only while listening, a drain step only while entries remain, completion only at the end. Every step moves the phase forward, only extends the registry and the trace, and preserves the invariant |
| Shutdown.RunPreservesInv | gracefully_shutdown.go:39-84 | Every state reachable by any sequence of steps satisfies the invariant |
| Shutdown.RunMonotone | gracefully_shutdown.go:54-84 | Along any run the phase never goes back, and the registry and the trace are each a prefix of their later values |
| Shutdown.ReachableTraceIsRegistryPrefix | gracefully_shutdown.go:71-84 | In every state reachable from initialisation, the handlers run so far are the first registered ones in order. Completion fires at most once, and when the waiter can return the trace is the whole registry |
| Shutdown.SignalOnce | gracefully_shutdown.go:65 | A signal never leaves the coordinator listening, and a second signal changes nothing |
| Shutdown.DrainFinishes | gracefully_shutdown.go:71-84 | From any draining state, running the remaining loop iterations and then the completion step reaches the completed state whose trace is the whole registry |
| Shutdown.SignalLeadsToCompletion | gracefully_shutdown.go:65-84 | From a listening state, a signal, one iteration per registered closer and the completion send reach the completed state with the full trace |
| Listener.WaitingSignal | gracefully_shutdown.go:61-86 | The listener's drain loop runs each registered closer exactly once in registration order, fires completion once, and leaves the waiter released |
| Scenarios.ExampleClientOrder | example/example.go:20-25 | In the sample program the struct handler runs before the adapted function, and completion cannot fire after only the first of them |
| Scenarios.EmptyRegistryCompletes | gracefully_shutdown.go:71-84 | With nothing registered, a signal followed by completion releases the waiter with an empty trace |
| Scenarios.RegisterTwiceRunsTwice | gracefully_shutdown.go:39-44 | Registering the same closer twice makes its handler run two more times at drain time |

## Left out

- Subscribing to OS signals and choosing which ones (gracefully_shutdown.go:62-63) is OS I/O. The signal is an abstract `Signal` step. `os.Kill` cannot be caught on POSIX systems, so only the interrupt actually reaches the listener.
- Goroutines, the mutex and channel operations are concurrency machinery. Each is an atomic transition, and interleavings are not modelled.
- Shutdown.Register: requires the listening phase. In the source, a registration racing the drain loop from another goroutine is a data race, because the loop reads the list without the lock. A registration after completion is appended but never run. A registration made by a handler inside its own `OnShutdown` runs on the listener goroutine, so it is no race: `PushBack` succeeds and `e.Next()` (gracefully_shutdown.go:71) visits the new entry in the same drain, and a handler that always registers another closer makes the drain never end. None of these cases is modelled, and `Shutdown.DrainFinishes` holds only for handlers that do not register.
- A nil closer is not modelled: `Closer` has no nil case. The source accepts `Register(nil)` without validation (gracefully_shutdown.go:39-43), and the drain then panics at the type assertion on gracefully_shutdown.go:72; `Func(nil)` panics the same way at gracefully_shutdown.go:28. The panic is not recovered, so later handlers never run and completion never fires.
- Shutdown.WaitingShutDown: only one waiter is modelled. There is a single send on an unbuffered channel, so the source releases exactly one waiting caller, and any other caller blocks forever. The source also leaves the listener blocked at the send until some caller waits; the model merges the send and the receive into `Complete`.
- Listener.WaitingSignal: requires `Inv` of its starting state. `Shutdown.RunPreservesInv` shows that every state reachable from `Init` satisfies `Inv`.
- Logging and the `%T` runtime type names (gracefully_shutdown.go:64-82) are side-effect output with no format contract.
- `container/list` is replaced by a Dafny sequence.
- Handler panics and hangs are left out. Handlers are opaque and always return. A panicking handler would stop the drain in the source, and completion would never fire.
- The commented-out `os.Exit(0)` (gracefully_shutdown.go:49) is dead code.
