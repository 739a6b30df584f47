/**
  The process-wide shutdown coordinator (`ShutdownQueue` plus the completion
  channel), as an immutable state and one transition per atomic step:
  `Register` appends a closer, `Signal` is the listener receiving the first
  termination signal, `InvokeNext` is one iteration of the drain loop and
  `Complete` is the single send on the completion channel together with the
  waiter's receive (the channel is unbuffered, so the two meet).
 */
module Shutdown {
  import opened Wrappers
  import opened Closers

  /** Listening until the first signal, then draining, then completed; never back. */
  datatype Phase = Listening | Draining | Completed

  /**
    The coordinator. `registry` is the ordered closer list, `trace` the
    events of the handlers run so far (the drain loop's position is its
    length) and `fired` the number of sends on the completion channel.
   */
  datatype Queue = Queue(phase: Phase, registry: seq<Closer>, trace: seq<Event>, fired: nat)

  /** Position of a phase in the forward order Listening, Draining, Completed. */
  function Rank(p: Phase): nat
  {
    match p
    case Listening => 0
    case Draining => 1
    case Completed => 2
  }

  predicate IsPrefix<T(==)>(a: seq<T>, b: seq<T>)
  {
    |a| <= |b| && a == b[..|a|]
  }

  /**
    What holds in every state the coordinator can reach: the trace is the
    registry's prefix run front to back, nothing runs before the signal,
    completion has fired once in the completed phase and never before it,
    and that phase holds only after the whole registry has run.
   */
  predicate Inv(q: Queue)
  {
    && q.fired == (if q.phase == Completed then 1 else 0)
    && |q.trace| <= |q.registry|
    && q.trace == InvokeAll(q.registry[..|q.trace|])
    && (q.phase == Listening ==> q.trace == [])
    && (q.phase == Completed ==> |q.trace| == |q.registry|)
  }

  /** Package initialisation: an empty list, a fresh channel and the listener started. */
  function Init(): (q: Queue)
    ensures Inv(q)
    ensures q.phase == Listening && q.registry == [] && q.fired == 0
  {
    Queue(Listening, [], [], 0)
  }

  /**
    `Register`: append one closer at the back, with no check and no
    deduplication. Registration that races the drain is a data race in the
    source, so the model only registers while listening.
   */
  function Register(q: Queue, c: Closer): (q': Queue)
    requires q.phase == Listening
    ensures q'.registry == q.registry + [c]
    ensures |q'.registry| == |q.registry| + 1 && q'.registry[|q.registry|] == c
    ensures q'.phase == q.phase && q'.trace == q.trace && q'.fired == q.fired
    ensures Inv(q) ==> Inv(q')
  {
    q.(registry := q.registry + [c])
  }

  /**
    The listener's single receive of a termination signal. Only the first
    signal starts the drain; the listener never receives again, so a later
    signal changes nothing.
   */
  function Signal(q: Queue): (q': Queue)
    ensures q.phase == Listening ==> q'.phase == Draining
    ensures q.phase != Listening ==> q' == q
    ensures q'.registry == q.registry && q'.trace == q.trace && q'.fired == q.fired
    ensures Inv(q) ==> Inv(q')
  {
    if q.phase == Listening then q.(phase := Draining) else q
  }

  /**
    One iteration of the drain loop: the next closer in registration order
    has its `OnShutdown` run to completion before anything else happens.
   */
  function InvokeNext(q: Queue): (q': Queue)
    requires q.phase == Draining && |q.trace| < |q.registry|
    ensures q'.trace == q.trace + [OnShutdown(q.registry[|q.trace|])]
    ensures q'.phase == Draining && q'.registry == q.registry && q'.fired == q.fired
    ensures Inv(q) ==> Inv(q')
  {
    InvokeAllPrefixStep(q.registry, |q.trace|);
    q.(trace := q.trace + [OnShutdown(q.registry[|q.trace|])])
  }

  /**
    The send on the completion channel after the loop has reached the end of
    the list; it is the listener's last action.
   */
  function Complete(q: Queue): (q': Queue)
    requires q.phase == Draining && |q.trace| == |q.registry|
    ensures q'.phase == Completed && q'.fired == q.fired + 1
    ensures q'.registry == q.registry && q'.trace == q.trace
    ensures Inv(q) ==> Inv(q') && q'.trace == InvokeAll(q'.registry)
  {
    q.(phase := Completed, fired := q.fired + 1)
  }

  datatype WaitOutcome = Blocked | Returned

  /**
    `WaitingShutDown`: the caller returns once the completion signal has
    fired and is blocked before; when it returns every handler has run.
   */
  function WaitingShutDown(q: Queue): (w: WaitOutcome)
    ensures w == Returned ==> q.fired > 0
    ensures Inv(q) && w == Returned ==> q.phase == Completed && q.trace == InvokeAll(q.registry)
    ensures Inv(q) && q.phase == Completed ==> w == Returned
  {
    if q.fired > 0 then Returned else Blocked
  }

  /** Once the waiter is released, each registered closer has run exactly as often as it was registered. */
  lemma WaitReturnsEachInvokedOnce(q: Queue, c: Closer)
    requires Inv(q) && WaitingShutDown(q) == Returned
    ensures multiset(q.trace)[OnShutdown(c)] == multiset(q.registry)[c]
  {
    InvokeAllCount(q.registry, c);
  }

  /** The atomic steps the coordinator and its clients can take. */
  datatype Step =
    | RegisterStep(closer: Closer)
    | SignalStep
    | InvokeStep
    | CompleteStep

  /**
    Take one step, or `None` when the step cannot happen from `q`: the
    loop is not at that point, or (for `Register`) the drain has begun.
   */
  function Apply(q: Queue, s: Step): (r: Option<Queue>)
    ensures s.RegisterStep? ==> (r.Some? <==> q.phase == Listening)
    ensures s.SignalStep? ==> r.Some?
    ensures s.InvokeStep? ==> (r.Some? <==> q.phase == Draining && |q.trace| < |q.registry|)
    ensures s.CompleteStep? ==> (r.Some? <==> q.phase == Draining && |q.trace| == |q.registry|)
    ensures r.Some? ==> Rank(q.phase) <= Rank(r.value.phase)
    ensures r.Some? ==> IsPrefix(q.registry, r.value.registry) && IsPrefix(q.trace, r.value.trace)
    ensures r.Some? && Inv(q) ==> Inv(r.value)
  {
    match s
    case RegisterStep(c) =>
      if q.phase == Listening then Some(Register(q, c)) else None
    case SignalStep =>
      Some(Signal(q))
    case InvokeStep =>
      if q.phase == Draining && |q.trace| < |q.registry| then Some(InvokeNext(q)) else None
    case CompleteStep =>
      if q.phase == Draining && |q.trace| == |q.registry| then Some(Complete(q)) else None
  }

  /** Take the steps in order; `None` as soon as one cannot be taken. */
  function Run(q: Queue, steps: seq<Step>): Option<Queue>
    decreases |steps|
  {
    if steps == [] then Some(q)
    else
      match Apply(q, steps[0])
      case None => None
      case Some(q1) => Run(q1, steps[1..])
  }

  /** Every state reachable from one satisfying `Inv` satisfies it too. */
  lemma {:induction false} RunPreservesInv(q: Queue, steps: seq<Step>)
    requires Inv(q)
    ensures Run(q, steps).Some? ==> Inv(Run(q, steps).value)
    decreases |steps|
  {
    if steps != [] {
      match Apply(q, steps[0])
      case None =>
      case Some(q1) => RunPreservesInv(q1, steps[1..]);
    }
  }

  /**
    Along any run the phase only moves forward, the registry only grows at
    the back and the trace only grows at the back: no handler is ever
    un-run and nothing returns to listening.
   */
  lemma {:induction false} RunMonotone(q: Queue, steps: seq<Step>)
    ensures Run(q, steps).Some? ==>
      && Rank(q.phase) <= Rank(Run(q, steps).value.phase)
      && IsPrefix(q.registry, Run(q, steps).value.registry)
      && IsPrefix(q.trace, Run(q, steps).value.trace)
    decreases |steps|
  {
    if steps != [] {
      match Apply(q, steps[0])
      case None =>
      case Some(q1) =>
        RunMonotone(q1, steps[1..]);
        var r := Run(q1, steps[1..]);
        if r.Some? {
          assert q.registry == q1.registry[..|q.registry|];
          assert q1.registry == r.value.registry[..|q1.registry|];
          assert q.trace == q1.trace[..|q.trace|];
          assert q1.trace == r.value.trace[..|q1.trace|];
        }
    }
  }

  /**
    In every state reachable from initialisation the handlers run so far
    are exactly the first registered ones in registration order, and once
    `WaitingShutDown` can return they are all of them.
   */
  lemma ReachableTraceIsRegistryPrefix(steps: seq<Step>)
    ensures Run(Init(), steps).Some? ==>
      var q := Run(Init(), steps).value;
      && |q.trace| <= |q.registry|
      && (forall i :: 0 <= i < |q.trace| ==> q.trace[i] == OnShutdown(q.registry[i]))
      && q.fired <= 1
      && (WaitingShutDown(q) == Returned ==> q.trace == InvokeAll(q.registry))
  {
    RunPreservesInv(Init(), steps);
  }

  /** The first signal starts the drain; any further signal is ignored. */
  lemma SignalOnce(q: Queue)
    ensures Signal(Signal(q)) == Signal(q)
    ensures Signal(q).phase != Listening
  {
  }

  /** A step sequence of `n` drain-loop iterations. */
  function Invokes(n: nat): (steps: seq<Step>)
    ensures |steps| == n && forall i :: 0 <= i < n ==> steps[i] == InvokeStep
  {
    if n == 0 then [] else [InvokeStep] + Invokes(n - 1)
  }

  /**
    From any draining state the loop can run the remaining closers and then
    fire completion, with the full registry in the trace: the drain always
    ends, including with an empty registry. Handlers are opaque here and
    never register further closers during the drain.
   */
  lemma {:induction false} DrainFinishes(q: Queue)
    requires Inv(q) && q.phase == Draining
    ensures Run(q, Invokes(|q.registry| - |q.trace|) + [CompleteStep])
         == Some(Queue(Completed, q.registry, InvokeAll(q.registry), 1))
    decreases |q.registry| - |q.trace|
  {
    var k := |q.registry| - |q.trace|;
    if k == 0 {
      assert Invokes(0) + [CompleteStep] == [CompleteStep];
      assert q.registry[..|q.trace|] == q.registry;
    } else {
      var q1 := InvokeNext(q);
      DrainFinishes(q1);
      var steps := Invokes(k) + [CompleteStep];
      assert steps[0] == InvokeStep;
      assert steps[1..] == Invokes(k - 1) + [CompleteStep];
      assert Apply(q, InvokeStep) == Some(q1);
    }
  }

  /** A signal to a listening coordinator leads to completion of the whole registry. */
  lemma SignalLeadsToCompletion(q: Queue)
    requires Inv(q) && q.phase == Listening
    ensures Run(q, [SignalStep] + Invokes(|q.registry|) + [CompleteStep])
         == Some(Queue(Completed, q.registry, InvokeAll(q.registry), 1))
  {
    var q1 := Signal(q);
    DrainFinishes(q1);
    var steps := [SignalStep] + Invokes(|q.registry|) + [CompleteStep];
    assert steps[1..] == Invokes(|q.registry|) + [CompleteStep];
  }

}
