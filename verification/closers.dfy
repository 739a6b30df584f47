/**
  The closeable capability of the shutdown package: anything with an
  `OnShutdown` operation, in its two shapes. A stateful handler (a struct
  implementing `GracefulClose`) is known by its object identity; a bare
  function adapted through the `Func` type is known by the function it wraps.
  Invoking a closer is modelled by the event it leaves in the shutdown trace.
 */
module Closers {

  /** Identity of a stateful handler object (a pointer, in the source). */
  type ObjectId = nat

  /** Name of a bare function that was converted to `Func`. */
  type FuncName = string

  /** A value satisfying `GracefulClose`. */
  datatype Closer =
    | Struct(id: ObjectId)   // a type with its own OnShutdown method
    | Func(fn: FuncName)     // the adapter: OnShutdown calls fn

  /** What running one shutdown handler leaves behind. */
  datatype Event =
    | Closed(obj: ObjectId)      // a struct handler's OnShutdown ran
    | Called(func: FuncName)     // a bare function ran

  /** The effect of calling a bare function directly, without the adapter. */
  function Call(fn: FuncName): Event
  {
    Called(fn)
  }

  /**
    `GracefulClose.OnShutdown`. On a `Func` it is exactly a call of the
    wrapped function, and no other closer leaves that call behind; a struct
    handler's event names that object and no other closer's.
   */
  function OnShutdown(c: Closer): (e: Event)
    ensures forall fn :: e == Call(fn) <==> c == Func(fn)
    ensures forall id :: e == Closed(id) <==> c == Struct(id)
  {
    match c
    case Struct(id) => Closed(id)
    case Func(fn) => Call(fn)
  }

  /** Distinct closers leave distinct events, so a trace tells which handlers ran. */
  lemma OnShutdownInjective(a: Closer, b: Closer)
    ensures OnShutdown(a) == OnShutdown(b) <==> a == b
  {
  }

  /** The events of invoking `cs` front to back, each exactly once. */
  function InvokeAll(cs: seq<Closer>): (es: seq<Event>)
    ensures |es| == |cs|
    ensures forall i :: 0 <= i < |cs| ==> es[i] == OnShutdown(cs[i])
  {
    if cs == [] then [] else [OnShutdown(cs[0])] + InvokeAll(cs[1..])
  }

  /** Extending the invoked prefix by one entry appends exactly that entry's event. */
  lemma InvokeAllPrefixStep(cs: seq<Closer>, n: nat)
    requires n < |cs|
    ensures InvokeAll(cs[..n + 1]) == InvokeAll(cs[..n]) + [OnShutdown(cs[n])]
  {
  }

  /**
    Each closer's event occurs in the invocation trace exactly as often as
    the closer occurs in the list: no handler is skipped, repeated or merged
    with another, and a closer listed twice runs twice.
   */
  lemma {:induction false} InvokeAllCount(cs: seq<Closer>, c: Closer)
    ensures multiset(InvokeAll(cs))[OnShutdown(c)] == multiset(cs)[c]
  {
    if cs != [] {
      InvokeAllCount(cs[1..], c);
      assert cs == [cs[0]] + cs[1..];
      assert InvokeAll(cs) == [OnShutdown(cs[0])] + InvokeAll(cs[1..]);
      OnShutdownInjective(cs[0], c);
    }
  }

}
