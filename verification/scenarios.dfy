/**
  Concrete and general consequences of the coordinator model for its
  clients: the sample program's registration order, an empty registry, and
  a closer registered twice.
 */
module Scenarios {
  import opened Wrappers
  import opened Closers
  import opened Shutdown

  /** The sample program: a struct handler first, then `Func(BarFunc)`. */
  const Foo: Closer := Struct(0)
  const Bar: Closer := Func("BarFunc")

  /**
    The sample program's run: the struct handler runs before the adapted
    function, and the drain cannot complete after only the first of them.
   */
  lemma ExampleClientOrder()
    ensures var q := Run(Init(), [RegisterStep(Foo), RegisterStep(Bar), SignalStep, InvokeStep]);
      q.Some? && q.value.trace == [Closed(0)] && Apply(q.value, CompleteStep).None?
    ensures Run(Init(), [RegisterStep(Foo), RegisterStep(Bar), SignalStep, InvokeStep, InvokeStep, CompleteStep])
         == Some(Queue(Completed, [Foo, Bar], [Closed(0), Call("BarFunc")], 1))
  {
    var q0 := Init();
    var q1 := Register(q0, Foo);
    var q2 := Register(q1, Bar);
    var q3 := Signal(q2);
    var q4 := InvokeNext(q3);
    var q5 := InvokeNext(q4);
    var q6 := Complete(q5);
    assert Run(q6, []) == Some(q6);
    assert Run(q5, [CompleteStep]) == Some(q6);
    assert Run(q4, [InvokeStep, CompleteStep]) == Some(q6);
    assert Run(q3, [InvokeStep]) == Some(q4);
    assert Run(q3, [InvokeStep, InvokeStep, CompleteStep]) == Some(q6);
    assert Run(q2, [SignalStep, InvokeStep]) == Some(q4);
    assert Run(q2, [SignalStep, InvokeStep, InvokeStep, CompleteStep]) == Some(q6);
    assert Run(q1, [RegisterStep(Bar), SignalStep, InvokeStep]) == Some(q4);
    assert Run(q1, [RegisterStep(Bar), SignalStep, InvokeStep, InvokeStep, CompleteStep]) == Some(q6);
    assert q4.trace == [Closed(0)];
    assert q2.registry == [Foo, Bar];
    assert q6 == Queue(Completed, [Foo, Bar], [Closed(0), Call("BarFunc")], 1);
  }

  /** With nothing registered, a signal is followed directly by completion with an empty trace. */
  lemma EmptyRegistryCompletes()
    ensures var q := Run(Init(), [SignalStep, CompleteStep]);
      q.Some? && q.value.trace == [] && WaitingShutDown(q.value) == Returned
  {
  }

  /**
    No deduplication: registering the same closer twice on top of any
    listening state makes its handler run two more times at drain time.
   */
  lemma RegisterTwiceRunsTwice(q: Queue, c: Closer)
    requires Inv(q) && q.phase == Listening
    ensures var q2 := Register(Register(q, c), c);
      var r := Run(q2, [SignalStep] + Invokes(|q2.registry|) + [CompleteStep]);
      && r.Some? && r.value.phase == Completed
      && multiset(r.value.trace)[OnShutdown(c)] == multiset(q.registry)[c] + 2
  {
    var q2 := Register(Register(q, c), c);
    SignalLeadsToCompletion(q2);
    InvokeAllCount(q2.registry, c);
    assert q2.registry == q.registry + [c, c];
  }

}
