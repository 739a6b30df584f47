/**
  The background listener started at package initialisation: it waits for
  the first termination signal, runs every registered closer front to back,
  one at a time, and then sends once on the completion channel.
 */
module Listener {
  import opened Closers
  import opened Shutdown

  /** `waitingSignal`, from the signal receipt to the completion send. */
  method WaitingSignal(q: Queue) returns (done: Queue)
    requires Inv(q) && q.phase == Listening
    ensures done.registry == q.registry
    ensures |done.trace| == |q.registry|
    ensures forall i :: 0 <= i < |q.registry| ==> done.trace[i] == OnShutdown(q.registry[i])
    ensures done.phase == Completed && done.fired == 1
    ensures WaitingShutDown(done) == Returned
  {
    var cur := Signal(q);
    var i := 0;
    while i < |cur.registry|
      invariant 0 <= i <= |q.registry|
      invariant cur.phase == Draining && cur.registry == q.registry && cur.fired == 0
      invariant cur.trace == InvokeAll(q.registry[..i])
    {
      cur := InvokeNext(cur);
      i := i + 1;
    }
    assert q.registry[..i] == q.registry;
    done := Complete(cur);
  }

}
