/** The delay line between two modules. */
module Channels {
  import opened Options

  /** At the start of cycle `now`: nothing is overdue, nothing is due past the delay, and due times climb. */
  ghost predicate OnTime<T>(q: seq<(int, T)>, delay: nat, now: int) {
    && (forall k :: 0 <= k < |q| ==> now <= q[k].0 < now + delay - 1)
    && (forall k, l :: 0 <= k < l < |q| ==> q[k].0 < q[l].0)
  }

  class Channel<T> {
    const delay: nat
    var input: Option<T>
    var output: Option<T>
    var waitQueue: seq<(int, T)>

    constructor (delay: nat)
      requires delay > 0
      ensures this.delay == delay && input == None && output == None && waitQueue == []
    {
      this.delay := delay;
      input, output, waitQueue := None, None, [];
    }

    method Send(data: T)
      modifies this`input
      ensures input == Some(data)
    {
      input := Some(data);
    }

    method ReadInputs(now: int)
      requires delay > 0 && OnTime(waitQueue, delay, now)
      modifies this`input, this`waitQueue
      ensures input == None
      ensures waitQueue == old(waitQueue) + match old(input) { case None => [] case Some(x) => [(now + delay - 1, x)] }
      ensures OnTime(waitQueue, delay + 1, now)
    {
      if input.Some? {
        waitQueue := waitQueue + [(now + delay - 1, input.value)];
        input := None;
      }
    }

    /** Exactly the item due now comes out, so every item stays on the channel for exactly its delay and none
        overtakes another. */
    method WriteOutputs(now: int)
      requires delay > 0 && OnTime(waitQueue, delay + 1, now)
      modifies this`output, this`waitQueue
      ensures output == None ==> waitQueue == old(waitQueue) && forall k :: 0 <= k < |waitQueue| ==> waitQueue[k].0 != now
      ensures output.Some? ==> old(waitQueue) == [(now, output.value)] + waitQueue
      ensures OnTime(waitQueue, delay, now + 1)
    {
      output := None;
      if waitQueue == [] || now < waitQueue[0].0 {
        return;
      }
      assert waitQueue[0].0 == now;
      output := Some(waitQueue[0].1);
      waitQueue := waitQueue[1..];
    }
  }
}
