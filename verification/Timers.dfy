/** The one sippy object both the controller and the transaction sweep cancel. */
module Timers {

  /** A one-shot `Timeout` of the event loop: armed until it fires or is cancelled. */
  class Timer {
    /** `cb_func is not None`: the loop will still call back. */
    var armed: bool

    /** How many times `cancel()` was called. */
    ghost var cancels: nat

    constructor ()
      ensures armed && cancels == 0
    {
      armed, cancels := true, 0;
    }

    /** Cancelling a timer that has already fired or been cancelled changes nothing the loop sees. */
    method Cancel()
      modifies this
      ensures !armed && cancels == old(cancels) + 1
    {
      armed, cancels := false, cancels + 1;
    }

    /** The loop runs the callback once and forgets the timer. */
    method Fire()
      requires armed
      modifies this`armed
      ensures !armed
    {
      armed := false;
    }
  }
}
