/** The re-arming countdown of the asteroids game (`makeTimeoutCallback` in src/Asteroids/Game.tsx). */
module Asteroids {

  /** `f(from) + ... + f(to - 1)`. */
  function Sum(f: nat -> int, from: nat, to: nat): int
    decreases to
  {
    if to <= from then 0 else Sum(f, from, to - 1) + f(to - 1)
  }

  /**
   * The closure returned by `makeTimeoutCallback(initialWait, callback)`: `counter` is its
   * captured variable; `callback(k)` is what the k-th call of the user callback returns
   * (times are whole milliseconds).
   */
  class TimeoutCallback {
    var counter: int
    /** How many times the user callback has been called. */
    var calls: nat
    const callback: nat -> int

    constructor(initialWait: int, callback: nat -> int)
      ensures counter == initialWait && calls == 0 && this.callback == callback
    {
      counter := initialWait;
      calls := 0;
      this.callback := callback;
    }

    /**
     * `updater(timeSinceLastUpdate)`: subtract the elapsed time, then call the callback and add
     * its result while the counter is negative. The loop ends only because every callback
     * result is positive.
     */
    method Updater(timeSinceLastUpdate: int)
      requires forall k :: k >= calls ==> callback(k) > 0
      modifies this
      ensures counter >= 0
      ensures calls >= old(calls)
      ensures counter == old(counter) - timeSinceLastUpdate + Sum(callback, old(calls), calls)
      ensures old(counter) - timeSinceLastUpdate >= 0 ==> calls == old(calls)
      ensures calls > old(calls) ==> counter - callback(calls - 1) < 0
    {
      counter := counter - timeSinceLastUpdate;
      ghost var start := counter;
      while counter < 0
        invariant calls >= old(calls)
        invariant counter == start + Sum(callback, old(calls), calls)
        invariant start >= 0 ==> calls == old(calls)
        invariant calls > old(calls) ==> counter - callback(calls - 1) < 0
        decreases -counter
      {
        counter := counter + callback(calls);
        calls := calls + 1;
      }
    }
  }
}
