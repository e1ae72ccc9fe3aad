/** The optional `deadline_timer` of a watcher: whether it exists, how many waits are pending on
    it, and how many completed waits have a handler that is dispatched but has not run yet.
    Cancelling makes pending waits complete with an error, on which the handlers return at once;
    it cannot call back a handler already dispatched.
 */
module Timers {

  datatype Timer = Timer(made: bool, waiting: nat, dispatched: nat)

  const NO_TIMER := Timer(false, 0, 0)

  // `expires_from_now`, which cancels pending waits, and then `async_wait`.
  function Arm(t: Timer): Timer {
    if !t.made then t
    else
      var cancelled := t.(waiting := 0);
      cancelled.(waiting := cancelled.waiting + 1)
  }

  // `call`: make the timer if there is none, and arm it.
  function Start(t: Timer): Timer {
    if t.made then t else Arm(t.(made := true))
  }

  // `cancel` and `reset`
  function Stop(t: Timer): Timer {
    if t.made then t.(made := false, waiting := 0) else t
  }

  // A pending wait runs out.
  function Expire(t: Timer): Timer
    requires t.waiting > 0
  {
    t.(waiting := t.waiting - 1, dispatched := t.dispatched + 1)
  }

  // A dispatched handler begins to run.
  function Run(t: Timer): Timer
    requires t.dispatched > 0
  {
    t.(dispatched := t.dispatched - 1)
  }

  // At most one tick is on its way, exactly one while the timer exists, and none is waited for
  // without a timer.
  predicate OneTick(t: Timer) {
    && t.waiting + t.dispatched <= 1
    && (t.made ==> t.waiting + t.dispatched == 1)
    && (!t.made ==> t.waiting == 0)
  }
}
