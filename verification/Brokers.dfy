/** One periodic broker: when it is due and how its completion is recorded. */
module Brokers {

  const SECOND := 1_000_000_000  // clock readings are nanoseconds since the epoch

  /** `time_since_epoch() / 1s`, which truncates toward zero. */
  function Seconds(t: int): int {
    if t >= 0 then t / SECOND else -(-t / SECOND)
  }

  /** The readiness test; `lastExecutionTime` and `timeout` are whole seconds, a zero timeout means a single shot. */
  predicate IsReady(lastExecutionTime: int, timeout: int, now: int) {
    var isNeverRun := lastExecutionTime == 0;
    var isSingleShot := timeout == 0;
    var isActualTimeout := Seconds(now) > lastExecutionTime + timeout;
    isNeverRun || (!isSingleShot && isActualTimeout)
  }

  class Broker {
    var lastExecutionTime: int
    const timeout: int
    const watch: bool

    constructor (inTimeout: int, inWatch: bool)
      ensures lastExecutionTime == 0 && timeout == inTimeout && watch == inWatch
    {
      lastExecutionTime, timeout, watch := 0, inTimeout, inWatch;
    }

    predicate IsTimeout(now: int)
      reads this
    {
      IsReady(lastExecutionTime, timeout, now)
    }

    /** From the recorded completion on the broker is next due between one timeout and a second more. */
    method SetExecutionTime(now: int)
      modifies this`lastExecutionTime
      ensures lastExecutionTime == Seconds(now)
      ensures -SECOND < now < SECOND ==> forall later: int :: IsTimeout(later)
      ensures !(-SECOND < now < SECOND) && timeout == 0 ==> forall later: int :: !IsTimeout(later)
      ensures !(-SECOND < now < SECOND) && timeout > 0 ==>
        forall later: int :: IsTimeout(later) ==> later > now + timeout * SECOND
      ensures now >= 0 && timeout > 0 ==>
        forall later: int :: later >= now + (timeout + 1) * SECOND ==> IsTimeout(later)
    {
      lastExecutionTime := Seconds(now);
      forall later: int {
        ReadyWindow(now, timeout, later);
      }
    }
  }

  lemma TruncationBounds(t: int)
    ensures Seconds(t) * SECOND <= t < (Seconds(t) + 1) * SECOND || t < 0
    ensures (Seconds(t) - 1) * SECOND < t <= Seconds(t) * SECOND || t > 0
    ensures Seconds(t) == 0 <==> -SECOND < t < SECOND
  {
    if t < 0 {
      var q := -t / SECOND;
      assert q * SECOND <= -t < (q + 1) * SECOND;
    }
  }

  /**
   Whole-second truncation delays a run by less than a second and makes it early only if the completion was less than
   a second from the epoch, which reads as never having run.
   */
  lemma ReadyWindow(completed: int, timeout: int, later: int)
    ensures -SECOND < completed < SECOND ==> IsReady(Seconds(completed), timeout, later)
    ensures !(-SECOND < completed < SECOND) && timeout == 0 ==> !IsReady(Seconds(completed), timeout, later)
    ensures !(-SECOND < completed < SECOND) && timeout > 0 && IsReady(Seconds(completed), timeout, later) ==>
      later > completed + timeout * SECOND
    ensures completed >= 0 && timeout > 0 && later >= completed + (timeout + 1) * SECOND ==>
      IsReady(Seconds(completed), timeout, later)
  {
    TruncationBounds(completed);
    TruncationBounds(later);
  }

  /** A single shot is ready again exactly if it was stamped less than a second from the epoch. */
  lemma SingleShotExactly(completed: int, later: int)
    ensures IsReady(Seconds(completed), 0, later) <==> -SECOND < completed < SECOND
  {
    TruncationBounds(completed);
  }

  /** `hasReadyTask`: whether any broker of the list is due when its turn comes; `clock[i]` is the reading then. */
  method HasReadyTask(brokers: seq<Broker>, clock: seq<int>) returns (ready: bool)
    requires |clock| == |brokers|
    ensures ready <==> exists i :: 0 <= i < |brokers| && brokers[i].IsTimeout(clock[i])
  {
    for i := 0 to |brokers|
      invariant forall j | 0 <= j < i :: !brokers[j].IsTimeout(clock[j])
    {
      if brokers[i].IsTimeout(clock[i]) {
        return true;
      }
    }
    return false;
  }
}
