/**
 * BlockingQueueTimer: the wheel's tick source. It waits one interval by
 * polling an always-empty blocking queue with a timeout; the wait itself is
 * real time and is not modelled, only its configuration and its failure mode.
 */
module Timer {
  import opened Wrappers

  /** The shortest interval a timer accepts, in milliseconds. */
  const MinimumInterval: int := 100

  /** MinimumIntervalException: the minimum and the interval that was refused. */
  datatype MinimumIntervalError = MinimumIntervalError(minimum: int, given: int)

  class BlockingQueueTimer {
    /** Milliseconds per tick; assigned once by the constructor and never again. */
    const interval: int

    ghost predicate Valid() {
      interval >= MinimumInterval
    }

    /** The part of the Java constructor after its check has passed. */
    constructor (interval: int)
      requires interval >= MinimumInterval
      ensures Valid() && this.interval == interval
    {
      this.interval := interval;
    }

    /**
     * One tick. Whether the wait ends by timeout or by interruption, the
     * interruption is swallowed and the call returns normally; the object is
     * left as it was.
     */
    method Once(interrupted: bool)
      ensures unchanged(this)
    {
      if interrupted {
        // the InterruptedException is caught and only printed
      }
    }

    function GetInterval(): (r: int)
      requires Valid()
      ensures r == interval && r >= MinimumInterval
    {
      interval
    }
  }

  /**
   * The Java constructor `new BlockingQueueTimer(interval)`: it throws
   * MinimumIntervalException exactly when the interval is below the minimum,
   * so an interval of exactly 100 ms is accepted.
   */
  method NewTimer(interval: int) returns (r: Result<BlockingQueueTimer, MinimumIntervalError>)
    ensures r.Err? <==> interval < MinimumInterval
    ensures r.Err? ==> r.error == MinimumIntervalError(MinimumInterval, interval)
    ensures r.Ok? ==> fresh(r.value) && r.value.Valid() && r.value.interval == interval
  {
    if interval < MinimumInterval {
      return Err(MinimumIntervalError(MinimumInterval, interval));
    }
    var t := new BlockingQueueTimer(interval);
    return Ok(t);
  }
}
