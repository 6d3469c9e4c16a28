/**
 * TimeWheel: a single ring of `slotNum` slots, each `milliSecondsPerSlot`
 * long, a `(point, round)` cursor, and an intake queue of descriptors. The
 * Java wheel runs `tick(); collect();` forever on its own thread and hands
 * each due bucket to an executor; here one loop iteration is RunOnce, the
 * clock reading is a parameter, and the executor's task is Dispatch, run
 * synchronously between the tick and the collect.
 */
module Wheel {
  import opened Wrappers
  import opened JavaArith
  import opened Descriptor
  import opened Slots
  import opened WheelSpec
  import Timer

  class TimeWheel<E> {
    const slotNum: int
    const milliSecondsPerSlot: int
    const tickTimer: Timer.BlockingQueueTimer
    /** Filled by the constructor, one slot per ring position, never changed after. */
    const slotList: seq<Slot<E>>

    var point: int
    var round: int
    var collectQueue: seq<EventDescriptor<E>>

    /**
     * Whether the wheel thread has ended. A failed lookup in `collect` throws
     * out of the thread's loop, which nothing catches, so that thread ticks
     * no more. A later `start()` would run the loop again on the same state;
     * `start()` is not modelled, so here `stopped` is final.
     */
    var stopped: bool

    /** The callbacks made on events so far, in order. */
    ghost var trace: seq<Callback<E>>

    ghost predicate Valid()
      reads this
    {
      && Geo().Valid()
      && tickTimer.Valid() && tickTimer.interval == milliSecondsPerSlot
      && |slotList| == slotNum
      && (forall i, j :: 0 <= i < j < |slotList| ==> slotList[i] != slotList[j])
      && (forall i :: 0 <= i < |slotList| ==> slotList[i].index == i)
      && Within(Geo(), Cur())
    }

    function Geo(): (g: Geometry) {
      Geometry(slotNum, milliSecondsPerSlot)
    }

    function Cur(): (c: Cursor)
      reads this
    {
      Cursor(point, round)
    }

    /** The maps of all slots, slot `i` at position `i`. */
    ghost function Buckets(): (r: Ring<E>)
      reads slotList
      ensures |r| == |slotList|
    {
      seq(|slotList|, i reads slotList requires 0 <= i < |slotList| => slotList[i].eventMap)
    }

    /**
     * The private Java constructor, after the timer has been built: one empty
     * slot per position, slot `i` with index `i`, the cursor at `(0, 0)` and
     * an empty queue.
     */
    constructor Init(slotNum: int, milliSecondsPerSlot: int, tickTimer: Timer.BlockingQueueTimer)
      requires Geometry(slotNum, milliSecondsPerSlot).Valid()
      requires tickTimer.Valid() && tickTimer.interval == milliSecondsPerSlot
      ensures Valid()
      ensures this.slotNum == slotNum && this.milliSecondsPerSlot == milliSecondsPerSlot
      ensures forall i :: 0 <= i < |slotList| ==> fresh(slotList[i])
      ensures Buckets() == seq(slotNum, i => map[])
      ensures point == 0 && round == 0 && collectQueue == [] && trace == [] && !stopped
    {
      this.slotNum := slotNum;
      this.milliSecondsPerSlot := milliSecondsPerSlot;
      this.tickTimer := tickTimer;
      var slots: seq<Slot<E>> := [];
      var i := 0;
      while i < slotNum
        invariant 0 <= i <= slotNum && |slots| == i
        invariant forall k, j :: 0 <= k < j < i ==> slots[k] != slots[j]
        invariant forall k :: 0 <= k < i ==> fresh(slots[k]) && slots[k].index == k && slots[k].eventMap == map[]
      {
        var slot := new Slot<E>.BuildEmpty(i);
        slots := slots + [slot];
        i := i + 1;
      }
      slotList := slots;
      point, round := 0, 0;
      collectQueue := [];
      stopped := false;
      trace := [];
    }

    /**
     * The Java constructor: it builds the tick timer from the slot length,
     * so construction fails exactly when the slot is shorter than the
     * timer's minimum interval.
     */
    static method Create(slotNum: int, milliSecondsPerSlot: int) returns (r: Result<TimeWheel<E>, Timer.MinimumIntervalError>)
      requires 0 < slotNum <= Int32Max && milliSecondsPerSlot <= Int32Max
      ensures r.Err? <==> milliSecondsPerSlot < Timer.MinimumInterval
      ensures r.Err? ==> r.error == Timer.MinimumIntervalError(Timer.MinimumInterval, milliSecondsPerSlot)
      ensures r.Ok? ==> fresh(r.value) && r.value.Valid()
      ensures r.Ok? ==> r.value.slotNum == slotNum && r.value.milliSecondsPerSlot == milliSecondsPerSlot
      ensures r.Ok? ==> r.value.Buckets() == seq(slotNum, i => map[])
      ensures r.Ok? ==> forall i :: 0 <= i < |r.value.slotList| ==> fresh(r.value.slotList[i])
      ensures r.Ok? ==> r.value.Cur() == Cursor(0, 0) && r.value.collectQueue == [] && r.value.trace == [] && !r.value.stopped
    {
      var timer := Timer.NewTimer(milliSecondsPerSlot);
      if timer.Err? {
        return Err(timer.error);
      }
      var w := new TimeWheel<E>.Init(slotNum, milliSecondsPerSlot, timer.value);
      return Ok(w);
    }

    /**
     * One tick: wait one interval, snapshot the due bucket `(point, round)`
     * for dispatch, then advance the cursor.
     */
    method Tick(interrupted: bool) returns (due: Cursor)
      requires Valid()
      modifies this`point, this`round
      ensures Valid()
      ensures due == old(Cur())
      ensures Cur() == Advance(Geo(), old(Cur()))
    {
      tickTimer.Once(interrupted);
      due := Cursor(point, round);
      point := point + 1;
      if point >= slotNum {
        point := point % slotNum;
        round := round + 1;
      }
    }

    /** The executor's task for a due bucket: poll that slot for that round. */
    method Dispatch(due: Cursor)
      requires Valid() && Within(Geo(), due)
      modifies slotList[due.point], this`trace
      ensures Valid()
      ensures Buckets() == PollAt(old(Buckets()), due)
      ensures trace == old(trace) + Fired(old(Buckets())[due.point], due.round)
    {
      var slot := slotList[due.point];
      ghost var issued := slot.PollEvent(due.round);
      trace := trace + issued;
      assert Buckets() == PollAt(old(Buckets()), due) by {
        forall i | 0 <= i < |slotList| && i != due.point
          ensures slotList[i].eventMap == old(slotList[i].eventMap)
        {
          assert slotList[i] != slot;
        }
      }
    }

    /**
     * `collect`: one batch time for the whole batch, then at most
     * CollectionMaximum descriptors taken from the head of the queue, each
     * handed to AddEvent0. A failed lookup ends the batch.
     */
    method Collect(baseMillis: int) returns (failure: Option<TargetError>)
      requires Valid()
      modifies this`collectQueue, this`trace, slotList
      ensures Valid()
      ensures var r := Drain(Geo(), Cur(), baseMillis, old(Buckets()), old(collectQueue), CollectionMaximum);
        && Buckets() == r.ring
        && collectQueue == r.queue
        && failure == r.failure
        && trace == old(trace) + Starts(old(collectQueue)[..r.admitted])
    {
      ghost var queue0, g, c := collectQueue, Geo(), Cur();
      ghost var ring := Buckets();
      ghost var whole := Drain(g, c, baseMillis, ring, queue0, CollectionMaximum);
      DrainStarts(g, c, baseMillis, ring, queue0, CollectionMaximum);
      failure := None;
      var i := 0;
      while i < CollectionMaximum
        invariant Resumes(g, c, baseMillis, whole, ring, queue0, CollectionMaximum, i)
        invariant Valid() && Cur() == c && failure.None?
        invariant collectQueue == queue0[i..] && Buckets() == ring
        invariant trace == old(trace) + Starts(queue0[..i])
      {
        if collectQueue == [] {
          break;
        }
        DrainResumes(g, c, baseMillis, whole, ring, queue0, CollectionMaximum, i);
        StartsSnoc(old(trace), queue0, i);
        var descriptor := collectQueue[0];
        collectQueue := collectQueue[1..];
        assert descriptor == queue0[i] == Describe(descriptor.event, descriptor.msLater, descriptor.addedTime);
        assert collectQueue == queue0[i + 1..];
        ghost var t := Admission(g, c, queue0[i], baseMillis);
        assert Buckets() == ring;
        failure := AddEvent0(descriptor.event, descriptor.msLater, descriptor.addedTime, baseMillis);
        if failure.Some? {
          return;
        }
        assert Buckets() == Insert(ring, t.value, queue0[i].event);
        assert trace == old(trace) + Starts(queue0[..i + 1]);
        ring := Insert(ring, t.value, queue0[i].event);
        i := i + 1;
      }
      DrainDone(g, c, baseMillis, whole, ring, queue0, CollectionMaximum, i);
    }

    /**
     * `addEvent0`: put the event into the bucket its remaining delay points
     * at, announcing it with its `startTimingCallback`. A failed lookup
     * changes nothing.
     */
    method AddEvent0(event: E, millisLater: int, missionStartMillis: int, baseMillis: int) returns (failure: Option<TargetError>)
      requires Valid()
      modifies this`trace, slotList
      ensures Valid()
      ensures Cur() == old(Cur())
      ensures var t := Admission(Geo(), Cur(), Describe(event, millisLater, missionStartMillis), baseMillis);
        && (t.Err? ==> failure == Some(t.error) && Buckets() == old(Buckets()) && trace == old(trace))
        && (t.Ok? ==> failure == None && Buckets() == Insert(old(Buckets()), t.value, event)
                      && trace == old(trace) + [StartTiming(event)])
    {
      var deltaSlotIndex := SlotOffset(millisLater - (baseMillis - missionStartMillis), milliSecondsPerSlot);
      var target := TargetOf(Geo(), Cur(), deltaSlotIndex);
      if target.Err? {
        return Some(target.error);
      }
      ghost var before := Buckets();
      var tarSlot := slotList[target.value.point];
      ghost var issued := tarSlot.AddEvent(target.value.round, event);
      trace := trace + issued;
      assert Buckets() == Insert(before, target.value, event) by {
        forall k | 0 <= k < |slotList| && k != target.value.point
          ensures slotList[k].eventMap == before[k]
        {
          assert slotList[k] != tarSlot;
        }
      }
      return None;
    }

    /**
     * The public `addEvent`: wrap the event with its delay and the enqueue
     * time and append it to the tail of the queue. No slot, no cursor field
     * is touched.
     */
    method AddEvent(event: E, millisLater: int, now: int)
      modifies this`collectQueue
      ensures collectQueue == old(collectQueue) + [Describe(event, millisLater, now)]
    {
      collectQueue := collectQueue + [Describe(event, millisLater, now)];
    }

    /**
     * One iteration of the wheel thread's loop: tick, run the due bucket's
     * dispatch, then collect with the clock reading `now`. A failed lookup
     * ends the current wheel thread, so an iteration that returns a failure
     * is that thread's last: it sets `stopped`, and a stopped wheel runs no
     * further iteration, since the model has no `start()` to begin another.
     */
    method RunOnce(interrupted: bool, now: int) returns (failure: Option<TargetError>)
      requires Valid() && !stopped
      modifies this`point, this`round, this`collectQueue, this`trace, this`stopped, slotList
      ensures Valid()
      ensures stopped <==> failure.Some?
      ensures Cur() == Advance(Geo(), old(Cur()))
      ensures var polled := PollAt(old(Buckets()), old(Cur()));
        var r := Drain(Geo(), Cur(), now, polled, old(collectQueue), CollectionMaximum);
        && Buckets() == r.ring
        && collectQueue == r.queue
        && failure == r.failure
        && trace == old(trace) + Fired(old(Buckets())[old(point)], old(round)) + Starts(old(collectQueue)[..r.admitted])
    {
      var due := Tick(interrupted);
      Dispatch(due);
      failure := Collect(now);
      stopped := failure.Some?;
    }
  }

  /** `TimeWheel.build()`: 200 slots of 100 ms. */
  method Build<E>() returns (w: TimeWheel<E>)
    ensures fresh(w) && w.Valid()
    ensures w.slotNum == DefaultSlotNum && w.milliSecondsPerSlot == DefaultTimePerSlot
    ensures w.Buckets() == seq(DefaultSlotNum, i => map[])
    ensures forall i :: 0 <= i < |w.slotList| ==> fresh(w.slotList[i])
    ensures w.Cur() == Cursor(0, 0) && w.collectQueue == [] && w.trace == [] && !w.stopped
  {
    var timer := new Timer.BlockingQueueTimer(DefaultTimePerSlot);
    w := new TimeWheel<E>.Init(DefaultSlotNum, DefaultTimePerSlot, timer);
  }

  /**
   * The client of `testSingleTask` in TimeWheelTest.java: a default wheel,
   * one event 1500 ms later added at `now`, then the first loop iteration,
   * whose collect reads the clock one slot length later, after the tick's
   * wait. The event is admitted 14 slots ahead of the advanced cursor, in
   * bucket 15 of round 0.
   */
  method SingleTask<E>(event: E, now: int) returns (w: TimeWheel<E>, failure: Option<TargetError>)
    ensures w.Valid() && failure == None && !w.stopped
    ensures |w.slotList| == DefaultSlotNum && w.Cur() == Cursor(1, 0) && w.collectQueue == []
    ensures w.Buckets()[15] == map[0 := [event]]
    ensures forall i :: 0 <= i < |w.slotList| && i != 15 ==> w.Buckets()[i] == map[]
    ensures w.trace == [StartTiming(event)]
  {
    w := Build<E>();
    w.AddEvent(event, 1500, now);
    ScenarioSingleTask(event, now);
    failure := w.RunOnce(false, now + DefaultTimePerSlot);
    assert w.Buckets() == Insert(seq(DefaultSlotNum, i => map[]), Cursor(15, 0), event);
  }
}
