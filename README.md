# cy-timewheel: a verified model of the single-ring timing wheel

This project models the core of `cn.cy.timewheel`. That core is a timing wheel
with one ring of `slotNum` slots, each `milliSecondsPerSlot` long. A
`(point, round)` cursor advances by one slot per tick. A slot keeps a map
`round -> list of events` and fires a round's list when the cursor reaches it.
Callers never touch the ring directly: `addEvent` puts an `EventDescriptor` on an
intake queue. On every iteration of the wheel thread, `collect` drains at most
1000 descriptors from that queue and places each event into its bucket. The
bucket's offset is reduced by the time the descriptor spent waiting in the
queue.

The modules, one file each:

| file | module | what it holds |
|---|---|---|
| `wrappers.dfy` | `Wrappers` | `Option` and `Result` |
| `java_arith.dfy` | `JavaArith` | Java's truncating `long` division, and the 32-bit wrap-around of `(int)` narrowing and `int` addition |
| `timer.dfy` | `Timer` | `BlockingQueueTimer`: the 100 ms minimum, `getInterval`, `once` |
| `descriptor.dfy` | `Descriptor` | the immutable `EventDescriptor` record |
| `slot.dfy` | `Slots` | the `Slot` class (`buildEmptySlot`, `addEvent`, `pollEvent`), the pure functions `Add`/`Poll`/`Fired` that specify it, and the multiset `Held` of the events a slot holds |
| `wheel_spec.dfy` | `WheelSpec` | the wheel as pure functions: cursor advance, logical time, offset and target computation, the ring of buckets, and the bounded drain of the intake queue |
| `time_wheel.dfy` | `Wheel` | the `TimeWheel` class: `tick`, the executor's poll task, `collect`, `addEvent0`, `addEvent`, one loop iteration, and `build` |

Some callbacks are calls into user code: `startTimingCallback` when an event
is admitted, and `timeoutCallback` when its bucket fires. They are recorded as
values `StartTiming(e)` / `Timeout(e)` in a ghost `trace`. The clock is a
parameter: the `baseMillis` of a collect, and the `now` given to `addEvent` and
to one loop iteration. The executor's task is run synchronously, between the
tick and the collect of the same iteration.

Each mutable entity is a class whose methods are proved against the pure
functions of `WheelSpec` and `Slots`. `Collect` is proved equal to `Drain`,
`AddEvent0` to `Admission` followed by `Insert`, `Tick` to `Advance`, and
`Slot.PollEvent` to `Poll`/`Fired`. The properties of the wheel are then lemmas
about those functions:
- logical time `round * slotNum + point` grows by one per tick;
- a bucket ahead of the cursor is reached after exactly as many ticks as it is
  ahead, and a bucket behind it is never reached again;
- when the offset does not wrap in 32 bits, the target of a successful
  lookup lies exactly `offset` logical ticks ahead;
- a drain takes descriptors only from the head of the queue, and without a
  failure it takes `min(1000, |queue|)` of them;
- the multiset of events in the queue and in the buckets is conserved by a
  drain, except for the one descriptor whose lookup failed;
- polling a round twice fires it once.

Points where the code's behaviour is easy to misread:
- The offset divides with Java's truncation toward zero, not with a floor.
- Only an offset of exactly 0 is raised to 1; a negative offset is kept. A
  descriptor one slot length late or more therefore gets a negative offset.
  When that offset does not wrap in 32 bits, its event lands in a bucket
  behind the cursor, which the cursor never reaches again
  (`StaleAdmittedBehind`, `ScenarioLateDescriptor`), or the lookup fails
  (`ScenarioLateAtStart`). Whether such a bucket's events still
  fire depends on whether the executor has already polled it; the model runs
  that poll synchronously (see "## Left out").
- A descriptor late by at least one and less than two slot lengths can even
  land in the bucket the same iteration's tick has just handed off, e.g.
  100 to 199 ms late on a wheel of 100 ms slots
  (`ScenarioLateIntoDueBucket`). `CollectSkipsDueBucket` rules this out
  only for descriptors less than one slot length late; its premise excludes
  every descriptor a slot length late or more.
- The target index is reduced by `slotNum` at most once, not taken modulo
  `slotNum`. A delay of two rotations or more, as long as its offset fits in
  32 bits, therefore fails the `slotList.get` lookup (`ScenarioTwoRotations`). The failure is modelled as
  an explicit `IndexOutOfBounds` error. That error ends the collect after its
  descriptor has left the queue, so that event is in no bucket.
- The exception is not caught anywhere: it escapes `collect` and the loop
  of the wheel thread, so that thread ends. Unless `start()` is called
  again, there are no more ticks, no bucket is polled and the rest of the
  queue is never admitted. `start()` does not refuse a second call: it would
  run the loop again on the same cursor, queue and slots. In the model
  `RunOnce` reports the failure and sets `stopped`, and no further `RunOnce`
  is possible, because `start()` is left out. On the default wheel a delay of about 40 s
  is enough for this.
- The offset is cast to `int`, and `point + offset` is `int` addition, both
  with 32-bit wrap-around. An offset of 2^31 slot lengths or more, ahead or
  late, wraps and may land anywhere: behind the cursor (`ScenarioWrapBehind`),
  ahead of it although late (`ScenarioWrapAhead`), or in a bucket within the
  first rotation for a delay of far more than one (`ScenarioWrapFar`). The
  lemmas relating the target to the cursor hold only for an offset that does
  not wrap.
- `Slot.addEvent` itself calls `startTimingCallback`.
- `pollEvent` fires its list in insertion order.
- The batch cap is 1000.
- The Java `EventDescriptor` holds only the event and the delay, yet `collect`
  calls `getAddedTime()` on it. The model gives the record an `addedTime`
  field, set from the `now` argument of `addEvent`.

## Model

| member | source | states |
|---|---|---|
| `Timer.NewTimer` | src/main/java/cn/cy/timewheel/core/BlockingQueueTimer.java:24-32 | construction fails exactly when the interval is below 100 ms (so 100 is accepted), with an error carrying the minimum and the given interval; otherwise a valid timer with that interval |
| `Timer.BlockingQueueTimer.constructor` | src/main/java/cn/cy/timewheel/core/BlockingQueueTimer.java:30 | the timer keeps the interval it was given |
| `Timer.BlockingQueueTimer.Once` | src/main/java/cn/cy/timewheel/core/BlockingQueueTimer.java:35-42 | returns normally whether or not the wait was interrupted, and leaves the timer unchanged |
| `Timer.BlockingQueueTimer.GetInterval` | src/main/java/cn/cy/timewheel/core/BlockingQueueTimer.java:45-47 | returns the constructor's interval, which is at least the 100 ms minimum |
| `Descriptor.Describe` | src/main/java/cn/cy/timewheel/core/EventDescriptor.java:8-19 | the getters return exactly the event, delay and enqueue time given, for any delay including zero and negative ones |
| `JavaArith.JavaDiv` | src/main/java/cn/cy/timewheel/core/TimeWheel.java:137 | Java's `long` division by a positive divisor: the quotient has the sign of the dividend, lies within one divisor of the dividend on the side of 0 (truncation toward zero), and is 0 exactly when the dividend is within one divisor of 0 |
| `JavaArith.ToInt32` | src/main/java/cn/cy/timewheel/core/TimeWheel.java:143 | the `(int)` cast and `int` addition: the result is in 32-bit range, congruent to the input modulo 2^32, and the input itself when already in range |
| `Slots.Add` | src/main/java/cn/cy/timewheel/core/TimeWheel.java:204-210 | the round's list gets the event appended at its end, and is created holding only the event when absent; every other round is unchanged |
| `Slots.Poll` | src/main/java/cn/cy/timewheel/core/TimeWheel.java:228 | only the polled round is removed; every other round is unchanged |
| `Slots.Fired` | src/main/java/cn/cy/timewheel/core/TimeWheel.java:217-225 | an absent round fires nothing; a present round fires one callback per event of its list |
| `Slots.Timeouts` | src/main/java/cn/cy/timewheel/core/TimeWheel.java:223-225 | one `timeoutCallback` per event, in list order |
| `Slots.PollIdempotent` | src/main/java/cn/cy/timewheel/core/TimeWheel.java:216-229 | a second poll of the same round changes nothing and fires nothing |
| `Slots.AddThenFire` | src/main/java/cn/cy/timewheel/core/TimeWheel.java:201-225 | an added event is fired by the next poll of its round, after the events added to that round before it |
| `Slots.AddPollOtherRound` | src/main/java/cn/cy/timewheel/core/TimeWheel.java:201-229 | adding to one round and polling another commute, and the add does not change what the poll fires |
| `Slots.AddHolds` | src/main/java/cn/cy/timewheel/core/TimeWheel.java:201-210 | `addEvent` adds exactly one occurrence of the event to the multiset the slot holds |
| `Slots.PollHolds` | src/main/java/cn/cy/timewheel/core/TimeWheel.java:216-228 | `pollEvent` removes from the slot exactly the events it fires, and nothing for an absent round |
| `Slots.Slot.BuildEmpty` | src/main/java/cn/cy/timewheel/core/TimeWheel.java:197-199 | a new slot has the given index and an empty map |
| `Slots.Slot.AddEvent` | src/main/java/cn/cy/timewheel/core/TimeWheel.java:201-213 | the new map is `Add` of the old one, and exactly one `startTimingCallback` is made on the event |
| `Slots.Slot.PollEvent` | src/main/java/cn/cy/timewheel/core/TimeWheel.java:216-229 | the new map is `Poll` of the old one, and the callbacks made are `Fired` of the old map, in list order (proved through the loop's invariant) |
| `WheelSpec.Advance` | src/main/java/cn/cy/timewheel/core/TimeWheel.java:88-93 | the cursor stays within the ring; the round goes up by one exactly when the point reaches `slotNum`, and the point then restarts at 0; logical time grows by exactly one |
| `WheelSpec.AdvanceN` | src/main/java/cn/cy/timewheel/core/TimeWheel.java:88-93 | any number of ticks keeps `0 <= point < slotNum` and `round >= 0` |
| `WheelSpec.AdvanceNLogical` | src/main/java/cn/cy/timewheel/core/TimeWheel.java:88-93 | `n` ticks add exactly `n` to `round * slotNum + point` |
| `WheelSpec.AdvanceNRoundMonotone` | src/main/java/cn/cy/timewheel/core/TimeWheel.java:88-93 | the round never decreases |
| `WheelSpec.ReachedAfter` | src/main/java/cn/cy/timewheel/core/TimeWheel.java:80-93 | the cursor is at bucket `t` after `n` ticks if and only if `t` lies exactly `n` logical ticks ahead, so each bucket is handed off at most once |
| `WheelSpec.SlotOffset` | src/main/java/cn/cy/timewheel/core/TimeWheel.java:137-141 | the offset is never 0; it is positive exactly when less than one slot length late, and 1 exactly for a remaining time between minus one and plus two slot lengths (exclusive) |
| `WheelSpec.SlotOffsetBounds` | src/main/java/cn/cy/timewheel/core/TimeWheel.java:137 | outside the raised case, the offset is the number of whole slot lengths in the remaining time, counted toward zero |
| `WheelSpec.TargetOf` | src/main/java/cn/cy/timewheel/core/TimeWheel.java:143-154 | a found bucket lies within the ring, in the cursor's round or the next; without 32-bit wrap-around the lookup succeeds exactly when `0 <= point + offset < 2 * slotNum`, gives the index reduced once by `slotNum` with the round raised, and fails with that same index otherwise |
| `WheelSpec.TargetLogical` | src/main/java/cn/cy/timewheel/core/TimeWheel.java:143-153 | when the offset does not wrap in 32 bits, `tarRound * slotNum + nextIndex == round * slotNum + point + offset` for a successful lookup |
| `WheelSpec.AdmittedAhead` | src/main/java/cn/cy/timewheel/core/TimeWheel.java:137-153 | a descriptor less than one slot length late, whose offset does not wrap in 32 bits and whose lookup succeeds, goes into a bucket strictly ahead of the cursor |
| `WheelSpec.StaleAdmittedBehind` | src/main/java/cn/cy/timewheel/core/TimeWheel.java:137-154 | a descriptor a slot length late or more, whose offset does not wrap in 32 bits and whose lookup succeeds, goes into a bucket behind the cursor, which no number of further ticks reaches |
| `WheelSpec.CollectSkipsDueBucket` | src/main/java/cn/cy/timewheel/core/TimeWheel.java:117-121 | in one iteration of the wheel loop, a descriptor collected after the tick that is less than one slot length late, whose offset does not wrap and whose lookup succeeds, goes at least two logical ticks past the bucket that tick handed off, never into it |
| `WheelSpec.Insert` | src/main/java/cn/cy/timewheel/core/TimeWheel.java:154-156 | only the target slot changes, by `Add` at the target round |
| `WheelSpec.PollAt` | src/main/java/cn/cy/timewheel/core/TimeWheel.java:84-86 | only the due slot changes, by `Poll` at the due round |
| `WheelSpec.InsertHolds` | src/main/java/cn/cy/timewheel/core/TimeWheel.java:154-156 | admitting an event adds exactly that one event to the ring |
| `WheelSpec.PollAtHolds` | src/main/java/cn/cy/timewheel/core/TimeWheel.java:84-86 | dispatching a due bucket removes from the ring exactly the events it fires |
| `WheelSpec.Drain` | src/main/java/cn/cy/timewheel/core/TimeWheel.java:96-108 | a drain keeps the ring's size, admits at most the budget, and takes no more descriptors than the queue holds |
| `WheelSpec.DrainTakes` | src/main/java/cn/cy/timewheel/core/TimeWheel.java:100-104 | the queue left is the old one without its first `Taken` descriptors (FIFO); without a failed lookup exactly `min(budget, |queue|)` are admitted |
| `WheelSpec.DrainConserves` | src/main/java/cn/cy/timewheel/core/TimeWheel.java:100-107 | the multiset of events in buckets plus queue is the same after a drain, less only the event of the descriptor whose lookup failed |
| `WheelSpec.DrainSparesBucket` | src/main/java/cn/cy/timewheel/core/TimeWheel.java:100-107 | when none of the first `budget` descriptors (the only ones a drain can take) is a slot length late and none of their offsets wraps, a bucket at or behind the cursor keeps exactly its old contents |
| `WheelSpec.ScenarioWithinOneRotation` | src/main/java/cn/cy/timewheel/core/TimeWheel.java:137-153 | 20 slots of 100 ms from `(0, 0)`, delay 1500 ms: bucket `(15, 0)` |
| `WheelSpec.ScenarioNextRotation` | src/main/java/cn/cy/timewheel/core/TimeWheel.java:137-153 | delay 2500 ms: offset 25, bucket `(5, 1)` |
| `WheelSpec.ScenarioTwoRotations` | src/main/java/cn/cy/timewheel/core/TimeWheel.java:150-154 | delay 4000 ms: index 20 after the single wrap, so the lookup fails |
| `WheelSpec.ScenarioLateDescriptor` | src/main/java/cn/cy/timewheel/core/TimeWheel.java:137-153 | 200 ms late at point 5: offset -2, bucket `(3, 0)` behind the cursor |
| `WheelSpec.ScenarioLateAtStart` | src/main/java/cn/cy/timewheel/core/TimeWheel.java:137-154 | 200 ms late at point 0: index -2, the lookup fails |
| `WheelSpec.ScenarioLateIntoDueBucket` | src/main/java/cn/cy/timewheel/core/TimeWheel.java:137-156 | 20 slots of 100 ms: after the tick that hands off `(5, 0)`, a descriptor 150 ms late gets offset -1 and goes into `(5, 0)`, the bucket just handed off |
| `WheelSpec.ScenarioSlightlyLate` | src/main/java/cn/cy/timewheel/core/TimeWheel.java:137-141 | 50 ms late: truncation gives 0, raised to 1 |
| `WheelSpec.ScenarioSingleTask` | src/main/java/cn/cy/timewheel/core/TimeWheel.java:96-157 | on the default empty wheel after one tick, a 1500 ms descriptor drained one slot length after it was stamped is admitted alone into `(15, 0)`, leaving the queue empty and reporting no failure |
| `WheelSpec.ScenarioWrapBehind` | src/main/java/cn/cy/timewheel/core/TimeWheel.java:137-153 | a delay of 2^32 - 1 slots at point 5: the offset wraps to -1, and the event goes into `(4, 0)`, behind the cursor |
| `WheelSpec.ScenarioWrapAhead` | src/main/java/cn/cy/timewheel/core/TimeWheel.java:137-153 | a descriptor 2^32 - 3 slots late at point 5: the offset wraps to 3, and the event goes into `(8, 0)`, ahead of the cursor |
| `WheelSpec.ScenarioWrapFar` | src/main/java/cn/cy/timewheel/core/TimeWheel.java:137-153 | a delay of 2^32 + 5 slots at point 0: the offset wraps to 5, and the lookup succeeds with `(5, 0)` |
| `Wheel.TimeWheel.Init` | src/main/java/cn/cy/timewheel/core/TimeWheel.java:59-72 | `slotNum` distinct empty slots, slot `i` with index `i`, cursor `(0, 0)`, empty queue |
| `Wheel.TimeWheel.Create` | src/main/java/cn/cy/timewheel/core/TimeWheel.java:59-62 | construction fails exactly when the slot length is below the timer's 100 ms minimum; otherwise a new empty wheel as `Init` describes, whose slots are all new objects |
| `Wheel.TimeWheel.Tick` | src/main/java/cn/cy/timewheel/core/TimeWheel.java:74-94 | hands off the pre-advance `(point, round)` and moves the cursor by `Advance` |
| `Wheel.TimeWheel.Dispatch` | src/main/java/cn/cy/timewheel/core/TimeWheel.java:84-86 | the executor's task: the ring becomes `PollAt` of the old ring, and the trace gains the due bucket's `timeoutCallback` calls |
| `Wheel.TimeWheel.Collect` | src/main/java/cn/cy/timewheel/core/TimeWheel.java:96-108 | buckets, queue and outcome are those of `Drain` from the old state with budget 1000; the trace gains one `startTimingCallback` per admitted descriptor, in queue order |
| `Wheel.TimeWheel.AddEvent0` | src/main/java/cn/cy/timewheel/core/TimeWheel.java:135-157 | a failed lookup changes nothing and reports the index; otherwise the event goes into exactly the bucket `Admission` picks, with one `startTimingCallback` |
| `Wheel.TimeWheel.AddEvent` | src/main/java/cn/cy/timewheel/core/TimeWheel.java:166-169 | exactly one descriptor, stamped with `now`, is appended to the tail of the queue; nothing else changes |
| `Wheel.TimeWheel.RunOnce` | src/main/java/cn/cy/timewheel/core/TimeWheel.java:116-122 | one iteration of a running wheel's loop: the cursor advances by one tick, the due bucket is polled, then the queue is drained into the polled ring from the advanced cursor; a failed lookup ends the current wheel thread, which the model records as `stopped` |
| `Wheel.Build` | src/main/java/cn/cy/timewheel/core/TimeWheel.java:125-127 | the default wheel: 200 empty slots of 100 ms, each a new object, cursor `(0, 0)`, empty queue |
| `Wheel.SingleTask` | src/test/java/cn/cy/timewheel/core/TimeWheelTest.java:31-40 | on the default wheel, an event 1500 ms later added while the thread waits out its first tick, then collected one slot length later, is admitted without failure into bucket 15 of round 0 and nowhere else, with exactly one `startTimingCallback` |

## Left out

- Threads: `start()`, its `startCnt` and `startTime`, and the endless loop it runs. `RunOnce` is one iteration of that loop, and `start()` has no rejection of a second call to model.
- The executor and concurrency: the poll task runs synchronously inside `RunOnce`. Interleavings of workers, `volatile` and the lock-free queue are not modelled, so there is no ordering between one bucket's dispatch and the next. In particular, a bucket behind the cursor that the executor has not polled yet may still receive an event and fire it; the model, having polled it already, never fires it.
- The clock: the wait in `once()`, `System.currentTimeMillis()` and `LocalDateTime.now()` become parameters. Real-time accuracy is stated only in logical ticks.
- Logging through Log4j, and the message text of `MinimumIntervalException`.
- User callbacks are opaque events. Only the order in which the wheel calls them is recorded, in the ghost trace. A callback that throws is not modelled.
- `Slot.nowRound` is never read and is not modelled. `Slot.index` is kept but never read.
- The Java `List` objects inside a slot's `HashMap` are modelled as sequence values, so aliasing of a list is not modelled. The wheel never shares one.
- Java `long` overflow in the remaining-time subtraction and in `round++` is not modelled, since those values are unbounded integers. The 32-bit wrap-around of `(int)` and `point + offset` is modelled.
- `Wheel.TimeWheel.RunOnce`: after a failure, `stopped` is final in the model. In Java, a later `start()` would begin a new loop on the same state and drain the rest of the queue. `start()` is not modelled (see Threads above).
- `Timer.BlockingQueueTimer.Once`: states only that the call returns and the timer is unchanged; the blocking wait for one interval is real time.
- `Wheel.TimeWheel.Create`: requires `0 < slotNum <= 2^31 - 1`. With `slotNum <= 0`, Java builds an empty slot list, and the first `tick` throws on `slotList.get(0)`. That wheel is not modelled.
- `Wheel.TimeWheel.Init`: requires the same positive `slotNum`, for the same reason.
- `ScheduledEvent` and `TickTimer` are interfaces with nothing to verify; they are not part of this model.
