/**
 * EventDescriptor: what `addEvent` puts on the intake queue. It is immutable:
 * the Java class has private fields, getters and no setters.
 *
 * The Java class holds only the event and the delay, and its constructor takes
 * only those two, yet the collector calls `descriptor.getAddedTime()` on it.
 * The model gives the record the enqueue timestamp the collector expects.
 */
module Descriptor {

  datatype EventDescriptor<E> = EventDescriptor(event: E, msLater: int, addedTime: int)

  /**
   * Wraps an event for the intake queue. Any delay is accepted, zero and
   * negative included: nothing is validated.
   */
  function Describe<E>(event: E, msLater: int, addedTime: int): (d: EventDescriptor<E>)
    ensures d.event == event && d.msLater == msLater && d.addedTime == addedTime
  {
    EventDescriptor(event, msLater, addedTime)
  }

  /** The events carried by a queue of descriptors, in queue order. */
  function Events<E>(ds: seq<EventDescriptor<E>>): (es: seq<E>)
  {
    seq(|ds|, k requires 0 <= k < |ds| => ds[k].event)
  }
}
