/**
 * The part of the simulator that a device uses: a clock, pending events, and
 * handles that tell whether the event they name is still to come.
 */
module EventQueue {
  import opened Frames

  /** Handle 0 is the default-constructed one, which names no event. */
  type EventId = nat

  /** What a pending event will call, with its bound argument. */
  datatype Call = TryDequeue | DoIngressDrain | ResumeFromPause(prio: Prio) | RefillMacQueueFromHold(prio: Prio)

  datatype Event = Event(at: real, call: Call)

  datatype Sched = Sched(now: real, next: EventId, pending: map<EventId, Event>) {

    /** An event is expired once it has run or was cancelled; the null handle always is. */
    predicate IsExpired(id: EventId) {
      id !in pending
    }

    function Schedule(delay: real, call: Call): (r: Sched) {
      this.(next := next + 1, pending := pending[next := Event(now + delay, call)])
    }

    function Cancel(id: EventId): (r: Sched)
      ensures r.IsExpired(id)
      ensures forall other :: other != id ==> r.IsExpired(other) == IsExpired(other)
    {
      this.(pending := pending - {id})
    }

    /** Every pending event has a handle of its own and lies in the future. */
    predicate Valid() {
      && 0 < next
      && forall id :: id in pending ==> 0 < id < next && now <= pending[id].at
    }
  }

  const START := Sched(0.0, 1, map[])

  class Simulator {
    var now: real
    var nextUid: EventId
    var pending: map<EventId, Event>

    ghost function Abs(): Sched
      reads this
    {
      Sched(now, nextUid, pending)
    }

    constructor ()
      ensures Abs() == START
    {
      now, nextUid, pending := 0.0, 1, map[];
    }

    method Schedule(delay: real, call: Call) returns (id: EventId)
      modifies this
      ensures id == old(Abs().next)
      ensures Abs() == old(Abs()).Schedule(delay, call)
    {
      id := nextUid;
      pending := pending[id := Event(now + delay, call)];
      nextUid := nextUid + 1;
    }

    method Cancel(id: EventId)
      modifies this
      ensures Abs() == old(Abs()).Cancel(id)
    {
      pending := pending - {id};
    }

    method IsExpired(id: EventId) returns (expired: bool)
      ensures expired == Abs().IsExpired(id)
    {
      expired := id !in pending;
    }
  }
}
