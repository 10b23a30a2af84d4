/** Entities of the group-event service and the repository that persists them. */
module GroupEventStore {
  import opened Outcomes

  type Id = nat

  /** A calendar date, as a day number. */
  type Date = int

  /** A time of day, in minutes from midnight. */
  type Time = int

  datatype GroupEventStatus = PENDING | CONFIRMED

  /** A group event row. The three slot fields are null in the source until a slot is booked. */
  datatype GroupEvent = GroupEvent(
    id: Id,
    name: string,
    description: string,
    ownerId: Id,
    participantIds: seq<Id>,
    status: GroupEventStatus,
    date: Option<Date>,
    startTime: Option<Time>,
    endTime: Option<Time>)

  /** A pending event has no slot; a confirmed one has date, start and end all set. */
  predicate SlotConsistent(e: GroupEvent) {
    && (e.status == PENDING ==> e.date.None? && e.startTime.None? && e.endTime.None?)
    && (e.status == CONFIRMED ==> e.date.Some? && e.startTime.Some? && e.endTime.Some?)
  }

  /** The exceptions raised by the group-event service and its recommendation service. */
  datatype GroupEventError =
    | UserNotFound(userId: Id)
    | UserServiceError(status: int)
    | UserServiceUnavailable
    | EventNotFound(eventId: Id)
    | EventServiceUnavailable
    | NoAvailableSlots

  /** The group-event repository: rows by id, and the next id the database will generate. */
  class GroupEventRepository {
    var events: map<Id, GroupEvent>
    var nextId: Id

    ghost predicate Valid()
      reads this
    {
      forall id :: id in events ==> id < nextId && events[id].id == id && SlotConsistent(events[id])
    }

    constructor ()
      ensures Valid() && events == map[]
    {
      events := map[];
      nextId := 1;
    }
  }
}
