/** Slot recommendation and booking for a group event (RecommendationService). */
module Recommendation {
  import opened Outcomes
  import opened GroupEventStore

  /** A length of time, in minutes. */
  type Duration = int

  /** A busy event as returned by the event service; only its slot is read. */
  datatype EventDto = EventDto(date: Date, startTime: Time, endTime: Time)

  /** A busy interval handed to the slot calculator. */
  datatype TimeInterval = TimeInterval(date: Date, startTime: Time, endTime: Time)

  /** A recommended slot, as produced by the slot calculator. */
  datatype RecommendTimeSlot = RecommendTimeSlot(date: Date, startTime: Time, endTime: Time)

  /** What one call of the event-service client produced, as seen through the circuit breaker.
      The breaker is assumed to take effect, although the guarded method is only called from
      inside its own class. */
  datatype BusyLookup = Busy(events: seq<EventDto>) | Fault(status: int) | BreakerOpen

  /** The event-service client: busy events of the given participants between two dates. */
  type EventClient = (seq<Id>, Date, Date) -> BusyLookup

  /** The free-slot calculator: period start, period end, busy intervals, duration. */
  type SlotCalculator = (Date, Date, seq<TimeInterval>, Duration) -> seq<RecommendTimeSlot>

  /** The most slots one recommendation returns. */
  const MaxRecommendations: nat := 5

  /** Each busy event becomes one interval with the same date, start and end, in the same order. */
  function ToIntervals(events: seq<EventDto>): (r: seq<TimeInterval>)
    ensures |r| == |events|
    ensures forall i :: 0 <= i < |events| ==>
              r[i] == TimeInterval(events[i].date, events[i].startTime, events[i].endTime)
    decreases |events|
  {
    if events == [] then []
    else
      var e := events[0];
      [TimeInterval(e.date, e.startTime, e.endTime)] + ToIntervals(events[1..])
  }

  /** The breaker's fallback for the busy-interval fetch: it never contacts the event service. */
  function FetchBusyIntervalsFallback(): (r: Result<seq<TimeInterval>, GroupEventError>)
    ensures r.Err? && r.error.EventServiceUnavailable?
  {
    Err(EventServiceUnavailable)
  }

  /** The guarded busy-interval fetch: the remote events mapped one-to-one, or, on any remote
      failure, the fallback's EventServiceUnavailable. */
  function FetchBusyIntervals(participantIds: seq<Id>, start: Date, end: Date, client: EventClient)
    : (r: Result<seq<TimeInterval>, GroupEventError>)
    ensures r.Ok? <==> client(participantIds, start, end).Busy?
    ensures r.Ok? ==> r.value == ToIntervals(client(participantIds, start, end).events)
    ensures r.Err? ==> r.error == EventServiceUnavailable
  {
    match client(participantIds, start, end)
    case Busy(events) => Ok(ToIntervals(events))
    case Fault(_) => FetchBusyIntervalsFallback()
    case BreakerOpen => FetchBusyIntervalsFallback()
  }

  function Min(a: nat, b: nat): nat {
    if a <= b then a else b
  }

  /** Load the event's participants, fetch their busy intervals, run the calculator, and return
      at most five of its slots, in its order; no slot at all is NoAvailableSlots. Every failure
      aborts the whole call with no partial output. */
  function RecommendSlots(store: map<Id, GroupEvent>, periodStart: Date, periodEnd: Date, duration: Duration,
                          groupEventId: Id, client: EventClient, calculator: SlotCalculator)
    : (r: Result<seq<RecommendTimeSlot>, GroupEventError>)
    ensures groupEventId !in store ==> r == Err(EventNotFound(groupEventId))
    ensures groupEventId in store && !client(store[groupEventId].participantIds, periodStart, periodEnd).Busy?
            ==> r == Err(EventServiceUnavailable)
    ensures r.Ok? <==> && groupEventId in store
                       && var busy := client(store[groupEventId].participantIds, periodStart, periodEnd);
                       && busy.Busy?
                       && calculator(periodStart, periodEnd, ToIntervals(busy.events), duration) != []
    ensures r == Err(NoAvailableSlots) <==>
              && groupEventId in store
              && var busy := client(store[groupEventId].participantIds, periodStart, periodEnd);
              && busy.Busy?
              && calculator(periodStart, periodEnd, ToIntervals(busy.events), duration) == []
    ensures r.Ok? ==>
              var free := calculator(periodStart, periodEnd,
                                     ToIntervals(client(store[groupEventId].participantIds, periodStart, periodEnd).events),
                                     duration);
              && 1 <= |r.value| <= MaxRecommendations
              && |r.value| == Min(MaxRecommendations, |free|)
              && forall i :: 0 <= i < |r.value| ==> r.value[i] == free[i]
  {
    if groupEventId !in store then Err(EventNotFound(groupEventId))
    else
      match FetchBusyIntervals(store[groupEventId].participantIds, periodStart, periodEnd, client)
      case Err(e) => Err(e)
      case Ok(busyIntervals) =>
        var free := calculator(periodStart, periodEnd, busyIntervals, duration);
        if free == [] then Err(NoAvailableSlots)
        else Ok(free[..Min(MaxRecommendations, |free|)])
  }

  /** Slot a does not come after slot b: by date, then by start time. */
  predicate NotAfter(a: RecommendTimeSlot, b: RecommendTimeSlot) {
    a.date < b.date || (a.date == b.date && a.startTime <= b.startTime)
  }

  predicate Chronological(slots: seq<RecommendTimeSlot>) {
    forall i, j :: 0 <= i < j < |slots| ==> NotAfter(slots[i], slots[j])
  }

  /** The recommendation keeps the calculator's order: chronological slots stay chronological,
      and every recommended slot is one the calculator produced. */
  lemma RecommendationKeepsCalculatorOrder(store: map<Id, GroupEvent>, periodStart: Date, periodEnd: Date,
                                           duration: Duration, groupEventId: Id, client: EventClient,
                                           calculator: SlotCalculator)
    requires RecommendSlots(store, periodStart, periodEnd, duration, groupEventId, client, calculator).Ok?
    requires Chronological(calculator(periodStart, periodEnd,
                                      ToIntervals(client(store[groupEventId].participantIds, periodStart, periodEnd).events),
                                      duration))
    ensures var r := RecommendSlots(store, periodStart, periodEnd, duration, groupEventId, client, calculator).value;
            && Chronological(r)
            && forall s :: s in r ==> s in calculator(periodStart, periodEnd,
                 ToIntervals(client(store[groupEventId].participantIds, periodStart, periodEnd).events), duration)
  {
  }

  /** When the calculator finds at most five slots, all of them are recommended, unchanged. */
  lemma FewSlotsAreAllRecommended(store: map<Id, GroupEvent>, periodStart: Date, periodEnd: Date,
                                  duration: Duration, groupEventId: Id, client: EventClient,
                                  calculator: SlotCalculator)
    requires groupEventId in store
    requires client(store[groupEventId].participantIds, periodStart, periodEnd).Busy?
    requires var free := calculator(periodStart, periodEnd,
                                    ToIntervals(client(store[groupEventId].participantIds, periodStart, periodEnd).events),
                                    duration);
             1 <= |free| <= MaxRecommendations
    ensures RecommendSlots(store, periodStart, periodEnd, duration, groupEventId, client, calculator)
            == Ok(calculator(periodStart, periodEnd,
                             ToIntervals(client(store[groupEventId].participantIds, periodStart, periodEnd).events),
                             duration))
  {
    var free := calculator(periodStart, periodEnd,
                           ToIntervals(client(store[groupEventId].participantIds, periodStart, periodEnd).events),
                           duration);
    assert free[..|free|] == free;
  }

  /** The event as booked: the slot fields set to the chosen values and the status CONFIRMED. */
  function Booked(e: GroupEvent, date: Date, startTime: Time, endTime: Time): (r: GroupEvent)
    ensures r.status == CONFIRMED && SlotConsistent(r)
    ensures r.date == Some(date) && r.startTime == Some(startTime) && r.endTime == Some(endTime)
    ensures && r.id == e.id && r.name == e.name && r.description == e.description
            && r.ownerId == e.ownerId && r.participantIds == e.participantIds
  {
    e.(status := CONFIRMED, date := Some(date), startTime := Some(startTime), endTime := Some(endTime))
  }

  /** Booking checks neither that the slot is free nor that start precedes end, and may be
      repeated: the second booking simply overwrites the first (last write wins). */
  lemma RebookingLastWriteWins(e: GroupEvent, d1: Date, s1: Time, t1: Time, d2: Date, s2: Time, t2: Time)
    ensures Booked(Booked(e, d1, s1, t1), d2, s2, t2) == Booked(e, d2, s2, t2)
  {
  }

  class RecommendationService {
    const repository: GroupEventRepository

    constructor (repository: GroupEventRepository)
      ensures this.repository == repository
    {
      this.repository := repository;
    }

    /** Confirm a slot for the event; an unknown id raises EventNotFound and saves nothing. */
    method BookSlot(id: Id, date: Date, startTime: Time, endTime: Time) returns (r: Result<GroupEvent, GroupEventError>)
      requires repository.Valid()
      modifies repository
      ensures repository.Valid() && repository.nextId == old(repository.nextId)
      ensures id !in old(repository.events) ==> r == Err(EventNotFound(id)) && repository.events == old(repository.events)
      ensures id in old(repository.events) ==>
                && r == Ok(Booked(old(repository.events)[id], date, startTime, endTime))
                && repository.events == old(repository.events)[id := r.value]
    {
      if id !in repository.events {
        return Err(EventNotFound(id));
      }
      var ge := Booked(repository.events[id], date, startTime, endTime);
      repository.events := repository.events[id := ge];
      r := Ok(ge);
    }
  }
}
