/** Creation, lookup and deletion of group events (GroupEventService), with the
    user-service lookup guarded by a circuit breaker. */
module GroupEventCreation {
  import opened Outcomes
  import opened GroupEventStore

  /** The user record returned by the user service; only its presence matters here. */
  datatype UserDto = UserDto(id: Id, username: string)

  /** What one call of the user-service client produced, as seen through the circuit breaker:
      a user, a 404, any other Feign failure with its HTTP status, or a short-circuit because
      the breaker is open. The breaker is assumed to take effect, although the guarded method
      is only called from inside its own class. */
  datatype UserLookup = Found(user: UserDto) | NotFound | Fault(status: int) | BreakerOpen

  /** The user-service client: the outcome of looking up each id. */
  type UserClient = Id -> UserLookup

  /** The breaker's fallback: it never contacts the user service. */
  function UserFallback(ownerId: Id): (r: Result<UserDto, GroupEventError>)
    ensures r.Err? && r.error.UserServiceUnavailable?
  {
    Err(UserServiceUnavailable)
  }

  /** One guarded user lookup: a 404 becomes UserNotFound, any other Feign error a generic
      user-service error carrying the status, an open breaker the fallback. Callers never
      see a raw transport failure. */
  function GetUserByIdWithCircuitBreaker(userId: Id, outcome: UserLookup): (r: Result<UserDto, GroupEventError>)
    ensures r.Ok? <==> outcome.Found?
    ensures r.Ok? ==> r.value == outcome.user
    ensures r.Err? ==> r.error.UserNotFound? || r.error.UserServiceError? || r.error.UserServiceUnavailable?
    ensures r == Err(UserNotFound(userId)) <==> outcome.NotFound?
    ensures r.Err? && r.error.UserServiceError? <==> outcome.Fault?
    ensures outcome.Fault? ==> r.error.status == outcome.status
    ensures r == Err(UserServiceUnavailable) <==> outcome.BreakerOpen?
  {
    match outcome
    case Found(u) => Ok(u)
    case NotFound => Err(UserNotFound(userId))
    case Fault(status) => Err(UserServiceError(status))
    case BreakerOpen => UserFallback(userId)
  }

  /** The participant fan-out: every id is looked up; the call succeeds only when all of them
      resolve, and otherwise fails with the error of SOME failing participant (which sibling's
      error wins is not fixed). */
  function ResolveAll(ids: seq<Id>, client: UserClient): (r: Result<seq<UserDto>, GroupEventError>)
    ensures r.Ok? <==> forall i :: 0 <= i < |ids| ==> client(ids[i]).Found?
    ensures r.Ok? ==> |r.value| == |ids| && forall i :: 0 <= i < |ids| ==> r.value[i] == client(ids[i]).user
    ensures r.Err? ==> exists i :: 0 <= i < |ids| && !client(ids[i]).Found?
                                   && GetUserByIdWithCircuitBreaker(ids[i], client(ids[i])) == Err(r.error)
    decreases |ids|
  {
    if ids == [] then Ok([])
    else
      match GetUserByIdWithCircuitBreaker(ids[0], client(ids[0]))
      case Err(e) => Err(e)
      case Ok(u) =>
        match ResolveAll(ids[1..], client)
        case Err(e) =>
          assert forall i :: 0 <= i < |ids| - 1 ==> ids[1..][i] == ids[i + 1];
          Err(e)
        case Ok(us) =>
          assert forall i :: 0 <= i < |ids| - 1 ==> ids[1..][i] == ids[i + 1];
          Ok([u] + us)
  }

  /** The row that a successful creation inserts under the generated id. */
  function NewGroupEvent(id: Id, name: string, description: string, participantIds: seq<Id>, ownerId: Id): (e: GroupEvent)
    ensures e.id == id && e.status == PENDING && SlotConsistent(e)
    ensures e.participantIds == participantIds && e.ownerId == ownerId
    ensures e.name == name && e.description == description
  {
    GroupEvent(id, name, description, ownerId, participantIds, PENDING, None, None, None)
  }

  class GroupEventService {
    const repository: GroupEventRepository

    constructor (repository: GroupEventRepository)
      ensures this.repository == repository
    {
      this.repository := repository;
    }

    /** Resolve the owner, then every participant; save exactly one PENDING event only if all
        of them resolved, with the participant list exactly as given. Any failure saves nothing. */
    method AddGroupEvent(name: string, description: string, participantIds: seq<Id>, ownerId: Id, client: UserClient)
      returns (r: Result<GroupEvent, GroupEventError>)
      requires repository.Valid()
      modifies repository
      ensures repository.Valid()
      ensures r.Ok? <==> client(ownerId).Found? && forall i :: 0 <= i < |participantIds| ==> client(participantIds[i]).Found?
      ensures r.Err? ==> repository.events == old(repository.events) && repository.nextId == old(repository.nextId)
      ensures r.Err? && !client(ownerId).Found? ==> Err(r.error) == GetUserByIdWithCircuitBreaker(ownerId, client(ownerId))
      ensures r.Err? && client(ownerId).Found? ==> Err(r.error) == ResolveAll(participantIds, client)
      ensures r.Ok? ==> && r.value.id !in old(repository.events)
                        && r.value == NewGroupEvent(r.value.id, name, description, participantIds, ownerId)
                        && repository.events == old(repository.events)[r.value.id := r.value]
                        && GetGroupEventById(r.value.id) == Ok(r.value)
    {
      var owner := GetUserByIdWithCircuitBreaker(ownerId, client(ownerId));
      if owner.Err? {
        return Err(owner.error);
      }
      var participants := ResolveAll(participantIds, client);
      if participants.Err? {
        return Err(participants.error);
      }
      var id := repository.nextId;
      var e := NewGroupEvent(id, name, description, participantIds, ownerId);
      repository.events := repository.events[id := e];
      repository.nextId := id + 1;
      r := Ok(e);
    }

    /** The stored event, or EventNotFound when no row has that id. */
    function GetGroupEventById(id: Id): (r: Result<GroupEvent, GroupEventError>)
      reads repository
      ensures r.Ok? <==> id in repository.events
      ensures r.Ok? ==> r.value == repository.events[id]
      ensures r.Err? ==> r.error == EventNotFound(id)
    {
      if id in repository.events then Ok(repository.events[id]) else Err(EventNotFound(id))
    }

    /** Remove the row with that id and no other; an absent id raises EventNotFound and changes nothing. */
    method DeleteGroupEventById(id: Id) returns (r: Result<Unit, GroupEventError>)
      requires repository.Valid()
      modifies repository
      ensures repository.Valid() && repository.nextId == old(repository.nextId)
      ensures r.Ok? <==> id in old(repository.events)
      ensures r.Err? ==> r.error == EventNotFound(id) && repository.events == old(repository.events)
      ensures r.Ok? ==> repository.events == old(repository.events) - {id}
      ensures GetGroupEventById(id) == Err(EventNotFound(id))
    {
      if id !in repository.events {
        return Err(EventNotFound(id));
      }
      repository.events := repository.events - {id};
      r := Ok(Unit);
    }
  }

  /** Creation is all-or-nothing: when one participant of the list does not resolve, the
      fan-out fails, so no event can be saved. */
  lemma {:induction false} OneUnresolvedParticipantFailsFanOut(ids: seq<Id>, client: UserClient, k: nat)
    requires k < |ids| && client(ids[k]).NotFound?
    ensures ResolveAll(ids, client).Err?
    ensures ResolveAll(ids, client).error.UserNotFound? || ResolveAll(ids, client).error.UserServiceError?
            || ResolveAll(ids, client).error.UserServiceUnavailable?
  {
    var r := ResolveAll(ids, client);
    assert !client(ids[k]).Found?;
    var i :| 0 <= i < |ids| && !client(ids[i]).Found? && GetUserByIdWithCircuitBreaker(ids[i], client(ids[i])) == Err(r.error);
  }

  /** When every failing participant is a 404, the fan-out reports UserNotFound for one of them. */
  lemma {:induction false} MissingParticipantsReportUserNotFound(ids: seq<Id>, client: UserClient)
    requires exists k :: 0 <= k < |ids| && !client(ids[k]).Found?
    requires forall k :: 0 <= k < |ids| && !client(ids[k]).Found? ==> client(ids[k]).NotFound?
    ensures ResolveAll(ids, client).Err?
    ensures exists k :: 0 <= k < |ids| && ResolveAll(ids, client).error == UserNotFound(ids[k])
  {
    var r := ResolveAll(ids, client);
    var i :| 0 <= i < |ids| && !client(ids[i]).Found? && GetUserByIdWithCircuitBreaker(ids[i], client(ids[i])) == Err(r.error);
    assert client(ids[i]).NotFound?;
    assert r.error == UserNotFound(ids[i]);
  }
}
