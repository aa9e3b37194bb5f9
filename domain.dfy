/**
 * The records the stores keep (the `User`, `Session`, `Event` and
 * `EventRequest` interfaces), the outcomes their operations report in
 * place of an alert, and the lookups they make over them.
 */
module Domain {
  import opened Wrappers
  import opened JsArray

  /** Ids are `Date.now()` values taken when a record is created. */
  type Id = int
  /** Instants, as milliseconds since the epoch. */
  type Time = int

  datatype User = User(id: Id, fullname: string, username: string, password: string)

  datatype Session = Session(userId: Id, username: string)

  /** An event; `eventType` is kept as the string value of the event-type enumeration. */
  datatype Event = Event(
    id: Id,
    title: string,
    description: string,
    bannerUrl: string,
    eventType: string,
    startDate: Time,
    endDate: Time,
    maxParticipants: int,
    organizedBy: Id,
    participants: seq<Id>)

  /** The form's body for a new event: an `Event` without `id` and `organizedBy`. */
  datatype EventBody = EventBody(
    title: string,
    description: string,
    bannerUrl: string,
    eventType: string,
    startDate: Time,
    endDate: Time,
    maxParticipants: int,
    participants: seq<Id>)

  datatype RequestStatus = Pending | Approved | Rejected

  /** A join request, with the fields the application store writes. */
  datatype EventRequest = EventRequest(id: Id, eventId: Id, requesterId: Id, status: RequestStatus, requestedAt: Time)

  datatype Action = Approve | Reject

  /** What an operation reports to the user: one value per alert it can raise. */
  datatype Outcome =
    | Done
    | UserExists
    | InvalidUsername
    | InvalidPassword
    | NotLoggedIn
    | EventNotFound
    | AlreadyJoined
    | NotJoined
    | AlreadyStarted
    | AlreadyRequested
    | RequestNotFound
    | NotOrganizer

  datatype Result<+T> = Ok(value: T) | Err(error: Outcome)

  /** `!!session`: the `isLoggedIn` flag of both stores. */
  predicate IsLoggedIn(session: Option<Session>)
  {
    session.Some?
  }

  /**
   * `session?.userId` as the event operations test it: absent when there is
   * no session, and also when the user id is 0, which JavaScript treats as false.
   */
  function ActingUser(session: Option<Session>): (r: Option<Id>)
    ensures r.Some? <==> session.Some? && session.value.userId != 0
    ensures r.Some? ==> r.value == session.value.userId
  {
    if session.Some? && session.value.userId != 0 then Some(session.value.userId) else None
  }

  /**
   * The session user that the guarded operations act for is logged in; a
   * session whose user id is 0 is the one case where the two tests disagree.
   */
  lemma ActingUserIsLoggedIn(session: Option<Session>)
    ensures ActingUser(session).Some? ==> IsLoggedIn(session)
    ensures (IsLoggedIn(session) && ActingUser(session).None?) <==> session.Some? && session.value.userId == 0
  {
  }

  /** `users.find(u => u.username === name)`. */
  function FindUser(users: seq<User>, name: string): (r: Option<User>)
    ensures r.None? <==> forall k :: 0 <= k < |users| ==> users[k].username != name
    ensures r.Some? ==> r.value in users && r.value.username == name
    ensures r.Some? ==> exists k :: 0 <= k < |users| && users[k] == r.value
                          && forall j :: 0 <= j < k ==> users[j].username != name
  {
    Find(users, (u: User) => u.username == name)
  }

  /** `events.findIndex(e => e.id === id)`. */
  function EventIndex(events: seq<Event>, id: Id): (i: int)
    ensures -1 <= i < |events|
    ensures i == -1 <==> forall k :: 0 <= k < |events| ==> events[k].id != id
    ensures 0 <= i ==> events[i].id == id && forall k :: 0 <= k < i ==> events[k].id != id
  {
    FindIndex(events, (e: Event) => e.id == id)
  }

  /** `requests.findIndex(r => r.id === id)`. */
  function RequestIndex(requests: seq<EventRequest>, id: Id): (i: int)
    ensures -1 <= i < |requests|
    ensures i == -1 <==> forall k :: 0 <= k < |requests| ==> requests[k].id != id
    ensures 0 <= i ==> requests[i].id == id && forall k :: 0 <= k < i ==> requests[k].id != id
  {
    FindIndex(requests, (r: EventRequest) => r.id == id)
  }

  /** `requests.some(r => r.eventId === eventId && r.requesterId === requesterId)`. */
  predicate HasRequest(requests: seq<EventRequest>, eventId: Id, requesterId: Id): (r: bool)
    ensures r <==> Find(requests, (q: EventRequest) => q.eventId == eventId && q.requesterId == requesterId).Some?
  {
    exists k :: 0 <= k < |requests| && requests[k].eventId == eventId && requests[k].requesterId == requesterId
  }

  /** No id occurs twice in `ids`. */
  predicate Distinct(ids: seq<Id>)
  {
    forall i, j :: 0 <= i < j < |ids| ==> ids[i] != ids[j]
  }
}
