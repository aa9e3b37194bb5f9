/**
 * The application store (`AppProvider`): the session, users, events and
 * join requests held in memory, and the operations that check, change and
 * save them.
 */
module AppContext {
  import opened Wrappers
  import opened JsString
  import opened Domain
  import opened Transitions
  import opened Storage

  class AppProvider {
    var session: Option<Session>
    var users: seq<User>
    var events: seq<Event>
    var eventRequests: seq<EventRequest>
    /** The storage every operation saves to. */
    const store: Store

    /** Mounting the provider: the session and the three collections are loaded from storage. */
    constructor (store: Store)
      ensures this.store == store
      ensures session == store.session && users == store.users
      ensures events == store.events && eventRequests == store.eventRequests
    {
      this.store := store;
      session := store.session;
      users := store.users;
      events := store.events;
      eventRequests := store.eventRequests;
    }

    /** `isLoggedIn`. */
    predicate IsLoggedIn()
      reads this
    {
      Domain.IsLoggedIn(session)
    }

    /**
     * The session, events and requests in memory are the ones in storage.
     * (Users are not part of it: they are loaded on mount only.)
     */
    predicate Synced()
      reads this, store
    {
      session == store.session && events == store.events && eventRequests == store.eventRequests
    }

    /** `loadEvents`. */
    method LoadEvents()
      modifies this`events
      ensures events == store.events
    {
      events := store.events;
    }

    /** `loadUsers`. */
    method LoadUsers()
      modifies this`users
      ensures users == store.users
    {
      users := store.users;
    }

    /** `loadEventRequests`. */
    method LoadEventRequests()
      modifies this`eventRequests
      ensures eventRequests == store.eventRequests
    {
      eventRequests := store.eventRequests;
    }

    /**
     * `login`: checks the stored users and, on success, saves and sets the
     * session. The body runs the guards of `Transitions.Authenticate` line by
     * line; the `ensures` says it agrees with that function.
     */
    method Login(username: string, password: string) returns (outcome: Outcome)
      modifies this`session, store`session
      ensures match Authenticate(store.users, username, password)
        case Ok(s) => outcome == Done && session == Some(s) && store.session == Some(s)
        case Err(e) => outcome == e && session == old(session) && store.session == old(store.session)
      ensures old(Synced()) ==> Synced()
    {
      var users := store.users;
      var user := FindUser(users, Trim(username));
      if user.None? {
        return InvalidUsername;
      }
      if user.value.password != password {
        return InvalidPassword;
      }
      var s := Session(user.value.id, user.value.username);
      store.session := Some(s);
      session := Some(s);
      return Done;
    }

    /**
     * `signup`: checks and appends to the stored users (not to the users in
     * memory), then logs in with the trimmed name, which always succeeds.
     * The body runs the guards of `Transitions.Register` line by line; the
     * `ensures` says it agrees with that function.
     */
    method Signup(id: Id, fullname: string, username: string, password: string) returns (outcome: Outcome)
      modifies this`session, store`users, store`session
      ensures match Register(old(store.users), id, fullname, username, password)
        case Err(e) =>
          outcome == e && store.users == old(store.users)
          && session == old(session) && store.session == old(store.session)
        case Ok(after) =>
          outcome == Done && store.users == after
          && session == Some(Session(id, Trim(username))) && store.session == session
      ensures users == old(users)
      ensures old(Synced()) ==> Synced()
    {
      var stored := store.users;
      var name := Trim(username);
      ghost var registered := Register(stored, id, fullname, username, password);
      if FindUser(stored, Trim(name)).Some? {
        assert registered == Err(UserExists);
        return UserExists;
      }
      assert registered == Ok(stored + [User(id, fullname, name, password)]);
      store.users := stored + [User(id, fullname, name, password)];
      SignupLogsIn(stored, id, fullname, username, password);
      outcome := Login(name, password);
    }

    /** `logout`: removes the stored session and clears the one in memory. */
    method Logout()
      modifies this`session, store`session
      ensures session == None && store.session == None
      ensures old(Synced()) ==> Synced()
    {
      store.session := None;
      session := None;
    }

    /**
     * `joinEvent` for the event with id `eventId`: no session is needed and
     * no capacity is checked; storage is written only when the participant
     * was added.
     */
    method JoinEvent(eventId: Id, participantId: Id) returns (outcome: Outcome)
      modifies this`events, store`events
      ensures var r := Join(old(events), eventId, participantId);
        && outcome == r.outcome && events == r.value
        && store.events == if r.outcome == Done then events else old(store.events)
      ensures old(Synced()) ==> Synced()
    {
      var i := EventIndex(events, eventId);
      if i == -1 {
        return EventNotFound;
      }
      if participantId in events[i].participants {
        return AlreadyJoined;
      }
      events := events[i := events[i].(participants := events[i].participants + [participantId])];
      store.events := events;
      return Done;
    }

    /** `createEvent`: saves the events in memory plus the new one, then reloads them. */
    method CreateEvent(body: EventBody, id: Id) returns (outcome: Outcome)
      modifies this`events, store`events
      ensures var r := Create(old(events), session, body, id);
        && outcome == r.outcome && events == r.value
        && store.events == if r.outcome == Done then events else old(store.events)
      ensures old(Synced()) ==> Synced()
    {
      var userId := ActingUser(session);
      if userId.None? {
        return NotLoggedIn;
      }
      var e := Event(id, body.title, body.description, body.bannerUrl, body.eventType,
                     body.startDate, body.endDate, body.maxParticipants, userId.value, body.participants);
      store.events := events + [e];
      LoadEvents();
      return Done;
    }

    /** `leaveEvent` at time `now`: removes the session user from the event, saves and reloads. */
    method LeaveEvent(eventId: Id, now: Time) returns (outcome: Outcome)
      modifies this`events, store`events
      ensures var r := Leave(old(events), session, eventId, now);
        && outcome == r.outcome && events == r.value
        && store.events == if r.outcome == Done then events else old(store.events)
      ensures old(Synced()) ==> Synced()
    {
      var userId := ActingUser(session);
      if userId.None? {
        return NotLoggedIn;
      }
      var i := EventIndex(events, eventId);
      if i == -1 {
        return EventNotFound;
      }
      if userId.value !in events[i].participants {
        return NotJoined;
      }
      if events[i].startDate < now {
        return AlreadyStarted;
      }
      events := events[i := events[i].(participants := Without(events[i].participants, userId.value))];
      store.events := events;
      LoadEvents();
      return Done;
    }

    /** `createRequest` with the new request's id and time: appends a pending request, saves and reloads. */
    method CreateRequest(eventId: Id, id: Id, now: Time) returns (outcome: Outcome)
      modifies this`eventRequests, store`eventRequests
      ensures var r := Request(old(eventRequests), session, eventId, id, now);
        && outcome == r.outcome && eventRequests == r.value
        && store.eventRequests == if r.outcome == Done then eventRequests else old(store.eventRequests)
      ensures old(Synced()) ==> Synced()
    {
      var userId := ActingUser(session);
      if userId.None? {
        return NotLoggedIn;
      }
      if HasRequest(eventRequests, eventId, userId.value) {
        return AlreadyRequested;
      }
      store.eventRequests := eventRequests + [EventRequest(id, eventId, userId.value, Pending, now)];
      LoadEventRequests();
      return Done;
    }

    /**
     * `approveOrRejectRequest`: approving runs `joinEvent` for the requester
     * and marks the request approved whatever it reported; the requests are
     * then saved and reloaded.
     */
    method ApproveOrRejectRequest(requestId: Id, action: Action) returns (outcome: Outcome)
      modifies this`events, this`eventRequests, store`events, store`eventRequests
      ensures var d := Decide(old(events), old(eventRequests), session, requestId, action);
        && outcome == d.outcome && events == d.events && eventRequests == d.requests
        && store.events == (if d.joined == Some(Done) then events else old(store.events))
        && store.eventRequests == (if d.outcome == Done then eventRequests else old(store.eventRequests))
      ensures old(Synced()) ==> Synced()
    {
      var userId := ActingUser(session);
      if userId.None? {
        return NotLoggedIn;
      }
      var i := RequestIndex(eventRequests, requestId);
      if i == -1 {
        return RequestNotFound;
      }
      var request := eventRequests[i];
      // `events.find` returns the event `events.findIndex` points at
      var e := EventIndex(events, request.eventId);
      if e == -1 || events[e].organizedBy != userId.value {
        return NotOrganizer;
      }
      ghost var decided := Decide(events, eventRequests, session, requestId, action);
      if action == Approve {
        var joined := JoinEvent(events[e].id, request.requesterId);
        assert decided.events == events && decided.joined == Some(joined);
        eventRequests := eventRequests[i := request.(status := Approved)];
      } else {
        eventRequests := eventRequests[i := request.(status := Rejected)];
      }
      assert eventRequests == decided.requests;
      store.eventRequests := eventRequests;
      LoadEventRequests();
      return Done;
    }
  }
}
