/**
 * What each operation of the application store does to the collections it
 * reads, as a function of those collections and its inputs. The stores'
 * methods are proved to follow these functions; the lemmas here state what
 * the operations promise, alone and in combination.
 */
module Transitions {
  import opened Wrappers
  import opened JsString
  import opened JsArray
  import opened Domain

  /** The outcome of an operation together with the collection it leaves behind. */
  datatype Step<T> = Step(outcome: Outcome, value: T)

  // ---------------------------------------------------------------- accounts

  /** No two users share a username. */
  predicate UniqueUsernames(users: seq<User>)
  {
    forall i, j :: 0 <= i < j < |users| ==> users[i].username != users[j].username
  }

  /**
   * signup's duplicate check and append: the username is trimmed, a user
   * with exactly that username refuses the signup, and otherwise one user
   * is appended after all existing ones.
   */
  function Register(users: seq<User>, id: Id, fullname: string, username: string, password: string): (r: Result<seq<User>>)
    ensures r.Err? <==> exists k :: 0 <= k < |users| && users[k].username == Trim(username)
    ensures r.Err? ==> r.error == UserExists
    ensures r.Ok? ==> |r.value| == |users| + 1 && r.value[..|users|] == users
    ensures r.Ok? ==> r.value[|users|] == User(id, fullname, Trim(username), password)
  {
    var name := Trim(username);
    // the stored name is trimmed, then trimmed again for the comparison
    if FindUser(users, Trim(name)).Some? then Err(UserExists)
    else Ok(users + [User(id, fullname, name, password)])
  }

  /**
   * login's lookup: the first user whose username equals the trimmed
   * `username`, then an exact, untrimmed password comparison.
   */
  function Authenticate(users: seq<User>, username: string, password: string): (r: Result<Session>)
    ensures r.Err? ==> r.error == InvalidUsername || r.error == InvalidPassword
    ensures r == Err(InvalidUsername) <==> forall k :: 0 <= k < |users| ==> users[k].username != Trim(username)
    ensures r != Err(InvalidUsername) ==>
      exists k :: 0 <= k < |users| && users[k].username == Trim(username)
                  && (forall j :: 0 <= j < k ==> users[j].username != Trim(username))
                  && (r.Ok? <==> users[k].password == password)
                  && (r.Ok? ==> r.value == Session(users[k].id, users[k].username))
  {
    match FindUser(users, Trim(username))
    case None => Err(InvalidUsername)
    case Some(u) => if u.password != password then Err(InvalidPassword) else Ok(Session(u.id, u.username))
  }

  /** With unique usernames, login decides on the one user with that name alone. */
  lemma AuthenticateUnique(users: seq<User>, k: nat, username: string, password: string)
    requires UniqueUsernames(users)
    requires k < |users| && users[k].username == Trim(username)
    ensures Authenticate(users, username, password)
         == if users[k].password == password then Ok(Session(users[k].id, users[k].username)) else Err(InvalidPassword)
  {
    var u := FindUser(users, Trim(username));
    assert u.Some?;
    var j :| 0 <= j < |users| && users[j] == u.value && forall i :: 0 <= i < j ==> users[i].username != Trim(username);
    assert j == k;
  }

  /** A name no stored user has is found in the user appended with it. */
  lemma FindAppendedUser(users: seq<User>, u: User)
    requires forall k :: 0 <= k < |users| ==> users[k].username != u.username
    ensures FindUser(users + [u], u.username) == Some(u)
  {
    var after := users + [u];
    var found := FindUser(after, u.username);
    assert after[|users|] == u;
    var k :| 0 <= k < |after| && after[k] == found.value && forall j :: 0 <= j < k ==> after[j].username != u.username;
    assert k == |users|;
  }

  /** A successful signup's own login finds the new user and logs in as it. */
  lemma SignupLogsIn(users: seq<User>, id: Id, fullname: string, username: string, password: string)
    requires Register(users, id, fullname, username, password).Ok?
    ensures Authenticate(Register(users, id, fullname, username, password).value, Trim(username), password)
         == Ok(Session(id, Trim(username)))
  {
    var name := Trim(username);
    var u := User(id, fullname, name, password);
    assert Trim(name) == name;
    assert Register(users, id, fullname, username, password).value == users + [u];
    FindAppendedUser(users, u);
  }

  /** Signup keeps usernames unique. */
  lemma RegisterKeepsUsernamesUnique(users: seq<User>, id: Id, fullname: string, username: string, password: string)
    requires UniqueUsernames(users)
    requires Register(users, id, fullname, username, password).Ok?
    ensures UniqueUsernames(Register(users, id, fullname, username, password).value)
  {
    var after := Register(users, id, fullname, username, password).value;
    forall i, j | 0 <= i < j < |after| ensures after[i].username != after[j].username {
      if j == |users| {
        assert after[i] == users[i];
      } else {
        assert after[i] == users[i] && after[j] == users[j];
      }
    }
  }

  // ---------------------------------------------------------------- events

  /** Every event lists each participant once. */
  predicate ParticipantsDistinct(events: seq<Event>)
  {
    forall k :: 0 <= k < |events| ==> Distinct(events[k].participants)
  }

  /** `a` and `b` hold events with the same ids at the same positions. */
  predicate SameIds(a: seq<Event>, b: seq<Event>)
  {
    |a| == |b| && forall k :: 0 <= k < |a| ==> a[k].id == b[k].id
  }

  /** Looking an event up by id depends only on the ids. */
  lemma EventIndexBySameIds(a: seq<Event>, b: seq<Event>, id: Id)
    requires SameIds(a, b)
    ensures EventIndex(a, id) == EventIndex(b, id)
  {
  }

  /**
   * joinEvent: an unknown id or a participant already listed changes
   * nothing; otherwise the participant is appended to that one event,
   * whatever its capacity.
   */
  function Join(events: seq<Event>, eventId: Id, participantId: Id): (r: Step<seq<Event>>)
    ensures |r.value| == |events|
    ensures r.outcome == Done || r.outcome == EventNotFound || r.outcome == AlreadyJoined
    ensures r.outcome == EventNotFound <==> forall k :: 0 <= k < |events| ==> events[k].id != eventId
    ensures r.outcome == AlreadyJoined <==>
      0 <= EventIndex(events, eventId) && participantId in events[EventIndex(events, eventId)].participants
    ensures r.outcome != Done ==> r.value == events
    ensures r.outcome == Done ==>
      var i := EventIndex(events, eventId);
      && 0 <= i
      && r.value[i] == events[i].(participants := events[i].participants + [participantId])
      && forall k :: 0 <= k < |events| && k != i ==> r.value[k] == events[k]
  {
    var i := EventIndex(events, eventId);
    if i == -1 then Step(EventNotFound, events)
    else if participantId in events[i].participants then Step(AlreadyJoined, events)
    else Step(Done, events[i := events[i].(participants := events[i].participants + [participantId])])
  }

  /** Joining twice is joining once: the second attempt is refused and changes nothing. */
  lemma JoinTwice(events: seq<Event>, eventId: Id, participantId: Id)
    requires Join(events, eventId, participantId).outcome == Done
    ensures var once := Join(events, eventId, participantId).value;
            Join(once, eventId, participantId) == Step(AlreadyJoined, once)
  {
    var once := Join(events, eventId, participantId).value;
    EventIndexBySameIds(events, once, eventId);
    var i := EventIndex(events, eventId);
    assert once[i].participants[|once[i].participants| - 1] == participantId;
  }

  /** No capacity check: joining a full event still succeeds and overfills it. */
  lemma JoinIgnoresCapacity(events: seq<Event>, eventId: Id, participantId: Id)
    requires 0 <= EventIndex(events, eventId)
    requires participantId !in events[EventIndex(events, eventId)].participants
    requires |events[EventIndex(events, eventId)].participants| >= events[EventIndex(events, eventId)].maxParticipants
    ensures Join(events, eventId, participantId).outcome == Done
    ensures var i := EventIndex(events, eventId);
            |Join(events, eventId, participantId).value[i].participants| > events[i].maxParticipants
  {
  }

  /** The membership check before the append keeps participant lists free of repeats. */
  lemma JoinKeepsParticipantsDistinct(events: seq<Event>, eventId: Id, participantId: Id)
    requires ParticipantsDistinct(events)
    ensures ParticipantsDistinct(Join(events, eventId, participantId).value)
  {
    var r := Join(events, eventId, participantId);
    if r.outcome == Done {
      var i := EventIndex(events, eventId);
      var ps := events[i].participants;
      var qs := ps + [participantId];
      assert Distinct(ps);
      forall a, b | 0 <= a < b < |qs| ensures qs[a] != qs[b] {
        if b == |ps| { assert qs[a] == ps[a]; }
      }
      assert r.value[i].participants == qs;
    }
  }

  /** The fields of an event that come from the form's body. */
  predicate FromBody(e: Event, body: EventBody)
  {
    && e.title == body.title && e.description == body.description && e.bannerUrl == body.bannerUrl
    && e.eventType == body.eventType && e.startDate == body.startDate && e.endDate == body.endDate
    && e.maxParticipants == body.maxParticipants && e.participants == body.participants
  }

  /**
   * createEvent: without a logged-in user nothing changes; otherwise one
   * event with the given id, organised by the session user and carrying
   * the body's fields (its participants included), follows the existing ones.
   */
  function Create(events: seq<Event>, session: Option<Session>, body: EventBody, id: Id): (r: Step<seq<Event>>)
    ensures r.outcome == Done || r.outcome == NotLoggedIn
    ensures r.outcome == NotLoggedIn <==> ActingUser(session).None?
    ensures r.outcome == NotLoggedIn ==> r.value == events
    ensures r.outcome == Done ==>
      && |r.value| == |events| + 1 && r.value[..|events|] == events
      && r.value[|events|].id == id && r.value[|events|].organizedBy == session.value.userId
      && FromBody(r.value[|events|], body)
  {
    match ActingUser(session)
    case None => Step(NotLoggedIn, events)
    case Some(organizer) =>
      var e := Event(id, body.title, body.description, body.bannerUrl, body.eventType,
                     body.startDate, body.endDate, body.maxParticipants, organizer, body.participants);
      Step(Done, events + [e])
  }

  /** A new event whose body lists no one twice keeps participant lists free of repeats. */
  lemma CreateKeepsParticipantsDistinct(events: seq<Event>, session: Option<Session>, body: EventBody, id: Id)
    requires ParticipantsDistinct(events) && Distinct(body.participants)
    ensures ParticipantsDistinct(Create(events, session, body, id).value)
  {
    var r := Create(events, session, body, id);
    if r.outcome == Done {
      forall k | 0 <= k < |r.value| ensures Distinct(r.value[k].participants) {
        if k < |events| { assert r.value[k] == r.value[..|events|][k]; }
      }
    }
  }

  /** `ids.filter(p => p !== x)`: every occurrence of `x` removed, the rest kept in order. */
  function Without(ids: seq<Id>, x: Id): (r: seq<Id>)
    ensures x !in r
    ensures forall y :: y != x ==> multiset(r)[y] == multiset(ids)[y]
    ensures IsSubsequence(r, ids)
  {
    var keep := (p: Id) => p != x;
    FilterCounts(ids, keep);
    FilterOrder(ids, keep);
    assert multiset(Filter(ids, keep))[x] == 0;
    Filter(ids, keep)
  }

  /** Removing an id just appended removes exactly that append. */
  lemma WithoutAppended(ids: seq<Id>, x: Id)
    requires x !in ids
    ensures Without(ids + [x], x) == ids
  {
    var keep := (p: Id) => p != x;
    FilterAppend(ids, [x], keep);
    FilterKeepsAll(ids, keep);
    assert Filter([x], keep) == [];
  }

  /** Removing ids keeps a list free of repeats. */
  lemma WithoutKeepsDistinct(ids: seq<Id>, x: Id)
    requires Distinct(ids)
    ensures Distinct(Without(ids, x))
  {
    var r := Without(ids, x);
    forall a, b | 0 <= a < b < |r| ensures r[a] != r[b] {
      if r[a] == r[b] {
        assert multiset(r)[r[a]] >= 2 by {
          var m := multiset(r[..a+1]) + multiset(r[a+1..]);
          assert r == r[..a+1] + r[a+1..];
          assert r[a] in r[..a+1] && r[b] in r[a+1..];
        }
        DistinctCountsOne(ids, r[a]);
      }
    }
  }

  /** In a list free of repeats, every id occurs at most once. */
  lemma {:induction false} DistinctCountsOne(ids: seq<Id>, y: Id)
    requires Distinct(ids)
    ensures multiset(ids)[y] <= 1
  {
    if ids != [] {
      assert ids == [ids[0]] + ids[1..];
      DistinctCountsOne(ids[1..], y);
      if ids[0] == y {
        assert y !in ids[1..];
      }
    }
  }

  /**
   * leaveEvent: the guards come in the order session, event, membership,
   * start date, and any of them changes nothing; an event starting exactly
   * now may still be left. On success every occurrence of the user is
   * removed from that one event.
   */
  function Leave(events: seq<Event>, session: Option<Session>, eventId: Id, now: Time): (r: Step<seq<Event>>)
    ensures |r.value| == |events|
    ensures r.outcome in {Done, NotLoggedIn, EventNotFound, NotJoined, AlreadyStarted}
    ensures r.outcome == NotLoggedIn <==> ActingUser(session).None?
    ensures r.outcome == EventNotFound <==>
      ActingUser(session).Some? && forall k :: 0 <= k < |events| ==> events[k].id != eventId
    ensures r.outcome == NotJoined <==>
      && ActingUser(session).Some? && 0 <= EventIndex(events, eventId)
      && ActingUser(session).value !in events[EventIndex(events, eventId)].participants
    ensures r.outcome == Done <==>
      && ActingUser(session).Some? && 0 <= EventIndex(events, eventId)
      && ActingUser(session).value in events[EventIndex(events, eventId)].participants
      && now <= events[EventIndex(events, eventId)].startDate
    ensures r.outcome != Done ==> r.value == events
    ensures r.outcome == Done ==>
      var i := EventIndex(events, eventId);
      && r.value[i] == events[i].(participants := Without(events[i].participants, session.value.userId))
      && forall k :: 0 <= k < |events| && k != i ==> r.value[k] == events[k]
  {
    match ActingUser(session)
    case None => Step(NotLoggedIn, events)
    case Some(userId) =>
      var i := EventIndex(events, eventId);
      if i == -1 then Step(EventNotFound, events)
      else if userId !in events[i].participants then Step(NotJoined, events)
      else if events[i].startDate < now then Step(AlreadyStarted, events)
      else Step(Done, events[i := events[i].(participants := Without(events[i].participants, userId))])
  }

  /** Leaving keeps participant lists free of repeats. */
  lemma LeaveKeepsParticipantsDistinct(events: seq<Event>, session: Option<Session>, eventId: Id, now: Time)
    requires ParticipantsDistinct(events)
    ensures ParticipantsDistinct(Leave(events, session, eventId, now).value)
  {
    var r := Leave(events, session, eventId, now);
    if r.outcome == Done {
      var i := EventIndex(events, eventId);
      WithoutKeepsDistinct(events[i].participants, session.value.userId);
    }
  }

  /** Leaving an event one has just joined, before it starts, restores every event. */
  lemma JoinThenLeave(events: seq<Event>, session: Option<Session>, eventId: Id, now: Time)
    requires ActingUser(session).Some?
    requires Join(events, eventId, session.value.userId).outcome == Done
    requires now <= events[EventIndex(events, eventId)].startDate
    ensures Leave(Join(events, eventId, session.value.userId).value, session, eventId, now) == Step(Done, events)
  {
    var u := session.value.userId;
    var joined := Join(events, eventId, u).value;
    var i := EventIndex(events, eventId);
    EventIndexBySameIds(events, joined, eventId);
    assert u in joined[i].participants by {
      assert joined[i].participants[|joined[i].participants| - 1] == u;
    }
    WithoutAppended(events[i].participants, u);
    var left := Leave(joined, session, eventId, now).value;
    assert left[i] == events[i];
    assert left == events;
  }

  // ---------------------------------------------------------------- requests

  /** At most one request per (event, requester) pair. */
  predicate UniquePairs(requests: seq<EventRequest>)
  {
    forall i, j :: 0 <= i < j < |requests| ==>
      requests[i].eventId != requests[j].eventId || requests[i].requesterId != requests[j].requesterId
  }

  /**
   * createRequest: refused without a logged-in user, and when any request
   * of this user for this event exists, whatever its status; otherwise one
   * pending request is appended.
   */
  function Request(requests: seq<EventRequest>, session: Option<Session>, eventId: Id, id: Id, now: Time): (r: Step<seq<EventRequest>>)
    ensures r.outcome == Done || r.outcome == NotLoggedIn || r.outcome == AlreadyRequested
    ensures r.outcome == NotLoggedIn <==> ActingUser(session).None?
    ensures r.outcome == AlreadyRequested <==>
      ActingUser(session).Some? && HasRequest(requests, eventId, session.value.userId)
    ensures r.outcome != Done ==> r.value == requests
    ensures r.outcome == Done ==>
      && |r.value| == |requests| + 1 && r.value[..|requests|] == requests
      && r.value[|requests|] == EventRequest(id, eventId, session.value.userId, Pending, now)
  {
    match ActingUser(session)
    case None => Step(NotLoggedIn, requests)
    case Some(userId) =>
      if HasRequest(requests, eventId, userId) then Step(AlreadyRequested, requests)
      else Step(Done, requests + [EventRequest(id, eventId, userId, Pending, now)])
  }

  /** Requesting keeps (event, requester) pairs unique. */
  lemma RequestKeepsPairsUnique(requests: seq<EventRequest>, session: Option<Session>, eventId: Id, id: Id, now: Time)
    requires UniquePairs(requests)
    ensures UniquePairs(Request(requests, session, eventId, id, now).value)
  {
    var r := Request(requests, session, eventId, id, now);
    if r.outcome == Done {
      forall i, j | 0 <= i < j < |r.value|
        ensures r.value[i].eventId != r.value[j].eventId || r.value[i].requesterId != r.value[j].requesterId
      {
        assert r.value[i] == requests[i];
        if j < |requests| { assert r.value[j] == requests[j]; }
      }
    }
  }

  /** After any request by a logged-in user, a second one for the same event is refused. */
  lemma RequestTwice(requests: seq<EventRequest>, session: Option<Session>, eventId: Id, id: Id, now: Time, id2: Id, now2: Time)
    requires ActingUser(session).Some?
    ensures var once := Request(requests, session, eventId, id, now).value;
            Request(once, session, eventId, id2, now2) == Step(AlreadyRequested, once)
  {
    var r := Request(requests, session, eventId, id, now);
    if r.outcome == Done {
      assert r.value[|requests|].eventId == eventId;
    }
  }

  /** The outcome of `approveOrRejectRequest` and the collections it leaves. */
  datatype Decision = Decision(outcome: Outcome, joined: Option<Outcome>, events: seq<Event>, requests: seq<EventRequest>)

  /** `events.find(e => e.id === eventId)?.organizedBy == userId`. */
  predicate Organizes(events: seq<Event>, eventId: Id, userId: Id)
  {
    var i := EventIndex(events, eventId);
    0 <= i && events[i].organizedBy == userId
  }

  /**
   * The organiser test reads the first event with the id only; an unknown
   * event is organised by no one.
   */
  lemma OrganizesFirstEvent(events: seq<Event>, eventId: Id, userId: Id)
    ensures Organizes(events, eventId, userId) <==>
      exists k :: 0 <= k < |events| && events[k].id == eventId && events[k].organizedBy == userId
                  && forall j :: 0 <= j < k ==> events[j].id != eventId
  {
    var i := EventIndex(events, eventId);
    if i != -1 {
      assert events[i].id == eventId && forall j :: 0 <= j < i ==> events[j].id != eventId;
    }
  }

  /** The request's new status. */
  function Resolved(action: Action): RequestStatus
  {
    if action == Approve then Approved else Rejected
  }

  /**
   * approveOrRejectRequest: refused without a logged-in user, for an
   * unknown request id, and unless the user organises the request's event.
   * Otherwise approving first runs joinEvent for the requester and then
   * marks the request approved whatever the join reported; rejecting marks
   * it rejected. A request already approved or rejected is not refused.
   */
  function Decide(events: seq<Event>, requests: seq<EventRequest>, session: Option<Session>, requestId: Id, action: Action): (r: Decision)
    ensures r.outcome in {Done, NotLoggedIn, RequestNotFound, NotOrganizer}
    ensures r.outcome == NotLoggedIn <==> ActingUser(session).None?
    ensures r.outcome == RequestNotFound <==>
      ActingUser(session).Some? && forall k :: 0 <= k < |requests| ==> requests[k].id != requestId
    ensures r.outcome == Done <==>
      && ActingUser(session).Some? && 0 <= RequestIndex(requests, requestId)
      && Organizes(events, requests[RequestIndex(requests, requestId)].eventId, session.value.userId)
    ensures r.outcome != Done ==> r.joined.None? && r.events == events && r.requests == requests
    ensures r.outcome == Done ==>
      var i := RequestIndex(requests, requestId);
      && |r.requests| == |requests|
      && r.requests[i] == requests[i].(status := Resolved(action))
      && forall k :: 0 <= k < |requests| && k != i ==> r.requests[k] == requests[k]
    ensures r.outcome == Done && action == Reject ==> r.joined.None? && r.events == events
    ensures r.outcome == Done && action == Approve ==>
      var q := requests[RequestIndex(requests, requestId)];
      var j := Join(events, q.eventId, q.requesterId);
      r.joined == Some(j.outcome) && r.events == j.value
  {
    match ActingUser(session)
    case None => Decision(NotLoggedIn, None, events, requests)
    case Some(userId) =>
      var i := RequestIndex(requests, requestId);
      if i == -1 then Decision(RequestNotFound, None, events, requests)
      else
        var q := requests[i];
        if !Organizes(events, q.eventId, userId) then Decision(NotOrganizer, None, events, requests)
        else if action == Approve then
          var j := Join(events, q.eventId, q.requesterId);
          Decision(Done, Some(j.outcome), j.value, requests[i := q.(status := Approved)])
        else Decision(Done, None, events, requests[i := q.(status := Rejected)])
  }

  /**
   * After an approval the requester takes part in the event, whether the
   * join added them or they were there already.
   */
  lemma ApprovedRequesterParticipates(events: seq<Event>, requests: seq<EventRequest>, session: Option<Session>, requestId: Id)
    requires Decide(events, requests, session, requestId, Approve).outcome == Done
    ensures var q := requests[RequestIndex(requests, requestId)];
            var after := Decide(events, requests, session, requestId, Approve).events;
            0 <= EventIndex(after, q.eventId) && q.requesterId in after[EventIndex(after, q.eventId)].participants
  {
    var q := requests[RequestIndex(requests, requestId)];
    var j := Join(events, q.eventId, q.requesterId);
    EventIndexBySameIds(events, j.value, q.eventId);
    if j.outcome == Done {
      var i := EventIndex(events, q.eventId);
      assert j.value[i].participants[|j.value[i].participants| - 1] == q.requesterId;
    }
  }

  /** Looking a request up by id does not depend on any request's status. */
  lemma RequestIndexIgnoresStatus(requests: seq<EventRequest>, k: nat, status: RequestStatus, requestId: Id)
    requires k < |requests|
    ensures RequestIndex(requests[k := requests[k].(status := status)], requestId) == RequestIndex(requests, requestId)
  {
    var other := requests[k := requests[k].(status := status)];
    assert forall n :: 0 <= n < |other| ==> other[n].id == requests[n].id;
  }

  /**
   * No terminal-state guard: whatever status the request has (pending,
   * approved or rejected), approving or rejecting it again decides the
   * same way and leaves the same collections.
   */
  lemma DecideIgnoresStatus(events: seq<Event>, requests: seq<EventRequest>, session: Option<Session>, requestId: Id, action: Action, status: RequestStatus)
    requires 0 <= RequestIndex(requests, requestId)
    ensures var i := RequestIndex(requests, requestId);
            var a := Decide(events, requests, session, requestId, action);
            var b := Decide(events, requests[i := requests[i].(status := status)], session, requestId, action);
            a.outcome == b.outcome && a.joined == b.joined && a.events == b.events
            && (a.outcome == Done ==> a.requests == b.requests)
  {
    var i := RequestIndex(requests, requestId);
    var other := requests[i := requests[i].(status := status)];
    RequestIndexIgnoresStatus(requests, i, status, requestId);
    assert other[i].(status := Resolved(action)) == requests[i].(status := Resolved(action));
  }

  /** Approving or rejecting keeps (event, requester) pairs unique. */
  lemma DecideKeepsPairsUnique(events: seq<Event>, requests: seq<EventRequest>, session: Option<Session>, requestId: Id, action: Action)
    requires UniquePairs(requests)
    ensures UniquePairs(Decide(events, requests, session, requestId, action).requests)
  {
    var r := Decide(events, requests, session, requestId, action);
    if r.outcome == Done {
      var i := RequestIndex(requests, requestId);
      forall a, b | 0 <= a < b < |r.requests|
        ensures r.requests[a].eventId != r.requests[b].eventId || r.requests[a].requesterId != r.requests[b].requesterId
      {
        assert r.requests[a].eventId == requests[a].eventId && r.requests[a].requesterId == requests[a].requesterId;
        assert r.requests[b].eventId == requests[b].eventId && r.requests[b].requesterId == requests[b].requesterId;
      }
    }
  }

  /**
   * A worked run: Alice creates an event for two, Bob asks to join, Alice
   * approves, and Bob takes part; a second request by Bob is refused.
   */
  lemma ApprovalScenario()
    ensures
      var alice, bob := Some(Session(1, "alice")), Some(Session(2, "bob"));
      var body := EventBody("5v5 Football", "Knockout", "", "football", 100, 200, 2, []);
      var created := Create([], alice, body, 10);
      var requested := Request([], bob, 10, 20, 50);
      var decided := Decide(created.value, requested.value, alice, 20, Approve);
      && created.outcome == Done && requested.outcome == Done && decided.outcome == Done
      && decided.requests == [EventRequest(20, 10, 2, Approved, 50)]
      && decided.events[0].participants == [2]
      && Request(decided.requests, bob, 10, 21, 60).outcome == AlreadyRequested
  {
    var alice, bob := Some(Session(1, "alice")), Some(Session(2, "bob"));
    var body := EventBody("5v5 Football", "Knockout", "", "football", 100, 200, 2, []);
    var created := Create([], alice, body, 10);
    var requested := Request([], bob, 10, 20, 50);
    assert EventIndex(created.value, 10) == 0;
    assert RequestIndex(requested.value, 20) == 0;
    var decided := Decide(created.value, requested.value, alice, 20, Approve);
    assert decided.requests[0] == EventRequest(20, 10, 2, Approved, 50);
  }
}
