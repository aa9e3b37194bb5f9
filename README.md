# Super Sports app: application store, verified model

This project models the client-side store of a mobile sports-event app.
Users sign up and log in, create events, join and leave them, and ask to
join events that organisers then approve or reject. The store keeps four
collections in memory: the session, the users, the events and the join
requests. Every change is saved, as a whole collection, to on-device
key-value storage. Two screens derive what they show from these
collections: the event card and "My Events".

The model has these parts:

- `Storage.Store`: the key-value storage, one field per key (`SESSION`,
  `USERS`, `EVENTS`, `EVENTS_REQUESTS`). It stores values, not JSON text.
- `AppContext.AppProvider`: the application store as a class. Its methods
  are `Signup`, `Login`, `Logout`, `JoinEvent`, `CreateEvent`, `LeaveEvent`,
  `CreateRequest`, `ApproveOrRejectRequest` and the three `Load*` reloads.
  Each of the eight operations runs the source's guard chain, updates the
  fields and saves to the store; the reloads only read the store. Each
  guarded operation is proved equal to a function in
  `Transitions`; `Logout` and the reloads state their new fields directly.
- `AuthContext.AuthProvider`: the smaller authentication store (signup,
  login, logout). It shares the same `Transitions` functions.
- `Transitions`: one pure function per operation (`Register`,
  `Authenticate`, `Join`, `Create`, `Leave`, `Request`, `Decide`), and the
  lemmas that state what the operations promise: round trips, idempotence,
  preserved invariants, and the absence of some checks.
- `JsArray` and `JsString`: the JavaScript `findIndex`, `find`, `filter`
  and `trim` that the lookups use. `trim` strips the whitespace and line
  terminators of section 12.2 and 12.3 of ECMA-262.
- `EventCard` and `MyEvents`: the card's buttons and banner, and the
  "My Events" selection.

Each operation reports an `Outcome` in place of its alert text. Record ids
(`Date.now()`) and the current time (`new Date()`) are parameters. Times
are integers (milliseconds).

Behaviour the model keeps from the code, though the app's design intends
otherwise:

- `joinEvent` never checks `maxParticipants`, and neither does approval
  (`Transitions.JoinIgnoresCapacity`).
- `createEvent` takes `participants` from the form's body. It does not
  start them empty.
- `leaveEvent` refuses only when `startDate < now`. An event starting
  exactly now can still be left.
- `createRequest` refuses when any request for the pair exists, including
  a rejected one.
- `approveOrRejectRequest` does not check the request's status
  (`Transitions.DecideIgnoresStatus`). It marks the request approved even
  when the nested join refused.
- `createEvent`, `leaveEvent`, `createRequest` and
  `approveOrRejectRequest` test `session?.userId`, so a session whose user
  id is 0 counts as logged out for them (`Domain.ActingUserIsLoggedIn`).
- `joinEvent` checks no session at all. It adds whichever participant id
  it is given, and the approval path uses it to add the requester.
- `signup` writes only to storage. The `users` list in memory is loaded
  on mount and never refreshed.

## Model

| member | source | states |
|---|---|---|
| `JsString.Trim` | src/context/AppContext.tsx:124 | the result is a slice of the input from which only whitespace was cut, at both ends; it has no whitespace at either end; it is empty exactly when the input is all whitespace; a string with no whitespace at its ends is returned unchanged |
| `JsString.TrimIdempotent` | src/context/AppContext.tsx:124-126 | trimming an already trimmed name again changes nothing, so signup's second trim is harmless |
| `JsArray.FindIndex` | src/context/AppContext.tsx:161 | returns the first index whose element passes the test, or -1 exactly when none passes |
| `JsArray.Find` | src/context/AppContext.tsx:141 | returns nothing exactly when no element passes; otherwise returns the element at the first passing index |
| `JsArray.Filter` | src/app/event/myevent.tsx:13 | `s.filter(p)`, defined by recursion; what it keeps is stated by the four lemmas below |
| `JsArray.FilterOrder` | src/app/event/myevent.tsx:13 | `filter` keeps only passing elements, in their original order (a subsequence), and is never longer than its input |
| `JsArray.FilterCounts` | src/context/AppContext.tsx:221-223 | `filter` keeps each passing element exactly as many times as the input holds it, and drops every failing one |
| `JsArray.FilterMembers` | src/app/event/myevent.tsx:13 | an element is in the filtered list exactly when it is in the input and passes |
| `JsArray.FilterAppend` | src/context/AppContext.tsx:221-223 | filtering a concatenation is the concatenation of the filtered parts |
| `Domain.ActingUser` | src/context/AppContext.tsx:182 | `session?.userId` is truthy exactly when a session exists and its user id is not 0, and then it is that id |
| `Domain.IsLoggedIn` | src/context/AppContext.tsx:58 | `isLoggedIn` is `!!session`: a session is present |
| `Domain.ActingUserIsLoggedIn` | src/context/AppContext.tsx:58 | whenever `session?.userId` lets createEvent, leaveEvent, createRequest or approveOrRejectRequest act for the session user, that user is logged in (`!!session`); the two tests disagree exactly for a session with user id 0 |
| `Domain.FindUser` | src/context/AppContext.tsx:141 | finds nothing exactly when no user has the name; otherwise finds the first user with that name |
| `Domain.EventIndex` | src/context/AppContext.tsx:161 | the index of the first event with the id, or -1 exactly when no event has it |
| `Domain.RequestIndex` | src/context/AppContext.tsx:268 | the index of the first request with the id, or -1 exactly when no request has it |
| `Domain.HasRequest` | src/context/AppContext.tsx:238-240 | `some` holds exactly when `find` on the same test finds a request for this event by this requester |
| `Transitions.Register` | src/context/AppContext.tsx:122-133 | refused with `UserExists` exactly when a stored user has the trimmed username; otherwise the existing users are kept and exactly one user with the trimmed name is appended after them |
| `Transitions.Authenticate` | src/context/AppContext.tsx:139-145 | `InvalidUsername` exactly when no user has the trimmed name; otherwise the first user with that name decides: a session built from its id and username exactly when its password equals the given one (exact, untrimmed comparison), and `InvalidPassword` exactly when it does not |
| `Transitions.AuthenticateUnique` | src/context/AppContext.tsx:141-145 | when usernames are unique, login succeeds exactly when the one user with that name has that password |
| `Transitions.SignupLogsIn` | src/context/AppContext.tsx:131-135 | after a successful signup, the login it runs succeeds with the session of the new user (its id and trimmed name) |
| `Transitions.RegisterKeepsUsernamesUnique` | src/context/AppContext.tsx:126-133 | signup keeps usernames unique |
| `Transitions.Join` | src/context/AppContext.tsx:159-174 | `EventNotFound` exactly when no event has the id; `AlreadyJoined` exactly when the participant is already listed; both change nothing; otherwise the id is appended to that one event's participants and no other event changes |
| `Transitions.JoinTwice` | src/context/AppContext.tsx:166-169 | joining a second time is refused with `AlreadyJoined` and changes nothing |
| `Transitions.JoinIgnoresCapacity` | src/context/AppContext.tsx:166-169 | joining a full event still succeeds and leaves more participants than places |
| `Transitions.JoinKeepsParticipantsDistinct` | src/context/AppContext.tsx:166-169 | joining keeps every participant list free of repeats |
| `Transitions.Create` | src/context/AppContext.tsx:180-194 | without a logged-in user nothing changes; otherwise the existing events are kept and one event follows them, with the given id, the session user as organiser and every other field (participants included) from the body |
| `Transitions.CreateKeepsParticipantsDistinct` | src/context/AppContext.tsx:185-192 | a body whose participants have no repeats keeps every participant list free of repeats |
| `Transitions.Without` | src/context/AppContext.tsx:221-223 | the removed id no longer occurs; every other id keeps its count; the order is kept |
| `Transitions.WithoutKeepsDistinct` | src/context/AppContext.tsx:221-223 | removing an id keeps a list free of repeats |
| `Transitions.Leave` | src/context/AppContext.tsx:202-227 | the guards come in the order session, event, membership, start date, and each changes nothing; leaving succeeds exactly when the user is listed and `now <= startDate`; then every occurrence of the user is removed from that event only |
| `Transitions.LeaveKeepsParticipantsDistinct` | src/context/AppContext.tsx:221-225 | leaving keeps every participant list free of repeats |
| `Transitions.JoinThenLeave` | src/context/AppContext.tsx:159-227 | leaving an event one has just joined, before it starts, restores every event as it was |
| `Transitions.Request` | src/context/AppContext.tsx:233-256 | refused without a logged-in user, and exactly when a request for this event by this user exists (any status); otherwise the existing requests are kept and exactly one pending request follows them |
| `Transitions.RequestKeepsPairsUnique` | src/context/AppContext.tsx:238-256 | requesting keeps at most one request per (event, requester) pair |
| `Transitions.RequestTwice` | src/context/AppContext.tsx:238-243 | a second request for the same event by the same user is refused and changes nothing |
| `Transitions.Organizes` | src/context/AppContext.tsx:275-279 | `event?.organizedBy == session.userId` on the event `find` returns, false when there is none |
| `Transitions.OrganizesFirstEvent` | src/context/AppContext.tsx:275-279 | the user organises the event exactly when the first event with that id has the user as organiser; an unknown event is organised by no one |
| `Transitions.Decide` | src/context/AppContext.tsx:263-289 | refused without a logged-in user, for an unknown request, and exactly when the user does not organise the request's event; otherwise only that request's status changes (to approved or rejected), and approving applies `joinEvent` for the requester whatever it reports |
| `Transitions.ApprovedRequesterParticipates` | src/context/AppContext.tsx:282-284 | after an approval the requester is a participant of the event, whether the join added them or they were listed already |
| `Transitions.DecideIgnoresStatus` | src/context/AppContext.tsx:268-287 | the decision does not depend on the request's current status, so an approved or rejected request can be decided again |
| `Transitions.DecideKeepsPairsUnique` | src/context/AppContext.tsx:282-289 | approving or rejecting keeps at most one request per (event, requester) pair |
| `Transitions.ApprovalScenario` | src/context/AppContext.tsx:180-292 | an organiser's event, a pending request from another user, its approval (the user becomes a participant, the request approved), and a refused second request |
| `Storage.Store.constructor` | src/utils/storage.util.ts:12-20 | on a fresh install no session is stored and every collection loads as empty |
| `AppContext.AppProvider.constructor` | src/context/AppContext.tsx:94-115 | mounting loads the session, users, events and requests from storage |
| `AppContext.AppProvider.IsLoggedIn` | src/context/AppContext.tsx:58 | `isLoggedIn` is `!!session` on the session in memory |
| `AppContext.AppProvider.LoadEvents` | src/context/AppContext.tsx:60-71 | the events in memory become the stored events |
| `AppContext.AppProvider.LoadUsers` | src/context/AppContext.tsx:73-80 | the users in memory become the stored users |
| `AppContext.AppProvider.LoadEventRequests` | src/context/AppContext.tsx:82-92 | the requests in memory become the stored requests |
| `AppContext.AppProvider.Signup` | src/context/AppContext.tsx:117-136 | follows `Register` on the stored users; a refused signup changes nothing and does not log in; a successful one saves the new list and logs in as the new user; the users in memory do not change |
| `AppContext.AppProvider.Login` | src/context/AppContext.tsx:138-152 | follows `Authenticate` on the stored users; a failure changes nothing; a success saves and sets that session |
| `AppContext.AppProvider.Logout` | src/context/AppContext.tsx:154-157 | the stored and in-memory sessions are cleared whatever they were, so logging out twice is logging out once |
| `AppContext.AppProvider.JoinEvent` | src/context/AppContext.tsx:159-178 | follows `Join` on the events in memory; storage is written, with the new events, only when the participant was added |
| `AppContext.AppProvider.CreateEvent` | src/context/AppContext.tsx:180-200 | follows `Create`; on success storage and memory hold the extended events |
| `AppContext.AppProvider.LeaveEvent` | src/context/AppContext.tsx:202-231 | follows `Leave`; on success storage and memory hold the updated events; a refusal changes nothing |
| `AppContext.AppProvider.CreateRequest` | src/context/AppContext.tsx:233-261 | follows `Request`; on success storage and memory hold the extended requests |
| `AppContext.AppProvider.ApproveOrRejectRequest` | src/context/AppContext.tsx:263-295 | follows `Decide`; the requests are saved on every decision, the events only when the nested join added the requester; a refusal saves nothing; if memory and storage agreed before (`Synced()`), they agree afterwards |
| `AuthContext.AuthProvider.constructor` | src/context/AuthContext.tsx:32-39 | mounting loads the session from storage |
| `AuthContext.AuthProvider.IsLoggedIn` | src/context/AuthContext.tsx:30 | `isLoggedIn` is `!!user` on the session in memory |
| `AuthContext.AuthProvider.Signup` | src/context/AuthContext.tsx:41-61 | follows `Register`; a duplicate leaves the users and the session unchanged; otherwise the user is appended and the login with the trimmed name and same password sets the new user's session |
| `AuthContext.AuthProvider.Login` | src/context/AuthContext.tsx:63-77 | follows `Authenticate`; an unknown name or a wrong password leaves the session unchanged; a success saves and sets it |
| `AuthContext.AuthProvider.Logout` | src/context/AuthContext.tsx:79-82 | the stored and in-memory sessions are cleared whatever they were |
| `EventCard.EventFull` | src/components/EventCard.tsx:38 | `eventFull`: at least as many participants as places |
| `EventCard.Actions` | src/components/EventCard.tsx:38-85 | the join button is shown exactly when `showJoinBtn` is set and the event is not joined, or no `onLeave` is given; it is disabled exactly when the event is full (`participants >= maxParticipants`) or joined; its label is "Already Joined" if joined, else "Full" if full, else "Join"; the leave button is shown exactly when joined, `endDate > now` and `onLeave` is given |
| `EventCard.AtMostOneButton` | src/components/EventCard.tsx:75-85 | the join and leave buttons never appear together |
| `EventCard.EnabledExactlyWhenJoin` | src/components/EventCard.tsx:78-81 | the join button is enabled exactly when its label is "Join" |
| `EventCard.Banner` | src/components/EventCard.tsx:43-46 | the logo exactly when the banner URL is all whitespace; otherwise the trimmed, non-empty URL |
| `MyEvents.Select` | src/app/event/myevent.tsx:12-14 | every selected event lists the user; each event is selected exactly as many times as the list holds it when it lists the user, and never otherwise; the selection keeps the original order, and is never longer than the list |
| `MyEvents.SelectedCardActions` | src/app/event/myevent.tsx:24-28 | a card on this screen shows no join button, and a leave button until the event ends |

`Synced()` on `AppProvider` says that the session, events and requests in
memory equal the stored ones. Every `AppProvider` operation keeps it.

## Left out

- Storage faults: `StorageUtil` catches and logs every error. The store
  is a total in-memory value with no I/O faults, and it holds values
  rather than JSON text.
- JSON round trips: after a reload, dates come back as strings, and the
  `startDate < new Date()` test in `leaveEvent` compares a string with a
  Date. The model compares integers.
- Async interleaving: each operation runs atomically, one at a time.
- Alerts: each alert becomes an `Outcome`. Their texts are not modelled,
  including the "approved" text shown after a rejection.
- Navigation (`router.replace`), `console.log`, the loading flags, and the
  React hooks and dependency lists.
- `Date.now()` ids and `new Date()` times are parameters. The code does not
  make ids unique, and the model assumes nothing about them.
- The event-type enumeration is not part of this model. `eventType` is
  kept as its string value.
- `formatDate` (locale formatting), the new-event form
  (`src/app/event/new.tsx`), the filter popover
  (`src/components/EventFilter.tsx`), and the presentation-only screens.
- `AppContext.AppProvider.JoinEvent`: takes the event's id rather than the
  event object, because the code reads only `event.id`.
- `MyEvents.Select`: takes the session, as the screen asserts (`user!`).
  The crash when no one is logged in is not modelled.
