/**
 * The device's key-value storage as the stores use it through `StorageUtil`:
 * one field per key, each saved and loaded as a whole.
 */
module Storage {
  import opened Wrappers
  import opened Domain

  class Store {
    /** Key `SESSION`; `None` when the key is absent. */
    var session: Option<Session>
    /** Key `USERS`; an absent key loads as the empty list. */
    var users: seq<User>
    /** Key `EVENTS`; an absent key loads as the empty list. */
    var events: seq<Event>
    /** Key `EVENTS_REQUESTS`; an absent key loads as the empty list. */
    var eventRequests: seq<EventRequest>

    /** Storage on a fresh install: no key written. */
    constructor ()
      ensures session == None && users == [] && events == [] && eventRequests == []
    {
      session := None;
      users := [];
      events := [];
      eventRequests := [];
    }
  }
}
