/** The "My Events" screen's selection: the events the session user takes part in. */
module MyEvents {
  import opened Wrappers
  import opened JsArray
  import opened Domain
  import opened EventCard

  /**
   * `events.filter(event => event.participants.includes(user.userId))`;
   * the screen assumes a session (`user!`).
   */
  function Select(events: seq<Event>, user: Session): (r: seq<Event>)
    ensures |r| <= |events|
    ensures forall k :: 0 <= k < |r| ==> user.userId in r[k].participants
    ensures forall e :: e in events && user.userId in e.participants ==> e in r
    ensures IsSubsequence(r, events)
    ensures forall e :: multiset(r)[e] == if user.userId in e.participants then multiset(events)[e] else 0
  {
    var mine := (e: Event) => user.userId in e.participants;
    FilterCounts(events, mine);
    FilterOrder(events, mine);
    FilterMembers(events, mine);
    Filter(events, mine)
  }

  /**
   * The screen renders each selected event as a card marked joined and
   * given a leave handler: no join button, and a leave button until the
   * event ends.
   */
  lemma SelectedCardActions(e: Event, now: Time)
    ensures Actions(e, CardProps(false, true, true), now) == CardActions(None, e.endDate > now)
  {
  }
}
