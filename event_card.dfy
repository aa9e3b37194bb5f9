/**
 * What an `EventCard` shows for an event: its banner, and which of the
 * join and leave buttons appear, with the join button's state and label.
 */
module EventCard {
  import opened Wrappers
  import opened JsString
  import opened Domain

  /** The card's optional props: absent booleans read as false, `hasOnLeave` says whether `onLeave` was passed. */
  datatype CardProps = CardProps(showJoinBtn: bool, isAlreadyJoined: bool, hasOnLeave: bool)

  datatype JoinButton = JoinButton(disabled: bool, text: string)

  /** The card's actions: the join button if rendered, and whether the leave button is. */
  datatype CardActions = CardActions(join: Option<JoinButton>, leaveShown: bool)

  /** The image source: the trimmed banner URL, or the bundled logo. */
  datatype BannerSource = Uri(uri: string) | DefaultLogo

  /** `eventFull`: as many participants as places, or more. */
  predicate EventFull(e: Event)
  {
    |e.participants| >= e.maxParticipants
  }

  /** The card's actions for event `e` at time `now`. */
  function Actions(e: Event, props: CardProps, now: Time): (r: CardActions)
    ensures r.join.Some? <==> (props.showJoinBtn && !props.isAlreadyJoined) || !props.hasOnLeave
    ensures r.join.Some? ==> (r.join.value.disabled <==> EventFull(e) || props.isAlreadyJoined)
    ensures r.join.Some? && props.isAlreadyJoined ==> r.join.value.text == "Already Joined"
    ensures r.join.Some? && !props.isAlreadyJoined && EventFull(e) ==> r.join.value.text == "Full"
    ensures r.join.Some? && !props.isAlreadyJoined && !EventFull(e) ==> r.join.value.text == "Join"
    ensures r.leaveShown <==> props.isAlreadyJoined && e.endDate > now && props.hasOnLeave
  {
    var full := EventFull(e);
    var join :=
      if (props.showJoinBtn && !props.isAlreadyJoined) || !props.hasOnLeave then
        Some(JoinButton(full || props.isAlreadyJoined,
                        if props.isAlreadyJoined then "Already Joined" else if full then "Full" else "Join"))
      else None;
    CardActions(join, props.isAlreadyJoined && e.endDate > now && props.hasOnLeave)
  }

  /** The two buttons never appear together. */
  lemma AtMostOneButton(e: Event, props: CardProps, now: Time)
    ensures !(Actions(e, props, now).join.Some? && Actions(e, props, now).leaveShown)
  {
  }

  /** The join button is enabled exactly when it reads "Join". */
  lemma EnabledExactlyWhenJoin(e: Event, props: CardProps, now: Time)
    requires Actions(e, props, now).join.Some?
    ensures var b := Actions(e, props, now).join.value; !b.disabled <==> b.text == "Join"
  {
  }

  /** The banner: the trimmed URL when it has any non-whitespace character, the logo otherwise. */
  function Banner(e: Event): (r: BannerSource)
    ensures r == DefaultLogo <==> forall k :: 0 <= k < |e.bannerUrl| ==> IsWhitespace(e.bannerUrl[k])
    ensures r.Uri? ==> r.uri == Trim(e.bannerUrl) && r.uri != [] && IsTrimmed(r.uri)
  {
    var url := Trim(e.bannerUrl);
    if url != [] then Uri(url) else DefaultLogo
  }
}
