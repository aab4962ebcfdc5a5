/** Who sees an event, read straight off the event and the room state before it, without the ranks and defaults of the
    code in module EventVisibility, which is proved to follow. */
module VisibilityRules {
  import opened Wrappers
  import opened Events
  import opened EventVisibility

  // ----- What the rules read -----

  /** The event that stood under this key before the event, if it can be loaded. */
  function EntryBefore(request: Request, key: StateKey): Option<Event> {
    if key in request.prevStateIds && request.prevStateIds[key] in request.store
    then Some(request.store[request.prevStateIds[key]]) else None
  }

  /** Settings that are missing or unknown count as shared. */
  function SettingOf(visibility: Option<Visibility>): Visibility {
    match visibility
    case Some(WorldReadable) => WorldReadable
    case Some(Invited) => Invited
    case Some(Joined) => Joined
    case _ => Shared
  }

  /** The history visibility once the event has happened. */
  function SettingAfter(request: Request): Visibility {
    var e, key := request.event, StateKey(RoomHistoryVisibility, "");
    if e.kind == RoomHistoryVisibility && e.stateKey == Some("") then SettingOf(e.content.historyVisibility)
    else match EntryBefore(request, key)
      case Some(entry) => SettingOf(entry.content.historyVisibility)
      case None => Shared
  }

  /** Membership does not matter: everybody may look, or at least everybody with access to the room. */
  predicate OpenTo(visibility: Visibility, peeking: bool) {
    match visibility
    case WorldReadable => true
    case Shared => !peeking
    case _ => false
  }

  predicate IsOwn(request: Request, user: string) {
    request.event.kind == RoomMember && request.event.stateKey == Some(user)
  }

  /** The user was a member just before the event, or becomes one by it. */
  predicate JoinedAround(request: Request, user: string) {
    if IsOwn(request, user) then
      request.event.content.membership == Some(Join) || request.event.metadata.prevMembership == Some(Join)
    else
      var entry := EntryBefore(request, StateKey(RoomMember, user));
      entry.Some? && entry.value.content.membership == Some(Join)
  }

  /** Not a member, but invited just before the event or by it. */
  predicate InvitedAround(request: Request, user: string) {
    if IsOwn(request, user) then
      && !JoinedAround(request, user)
      && (request.event.content.membership == Some(Invite) || request.event.metadata.prevMembership == Some(Invite))
    else
      var entry := EntryBefore(request, StateKey(RoomMember, user));
      entry.Some? && entry.value.content.membership == Some(Invite)
  }

  /** The user leaves by this event, or it says nothing sensible, after a join or an invite. */
  predicate LeavesBy(request: Request, user: string) {
    && IsOwn(request, user)
    && (match request.event.content.membership
        case Some(Leave) => true
        case Some(OtherMembership(_)) => true
        case None => true
        case _ => false)
    && (request.event.metadata.prevMembership == Some(Join) || request.event.metadata.prevMembership == Some(Invite))
  }

  /** Clients get no dummies and no aliases, and no messages they ignore or that have expired. */
  predicate ReachesClients(request: Request, user: string) {
    request.filterSendToClient ==>
      && request.event.kind != DummyEvent && request.event.kind != RoomAliases
      && (request.event.stateKey.None? ==>
            && user !in request.ignorers
            && (request.maxLifetime.Some? ==> request.event.originServerTs >= request.now - request.maxLifetime.value))
  }

  /** The event was, or becomes, visible whatever the membership. */
  predicate LaxAround(request: Request) {
    || OpenTo(SettingAfter(request), request.peeking)
    || (request.event.kind == RoomHistoryVisibility
        && OpenTo(SettingOf(request.event.metadata.prevVisibility), request.peeking))
  }

  predicate MembershipSuffices(request: Request, user: string) {
    || JoinedAround(request, user)
    || LeavesBy(request, user)
    || (InvitedAround(request, user) && SettingAfter(request) == Invited)
    || OpenTo(SettingAfter(request), request.peeking)
  }

  /** What a user sees of an event. */
  function SightOf(request: Request, user: string, senderErased: bool): Sight {
    if request.event.metadata.softFailed || !ReachesClients(request, user) then Hidden
    else if request.event.metadata.outlier then if IsOwn(request, user) then Full else Hidden
    else if !senderErased then
      if LaxAround(request) || MembershipSuffices(request, user) then Full else Hidden
    else if !MembershipSuffices(request, user) then Hidden
    else if JoinedAround(request, user) && !LeavesBy(request, user) then Full
    else Redacted
  }

  // ----- Agreement with the code -----

  lemma SettingAgrees(request: Request)
    ensures VisibilityAfter(request) == SettingAfter(request)
    ensures KnownVisibility(request.event.metadata.prevVisibility) == SettingOf(request.event.metadata.prevVisibility)
  {
    var e, key := request.event, StateKey(RoomHistoryVisibility, "");
    assert SameAt(Apply(PrevState(request), e), if e.kind == RoomHistoryVisibility && e.stateKey == Some("")
                                                then map[key := e] else PrevState(request), key);
  }

  /** For a user's own membership event the more joined of the old and the new membership counts: join if either is,
      else invite if either is. */
  lemma AroundAgrees(request: Request, user: string)
    ensures MembershipAround(request, user) == Some(Join) <==> JoinedAround(request, user)
    ensures MembershipAround(request, user) == Some(Invite) <==> InvitedAround(request, user)
    ensures OwnDeparture(request, user) <==> LeavesBy(request, user)
  {
  }

  lemma SendableAgrees(request: Request, user: string)
    ensures Sendable(request, user) <==> ReachesClients(request, user)
  {
  }

  lemma LaxAgrees(request: Request)
    ensures Lax(request.event, VisibilityAfter(request), request.peeking) <==> LaxAround(request)
  {
    SettingAgrees(request);
    LaxIsEither(request.event, VisibilityAfter(request), request.peeking);
  }

  lemma MembershipCheckAgrees(request: Request, user: string)
    ensures var check := CheckMembership(user, request.event, VisibilityAfter(request), LoadedFor(request, user),
                                         request.peeking);
            && (check.allowed <==> MembershipSuffices(request, user))
            && (check.joined <==> JoinedAround(request, user) && !LeavesBy(request, user))
  {
    SettingAgrees(request);
    AroundAgrees(request, user);
    MembershipDecides(request, user);
  }

  /** What the code shows a user of an event, in full, redacted or not at all, is what the rules say. */
  lemma SightExactly(request: Request, user: string, senderErased: bool)
    ensures ClientSees(request, user, senderErased) == SightOf(request, user, senderErased)
  {
    SendableAgrees(request, user);
    if !request.event.metadata.softFailed && !request.event.metadata.outlier {
      TimelineSight(request, user, senderErased);
      LaxAgrees(request);
      MembershipCheckAgrees(request, user);
    }
  }

  /** Whatever the settings, users see their own joins and departures. */
  lemma OwnJoinsAreSeen(request: Request, user: string)
    requires !request.event.metadata.softFailed && ReachesClients(request, user) && IsOwn(request, user)
    requires request.event.content.membership == Some(Join) || LeavesBy(request, user)
    ensures ClientSees(request, user, false) == Full
  {
    SightExactly(request, user, false);
  }
}
