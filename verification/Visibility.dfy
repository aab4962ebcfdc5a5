/** History visibility (synapse/visibility.py): the bulk check of one event for many users, the check for
    one user, and their agreement. */
module EventVisibility {
  import opened Wrappers
  import opened Events

  // ----- Checks on the way to a client -----

  /** Never sent to this client, whatever the history visibility. */
  predicate SendDenied(e: Event, now: int, maxLifetime: Option<int>, senderIgnored: bool) {
    || e.kind == DummyEvent
    || (e.stateKey.None? && senderIgnored)
    || e.kind == RoomAliases
    || (e.stateKey.None? && maxLifetime.Some? && e.originServerTs < now - maxLifetime.value)
  }

  /** Position in the source's priority list, laxest first; unknown values have none. */
  function VisibilityRank(visibility: Visibility): nat
    requires !visibility.OtherVisibility?
  {
    match visibility
    case WorldReadable => 0
    case Shared => 1
    case Invited => 2
    case Joined => 3
  }

  function MembershipRank(membership: Membership): nat
    requires !membership.OtherMembership?
  {
    match membership
    case Join => 0
    case Invite => 1
    case Knock => 2
    case Leave => 3
    case Ban => 4
  }

  function KnownVisibility(visibility: Option<Visibility>): (known: Visibility)
    ensures !known.OtherVisibility?
  {
    if visibility.Some? && !visibility.value.OtherVisibility? then visibility.value else Shared
  }

  function KnownMembership(membership: Option<Membership>): (known: Membership)
    ensures !known.OtherMembership?
  {
    if membership.Some? && !membership.value.OtherMembership? then membership.value else Leave
  }

  function EffectiveVisibility(state: State): (visibility: Visibility)
    ensures !visibility.OtherVisibility?
  {
    if VISIBILITY_KEY in state then KnownVisibility(state[VISIBILITY_KEY].content.historyVisibility) else Shared
  }

  /** A visibility under which membership does not matter. */
  predicate LaxValue(visibility: Visibility, peeking: bool) {
    (visibility == Shared && !peeking) || visibility == WorldReadable
  }

  /** `_check_history_visibility` allows the event: for a visibility change the laxer of old and new counts. */
  predicate Lax(e: Event, visibility: Visibility, peeking: bool)
    requires !visibility.OtherVisibility?
  {
    var previous := KnownVisibility(e.metadata.prevVisibility);
    var effective :=
      if e.kind == RoomHistoryVisibility && VisibilityRank(previous) < VisibilityRank(visibility)
      then previous else visibility;
    LaxValue(effective, peeking)
  }

  datatype MembershipCheck = MembershipCheck(allowed: bool, joined: bool)

  function CheckMembership(user: string, e: Event, visibility: Visibility, state: State, peeking: bool): MembershipCheck
  {
    var own := e.kind == RoomMember && e.stateKey == Some(user);
    var after := KnownMembership(e.content.membership);
    var before := KnownMembership(e.metadata.prevMembership);
    if own && after == Leave && (before == Join || before == Invite) then
      MembershipCheck(true, false)
    else
      var membership :=
        if own then Some(if MembershipRank(before) < MembershipRank(after) then before else after)
        else if MemberKey(user) in state then state[MemberKey(user)].content.membership
        else None;
      if membership == Some(Join) then MembershipCheck(true, true)
      else if visibility == Joined then MembershipCheck(false, false)
      else if visibility == Invited then MembershipCheck(membership == Some(Invite), false)
      else if visibility == Shared && peeking then MembershipCheck(false, false)
      else MembershipCheck(true, false)
  }

  // ----- One user -----

  datatype Sight = Hidden | Redacted | Full

  /** What both checks are asked about. `ignorers` are the users who ignore the sender. */
  datatype Request = Request(
    event: Event,
    prevStateIds: map<StateKey, string>,
    store: map<string, Event>,
    peeking: bool,
    filterSendToClient: bool,
    now: int,
    maxLifetime: Option<int>,
    ignorers: set<string>
  )

  datatype Error = MissingState

  /** `_check_client_allowed_to_see_event`. */
  function CheckClient(request: Request, user: string, alwaysInclude: set<string>, state: Option<State>,
                       senderErased: bool): Result<Sight, Error>
  {
    var e := request.event;
    if request.filterSendToClient && SendDenied(e, request.now, request.maxLifetime, user in request.ignorers) then
      Ok(Hidden)
    else if e.eventId in alwaysInclude then Ok(Full)
    else if e.metadata.outlier then
      Ok(if e.kind == RoomMember && e.stateKey == Some(user) then Full else Hidden)
    else if state.None? then Err(MissingState)
    else
      var visibility := EffectiveVisibility(state.value);
      if !senderErased && Lax(e, visibility, request.peeking) then Ok(Full)
      else
        var check := CheckMembership(user, e, visibility, state.value, request.peeking);
        Ok(if !check.allowed then Hidden else if senderErased && !check.joined then Redacted else Full)
  }

  /** The room state before the event, as far as its events can be loaded. */
  function PrevState(request: Request): State {
    map key <- request.prevStateIds | request.prevStateIds[key] in request.store ::
      request.store[request.prevStateIds[key]]
  }

  function Restrict(state: State, keys: set<StateKey>): State {
    map key <- state | key in keys :: state[key]
  }

  /** The entries loaded for one user: history visibility and the user's own membership. */
  function LoadedFor(request: Request, user: string): State {
    Restrict(Apply(PrevState(request), request.event), {VISIBILITY_KEY, MemberKey(user)})
  }

  /** What `filter_events_for_client` does with the event for one user: soft-failed events are dropped, and the
      state after the event is loaded for the history visibility and the user's own membership. */
  function ClientSees(request: Request, user: string, senderErased: bool): Sight {
    if request.event.metadata.softFailed then Hidden
    else
      var after := if request.event.metadata.outlier then None else Some(LoadedFor(request, user));
      var sight := CheckClient(request, user, {}, after, senderErased);
      if sight.Ok? then sight.value else Hidden
  }

  // ----- Many users -----

  /** `_get_state_map`: loads the filtered previous state, then puts the event itself on top. */
  method GetStateMap(request: Request, filter: set<StateKey>) returns (state: State)
    ensures state == Apply(Restrict(PrevState(request), filter), request.event)
  {
    state := map[];
    ghost var wanted := Restrict(PrevState(request), filter);
    var keys := request.prevStateIds.Keys * filter;
    while keys != {}
      invariant keys <= request.prevStateIds.Keys * filter
      invariant state == map key <- wanted | key !in keys :: wanted[key]
      decreases |keys|
    {
      var key :| key in keys;
      var id := request.prevStateIds[key];
      if id in request.store {
        state := state[key := request.store[id]];
      }
      keys := keys - {key};
    }
    assert state == wanted;
    if request.event.stateKey.Some? {
      state := state[StateKey(request.event.kind, request.event.stateKey.value) := request.event];
    }
  }

  /** The event passes the checks for sending it to this client. */
  predicate Sendable(request: Request, user: string) {
    request.filterSendToClient ==>
      !SendDenied(request.event, request.now, request.maxLifetime, user in request.ignorers)
  }

  method DiscardDenied(request: Request, users: set<string>) returns (allowed: set<string>)
    ensures allowed == set user <- users | Sendable(request, user)
  {
    allowed := users;
    if request.filterSendToClient {
      var left := users;
      while left != {}
        invariant left <= allowed <= users
        invariant forall user <- users - left :: user in allowed <==> Sendable(request, user)
        decreases |left|
      {
        var user :| user in left;
        if SendDenied(request.event, request.now, request.maxLifetime, user in request.ignorers) {
          allowed := allowed - {user};
        }
        left := left - {user};
      }
    }
  }

  /** Loading more entries than one user needs changes neither the visibility nor that user's membership check. */
  lemma LoadedStateSuffices(request: Request, user: string, visibilityFilter: set<StateKey>, filter: set<StateKey>)
    requires !request.event.metadata.softFailed && !request.event.metadata.outlier
    requires VISIBILITY_KEY in visibilityFilter && MemberKey(user) in filter
    ensures var e := request.event;
            var visibility := EffectiveVisibility(Apply(Restrict(PrevState(request), visibilityFilter), e));
            var state := Apply(Restrict(PrevState(request), filter), e);
            ClientSees(request, user, false) != Hidden
            <==> Sendable(request, user)
                 && (|| Lax(e, visibility, request.peeking)
                     || CheckMembership(user, e, visibility, state, request.peeking).allowed)
  {
    TimelineSight(request, user, false);
    SameVisibility(request, user, visibilityFilter);
    SameMembershipCheck(request, user, filter);
  }

  lemma SameVisibility(request: Request, user: string, filter: set<StateKey>)
    requires VISIBILITY_KEY in filter
    ensures EffectiveVisibility(Apply(Restrict(PrevState(request), filter), request.event)) == VisibilityAfter(request)
  {
    var e, prev := request.event, PrevState(request);
    assert SameAt(Apply(Restrict(prev, filter), e), Apply(prev, e), VISIBILITY_KEY);
  }

  lemma SameMembershipCheck(request: Request, user: string, filter: set<StateKey>)
    requires MemberKey(user) in filter
    ensures var e, visibility := request.event, VisibilityAfter(request);
            CheckMembership(user, e, visibility, Apply(Restrict(PrevState(request), filter), e), request.peeking)
            == CheckMembership(user, e, visibility, LoadedFor(request, user), request.peeking)
  {
    var e, prev := request.event, PrevState(request);
    assert SameAt(Apply(Restrict(prev, filter), e), LoadedFor(request, user), MemberKey(user));
  }

  /** The bulk check finds exactly the users whom the check for one user would let see the event. */
  method FilterEventForClients(request: Request, users: set<string>) returns (visible: set<string>)
    ensures visible == set user <- users | ClientSees(request, user, false) != Hidden
  {
    var e := request.event;
    if e.metadata.softFailed {
      return {};
    }
    if users == {} {
      return {};
    }
    var allowed := DiscardDenied(request, users);
    if e.metadata.outlier {
      if e.kind == RoomMember && e.stateKey.Some? && e.stateKey.value in allowed {
        return {e.stateKey.value};
      }
      return {};
    }

    var visibilityState := GetStateMap(request, {VISIBILITY_KEY});
    var visibility := EffectiveVisibility(visibilityState);
    if Lax(e, visibility, request.peeking) {
      forall user <- users
        ensures ClientSees(request, user, false) != Hidden <==> user in allowed
      {
        LoadedStateSuffices(request, user, {VISIBILITY_KEY}, {MemberKey(user)});
      }
      return allowed;
    }

    var filter := (set user <- allowed :: MemberKey(user)) + {VISIBILITY_KEY};
    var state := GetStateMap(request, filter);
    visible := set user <- allowed | CheckMembership(user, e, visibility, state, request.peeking).allowed;
    forall user <- users
      ensures ClientSees(request, user, false) != Hidden <==> user in visible
    {
      LoadedStateSuffices(request, user, {VISIBILITY_KEY}, if user in allowed then filter else {MemberKey(user)});
    }
  }

  // ----- What the checks mean -----

  /** The user's membership around the event: for their own membership event the more joined of old and new. */
  function MembershipAround(request: Request, user: string): Option<Membership> {
    var e := request.event;
    if e.kind == RoomMember && e.stateKey == Some(user) then
      var after, before := KnownMembership(e.content.membership), KnownMembership(e.metadata.prevMembership);
      Some(if MembershipRank(before) < MembershipRank(after) then before else after)
    else
      var state := PrevState(request);
      if MemberKey(user) in state then state[MemberKey(user)].content.membership else None
  }

  /** The visibility in force once the event is applied. */
  function VisibilityAfter(request: Request): (visibility: Visibility)
    ensures !visibility.OtherVisibility?
  {
    EffectiveVisibility(Apply(PrevState(request), request.event))
  }

  predicate OwnMembership(request: Request, user: string) {
    request.event.kind == RoomMember && request.event.stateKey == Some(user)
  }

  /** The user's own departure from the room. */
  predicate OwnDeparture(request: Request, user: string) {
    && OwnMembership(request, user)
    && KnownMembership(request.event.content.membership) == Leave
    && KnownMembership(request.event.metadata.prevMembership) in {Join, Invite}
  }

  /** Reference rule: lax visibility, membership, or an invite where invited users may look. */
  predicate MaySee(request: Request, user: string) {
    var membership, visibility := MembershipAround(request, user), VisibilityAfter(request);
    || LaxValue(visibility, request.peeking)
    || (request.event.kind == RoomHistoryVisibility
        && LaxValue(KnownVisibility(request.event.metadata.prevVisibility), request.peeking))
    || membership == Some(Join)
    || (membership == Some(Invite) && visibility == Invited)
    || OwnDeparture(request, user)
  }

  lemma LaxIsEither(e: Event, visibility: Visibility, peeking: bool)
    requires !visibility.OtherVisibility?
    ensures Lax(e, visibility, peeking)
       <==> LaxValue(visibility, peeking)
            || (e.kind == RoomHistoryVisibility && LaxValue(KnownVisibility(e.metadata.prevVisibility), peeking))
  {
  }

  lemma LoadedEntries(request: Request, user: string)
    ensures EffectiveVisibility(LoadedFor(request, user)) == VisibilityAfter(request)
    ensures !OwnMembership(request, user) ==> SameAt(LoadedFor(request, user), PrevState(request), MemberKey(user))
  {
    var e, prev := request.event, PrevState(request);
    assert SameAt(LoadedFor(request, user), Apply(prev, e), VISIBILITY_KEY);
    assert SameAt(LoadedFor(request, user), Apply(prev, e), MemberKey(user));
  }

  lemma MembershipDecides(request: Request, user: string)
    ensures var visibility, membership := VisibilityAfter(request), MembershipAround(request, user);
            var check := CheckMembership(user, request.event, visibility, LoadedFor(request, user), request.peeking);
            && (check.allowed <==>
                || OwnDeparture(request, user)
                || membership == Some(Join)
                || (membership == Some(Invite) && visibility == Invited)
                || LaxValue(visibility, request.peeking))
            && (check.joined <==> membership == Some(Join) && !OwnDeparture(request, user))
  {
    LoadedEntries(request, user);
  }

  lemma TimelineSight(request: Request, user: string, senderErased: bool)
    requires !request.event.metadata.softFailed && !request.event.metadata.outlier
    ensures var visibility := VisibilityAfter(request);
            var check := CheckMembership(user, request.event, visibility, LoadedFor(request, user), request.peeking);
            ClientSees(request, user, senderErased)
            == if !Sendable(request, user) then Hidden
               else if !senderErased && Lax(request.event, visibility, request.peeking) then Full
               else if !check.allowed then Hidden
               else if senderErased && !check.joined then Redacted
               else Full
  {
    LoadedEntries(request, user);
  }

  /** A user sees an event of the room timeline exactly when it may be sent to them and the reference rule holds. */
  lemma SightIsReference(request: Request, user: string)
    requires !request.event.metadata.softFailed && !request.event.metadata.outlier
    ensures ClientSees(request, user, false) != Hidden <==> Sendable(request, user) && MaySee(request, user)
  {
    TimelineSight(request, user, false);
    LaxIsEither(request.event, VisibilityAfter(request), request.peeking);
    MembershipDecides(request, user);
  }

  /** Erasing the sender hides an event from a user who saw it exactly at a tightening of the history visibility
      that the user's own membership does not reach across; otherwise at most the content is redacted. */
  lemma ErasureHidesExactly(request: Request, user: string)
    ensures ClientSees(request, user, true) == Hidden && ClientSees(request, user, false) != Hidden
            <==> && !request.event.metadata.softFailed && !request.event.metadata.outlier
                 && Sendable(request, user)
                 && request.event.kind == RoomHistoryVisibility
                 && LaxValue(KnownVisibility(request.event.metadata.prevVisibility), request.peeking)
                 && !LaxValue(VisibilityAfter(request), request.peeking)
                 && MembershipAround(request, user) != Some(Join)
                 && !(MembershipAround(request, user) == Some(Invite) && VisibilityAfter(request) == Invited)
    ensures ClientSees(request, user, true) != Hidden ==> ClientSees(request, user, false) == Full
  {
    if !request.event.metadata.softFailed && !request.event.metadata.outlier {
      TimelineSight(request, user, false);
      TimelineSight(request, user, true);
      LaxIsEither(request.event, VisibilityAfter(request), request.peeking);
      MembershipDecides(request, user);
    }
  }

  /** An outsider sees a room being closed to outsiders, unless whoever closed it has been erased. */
  lemma ErasureHidesClosing(e: Event, user: string)
    requires e.kind == RoomHistoryVisibility && e.stateKey == Some("") && e.content.historyVisibility == Some(Joined)
    requires e.metadata == NO_METADATA.(prevVisibility := Some(Shared))
    ensures var request := Request(e, map[], map[], false, true, 0, None, {});
            ClientSees(request, user, false) == Full && ClientSees(request, user, true) == Hidden
  {
    var request := Request(e, map[], map[], false, true, 0, None, {});
    assert Apply(PrevState(request), e)[VISIBILITY_KEY] == e;
    assert VisibilityAfter(request) == Joined && MembershipAround(request, user) == None;
    ErasureHidesExactly(request, user);
    TimelineSight(request, user, false);
  }
}
