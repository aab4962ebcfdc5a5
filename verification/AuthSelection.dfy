/** Auth event selection is sufficient: the entries named by `AuthTypes` decide every verdict. */
module AuthSelection {
  import opened Wrappers
  import opened RoomVersions
  import opened Events
  import opened EventAuth

  ghost predicate AgreeOn(s: State, t: State, keys: set<StateKey>) {
    forall key <- keys :: SameAt(s, t, key)
  }

  /** No two room states that agree on the selected entries disagree about `e`. */
  ghost predicate SelectionSuffices(validServer: string -> bool, e: Event) {
    && AuthTypes(e.version, e).Ok?
    && forall s: State, t: State | AgreeOn(s, t, AuthTypes(e.version, e).value) ::
         CheckStateDependent(validServer, e, s) == CheckStateDependent(validServer, e, t)
  }

  // ----- What the rules read -----

  lemma SameUserLevel(user: string, s: State, t: State)
    requires SameAt(s, t, POWER_KEY) && SameAt(s, t, CREATE_KEY)
    ensures UserLevel(user, s) == UserLevel(user, t)
    ensures InviteLevel(s) == InviteLevel(t) && BanLevel(s) == BanLevel(t)
    ensures KickLevel(s) == KickLevel(t) && RedactLevel(s) == RedactLevel(t)
  {
  }

  lemma SameAuthoriser(e: Event, s: State, t: State)
    requires SameAt(s, t, POWER_KEY) && SameAt(s, t, CREATE_KEY)
    requires e.content.authorisingUser.Some? ==> SameAt(s, t, MemberKey(e.content.authorisingUser.value))
    ensures CheckAuthoriser(e, s) == CheckAuthoriser(e, t)
  {
    if e.content.authorisingUser.Some? {
      SameUserLevel(e.content.authorisingUser.value, s, t);
    }
  }

  lemma SameJoin(e: Event, target: string, p: Parties, s: State, t: State)
    requires e.version.knockRestrictedJoinRule ==> e.version.restrictedJoinRule
    requires SameAt(s, t, POWER_KEY) && SameAt(s, t, CREATE_KEY) && SameAt(s, t, JOIN_RULES_KEY)
    requires e.version.restrictedJoinRule && e.content.authorisingUser.Some?
             ==> SameAt(s, t, MemberKey(e.content.authorisingUser.value))
    ensures CheckJoin(e, target, p, s) == CheckJoin(e, target, p, t)
  {
    assert JoinRuleIn(s) == JoinRuleIn(t);
    if e.version.restrictedJoinRule {
      SameAuthoriser(e, s, t);
    }
  }

  /** The states agree on what a membership change reads beside the create event, the levels and the members. */
  ghost predicate AgreeOnChange(e: Event, membership: Membership, s: State, t: State) {
    && (membership in {Join, Invite, Knock} ==> SameAt(s, t, JOIN_RULES_KEY))
    && (membership == Join && e.version.restrictedJoinRule && e.content.authorisingUser.Some?
        ==> SameAt(s, t, MemberKey(e.content.authorisingUser.value)))
    && (membership == Invite && e.content.thirdPartyInvite.Some? && e.content.thirdPartyInvite.value.token.Some?
        ==> SameAt(s, t, StateKey(RoomThirdPartyInvite, e.content.thirdPartyInvite.value.token.value)))
  }

  lemma SameInvite(e: Event, target: string, p: Parties, s: State, t: State)
    requires SameAt(s, t, POWER_KEY) && AgreeOnChange(e, Invite, s, t)
    ensures CheckInvite(p, s) == CheckInvite(p, t)
    ensures e.content.thirdPartyInvite.Some? ==>
              CheckThirdPartyInvite(e, target, p, e.content.thirdPartyInvite.value, s)
              == CheckThirdPartyInvite(e, target, p, e.content.thirdPartyInvite.value, t)
  {
  }

  lemma SameTransition(e: Event, membership: Membership, target: string, p: Parties, s: State, t: State)
    requires e.version.knockRestrictedJoinRule ==> e.version.restrictedJoinRule
    requires SameAt(s, t, POWER_KEY) && SameAt(s, t, CREATE_KEY) && AgreeOnChange(e, membership, s, t)
    ensures CheckTransition(e, membership, target, p, s) == CheckTransition(e, membership, target, p, t)
  {
    SameUserLevel(e.sender, s, t);
    match membership
    case Join => SameJoin(e, target, p, s, t);
    case Knock => assert JoinRuleIn(s) == JoinRuleIn(t);
    case Invite => SameInvite(e, target, p, s, t);
    case _ =>
  }

  lemma SameParties(e: Event, target: string, s: State, t: State)
    requires SameAt(s, t, POWER_KEY) && SameAt(s, t, CREATE_KEY)
    requires SameAt(s, t, MemberKey(e.sender)) && SameAt(s, t, MemberKey(target))
    ensures PartiesIn(e, target, s) == PartiesIn(e, target, t)
  {
    SameUserLevel(e.sender, s, t);
    SameUserLevel(target, s, t);
  }

  lemma AgreementForMember(e: Event, s: State, t: State)
    requires e.kind == RoomMember && AuthTypes(e.version, e).Ok? && AgreeOn(s, t, AuthTypes(e.version, e).value)
    ensures SameAt(s, t, POWER_KEY) && SameAt(s, t, CREATE_KEY)
    ensures SameAt(s, t, MemberKey(e.sender)) && SameAt(s, t, MemberKey(e.stateKey.value))
    ensures AgreeOnChange(e, e.content.membership.value, s, t)
  {
  }

  lemma SameMembershipVerdict(e: Event, s: State, t: State)
    requires e.version.knockRestrictedJoinRule ==> e.version.restrictedJoinRule
    requires e.content.membership.Some? && e.stateKey.Some?
    requires SameAt(s, t, POWER_KEY) && SameAt(s, t, CREATE_KEY)
    requires SameAt(s, t, MemberKey(e.sender)) && SameAt(s, t, MemberKey(e.stateKey.value))
    requires AgreeOnChange(e, e.content.membership.value, s, t)
    ensures CheckMembershipChange(e, s) == CheckMembershipChange(e, t)
  {
    var membership, target := e.content.membership.value, e.stateKey.value;
    assert IsCreatorJoin(e, membership, target, s) == IsCreatorJoin(e, membership, target, t);
    SameParties(e, target, s, t);
    var parties := PartiesIn(e, target, s);
    if parties.Ok? {
      SameTransition(e, membership, target, parties.value, s, t);
    }
  }

  lemma SameCanSend(validServer: string -> bool, e: Event, s: State, t: State)
    requires SameAt(s, t, POWER_KEY) && SameAt(s, t, CREATE_KEY)
    ensures CheckCanSend(validServer, e, s) == CheckCanSend(validServer, e, t)
  {
    SameUserLevel(e.sender, s, t);
    if e.stateKey.Some? {
      var owner := StateKeyOwner(validServer, e.stateKey.value);
      if owner.Some? {
        SameUserLevel(owner.value, s, t);
      }
    }
  }

  lemma SameVerdictInRoom(validServer: string -> bool, e: Event, s: State, t: State)
    requires e.kind != RoomCreate && e.kind != RoomMember
    requires SameAt(s, t, POWER_KEY) && SameAt(s, t, CREATE_KEY) && SameAt(s, t, MemberKey(e.sender))
    requires e.kind == RoomPowerLevels && e.stateKey.Some? ==> SameAt(s, t, StateKey(e.kind, e.stateKey.value))
    ensures CheckStateDependent(validServer, e, s) == CheckStateDependent(validServer, e, t)
  {
    SameUserLevel(e.sender, s, t);
    SameCanSend(validServer, e, s, t);
  }

  lemma SameVerdictOnMember(validServer: string -> bool, e: Event, s: State, t: State)
    requires e.version.knockRestrictedJoinRule ==> e.version.restrictedJoinRule
    requires e.kind == RoomMember && e.content.membership.Some? && e.stateKey.Some?
    requires SameAt(s, t, POWER_KEY) && SameAt(s, t, CREATE_KEY)
    requires SameAt(s, t, MemberKey(e.sender)) && SameAt(s, t, MemberKey(e.stateKey.value))
    requires AgreeOnChange(e, e.content.membership.value, s, t)
    ensures CheckStateDependent(validServer, e, s) == CheckStateDependent(validServer, e, t)
  {
    SameMembershipVerdict(e, s, t);
  }

  lemma SameVerdict(validServer: string -> bool, e: Event, s: State, t: State)
    requires Known(e.version)
    requires AuthTypes(e.version, e).Ok? && AgreeOn(s, t, AuthTypes(e.version, e).value)
    requires e.kind == RoomPowerLevels && e.stateKey.Some? && e.stateKey.value != ""
             ==> SameAt(s, t, StateKey(e.kind, e.stateKey.value))
    ensures CheckStateDependent(validServer, e, s) == CheckStateDependent(validServer, e, t)
  {
    if e.kind == RoomMember {
      KnockRestrictedNeedsRestricted(e.version);
      AgreementForMember(e, s, t);
      SameVerdictOnMember(validServer, e, s, t);
    } else if e.kind != RoomCreate {
      var keys := AuthTypes(e.version, e).value;
      assert POWER_KEY in keys && CREATE_KEY in keys && MemberKey(e.sender) in keys;
      SameVerdictInRoom(validServer, e, s, t);
    }
  }

  // ----- The one gap -----

  /** A sender may put state under this key if powerful enough: it is not another user's. */
  predicate KeyCanBeWritten(validServer: string -> bool, e: Event) {
    && e.stateKey.Some?
    && var key := e.stateKey.value;
       || key == "" || key[0] != '@' || key == e.sender
       || (e.version.msc3757Enabled && StateKeyOwner(validServer, key).Some?)
  }

  /** A power levels event under a non-empty state key that some room state would accept. */
  predicate SelectionGap(validServer: string -> bool, e: Event) {
    && e.kind == RoomPowerLevels
    && e.stateKey.Some? && e.stateKey.value != ""
    && KeyCanBeWritten(validServer, e)
    && UsersValid(e.content.powers)
    && DomainOf(e.roomId).Ok? && DomainOf(e.sender).Ok?
  }

  function PlainEvent(e: Event, id: string, kind: EventType, key: string, content: Content): Event {
    Event(id, e.roomId, e.sender, kind, Some(key), [], [], None, 0, content, NO_METADATA, e.version)
  }

  /** A state in which the sender is joined, outranks everybody and may send anything. */
  function OpenState(e: Event): State {
    map[
      CREATE_KEY := PlainEvent(e, "$create", RoomCreate, "", NO_CONTENT.(creator := Some(e.sender))),
      MemberKey(e.sender) := PlainEvent(e, "$member", RoomMember, e.sender, NO_CONTENT.(membership := Some(Join))),
      POWER_KEY := PlainEvent(e, "$levels", RoomPowerLevels, "",
                              NO_CONTENT.(powers := NO_POWERS.(users := map[e.sender := 1], stateDefault := Some(0))))
    ]
  }

  /** The open state, plus an event under the key of `e` whose default level nobody may change. */
  function GuardedState(e: Event): State
    requires e.stateKey.Some?
  {
    var proposed := e.content.powers.usersDefault.GetOr(0);
    var level := if proposed < 1 then 2 else proposed + 1;
    OpenState(e)[StateKey(e.kind, e.stateKey.value) :=
      PlainEvent(e, "$guard", e.kind, e.stateKey.value, NO_CONTENT.(powers := NO_POWERS.(usersDefault := Some(level))))]
  }

  lemma GapShows(validServer: string -> bool, e: Event)
    requires SelectionGap(validServer, e)
    ensures CheckStateDependent(validServer, e, OpenState(e)).Ok?
    ensures CheckStateDependent(validServer, e, GuardedState(e)).Err?
    ensures AgreeOn(OpenState(e), GuardedState(e), AuthTypes(e.version, e).value)
  {
    var key := StateKey(e.kind, e.stateKey.value);
    assert key !in OpenState(e);
    var guarded := GuardedState(e);
    var before, after := guarded[key].content.powers, e.content.powers;
    assert UserLevel(e.sender, guarded) == Ok(1);
    assert !MayChangeLevel(e.sender, 1, UsersDefaultRef,
                           LevelAt(before, UsersDefaultRef), LevelAt(after, UsersDefaultRef));
    assert Compared(e.version, UsersDefaultRef);
    assert !LevelChangesAllowed(e.version, e.sender, 1, before, after);
  }

  lemma NoGapMeansSameVerdict(validServer: string -> bool, e: Event, s: State, t: State)
    requires Known(e.version) && !SelectionGap(validServer, e)
    requires AuthTypes(e.version, e).Ok? && AgreeOn(s, t, AuthTypes(e.version, e).value)
    ensures CheckStateDependent(validServer, e, s) == CheckStateDependent(validServer, e, t)
  {
    if e.kind == RoomPowerLevels && e.stateKey.Some? && e.stateKey.value != "" {
      // Rejected before the unselected entry is read, in both states for the same reason.
      var keys := AuthTypes(e.version, e).value;
      assert POWER_KEY in keys && CREATE_KEY in keys && MemberKey(e.sender) in keys;
      SameCanSend(validServer, e, s, t);
    } else {
      SameVerdict(validServer, e, s, t);
    }
  }

  /** Auth event selection suffices for an event of a listed room version if and only if it is not a
      writable power levels event under a non-empty state key. */
  lemma SelectionSufficesExactly(validServer: string -> bool, e: Event)
    requires Known(e.version) && AuthTypes(e.version, e).Ok?
    ensures SelectionSuffices(validServer, e) <==> !SelectionGap(validServer, e)
  {
    if SelectionGap(validServer, e) {
      GapShows(validServer, e);
    } else {
      forall s: State, t: State | AgreeOn(s, t, AuthTypes(e.version, e).value)
        ensures CheckStateDependent(validServer, e, s) == CheckStateDependent(validServer, e, t)
      {
        NoGapMeansSameVerdict(validServer, e, s, t);
      }
    }
  }

  // ----- Checking against the cited events -----

  /** The dictionary built from a list of auth events; a later event replaces an earlier one. */
  function StateOf(events: seq<Event>): State {
    if events == [] then map[] else Apply(StateOf(events[..|events| - 1]), events[|events| - 1])
  }

  lemma {:induction false} StateOfDistinct(events: seq<Event>)
    requires forall i | 0 <= i < |events| :: events[i].stateKey.Some?
    requires forall i, j | 0 <= i < j < |events| :: KeyOf(events[i]) != KeyOf(events[j])
    ensures forall i | 0 <= i < |events| ::
              KeyOf(events[i]) in StateOf(events) && StateOf(events)[KeyOf(events[i])] == events[i]
    ensures forall key <- StateOf(events) :: exists i | 0 <= i < |events| :: KeyOf(events[i]) == key
  {
    if events != [] {
      var rest := events[..|events| - 1];
      StateOfDistinct(rest);
      forall key <- StateOf(events)
        ensures exists i | 0 <= i < |events| :: KeyOf(events[i]) == key
      {
        if key != KeyOf(events[|events| - 1]) {
          var i :| 0 <= i < |rest| && KeyOf(rest[i]) == key;
          assert events[i] == rest[i];
        }
      }
    }
  }

  /** A state whose entries sit under their own keys, belong to the room and were not rejected. */
  ghost predicate RoomState(state: State, roomId: string) {
    forall key <- state ::
      && state[key].stateKey.Some? && KeyOf(state[key]) == key
      && state[key].roomId == roomId && !state[key].metadata.rejected
  }

  /** `e` cites each entry of `state` under its auth types, once, and nothing else. */
  ghost predicate CitesSelection(store: Store, state: State, e: Event) {
    && AuthTypes(e.version, e).Ok?
    && var keys, ids := AuthTypes(e.version, e).value, e.authEventIds;
    && (forall i | 0 <= i < |ids| ::
          && ids[i] in store && store[ids[i]].stateKey.Some?
          && var key := KeyOf(store[ids[i]]);
             key in keys && key in state && state[key] == store[ids[i]])
    && (forall i, j | 0 <= i < j < |ids| :: KeyOf(store[ids[i]]) != KeyOf(store[ids[j]]))
    && (forall key <- keys | key in state :: exists i | 0 <= i < |ids| :: KeyOf(store[ids[i]]) == key)
  }

  function Cited(store: Store, e: Event): seq<Event>
    requires forall id <- e.authEventIds :: id in store
  {
    seq(|e.authEventIds|, i requires 0 <= i < |e.authEventIds| => store[e.authEventIds[i]])
  }

  lemma CitationsAllowed(store: Store, state: State, e: Event)
    requires e.kind != RoomCreate && RoomState(state, e.roomId) && CitesSelection(store, state, e)
    ensures IndependentlyAllowed(store, e) <==> CREATE_KEY in state
  {
    var keys, ids := AuthTypes(e.version, e).value, e.authEventIds;
    assert forall i | 0 <= i < |ids| :: GoodCitation(store, e, keys, ids[i]);
    assert CREATE_KEY in keys;
  }

  lemma CitedStateAgrees(store: Store, state: State, e: Event)
    requires CitesSelection(store, state, e)
    ensures AgreeOn(StateOf(Cited(store, e)), state, AuthTypes(e.version, e).value)
  {
    var keys, ids, cited := AuthTypes(e.version, e).value, e.authEventIds, Cited(store, e);
    StateOfDistinct(cited);
    forall key <- keys
      ensures SameAt(StateOf(cited), state, key)
    {
      if key in state {
        var i :| 0 <= i < |ids| && KeyOf(store[ids[i]]) == key;
        assert cited[i] == state[key];
      }
      if key in StateOf(cited) {
        var i :| 0 <= i < |cited| && KeyOf(cited[i]) == key;
      }
    }
  }

  /** An event that cites its selection passes the state-independent rules exactly when the room has a
      create event, and checking it against the cited events gives the verdict of the whole state. */
  lemma CitedEventsDecide(validServer: string -> bool, store: Store, state: State, e: Event)
    requires Known(e.version) && e.kind != RoomCreate
    requires RoomState(state, e.roomId) && CitesSelection(store, state, e)
    ensures IndependentlyAllowed(store, e) <==> CREATE_KEY in state
    ensures !SelectionGap(validServer, e) ==>
              CheckStateDependent(validServer, e, StateOf(Cited(store, e)))
              == CheckStateDependent(validServer, e, state)
  {
    CitationsAllowed(store, state, e);
    CitedStateAgrees(store, state, e);
    if !SelectionGap(validServer, e) {
      NoGapMeansSameVerdict(validServer, e, StateOf(Cited(store, e)), state);
    }
  }
}
