/** Room events and room state, as the authorization and visibility rules see them. */
module Events {
  import opened Wrappers
  import opened RoomVersions

  datatype EventType =
    | RoomCreate
    | RoomMember
    | RoomPowerLevels
    | RoomJoinRules
    | RoomThirdPartyInvite
    | RoomAliases
    | RoomRedaction
    | RoomHistoryVisibility
    | DummyEvent
    | OtherType(name: string)

  datatype Membership = Join | Invite | Knock | Leave | Ban | OtherMembership(text: string)

  datatype JoinRule =
    | PublicRule
    | InviteRule
    | KnockRule
    | RestrictedRule
    | KnockRestrictedRule
    | OtherRule(text: string)

  datatype Visibility = WorldReadable | Shared | Invited | Joined | OtherVisibility(text: string)

  /** Content of a power levels event. Absent fields are `None` or missing keys. */
  datatype Powers = Powers(
    users: map<string, int>,
    events: map<EventType, int>,
    notifications: map<string, int>,
    usersDefault: Option<int>,
    eventsDefault: Option<int>,
    stateDefault: Option<int>,
    ban: Option<int>,
    redact: Option<int>,
    kick: Option<int>,
    invite: Option<int>
  )

  const NO_POWERS := Powers(map[], map[], map[], None, None, None, None, None, None, None)

  /** The signed part of a third-party invite. `verifiesUnder` holds the public keys under which
      one of its ed25519 signatures verifies; `None` where the source finds the field missing. */
  datatype SignedInvite = SignedInvite(
    token: Option<string>,
    mxid: Option<string>,
    verifiesUnder: Option<set<string>>
  )

  datatype Content = Content(
    membership: Option<Membership>,
    joinRule: Option<JoinRule>,
    creator: Option<string>,
    federate: Option<bool>,
    roomVersion: Option<string>,
    powers: Powers,
    thirdPartyInvite: Option<SignedInvite>,
    authorisingUser: Option<string>,
    publicKeys: seq<string>,
    historyVisibility: Option<Visibility>
  )

  const NO_CONTENT := Content(None, None, None, None, None, NO_POWERS, None, None, [], None)

  /** What the server remembers beside the event: flags and the content the event replaced. */
  datatype Metadata = Metadata(
    rejected: bool,
    softFailed: bool,
    outlier: bool,
    prevMembership: Option<Membership>,
    prevVisibility: Option<Visibility>
  )

  const NO_METADATA := Metadata(false, false, false, None, None)

  datatype Event = Event(
    eventId: string,
    roomId: string,
    sender: string,
    kind: EventType,
    stateKey: Option<string>,
    prevEventIds: seq<string>,
    authEventIds: seq<string>,
    redacts: Option<string>,
    originServerTs: int,
    content: Content,
    metadata: Metadata,
    version: RoomVersion
  )

  datatype StateKey = StateKey(kind: EventType, key: string)

  type State = map<StateKey, Event>

  const CREATE_KEY := StateKey(RoomCreate, "")
  const POWER_KEY := StateKey(RoomPowerLevels, "")
  const JOIN_RULES_KEY := StateKey(RoomJoinRules, "")
  const VISIBILITY_KEY := StateKey(RoomHistoryVisibility, "")

  function MemberKey(user: string): StateKey {
    StateKey(RoomMember, user)
  }

  /** Both states hold the same event under `key`, or neither holds one. */
  ghost predicate SameAt(s: State, t: State, key: StateKey) {
    (key in s <==> key in t) && (key in s ==> s[key] == t[key])
  }

  /** The room state once `e` is accepted: a state event replaces the entry under its own key. */
  function Apply(state: State, e: Event): State {
    if e.stateKey.Some? then state[StateKey(e.kind, e.stateKey.value) := e] else state
  }
}
