/** The authorization rules of synapse/event_auth.py: which events a room state accepts. */
module EventAuth {
  import opened Wrappers
  import opened Strings
  import opened RoomVersions
  import opened Events

  datatype Failure =
    | InvalidId
    | MissingField
    | Unfederatable
    | BadAlias
    | BadThirdPartyInvite
    | Banned
    | NotJoined
    | AlreadyJoined
    | AlreadyInvited
    | NotInvited
    | NotAllowedToJoin
    | WrongTarget
    | BadAuthoriser
    | InsufficientPower
    | UnknownMembership
    | OthersState
    | BadUserId
    | CreateHasPrevEvents
    | CreateDomainMismatch
    | UnknownRoomVersion
    | UnknownAuthEvent
    | OtherRoom
    | DuplicateAuthEvent
    | UnexpectedAuthEvent
    | RejectedAuthEvent
    | NoCreateEvent

  type Verdict = Result<(), Failure>

  // ----- Identifiers -----

  function DomainOf(id: string): Result<string, Failure> {
    var colon := Find(id, ':', 0);
    if colon == -1 then Err(InvalidId) else Ok(id[colon + 1..])
  }

  /** What `UserID.from_string` accepts: an `@` and a later colon. */
  predicate IsUserId(s: string) {
    |s| >= 1 && s[0] == '@' && Find(s, ':', 1) != -1
  }

  // ----- Power levels -----

  function CreatorOf(create: Event, version: RoomVersion): Result<string, Failure> {
    if version.implicitRoomCreator then Ok(create.sender)
    else if create.content.creator.Some? then Ok(create.content.creator.value)
    else Err(MissingField)
  }

  function PowersIn(state: State): Option<Powers> {
    if POWER_KEY in state then Some(state[POWER_KEY].content.powers) else None
  }

  /** A user's level under a power levels event. */
  function LevelUnder(powers: Powers, user: string): int {
    if user in powers.users then powers.users[user] else powers.usersDefault.GetOr(0)
  }

  function UserLevel(user: string, state: State): Result<int, Failure> {
    if POWER_KEY in state then
      Ok(LevelUnder(state[POWER_KEY].content.powers, user))
    else if CREATE_KEY in state then
      var create := state[CREATE_KEY];
      var creator :- CreatorOf(create, create.version);
      Ok(if creator == user then 100 else 0)
    else
      Ok(0)
  }

  function InviteLevel(state: State): int {
    if POWER_KEY in state then state[POWER_KEY].content.powers.invite.GetOr(0) else 0
  }

  function BanLevel(state: State): int {
    if POWER_KEY in state then state[POWER_KEY].content.powers.ban.GetOr(50) else 50
  }

  function KickLevel(state: State): int {
    if POWER_KEY in state then state[POWER_KEY].content.powers.kick.GetOr(50) else 50
  }

  function RedactLevel(state: State): int {
    if POWER_KEY in state then state[POWER_KEY].content.powers.redact.GetOr(50) else 50
  }

  function SendLevel(kind: EventType, stateKey: Option<string>, state: State): int {
    var powers := PowersIn(state).GetOr(NO_POWERS);
    if kind in powers.events then powers.events[kind]
    else if stateKey.Some? then powers.stateDefault.GetOr(50)
    else powers.eventsDefault.GetOr(0)
  }

  // ----- Membership -----

  function CanFederate(state: State): bool {
    CREATE_KEY in state && state[CREATE_KEY].content.federate.GetOr(true)
  }

  /** The membership recorded for a user; a member event without one cannot be read. */
  function MembershipIn(state: State, user: string): Result<Option<Membership>, Failure> {
    if MemberKey(user) !in state then Ok(None)
    else if state[MemberKey(user)].content.membership.None? then Err(MissingField)
    else Ok(state[MemberKey(user)].content.membership)
  }

  predicate HasMembership(state: State, user: string, membership: Membership) {
    MemberKey(user) in state && state[MemberKey(user)].content.membership == Some(membership)
  }

  function JoinRuleIn(state: State): JoinRule {
    if JOIN_RULES_KEY in state then state[JOIN_RULES_KEY].content.joinRule.GetOr(InviteRule) else InviteRule
  }

  /** Joins under this rule need no invite, only (for the restricted rules) an authorising member. */
  predicate RestrictedJoins(version: RoomVersion, rule: JoinRule) {
    || (version.restrictedJoinRule && rule == RestrictedRule)
    || (version.knockRestrictedJoinRule && rule == KnockRestrictedRule)
  }

  predicate InviteOnlyJoins(version: RoomVersion, rule: JoinRule) {
    || rule == InviteRule
    || (version.knockJoinRule && rule == KnockRule)
    || (version.knockRestrictedJoinRule && rule == KnockRestrictedRule)
  }

  /** The first join of a room: directly on top of the create event, for its creator. */
  function IsCreatorJoin(e: Event, membership: Membership, target: string, state: State): Result<bool, Failure> {
    if |e.prevEventIds| == 1 && membership == Join && CREATE_KEY in state
       && e.prevEventIds[0] == state[CREATE_KEY].eventId then
      var creator :- CreatorOf(state[CREATE_KEY], e.version);
      Ok(creator == target)
    else
      Ok(false)
  }

  /** Everything the membership rules read about the two users involved. */
  datatype Parties = Parties(
    caller: Option<Membership>,
    target: Option<Membership>,
    userLevel: int,
    targetLevel: int
  )

  function PartiesIn(e: Event, target: string, state: State): Result<Parties, Failure> {
    var caller :- MembershipIn(state, e.sender);
    var targetMembership :- MembershipIn(state, target);
    var userLevel :- UserLevel(e.sender, state);
    var targetLevel :- UserLevel(target, state);
    Ok(Parties(caller, targetMembership, userLevel, targetLevel))
  }

  /** The signed block names this target, was issued by this sender and verifies under a key of the invite. */
  predicate VerifiedThirdPartyInvite(e: Event, target: string, signed: SignedInvite, state: State) {
    && signed.token.Some? && signed.mxid.Some? && signed.verifiesUnder.Some?
    && var key := StateKey(RoomThirdPartyInvite, signed.token.value);
    && key in state
    && state[key].sender == e.sender
    && signed.mxid.value == target
    && exists publicKey <- state[key].content.publicKeys :: publicKey in signed.verifiesUnder.value
  }

  function CheckThirdPartyInvite(e: Event, target: string, p: Parties, signed: SignedInvite, state: State): Verdict {
    if !VerifiedThirdPartyInvite(e, target, signed, state) then Err(BadThirdPartyInvite)
    else if p.target == Some(Ban) then Err(Banned)
    else Ok(())
  }

  function CheckInvite(p: Parties, state: State): Verdict {
    if p.target == Some(Ban) then Err(Banned)
    else if p.target == Some(Join) then Err(AlreadyJoined)
    else if p.userLevel < InviteLevel(state) then Err(InsufficientPower)
    else Ok(())
  }

  function CheckAuthoriser(e: Event, state: State): Verdict {
    if e.content.authorisingUser.None? then Err(BadAuthoriser)
    else
      var authoriser := e.content.authorisingUser.value;
      if !HasMembership(state, authoriser, Join) then Err(NotJoined)
      else
        var level :- UserLevel(authoriser, state);
        if level < InviteLevel(state) then Err(BadAuthoriser) else Ok(())
  }

  function CheckJoin(e: Event, target: string, p: Parties, state: State): Verdict {
    var rule := JoinRuleIn(state);
    if e.sender != target then Err(WrongTarget)
    else if p.target == Some(Ban) then Err(Banned)
    else if rule == PublicRule then Ok(())
    else if RestrictedJoins(e.version, rule) then
      if p.caller == Some(Join) || p.caller == Some(Invite) then Ok(()) else CheckAuthoriser(e, state)
    else if InviteOnlyJoins(e.version, rule) then
      if p.caller == Some(Join) || p.caller == Some(Invite) then Ok(()) else Err(NotInvited)
    else Err(NotAllowedToJoin)
  }

  function CheckLeave(e: Event, target: string, p: Parties, state: State): Verdict {
    if p.target == Some(Ban) && p.userLevel < BanLevel(state) then Err(InsufficientPower)
    else if target != e.sender && (p.userLevel < KickLevel(state) || p.userLevel <= p.targetLevel) then
      Err(InsufficientPower)
    else Ok(())
  }

  function CheckBan(p: Parties, state: State): Verdict {
    if p.userLevel < BanLevel(state) || p.userLevel <= p.targetLevel then Err(InsufficientPower) else Ok(())
  }

  function CheckKnock(e: Event, target: string, p: Parties, state: State): Verdict {
    var rule := JoinRuleIn(state);
    if rule != KnockRule && (!e.version.knockRestrictedJoinRule || rule != KnockRestrictedRule) then
      Err(NotAllowedToJoin)
    else if target != e.sender then Err(WrongTarget)
    else if p.target == Some(Join) then Err(AlreadyJoined)
    else if p.caller == Some(Invite) then Err(AlreadyInvited)
    else if p.target == Some(Ban) then Err(Banned)
    else Ok(())
  }

  /** The rules that apply once both users' memberships and levels are known. */
  function CheckTransition(e: Event, membership: Membership, target: string, p: Parties, state: State): Verdict {
    if membership == Invite && e.content.thirdPartyInvite.Some? then
      CheckThirdPartyInvite(e, target, p, e.content.thirdPartyInvite.value, state)
    else if membership == Leave && target == e.sender
            && (p.caller == Some(Invite) || (e.version.knockJoinRule && p.caller == Some(Knock))) then
      Ok(())
    else if membership != Join && membership != Knock && p.caller != Some(Join) then
      Err(NotJoined)
    else
      match membership
      case Invite => CheckInvite(p, state)
      case Join => CheckJoin(e, target, p, state)
      case Leave => CheckLeave(e, target, p, state)
      case Ban => CheckBan(p, state)
      case Knock => if e.version.knockJoinRule then CheckKnock(e, target, p, state) else Err(UnknownMembership)
      case OtherMembership(_) => Err(UnknownMembership)
  }

  function CheckMembershipChange(e: Event, state: State): Verdict {
    if e.content.membership.None? || e.stateKey.None? then Err(MissingField)
    else
      var membership, target := e.content.membership.value, e.stateKey.value;
      var creatorJoin :- IsCreatorJoin(e, membership, target, state);
      if creatorJoin then Ok(())
      else
        var creatingDomain :- DomainOf(e.roomId);
        var targetDomain :- DomainOf(target);
        if creatingDomain != targetDomain && !CanFederate(state) then Err(Unfederatable)
        else
          var parties :- PartiesIn(e, target, state);
          CheckTransition(e, membership, target, parties, state)
  }

  // ----- Sending and redacting -----

  /** The user id that MSC3757 reads off the front of a state key; `None` when there is no valid one. */
  function StateKeyOwner(validServer: string -> bool, stateKey: string): Option<string> {
    var colon := Find(stateKey, ':', 1);
    if colon == -1 then None
    else
      var suffix := Find(stateKey, '_', colon + 1);
      var owner := if suffix != -1 then stateKey[..suffix] else stateKey;
      if IsUserId(owner) && validServer(owner[Find(owner, ':', 1) + 1..]) then Some(owner) else None
  }

  function CheckStateKey(validServer: string -> bool, e: Event, userLevel: int, state: State): Verdict {
    if e.stateKey.None? || |e.stateKey.value| == 0 || e.stateKey.value[0] != '@' || e.stateKey.value == e.sender then
      Ok(())
    else if !e.version.msc3757Enabled then Err(OthersState)
    else
      var owner := StateKeyOwner(validServer, e.stateKey.value);
      if owner.None? then Err(BadUserId)
      else if owner.value == e.sender then Ok(())
      else
        var ownerLevel :- UserLevel(owner.value, state);
        if userLevel > ownerLevel then Ok(()) else Err(OthersState)
  }

  function CheckCanSend(validServer: string -> bool, e: Event, state: State): Verdict {
    var userLevel :- UserLevel(e.sender, state);
    if userLevel < SendLevel(e.kind, e.stateKey, state) then Err(InsufficientPower)
    else CheckStateKey(validServer, e, userLevel, state)
  }

  function CheckRedaction(e: Event, state: State): Verdict {
    var userLevel :- UserLevel(e.sender, state);
    if userLevel >= RedactLevel(state) then Ok(())
    else if e.version.eventFormat != RoomV1V2 then Ok(())
    else
      var redacter :- DomainOf(e.eventId);
      if e.redacts.None? then Ok(())
      else
        var redactee :- DomainOf(e.redacts.value);
        if redacter == redactee then Ok(()) else Err(InsufficientPower)
  }

  // ----- Changing power levels -----

  /** The places in a power levels content that hold a level. */
  datatype LevelRef =
    | UsersDefaultRef
    | EventsDefaultRef
    | StateDefaultRef
    | BanRef
    | RedactRef
    | KickRef
    | InviteRef
    | UserRef(user: string)
    | EventRef(kind: EventType)
    | NotificationRef(name: string)

  function LevelAt(powers: Powers, at: LevelRef): Option<int> {
    match at
    case UsersDefaultRef => powers.usersDefault
    case EventsDefaultRef => powers.eventsDefault
    case StateDefaultRef => powers.stateDefault
    case BanRef => powers.ban
    case RedactRef => powers.redact
    case KickRef => powers.kick
    case InviteRef => powers.invite
    case UserRef(user) => if user in powers.users then Some(powers.users[user]) else None
    case EventRef(kind) => if kind in powers.events then Some(powers.events[kind]) else None
    case NotificationRef(name) => if name in powers.notifications then Some(powers.notifications[name]) else None
  }

  /** May `sender`, at level `level`, change this level from `before` to `after`? */
  predicate MayChangeLevel(sender: string, level: int, at: LevelRef, before: Option<int>, after: Option<int>) {
    || (before.Some? && before == after)
    || (&& !(at.UserRef? && at.user != sender && before == Some(level))
        && (before.Some? ==> before.value <= level)
        && (after.Some? ==> after.value <= level))
  }

  /** Places compared in this room version. */
  predicate Compared(version: RoomVersion, at: LevelRef) {
    at.NotificationRef? ==> version.limitNotificationsPowerLevels
  }

  /** Every compared level present in the old or the new content changes only as the sender may change it. */
  ghost predicate LevelChangesAllowed(version: RoomVersion, sender: string, level: int, before: Powers, after: Powers) {
    forall at: LevelRef | Compared(version, at) ::
      MayChangeLevel(sender, level, at, LevelAt(before, at), LevelAt(after, at))
  }

  predicate UsersValid(powers: Powers) {
    forall user <- powers.users :: IsUserId(user)
  }

  ghost function CheckPowerLevels(e: Event, state: State): Verdict {
    if !UsersValid(e.content.powers) then Err(BadUserId)
    else if e.stateKey.None? then Err(MissingField)
    else
      var key := StateKey(e.kind, e.stateKey.value);
      if key !in state then Ok(())
      else
        var level :- UserLevel(e.sender, state);
        if LevelChangesAllowed(e.version, e.sender, level, state[key].content.powers, e.content.powers) then Ok(())
        else Err(InsufficientPower)
  }

  // ----- The whole state-dependent check -----

  ghost function CheckStateDependent(validServer: string -> bool, e: Event, state: State): Verdict {
    if e.kind == RoomCreate then Ok(())
    else
      var creatingDomain :- DomainOf(e.roomId);
      var originatingDomain :- DomainOf(e.sender);
      if creatingDomain != originatingDomain && !CanFederate(state) then Err(Unfederatable)
      else if e.kind == RoomAliases && e.version.specialCaseAliasesAuth then
        if e.stateKey.Some? && e.stateKey.value != "" && e.stateKey.value == originatingDomain then Ok(())
        else Err(BadAlias)
      else if e.kind == RoomMember then CheckMembershipChange(e, state)
      else if !HasMembership(state, e.sender, Join) then Err(NotJoined)
      else if e.kind == RoomThirdPartyInvite then
        var userLevel :- UserLevel(e.sender, state);
        if userLevel < InviteLevel(state) then Err(InsufficientPower) else Ok(())
      else
        var _ :- CheckCanSend(validServer, e, state);
        if e.kind == RoomPowerLevels then CheckPowerLevels(e, state)
        else if e.kind == RoomRedaction then CheckRedaction(e, state)
        else Ok(())
  }

  // ----- Auth event selection and the state-independent check -----

  /** The state entries that may be needed to authorize `e`. */
  function AuthTypes(version: RoomVersion, e: Event): Result<set<StateKey>, Failure> {
    if e.kind == RoomCreate then Ok({})
    else
      var base := {POWER_KEY, MemberKey(e.sender), CREATE_KEY};
      if e.kind != RoomMember then Ok(base)
      else if e.content.membership.None? || e.stateKey.None? then Err(MissingField)
      else
        var membership := e.content.membership.value;
        var rules := if membership in {Join, Invite, Knock} then {JOIN_RULES_KEY} else {};
        var authoriser :=
          if version.restrictedJoinRule && membership == Join && e.content.authorisingUser.Some?
          then {MemberKey(e.content.authorisingUser.value)} else {};
        var all := base + rules + {MemberKey(e.stateKey.value)} + authoriser;
        if membership == Invite && e.content.thirdPartyInvite.Some? then
          var signed := e.content.thirdPartyInvite.value;
          if signed.token.None? then Err(MissingField)
          else Ok(all + {StateKey(RoomThirdPartyInvite, signed.token.value)})
        else Ok(all)
  }

  function CheckCreate(e: Event): Verdict {
    if e.prevEventIds != [] then Err(CreateHasPrevEvents)
    else
      var senderDomain :- DomainOf(e.sender);
      var roomDomain :- DomainOf(e.roomId);
      if senderDomain != roomDomain then Err(CreateDomainMismatch)
      else if !KnownIdentifier(e.content.roomVersion.GetOr("1")) then Err(UnknownRoomVersion)
      else if !e.version.implicitRoomCreator && e.content.creator.None? then Err(MissingField)
      else Ok(())
  }

  type Store = map<string, Event>

  /** The cited auth event is stored, of this room, accepted, and of an expected type and state key. */
  predicate GoodCitation(store: Store, e: Event, expected: set<StateKey>, id: string) {
    && id in store
    && store[id].roomId == e.roomId
    && store[id].stateKey.Some?
    && StateKey(store[id].kind, store[id].stateKey.value) in expected
    && !store[id].metadata.rejected
  }

  function KeyOf(e: Event): StateKey
    requires e.stateKey.Some?
  {
    StateKey(e.kind, e.stateKey.value)
  }

  /** Rules 1 to 3: what must hold of the event and the auth events it cites, whatever the room state. */
  ghost predicate IndependentlyAllowed(store: Store, e: Event) {
    if e.kind == RoomCreate then CheckCreate(e).Ok?
    else
      var expected := AuthTypes(e.version, e);
      && expected.Ok?
      && var ids := e.authEventIds;
      && (forall i | 0 <= i < |ids| :: GoodCitation(store, e, expected.value, ids[i]))
      && (forall i, j | 0 <= i < j < |ids| :: KeyOf(store[ids[i]]) != KeyOf(store[ids[j]]))
      && (exists i | 0 <= i < |ids| :: KeyOf(store[ids[i]]) == CREATE_KEY)
  }
}
