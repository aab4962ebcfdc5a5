/** What the authorization rules speak of, read straight off the room state: servers, creators, levels, join rules and
    memberships. The definitions share nothing with those of module EventAuth, which are proved to agree with them. */
module RuleBook {
  import opened Wrappers
  import opened RoomVersions
  import opened Events
  import Strings
  import EventAuth

  // ----- Identifiers -----

  predicate HasServer(id: string) {
    ':' in id
  }

  /** What follows the first colon. */
  function ServerPart(id: string): string
    requires HasServer(id)
  {
    if id[0] == ':' then id[1..] else ServerPart(id[1..])
  }

  predicate SameServer(id: string, other: string) {
    HasServer(id) && HasServer(other) && ServerPart(id) == ServerPart(other)
  }

  // ----- The create event -----

  predicate Created(state: State) {
    StateKey(RoomCreate, "") in state
  }

  predicate CreatorKnown(create: Event, version: RoomVersion) {
    version.implicitRoomCreator || create.content.creator.Some?
  }

  predicate CreatorIs(create: Event, version: RoomVersion, user: string) {
    if version.implicitRoomCreator then create.sender == user else create.content.creator == Some(user)
  }

  predicate Federates(state: State) {
    Created(state) && state[StateKey(RoomCreate, "")].content.federate != Some(false)
  }

  // ----- Levels -----

  predicate HasLevels(state: State) {
    StateKey(RoomPowerLevels, "") in state
  }

  function LevelsIn(state: State): Powers
    requires HasLevels(state)
  {
    state[StateKey(RoomPowerLevels, "")].content.powers
  }

  /** Levels can be read unless they hang on a creator the create event does not name. */
  predicate LevelsReadable(state: State) {
    HasLevels(state) || !Created(state)
    || CreatorKnown(state[StateKey(RoomCreate, "")], state[StateKey(RoomCreate, "")].version)
  }

  function ListedLevel(powers: Powers, user: string): int {
    if user in powers.users then powers.users[user]
    else match powers.usersDefault
      case Some(level) => level
      case None => 0
  }

  function LevelOf(state: State, user: string): int {
    if HasLevels(state) then ListedLevel(LevelsIn(state), user)
    else if Created(state) && var create := state[StateKey(RoomCreate, "")]; CreatorIs(create, create.version, user)
    then 100
    else 0
  }

  function NeededToInvite(state: State): int {
    if HasLevels(state) && LevelsIn(state).invite.Some? then LevelsIn(state).invite.value else 0
  }

  function NeededToBan(state: State): int {
    if HasLevels(state) && LevelsIn(state).ban.Some? then LevelsIn(state).ban.value else 50
  }

  function NeededToKick(state: State): int {
    if HasLevels(state) && LevelsIn(state).kick.Some? then LevelsIn(state).kick.value else 50
  }

  function NeededToRedact(state: State): int {
    if HasLevels(state) && LevelsIn(state).redact.Some? then LevelsIn(state).redact.value else 50
  }

  /** The level listed for the event type; failing that, 50 for state and 0 for messages or the defaults set. */
  function NeededToSend(state: State, kind: EventType, isState: bool): int {
    if HasLevels(state) && kind in LevelsIn(state).events then LevelsIn(state).events[kind]
    else if isState then
      if HasLevels(state) && LevelsIn(state).stateDefault.Some? then LevelsIn(state).stateDefault.value else 50
    else
      if HasLevels(state) && LevelsIn(state).eventsDefault.Some? then LevelsIn(state).eventsDefault.value else 0
  }

  // ----- Join rules and memberships -----

  function RuleOf(content: Content): JoinRule {
    match content.joinRule
    case Some(rule) => rule
    case None => InviteRule
  }

  function RuleIn(state: State): JoinRule {
    if StateKey(RoomJoinRules, "") in state then RuleOf(state[StateKey(RoomJoinRules, "")].content) else InviteRule
  }

  /** Under this rule a member with the power to invite can vouch for a join. */
  predicate TakesVouchers(version: RoomVersion, rule: JoinRule) {
    match rule
    case RestrictedRule => version.restrictedJoinRule
    case KnockRestrictedRule => version.knockRestrictedJoinRule
    case _ => false
  }

  /** Under this rule those who were invited, or are joined already, can join. */
  predicate TakesInvited(version: RoomVersion, rule: JoinRule) {
    match rule
    case PublicRule => true
    case InviteRule => true
    case KnockRule => version.knockJoinRule
    case RestrictedRule => version.restrictedJoinRule
    case KnockRestrictedRule => version.knockRestrictedJoinRule
    case OtherRule(_) => false
  }

  predicate TakesKnocks(version: RoomVersion, rule: JoinRule) {
    match rule
    case KnockRule => version.knockJoinRule
    case KnockRestrictedRule => version.knockJoinRule && version.knockRestrictedJoinRule
    case _ => false
  }

  predicate IsMember(state: State, user: string, membership: Membership) {
    StateKey(RoomMember, user) in state && state[StateKey(RoomMember, user)].content.membership == Some(membership)
  }

  predicate MembershipReadable(state: State, user: string) {
    StateKey(RoomMember, user) in state ==> state[StateKey(RoomMember, user)].content.membership.Some?
  }

  // ----- Agreement with the code -----

  lemma {:induction false} ServersAgreeFrom(id: string, from: nat)
    requires from <= |id|
    ensures Strings.Find(id, ':', from) == -1 <==> !HasServer(id[from..])
    ensures Strings.Find(id, ':', from) != -1 ==>
              ServerPart(id[from..]) == id[Strings.Find(id, ':', from) + 1..]
    decreases |id| - from
  {
    if from < |id| && id[from] != ':' {
      ServersAgreeFrom(id, from + 1);
      assert id[from..][1..] == id[from + 1..];
      assert id[from..] == [id[from]] + id[from + 1..];
    } else if from < |id| {
      assert id[from..][0] == ':' && id[from..][1..] == id[from + 1..];
    }
  }

  /** The server of an id is what follows its first colon; without a colon there is none. */
  lemma ServersAgree(id: string)
    ensures EventAuth.DomainOf(id).Ok? <==> HasServer(id)
    ensures HasServer(id) ==> EventAuth.DomainOf(id) == Ok(ServerPart(id))
  {
    ServersAgreeFrom(id, 0);
    assert id[0..] == id;
  }

  lemma LevelsAgree(state: State, user: string)
    ensures EventAuth.UserLevel(user, state).Ok? <==> LevelsReadable(state)
    ensures LevelsReadable(state) ==> EventAuth.UserLevel(user, state) == Ok(LevelOf(state, user))
    ensures EventAuth.InviteLevel(state) == NeededToInvite(state) && EventAuth.BanLevel(state) == NeededToBan(state)
    ensures EventAuth.KickLevel(state) == NeededToKick(state) && EventAuth.RedactLevel(state) == NeededToRedact(state)
  {
  }

  lemma SendLevelsAgree(state: State, kind: EventType, stateKey: Option<string>)
    ensures EventAuth.SendLevel(kind, stateKey, state) == NeededToSend(state, kind, stateKey.Some?)
  {
  }

  lemma RulesAgree(state: State, version: RoomVersion, rule: JoinRule)
    ensures EventAuth.JoinRuleIn(state) == RuleIn(state)
    ensures EventAuth.RestrictedJoins(version, rule) <==> TakesVouchers(version, rule)
    ensures rule == PublicRule || EventAuth.RestrictedJoins(version, rule) || EventAuth.InviteOnlyJoins(version, rule)
       <==> TakesInvited(version, rule)
  {
  }

  lemma MembershipsAgree(state: State, user: string)
    ensures EventAuth.MembershipIn(state, user).Ok? <==> MembershipReadable(state, user)
    ensures forall m: Membership ::
              EventAuth.MembershipIn(state, user) == Ok(Some(m)) <==> IsMember(state, user, m)
    ensures forall m: Membership :: EventAuth.HasMembership(state, user, m) <==> IsMember(state, user, m)
  {
  }

  lemma CreatorsAgree(state: State, version: RoomVersion, user: string)
    ensures EventAuth.CanFederate(state) <==> Federates(state)
    ensures Created(state) ==>
              var create := state[StateKey(RoomCreate, "")];
              && (EventAuth.CreatorOf(create, version).Ok? <==> CreatorKnown(create, version))
              && (EventAuth.CreatorOf(create, version) == Ok(user) <==> CreatorIs(create, version, user))
  {
  }
}
