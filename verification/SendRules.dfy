/** The rules for everything but memberships, over the rule book: exactly which events a room state lets through. */
module SendRules {
  import opened Wrappers
  import opened Strings
  import opened RoomVersions
  import opened Events
  import opened EventAuth
  import opened AuthSelection
  import opened RuleBook
  import opened MembershipRules

  // ----- State under a user's key -----

  /** `key` is the user id, or the user id, an underscore and anything. */
  ghost predicate OwnsKey(validServer: string -> bool, user: string, key: string) {
    exists local: string, server: string :: IsOwner(validServer, local, server, user, key)
  }

  ghost predicate IsOwner(validServer: string -> bool, local: string, server: string, user: string, key: string) {
    && ':' !in local && '_' !in server && validServer(server)
    && user == "@" + local + ":" + server
    && (key == user || user + "_" <= key)
  }

  lemma FindIs(s: string, c: char, from: nat, i: nat)
    requires from <= i < |s| && s[i] == c && forall k | from <= k < i :: s[k] != c
    ensures Find(s, c, from) == i
  {
  }

  lemma OwnerIsFound(validServer: string -> bool, local: string, server: string, user: string, key: string)
    requires IsOwner(validServer, local, server, user, key)
    ensures StateKeyOwner(validServer, key) == Some(user)
  {
    var colon := 1 + |local|;
    assert user[colon] == ':' && user[colon + 1..] == server && forall k | 1 <= k < colon :: user[k] == local[k - 1];
    assert key[..|user|] == user;
    FindIs(key, ':', 1, colon);
    FindIs(user, ':', 1, colon);
    assert forall k | colon < k < |user| :: key[k] == server[k - colon - 1];
    if key == user {
      assert Find(key, '_', colon + 1) == -1;
    } else {
      assert key[|user|] == (user + "_")[|user|] == '_';
      FindIs(key, '_', colon + 1, |user|);
    }
  }

  lemma Rebuilt(user: string, colon: nat)
    requires 1 <= colon < |user| && user[0] == '@' && user[colon] == ':'
    ensures user == "@" + user[1..colon] + ":" + user[colon + 1..]
  {
  }

  lemma FoundIsOwner(validServer: string -> bool, key: string)
    requires key != "" && key[0] == '@' && StateKeyOwner(validServer, key).Some?
    ensures OwnsKey(validServer, StateKeyOwner(validServer, key).value, key)
  {
    var colon := Find(key, ':', 1);
    var suffix := Find(key, '_', colon + 1);
    var owner := StateKeyOwner(validServer, key).value;
    FindIs(owner, ':', 1, colon);
    Rebuilt(owner, colon);
    if suffix != -1 {
      assert key[..suffix + 1] == owner + "_";
    }
    assert IsOwner(validServer, owner[1..colon], owner[colon + 1..], owner, key);
  }

  /** The sender may write under this key: it is nobody's, their own, or (MSC3757) that of somebody they outrank. */
  ghost predicate MayWrite(validServer: string -> bool, e: Event, state: State) {
    match e.stateKey
    case None => true
    case Some(key) =>
      || key == "" || key[0] != '@' || key == e.sender
      || (e.version.msc3757Enabled
          && exists owner: string :: OwnsKey(validServer, owner, key)
                                     && (owner == e.sender || LevelOf(state, e.sender) > LevelOf(state, owner)))
  }

  lemma MayWriteExactly(validServer: string -> bool, e: Event, state: State)
    requires LevelsReadable(state)
    ensures CheckStateKey(validServer, e, LevelOf(state, e.sender), state).Ok? <==> MayWrite(validServer, e, state)
  {
    if e.stateKey.Some? && e.stateKey.value != "" && e.stateKey.value[0] == '@' {
      var key := e.stateKey.value;
      forall owner: string | OwnsKey(validServer, owner, key)
        ensures StateKeyOwner(validServer, key) == Some(owner)
      {
        var local, server :| IsOwner(validServer, local, server, owner, key);
        OwnerIsFound(validServer, local, server, owner, key);
      }
      if StateKeyOwner(validServer, key).Some? {
        FoundIsOwner(validServer, key);
        LevelsAgree(state, StateKeyOwner(validServer, key).value);
      }
    }
  }

  ghost predicate MaySend(validServer: string -> bool, e: Event, state: State) {
    && LevelOf(state, e.sender) >= NeededToSend(state, e.kind, e.stateKey.Some?)
    && MayWrite(validServer, e, state)
  }

  lemma MaySendExactly(validServer: string -> bool, e: Event, state: State)
    ensures CheckCanSend(validServer, e, state).Ok? <==> LevelsReadable(state) && MaySend(validServer, e, state)
    ensures CheckCanSend(validServer, e, state) == Err(InsufficientPower)
       <==> LevelsReadable(state) && LevelOf(state, e.sender) < NeededToSend(state, e.kind, e.stateKey.Some?)
  {
    LevelsAgree(state, e.sender);
    SendLevelsAgree(state, e.kind, e.stateKey);
    if LevelsReadable(state) {
      MayWriteExactly(validServer, e, state);
    }
  }

  /** With power levels in force: an event is refused for lack of power exactly if the sender's level is below the one
      listed for its type or, if none is listed, below the default for state or for messages. */
  lemma SendLevelDecides(validServer: string -> bool, e: Event, state: State)
    requires StateKey(RoomPowerLevels, "") in state
    ensures var powers := state[StateKey(RoomPowerLevels, "")].content.powers;
            CheckCanSend(validServer, e, state) == Err(InsufficientPower)
            <==> ListedLevel(powers, e.sender)
                 < if e.kind in powers.events then powers.events[e.kind]
                   else if e.stateKey.Some? then (if powers.stateDefault.Some? then powers.stateDefault.value else 50)
                   else if powers.eventsDefault.Some? then powers.eventsDefault.value else 0
  {
    MaySendExactly(validServer, e, state);
  }

  // ----- Changing levels -----

  function Entry<K(==)>(levels: map<K, int>, key: K): Option<int> {
    if key in levels then Some(levels[key]) else None
  }

  /** A level changes only where old and new value, as far as there are any, are within the sender's. */
  predicate Within(level: int, before: Option<int>, after: Option<int>) {
    || (before.Some? && before == after)
    || ((before.Some? ==> before.value <= level) && (after.Some? ==> after.value <= level))
  }

  /** Another listed user's level changes only if it is strictly below the sender's. */
  ghost predicate UsersMayBecome(sender: string, level: int, before: map<string, int>, after: map<string, int>) {
    forall user: string ::
      && Within(level, Entry(before, user), Entry(after, user))
      && (user in before && user != sender && Entry(after, user) != Some(before[user]) ==> before[user] < level)
  }

  ghost predicate LevelsMayBecome(version: RoomVersion, sender: string, level: int, before: Powers, after: Powers) {
    && UsersMayBecome(sender, level, before.users, after.users)
    && (forall kind: EventType :: Within(level, Entry(before.events, kind), Entry(after.events, kind)))
    && (version.limitNotificationsPowerLevels ==>
          forall name: string :: Within(level, Entry(before.notifications, name), Entry(after.notifications, name)))
    && Within(level, before.usersDefault, after.usersDefault)
    && Within(level, before.eventsDefault, after.eventsDefault)
    && Within(level, before.stateDefault, after.stateDefault)
    && Within(level, before.ban, after.ban)
    && Within(level, before.redact, after.redact)
    && Within(level, before.kick, after.kick)
    && Within(level, before.invite, after.invite)
  }

  lemma ChangeIsWithin(version: RoomVersion, sender: string, level: int, before: Powers, after: Powers, at: LevelRef)
    requires LevelChangesAllowed(version, sender, level, before, after) && Compared(version, at)
    ensures Within(level, LevelAt(before, at), LevelAt(after, at))
    ensures at.UserRef? && at.user != sender && LevelAt(before, at).Some? && LevelAt(after, at) != LevelAt(before, at)
            ==> LevelAt(before, at).value < level
  {
  }

  lemma AllowedMayBecome(version: RoomVersion, sender: string, level: int, before: Powers, after: Powers)
    requires LevelChangesAllowed(version, sender, level, before, after)
    ensures LevelsMayBecome(version, sender, level, before, after)
  {
    forall user: string
      ensures Within(level, Entry(before.users, user), Entry(after.users, user))
      ensures user in before.users && user != sender && Entry(after.users, user) != Some(before.users[user])
              ==> before.users[user] < level
    {
      ChangeIsWithin(version, sender, level, before, after, UserRef(user));
    }
    forall kind: EventType
      ensures Within(level, Entry(before.events, kind), Entry(after.events, kind))
    {
      ChangeIsWithin(version, sender, level, before, after, EventRef(kind));
    }
    if version.limitNotificationsPowerLevels {
      forall name: string
        ensures Within(level, Entry(before.notifications, name), Entry(after.notifications, name))
      {
        ChangeIsWithin(version, sender, level, before, after, NotificationRef(name));
      }
    }
    ChangeIsWithin(version, sender, level, before, after, UsersDefaultRef);
    ChangeIsWithin(version, sender, level, before, after, EventsDefaultRef);
    ChangeIsWithin(version, sender, level, before, after, StateDefaultRef);
    ChangeIsWithin(version, sender, level, before, after, BanRef);
    ChangeIsWithin(version, sender, level, before, after, RedactRef);
    ChangeIsWithin(version, sender, level, before, after, KickRef);
    ChangeIsWithin(version, sender, level, before, after, InviteRef);
  }

  lemma MayBecomeAllowed(version: RoomVersion, sender: string, level: int, before: Powers, after: Powers)
    requires LevelsMayBecome(version, sender, level, before, after)
    ensures LevelChangesAllowed(version, sender, level, before, after)
  {
    forall at: LevelRef | Compared(version, at)
      ensures MayChangeLevel(sender, level, at, LevelAt(before, at), LevelAt(after, at))
    {
      match at
      case UserRef(user) => assert Within(level, Entry(before.users, user), Entry(after.users, user));
      case EventRef(kind) => assert Within(level, Entry(before.events, kind), Entry(after.events, kind));
      case NotificationRef(name) =>
        assert Within(level, Entry(before.notifications, name), Entry(after.notifications, name));
      case _ =>
    }
  }

  predicate UserIdsValid(users: map<string, int>) {
    forall user <- users :: user != "" && user[0] == '@' && ':' in user[1..]
  }

  ghost predicate MaySetLevels(e: Event, state: State) {
    && UserIdsValid(e.content.powers.users) && e.stateKey.Some?
    && var key := StateKey(RoomPowerLevels, e.stateKey.value);
       key in state ==>
         LevelsMayBecome(e.version, e.sender, LevelOf(state, e.sender), state[key].content.powers, e.content.powers)
  }

  lemma UserIdsAgree(powers: Powers)
    ensures UsersValid(powers) <==> UserIdsValid(powers.users)
  {
    forall user <- powers.users
      ensures IsUserId(user) <==> user != "" && user[0] == '@' && ':' in user[1..]
    {
      if user != "" && ':' in user[1..] {
        var i :| 0 <= i < |user[1..]| && user[1..][i] == ':';
        assert user[i + 1] == ':';
      }
      if IsUserId(user) {
        assert user[1..][Find(user, ':', 1) - 1] == ':';
      }
    }
  }

  lemma MaySetLevelsExactly(e: Event, state: State)
    requires e.kind == RoomPowerLevels && LevelsReadable(state)
    ensures CheckPowerLevels(e, state).Ok? <==> MaySetLevels(e, state)
  {
    UserIdsAgree(e.content.powers);
    LevelsAgree(state, e.sender);
    if e.stateKey.Some? && StateKey(RoomPowerLevels, e.stateKey.value) in state {
      var level, before := LevelOf(state, e.sender), state[StateKey(RoomPowerLevels, e.stateKey.value)].content.powers;
      if LevelChangesAllowed(e.version, e.sender, level, before, e.content.powers) {
        AllowedMayBecome(e.version, e.sender, level, before, e.content.powers);
      }
      if LevelsMayBecome(e.version, e.sender, level, before, e.content.powers) {
        MayBecomeAllowed(e.version, e.sender, level, before, e.content.powers);
      }
    }
  }

  // ----- Redactions -----

  /** Powerful enough; or the check is left to a later stage; or both events are of one server, as far as ids tell. */
  predicate MayRedact(e: Event, state: State) {
    || LevelOf(state, e.sender) >= NeededToRedact(state)
    || e.version.eventFormat != RoomV1V2
    || (HasServer(e.eventId) && (e.redacts.None? || SameServer(e.eventId, e.redacts.value)))
  }

  lemma MayRedactExactly(e: Event, state: State)
    requires LevelsReadable(state)
    ensures CheckRedaction(e, state).Ok? <==> MayRedact(e, state)
  {
    LevelsAgree(state, e.sender);
    ServersAgree(e.eventId);
    if e.redacts.Some? {
      ServersAgree(e.redacts.value);
    }
  }

  // ----- The whole check -----

  ghost predicate MayPost(validServer: string -> bool, e: Event, state: State) {
    && IsMember(state, e.sender, Join) && LevelsReadable(state)
    && if e.kind == RoomThirdPartyInvite then LevelOf(state, e.sender) >= NeededToInvite(state)
       else
         && MaySend(validServer, e, state)
         && (e.kind == RoomPowerLevels ==> MaySetLevels(e, state))
         && (e.kind == RoomRedaction ==> MayRedact(e, state))
  }

  /** Old room versions let a server set its own aliases. */
  predicate SetsOwnAliases(e: Event) {
    HasServer(e.sender) && e.stateKey == Some(ServerPart(e.sender)) && e.stateKey != Some("")
  }

  /** The rules that depend on the room state, all of them. */
  ghost predicate AllowedIn(validServer: string -> bool, e: Event, state: State) {
    || e.kind == RoomCreate
    || (&& HasServer(e.roomId) && HasServer(e.sender) && (SameServer(e.roomId, e.sender) || Federates(state))
        && if e.kind == RoomAliases && e.version.specialCaseAliasesAuth then SetsOwnAliases(e)
           else if e.kind == RoomMember then MembershipAllowed(e, state)
           else MayPost(validServer, e, state))
  }

  lemma MayPostExactly(validServer: string -> bool, e: Event, state: State)
    requires e.kind != RoomCreate && e.kind != RoomMember
    requires !(e.kind == RoomAliases && e.version.specialCaseAliasesAuth)
    requires HasServer(e.roomId) && HasServer(e.sender) && (SameServer(e.roomId, e.sender) || Federates(state))
    ensures CheckStateDependent(validServer, e, state).Ok? <==> MayPost(validServer, e, state)
  {
    ServersAgree(e.roomId);
    ServersAgree(e.sender);
    CreatorsAgree(state, e.version, e.sender);
    MembershipsAgree(state, e.sender);
    LevelsAgree(state, e.sender);
    MaySendExactly(validServer, e, state);
    if LevelsReadable(state) {
      if e.kind == RoomPowerLevels {
        MaySetLevelsExactly(e, state);
      } else if e.kind == RoomRedaction {
        MayRedactExactly(e, state);
      }
    }
  }

  /** The code accepts an event in a room state if and only if the rules do. */
  lemma VerdictExactly(validServer: string -> bool, e: Event, state: State)
    ensures CheckStateDependent(validServer, e, state).Ok? <==> AllowedIn(validServer, e, state)
  {
    ServersAgree(e.roomId);
    ServersAgree(e.sender);
    CreatorsAgree(state, e.version, e.sender);
    if && e.kind != RoomCreate && HasServer(e.roomId) && HasServer(e.sender)
       && (SameServer(e.roomId, e.sender) || Federates(state)) {
      if e.kind == RoomMember {
        MembershipExactly(e, state);
      } else if !(e.kind == RoomAliases && e.version.specialCaseAliasesAuth) {
        MayPostExactly(validServer, e, state);
      }
    }
  }

  /** Until there are power levels, the creator alone can ban, kick and send state, and every member can invite. */
  lemma CreatorRulesUntilLevelsAreSet(validServer: string -> bool, e: Event, target: string, state: State)
    requires !HasLevels(state) && Created(state) && LevelsReadable(state)
    ensures var create := state[StateKey(RoomCreate, "")];
            var byCreator := CreatorIs(create, create.version, e.sender);
            && (MayBan(e, target, state) <==>
                IsMember(state, e.sender, Join) && byCreator && e.sender != target)
            && (e.sender != target ==> (MayLeave(e, target, state) <==> IsMember(state, e.sender, Join) && byCreator))
            && (e.content.thirdPartyInvite.None? ==>
                (MayInvite(e, target, state) <==>
                 IsMember(state, e.sender, Join) && !IsMember(state, target, Join) && !IsMember(state, target, Ban)))
            && (e.stateKey.Some? ==>
                (CheckCanSend(validServer, e, state).Ok? <==> byCreator && KeyCanBeWritten(validServer, e)))
            && (e.stateKey.None? ==> CheckCanSend(validServer, e, state).Ok?)
  {
    LevelsAgree(state, e.sender);
    SendLevelsAgree(state, e.kind, e.stateKey);
    if e.stateKey.Some? && StateKeyOwner(validServer, e.stateKey.value).Some? {
      LevelsAgree(state, StateKeyOwner(validServer, e.stateKey.value).value);
    }
  }
}
