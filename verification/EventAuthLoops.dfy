/** The loops of synapse/event_auth.py, proved against the rules of module EventAuth. */
module EventAuthLoops {
  import opened Wrappers
  import opened RoomVersions
  import opened Events
  import opened EventAuth

  // ----- _check_power_levels -----

  const NAMED_LEVELS: seq<LevelRef> :=
    [UsersDefaultRef, EventsDefaultRef, StateDefaultRef, BanRef, RedactRef, KickRef, InviteRef]

  /** The places the source puts on its list: the seven named levels and every key of either content. */
  ghost predicate Listed(version: RoomVersion, before: Powers, after: Powers, at: LevelRef) {
    match at
    case UserRef(user) => user in before.users.Keys + after.users.Keys
    case EventRef(kind) => kind in before.events.Keys + after.events.Keys
    case NotificationRef(name) =>
      version.limitNotificationsPowerLevels && name in before.notifications.Keys + after.notifications.Keys
    case _ => true
  }

  /** Appends one place per key, in any order. */
  method AppendRefs<K(==)>(levels: seq<LevelRef>, keys: set<K>, ref: K -> LevelRef) returns (extended: seq<LevelRef>)
    ensures forall at: LevelRef :: at in extended <==> at in levels || exists key <- keys :: at == ref(key)
  {
    extended := levels;
    var left := keys;
    while left != {}
      invariant left <= keys
      invariant forall at: LevelRef :: at in extended <==> at in levels || exists key <- keys - left :: at == ref(key)
      decreases |left|
    {
      var key :| key in left;
      extended := extended + [ref(key)];
      left := left - {key};
    }
  }

  /** The list of places to compare, in the order the source appends them. */
  method LevelsToCheck(version: RoomVersion, before: Powers, after: Powers) returns (levels: seq<LevelRef>)
    ensures forall at: LevelRef :: at in levels <==> Listed(version, before, after, at)
  {
    levels := AppendRefs(NAMED_LEVELS, before.users.Keys + after.users.Keys, user => UserRef(user));
    levels := AppendRefs(levels, before.events.Keys + after.events.Keys, kind => EventRef(kind));
    if version.limitNotificationsPowerLevels {
      levels :=
        AppendRefs(levels, before.notifications.Keys + after.notifications.Keys, name => NotificationRef(name));
    }
  }

  /** Comparing only the listed places decides the rule for every place. */
  method CheckLevelChanges(version: RoomVersion, sender: string, level: int, before: Powers, after: Powers)
    returns (allowed: bool)
    ensures allowed <==> LevelChangesAllowed(version, sender, level, before, after)
  {
    var levels := LevelsToCheck(version, before, after);
    for i := 0 to |levels|
      invariant forall at <- levels[..i] :: MayChangeLevel(sender, level, at, LevelAt(before, at), LevelAt(after, at))
    {
      var oldLevel, newLevel := LevelAt(before, levels[i]), LevelAt(after, levels[i]);
      if oldLevel.Some? && newLevel.Some? && oldLevel.value == newLevel.value {
        continue;
      }
      if levels[i].UserRef? && levels[i].user != sender && oldLevel == Some(level) {
        assert levels[i] in levels;
        return false;
      }
      if (oldLevel.Some? && oldLevel.value > level) || (newLevel.Some? && newLevel.value > level) {
        assert levels[i] in levels;
        return false;
      }
    }
    forall at: LevelRef | Compared(version, at)
      ensures MayChangeLevel(sender, level, at, LevelAt(before, at), LevelAt(after, at))
    {
      if at !in levels {
        assert LevelAt(before, at).None? && LevelAt(after, at).None?;
      }
    }
    return true;
  }

  method RunCheckPowerLevels(e: Event, state: State) returns (verdict: Verdict)
    ensures verdict == CheckPowerLevels(e, state)
  {
    if !UsersValid(e.content.powers) {
      return Err(BadUserId);
    }
    if e.stateKey.None? {
      return Err(MissingField);
    }
    var key := StateKey(e.kind, e.stateKey.value);
    if key !in state {
      return Ok(());
    }
    var level := UserLevel(e.sender, state);
    if level.Err? {
      return Err(level.error);
    }
    var allowed := CheckLevelChanges(e.version, e.sender, level.value, state[key].content.powers, e.content.powers);
    return if allowed then Ok(()) else Err(InsufficientPower);
  }

  // ----- check_state_independent_auth_rules -----

  /** The cited auth events, checked one by one while a dictionary of seen keys is filled. */
  method CheckStateIndependent(store: Store, e: Event) returns (verdict: Verdict)
    ensures verdict.Ok? <==> IndependentlyAllowed(store, e)
  {
    if e.kind == RoomCreate {
      return CheckCreate(e);
    }
    var expected := AuthTypes(e.version, e);
    if expected.Err? {
      return Err(expected.error);
    }
    var ids := e.authEventIds;
    var authDict: map<StateKey, string> := map[];
    for i := 0 to |ids|
      invariant forall k | 0 <= k < i :: GoodCitation(store, e, expected.value, ids[k])
      invariant forall j, k | 0 <= j < k < i :: KeyOf(store[ids[j]]) != KeyOf(store[ids[k]])
      invariant forall key: StateKey :: key in authDict <==> exists k | 0 <= k < i :: KeyOf(store[ids[k]]) == key
    {
      var id := ids[i];
      if id !in store {
        return Err(UnknownAuthEvent);
      }
      var authEvent := store[id];
      if authEvent.roomId != e.roomId {
        return Err(OtherRoom);
      }
      if authEvent.stateKey.None? {
        return Err(MissingField);
      }
      var key := KeyOf(authEvent);
      if key in authDict {
        return Err(DuplicateAuthEvent);
      }
      if key !in expected.value {
        return Err(UnexpectedAuthEvent);
      }
      if authEvent.metadata.rejected {
        return Err(RejectedAuthEvent);
      }
      authDict := authDict[key := id];
    }
    return if CREATE_KEY in authDict then Ok(()) else Err(NoCreateEvent);
  }
}
