/** What every event of a valid history keeps to, in the terms of the events themselves. */
module RoomLaws {
  import opened Wrappers
  import opened RoomVersions
  import opened Events
  import opened EventAuth
  import opened AuthSelection
  import opened RuleBook
  import opened MembershipRules
  import opened SendRules
  import opened CitationRules
  import opened RoomRuns

  /** The state holds, under every key, the last event that set it. */
  lemma {:induction false} LatestWins(history: seq<Event>, i: nat, kind: EventType, key: string)
    requires i <= |history|
    ensures StateKey(kind, key) in StateAt(history, i)
       <==> exists k | 0 <= k < i :: history[k].kind == kind && history[k].stateKey == Some(key)
    ensures StateKey(kind, key) in StateAt(history, i) ==>
              exists k | 0 <= k < i ::
                && history[k] == StateAt(history, i)[StateKey(kind, key)]
                && history[k].kind == kind && history[k].stateKey == Some(key)
                && forall later | k < later < i :: history[later].kind != kind || history[later].stateKey != Some(key)
  {
    if i == 0 {
      assert history[..0] == [];
    } else {
      LatestWins(history, i - 1, kind, key);
      StateStep(history, i - 1);
      var last := history[i - 1];
      if last.kind == kind && last.stateKey == Some(key) {
        assert StateAt(history, i)[StateKey(kind, key)] == history[i - 1];
      }
    }
  }

  lemma AcceptedIsAllowed(room: Room, history: seq<Event>, i: nat)
    requires ValidHistory(room, history) && i < |history|
    ensures history[i].version == room.version && history[i].roomId == room.roomId
    ensures AllowedIn(room.validServer, history[i], StateAt(history, i))
  {
    assert Accepts(room, history[..i], history[i]);
    VerdictExactly(room.validServer, history[i], StateAt(history, i));
  }

  /** An event that is neither a create nor a member event, nor aliases of an old room version. */
  predicate IsPost(e: Event) {
    e.kind != RoomCreate && e.kind != RoomMember && !(e.kind == RoomAliases && e.version.specialCaseAliasesAuth)
  }

  /** Only members post. */
  lemma PostersAreJoined(room: Room, history: seq<Event>, i: nat)
    requires ValidHistory(room, history) && i < |history| && IsPost(history[i])
    ensures IsMember(StateAt(history, i), history[i].sender, Join)
  {
    AcceptedIsAllowed(room, history, i);
  }

  /** With power levels in force, every post came from a sender at the level listed for its type or, if none is listed,
      at the default for state or messages. Third-party invites need the power to invite instead. */
  lemma PostsHadPower(room: Room, history: seq<Event>, i: nat)
    requires ValidHistory(room, history) && i < |history| && IsPost(history[i])
    requires StateKey(RoomPowerLevels, "") in StateAt(history, i)
    ensures var e, powers := history[i], StateAt(history, i)[StateKey(RoomPowerLevels, "")].content.powers;
            ListedLevel(powers, e.sender) >=
            if e.kind == RoomThirdPartyInvite then (if powers.invite.Some? then powers.invite.value else 0)
            else if e.kind in powers.events then powers.events[e.kind]
            else if e.stateKey.Some? then (if powers.stateDefault.Some? then powers.stateDefault.value else 50)
            else if powers.eventsDefault.Some? then powers.eventsDefault.value else 0
  {
    AcceptedIsAllowed(room, history, i);
  }

  /** Nobody writes state under the id of another user, except (MSC3757) under that of somebody they outrank. */
  lemma OthersStateIsTheirs(room: Room, history: seq<Event>, i: nat)
    requires ValidHistory(room, history) && i < |history| && IsPost(history[i])
    requires history[i].kind != RoomThirdPartyInvite
    requires history[i].stateKey.Some? && history[i].stateKey.value != "" && history[i].stateKey.value[0] == '@'
    requires history[i].stateKey.value != history[i].sender
    ensures room.version.msc3757Enabled
    ensures exists owner: string ::
              && OwnsKey(room.validServer, owner, history[i].stateKey.value)
              && (owner == history[i].sender
                  || LevelOf(StateAt(history, i), history[i].sender) > LevelOf(StateAt(history, i), owner))
  {
    AcceptedIsAllowed(room, history, i);
  }

  /** A listed user's level changes only by their own hand, or by that of somebody strictly above them. */
  lemma LevelChangesFromAbove(room: Room, history: seq<Event>, i: nat, user: string)
    requires ValidHistory(room, history) && i < |history| && StateKey(RoomPowerLevels, "") in StateAt(history, i)
    requires user in StateAt(history, i)[StateKey(RoomPowerLevels, "")].content.powers.users
    ensures StateKey(RoomPowerLevels, "") in StateAt(history, i + 1)
    ensures var before := StateAt(history, i)[StateKey(RoomPowerLevels, "")].content.powers;
            var after := StateAt(history, i + 1)[StateKey(RoomPowerLevels, "")].content.powers;
            user !in after.users || after.users[user] != before.users[user] ==>
              history[i].sender == user || ListedLevel(before, history[i].sender) > before.users[user]
  {
    PowersStep(room, history, i);
  }

  /** Nobody lists a level above their own, and nobody's default or required levels get above it either. */
  lemma NewLevelsFromAbove(room: Room, history: seq<Event>, i: nat)
    requires ValidHistory(room, history) && i < |history| && StateKey(RoomPowerLevels, "") in StateAt(history, i)
    ensures StateKey(RoomPowerLevels, "") in StateAt(history, i + 1)
    ensures var before := StateAt(history, i)[StateKey(RoomPowerLevels, "")].content.powers;
            var after := StateAt(history, i + 1)[StateKey(RoomPowerLevels, "")].content.powers;
            var level := ListedLevel(before, history[i].sender);
            && (forall user <- after.users | Entry(before.users, user) != Some(after.users[user]) ::
                  after.users[user] <= level)
            && (forall kind <- after.events | Entry(before.events, kind) != Some(after.events[kind]) ::
                  after.events[kind] <= level)
            && (after.ban.Some? && before.ban != after.ban ==> after.ban.value <= level)
            && (after.kick.Some? && before.kick != after.kick ==> after.kick.value <= level)
            && (after.invite.Some? && before.invite != after.invite ==> after.invite.value <= level)
            && (after.redact.Some? && before.redact != after.redact ==> after.redact.value <= level)
            && (after.usersDefault.Some? && before.usersDefault != after.usersDefault ==>
                  after.usersDefault.value <= level)
  {
    PowersStep(room, history, i);
    var before := StateAt(history, i)[StateKey(RoomPowerLevels, "")].content.powers;
    var after := StateAt(history, i + 1)[StateKey(RoomPowerLevels, "")].content.powers;
    var level := ListedLevel(before, history[i].sender);
    if SetsPowers(history[i]) {
      forall user <- after.users
        ensures Within(level, Entry(before.users, user), Entry(after.users, user))
      {
      }
      forall kind <- after.events
        ensures Within(level, Entry(before.events, kind), Entry(after.events, kind))
      {
      }
    }
  }

  /** A room that does not federate stays on one server: everybody who sends anything there is of that server. */
  lemma UnfederatedStaysLocal(room: Room, history: seq<Event>, i: nat)
    requires ValidHistory(room, history) && i < |history| && history[0].content.federate == Some(false)
    ensures SameServer(history[i].sender, room.roomId)
  {
    AcceptedIsAllowed(room, history, i);
    if i == 0 {
      assert Accepts(room, history[..0], history[0]);
      assert history[..0] == [] && StoreOf([]) == map[];
      CreateOnlyFirst(room, history, 0);
      CreateExactly(history[0]);
    } else {
      CreateOnlyFirst(room, history, i);
      if Created(StateAt(history, i)) {
        CreateStays(room, history, i);
      }
    }
  }

  lemma {:induction false} StoreHoldsHistory(history: seq<Event>, id: string)
    ensures id in StoreOf(history) ==> exists k | 0 <= k < |history| :: history[k] == StoreOf(history)[id]
                                                                        && history[k].eventId == id
  {
    if history != [] {
      var n := |history| - 1;
      StoreHoldsHistory(history[..n], id);
      if id in StoreOf(history) && id != history[n].eventId {
        var k :| 0 <= k < n && history[..n][k] == StoreOf(history[..n])[id] && history[..n][k].eventId == id;
        assert history[k] == StoreOf(history)[id];
      }
    }
  }

  /** Every event cites earlier events of the history only, none of them rejected, each a state event its rules may
      need, and the create event among them. */
  lemma CitationsAreEarlier(room: Room, history: seq<Event>, i: nat)
    requires ValidHistory(room, history) && 0 < i < |history|
    ensures forall id <- history[i].authEventIds ::
              exists k | 0 <= k < i ::
                && history[k].eventId == id && !history[k].metadata.rejected && history[k].stateKey.Some?
                && IsSelected(history[i], StateKey(history[k].kind, history[k].stateKey.value))
    ensures history[0].eventId in history[i].authEventIds
  {
    var e, store := history[i], StoreOf(history[..i]);
    assert Accepts(room, history[..i], e);
    CreateOnlyFirst(room, history, i);
    IndependentExactly(store, e);
    forall id <- e.authEventIds
      ensures exists k | 0 <= k < i ::
                && history[k].eventId == id && !history[k].metadata.rejected && history[k].stateKey.Some?
                && IsSelected(e, StateKey(history[k].kind, history[k].stateKey.value))
    {
      var n :| 0 <= n < |e.authEventIds| && e.authEventIds[n] == id;
      assert MayCite(store, e, e.authEventIds[n]);
      StoreHoldsHistory(history[..i], id);
      var k :| 0 <= k < i && history[..i][k] == store[id] && history[..i][k].eventId == id;
      assert history[k] == store[id];
    }
    var n :| 0 <= n < |e.authEventIds| && store[e.authEventIds[n]].kind == RoomCreate;
    StoreHoldsHistory(history[..i], e.authEventIds[n]);
    assert MayCite(store, e, e.authEventIds[n]);
    var k :| 0 <= k < i && history[..i][k] == store[e.authEventIds[n]] && history[..i][k].eventId == e.authEventIds[n];
    CreateOnlyFirst(room, history, k);
  }
}
