/** The rules that do not depend on the room state: create events, and the auth events an event may cite. */
module CitationRules {
  import opened Wrappers
  import opened RoomVersions
  import opened Events
  import opened EventAuth
  import opened RuleBook

  // ----- Room versions by feature -----

  const IDENTIFIERS: seq<string> :=
    ["1", "2", "3", "4", "5", "6", "7", "8", "9", "10", "11", "org.matrix.msc3757.10", "org.matrix.msc3757.11"]

  /** Which of the listed versions have which feature. */
  lemma FeaturesByVersion(version: RoomVersion)
    requires Known(version)
    ensures version.eventFormat == RoomV1V2 <==> version.identifier in {"1", "2"}
    ensures version.specialCaseAliasesAuth <==> version.identifier in {"1", "2", "3", "4", "5"}
    ensures version.limitNotificationsPowerLevels <==> version.identifier !in {"1", "2", "3", "4", "5"}
    ensures version.knockJoinRule <==> version.identifier !in {"1", "2", "3", "4", "5", "6"}
    ensures version.restrictedJoinRule <==> version.identifier !in {"1", "2", "3", "4", "5", "6", "7"}
    ensures version.knockRestrictedJoinRule
       <==> version.identifier in {"10", "11", "org.matrix.msc3757.10", "org.matrix.msc3757.11"}
    ensures version.implicitRoomCreator <==> version.identifier in {"11", "org.matrix.msc3757.11"}
    ensures version.msc3757Enabled <==> version.identifier in {"org.matrix.msc3757.10", "org.matrix.msc3757.11"}
  {
    var i :| 0 <= i < |KNOWN_ROOM_VERSIONS| && KNOWN_ROOM_VERSIONS[i] == version;
  }

  lemma IdentifierAt(i: nat)
    requires i < |KNOWN_ROOM_VERSIONS|
    ensures |IDENTIFIERS| == |KNOWN_ROOM_VERSIONS| && KNOWN_ROOM_VERSIONS[i].identifier == IDENTIFIERS[i]
  {
  }

  lemma IdentifiersExactly(identifier: string)
    ensures KnownIdentifier(identifier) <==> identifier in IDENTIFIERS
  {
    if KnownIdentifier(identifier) {
      var i :| 0 <= i < |KNOWN_ROOM_VERSIONS| && KNOWN_ROOM_VERSIONS[i].identifier == identifier;
      IdentifierAt(i);
    }
    if identifier in IDENTIFIERS {
      var i :| 0 <= i < |IDENTIFIERS| && IDENTIFIERS[i] == identifier;
      IdentifierAt(i);
      assert KNOWN_ROOM_VERSIONS[i] in KNOWN_ROOM_VERSIONS;
    }
  }

  // ----- Create events -----

  /** A room is created by a user of its own server, before anything else, in a known version, with a creator. */
  predicate MayCreate(e: Event) {
    && e.prevEventIds == [] && SameServer(e.sender, e.roomId)
    && (e.content.roomVersion.Some? ==> e.content.roomVersion.value in IDENTIFIERS)
    && CreatorKnown(e, e.version)
  }

  lemma CreateExactly(e: Event)
    ensures CheckCreate(e).Ok? <==> MayCreate(e)
  {
    ServersAgree(e.sender);
    ServersAgree(e.roomId);
    if e.content.roomVersion.Some? {
      IdentifiersExactly(e.content.roomVersion.value);
    } else {
      IdentifiersExactly("1");
    }
  }

  // ----- Auth event selection -----

  /** The entry is one the rules may need for this event. */
  predicate IsSelected(e: Event, key: StateKey) {
    match key.kind
    case RoomCreate => key.key == ""
    case RoomPowerLevels => key.key == ""
    case RoomJoinRules =>
      && key.key == "" && e.kind == RoomMember
      && (e.content.membership == Some(Join) || e.content.membership == Some(Invite)
          || e.content.membership == Some(Knock))
    case RoomMember =>
      || key.key == e.sender
      || (&& e.kind == RoomMember
          && (|| e.stateKey == Some(key.key)
              || (&& e.content.membership == Some(Join) && e.version.restrictedJoinRule
                  && e.content.authorisingUser == Some(key.key))))
    case RoomThirdPartyInvite =>
      && e.kind == RoomMember && e.content.membership == Some(Invite)
      && e.content.thirdPartyInvite.Some? && e.content.thirdPartyInvite.value.token == Some(key.key)
    case _ => false
  }

  /** A selection cannot be made for a membership event that lacks its membership, its target or its invite's token. */
  predicate Selectable(e: Event) {
    e.kind == RoomMember ==>
      && e.content.membership.Some? && e.stateKey.Some?
      && (e.content.membership == Some(Invite) && e.content.thirdPartyInvite.Some? ==>
            e.content.thirdPartyInvite.value.token.Some?)
  }

  /** The selection holds the entries the rules may need, all of them and no others. */
  lemma SelectionExactly(e: Event, key: StateKey)
    requires e.kind != RoomCreate
    ensures AuthTypes(e.version, e).Ok? <==> Selectable(e)
    ensures Selectable(e) ==> (key in AuthTypes(e.version, e).value <==> IsSelected(e, key))
  {
  }

  // ----- Citations -----

  /** The citation is of a stored, accepted state event of the room that the rules may need. */
  predicate MayCite(store: Store, e: Event, id: string) {
    && id in store
    && var cited := store[id];
    && cited.roomId == e.roomId && !cited.metadata.rejected
    && cited.stateKey.Some? && IsSelected(e, StateKey(cited.kind, cited.stateKey.value))
  }

  ghost predicate CitesWell(store: Store, e: Event) {
    var ids := e.authEventIds;
    && Selectable(e)
    && (forall i | 0 <= i < |ids| :: MayCite(store, e, ids[i]))
    && (forall i, j | 0 <= i < j < |ids| ::
          store[ids[i]].kind != store[ids[j]].kind || store[ids[i]].stateKey != store[ids[j]].stateKey)
    && (exists i | 0 <= i < |ids| :: store[ids[i]].kind == RoomCreate && store[ids[i]].stateKey == Some(""))
  }

  lemma CitationExactly(store: Store, e: Event, id: string)
    requires e.kind != RoomCreate && Selectable(e)
    ensures AuthTypes(e.version, e).Ok?
    ensures GoodCitation(store, e, AuthTypes(e.version, e).value, id) <==> MayCite(store, e, id)
  {
    if id in store && store[id].stateKey.Some? {
      SelectionExactly(e, StateKey(store[id].kind, store[id].stateKey.value));
    } else {
      SelectionExactly(e, StateKey(RoomCreate, ""));
    }
  }

  /** The state-independent check passes create events as above, and other events exactly if they cite well. */
  lemma IndependentExactly(store: Store, e: Event)
    ensures IndependentlyAllowed(store, e) <==> if e.kind == RoomCreate then MayCreate(e) else CitesWell(store, e)
  {
    if e.kind == RoomCreate {
      CreateExactly(e);
    } else {
      SelectionExactly(e, StateKey(RoomCreate, ""));
      if Selectable(e) {
        forall id: string
          ensures GoodCitation(store, e, AuthTypes(e.version, e).value, id) <==> MayCite(store, e, id)
        {
          CitationExactly(store, e, id);
        }
        WellExactly(store, e);
      }
    }
  }

  lemma WellExactly(store: Store, e: Event)
    requires e.kind != RoomCreate && Selectable(e) && AuthTypes(e.version, e).Ok?
    requires forall id: string :: GoodCitation(store, e, AuthTypes(e.version, e).value, id) <==> MayCite(store, e, id)
    ensures IndependentlyAllowed(store, e) <==> CitesWell(store, e)
  {
    var ids, keys := e.authEventIds, AuthTypes(e.version, e).value;
    if IndependentlyAllowed(store, e) {
      assert forall i | 0 <= i < |ids| :: GoodCitation(store, e, keys, ids[i]);
      var i :| 0 <= i < |ids| && KeyOf(store[ids[i]]) == CREATE_KEY;
      assert store[ids[i]].kind == RoomCreate;
    }
    if CitesWell(store, e) {
      assert forall i | 0 <= i < |ids| :: MayCite(store, e, ids[i]);
      var i :| 0 <= i < |ids| && store[ids[i]].kind == RoomCreate && store[ids[i]].stateKey == Some("");
      assert KeyOf(store[ids[i]]) == CREATE_KEY;
    }
  }
}
