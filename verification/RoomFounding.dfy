/** How a room starts: exactly who can take the second step. */
module RoomFounding {
  import opened Wrappers
  import opened RoomVersions
  import opened Events
  import opened EventAuth
  import opened AuthSelection
  import opened RuleBook
  import opened MembershipRules
  import opened SendRules
  import opened CitationRules
  import opened RoomRuns

  function CreateEvent(room: Room, id: string, creator: string): Event {
    Event(id, room.roomId, creator, RoomCreate, Some(""), [], [], None, 0,
          NO_CONTENT.(creator := Some(creator)), NO_METADATA, room.version)
  }

  function JoinEvent(room: Room, id: string, createId: string, user: string): Event {
    Event(id, room.roomId, user, RoomMember, Some(user), [createId], [createId], None, 0,
          NO_CONTENT.(membership := Some(Join)), NO_METADATA, room.version)
  }

  lemma CreateStartsHistory(room: Room, id: string, creator: string)
    requires SameServer(creator, room.roomId)
    ensures Accepts(room, [], CreateEvent(room, id, creator))
  {
    CreateExactly(CreateEvent(room, id, creator));
  }

  // ----- The second event -----

  /** The sender's server may take part in the room. */
  predicate MayTakePart(e: Event, state: State) {
    HasServer(e.roomId) && HasServer(e.sender) && (SameServer(e.roomId, e.sender) || Federates(state))
  }

  /** The creator's join, directly on top of the create event. */
  predicate IsFoundingJoin(e: Event, state: State) {
    && e.kind == RoomMember && e.content.membership == Some(Join)
    && e.stateKey.Some? && FoundsRoom(e, e.stateKey.value, state)
  }

  /** In old room versions, aliases of the sender's server need no membership. */
  predicate IsOwnAliases(e: Event) {
    e.kind == RoomAliases && e.version.specialCaseAliasesAuth && SetsOwnAliases(e)
  }

  lemma FirstVerdict(validServer: string -> bool, create: Event, e: Event)
    requires e.kind != RoomCreate && CreatorKnown(create, e.version)
    ensures var state := map[CREATE_KEY := create];
            CheckStateDependent(validServer, e, state).Ok?
            <==> MayTakePart(e, state) && (IsFoundingJoin(e, state) || IsOwnAliases(e))
  {
    VerdictExactly(validServer, e, map[CREATE_KEY := create]);
  }

  /** What a create event alone makes of the room state. */
  lemma OneEventState(create: Event)
    requires create.stateKey.Some?
    ensures StateOf([create]) == map[KeyOf(create) := create] && StoreOf([create]) == map[create.eventId := create]
  {
    assert [create][..0] == [];
  }

  lemma CitesTheCreate(create: Event, e: Event)
    requires e.kind != RoomCreate && IndependentlyAllowed(map[create.eventId := create], e)
    ensures create.stateKey.Some? && KeyOf(create) == CREATE_KEY
  {
    var store, ids := map[create.eventId := create], e.authEventIds;
    var i :| 0 <= i < |ids| && KeyOf(store[ids[i]]) == CREATE_KEY;
    assert GoodCitation(store, e, AuthTypes(e.version, e).value, ids[i]);
  }

  /** A room's second event, whatever its shape: it passes exactly if it is the creator's join or, in old versions,
      sets aliases of the sender's own server, and the sender's server may take part. */
  lemma SecondEventExactly(room: Room, create: Event, e: Event)
    requires Accepts(room, [], create)
    requires e.version == room.version && e.roomId == room.roomId
    requires e.eventId != create.eventId && e.prevEventIds == [create.eventId]
    requires IndependentlyAllowed(map[create.eventId := create], e)
    ensures var state := StateOf([create]);
            Accepts(room, [create], e) <==> MayTakePart(e, state) && (IsFoundingJoin(e, state) || IsOwnAliases(e))
  {
    assert create.kind == RoomCreate by {
      assert StoreOf([]) == map[];
    }
    assert e.kind != RoomCreate;
    CreateExactly(create);
    CitesTheCreate(create, e);
    OneEventState(create);
    FirstVerdict(room.validServer, create, e);
  }

  // ----- A room can be founded -----

  lemma JoinCitesCreate(room: Room, createId: string, creator: string, id: string)
    ensures IndependentlyAllowed(map[createId := CreateEvent(room, createId, creator)],
                                 JoinEvent(room, id, createId, creator))
  {
    var create, join := CreateEvent(room, createId, creator), JoinEvent(room, id, createId, creator);
    var expected := AuthTypes(room.version, join).value;
    assert KeyOf(create) == CREATE_KEY && CREATE_KEY in expected;
    assert GoodCitation(map[createId := create], join, expected, join.authEventIds[0]);
  }

  /** In every version a user can create a room on their own server and join it. */
  lemma RoomCanBeFounded(room: Room, createId: string, creator: string, id: string)
    requires SameServer(creator, room.roomId) && id != createId
    ensures Accepts(room, [], CreateEvent(room, createId, creator))
    ensures Accepts(room, [CreateEvent(room, createId, creator)], JoinEvent(room, id, createId, creator))
  {
    var create, join := CreateEvent(room, createId, creator), JoinEvent(room, id, createId, creator);
    CreateStartsHistory(room, createId, creator);
    JoinCitesCreate(room, createId, creator, id);
    SecondEventExactly(room, create, join);
    OneEventState(create);
  }
}
