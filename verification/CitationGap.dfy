/** When checking an event against the auth events it cites can mislead. */
module CitationGap {
  import opened Wrappers
  import opened RoomVersions
  import opened Events
  import opened EventAuth
  import opened AuthSelection

  /** `e` cites its selection from the room state, and yet the cited events give another verdict than the state. */
  ghost predicate Misleads(validServer: string -> bool, e: Event, store: Store, state: State) {
    && RoomState(state, e.roomId) && CitesSelection(store, state, e)
    && CheckStateDependent(validServer, e, StateOf(Cited(store, e))) != CheckStateDependent(validServer, e, state)
  }

  const CITED := ["$create", "$member", "$levels"]

  function CitedStore(e: Event): Store {
    var open := OpenState(e);
    map["$create" := open[CREATE_KEY], "$member" := open[MemberKey(e.sender)], "$levels" := open[POWER_KEY]]
  }

  lemma CitedEvents(e: Event)
    requires e.authEventIds == CITED
    ensures (forall id <- e.authEventIds :: id in CitedStore(e))
    ensures var open := OpenState(e);
            Cited(CitedStore(e), e) == [open[CREATE_KEY], open[MemberKey(e.sender)], open[POWER_KEY]]
  {
  }

  lemma StateOfThree(a: Event, b: Event, c: Event)
    requires a.stateKey.Some? && b.stateKey.Some? && c.stateKey.Some?
    ensures StateOf([a, b, c]) == map[KeyOf(a) := a, KeyOf(b) := b, KeyOf(c) := c]
  {
    assert [a, b, c][..2] == [a, b] && [a, b][..1] == [a] && [a][..0] == [];
    assert StateOf([a]) == map[KeyOf(a) := a];
    assert StateOf([a, b]) == map[KeyOf(a) := a, KeyOf(b) := b];
  }

  /** The cited events make up the open state, in which the event is allowed. */
  lemma CitedIsOpen(e: Event)
    requires e.authEventIds == CITED
    ensures (forall id <- e.authEventIds :: id in CitedStore(e)) && StateOf(Cited(CitedStore(e), e)) == OpenState(e)
  {
    CitedEvents(e);
    var open := OpenState(e);
    StateOfThree(open[CREATE_KEY], open[MemberKey(e.sender)], open[POWER_KEY]);
  }

  lemma GuardedIsRoomState(e: Event)
    requires e.stateKey.Some?
    ensures RoomState(GuardedState(e), e.roomId)
  {
  }

  lemma GuardedKeepsOpen(e: Event)
    requires e.kind == RoomPowerLevels && e.stateKey.Some? && e.stateKey.value != ""
    ensures forall key <- OpenState(e) :: key in GuardedState(e) && GuardedState(e)[key] == OpenState(e)[key]
  {
    assert StateKey(e.kind, e.stateKey.value) !in OpenState(e);
  }

  lemma GuardedIsCited(e: Event)
    requires e.kind == RoomPowerLevels && e.stateKey.Some? && e.stateKey.value != "" && e.authEventIds == CITED
    ensures CitesSelection(CitedStore(e), GuardedState(e), e)
  {
    GuardedKeepsOpen(e);
    var keys, ids, store, open := AuthTypes(e.version, e).value, e.authEventIds, CitedStore(e), OpenState(e);
    assert keys == {POWER_KEY, MemberKey(e.sender), CREATE_KEY};
    assert store[ids[0]] == open[CREATE_KEY] && KeyOf(store[ids[0]]) == CREATE_KEY;
    assert store[ids[1]] == open[MemberKey(e.sender)] && KeyOf(store[ids[1]]) == MemberKey(e.sender);
    assert store[ids[2]] == open[POWER_KEY] && KeyOf(store[ids[2]]) == POWER_KEY;
  }

  lemma GapMisleads(validServer: string -> bool, e: Event)
    requires SelectionGap(validServer, e) && e.authEventIds == CITED
    ensures Misleads(validServer, e, CitedStore(e), GuardedState(e))
  {
    GapShows(validServer, e);
    CitedIsOpen(e);
    GuardedIsRoomState(e);
    GuardedIsCited(e);
  }

  /** For some room state from which the event cites its selection the cited events give another verdict than the
      state, if and only if the event lies in the gap of auth event selection. */
  lemma CitingMisleadsExactly(validServer: string -> bool, e: Event)
    requires Known(e.version) && e.kind != RoomCreate
    ensures (exists ids: seq<string>, store: Store, state: State ::
               Misleads(validServer, e.(authEventIds := ids), store, state))
       <==> SelectionGap(validServer, e)
  {
    if SelectionGap(validServer, e) {
      var citing := e.(authEventIds := CITED);
      assert SelectionGap(validServer, citing);
      GapMisleads(validServer, citing);
    } else {
      forall ids: seq<string>, store: Store, state: State
        ensures !Misleads(validServer, e.(authEventIds := ids), store, state)
      {
        var citing := e.(authEventIds := ids);
        assert !SelectionGap(validServer, citing);
        if RoomState(state, e.roomId) && CitesSelection(store, state, citing) {
          CitedEventsDecide(validServer, store, state, citing);
        }
      }
    }
  }
}
