/** The notifier (synapse/notifier.py): user streams, the index from rooms to streams, and the listeners that wait
    for a stream to move. Each method is one atomic step of the single-threaded reactor. */
module Notifications {
  import opened Wrappers
  import opened Events
  import opened PendingQueue

  /** A point in all of the server's event streams; only ever compared for equality here. */
  datatype StreamToken = StreamToken(positions: seq<int>)

  const UNUSED_STREAM_EXPIRY_MS := 10 * 60 * 1000

  /** A listener: pending until it is resolved or cancelled. */
  class Deferred {
    var result: Option<StreamToken>
    var cancelled: bool
    /** The token it was registered with, and the stream it was registered on. */
    ghost const waitingFor: StreamToken
    ghost const stream: UserStream

    predicate Pending()
      reads this
    {
      result.None? && !cancelled
    }

    constructor (result: Option<StreamToken>, ghost waitingFor: StreamToken, ghost stream: UserStream)
      ensures this.result == result && !cancelled && this.waitingFor == waitingFor && this.stream == stream
    {
      this.result, cancelled, this.waitingFor, this.stream := result, false, waitingFor, stream;
    }

    /** Resolving twice, or after a cancellation, is an error. */
    method Callback(token: StreamToken)
      requires Pending()
      modifies this
      ensures result == Some(token) && cancelled == old(cancelled)
    {
      result := Some(token);
    }
  }

  class UserStream {
    const userId: string
    var rooms: set<string>
    var currentToken: StreamToken
    var lastNotifiedMs: int
    var listeners: set<Deferred>

    constructor (userId: string, rooms: set<string>, currentToken: StreamToken, now: int)
      ensures this.userId == userId && this.rooms == rooms && this.currentToken == currentToken
      ensures lastNotifiedMs == now && listeners == {}
    {
      this.userId, this.rooms, this.currentToken, lastNotifiedMs, listeners := userId, rooms, currentToken, now, {};
    }

    /** Nobody sleeps on a stale token: every listener is pending and registered with the present token. */
    ghost predicate UpToDate()
      reads this, listeners
    {
      forall d <- listeners :: d.Pending() && d.waitingFor == currentToken && d.stream == this
    }

    method UpdateAndFetchDeferreds(token: StreamToken, now: int) returns (woken: set<Deferred>)
      modifies this
      ensures currentToken == token && lastNotifiedMs == now && listeners == {} && rooms == old(rooms)
      ensures woken == old(listeners)
    {
      currentToken := token;
      lastNotifiedMs := now;
      woken := listeners;
      listeners := {};
    }

    /** A caller whose token is not the present one is answered at once, anybody else waits. */
    method NewListener(token: StreamToken) returns (d: Deferred)
      requires UpToDate()
      modifies this
      ensures UpToDate() && fresh(d) && d.waitingFor == token && d.stream == this
      ensures currentToken == old(currentToken) && rooms == old(rooms) && lastNotifiedMs == old(lastNotifiedMs)
      ensures if token != currentToken then d.result == Some(currentToken) && listeners == old(listeners)
              else d.Pending() && listeners == old(listeners) + {d}
    {
      if token != currentToken {
        d := new Deferred(Some(currentToken), token, this);
        return;
      }
      d := new Deferred(None, token, this);
      listeners := listeners + {d};
    }

    /** A timeout cancels the listener and takes it off the stream. */
    method Cancel(d: Deferred)
      requires UpToDate() && d in listeners
      modifies this, d
      ensures UpToDate() && d.cancelled && d.result.None? && listeners == old(listeners) - {d}
      ensures currentToken == old(currentToken) && rooms == old(rooms) && lastNotifiedMs == old(lastNotifiedMs)
    {
      d.cancelled := true;
      listeners := listeners - {d};
    }
  }

  // ----- Waking -----

  ghost predicate NoRepeats<T>(s: seq<T>) {
    forall i, j | 0 <= i < j < |s| :: s[i] != s[j]
  }

  method Extend(list: seq<Deferred>, more: set<Deferred>) returns (longer: seq<Deferred>)
    requires NoRepeats(list) && forall d <- more :: d !in list
    ensures NoRepeats(longer) && forall d: Deferred :: d in longer <==> d in list || d in more
  {
    longer := list;
    var left := more;
    while left != {}
      invariant left <= more && NoRepeats(longer)
      invariant forall d: Deferred :: d in longer <==> d in list || d in more - left
      decreases |left|
    {
      var d :| d in left;
      longer := longer + [d];
      left := left - {d};
    }
  }

  ghost function ListenersOf(streams: set<UserStream>): set<Deferred>
    reads streams
  {
    set s <- streams, d <- s.listeners :: d
  }

  ghost predicate AllUpToDate(streams: set<UserStream>)
    reads streams, ListenersOf(streams)
  {
    forall s <- streams :: s.UpToDate()
  }

  method MoveStreams(streams: set<UserStream>, token: StreamToken, now: int) returns (woken: seq<Deferred>)
    requires AllUpToDate(streams)
    modifies streams
    ensures forall s <- streams ::
              s.currentToken == token && s.lastNotifiedMs == now && s.listeners == {} && s.rooms == old(s.rooms)
    ensures NoRepeats(woken) && forall d: Deferred :: d in woken <==> d in old(ListenersOf(streams))
  {
    woken := [];
    var left := streams;
    while left != {}
      invariant left <= streams && NoRepeats(woken)
      invariant forall s <- left :: unchanged(s)
      invariant forall s <- streams - left ::
                  s.currentToken == token && s.lastNotifiedMs == now && s.listeners == {} && s.rooms == old(s.rooms)
      invariant forall d: Deferred :: d in woken <==> exists s <- streams - left :: d in old(s.listeners)
      decreases |left|
    {
      var s :| s in left;
      var fetched := s.UpdateAndFetchDeferreds(token, now);
      woken := Extend(woken, fetched);
      left := left - {s};
    }
  }

  method ResolveAll(woken: seq<Deferred>, token: StreamToken)
    requires NoRepeats(woken) && forall d <- woken :: d.Pending()
    modifies woken
    ensures forall d <- woken :: d.result == Some(token) && !d.cancelled
  {
    for i := 0 to |woken|
      invariant forall k | 0 <= k < i :: woken[k].result == Some(token) && !woken[k].cancelled
      invariant forall k | i <= k < |woken| :: woken[k].Pending()
    {
      woken[i].Callback(token);
    }
  }

  /** Moves the streams to the new token and resolves every listener that waited on one of them, exactly once. */
  method Wake(streams: set<UserStream>, token: StreamToken, now: int)
    requires AllUpToDate(streams)
    modifies streams, ListenersOf(streams)
    ensures forall s <- streams ::
              s.currentToken == token && s.lastNotifiedMs == now && s.listeners == {} && s.rooms == old(s.rooms)
    ensures forall d <- old(ListenersOf(streams)) :: d.result == Some(token) && !d.cancelled
  {
    var woken := MoveStreams(streams, token, now);
    ResolveAll(woken, token);
  }

  // ----- The notifier -----

  /** At most the room set of the stream changed. */
  twostate predicate SameExceptRooms(s: UserStream)
    reads s
  {
    && s.currentToken == old(s.currentToken) && s.lastNotifiedMs == old(s.lastNotifiedMs)
    && s.listeners == old(s.listeners)
  }

  twostate predicate SameStream(s: UserStream)
    reads s, s.listeners
  {
    SameExceptRooms(s) && s.rooms == old(s.rooms) && forall d <- s.listeners :: unchanged(d)
  }

  // ----- What a flush tells whom -----

  ghost function ExtraUsers(entries: seq<Entry>): set<string> {
    set e <- entries, user <- e.extraUsers :: user
  }

  ghost function RoomsOf(entries: seq<Entry>): set<string> {
    set e <- entries :: e.roomId
  }

  /** The rooms these entries join the user to. */
  ghost function RoomsJoined(entries: seq<Entry>, user: string): set<string> {
    set e <- entries | IsJoinOf(e, user) :: e.roomId
  }

  /** Some entry names the user, lies in one of the rooms, or is the user's own join. */
  ghost predicate Concerns(entries: seq<Entry>, user: string, rooms: set<string>) {
    exists e <- entries :: user in e.extraUsers || e.roomId in rooms || IsJoinOf(e, user)
  }

  /** Entries add exactly the rooms of the user's own joins: member events for that user that say join. */
  lemma OnlyJoinsAddRooms(entries: seq<Entry>, user: string, room: string)
    ensures room in RoomsJoined(entries, user)
       <==> exists i | 0 <= i < |entries| ::
              && entries[i].roomId == room && entries[i].kind == RoomMember
              && entries[i].membership == Some(Join) && entries[i].stateKey == Some(user) && user != ""
  {
  }

  lemma CollectConcat(a: seq<Entry>, b: seq<Entry>)
    ensures ExtraUsers(a + b) == ExtraUsers(a) + ExtraUsers(b)
    ensures RoomsOf(a + b) == RoomsOf(a) + RoomsOf(b)
    ensures forall user: string :: RoomsJoined(a + b, user) == RoomsJoined(a, user) + RoomsJoined(b, user)
  {
    assert forall e: Entry :: e in a + b <==> e in a || e in b;
  }

  /** Handling one more entry extends what is kept and what is collected. */
  lemma SplitSnoc(pending: seq<Entry>, i: nat, token: RoomToken)
    requires i < |pending|
    ensures var done, more := Released(pending[..i], token), Released([pending[i]], token);
            && Held(pending[..i + 1], token) == Held(pending[..i], token) + Held([pending[i]], token)
            && Released(pending[..i + 1], token) == done + more
            && ExtraUsers(done + more) == ExtraUsers(done) + ExtraUsers(more)
            && RoomsOf(done + more) == RoomsOf(done) + RoomsOf(more)
            && forall user: string ::
                 RoomsJoined(done + more, user) == RoomsJoined(done, user) + RoomsJoined(more, user)
  {
    assert pending[..i + 1] == pending[..i] + [pending[i]];
    assert [] + [pending[i]] == [pending[i]];
    HeldSnoc(pending[..i], pending[i], token);
    HeldSnoc([], pending[i], token);
    CollectConcat(Released(pending[..i], token), Released([pending[i]], token));
  }

  lemma ConcernsExactly(entries: seq<Entry>, user: string, rooms: set<string>)
    ensures Concerns(entries, user, rooms)
            <==> || user in ExtraUsers(entries)
                 || exists room <- RoomsOf(entries) :: room in rooms + RoomsJoined(entries, user)
    ensures !Concerns(entries, user, rooms) ==> rooms + RoomsJoined(entries, user) == rooms
  {
    if exists room <- RoomsOf(entries) :: room in rooms + RoomsJoined(entries, user) {
      var room :| room in RoomsOf(entries) && room in rooms + RoomsJoined(entries, user);
      if room in rooms {
        var e :| e in entries && e.roomId == room;
      }
    }
    if Concerns(entries, user, rooms) {
      var e :| e in entries && (user in e.extraUsers || e.roomId in rooms || IsJoinOf(e, user));
      assert e.roomId in RoomsOf(entries);
    }
  }

  /** The index lists the stream under the room. */
  ghost predicate In(index: map<string, set<UserStream>>, s: UserStream, room: string) {
    room in index && s in index[room]
  }

  class Notifier {
    var userToUserStream: map<string, UserStream>
    var roomToUserStreams: map<string, set<UserStream>>
    var pendingNewRoomEvents: seq<Entry>

    constructor ()
      ensures Valid() && userToUserStream == map[] && roomToUserStreams == map[] && pendingNewRoomEvents == []
    {
      userToUserStream, roomToUserStreams, pendingNewRoomEvents := map[], map[], [];
    }

    /** The registered streams. */
    ghost function Streams(): set<UserStream>
      reads this
    {
      userToUserStream.Values
    }

    ghost predicate Registered(s: UserStream)
      reads this
    {
      s.userId in userToUserStream && userToUserStream[s.userId] == s
    }

    /** Streams sit under their own user id, and the room index is the inverse of the streams' room sets. */
    ghost predicate IndexValid()
      reads this, Streams()
    {
      && (forall user <- userToUserStream :: userToUserStream[user].userId == user)
      && (forall room <- roomToUserStreams, s <- roomToUserStreams[room] | In(roomToUserStreams, s, room) ::
            Registered(s) && room in s.rooms)
      && (forall user <- userToUserStream, room <- userToUserStream[user].rooms ::
            In(roomToUserStreams, userToUserStream[user], room))
    }

    ghost predicate Valid()
      reads this, Streams(), ListenersOf(Streams())
    {
      IndexValid() && forall user <- userToUserStream :: userToUserStream[user].UpToDate()
    }

    /** The index seen from the streams. */
    lemma IndexInverse()
      requires IndexValid()
      ensures forall s <- Streams() :: Registered(s)
      ensures forall s <- Streams(), room <- s.rooms :: In(roomToUserStreams, s, room)
      ensures forall room <- roomToUserStreams, s <- roomToUserStreams[room] :: s in Streams() && room in s.rooms
    {
      forall s <- Streams()
        ensures Registered(s) && forall room <- s.rooms :: In(roomToUserStreams, s, room)
      {
        var user :| user in userToUserStream && userToUserStream[user] == s;
      }
      forall room <- roomToUserStreams, s <- roomToUserStreams[room]
        ensures s in Streams()
      {
        assert In(roomToUserStreams, s, room);
        assert userToUserStream[s.userId] == s;
      }
    }

    /** The streams that a plain scan over user ids and rooms would pick. */
    ghost function Scan(users: set<string>, rooms: set<string>): set<UserStream>
      reads this, Streams()
    {
      set s <- Streams() | s.userId in users || exists room <- rooms :: room in s.rooms
    }

    /** The streams that the two indexes lead to. */
    ghost predicate Found(s: UserStream, users: set<string>, rooms: set<string>)
      reads this
    {
      || (exists user <- users :: user in userToUserStream && userToUserStream[user] == s)
      || (exists room <- rooms :: In(roomToUserStreams, s, room))
    }

    ghost function FoundBy(users: set<string>, rooms: set<string>): set<UserStream>
      reads this
    {
      (set user <- users | user in userToUserStream :: userToUserStream[user])
      + (set room <- rooms | room in roomToUserStreams, s <- roomToUserStreams[room] :: s)
    }

    lemma FoundByIndexes(users: set<string>, rooms: set<string>)
      ensures forall s: UserStream :: s in FoundBy(users, rooms) <==> Found(s, users, rooms)
    {
    }

    lemma FoundIsScanned(users: set<string>, rooms: set<string>)
      requires IndexValid()
      ensures forall s: UserStream :: Found(s, users, rooms) <==> s in Scan(users, rooms)
    {
      IndexInverse();
      forall s: UserStream | Found(s, users, rooms)
        ensures s in Scan(users, rooms)
      {
        if exists user <- users :: user in userToUserStream && userToUserStream[user] == s {
          assert s in Streams();
        } else {
          var room :| room in rooms && In(roomToUserStreams, s, room);
          assert s in Streams() && room in s.rooms;
        }
      }
    }

    lemma FoundByIsScan(users: set<string>, rooms: set<string>)
      requires IndexValid()
      ensures FoundBy(users, rooms) == Scan(users, rooms)
    {
      FoundIsScanned(users, rooms);
      FoundByIndexes(users, rooms);
    }

    method StreamsOfUsers(users: set<string>) returns (selected: set<UserStream>)
      ensures forall s: UserStream ::
                s in selected <==> exists user <- users :: user in userToUserStream && userToUserStream[user] == s
    {
      selected := {};
      var left := users;
      while left != {}
        invariant left <= users
        invariant forall s: UserStream ::
                    s in selected
                    <==> exists user <- users - left :: user in userToUserStream && userToUserStream[user] == s
        decreases |left|
      {
        var user :| user in left;
        ghost var before := selected;
        if user in userToUserStream {
          selected := selected + {userToUserStream[user]};
        }
        assert forall other <- users - (left - {user}) :: other == user || other in users - left;
        left := left - {user};
      }
    }

    method StreamsInRooms(rooms: set<string>) returns (selected: set<UserStream>)
      ensures forall s: UserStream :: s in selected <==> exists room <- rooms :: In(roomToUserStreams, s, room)
    {
      selected := {};
      var left := rooms;
      while left != {}
        invariant left <= rooms
        invariant forall s: UserStream ::
                    s in selected <==> exists room <- rooms | room !in left :: In(roomToUserStreams, s, room)
        decreases |left|
      {
        var room :| room in left;
        ghost var before := selected;
        selected := selected + if room in roomToUserStreams then roomToUserStreams[room] else {};
        assert forall s: UserStream :: s in selected <==> s in before || In(roomToUserStreams, s, room);
        left := left - {room};
      }
    }

    /** Looking the streams up through both indexes finds, if these are inverse, what the scan finds. */
    method SelectStreams(users: set<string>, rooms: set<string>) returns (selected: set<UserStream>)
      ensures forall s: UserStream :: s in selected <==> Found(s, users, rooms)
      ensures IndexValid() ==> selected == Scan(users, rooms)
    {
      var byUser := StreamsOfUsers(users);
      var byRoom := StreamsInRooms(rooms);
      selected := byUser + byRoom;
      if IndexValid() {
        FoundIsScanned(users, rooms);
      }
    }

    /** Whether or not the indexes are inverse: wakes exactly the streams they lead to. */
    method WakeFound(users: set<string>, rooms: set<string>, token: StreamToken, now: int)
      requires AllUpToDate(FoundBy(users, rooms))
      modifies FoundBy(users, rooms), ListenersOf(FoundBy(users, rooms))
      ensures forall s <- FoundBy(users, rooms) ::
                s.currentToken == token && s.lastNotifiedMs == now && s.listeners == {} && s.rooms == old(s.rooms)
      ensures forall d <- old(ListenersOf(FoundBy(users, rooms))) :: d.result == Some(token) && !d.cancelled
    {
      var selected := SelectStreams(users, rooms);
      FoundByIndexes(users, rooms);
      assert selected == FoundBy(users, rooms);
      Wake(selected, token, now);
    }

    /** Wakes exactly the streams a scan would pick: they move to the new token and all their listeners are resolved
        with it; nothing else changes. */
    method OnNewEvent(users: set<string>, rooms: set<string>, token: StreamToken, now: int)
      requires Valid()
      modifies Streams(), ListenersOf(Streams())
      ensures Valid()
      ensures forall s <- old(Scan(users, rooms)) ::
                s.currentToken == token && s.lastNotifiedMs == now && s.listeners == {} && s.rooms == old(s.rooms)
      ensures forall d <- old(ListenersOf(Scan(users, rooms))) :: d.result == Some(token) && !d.cancelled
      ensures forall s <- Streams() | s !in old(Scan(users, rooms)) :: SameStream(s)
    {
      if userToUserStream != map[] || roomToUserStreams != map[] {
        FoundByIsScan(users, rooms);
        WakeFound(users, rooms, token, now);
      } else {
        assert Scan(users, rooms) == {};
      }
    }

    method UserJoinedRoom(user: string, room: string)
      requires Valid()
      modifies this`roomToUserStreams, Streams()
      ensures Valid()
      ensures forall s <- Streams() ::
                SameExceptRooms(s) && s.rooms == old(s.rooms) + (if s.userId == user then {room} else {})
    {
      if user in userToUserStream {
        var stream := userToUserStream[user];
        assert stream in Streams();
        AddToRoom(stream, room);
        stream.rooms := stream.rooms + {room};
      }
    }

    /** Finds the user's stream, or registers a new one under the user id and in every room. */
    method GetStream(user: string, rooms: set<string>, token: StreamToken, now: int) returns (stream: UserStream)
      requires Valid()
      modifies this`userToUserStream, this`roomToUserStreams
      ensures Valid() && Registered(stream) && stream.userId == user
      ensures user in old(userToUserStream) ==>
                userToUserStream == old(userToUserStream) && roomToUserStreams == old(roomToUserStreams)
      ensures user !in old(userToUserStream) ==>
                && userToUserStream == old(userToUserStream)[user := stream] && fresh(stream)
                && stream.rooms == rooms && stream.currentToken == token && stream.listeners == {}
    {
      if user in userToUserStream {
        stream := userToUserStream[user];
        return;
      }
      stream := new UserStream(user, rooms, token, now);
      RegisterWithKeys(stream);
    }

    /** The stream that registering this one would push out of the user index while it stays in the room index. */
    ghost predicate Displaces(stream: UserStream)
      reads this, Streams()
    {
      && stream.userId in userToUserStream
      && var registered := userToUserStream[stream.userId]; registered != stream && registered.rooms != {}
    }

    /** Registering this stream would cut listeners off: another stream of the user is registered and has some. */
    ghost predicate Strands(stream: UserStream)
      reads this, Streams()
    {
      && stream.userId in userToUserStream
      && var registered := userToUserStream[stream.userId]; registered != stream && registered.listeners != {}
    }

    /** Registers the stream under its user and in its rooms. That keeps the indexes inverse exactly if no other stream
        of the user is registered in some room, and keeps every listener on a registered stream exactly if no other
        stream of the user has any. A stream pushed out this way is found by its rooms only. */
    method RegisterWithKeys(stream: UserStream)
      requires Valid() && stream.UpToDate()
      modifies this`userToUserStream, this`roomToUserStreams
      ensures userToUserStream == old(userToUserStream)[stream.userId := stream]
      ensures forall s: UserStream, room: string ::
                In(roomToUserStreams, s, room)
                <==> In(old(roomToUserStreams), s, room) || (s == stream && room in stream.rooms)
      ensures Valid() <==> !old(Displaces(stream))
      ensures old(ListenersOf(Streams())) <= ListenersOf(Streams()) <==> !old(Strands(stream))
      ensures forall s <- old(Streams()), users: set<string>, rooms: set<string> | s != stream ::
                Found(s, users, rooms)
                <==> (s.userId in users && s.userId != stream.userId) || exists room <- rooms :: room in s.rooms
    {
      IndexInverse();
      userToUserStream := userToUserStream[stream.userId := stream];
      AddToRooms(stream);
      ValidAfterwards(old(userToUserStream), old(roomToUserStreams), stream);
      ListenersKept(old(userToUserStream), stream);
      forall s <- old(Streams()), users: set<string>, rooms: set<string> | s != stream
        ensures Found(s, users, rooms)
           <==> (s.userId in users && s.userId != stream.userId) || exists room <- rooms :: room in s.rooms
      {
        FoundAfterwards(old(userToUserStream), stream, s, users, rooms);
      }
    }

    /** A stream that another one may have replaced is found by its user only if it was not, and by its rooms. */
    lemma FoundAfterwards(before: map<string, UserStream>, stream: UserStream, s: UserStream, users: set<string>,
                          rooms: set<string>)
      requires userToUserStream == before[stream.userId := stream] && s != stream
      requires s.userId in before && before[s.userId] == s && forall user <- before :: before[user].userId == user
      requires forall room: string :: In(roomToUserStreams, s, room) <==> room in s.rooms
      ensures Found(s, users, rooms)
         <==> (s.userId in users && s.userId != stream.userId) || exists room <- rooms :: room in s.rooms
    {
    }

    /** Replacing one user's stream keeps the indexes inverse exactly if the stream it replaces is in no room. */
    lemma ValidAfterwards(before: map<string, UserStream>, beforeRooms: map<string, set<UserStream>>,
                          stream: UserStream)
      requires userToUserStream == before[stream.userId := stream] && stream.UpToDate()
      requires forall s: UserStream, room: string ::
                 In(roomToUserStreams, s, room) <==> In(beforeRooms, s, room) || (s == stream && room in stream.rooms)
      requires forall user <- before :: before[user].userId == user && before[user].UpToDate()
      requires forall s: UserStream, room: string | In(beforeRooms, s, room) ::
                 s.userId in before && before[s.userId] == s && room in s.rooms
      requires forall user <- before, room <- before[user].rooms :: In(beforeRooms, before[user], room)
      ensures Valid()
         <==> (stream.userId in before && before[stream.userId] != stream ==> before[stream.userId].rooms == {})
    {
      if stream.userId in before && before[stream.userId] != stream && before[stream.userId].rooms != {} {
        var displaced := before[stream.userId];
        var room :| room in displaced.rooms;
        assert In(roomToUserStreams, displaced, room) && !Registered(displaced);
      }
    }

    /** Replacing one user's stream keeps all listeners exactly if the stream it replaces has none. */
    lemma ListenersKept(before: map<string, UserStream>, stream: UserStream)
      requires userToUserStream == before[stream.userId := stream] && stream.UpToDate()
      requires forall user <- before :: before[user].userId == user && before[user].UpToDate()
      ensures ListenersOf(before.Values) <= ListenersOf(Streams())
         <==> (stream.userId in before && before[stream.userId] != stream ==> before[stream.userId].listeners == {})
    {
      assert stream in Streams() by {
        assert userToUserStream[stream.userId] == stream;
      }
      forall s <- before.Values | s.userId != stream.userId
        ensures s in Streams()
      {
        assert userToUserStream[s.userId] == s;
      }
      if stream.userId in before && before[stream.userId] != stream && before[stream.userId].listeners != {} {
        var displaced := before[stream.userId];
        var d :| d in displaced.listeners;
        assert d in ListenersOf(before.Values);
        forall s <- Streams()
          ensures d !in s.listeners
        {
          assert d.stream == displaced;
        }
      }
    }

    method AddToRooms(stream: UserStream)
      modifies this`roomToUserStreams
      ensures forall s: UserStream, room: string ::
                In(roomToUserStreams, s, room)
                <==> In(old(roomToUserStreams), s, room) || (s == stream && room in stream.rooms)
    {
      var left := stream.rooms;
      while left != {}
        invariant left <= stream.rooms
        invariant forall s: UserStream, room: string ::
                    In(roomToUserStreams, s, room)
                    <==> In(old(roomToUserStreams), s, room) || (s == stream && room in stream.rooms && room !in left)
        decreases |left|
      {
        var room :| room in left;
        AddToRoom(stream, room);
        left := left - {room};
      }
    }

    method AddToRoom(stream: UserStream, room: string)
      modifies this`roomToUserStreams
      ensures forall s: UserStream, r: string ::
                In(roomToUserStreams, s, r) <==> In(old(roomToUserStreams), s, r) || (s == stream && r == room)
    {
      var streams := if room in roomToUserStreams then roomToUserStreams[room] else {};
      roomToUserStreams := roomToUserStreams[room := streams + {stream}];
    }

    // ----- Listening -----

    /** A registered stream gets a listener; no other stream and no listener is touched. */
    method Listen(s: UserStream, token: StreamToken) returns (d: Deferred)
      requires Valid() && s in Streams()
      modifies s
      ensures Valid() && fresh(d) && s.currentToken == old(s.currentToken) && s.rooms == old(s.rooms)
      ensures if token != s.currentToken then d.result == Some(s.currentToken) && s.listeners == old(s.listeners)
              else d.Pending() && d.waitingFor == s.currentToken && s.listeners == old(s.listeners) + {d}
    {
      d := s.NewListener(token);
    }

    method CancelListener(s: UserStream, d: Deferred)
      requires Valid() && s in Streams() && d in s.listeners
      modifies s, d
      ensures Valid() && d.cancelled && d.result.None? && s.listeners == old(s.listeners) - {d}
      ensures s.currentToken == old(s.currentToken) && s.rooms == old(s.rooms)
    {
      s.Cancel(d);
    }

    // ----- Expiry -----

    /** Takes a stream out of both indexes; no room mentions it any more. */
    method Remove(stream: UserStream)
      requires Valid() && Registered(stream)
      modifies this`userToUserStream, this`roomToUserStreams
      ensures Valid() && userToUserStream == old(userToUserStream) - {stream.userId}
      ensures forall s: UserStream, room: string ::
                In(roomToUserStreams, s, room) <==> In(old(roomToUserStreams), s, room) && s != stream
    {
      var left := stream.rooms;
      while left != {}
        invariant left <= stream.rooms && userToUserStream == old(userToUserStream)
        invariant forall s: UserStream, room: string ::
                    In(roomToUserStreams, s, room)
                    <==> In(old(roomToUserStreams), s, room) && !(s == stream && room in stream.rooms && room !in left)
        decreases |left|
      {
        var room :| room in left;
        if room in roomToUserStreams {
          roomToUserStreams := roomToUserStreams[room := roomToUserStreams[room] - {stream}];
        }
        left := left - {room};
      }
      userToUserStream := userToUserStream - {stream.userId};
    }

    /** Unused: nobody listens, and it was last woken before the cut-off. */
    predicate Expired(s: UserStream, now: int)
      reads s
    {
      s.listeners == {} && s.lastNotifiedMs < now - UNUSED_STREAM_EXPIRY_MS
    }

    method RemoveAll(users: set<string>)
      requires Valid() && users <= userToUserStream.Keys
      modifies this`userToUserStream, this`roomToUserStreams
      ensures Valid() && userToUserStream == old(userToUserStream) - users
      ensures forall s: UserStream, room: string ::
                In(roomToUserStreams, s, room) <==> In(old(roomToUserStreams), s, room) && s.userId !in users
    {
      assert forall s: UserStream, room: string | In(roomToUserStreams, s, room) ::
               s.userId in userToUserStream && userToUserStream[s.userId] == s;
      var left := users;
      while left != {}
        invariant Valid() && left <= users
        invariant userToUserStream == old(userToUserStream) - (users - left)
        invariant forall s: UserStream, room: string ::
                    In(roomToUserStreams, s, room)
                    <==> In(old(roomToUserStreams), s, room) && !(s.userId in users && s.userId !in left)
        decreases |left|
      {
        var user :| user in left;
        Remove(userToUserStream[user]);
        left := left - {user};
      }
    }

    /** Expiry removes exactly the unused streams, so never one that somebody is listening on. */
    method RemoveExpiredStreams(now: int)
      requires Valid()
      modifies this`userToUserStream, this`roomToUserStreams
      ensures Valid()
      ensures forall user: string :: user in userToUserStream
                <==> && user in old(userToUserStream)
                     && var s := old(userToUserStream)[user]; s.listeners != {} || now - s.lastNotifiedMs <= 600_000
      ensures forall user <- userToUserStream :: userToUserStream[user] == old(userToUserStream)[user]
      ensures forall s: UserStream, room: string ::
                In(roomToUserStreams, s, room) <==> In(old(roomToUserStreams), s, room) && !Expired(s, now)
    {
      var expired := set user <- userToUserStream | Expired(userToUserStream[user], now);
      forall s: UserStream, room: string | In(roomToUserStreams, s, room)
        ensures s.userId in expired <==> Expired(s, now)
      {
        assert Registered(s);
      }
      RemoveAll(expired);
    }

    // ----- Pending room events -----

    method AppendPending(entry: Entry)
      modifies this`pendingNewRoomEvents
      ensures pendingNewRoomEvents == old(pendingNewRoomEvents) + [entry]
    {
      pendingNewRoomEvents := pendingNewRoomEvents + [entry];
    }

    /** Applies a released entry if it is a join. */
    method ApplyJoin(entry: Entry)
      requires Valid()
      modifies this`roomToUserStreams, Streams()
      ensures Valid()
      ensures forall s <- Streams() :: SameExceptRooms(s) && s.rooms == old(s.rooms) + RoomsJoined([entry], s.userId)
    {
      if && entry.kind == RoomMember && entry.membership == Some(Join)
         && entry.stateKey.Some? && entry.stateKey.value != "" {
        UserJoinedRoom(entry.stateKey.value, entry.roomId);
      }
    }

    /** One pass of the flush loop: the entry goes back to the queue, or its users and room are collected. */
    method HandleEntry(entry: Entry, maxToken: RoomToken, users: set<string>, rooms: set<string>)
      returns (moreUsers: set<string>, moreRooms: set<string>)
      requires Valid()
      modifies this`pendingNewRoomEvents, this`roomToUserStreams, Streams()
      ensures Valid() && pendingNewRoomEvents == old(pendingNewRoomEvents) + Held([entry], maxToken)
      ensures moreUsers == users + ExtraUsers(Released([entry], maxToken))
      ensures moreRooms == rooms + RoomsOf(Released([entry], maxToken))
      ensures forall s <- Streams() ::
                SameExceptRooms(s) && s.rooms == old(s.rooms) + RoomsJoined(Released([entry], maxToken), s.userId)
    {
      HeldSnoc([], entry, maxToken);
      assert [] + [entry] == [entry];
      if PersistedAfter(entry.position, maxToken) {
        pendingNewRoomEvents := pendingNewRoomEvents + [entry];
        return users, rooms;
      }
      ApplyJoin(entry);
      return users + entry.extraUsers, rooms + {entry.roomId};
    }

    /** Splits the queue and applies the joins among the released entries. */
    method ReleaseEntries(maxToken: RoomToken) returns (users: set<string>, rooms: set<string>)
      requires Valid()
      modifies this`pendingNewRoomEvents, this`roomToUserStreams, Streams()
      ensures Valid() && pendingNewRoomEvents == Held(old(pendingNewRoomEvents), maxToken)
      ensures var released := Released(old(pendingNewRoomEvents), maxToken);
              && users == ExtraUsers(released) && rooms == RoomsOf(released)
              && forall s <- Streams() ::
                   SameExceptRooms(s) && s.rooms == old(s.rooms) + RoomsJoined(released, s.userId)
    {
      var pending := pendingNewRoomEvents;
      pendingNewRoomEvents := [];
      users, rooms := {}, {};
      ghost var done: seq<Entry> := [];
      for i := 0 to |pending|
        invariant Valid() && pendingNewRoomEvents == Held(pending[..i], maxToken)
        invariant done == Released(pending[..i], maxToken) && users == ExtraUsers(done) && rooms == RoomsOf(done)
        invariant forall s <- Streams() :: SameExceptRooms(s) && s.rooms == old(s.rooms) + RoomsJoined(done, s.userId)
      {
        users, rooms := HandleEntry(pending[i], maxToken, users, rooms);
        SplitSnoc(pending, i, maxToken);
        done := done + Released([pending[i]], maxToken);
      }
      assert pending[..|pending|] == pending;
    }

    /** A flush: queued entries that the token has reached are released, their joins take effect, and every stream
        they concern (by user, by room, or by a join just applied) moves to the new token and wakes its listeners. */
    method NotifyPending(maxToken: RoomToken, token: StreamToken, now: int)
      requires Valid()
      modifies this`pendingNewRoomEvents, this`roomToUserStreams, Streams(), ListenersOf(Streams())
      ensures Valid() && pendingNewRoomEvents == Held(old(pendingNewRoomEvents), maxToken)
      ensures var released := Released(old(pendingNewRoomEvents), maxToken);
              forall s <- Streams() ::
                if Concerns(released, s.userId, old(s.rooms)) then
                  && s.currentToken == token && s.lastNotifiedMs == now && s.listeners == {}
                  && s.rooms == old(s.rooms) + RoomsJoined(released, s.userId)
                  && forall d <- old(s.listeners) :: d.result == Some(token) && !d.cancelled
                else SameStream(s)
    {
      ghost var released := Released(pendingNewRoomEvents, maxToken);
      var users, rooms := ReleaseEntries(maxToken);
      forall s <- Streams()
        ensures s in Scan(users, rooms) <==> Concerns(released, s.userId, old(s.rooms))
        ensures !Concerns(released, s.userId, old(s.rooms)) ==> s.rooms == old(s.rooms)
      {
        ConcernsExactly(released, s.userId, old(s.rooms));
      }
      if users != {} || rooms != {} {
        OnNewEvent(users, rooms, token, now);
      } else {
        assert Scan(users, rooms) == {};
      }
    }
  }

  // ----- Two streams for one user -----

  /** Registering a second stream of a user in a room leaves the first one behind in the room index. */
  method StaleRoomEntry(user: string, room: string, token: StreamToken) returns (n: Notifier, first: UserStream)
    ensures !n.Valid() && !n.Registered(first) && In(n.roomToUserStreams, first, room)
  {
    n := new Notifier();
    first := new UserStream(user, {room}, token, 0);
    n.RegisterWithKeys(first);
    var second := new UserStream(user, {room}, token, 0);
    assert n.Displaces(second) by {
      assert room in first.rooms;
    }
    n.RegisterWithKeys(second);
  }

  method ListenOnFirst(user: string, token: StreamToken) returns (n: Notifier, d: Deferred)
    ensures fresh(n) && n.Valid() && user in n.userToUserStream && n.userToUserStream == map[user := d.stream]
    ensures d.stream.rooms == {} && d.stream.listeners == {d} && d.waitingFor == token
  {
    n := new Notifier();
    var first := new UserStream(user, {}, token, 0);
    n.RegisterWithKeys(first);
    d := first.NewListener(token);
  }

  method RegisterSecond(n: Notifier, user: string, token: StreamToken) returns (second: UserStream)
    requires n.Valid() && n.userToUserStream.Keys == {user} && n.userToUserStream[user].rooms == {}
    modifies n`userToUserStream, n`roomToUserStreams
    ensures n.Valid() && n.userToUserStream == map[user := second]
    ensures fresh(second) && second.userId == user && second.listeners == {}
  {
    second := new UserStream(user, {}, token, 0);
    n.RegisterWithKeys(second);
  }

  /** A listener on the first of two streams of a user sleeps through an event for that user, and the indexes of the
      notifier show nothing wrong. */
  method LostWakeup(user: string, token: StreamToken, later: StreamToken) returns (n: Notifier, d: Deferred)
    ensures n.Valid() && d.Pending() && d.waitingFor == token
    ensures user in n.userToUserStream && n.userToUserStream[user].currentToken == later
  {
    n, d := ListenOnFirst(user, token);
    assert d.stream in n.Streams() && d.Pending();
    var second := RegisterSecond(n, user, token);
    assert second in n.Scan({user}, {}) && n.Streams() == {second};
    n.OnNewEvent({user}, {}, later, 1);
  }
}
