/** Waiting for a stream to move (`wait_for_events` in synapse/notifier.py), while the stream moves at any time. */
module Waiting {
  import opened Wrappers
  import opened Notifications

  /** One turn of the waiting loop, as its surroundings make it: how the stream moves while the waiter sleeps (not at
      all, if the wait times out first) and while the callback runs, and whether the callback finds anything. */
  datatype Turn = Turn(asleep: seq<StreamToken>, busy: seq<StreamToken>, found: bool)

  /** One call of the callback, for the stretch of the stream between two tokens. */
  datatype Window = Window(before: StreamToken, after: StreamToken, found: bool)

  /** Where a stream stands after these moves. */
  function Moved(current: StreamToken, moves: seq<StreamToken>): StreamToken {
    if moves == [] then current else moves[|moves| - 1]
  }

  /** What a waiter at `prev` looks up to in this turn: the present token if the stream has moved on meanwhile. */
  function Seen(prev: StreamToken, current: StreamToken, turn: Turn): StreamToken {
    if prev != current then current else Moved(current, turn.asleep)
  }

  predicate TimesOut(prev: StreamToken, current: StreamToken, turn: Turn) {
    prev == current && turn.asleep == []
  }

  /** The callbacks made by a waiter at `prev` on a stream at `current`. */
  function Windows(prev: StreamToken, current: StreamToken, turns: seq<Turn>): seq<Window>
    decreases |turns|
  {
    if turns == [] || TimesOut(prev, current, turns[0]) then []
    else
      var seen := Seen(prev, current, turns[0]);
      [Window(prev, seen, turns[0].found)]
      + if turns[0].found then [] else Windows(seen, Moved(seen, turns[0].busy), turns[1..])
  }

  /** The wait ends with the waiter asleep. */
  predicate EndsAsleep(prev: StreamToken, current: StreamToken, turns: seq<Turn>)
    decreases |turns|
  {
    && turns != []
    && (|| TimesOut(prev, current, turns[0])
        || (!turns[0].found
            && var seen := Seen(prev, current, turns[0]); EndsAsleep(seen, Moved(seen, turns[0].busy), turns[1..])))
  }

  /** Where the stream stands when the wait ends. */
  function Reached(prev: StreamToken, current: StreamToken, turns: seq<Turn>): StreamToken
    decreases |turns|
  {
    if turns == [] || TimesOut(prev, current, turns[0]) then current
    else
      var seen := Seen(prev, current, turns[0]);
      var next := Moved(seen, turns[0].busy);
      if turns[0].found then next else Reached(seen, next, turns[1..])
  }

  /** The token up to which these windows have looked. */
  ghost function LookedUpTo(from: StreamToken, windows: seq<Window>): StreamToken {
    if windows == [] then from else windows[|windows| - 1].after
  }

  // ----- Properties -----

  /** The windows start at `from`, each begins where the one before ended, and only the last may have found anything. */
  ghost predicate Contiguous(from: StreamToken, windows: seq<Window>) {
    forall i | 0 <= i < |windows| ::
      windows[i].before == LookedUpTo(from, windows[..i]) && (i < |windows| - 1 ==> !windows[i].found)
  }

  lemma ContiguousCons(first: Window, rest: seq<Window>)
    requires Contiguous(first.after, rest) && (rest != [] ==> !first.found)
    ensures Contiguous(first.before, [first] + rest)
    ensures LookedUpTo(first.before, [first] + rest) == LookedUpTo(first.after, rest)
  {
    var all := [first] + rest;
    forall i | 0 <= i < |all|
      ensures all[i].before == LookedUpTo(first.before, all[..i]) && (i < |all| - 1 ==> !all[i].found)
    {
      if i > 0 {
        assert all[i] == rest[i - 1] && all[..i] == [first] + rest[..i - 1];
      }
    }
  }

  /** Whatever the stream does meanwhile, nothing between `from` and the last token seen is skipped or seen twice. */
  lemma {:induction false} WindowsAreContiguous(from: StreamToken, current: StreamToken, turns: seq<Turn>)
    ensures Contiguous(from, Windows(from, current, turns))
    decreases |turns|
  {
    if turns != [] && !TimesOut(from, current, turns[0]) {
      var seen := Seen(from, current, turns[0]);
      var rest := if turns[0].found then [] else Windows(seen, Moved(seen, turns[0].busy), turns[1..]);
      if !turns[0].found {
        WindowsAreContiguous(seen, Moved(seen, turns[0].busy), turns[1..]);
      }
      ContiguousCons(Window(from, seen, turns[0].found), rest);
    }
  }

  /** The waiter falls asleep in turn number `i`, having gone on until then. */
  predicate FallsAsleep(prev: StreamToken, current: StreamToken, turns: seq<Turn>, i: nat)
    requires i < |turns|
    decreases i
  {
    if i == 0 then prev == current
    else
      && !TimesOut(prev, current, turns[0]) && !turns[0].found
      && var seen := Seen(prev, current, turns[0]); FallsAsleep(seen, Moved(seen, turns[0].busy), turns[1..], i - 1)
  }

  /** A waiter never sleeps on a move it has not looked at: whenever it falls asleep, whether it is woken later or not,
      the windows so far end at the token where the stream is. */
  lemma {:induction false} SleeperHasSeenAll(from: StreamToken, current: StreamToken, turns: seq<Turn>, i: nat)
    requires i < |turns| && FallsAsleep(from, current, turns, i)
    ensures LookedUpTo(from, Windows(from, current, turns[..i])) == Reached(from, current, turns[..i])
    decreases i
  {
    if i > 0 {
      var seen := Seen(from, current, turns[0]);
      var next := Moved(seen, turns[0].busy);
      SleeperHasSeenAll(seen, next, turns[1..], i - 1);
      assert turns[..i][0] == turns[0] && turns[..i][1..] == turns[1..][..i - 1];
      LookedAfterFirst(from, seen, Windows(seen, next, turns[1..][..i - 1]));
    }
  }

  lemma LookedAfterFirst(from: StreamToken, seen: StreamToken, rest: seq<Window>)
    ensures LookedUpTo(from, [Window(from, seen, false)] + rest) == LookedUpTo(seen, rest)
  {
  }

  /** The stream stands where it stood before these moves. */
  predicate StandsStill(current: StreamToken, moves: seq<StreamToken>) {
    Moved(current, moves) == current
  }

  /** There was no callback, or the stream stood still during the last one. */
  ghost predicate CaughtUp(from: StreamToken, watched: seq<Window>, turns: seq<Turn>) {
    watched == []
    || (|watched| <= |turns| && StandsStill(LookedUpTo(from, watched), turns[|watched| - 1].busy))
  }

  lemma CaughtUpAfterFirst(from: StreamToken, seen: StreamToken, rest: seq<Window>, turns: seq<Turn>)
    requires rest != [] && turns != []
    ensures CaughtUp(from, [Window(from, seen, false)] + rest, turns) <==> CaughtUp(seen, rest, turns[1..])
  {
    LookedAfterFirst(from, seen, rest);
  }

  /** A wait that made a callback ends with everything looked at exactly if the stream stood still during the last
      callback, however the wait ended: found, timed out asleep, or out of time when the callback returned. */
  lemma {:induction false} EndsCaughtUp(from: StreamToken, current: StreamToken, turns: seq<Turn>)
    requires Windows(from, current, turns) != []
    ensures LookedUpTo(from, Windows(from, current, turns)) == Reached(from, current, turns)
       <==> CaughtUp(from, Windows(from, current, turns), turns)
    decreases |turns|
  {
    var seen := Seen(from, current, turns[0]);
    var next := Moved(seen, turns[0].busy);
    if !turns[0].found {
      var rest := Windows(seen, next, turns[1..]);
      if rest != [] {
        EndsCaughtUp(seen, next, turns[1..]);
        LookedAfterFirst(from, seen, rest);
        CaughtUpAfterFirst(from, seen, rest, turns);
      } else {
        assert Reached(seen, next, turns[1..]) == next;
      }
    }
  }

  // ----- The loop -----

  /** Other requests wake the stream; the first move resolves everybody who waits. */
  method MoveStream(s: UserStream, moves: seq<StreamToken>, now: int)
    requires s.UpToDate()
    modifies s, s.listeners
    ensures s.UpToDate() && s.currentToken == Moved(old(s.currentToken), moves) && s.rooms == old(s.rooms)
    ensures moves == [] ==> s.listeners == old(s.listeners) && forall d <- s.listeners :: unchanged(d)
    ensures moves != [] ==> s.listeners == {} && forall d <- old(s.listeners) :: d.result == Some(moves[0])
  {
    if moves == [] {
      return;
    }
    Wake({s}, moves[0], now);
    for i := 1 to |moves|
      invariant s.listeners == {} && s.currentToken == moves[i - 1] && s.rooms == old(s.rooms)
      invariant forall d <- old(s.listeners) :: d.result == Some(moves[0])
    {
      Wake({s}, moves[i], now);
    }
  }

  /** One turn up to the callback: registers a listener and sleeps until it is resolved or times out. */
  method Await(s: UserStream, prev: StreamToken, asleep: seq<StreamToken>, now: int) returns (timedOut: bool)
    requires s.UpToDate()
    modifies s, s.listeners
    ensures s.UpToDate() && s.rooms == old(s.rooms)
    ensures timedOut <==> prev == old(s.currentToken) && asleep == []
    ensures s.currentToken == if prev != old(s.currentToken) then old(s.currentToken) else Moved(prev, asleep)
    ensures forall d <- s.listeners :: d in old(s.listeners)
  {
    var listener := s.NewListener(prev);
    if !listener.Pending() {
      return false;
    }
    MoveStream(s, asleep, now);
    timedOut := listener.Pending();
    if timedOut {
      s.Cancel(listener);
    }
  }

  /** The whole wait: the windows of the wait from here on, and how it ends. */
  datatype Course = Course(windows: seq<Window>, asleep: bool, reached: StreamToken)

  function CourseFrom(done: seq<Window>, prev: StreamToken, current: StreamToken, turns: seq<Turn>): Course {
    Course(done + Windows(prev, current, turns), EndsAsleep(prev, current, turns), Reached(prev, current, turns))
  }

  lemma NextTurn(done: seq<Window>, prev: StreamToken, current: StreamToken, turns: seq<Turn>, i: nat)
    requires i < |turns|
    ensures var turn, whole := turns[i], CourseFrom(done, prev, current, turns[i..]);
            if TimesOut(prev, current, turn) then whole == Course(done, true, current)
            else
              var seen := Seen(prev, current, turn);
              var more, next := done + [Window(prev, seen, turn.found)], Moved(seen, turn.busy);
              whole == if turn.found then Course(more, false, next) else CourseFrom(more, seen, next, turns[i + 1..])
  {
    assert turns[i..][0] == turns[i] && turns[i..][1..] == turns[i + 1..];
  }

  lemma CourseEnds(done: seq<Window>, prev: StreamToken, current: StreamToken)
    ensures CourseFrom(done, prev, current, []) == Course(done, false, current)
  {
  }

  lemma CourseFromNothing(prev: StreamToken, current: StreamToken, turns: seq<Turn>)
    ensures CourseFrom([], prev, current, turns)
         == Course(Windows(prev, current, turns), EndsAsleep(prev, current, turns), Reached(prev, current, turns))
  {
    assert [] + Windows(prev, current, turns) == Windows(prev, current, turns);
  }

  /** The loop of `wait_for_events`, on a stream that moves while it sleeps and while the callback runs. */
  method WatchStream(s: UserStream, from: StreamToken, turns: seq<Turn>, now: int)
    returns (windows: seq<Window>, asleep: bool)
    requires s.UpToDate()
    modifies s, s.listeners
    ensures s.UpToDate()
    ensures windows == Windows(from, old(s.currentToken), turns)
    ensures asleep == EndsAsleep(from, old(s.currentToken), turns)
    ensures s.currentToken == Reached(from, old(s.currentToken), turns)
  {
    CourseFromNothing(from, s.currentToken, turns);
    windows, asleep := [], false;
    var prevToken, i := from, 0;
    assert turns[0..] == turns;
    while i < |turns|
      invariant i <= |turns| && s.UpToDate() && !asleep
      invariant forall d <- s.listeners :: d in old(s.listeners)
      invariant CourseFrom(windows, prevToken, s.currentToken, turns[i..])
             == CourseFrom([], from, old(s.currentToken), turns)
    {
      NextTurn(windows, prevToken, s.currentToken, turns, i);
      asleep := Await(s, prevToken, turns[i].asleep, now);
      if asleep {
        return;
      }
      var currentToken := s.currentToken;
      windows := windows + [Window(prevToken, currentToken, turns[i].found)];
      MoveStream(s, turns[i].busy, now);
      if turns[i].found {
        return;
      }
      prevToken, i := currentToken, i + 1;
    }
    assert turns[i..] == [];
    CourseEnds(windows, prevToken, s.currentToken);
  }

  /** `wait_for_events`: without a timeout, or if the loop saw nothing, the callback is made once for all there is. */
  method WaitForEvents(s: UserStream, from: StreamToken, timeout: bool, turns: seq<Turn>, found: bool, now: int)
    returns (windows: seq<Window>)
    requires s.UpToDate()
    modifies s, s.listeners
    ensures s.UpToDate() && windows != [] && Contiguous(from, windows)
    ensures var watched := if timeout then Windows(from, old(s.currentToken), turns) else [];
            && windows == (if watched == [] then [Window(from, s.currentToken, found)] else watched)
            && (LookedUpTo(from, windows) == s.currentToken <==> CaughtUp(from, watched, turns))
  {
    WindowsAreContiguous(from, s.currentToken, turns);
    if Windows(from, s.currentToken, turns) != [] {
      EndsCaughtUp(from, s.currentToken, turns);
    }
    windows := [];
    if timeout {
      var asleep;
      windows, asleep := WatchStream(s, from, turns, now);
    }
    if windows == [] {
      windows := [Window(from, s.currentToken, found)];
    }
  }
}
