/** The notifier's queue of room events that wait for earlier events to be persisted
    (`pending_new_room_events` in synapse/notifier.py). */
module PendingQueue {
  import opened Wrappers
  import opened Events

  /** A room stream token: a position for every writer, most of them at `stream`. */
  datatype RoomToken = RoomToken(stream: int, instances: map<string, int>) {
    function PositionOf(instance: string): int {
      if instance in instances then instances[instance] else stream
    }

    /** Every writer is at least as far in `later`. */
    ghost predicate AtMost(later: RoomToken) {
      forall instance: string :: PositionOf(instance) <= later.PositionOf(instance)
    }
  }

  datatype Position = Position(instance: string, stream: int)

  predicate PersistedAfter(position: Position, token: RoomToken) {
    token.PositionOf(position.instance) < position.stream
  }

  datatype Entry = Entry(
    position: Position,
    extraUsers: set<string>,
    roomId: string,
    kind: EventType,
    stateKey: Option<string>,
    membership: Option<Membership>
  )

  /** The entry is a join of the named user. */
  predicate IsJoinOf(entry: Entry, user: string) {
    entry.kind == RoomMember && entry.membership == Some(Join) && user != "" && entry.stateKey == Some(user)
  }

  /** The entries a flush keeps, in order. */
  function Held(entries: seq<Entry>, token: RoomToken): seq<Entry> {
    if entries == [] then []
    else
      var last := entries[|entries| - 1];
      Held(entries[..|entries| - 1], token) + if PersistedAfter(last.position, token) then [last] else []
  }

  /** The entries a flush releases, in order. */
  function Released(entries: seq<Entry>, token: RoomToken): seq<Entry> {
    if entries == [] then []
    else
      var last := entries[|entries| - 1];
      Released(entries[..|entries| - 1], token) + if PersistedAfter(last.position, token) then [] else [last]
  }

  // ----- Interleavings of appends and flushes -----

  datatype Op = Append(entry: Entry) | Flush(token: RoomToken)

  function PendingAfter(ops: seq<Op>): seq<Entry> {
    if ops == [] then []
    else
      var before := PendingAfter(ops[..|ops| - 1]);
      match ops[|ops| - 1]
      case Append(entry) => before + [entry]
      case Flush(token) => Held(before, token)
  }

  /** What operation number `j` hands to the listeners. */
  function ReleasedBy(ops: seq<Op>, j: nat): seq<Entry>
    requires j < |ops|
  {
    match ops[j]
    case Append(_) => []
    case Flush(token) => Released(PendingAfter(ops[..j]), token)
  }

  /** The flush lets this entry through. */
  predicate LetsThrough(op: Op, entry: Entry) {
    op.Flush? && !PersistedAfter(entry.position, op.token)
  }

  /** Operation `i` appended an entry that no flush before operation `n` lets through. */
  ghost predicate WaitsUntil(ops: seq<Op>, i: nat, n: nat)
    requires n <= |ops|
  {
    i < n && ops[i].Append? && forall k | i < k < n :: !LetsThrough(ops[k], ops[i].entry)
  }

  /** Operation `j` is the first flush that lets the entry appended by operation `i` through. */
  ghost predicate FirstLetThrough(ops: seq<Op>, i: nat, j: nat)
    requires j < |ops|
  {
    WaitsUntil(ops, i, j) && LetsThrough(ops[j], ops[i].entry)
  }

  /** Entries appended by the first `m` operations that wait until operation `n`, in order. */
  ghost function Waiting(ops: seq<Op>, m: nat, n: nat): seq<Entry>
    requires m <= n <= |ops|
  {
    if m == 0 then []
    else Waiting(ops, m - 1, n) + if WaitsUntil(ops, m - 1, n) then [ops[m - 1].entry] else []
  }

  /** Entries appended by the first `m` operations that operation `j` is the first to let through, in order. */
  ghost function LetThrough(ops: seq<Op>, m: nat, j: nat): seq<Entry>
    requires m <= j < |ops|
  {
    if m == 0 then []
    else LetThrough(ops, m - 1, j) + if FirstLetThrough(ops, m - 1, j) then [ops[m - 1].entry] else []
  }

  lemma {:induction false} AppendLetsNothingThrough(ops: seq<Op>, m: nat, j: nat)
    requires m <= j < |ops| && ops[j].Append?
    ensures Waiting(ops, m, j + 1) == Waiting(ops, m, j) && LetThrough(ops, m, j) == []
  {
    if m > 0 {
      AppendLetsNothingThrough(ops, m - 1, j);
      assert WaitsUntil(ops, m - 1, j + 1) <==> WaitsUntil(ops, m - 1, j);
    }
  }

  lemma HeldSnoc(entries: seq<Entry>, last: Entry, token: RoomToken)
    ensures Held(entries + [last], token)
         == Held(entries, token) + if PersistedAfter(last.position, token) then [last] else []
    ensures Released(entries + [last], token)
         == Released(entries, token) + if PersistedAfter(last.position, token) then [] else [last]
  {
    assert (entries + [last])[..|entries|] == entries;
  }

  /** A flush splits the waiting entries into those that wait on and those it lets through. */
  lemma {:induction false} FlushSplits(ops: seq<Op>, m: nat, j: nat)
    requires m <= j < |ops| && ops[j].Flush?
    ensures Held(Waiting(ops, m, j), ops[j].token) == Waiting(ops, m, j + 1)
    ensures Released(Waiting(ops, m, j), ops[j].token) == LetThrough(ops, m, j)
  {
    if m > 0 {
      FlushSplits(ops, m - 1, j);
      assert WaitsUntil(ops, m - 1, j + 1)
        <==> WaitsUntil(ops, m - 1, j) && !LetsThrough(ops[j], ops[m - 1].entry);
      if WaitsUntil(ops, m - 1, j) {
        HeldSnoc(Waiting(ops, m - 1, j), ops[m - 1].entry, ops[j].token);
      } else {
        assert Waiting(ops, m, j) == Waiting(ops, m - 1, j);
      }
    }
  }

  /** The queue always holds, in the order they were appended, exactly the entries that no flush let through yet. */
  lemma {:induction false} QueueHoldsWaiting(ops: seq<Op>, n: nat)
    requires n <= |ops|
    ensures PendingAfter(ops[..n]) == Waiting(ops, n, n)
  {
    if n > 0 {
      assert ops[..n][..n - 1] == ops[..n - 1];
      QueueHoldsWaiting(ops, n - 1);
      match ops[n - 1]
      case Append(entry) =>
        AppendLetsNothingThrough(ops, n - 1, n - 1);
        assert WaitsUntil(ops, n - 1, n);
      case Flush(token) =>
        FlushSplits(ops, n - 1, n - 1);
        assert !WaitsUntil(ops, n - 1, n);
    }
  }

  /** A flush releases, in order, exactly the entries for which it is the first flush to let them through. */
  lemma FlushReleasesFirstLetThrough(ops: seq<Op>, j: nat)
    requires j < |ops|
    ensures ReleasedBy(ops, j) == LetThrough(ops, j, j)
  {
    QueueHoldsWaiting(ops, j);
    match ops[j]
    case Append(_) => AppendLetsNothingThrough(ops, j, j);
    case Flush(token) => FlushSplits(ops, j, j);
  }

  /** Every appended entry either still waits or has exactly one flush that was the first to let it through. */
  lemma {:induction false} ReleasedOnce(ops: seq<Op>, i: nat, n: nat)
    requires i < n <= |ops| && ops[i].Append?
    ensures WaitsUntil(ops, i, n) <==> !exists j: nat | j < n :: FirstLetThrough(ops, i, j)
    ensures forall j: nat, k: nat | j < n && k < n && FirstLetThrough(ops, i, j) && FirstLetThrough(ops, i, k) :: j == k
    decreases n
  {
    if n > i + 1 {
      ReleasedOnce(ops, i, n - 1);
      if WaitsUntil(ops, i, n - 1) && LetsThrough(ops[n - 1], ops[i].entry) {
        assert FirstLetThrough(ops, i, n - 1);
      }
    }
  }

  ghost function Appended(ops: seq<Op>): multiset<Entry> {
    if ops == [] then multiset{}
    else
      var last := ops[|ops| - 1];
      Appended(ops[..|ops| - 1]) + if last.Append? then multiset{last.entry} else multiset{}
  }

  /** Everything the first `n` operations handed to the listeners. */
  ghost function AllReleased(ops: seq<Op>, n: nat): multiset<Entry>
    requires n <= |ops|
  {
    if n == 0 then multiset{} else AllReleased(ops, n - 1) + multiset(ReleasedBy(ops, n - 1))
  }

  ghost function Times(entries: seq<Entry>, entry: Entry): nat {
    if entries == [] then 0
    else Times(entries[..|entries| - 1], entry) + if entries[|entries| - 1] == entry then 1 else 0
  }

  lemma {:induction false} TimesCounts(entries: seq<Entry>, entry: Entry)
    ensures multiset(entries)[entry] == Times(entries, entry)
  {
    if entries != [] {
      var rest, last := entries[..|entries| - 1], entries[|entries| - 1];
      TimesCounts(rest, entry);
      assert entries == rest + [last];
    }
  }

  lemma TimesSnoc(entries: seq<Entry>, last: Entry, entry: Entry)
    ensures Times(entries + [last], entry) == Times(entries, entry) + if last == entry then 1 else 0
  {
    assert (entries + [last])[..|entries|] == entries;
  }

  lemma {:induction false} SplitCounts(entries: seq<Entry>, token: RoomToken, entry: Entry)
    ensures Times(Held(entries, token), entry) + Times(Released(entries, token), entry) == Times(entries, entry)
  {
    if entries != [] {
      var rest, last := entries[..|entries| - 1], entries[|entries| - 1];
      SplitCounts(rest, token, entry);
      if PersistedAfter(last.position, token) {
        TimesSnoc(Held(rest, token), last, entry);
        assert Released(rest, token) + [] == Released(rest, token);
      } else {
        TimesSnoc(Released(rest, token), last, entry);
        assert Held(rest, token) + [] == Held(rest, token);
      }
    }
  }

  lemma SplitConserves(entries: seq<Entry>, token: RoomToken)
    ensures multiset(Held(entries, token)) + multiset(Released(entries, token)) == multiset(entries)
  {
    forall entry
      ensures multiset(Held(entries, token))[entry] + multiset(Released(entries, token))[entry]
           == multiset(entries)[entry]
    {
      SplitCounts(entries, token, entry);
      TimesCounts(Held(entries, token), entry);
      TimesCounts(Released(entries, token), entry);
      TimesCounts(entries, entry);
    }
  }

  /** Conservation: at every point, what was appended is what the queue holds and what flushes released, together and
      each once. Nothing is lost, invented or released twice. */
  lemma {:induction false} EntriesAreConserved(ops: seq<Op>, n: nat)
    requires n <= |ops|
    ensures Appended(ops[..n]) == multiset(PendingAfter(ops[..n])) + AllReleased(ops, n)
  {
    if n > 0 {
      var before := PendingAfter(ops[..n - 1]);
      assert ops[..n][..n - 1] == ops[..n - 1];
      EntriesAreConserved(ops, n - 1);
      match ops[n - 1]
      case Append(entry) => assert ReleasedBy(ops, n - 1) == [];
      case Flush(token) => SplitConserves(before, token);
    }
  }

  /** A flush lets an entry through exactly if its token has reached the entry's position: where the token says for the
      writer of the entry, or else where it says for all others. */
  lemma LetThroughExactly(entry: Entry, token: RoomToken)
    ensures LetsThrough(Flush(token), entry)
       <==> entry.position.stream <= if entry.position.instance in token.instances
                                     then token.instances[entry.position.instance] else token.stream
  {
  }

  /** A flush whose token has reached every waiting entry releases them all, in order, and leaves none. */
  lemma {:induction false} ReachedQueueEmpties(entries: seq<Entry>, token: RoomToken)
    requires forall entry <- entries ::
               entry.position.stream <= if entry.position.instance in token.instances
                                        then token.instances[entry.position.instance] else token.stream
    ensures Held(entries, token) == [] && Released(entries, token) == entries
  {
    if entries != [] {
      var rest, last := entries[..|entries| - 1], entries[|entries| - 1];
      ReachedQueueEmpties(rest, token);
      assert last in entries;
    }
  }

  /** A later token lets through whatever an earlier one would have. */
  lemma LaterTokensReleaseMore(entry: Entry, token: RoomToken, later: RoomToken)
    requires token.AtMost(later) && LetsThrough(Flush(token), entry)
    ensures LetsThrough(Flush(later), entry)
  {
    assert token.PositionOf(entry.position.instance) <= later.PositionOf(entry.position.instance);
  }
}
