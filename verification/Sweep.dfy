/** The two-direction sweep over the row ids of one table, with a checkpoint written together with every batch
    (`handle_table` in synapse/_scripts/synapse_port_db.py). A source table maps row ids to converted rows;
    `None` marks a row that conversion drops. */
module Sweep {
  import opened Wrappers

  type Source<R> = map<int, Option<R>>

  // ----- Selecting a batch -----

  datatype Direction = Forward | Backward {
    /** Position of a row id along the sweep. */
    function Along(id: int): int {
      if Forward? then id else -id
    }

    function After(id: int): int {
      if Forward? then id + 1 else id - 1
    }
  }

  /** No row is left at or beyond `from`. */
  ghost predicate NoneLeft<R>(source: Source<R>, from: int, direction: Direction) {
    forall id <- source :: direction.Along(id) < direction.Along(from)
  }

  /** `next` is the first row at or beyond `from`. */
  ghost predicate IsNext<R>(source: Source<R>, from: int, direction: Direction, next: int) {
    && next in source
    && direction.Along(from) <= direction.Along(next)
    && forall id <- source ::
         direction.Along(id) < direction.Along(from) || direction.Along(next) <= direction.Along(id)
  }

  /** The result of `SELECT ... WHERE rowid >= from ORDER BY rowid LIMIT limit`, or of its descending mirror image. */
  ghost predicate IsBatch<R>(source: Source<R>, from: int, limit: nat, direction: Direction, batch: seq<int>)
    decreases limit
  {
    if limit == 0 || NoneLeft(source, from, direction) then batch == []
    else
      && batch != []
      && IsNext(source, from, direction, batch[0])
      && IsBatch(source, direction.After(batch[0]), limit - 1, direction, batch[1..])
  }

  /** Where a sweep stands after a batch. */
  function AfterBatch(batch: seq<int>, from: int, direction: Direction): int {
    if batch == [] then from else direction.After(batch[|batch| - 1])
  }

  // ----- What has been copied -----

  /** Does this row id hold a row that converts to `row`? */
  function CopyOf<R(==)>(source: Source<R>, id: int, row: R): nat {
    if id in source && source[id] == Some(row) then 1 else 0
  }

  /** How many row ids in [lo, hi) convert to `row`. */
  ghost function CopiesIn<R>(source: Source<R>, lo: int, hi: int, row: R): nat
    decreases hi - lo
  {
    if hi <= lo then 0 else CopiesIn(source, lo, hi - 1, row) + CopyOf(source, hi - 1, row)
  }

  /** How many of these row ids convert to `row`. */
  ghost function CopiesOf<R>(source: Source<R>, ids: seq<int>, row: R): nat {
    if ids == [] then 0 else CopyOf(source, ids[0], row) + CopiesOf(source, ids[1..], row)
  }

  lemma {:induction false} CopiesSplit<R>(source: Source<R>, lo: int, mid: int, hi: int, row: R)
    requires lo <= mid <= hi
    ensures CopiesIn(source, lo, hi, row) == CopiesIn(source, lo, mid, row) + CopiesIn(source, mid, hi, row)
    decreases hi - mid
  {
    if mid < hi {
      CopiesSplit(source, lo, mid, hi - 1, row);
    }
  }

  lemma {:induction false} NothingInGap<R>(source: Source<R>, lo: int, hi: int, row: R)
    requires forall id <- source :: !(lo <= id < hi)
    ensures CopiesIn(source, lo, hi, row) == 0
    decreases hi - lo
  {
    if lo < hi {
      NothingInGap(source, lo, hi - 1, row);
    }
  }

  lemma {:induction false} CopiesConcat<R>(source: Source<R>, a: seq<int>, b: seq<int>, row: R)
    ensures CopiesOf(source, a + b, row) == CopiesOf(source, a, row) + CopiesOf(source, b, row)
  {
    if a == [] {
      assert a + b == b;
    } else {
      CopiesConcat(source, a[1..], b, row);
      assert (a + b)[1..] == a[1..] + b;
    }
  }

  lemma AfterRest(batch: seq<int>, from: int, direction: Direction)
    requires batch != []
    ensures AfterBatch(batch, from, direction) == AfterBatch(batch[1..], direction.After(batch[0]), direction)
  {
  }

  lemma {:induction false} BatchMovesOn<R>(source: Source<R>, from: int, limit: nat, direction: Direction,
                                           batch: seq<int>)
    requires IsBatch(source, from, limit, direction, batch)
    ensures direction.Along(from) <= direction.Along(AfterBatch(batch, from, direction))
    decreases limit
  {
    if batch != [] {
      BatchMovesOn(source, direction.After(batch[0]), limit - 1, direction, batch[1..]);
      AfterRest(batch, from, direction);
    }
  }

  /** A forward batch holds exactly the copies of its stretch of row ids. */
  lemma {:induction false} ForwardBatchCopies<R>(source: Source<R>, from: int, limit: nat, batch: seq<int>, row: R)
    requires IsBatch(source, from, limit, Forward, batch)
    ensures CopiesOf(source, batch, row) == CopiesIn(source, from, AfterBatch(batch, from, Forward), row)
    decreases limit
  {
    if batch != [] {
      var first, next := batch[0], AfterBatch(batch, from, Forward);
      ForwardBatchCopies(source, first + 1, limit - 1, batch[1..], row);
      AfterRest(batch, from, Forward);
      BatchMovesOn(source, first + 1, limit - 1, Forward, batch[1..]);
      NothingInGap(source, from, first, row);
      CopiesSplit(source, from, first, first + 1, row);
      CopiesSplit(source, from, first + 1, next, row);
    }
  }

  /** A backward batch holds exactly the copies of its stretch of row ids. */
  lemma {:induction false} BackwardBatchCopies<R>(source: Source<R>, from: int, limit: nat, batch: seq<int>, row: R)
    requires IsBatch(source, from, limit, Backward, batch)
    ensures CopiesOf(source, batch, row) == CopiesIn(source, AfterBatch(batch, from, Backward) + 1, from + 1, row)
    decreases limit
  {
    if batch != [] {
      var last, next := batch[0], AfterBatch(batch, from, Backward);
      BackwardBatchCopies(source, last - 1, limit - 1, batch[1..], row);
      AfterRest(batch, from, Backward);
      BatchMovesOn(source, last - 1, limit - 1, Backward, batch[1..]);
      NothingInGap(source, last + 1, from + 1, row);
      CopiesSplit(source, next + 1, last, last + 1, row);
      CopiesSplit(source, next + 1, last + 1, from + 1, row);
    }
  }

  /** How often a row was copied: once for every source row of the interval that converts to it. */
  lemma {:induction false} CopiesAreRows<R>(source: Source<R>, lo: int, hi: int, row: R)
    ensures CopiesIn(source, lo, hi, row) == |set id <- source | lo <= id < hi && source[id] == Some(row)|
    decreases hi - lo
  {
    var matching := set id <- source | lo <= id < hi && source[id] == Some(row);
    if hi <= lo {
      assert matching == {};
    } else {
      CopiesAreRows(source, lo, hi - 1, row);
      var before := set id <- source | lo <= id < hi - 1 && source[id] == Some(row);
      if hi - 1 in source && source[hi - 1] == Some(row) {
        assert matching == before + {hi - 1} && hi - 1 !in before;
      } else {
        assert matching == before;
      }
    }
  }

  // ----- The checkpoint -----

  /** Row ids strictly between `backward` and `forward` have been copied. */
  datatype Mark = Mark(forward: int, backward: int)

  const START := Mark(1, 0)

  /** A Postgres table with its checkpoint. */
  datatype Port<R> = Port(rows: multiset<R>, mark: Mark)

  /** The target holds the kept rows inside the checkpoint, each as often as it occurs, and nothing else. */
  ghost predicate Ported<R(!new)>(source: Source<R>, port: Port<R>) {
    && port.mark.backward < port.mark.forward
    && forall row: R :: port.rows[row] == CopiesIn(source, port.mark.backward + 1, port.mark.forward, row)
  }

  ghost predicate Exhausted<R>(source: Source<R>, mark: Mark) {
    NoneLeft(source, mark.forward, Forward) && NoneLeft(source, mark.backward, Backward)
  }

  /** The kept rows of these ids, in order. */
  function Kept<R>(source: Source<R>, ids: seq<int>): seq<R> {
    if ids == [] then []
    else (if ids[0] in source && source[ids[0]].Some? then [source[ids[0]].value] else []) + Kept(source, ids[1..])
  }

  lemma {:induction false} KeptCounts<R>(source: Source<R>, ids: seq<int>, row: R)
    ensures multiset(Kept(source, ids))[row] == CopiesOf(source, ids, row)
  {
    if ids != [] {
      KeptCounts(source, ids[1..], row);
    }
  }

  /** One committed transaction: both converted batches and the new checkpoint together. */
  ghost predicate CopiesBatches<R>(source: Source<R>, before: Port<R>, after: Port<R>, batchSize: nat,
                                   forward: seq<int>, backward: seq<int>)
  {
    && IsBatch(source, before.mark.forward, batchSize, Forward, forward)
    && IsBatch(source, before.mark.backward, batchSize, Backward, backward)
    && after.mark
       == Mark(AfterBatch(forward, before.mark.forward, Forward), AfterBatch(backward, before.mark.backward, Backward))
    && after.rows == before.rows + multiset(Kept(source, forward + backward))
  }

  /** The copied interval and the stretches on either side of it, put together. */
  lemma JoinStretches<R>(source: Source<R>, mark: Mark, next: Mark, row: R)
    requires next.backward <= mark.backward < mark.forward <= next.forward
    ensures CopiesIn(source, next.backward + 1, next.forward, row)
         == CopiesIn(source, next.backward + 1, mark.backward + 1, row)
            + CopiesIn(source, mark.backward + 1, mark.forward, row)
            + CopiesIn(source, mark.forward, next.forward, row)
  {
    CopiesSplit(source, next.backward + 1, mark.backward + 1, mark.forward, row);
    CopiesSplit(source, next.backward + 1, mark.forward, next.forward, row);
  }

  lemma BatchesCount<R>(source: Source<R>, mark: Mark, next: Mark, batchSize: nat,
                        forward: seq<int>, backward: seq<int>, row: R)
    requires mark.backward < mark.forward
    requires IsBatch(source, mark.forward, batchSize, Forward, forward)
    requires IsBatch(source, mark.backward, batchSize, Backward, backward)
    requires next == Mark(AfterBatch(forward, mark.forward, Forward), AfterBatch(backward, mark.backward, Backward))
    ensures CopiesIn(source, next.backward + 1, next.forward, row)
         == CopiesIn(source, mark.backward + 1, mark.forward, row) + multiset(Kept(source, forward + backward))[row]
  {
    var ahead, behind := CopiesOf(source, forward, row), CopiesOf(source, backward, row);
    assert multiset(Kept(source, forward + backward))[row] == ahead + behind by {
      CopiesConcat(source, forward, backward, row);
      KeptCounts(source, forward + backward, row);
    }
    ForwardBatchCopies(source, mark.forward, batchSize, forward, row);
    BackwardBatchCopies(source, mark.backward, batchSize, backward, row);
    BatchMovesOn(source, mark.forward, batchSize, Forward, forward);
    BatchMovesOn(source, mark.backward, batchSize, Backward, backward);
    JoinStretches(source, mark, next, row);
  }

  lemma PortedExtends<R(!new)>(source: Source<R>, before: Port<R>, after: Port<R>, added: multiset<R>)
    requires Ported(source, before) && after.mark.backward < after.mark.forward && after.rows == before.rows + added
    requires forall row: R ::
               CopiesIn(source, after.mark.backward + 1, after.mark.forward, row)
               == CopiesIn(source, before.mark.backward + 1, before.mark.forward, row) + added[row]
    ensures Ported(source, after)
  {
  }

  /** A batch extends the copied interval in both directions and copies each of its rows once. */
  lemma CopyKeepsPorted<R(!new)>(source: Source<R>, before: Port<R>, after: Port<R>, batchSize: nat,
                                 forward: seq<int>, backward: seq<int>)
    requires Ported(source, before) && CopiesBatches(source, before, after, batchSize, forward, backward)
    ensures Ported(source, after)
  {
    BatchMovesOn(source, before.mark.forward, batchSize, Forward, forward);
    BatchMovesOn(source, before.mark.backward, batchSize, Backward, backward);
    var added := multiset(Kept(source, forward + backward));
    forall row: R
      ensures CopiesIn(source, after.mark.backward + 1, after.mark.forward, row)
           == CopiesIn(source, before.mark.backward + 1, before.mark.forward, row) + added[row]
    {
      BatchesCount(source, before.mark, after.mark, batchSize, forward, backward, row);
    }
    PortedExtends(source, before, after, added);
  }

  /** Both batches are empty exactly when both sweeps are exhausted. */
  lemma IdleExactlyWhenExhausted<R>(source: Source<R>, before: Port<R>, after: Port<R>, batchSize: nat,
                                    forward: seq<int>, backward: seq<int>)
    requires batchSize >= 1 && CopiesBatches(source, before, after, batchSize, forward, backward)
    ensures Exhausted(source, before.mark) <==> forward == [] && backward == []
    ensures Exhausted(source, before.mark) ==> after == before
  {
    if forward == [] && backward == [] {
      assert forward + backward == [];
    }
  }

  /** Once both sweeps are exhausted, every source row that is not dropped is in the target exactly once. */
  lemma ExhaustedMeansComplete<R(!new)>(source: Source<R>, port: Port<R>, row: R)
    requires Ported(source, port) && Exhausted(source, port.mark)
    ensures port.rows[row] == |set id <- source | source[id] == Some(row)|
  {
    CopiesAreRows(source, port.mark.backward + 1, port.mark.forward, row);
    assert (set id <- source | source[id] == Some(row))
        == (set id <- source | port.mark.backward + 1 <= id < port.mark.forward && source[id] == Some(row));
  }

  // ----- Queries and the copying loop -----

  method Pick<T>(s: set<T>) returns (x: T)
    requires s != {}
    ensures x in s
  {
    x :| x in s;
  }

  /** The first row at or beyond `from`, if there is one. */
  method FindNext<R>(source: Source<R>, from: int, direction: Direction) returns (next: Option<int>)
    ensures next.None? <==> NoneLeft(source, from, direction)
    ensures next.Some? ==> IsNext(source, from, direction, next.value)
  {
    next := None;
    var left := source.Keys;
    while left != {}
      invariant left <= source.Keys
      invariant next.None? ==> forall id <- source.Keys - left :: direction.Along(id) < direction.Along(from)
      invariant next.Some? ==>
                  && next.value in source && direction.Along(from) <= direction.Along(next.value)
                  && forall id <- source.Keys - left ::
                       direction.Along(id) < direction.Along(from) || direction.Along(next.value) <= direction.Along(id)
      decreases |left|
    {
      var id := Pick(left);
      left := left - {id};
      if direction.Along(from) <= direction.Along(id)
         && (next.None? || direction.Along(id) < direction.Along(next.value)) {
        next := Some(id);
      }
    }
  }

  method Select<R>(source: Source<R>, from: int, limit: nat, direction: Direction) returns (batch: seq<int>)
    ensures IsBatch(source, from, limit, direction, batch)
    decreases limit
  {
    if limit == 0 {
      return [];
    }
    var next := FindNext(source, from, direction);
    if next.None? {
      return [];
    }
    var rest := Select(source, direction.After(next.value), limit - 1, direction);
    batch := [next.value] + rest;
    assert batch[1..] == rest;
  }

  lemma {:induction false} BatchAscends<R>(source: Source<R>, from: int, limit: nat, direction: Direction,
                                           batch: seq<int>)
    requires IsBatch(source, from, limit, direction, batch)
    ensures forall id <- batch :: direction.Along(from) <= direction.Along(id) <= direction.Along(batch[|batch| - 1])
    decreases limit
  {
    if batch != [] {
      var rest := batch[1..];
      BatchAscends(source, direction.After(batch[0]), limit - 1, direction, rest);
      assert batch == [batch[0]] + rest;
      assert rest != [] ==> rest[|rest| - 1] in rest;
    }
  }

  /** The next chunk starts beyond the furthest row id of the batch, wherever in the batch it stands. */
  method NextChunk<R>(ghost source: Source<R>, from: int, ghost limit: nat, direction: Direction, batch: seq<int>)
    returns (chunk: int)
    requires IsBatch(source, from, limit, direction, batch)
    ensures chunk == AfterBatch(batch, from, direction)
  {
    if batch == [] {
      return from;
    }
    BatchAscends(source, from, limit, direction, batch);
    var furthest := batch[0];
    for i := 1 to |batch|
      invariant furthest in batch
      invariant forall k | 0 <= k < i :: direction.Along(batch[k]) <= direction.Along(furthest)
    {
      if direction.Along(furthest) < direction.Along(batch[i]) {
        furthest := batch[i];
      }
    }
    chunk := direction.After(furthest);
  }
}
