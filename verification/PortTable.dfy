/** Copying one table (`handle_table` in synapse/_scripts/synapse_port_db.py): the loop that reads a batch in each
    direction, converts it and commits it together with the checkpoint, interrupted at any point. */
module PortTable {
  import opened Wrappers
  import opened PortRows
  import opened Sweep

  type Table = map<int, Row>

  /** A row as selected: its id, then its columns. */
  function Selected(id: int, row: Row): Row {
    [Int(id)] + row
  }

  /** What each row of the SQLite table becomes. */
  function Image(columns: Columns, table: Table): Source<Row> {
    map id <- table :: ConvertRow(columns, Selected(id, table[id]))
  }

  /** The rows a query for these ids returns. */
  function RowsFor(table: Table, ids: seq<int>): seq<Row> {
    if ids == [] then []
    else (if ids[0] in table then [Selected(ids[0], table[ids[0]])] else []) + RowsFor(table, ids[1..])
  }

  lemma {:induction false} ConvertedAreKept(columns: Columns, table: Table, ids: seq<int>)
    ensures Converted(columns, RowsFor(table, ids)) == Kept(Image(columns, table), ids)
  {
    if ids != [] {
      ConvertedAreKept(columns, table, ids[1..]);
      if ids[0] in table {
        var rows := RowsFor(table, ids);
        assert rows[0] == Selected(ids[0], table[ids[0]]) && rows[1..] == RowsFor(table, ids[1..]);
      } else {
        assert RowsFor(table, ids) == RowsFor(table, ids[1..]);
      }
    }
  }

  /** One committed transaction, whichever batches it copied. */
  ghost predicate CopyStep<R>(source: Source<R>, before: Port<R>, after: Port<R>, batchSize: nat) {
    exists forward, backward :: CopiesBatches(source, before, after, batchSize, forward, backward)
  }

  /** Each state of the target follows from the one before by one committed transaction. */
  ghost predicate CopyRun<R>(source: Source<R>, states: seq<Port<R>>, batchSize: nat) {
    forall i | 0 < i < |states| :: CopyStep(source, states[i - 1], states[i], batchSize)
  }

  /** Row ids not yet copied. */
  ghost function Uncopied<R>(source: Source<R>, forward: int, backward: int): set<int> {
    set id <- source | forward <= id || id <= backward
  }

  lemma UncopiedShrinks<R>(source: Source<R>, mark: Mark, batchSize: nat, frows: seq<int>, brows: seq<int>)
    requires IsBatch(source, mark.forward, batchSize, Forward, frows)
    requires IsBatch(source, mark.backward, batchSize, Backward, brows)
    requires frows != [] || brows != []
    requires mark.backward < mark.forward
    ensures Uncopied(source, AfterBatch(frows, mark.forward, Forward), AfterBatch(brows, mark.backward, Backward))
          < Uncopied(source, mark.forward, mark.backward)
  {
    BatchMovesOn(source, mark.forward, batchSize, Forward, frows);
    BatchMovesOn(source, mark.backward, batchSize, Backward, brows);
    var before := Uncopied(source, mark.forward, mark.backward);
    var after := Uncopied(source, AfterBatch(frows, mark.forward, Forward), AfterBatch(brows, mark.backward, Backward));
    if frows != [] {
      AfterRest(frows, mark.forward, Forward);
      BatchMovesOn(source, frows[0] + 1, batchSize - 1, Forward, frows[1..]);
      BackwardStaysBelow(source, mark, batchSize, brows);
      assert frows[0] in before && frows[0] !in after;
    } else {
      AfterRest(brows, mark.backward, Backward);
      BatchMovesOn(source, brows[0] - 1, batchSize - 1, Backward, brows[1..]);
      assert brows[0] in before && brows[0] !in after;
    }
  }

  lemma BackwardStaysBelow<R>(source: Source<R>, mark: Mark, batchSize: nat, brows: seq<int>)
    requires IsBatch(source, mark.backward, batchSize, Backward, brows)
    ensures AfterBatch(brows, mark.backward, Backward) <= mark.backward
  {
    BatchMovesOn(source, mark.backward, batchSize, Backward, brows);
  }

  /** One Postgres table being filled, with its row in `port_from_sqlite3`. */
  class TablePort {
    const columns: Columns
    const table: Table
    /** What each row of `table` becomes. */
    ghost const source: Source<Row>
    var rows: multiset<Row>
    var mark: Mark

    constructor (columns: Columns, table: Table)
      ensures Valid() && this.columns == columns && this.table == table && Target() == Port(multiset{}, START)
    {
      this.columns, this.table, rows, mark := columns, table, multiset{}, START;
      source := Image(columns, table);
    }

    ghost predicate Valid() {
      source == Image(columns, table)
    }

    function Target(): Port<Row>
      reads this
    {
      Port(rows, mark)
    }

    /** Reads the next batch of each sweep that is not yet known to be exhausted. */
    method ReadBatches(batchSize: nat, forwardChunk: int, backwardChunk: int, doForward: bool, doBackward: bool)
      returns (frows: seq<int>, brows: seq<int>, moreForward: bool, moreBackward: bool)
      requires Valid() && batchSize >= 1
      requires !doForward ==> NoneLeft(source, forwardChunk, Forward)
      requires !doBackward ==> NoneLeft(source, backwardChunk, Backward)
      ensures IsBatch(source, forwardChunk, batchSize, Forward, frows)
      ensures IsBatch(source, backwardChunk, batchSize, Backward, brows)
      ensures moreForward <==> !NoneLeft(source, forwardChunk, Forward)
      ensures moreBackward <==> !NoneLeft(source, backwardChunk, Backward)
    {
      var image := Image(columns, table);
      frows, brows, moreForward, moreBackward := [], [], doForward, doBackward;
      if doForward {
        frows := Select(image, forwardChunk, batchSize, Forward);
        if frows == [] {
          moreForward := false;
        }
      }
      if doBackward {
        brows := Select(image, backwardChunk, batchSize, Backward);
        if brows == [] {
          moreBackward := false;
        }
      }
    }

    /** One transaction: the converted rows and the checkpoint become visible together. */
    method Insert(converted: seq<Row>, forwardChunk: int, backwardChunk: int)
      modifies this
      ensures Target() == Port(old(rows) + multiset(converted), Mark(forwardChunk, backwardChunk))
    {
      rows := rows + multiset(converted);
      mark := Mark(forwardChunk, backwardChunk);
    }

    /** Converts and commits two batches. */
    method CopyBatches(batchSize: nat, frows: seq<int>, brows: seq<int>)
      requires Valid() && Ported(source, Target())
      requires IsBatch(source, mark.forward, batchSize, Forward, frows)
      requires IsBatch(source, mark.backward, batchSize, Backward, brows)
      modifies this
      ensures CopiesBatches(source, old(Target()), Target(), batchSize, frows, brows)
      ensures Ported(source, Target())
    {
      var forwardChunk := NextChunk(source, mark.forward, batchSize, Forward, frows);
      var backwardChunk := NextChunk(source, mark.backward, batchSize, Backward, brows);
      var converted := ConvertRows(columns, RowsFor(table, frows + brows));
      ConvertedAreKept(columns, table, frows + brows);
      ghost var before := Target();
      Insert(converted, forwardChunk, backwardChunk);
      CopyKeepsPorted(source, before, Target(), batchSize, frows, brows);
    }

    /** One pass of the loop: reads both batches and, unless there is nothing to read or the process dies first,
        commits them. */
    method Pass(batchSize: nat, doForward: bool, doBackward: bool, dies: bool)
      returns (idle: bool, moreForward: bool, moreBackward: bool)
      requires Valid() && batchSize >= 1 && Ported(source, Target())
      requires !doForward ==> NoneLeft(source, mark.forward, Forward)
      requires !doBackward ==> NoneLeft(source, mark.backward, Backward)
      modifies this
      ensures Ported(source, Target())
      ensures idle <==> Exhausted(source, old(mark))
      ensures idle || dies ==> Target() == old(Target())
      ensures !idle && !dies ==>
                && CopyStep(source, old(Target()), Target(), batchSize)
                && Uncopied(source, mark.forward, mark.backward)
                   < Uncopied(source, old(mark.forward), old(mark.backward))
      ensures !moreForward ==> NoneLeft(source, mark.forward, Forward)
      ensures !moreBackward ==> NoneLeft(source, mark.backward, Backward)
    {
      var frows, brows;
      frows, brows, moreForward, moreBackward :=
        ReadBatches(batchSize, mark.forward, mark.backward, doForward, doBackward);
      idle := frows == [] && brows == [];
      if !idle && !dies {
        UncopiedShrinks(source, mark, batchSize, frows, brows);
        CopyBatches(batchSize, frows, brows);
      }
    }

    /** Copies until nothing is left, or until the process dies before transaction number `lifetime` commits.
        Whatever happens, the target holds exactly the rows inside its checkpoint. */
    method HandleTable(batchSize: nat, lifetime: nat) returns (finished: bool, ghost states: seq<Port<Row>>)
      requires Valid() && batchSize >= 1 && Ported(source, Target())
      modifies this
      ensures 1 <= |states| <= lifetime + 1 && states[0] == old(Target()) && states[|states| - 1] == Target()
      ensures CopyRun(source, states, batchSize)
      ensures Ported(source, Target())
      ensures finished <==> Exhausted(source, mark)
      ensures !finished ==> |states| == lifetime + 1
    {
      var doForward, doBackward := true, true;
      var committed := 0;
      states := [Target()];
      while true
        invariant Ported(source, Target())
        invariant |states| == committed + 1 <= lifetime + 1
        invariant states[0] == old(Target()) && states[committed] == Target() && CopyRun(source, states, batchSize)
        invariant !doForward ==> NoneLeft(source, mark.forward, Forward)
        invariant !doBackward ==> NoneLeft(source, mark.backward, Backward)
        decreases Uncopied(source, mark.forward, mark.backward)
      {
        var dies := committed == lifetime;
        var idle;
        idle, doForward, doBackward := Pass(batchSize, doForward, doBackward, dies);
        if idle || dies {
          return idle, states;
        }
        states := states + [Target()];
        committed := committed + 1;
      }
    }
  }
}
