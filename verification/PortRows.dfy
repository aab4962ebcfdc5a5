/** Converting SQLite rows for Postgres (`_convert_rows` in synapse/_scripts/synapse_port_db.py). */
module PortRows {
  import opened Wrappers

  // ----- Rows and their conversion -----

  datatype Cell =
    | Null
    | Int(i: int)
    | Float(r: real)
    | Text(text: string)
    | Bytes(bytes: seq<bv8>)
    | Bool(b: bool)

  type Row = seq<Cell>

  /** Column names of a query, the row id first, and those that Postgres declares as booleans. */
  datatype Columns = Columns(names: seq<string>, booleans: set<string>)

  predicate Truthy(cell: Cell) {
    match cell
    case Null => false
    case Int(i) => i != 0
    case Float(r) => r != 0.0
    case Text(t) => t != ""
    case Bytes(b) => b != []
    case Bool(b) => b
  }

  predicate IsBoolean(columns: Columns, j: nat) {
    j < |columns.names| && columns.names[j] in columns.booleans
  }

  function ConvertCell(columns: Columns, j: nat, cell: Cell): Option<Cell> {
    if IsBoolean(columns, j) then Some(Bool(Truthy(cell)))
    else if cell.Text? && '\0' in cell.text then None
    else Some(cell)
  }

  /** A row with a NUL in a text column that is not a boolean cannot be stored and is dropped. */
  predicate Dropped(columns: Columns, row: Row) {
    exists j | 0 < j < |row| :: ConvertCell(columns, j, row[j]).None?
  }

  /** The converted row, without the row id that comes first. */
  function ConvertRow(columns: Columns, row: Row): Option<Row> {
    if Dropped(columns, row) then None
    else
      Some(seq(if row == [] then 0 else |row| - 1, j requires 0 <= j < |row| - 1 && !Dropped(columns, row) =>
        ConvertCell(columns, j + 1, row[j + 1]).value))
  }

  /** The rows that are kept, converted, in order. */
  function Converted(columns: Columns, rows: seq<Row>): seq<Row> {
    if rows == [] then []
    else
      var converted := ConvertRow(columns, rows[0]);
      (if converted.Some? then [converted.value] else []) + Converted(columns, rows[1..])
  }

  /** What a boolean column stores for a SQLite cell: nothing, zero and what is empty are false, all else is true. */
  predicate IsFlagFor(cell: Cell, flag: Cell) {
    match cell
    case Null => flag == Bool(false)
    case Int(i) => if i == 0 then flag == Bool(false) else flag == Bool(true)
    case Float(r) => if r == 0.0 then flag == Bool(false) else flag == Bool(true)
    case Text(t) => if |t| == 0 then flag == Bool(false) else flag == Bool(true)
    case Bytes(b) => if |b| == 0 then flag == Bool(false) else flag == Bool(true)
    case Bool(b) => flag == Bool(b)
  }

  /** Postgres booleans, read as SQLite stores them. */
  function AsStored(flag: Cell): Cell
    requires flag.Bool?
  {
    Int(if flag.b then 1 else 0)
  }

  /** Flags survive the port: a boolean column that held 0 or 1 reads back as it was, and null counts as 0. */
  lemma FlagsSurvive(columns: Columns, row: Row, j: nat)
    requires ConvertRow(columns, row).Some? && 0 < j < |row|
    requires j < |columns.names| && columns.names[j] in columns.booleans
    ensures |ConvertRow(columns, row).value| == |row| - 1 && ConvertRow(columns, row).value[j - 1].Bool?
    ensures row[j] == Int(0) || row[j] == Int(1) ==> AsStored(ConvertRow(columns, row).value[j - 1]) == row[j]
    ensures row[j] == Null ==> AsStored(ConvertRow(columns, row).value[j - 1]) == Int(0)
  {
  }

  /** Converts cell by cell, up to the first bad value. The row id goes, boolean columns become booleans, and every
      other cell stays as it is, one place to the left. */
  method ConvertCells(columns: Columns, row: Row) returns (converted: Option<Row>)
    ensures converted == ConvertRow(columns, row)
    ensures converted.None?
       <==> exists j | 0 < j < |row| :: !(j < |columns.names| && columns.names[j] in columns.booleans)
                                        && row[j].Text? && '\0' in row[j].text
    ensures converted.Some? ==>
              && |converted.value| == (if row == [] then 0 else |row| - 1)
              && forall j | 0 < j < |row| ::
                   if j < |columns.names| && columns.names[j] in columns.booleans
                   then IsFlagFor(row[j], converted.value[j - 1]) else converted.value[j - 1] == row[j]
  {
    var cells: Row := [];
    for j := 0 to |row|
      invariant |cells| == if j == 0 then 0 else j - 1
      invariant forall k | 0 < k < j :: ConvertCell(columns, k, row[k]) == Some(cells[k - 1])
    {
      if j > 0 {
        var cell := ConvertCell(columns, j, row[j]);
        if cell.None? {
          return None;
        }
        cells := cells + [cell.value];
      }
    }
    assert !Dropped(columns, row);
    assert ConvertRow(columns, row).value == cells;
    return Some(cells);
  }

  lemma ConvertedNext(columns: Columns, rows: seq<Row>, i: nat, out: seq<Row>)
    requires i < |rows|
    ensures var row := ConvertRow(columns, rows[i]);
            out + Converted(columns, rows[i..])
            == out + (if row.Some? then [row.value] else []) + Converted(columns, rows[i + 1..])
  {
    assert rows[i..][0] == rows[i] && rows[i..][1..] == rows[i + 1..];
  }

  /** `_convert_rows`: converts row by row and skips those with a bad value. */
  method ConvertRows(columns: Columns, rows: seq<Row>) returns (out: seq<Row>)
    ensures out == Converted(columns, rows)
  {
    out := [];
    assert rows[0..] == rows;
    for i := 0 to |rows|
      invariant out + Converted(columns, rows[i..]) == Converted(columns, rows)
    {
      var row := ConvertCells(columns, rows[i]);
      ConvertedNext(columns, rows, i, out);
      out := out + if row.Some? then [row.value] else [];
    }
  }
}
