/** The completed query result a prepared-statement handle points at, standing
    in for libpq's PGresult in text format. It is immutable: the cursor only
    reads it through the three accessors below, which give libpq's answers,
    including its answers for a (row, column) pair outside the result. */
module PgResult {
  import opened Wrappers

  /** One field of one row: its text as raw bytes (one char per byte, each
      below 256), its length in bytes and its null flag. */
  datatype Cell = Cell(text: string, length: nat, isNull: bool)

  /** The text holds bytes; libpq reports the number of bytes it hands out,
      and an empty text for a null field. */
  predicate CellOk(c: Cell) {
    && (forall i :: 0 <= i < |c.text| ==> c.text[i] as int < 256)
    && c.length == |c.text|
    && (c.isNull ==> c.text == [])
  }

  /** A result: its field count and its rows, each a sequence of cells. */
  datatype ResultSet = ResultSet(nfields: nat, rows: seq<seq<Cell>>)

  predicate WellFormed(r: ResultSet) {
    forall i :: 0 <= i < |r.rows| ==>
      |r.rows[i]| == r.nfields && forall j :: 0 <= j < r.nfields ==> CellOk(r.rows[i][j])
  }

  /** PQntuples: the number of rows. In a result with at least one field,
      the rows below it are exactly those whose cells the accessors reach. */
  function NTuples(r: ResultSet): (n: nat)
    ensures WellFormed(r) && r.nfields > 0 ==> forall row: nat :: row < n <==> InRange(r, row, 0)
  {
    |r.rows|
  }

  /** Whether (row, col) names a cell of the result. */
  predicate InRange(r: ResultSet, row: nat, col: nat) {
    row < |r.rows| && col < |r.rows[row]|
  }

  /** PQgetvalue: the cell's text, or no text (a null pointer) outside the result. */
  function GetValue(r: ResultSet, row: nat, col: nat): (v: Option<string>)
    ensures v.Some? <==> InRange(r, row, col)
    ensures WellFormed(r) && InRange(r, row, col) && r.rows[row][col].isNull ==> v == Some([])
    ensures WellFormed(r) && v.Some? ==> forall i :: 0 <= i < |v.value| ==> v.value[i] as int < 256
  {
    if InRange(r, row, col) then Some(r.rows[row][col].text) else None
  }

  /** PQgetisnull: the cell's null flag; outside the result libpq answers "null". */
  function GetIsNull(r: ResultSet, row: nat, col: nat): (b: bool)
    ensures !InRange(r, row, col) ==> b
  {
    if InRange(r, row, col) then r.rows[row][col].isNull else true
  }

  /** PQgetlength: the cell's length; 0 outside the result. */
  function GetLength(r: ResultSet, row: nat, col: nat): (n: nat)
    ensures WellFormed(r) && GetValue(r, row, col).Some? ==> n == |GetValue(r, row, col).value|
    ensures GetValue(r, row, col).None? ==> n == 0
  {
    if InRange(r, row, col) then r.rows[row][col].length else 0
  }
}
