/** Spreadsheet grids as the Google Sheets values API returns them: rows of
    string cells, rows possibly of different lengths. Reading `row[i]` past
    the end of a row yields JavaScript's `undefined`, modelled as `None`. */
module Sheets {

  datatype Option<+T> = None | Some(value: T)

  type Row = seq<string>
  type Grid = seq<Row>

  /** `row[i]`: the cell, or `undefined` past the end of the row. */
  function Cell(row: Row, i: nat): Option<string>
  {
    if i < |row| then Some(row[i]) else None
  }

  /** Some row of `grid` has `key` in column `col`, compared as `===` compares
      (so two missing cells are equal). */
  ghost predicate HasMatch(grid: Grid, col: nat, key: Option<string>)
  {
    exists j :: 0 <= j < |grid| && Cell(grid[j], col) == key
  }

  /** The position of the first row, in grid order and starting at row 0,
      whose column `col` equals `key` (`===`); `None` when no row matches. */
  function FindIndex(grid: Grid, col: nat, key: Option<string>): (r: Option<nat>)
    ensures r.Some? ==> r.value < |grid|
  {
    if |grid| == 0 then None
    else if Cell(grid[0], col) == key then Some(0)
    else
      match FindIndex(grid[1..], col, key)
      case Some(j) => Some(j + 1)
      case None => None
  }

  /** `FindIndex` finds the first match: the row it names matches, every row
      before it does not, and it finds nothing only when no row matches. */
  lemma {:induction false} FindIndexFirstMatch(grid: Grid, col: nat, key: Option<string>)
    ensures var r := FindIndex(grid, col, key);
      && (r.Some? ==> Cell(grid[r.value], col) == key)
      && (r.Some? ==> forall k :: 0 <= k < r.value ==> Cell(grid[k], col) != key)
      && (r.None? <==> !HasMatch(grid, col, key))
  {
    if |grid| > 0 && Cell(grid[0], col) != key {
      FindIndexFirstMatch(grid[1..], col, key);
      assert forall k :: 0 < k < |grid| ==> grid[k] == grid[1..][k - 1];
      if HasMatch(grid, col, key) {
        var j :| 0 <= j < |grid| && Cell(grid[j], col) == key;
        assert Cell(grid[1..][j - 1], col) == key;
      }
    }
  }

  /** `grid.find(entry => entry[col] === key)`: the first matching row, or
      `undefined` (`None`). */
  function Find(grid: Grid, col: nat, key: Option<string>): (r: Option<Row>)
    ensures r.Some? ==> r.value in grid && Cell(r.value, col) == key
    ensures r.None? ==> !HasMatch(grid, col, key)
  {
    FindIndexFirstMatch(grid, col, key);
    match FindIndex(grid, col, key)
    case Some(i) => Some(grid[i])
    case None => None
  }

  /** The JavaScript slice `grid.slice(1)`: every row after the header, and
      nothing for an empty grid. */
  function Body(grid: Grid): (rows: Grid)
    ensures |rows| == if |grid| == 0 then 0 else |grid| - 1
    ensures forall i :: 0 <= i < |rows| ==> rows[i] == grid[i + 1]
  {
    if |grid| == 0 then [] else grid[1..]
  }
}
