/** The handler's cell address and the service's grid range. */
module Cells {

  /** A cell address as the handler passes it to the mirror. The names are
      the handler's: `row` is the position along the header row (it becomes
      the grid COLUMN) and `column` is the data-row number (it becomes the
      grid ROW). */
  datatype Cell = Cell(row: nat, column: nat)

  /** A rectangle of one sheet: start indices inclusive, end indices
      exclusive. */
  datatype GridRange = GridRange(
    sheetId: nat,
    startRowIndex: nat, endRowIndex: nat,
    startColumnIndex: nat, endColumnIndex: nat)

  predicate Covers(range: GridRange, gridRow: nat, gridColumn: nat)
  {
    && range.startRowIndex <= gridRow < range.endRowIndex
    && range.startColumnIndex <= gridColumn < range.endColumnIndex
  }

  predicate IsSingleCell(range: GridRange)
  {
    && range.endRowIndex == range.startRowIndex + 1
    && range.endColumnIndex == range.startColumnIndex + 1
  }
}
