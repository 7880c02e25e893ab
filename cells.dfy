/** Spreadsheet cells as the Excel library hands them to the import code. A numeric cell's value
    is taken as an exact amount in hundredths (the library's `double` is not modelled). */
module Cells {
  import opened Wrappers
  import opened Money
  import Text

  /** The cached result of a formula cell. */
  datatype FormulaValue = NumericValue(paise: int) | StringValue(text: string) | OtherValue

  datatype Cell =
    | BlankCell
    | StringCell(text: string)
    | NumericCell(paise: int)
    | FormulaCell(cached: FormulaValue)
    | BooleanCell(flag: bool)
    | ErrorCell

  /** A row of a sheet: its 0-based row number and its cells by column, `None` where the row has
      no cell. */
  datatype SheetRow = SheetRow(rowNum: nat, cells: seq<Option<Cell>>)

  /** `row.getCell(column)`: null past the last cell. */
  function CellAt(row: SheetRow, column: nat): Option<Cell> {
    if column < |row.cells| then row.cells[column] else None
  }

  /** `(int) d` of a numeric value: the whole rupees, the fraction dropped toward zero, saturating
      at the `int` range. */
  function IntCast(paise: int): (r: int)
    ensures Text.INT_MIN <= r <= Text.INT_MAX
    ensures Text.INT_MIN <= TruncateToRupees(paise) <= Text.INT_MAX ==> r == TruncateToRupees(paise)
  {
    Text.SaturateInt(TruncateToRupees(paise))
  }

  /** `(long) d` of a numeric value. */
  function LongCast(paise: int): (r: int)
    ensures Text.LONG_MIN <= r <= Text.LONG_MAX
    ensures Text.LONG_MIN <= TruncateToRupees(paise) <= Text.LONG_MAX ==> r == TruncateToRupees(paise)
  {
    Text.SaturateLong(TruncateToRupees(paise))
  }

  /** `String.valueOf(boolean)`. */
  function BooleanText(flag: bool): string {
    if flag then "true" else "false"
  }
}
