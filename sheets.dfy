/**
 * The remote spreadsheet, seen as a map from worksheet title to its rows of
 * cell strings, and the three worksheet operations the script uses:
 * `add_worksheet`, `update_cell` and `insert_row`. Rows and columns are
 * numbered from 1, as the spreadsheet API numbers them.
 */
module Sheets {

  type Row = seq<string>
  type Sheet = seq<Row>
  type Store = map<string, Sheet>

  /** What a cell that was never written reads as. */
  const Empty: string := ""

  function Max(a: nat, b: nat): nat
  {
    if a < b then b else a
  }

  /** The cell at row `i`, column `j`, counted from 0; cells outside the rows read as empty. */
  function Cell(sheet: Sheet, i: nat, j: nat): string
  {
    if i < |sheet| && j < |sheet[i]| then sheet[i][j] else Empty
  }

  /** `s` extended with `fill` up to length `n`. */
  function Pad<T>(s: seq<T>, n: nat, fill: T): (r: seq<T>)
    ensures |r| == Max(|s|, n)
    ensures forall i :: 0 <= i < |s| ==> r[i] == s[i]
    ensures forall i :: |s| <= i < |r| ==> r[i] == fill
  {
    if |s| >= n then s else s + seq(n - |s|, _ => fill)
  }

  /** The worksheet `add_worksheet(rows=rows, cols=cols)` creates: every cell empty. */
  function NewSheet(rows: nat, cols: nat): (s: Sheet)
    ensures |s| == rows
    ensures forall i :: 0 <= i < rows ==> |s[i]| == cols
    ensures forall i: nat, j: nat :: Cell(s, i, j) == Empty
  {
    seq(rows, _ => seq(cols, _ => Empty))
  }

  /**
   * `update_cell(row, col, value)`: exactly that one cell now reads `value`;
   * the grid grows to reach it if need be.
   */
  function SetCell(sheet: Sheet, row: nat, col: nat, value: string): (r: Sheet)
    requires row >= 1 && col >= 1
    ensures |r| == Max(|sheet|, row)
    ensures forall i: nat, j: nat ::
      Cell(r, i, j) == if i == row - 1 && j == col - 1 then value else Cell(sheet, i, j)
  {
    var rows := Pad(sheet, row, []);
    var cells := Pad(rows[row - 1], col, Empty);
    rows[row - 1 := cells[col - 1 := value]]
  }

  /**
   * `insert_row(values, index)`: `values` becomes row `index`; the rows
   * above it stay, the rows from `index` on move down by one.
   */
  function InsertRow(sheet: Sheet, values: Row, index: nat): (r: Sheet)
    requires 1 <= index <= |sheet| + 1
    ensures |r| == |sheet| + 1
    ensures r[index - 1] == values
    ensures forall i :: 0 <= i < index - 1 ==> r[i] == sheet[i]
    ensures forall i :: index - 1 <= i < |sheet| ==> r[i + 1] == sheet[i]
  {
    sheet[..index - 1] + [values] + sheet[index - 1..]
  }

  /** The first row of `sheet` begins with `headers`. */
  predicate HasHeader(sheet: Sheet, headers: Row)
  {
    |sheet| >= 1 && |headers| <= |sheet[0]| && sheet[0][..|headers|] == headers
  }

  function FirstRow(sheet: Sheet): Row
  {
    if sheet == [] then [] else sheet[0]
  }

  function Drop(row: Row, n: nat): Row
  {
    if n <= |row| then row[n..] else []
  }

  /**
   * The worksheet once `headers` has been written into the first cells of its
   * first row: those cells hold the headers, every other cell is as before.
   */
  function WithHeader(sheet: Sheet, headers: Row): (r: Sheet)
    ensures headers != [] ==> |r| == Max(|sheet|, 1) && HasHeader(r, headers)
    ensures forall i: nat, j: nat ::
      Cell(r, i, j) == if i == 0 && j < |headers| then headers[j] else Cell(sheet, i, j)
  {
    if headers == [] then sheet
    else [headers + Drop(FirstRow(sheet), |headers|)] + (if sheet == [] then [] else sheet[1..])
  }

  /**
   * Writing the next header cell, column `i + 1` of row 1, extends a
   * header written up to column `i` by one.
   */
  lemma WithHeaderStep(sheet: Sheet, headers: Row, i: nat)
    requires i < |headers|
    ensures SetCell(WithHeader(sheet, headers[..i]), 1, i + 1, headers[i]) == WithHeader(sheet, headers[..i + 1])
  {
    var before := WithHeader(sheet, headers[..i]);
    var after := WithHeader(sheet, headers[..i + 1]);
    var r := SetCell(before, 1, i + 1, headers[i]);
    var row := FirstRow(sheet);
    assert |r| == |after|;
    assert r[0] == after[0] by {
      if i == 0 {
        assert before == sheet;
      } else {
        assert before[0] == headers[..i] + Drop(row, i);
      }
      assert after[0] == headers[..i + 1] + Drop(row, i + 1);
    }
    assert r[1..] == after[1..];
  }
}
