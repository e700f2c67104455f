/**
 * The worksheet the converter styles in place, and the conversion of one
 * file. The sheet keeps the cells it has created (keyed by 1-based row and
 * column), its frozen pane, the display widths of its columns (keyed by
 * 1-based column index) and whether the native gridlines are shown.
 */
module CsvToXlsx {
  import opened Styles
  import opened Grid
  import opened Tables
  import opened Paths

  /** Two maps with the same keys and the same value at every key are equal. */
  lemma SameMaps<K, V>(a: map<K, V>, b: map<K, V>)
    requires forall k :: k in a <==> k in b
    requires forall k :: k in a ==> a[k] == b[k]
    ensures a == b
  {
  }

  /** The frozen pane of a sheet: none, or frozen above and left of the named top-left cell. */
  datatype Pane = NoPane | FrozenAt(topLeftCell: string)

  /** The cell reference "A2": row 1 is frozen, no column is. */
  const HeaderPane: Pane := FrozenAt("A2")

  class Sheet {
    var cells: Cells
    var freezePanes: Pane
    var columnWidths: map<int, nat>
    var showGridLines: bool

    /**
     * Cells and column dimensions exist only at indices of at least 1. The
     * class has no constructor: a sheet is the one the workbook writer has
     * already filled with the table, and the operations take it as given,
     * requiring only this invariant of it.
     */
    predicate Valid()
      reads this
    {
      (forall k :: k in cells ==> k.row >= 1 && k.col >= 1) &&
      (forall idx :: idx in columnWidths ==> idx >= 1)
    }

    /**
     * Styles row 1, columns 1..ncols, as the header (bold, solid `color` fill,
     * centred, thin border on all sides) and freezes the pane at A2.
     */
    method StyleHeader(ncols: int, color: string)
      requires Valid()
      modifies this
      ensures Valid()
      ensures cells == HeaderGrid(old(cells), ncols, color)
      ensures freezePanes == HeaderPane
      ensures columnWidths == old(columnWidths) && showGridLines == old(showGridLines)
    {
      var c := 1;
      while c <= ncols
        invariant 1 <= c <= if ncols < 1 then 1 else ncols + 1
        invariant cells == HeaderGrid(old(cells), c - 1, color) && Valid()
        invariant columnWidths == old(columnWidths) && showGridLines == old(showGridLines)
      {
        var k := Coord(1, c);
        // font, fill, alignment and border of the cell are replaced
        cells := cells[k := HeaderCell(At(cells, k), color)];
        c := c + 1;
      }
      freezePanes := HeaderPane;
    }

    /**
     * Puts the grid border on every cell of rows firstRow..lastRow, columns
     * 1..ncols, and the zebra fill on those in even rows. The sheet refuses a
     * row index below 1: when the rectangle is non-empty and firstRow < 1 the
     * very first cell access fails, `ok` is false and nothing has changed.
     */
    method StyleRows(firstRow: int, lastRow: int, ncols: int) returns (ok: bool)
      requires Valid()
      modifies this
      ensures Valid()
      ensures ok <==> firstRow >= 1 || lastRow < firstRow || ncols < 1
      ensures cells == if ok then BodyGrid(old(cells), firstRow, lastRow, ncols) else old(cells)
      ensures freezePanes == old(freezePanes) && columnWidths == old(columnWidths)
      ensures showGridLines == old(showGridLines)
    {
      if firstRow < 1 && firstRow <= lastRow && ncols >= 1 {
        return false;
      }
      ok := true;
      var r := firstRow;
      while r <= lastRow
        invariant firstRow <= r <= if lastRow < firstRow then firstRow else lastRow + 1
        invariant cells == BodyGrid(old(cells), firstRow, r - 1, ncols) && Valid()
        invariant freezePanes == old(freezePanes) && columnWidths == old(columnWidths)
        invariant showGridLines == old(showGridLines)
      {
        ghost var rowsBefore := cells;
        var c := 1;
        while c <= ncols
          invariant 1 <= c <= if ncols < 1 then 1 else ncols + 1
          invariant cells == BodyRowGrid(rowsBefore, r, c - 1) && Valid()
          invariant freezePanes == old(freezePanes) && columnWidths == old(columnWidths)
          invariant showGridLines == old(showGridLines)
        {
          var k := Coord(r, c);
          var cell := At(cells, k);
          cell := cell.(border := GridBorder);
          if r % 2 == 0 {
            cell := cell.(fill := ZebraFill);
          }
          cells := cells[k := cell];
          c := c + 1;
        }
        assert cells == BodyGrid(old(cells), firstRow, r, ncols);
        r := r + 1;
      }
    }

    /**
     * Sets the width of every column 1..|t.columns| to the column's width:
     * two more than the longest of its header and its values.
     */
    method AutosizeColumns(t: Table)
      requires Valid() && t.Rectangular()
      modifies this
      ensures Valid()
      ensures columnWidths == old(columnWidths) + ColumnWidths(t)
      ensures cells == old(cells) && freezePanes == old(freezePanes) && showGridLines == old(showGridLines)
    {
      var idx := 1;
      while idx <= |t.columns|
        invariant 1 <= idx <= |t.columns| + 1
        invariant forall i :: i in columnWidths <==> i in old(columnWidths) || 1 <= i < idx
        invariant forall i :: i in columnWidths ==>
          columnWidths[i] == if 1 <= i < idx then WidthOfColumn(t, i) else old(columnWidths)[i]
        invariant Valid()
        invariant cells == old(cells) && freezePanes == old(freezePanes) && showGridLines == old(showGridLines)
      {
        var width := ColumnWidth(t.columns[idx - 1], ColumnValues(t, idx - 1));
        assert width == WidthOfColumn(t, idx);
        columnWidths := columnWidths[idx := width];
        idx := idx + 1;
      }
      SameMaps(columnWidths, old(columnWidths) + ColumnWidths(t));
    }
  }

  /**
   * Styles the sheet the table `t` was written into and names the output file:
   * the header pass on row 1, the body pass on rows 2..|t.rows| + 1, the
   * column widths, and the native gridlines switched off.
   */
  method ConvertOne(ws: Sheet, t: Table, csvPath: seq<string>, outDir: seq<string>, headerColor: string)
    returns (outPath: seq<string>)
    requires ws.Valid() && t.Rectangular()
    modifies ws
    ensures ws.Valid()
    ensures outPath == OutputPath(csvPath, outDir)
    ensures ws.cells == ConvertedGrid(old(ws.cells), |t.columns|, |t.rows|, headerColor)
    ensures ws.freezePanes == HeaderPane
    ensures ws.columnWidths == old(ws.columnWidths) + ColumnWidths(t)
    ensures !ws.showGridLines
  {
    outPath := OutputPath(csvPath, outDir);
    var ncols := |t.columns|;
    var nrows := |t.rows| + 1;
    ws.StyleHeader(ncols, headerColor);
    var ok := ws.StyleRows(2, nrows, ncols);
    assert ok;
    ws.AutosizeColumns(t);
    ws.showGridLines := false;
  }
}
