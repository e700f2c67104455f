/**
 * The cells of a sheet as a value: a finite map from 1-based (row, column)
 * coordinates to cells, holding just the cells the sheet has created. The
 * functions here build what each styling pass makes of such a map, one cell
 * at a time in the order the passes visit the cells, and their contracts say
 * what the result is cell by cell; the sheet's methods are proved to perform
 * exactly these transformations.
 */
module Grid {
  import opened Styles

  datatype Coord = Coord(row: int, col: int)

  type Cells = map<Coord, Cell>

  /** The cell at `k`: the stored one, or the empty cell the sheet creates on first access. */
  function At(g: Cells, k: Coord): Cell {
    if k in g then g[k] else EmptyCell
  }

  /** `k` lies in rows firstRow..lastRow and columns 1..ncols (both ranges inclusive). */
  predicate InRect(k: Coord, firstRow: int, lastRow: int, ncols: int) {
    firstRow <= k.row <= lastRow && 1 <= k.col <= ncols
  }

  /** A header cell: bold font, solid fill of `color`, centred, thin border on all four sides. */
  predicate IsHeaderStyled(c: Cell, color: string) {
    c.font == BoldFont && c.fill == SolidFill(color, color) && c.alignment == Centered && FullyBordered(c)
  }

  /**
   * The header pass over columns 1..ncols of row 1, column by column: each of
   * these cells (created where missing) is restyled as a header cell.
   */
  function HeaderGrid(g: Cells, ncols: int, color: string): Cells
    decreases ncols
  {
    if ncols < 1 then g
    else
      var prev := HeaderGrid(g, ncols - 1, color);
      var k := Coord(1, ncols);
      prev[k := HeaderCell(At(prev, k), color)]
  }

  /** The header pass neither creates nor changes any cell outside row 1, columns 1..ncols. */
  lemma {:induction false} HeaderGridFrame(g: Cells, ncols: int, color: string, k: Coord)
    requires !InRect(k, 1, 1, ncols)
    ensures k in HeaderGrid(g, ncols, color) <==> k in g
    ensures At(HeaderGrid(g, ncols, color), k) == At(g, k)
    decreases ncols
  {
    if ncols >= 1 {
      HeaderGridFrame(g, ncols - 1, color, k);
    }
  }

  /**
   * After the header pass every cell of row 1, columns 1..ncols, exists and is
   * the header restyle of the cell that was there (or of a fresh empty cell).
   */
  lemma {:induction false} HeaderGridCell(g: Cells, ncols: int, color: string, k: Coord)
    requires InRect(k, 1, 1, ncols)
    ensures k in HeaderGrid(g, ncols, color)
    ensures HeaderGrid(g, ncols, color)[k] == HeaderCell(At(g, k), color)
    decreases ncols
  {
    if k.col < ncols {
      HeaderGridCell(g, ncols - 1, color, k);
    } else {
      HeaderGridFrame(g, ncols - 1, color, k);
    }
  }

  /**
   * The body pass over columns 1..ncols of the single row r, column by
   * column: each of these cells (created where missing) is restyled as a body
   * cell of row r.
   */
  function BodyRowGrid(g: Cells, r: int, ncols: int): Cells
    decreases ncols
  {
    if ncols < 1 then g
    else
      var prev := BodyRowGrid(g, r, ncols - 1);
      var k := Coord(r, ncols);
      prev[k := BodyCell(At(prev, k), r)]
  }

  /** A single body row pass neither creates nor changes any cell outside its row segment. */
  lemma {:induction false} BodyRowGridFrame(g: Cells, r: int, ncols: int, k: Coord)
    requires !InRect(k, r, r, ncols)
    ensures k in BodyRowGrid(g, r, ncols) <==> k in g
    ensures At(BodyRowGrid(g, r, ncols), k) == At(g, k)
    decreases ncols
  {
    if ncols >= 1 {
      BodyRowGridFrame(g, r, ncols - 1, k);
    }
  }

  /** After a body row pass every cell of its segment exists and is the body restyle of the old one. */
  lemma {:induction false} BodyRowGridCell(g: Cells, r: int, ncols: int, k: Coord)
    requires InRect(k, r, r, ncols)
    ensures k in BodyRowGrid(g, r, ncols)
    ensures BodyRowGrid(g, r, ncols)[k] == BodyCell(At(g, k), r)
    decreases ncols
  {
    if k.col < ncols {
      BodyRowGridCell(g, r, ncols - 1, k);
    } else {
      BodyRowGridFrame(g, r, ncols - 1, k);
    }
  }

  /**
   * The body pass over rows firstRow..lastRow, row by row, each row over
   * columns 1..ncols. An empty row range changes nothing.
   */
  function BodyGrid(g: Cells, firstRow: int, lastRow: int, ncols: int): Cells
    decreases lastRow - firstRow
  {
    if lastRow < firstRow then g
    else BodyRowGrid(BodyGrid(g, firstRow, lastRow - 1, ncols), lastRow, ncols)
  }

  /** The body pass neither creates nor changes any cell outside its rectangle. */
  lemma {:induction false} BodyGridFrame(g: Cells, firstRow: int, lastRow: int, ncols: int, k: Coord)
    requires !InRect(k, firstRow, lastRow, ncols)
    ensures k in BodyGrid(g, firstRow, lastRow, ncols) <==> k in g
    ensures At(BodyGrid(g, firstRow, lastRow, ncols), k) == At(g, k)
    decreases lastRow - firstRow
  {
    if firstRow <= lastRow {
      BodyGridFrame(g, firstRow, lastRow - 1, ncols, k);
      BodyRowGridFrame(BodyGrid(g, firstRow, lastRow - 1, ncols), lastRow, ncols, k);
    }
  }

  /**
   * After the body pass every cell of the rectangle exists and is the body
   * restyle, for its own sheet row, of the cell that was there: thin border
   * on all sides, the zebra fill when the row number is even, and value,
   * font and alignment (and, in odd rows, the fill) kept.
   */
  lemma {:induction false} BodyGridCell(g: Cells, firstRow: int, lastRow: int, ncols: int, k: Coord)
    requires InRect(k, firstRow, lastRow, ncols)
    ensures k in BodyGrid(g, firstRow, lastRow, ncols)
    ensures BodyGrid(g, firstRow, lastRow, ncols)[k] == BodyCell(At(g, k), k.row)
    decreases lastRow - firstRow
  {
    var prev := BodyGrid(g, firstRow, lastRow - 1, ncols);
    if k.row < lastRow {
      BodyGridCell(g, firstRow, lastRow - 1, ncols, k);
      BodyRowGridFrame(prev, lastRow, ncols, k);
    } else {
      BodyGridFrame(g, firstRow, lastRow - 1, ncols, k);
      BodyRowGridCell(prev, lastRow, ncols, k);
    }
  }

  /**
   * The cells after converting a table with `ncols` columns and `dataRows`
   * data rows: the header pass on row 1, then the body pass on rows
   * 2..dataRows + 1.
   */
  function ConvertedGrid(g: Cells, ncols: nat, dataRows: nat, color: string): Cells {
    BodyGrid(HeaderGrid(g, ncols, color), 2, dataRows + 1, ncols)
  }

  /**
   * The body pass never reaches row 1, so after the conversion every header
   * cell is still exactly the header restyle of the original cell: bold,
   * solid `color` fill, centred, bordered, value kept.
   */
  lemma ConvertedHeader(g: Cells, ncols: nat, dataRows: nat, color: string, k: Coord)
    requires InRect(k, 1, 1, ncols)
    ensures k in ConvertedGrid(g, ncols, dataRows, color)
    ensures ConvertedGrid(g, ncols, dataRows, color)[k] == HeaderCell(At(g, k), color)
    ensures IsHeaderStyled(ConvertedGrid(g, ncols, dataRows, color)[k], color)
  {
    HeaderGridCell(g, ncols, color, k);
    BodyGridFrame(HeaderGrid(g, ncols, color), 2, dataRows + 1, ncols, k);
  }

  /**
   * The header pass never reaches the body rows, so after the conversion a
   * body cell is the body restyle of the original cell. In particular it is
   * bordered, and a cell that was not zebra-filled before is zebra-filled
   * exactly when its sheet row number is even.
   */
  lemma ConvertedBody(g: Cells, ncols: nat, dataRows: nat, color: string, k: Coord)
    requires InRect(k, 2, dataRows + 1, ncols)
    ensures k in ConvertedGrid(g, ncols, dataRows, color)
    ensures ConvertedGrid(g, ncols, dataRows, color)[k] == BodyCell(At(g, k), k.row)
    ensures FullyBordered(ConvertedGrid(g, ncols, dataRows, color)[k])
    ensures At(g, k).fill != ZebraFill ==>
      (ConvertedGrid(g, ncols, dataRows, color)[k].fill == ZebraFill <==> k.row % 2 == 0)
  {
    HeaderGridFrame(g, ncols, color, k);
    BodyGridCell(HeaderGrid(g, ncols, color), 2, dataRows + 1, ncols, k);
  }

  /**
   * Outside row 1..dataRows + 1, columns 1..ncols, the conversion creates no
   * cell and changes none; inside it no value changes.
   */
  lemma ConvertedFrame(g: Cells, ncols: nat, dataRows: nat, color: string, k: Coord)
    ensures k in ConvertedGrid(g, ncols, dataRows, color) <==> k in g || InRect(k, 1, dataRows + 1, ncols)
    ensures !InRect(k, 1, dataRows + 1, ncols) ==> At(ConvertedGrid(g, ncols, dataRows, color), k) == At(g, k)
    ensures At(ConvertedGrid(g, ncols, dataRows, color), k).value == At(g, k).value
  {
    if InRect(k, 1, 1, ncols) {
      ConvertedHeader(g, ncols, dataRows, color, k);
    } else if InRect(k, 2, dataRows + 1, ncols) {
      ConvertedBody(g, ncols, dataRows, color, k);
    } else {
      HeaderGridFrame(g, ncols, color, k);
      BodyGridFrame(HeaderGrid(g, ncols, color), 2, dataRows + 1, ncols, k);
    }
  }
}
