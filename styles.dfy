/**
 * The cell-style records the styling pass assigns. The spreadsheet library's
 * style objects (font, pattern fill, alignment, border) are modelled as plain
 * immutable records: assigning one to a cell replaces that attribute of the
 * cell as a whole, exactly as assigning a new style object does.
 */
module Styles {

  /** A font; the pass only ever sets the bold flag. */
  datatype Font = Font(bold: bool)

  /** A cell background: none, or a solid pattern with start and end colours (hex RGB). */
  datatype Fill = NoFill | SolidFill(startColor: string, endColor: string)

  /** Horizontal alignment values of a cell; `Unset` is the library's default. */
  datatype Horizontal = Unset | General | Left | Center | Right | Justify | Distributed

  datatype Alignment = Alignment(horizontal: Horizontal)

  /** The line style of one side of a cell border. */
  datatype Side = NoLine | Thin | OtherLine(style: string)

  datatype Border = Border(left: Side, right: Side, top: Side, bottom: Side)

  /**
   * One cell of a sheet: its (already stringified) value and its four style
   * attributes. The empty string stands for a cell without a value.
   */
  datatype Cell = Cell(value: string, font: Font, fill: Fill, alignment: Alignment, border: Border)

  /** A thin line on all four sides: the grid border drawn on every styled cell. */
  const GridBorder: Border := Border(Thin, Thin, Thin, Thin)

  const BoldFont: Font := Font(true)

  const Centered: Alignment := Alignment(Center)

  /** The zebra stripe colour of the body rows. */
  const ZebraColor: string := "FAFAFA"

  const ZebraFill: Fill := SolidFill(ZebraColor, ZebraColor)

  /** The cell the sheet creates on first access to a coordinate it has no cell for. */
  const EmptyCell: Cell := Cell("", Font(false), NoFill, Alignment(Unset), Border(NoLine, NoLine, NoLine, NoLine))

  /** A solid fill whose start and end colours are both `color`. */
  function Solid(color: string): (f: Fill)
    ensures f.SolidFill? && f.startColor == color && f.endColor == color
  {
    SolidFill(color, color)
  }

  /** True when every side of the border is a thin line. */
  predicate FullyBordered(c: Cell) {
    c.border.left == Thin && c.border.right == Thin && c.border.top == Thin && c.border.bottom == Thin
  }

  /** The header restyle of a single cell: bold, solid `color`, centred, grid border; the value is kept. */
  function HeaderCell(c: Cell, color: string): (h: Cell)
    ensures h.font.bold && h.alignment.horizontal == Center && FullyBordered(h)
    ensures h.fill.SolidFill? && h.fill.startColor == color && h.fill.endColor == color
    ensures h.value == c.value
  {
    c.(font := BoldFont, fill := Solid(color), alignment := Centered, border := GridBorder)
  }

  /**
   * The body restyle of a single cell in sheet row `row`: grid border always,
   * zebra fill when the row number is even; font, alignment and value are kept,
   * and so is the fill of a cell in an odd row.
   */
  function BodyCell(c: Cell, row: int): (b: Cell)
    ensures FullyBordered(b)
    ensures b.value == c.value && b.font == c.font && b.alignment == c.alignment
    ensures row % 2 == 0 ==> b.fill == ZebraFill
    ensures row % 2 != 0 ==> b.fill == c.fill
  {
    c.(border := GridBorder, fill := if row % 2 == 0 then ZebraFill else c.fill)
  }
}
