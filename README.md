# Styling pass of the CSV to XLSX converter

This project models the styling pass that `scripts/csv_to_xlsx_pandas.py`
applies to each sheet after pandas has written a table into a workbook. It
covers four things:

- the header pass (`style_header`);
- the body pass with its zebra stripes (`style_rows`);
- the column sizing (`autosize_columns`);
- the row arithmetic, call order and output file name of `convert_one`.

The model is split into modules:

- `Styles` (`styles.dfy`) holds the style records the pass assigns: font,
  solid pattern fill, horizontal alignment and a four-sided border. It also
  holds the two per-cell restyles, `HeaderCell` and `BodyCell`.
- `Grid` (`grid.dfy`) treats the sheet's cells as a value: a map from 1-based
  (row, column) to cell. A coordinate the sheet has no cell for reads as the
  empty cell, which the sheet creates on first access. `HeaderGrid`,
  `BodyRowGrid` and `BodyGrid` say what each pass makes of the map. They work
  one cell at a time, in the order the loops visit the cells. `ConvertedGrid`
  runs the header pass and then the body pass over rows 2..n+1. The lemmas
  state what each pass does cell by cell, and what it leaves alone.
- `Tables` (`table.dfy`) holds the table that was read: its column names and
  rows of strings that are already stringified. It also holds the column
  width, which is two more than the longest of the header and the column's
  values.
- `Paths` (`paths.dfy`) names the output file. It implements the path
  library's suffix and stem rule, then builds `<stem>.xlsx` in the output
  directory.
- `CsvToXlsx` (`sheet.dfy`) holds the worksheet as a class whose fields are
  updated in place: the cells, the frozen pane, the column widths keyed by
  column index, and the gridline flag. Its methods `StyleHeader`, `StyleRows`
  and `AutosizeColumns` are the source's nested loops. Each is proved to leave
  exactly the state the `Grid` and `Tables` functions describe, with every
  other field unchanged. `ConvertOne` calls them in the source's order.
- `Scenario` (`scenario.dfy`) works the small `people.csv` example through the
  model.

A row index below 1 makes the sheet's cell access raise an error.
`style_rows` does not guard against this. `StyleRows` models the error as an
`ok` result that is false, with nothing changed: the first cell access is the
one that fails. `convert_one` always starts the body at row 2, so the error
cannot happen there, and `ConvertOne` proves that.

Striping follows the absolute sheet row: sheet row 2, the first data row, is
striped and row 3 is not.

## Model

| member | source | states |
|---|---|---|
| Styles.HeaderCell | scripts/csv_to_xlsx_pandas.py:13-22 | a restyled header cell is bold, solidly filled with the header colour at both ends, centred, has a thin line on all four sides, and keeps its value |
| Styles.BodyCell | scripts/csv_to_xlsx_pandas.py:28-37 | a restyled body cell has a thin line on all four sides. In an even sheet row it gets the FAFAFA zebra fill. In an odd row it keeps its fill. Its value, font and alignment are always kept |
| Grid.HeaderGridFrame | scripts/csv_to_xlsx_pandas.py:17-22 | the header pass `HeaderGrid` creates no cell and changes no cell outside row 1, columns 1..ncols |
| Grid.HeaderGridCell | scripts/csv_to_xlsx_pandas.py:17-22 | after the header pass `HeaderGrid`, each cell (1, c) with 1 <= c <= ncols exists and is the header restyle of the cell that was there, or of a fresh empty cell |
| Grid.BodyRowGridFrame | scripts/csv_to_xlsx_pandas.py:31-37 | one row of the body pass, `BodyRowGrid`, creates and changes nothing outside columns 1..ncols of that row |
| Grid.BodyRowGridCell | scripts/csv_to_xlsx_pandas.py:31-37 | after one row of the body pass (`BodyRowGrid`), each cell of that row segment exists and is the body restyle of its old cell |
| Grid.BodyGridFrame | scripts/csv_to_xlsx_pandas.py:30-37 | the body pass `BodyGrid` creates and changes no cell outside rows start_row..end_row, columns 1..ncols. With end_row < start_row, no cell is created or changed |
| Grid.BodyGridCell | scripts/csv_to_xlsx_pandas.py:30-37 | after the body pass `BodyGrid`, each cell of the rectangle exists and is the body restyle of its old cell for its own sheet row. So it is fully bordered, zebra-filled when the row is even, and keeps its fill when the row is odd |
| Grid.ConvertedHeader | scripts/csv_to_xlsx_pandas.py:54-58 | after the conversion `ConvertedGrid` (the header pass, then the body pass on rows 2..n+1), each header cell is still exactly the header restyle. The body pass never reaches row 1, so it never gets the zebra fill |
| Grid.ConvertedBody | scripts/csv_to_xlsx_pandas.py:54-58 | after the conversion `ConvertedGrid`, each body cell is the body restyle of the original cell and so is fully bordered. A cell without zebra fill before is zebra-filled if and only if its row is even |
| Grid.ConvertedFrame | scripts/csv_to_xlsx_pandas.py:54-58 | the conversion `ConvertedGrid` creates exactly the cells of rows 1..n+1, columns 1..ncols. It changes nothing outside them and no cell value anywhere |
| Tables.MaxLen | scripts/csv_to_xlsx_pandas.py:43 | the maximum length is at least the length of every string |
| Tables.MaxLenAttained | scripts/csv_to_xlsx_pandas.py:43 | the maximum length is the length of one of the strings |
| Tables.ColumnWidth | scripts/csv_to_xlsx_pandas.py:42-43 | the width is at least len(header) + 2 and at least len(v) + 2 for every value v. With no values it is exactly len(header) + 2 |
| Tables.ColumnWidthAttained | scripts/csv_to_xlsx_pandas.py:42-43 | the width is exactly two more than the length of the header or of some value |
| Tables.ColumnWidths | scripts/csv_to_xlsx_pandas.py:41-43 | there is one width per column index 1..ncols. Each is at least the header's length + 2 and at least every value's length + 2. A table without rows gets its widths from the headers alone |
| Tables.ColumnWidthsAttained | scripts/csv_to_xlsx_pandas.py:41-43 | each column's width is two more than the length of its header or of its value in some row |
| Paths.LastIndexOf | scripts/csv_to_xlsx_pandas.py:49 | the result is -1 or an index holding the character, and no later index holds it |
| Paths.LastIndexOfAppend | scripts/csv_to_xlsx_pandas.py:49 | when the second part contains the character, its last occurrence in a concatenation is the one in the second part |
| Paths.Suffix | scripts/csv_to_xlsx_pandas.py:49 | the suffix is empty, or a dot followed by at least one character and no further dot |
| Paths.Stem | scripts/csv_to_xlsx_pandas.py:49 | the stem followed by the suffix is the name. A non-empty name has a non-empty stem. A name without a dot is its own stem |
| Paths.OutputPath | scripts/csv_to_xlsx_pandas.py:49 | the output path is the output directory plus one component, and that component is the input's stem followed by .xlsx |
| Paths.DotFirst | scripts/csv_to_xlsx_pandas.py:49 | in a dot followed by text without a dot, the last dot is at index 0 |
| Paths.StemOfDotted | scripts/csv_to_xlsx_pandas.py:49 | a name s.e with s non-empty and a non-empty, dot-free extension e has suffix .e and stem s, so only the last extension is dropped |
| Paths.StemOfHidden | scripts/csv_to_xlsx_pandas.py:49 | a name whose only dot is its first character has no suffix and is its own stem |
| Paths.StemOfTrailingDot | scripts/csv_to_xlsx_pandas.py:49 | a name ending in a dot has no suffix and is its own stem |
| Paths.ExtensionRoundTrip | scripts/csv_to_xlsx_pandas.py:49 | a non-empty stem with .xlsx appended has the suffix .xlsx and gives back that stem |
| Paths.OutputName | scripts/csv_to_xlsx_pandas.py:49 | the output file of a named input has the suffix .xlsx and the same stem as the input |
| CsvToXlsx.Sheet.StyleHeader | scripts/csv_to_xlsx_pandas.py:12-24 | the cells become HeaderGrid of the old cells, the pane is frozen at A2, and widths and gridlines are unchanged |
| CsvToXlsx.Sheet.StyleRows | scripts/csv_to_xlsx_pandas.py:27-37 | the result fails exactly when a non-empty rectangle starts above row 1, and then nothing changes. Otherwise the cells become BodyGrid of the old cells. The pane, widths and gridlines are unchanged in both cases |
| CsvToXlsx.Sheet.AutosizeColumns | scripts/csv_to_xlsx_pandas.py:40-43 | the width map becomes the old one overwritten by ColumnWidths of the table, and the cells, pane and gridlines are unchanged |
| CsvToXlsx.ConvertOne | scripts/csv_to_xlsx_pandas.py:46-63 | the result is OutputPath of the input. The cells become ConvertedGrid with ncols = number of columns and body rows 2..rows+1. The pane is A2, the widths of columns 1..ncols are the table's column widths (other widths kept), and gridlines are off |
| Scenario.PeopleOutputPath | scripts/csv_to_xlsx_pandas.py:49 | exports/people.csv converted into out gives out/people.xlsx |
| Scenario.PeopleWidths | scripts/csv_to_xlsx_pandas.py:41-43 | header name,age with rows Ann,30 and Bo,5 gives widths 6 and 5 |
| Scenario.PeopleStripes | scripts/csv_to_xlsx_pandas.py:36-37 | in that conversion, sheet row 2 is zebra-filled, row 3 is not, and the header keeps its own fill |

## Left out

- Reading the CSV file (`pd.read_csv`) is not modelled. The table is an input: column names and rows of strings.
- ColumnWidth: pandas' stringification of values (`astype(str)`) is not modelled; the column's strings are taken as given. In the code `astype(str)` runs before `fillna("")`, so a missing value is already the text `nan` of length 3 and the `fillna` has no effect. The model states nothing about missing values.
- Writing the workbook is not modelled: `pd.ExcelWriter`, `to_excel`, the header styling pandas applies itself, and serialisation. The sheet's cells are given to `ConvertOne` as the state `to_excel` left, and the model does not tie them to the table's values.
- The style objects are reduced to the attributes the pass sets: bold, solid fill colours, horizontal alignment and side styles. Assigning a shared style object is modelled as assigning a value.
- `get_column_letter` is not modelled: widths are keyed by 1-based column index.
- The colour string is passed through unchanged. The library's colour validation and alpha prefixing are not modelled.
- The sheet's row and column limits are not modelled; indices are unbounded integers.
- String length is the number of characters of the string. A Dafny character is a Unicode scalar value, so this is the code-point count Python's `len` gives; a string holding a lone surrogate, which a Dafny string cannot hold, is not modelled.
- `Paths.Stem`: follows the path library's suffix rule on the final component of the name, as in Python up to 3.13. A last dot that is the first or the final character gives no suffix.
- `main` is not modelled: argument parsing, creating the output directory, globbing and sorting input files, the exit when nothing matches, and printing are I/O.
- Only the gridline flag of the sheet view is modelled, as a boolean field.
