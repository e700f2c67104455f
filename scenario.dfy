/**
 * The conversion of a small file `people.csv` with header `name,age` and the
 * rows `Ann,30` and `Bo,5`, worked out on the model.
 */
module Scenario {
  import opened Styles
  import opened Grid
  import opened Tables
  import opened Paths

  const People: Table := Table(["name", "age"], [["Ann", "30"], ["Bo", "5"]])

  /** The workbook is `people.xlsx` in the output directory. */
  lemma PeopleOutputPath()
    ensures OutputPath(["exports", "people.csv"], ["out"]) == ["out", "people.xlsx"]
  {
    var name := "people.csv";
    assert name == "people" + "." + "csv";
    StemOfDotted("people", "csv");
    assert Name(["exports", name]) == name;
    assert Stem(name) == "people";
    assert "people" + WorkbookExtension == "people.xlsx";
  }

  /** The header is the longest entry of both columns: widths 4 + 2 and 3 + 2. */
  lemma PeopleWidths()
    ensures People.Rectangular()
    ensures ColumnWidths(People) == map[1 := 6, 2 := 5]
  {
    var names := ["name", "Ann", "Bo"];
    assert ColumnValues(People, 0) == ["Ann", "Bo"];
    assert [People.columns[0]] + ColumnValues(People, 0) == names;
    assert names[1..] == ["Ann", "Bo"] && names[1..][1..] == ["Bo"];
    assert MaxLen(names) == 4;
    var ages := ["age", "30", "5"];
    assert ColumnValues(People, 1) == ["30", "5"];
    assert [People.columns[1]] + ColumnValues(People, 1) == ages;
    assert ages[1..] == ["30", "5"] && ages[1..][1..] == ["5"];
    assert MaxLen(ages) == 3;
  }

  /**
   * Striping follows the sheet row number: the first data row, `Ann,30`, sits
   * in sheet row 2 and is striped; `Bo,5` in row 3 is not; the header in row 1
   * keeps the header fill.
   */
  lemma PeopleStripes(g: Cells, color: string)
    requires forall k :: k in g ==> g[k].fill == NoFill
    ensures Coord(1, 1) in ConvertedGrid(g, 2, 2, color) && Coord(2, 1) in ConvertedGrid(g, 2, 2, color)
    ensures Coord(3, 1) in ConvertedGrid(g, 2, 2, color)
    ensures ConvertedGrid(g, 2, 2, color)[Coord(2, 1)].fill == ZebraFill
    ensures ConvertedGrid(g, 2, 2, color)[Coord(3, 1)].fill == NoFill
    ensures ConvertedGrid(g, 2, 2, color)[Coord(1, 1)].fill == SolidFill(color, color)
  {
    ConvertedBody(g, 2, 2, color, Coord(2, 1));
    ConvertedBody(g, 2, 2, color, Coord(3, 1));
    ConvertedHeader(g, 2, 2, color, Coord(1, 1));
  }
}
