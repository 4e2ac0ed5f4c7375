/**
 * PolygonDataTest.kt: the ASCII grids the resolver's tests are written in. `x` is a
 * path cell, `-` a cell expected inside and `.` anything else; cells are separated
 * by spaces and rows by line breaks.
 */
module PolygonTestGrid {
  import opened Wrappers
  import opened Points
  import opened Text
  import opened GridText
  import Ext
  import BoundingShapes
  import ExclusiveBox
  import opened PolygonSweep
  import opened Polygon

  /**
   * `PolygonTestData`: the polygon, as the path and box its data-class equality
   * compares, and the cells the grid marks as inside.
   */
  datatype TestData = TestData(path: seq<Point>, box: BoundingShapes.Rect, inside: seq<Point>) {
    /** `data.boundingBox.sizeX`: the nested box's exclusive size. */
    function SizeX(): int {
      box.maxX - box.minX
    }

    function SizeY(): int {
      box.maxY - box.minY
    }
  }

  /** How `parsePolygonTestData` fails. */
  datatype ParseError =
    | MismatchedSizeX         // "Path has mismatched sizeX"
    | SizeXTooBig             // "SizeX too big"
    | SizeYTooBig             // "SizeY too big"
    | InvalidChar(c: char)    // "Invalid char $c in path gen"

  const Marks: set<char> := {'x', '-', '.'}

  predicate SameWidth(rows: seq<string>)
    requires |rows| >= 1
  {
    forall y :: 0 <= y < |rows| ==> |rows[y]| == |rows[0]|
  }

  /** `parsePolygonTestData` on the rows with spaces removed. */
  function ParseRows(rows: seq<string>): Result<TestData, ParseError>
    requires |rows| >= 1
  {
    if !SameWidth(rows) then Err(MismatchedSizeX)
    else if |rows[0]| >= 50 then Err(SizeXTooBig)
    else if |rows| >= 50 then Err(SizeYTooBig)
    else
      match FirstOutside(rows, Marks)
      case Some(c) => Err(InvalidChar(c))
      case None =>
        Ok(TestData(Cells(rows, 'x', |rows|), BoundingShapes.Rect(0, 0, |rows[0]|, |rows|), Cells(rows, '-', |rows|)))
  }

  function Parse(s: string): Result<TestData, ParseError> {
    ParseRows(Rows(s))
  }

  /** What a parse means: when it succeeds, and what the polygon, its box and the inside cells are then. */
  lemma ParseMeaning(rows: seq<string>)
    requires |rows| >= 1
    ensures ParseRows(rows).Ok? <==> SameWidth(rows) && |rows[0]| < 50 && |rows| < 50 && AllIn(rows, Marks)
    ensures ParseRows(rows).Ok? ==>
      var d := ParseRows(rows).value;
      && d.box == BoundingShapes.Rect(0, 0, |rows[0]|, |rows|)
      && d.SizeX() == |rows[0]| && d.SizeY() == |rows|
      && StrictlySorted(d.path) && StrictlySorted(d.inside)
      && (forall p :: p in d.path <==> 0 <= p.y < |rows| && 0 <= p.x < |rows[0]| && rows[p.y][p.x] == 'x')
      && (forall p :: p in d.inside <==> 0 <= p.y < |rows| && 0 <= p.x < |rows[0]| && rows[p.y][p.x] == '-')
  {
    if ParseRows(rows).Ok? {
      CellsSorted(rows, 'x', |rows|);
      CellsSorted(rows, '-', |rows|);
      CellsMembers(rows, 'x', |rows|);
      CellsMembers(rows, '-', |rows|);
    }
  }

  /** `parsePolygonTestData`, filling the path and inside lists cell by cell. */
  method ParsePolygonTestData(s: string) returns (r: Result<TestData, ParseError>)
    ensures r == Parse(s)
  {
    var rows := Rows(s);
    assert Parse(s) == ParseRows(rows);
    var widths := seq(|rows|, y requires 0 <= y < |rows| => |rows[y]|);
    SingleValue(widths);
    assert |widths| == |rows| && forall y :: 0 <= y < |rows| ==> widths[y] == |rows[y]|;
    assert SameWidth(rows) <==> forall y :: 0 <= y < |widths| ==> widths[y] == widths[0];
    if |set y | 0 <= y < |widths| :: widths[y]| != 1 {
      return Err(MismatchedSizeX);
    }
    var sizeX := |rows[0]|;
    var sizeY := |rows|;
    if sizeX >= 50 {
      return Err(SizeXTooBig);
    }
    if sizeY >= 50 {
      return Err(SizeYTooBig);
    }
    r := ScanCells(rows);
  }

  /** The cell-by-cell part of `parsePolygonTestData`, once the sizes are checked. */
  method ScanCells(rows: seq<string>) returns (r: Result<TestData, ParseError>)
    requires |rows| >= 1 && SameWidth(rows) && |rows[0]| < 50 && |rows| < 50
    ensures r == ParseRows(rows)
  {
    var sizeX := |rows[0]|;
    var sizeY := |rows|;
    var path: seq<Point> := [];
    var inside: seq<Point> := [];
    var y := 0;
    while y < sizeY
      invariant 0 <= y <= sizeY
      invariant path == Cells(rows, 'x', y) && inside == Cells(rows, '-', y)
      invariant forall j, i :: 0 <= j < y && 0 <= i < |rows[j]| ==> rows[j][i] in Marks
    {
      var rowPath, rowInside, bad := ScanLine(rows[y], y);
      if bad.Some? {
        ParseRowsInvalid(rows, bad.value, y);
        return Err(InvalidChar(rows[y][bad.value]));
      }
      path := path + rowPath;
      inside := inside + rowInside;
      y := y + 1;
    }
    ParseRowsValid(rows);
    r := Ok(TestData(path, BoundingShapes.Rect(0, 0, sizeX, sizeY), inside));
  }

  /** Sizes checked, the scan stops at the first character that is no mark. */
  lemma ParseRowsInvalid(rows: seq<string>, x: int, y: int)
    requires |rows| >= 1 && SameWidth(rows) && |rows[0]| < 50 && |rows| < 50
    requires 0 <= y < |rows| && 0 <= x < |rows[y]| && rows[y][x] !in Marks
    requires forall j, i :: 0 <= j < y && 0 <= i < |rows[j]| ==> rows[j][i] in Marks
    requires forall i :: 0 <= i < x ==> rows[y][i] in Marks
    ensures ParseRows(rows) == Err(InvalidChar(rows[y][x]))
  {
    AllInUpTo(rows, Marks, y);
    FirstOutsideAt(rows, Marks, x, y);
  }

  /** Sizes checked and every character a mark, the parse collects the path and inside cells. */
  lemma ParseRowsValid(rows: seq<string>)
    requires |rows| >= 1 && SameWidth(rows) && |rows[0]| < 50 && |rows| < 50
    requires forall j, i :: 0 <= j < |rows| && 0 <= i < |rows[j]| ==> rows[j][i] in Marks
    ensures ParseRows(rows) ==
      Ok(TestData(Cells(rows, 'x', |rows|), BoundingShapes.Rect(0, 0, |rows[0]|, |rows|), Cells(rows, '-', |rows|)))
  {
    assert AllIn(rows, Marks);
  }


  /**
   * The inner loop of `parsePolygonTestData` over row y: its path and inside cells,
   * or the index of its first character that is no mark.
   */
  method ScanLine(line: string, y: int) returns (rowPath: seq<Point>, rowInside: seq<Point>, bad: Option<int>)
    ensures bad.None? ==> rowPath == RowCells(line, y, 'x', |line|) && rowInside == RowCells(line, y, '-', |line|)
    ensures bad.None? ==> forall i :: 0 <= i < |line| ==> line[i] in Marks
    ensures bad.Some? ==> 0 <= bad.value < |line| && line[bad.value] !in Marks
    ensures bad.Some? ==> forall i :: 0 <= i < bad.value ==> line[i] in Marks
  {
    rowPath, rowInside := [], [];
    var x := 0;
    while x < |line|
      invariant 0 <= x <= |line|
      invariant rowPath == RowCells(line, y, 'x', x) && rowInside == RowCells(line, y, '-', x)
      invariant forall i :: 0 <= i < x ==> line[i] in Marks
    {
      var c := line[x];
      if c == 'x' {
        rowPath := rowPath + [Point(x, y)];
      } else if c == '-' {
        rowInside := rowInside + [Point(x, y)];
      } else if c != '.' {
        return rowPath, rowInside, Some(x);
      }
      x := x + 1;
    }
    bad := None;
  }

  // ---------------------------------------------------------------------------
  // prettyString

  /** The character of cell (x, y): the path wins over the inside cells, which win over '.'. */
  function CellChar(d: TestData, x: int, y: int): char {
    if Point(x, y) in d.path then 'x' else if Point(x, y) in d.inside then '-' else '.'
  }

  function Width(d: TestData): nat {
    if d.SizeX() < 0 then 0 else d.SizeX()
  }

  function Height(d: TestData): nat {
    if d.SizeY() < 0 then 0 else d.SizeY()
  }

  /** The text of row y up to its first n cells: each character followed by a space, except the last of the row. */
  function RowText(d: TestData, y: int, n: nat): string
    decreases n
  {
    if n == 0 then ""
    else RowText(d, y, n - 1) + [CellChar(d, n - 1, y)] + (if n - 1 < d.SizeX() - 1 then " " else "")
  }

  /** The text of the first m rows: each row followed by a line break, except the last. */
  function GridLines(d: TestData, m: nat): string
    decreases m
  {
    if m == 0 then ""
    else GridLines(d, m - 1) + RowText(d, m - 1, Width(d)) + (if m - 1 < d.SizeY() - 1 then "\n" else "")
  }

  /** `prettyString`. */
  function PrettyText(d: TestData): string {
    GridLines(d, Height(d))
  }

  /** `groupBySet({ it.x }, { it.y })`: row y is listed under column x exactly when (x, y) is a point. */
  method PointIndex(pts: seq<Point>) returns (graph: Ext.LinkedSetMap<int, int>)
    ensures forall x, y :: y in graph.Get(x) <==> Point(x, y) in pts
  {
    graph := Ext.GroupBySet(pts, (p: Point) => p.x, (p: Point) => p.y);
    forall x, y ensures y in graph.Get(x) <==> Point(x, y) in pts {
      if Point(x, y) in pts {
        var i :| 0 <= i < |pts| && pts[i] == Point(x, y);
      }
    }
  }

  /** `prettyString`, built with a string builder from the column-to-rows indexes of both point lists. */
  method PrettyString(d: TestData) returns (s: string)
    ensures s == PrettyText(d)
  {
    var pathGraph := PointIndex(d.path);
    var insideGraph := PointIndex(d.inside);
    s := "";
    var y := 0;
    while y < d.SizeY()
      invariant 0 <= y <= Height(d)
      invariant s == GridLines(d, y)
    {
      var x := 0;
      while x < d.SizeX()
        invariant 0 <= x <= Width(d)
        invariant s == GridLines(d, y) + RowText(d, y, x)
      {
        var c: char;
        if x in pathGraph.entries && y in pathGraph.entries[x] {
          c := 'x';
        } else if x in insideGraph.entries && y in insideGraph.entries[x] {
          c := '-';
        } else {
          c := '.';
        }
        assert c == CellChar(d, x, y) by {
          assert y in pathGraph.Get(x) <==> Point(x, y) in d.path;
          assert y in insideGraph.Get(x) <==> Point(x, y) in d.inside;
        }
        s := s + [c];
        if x < d.SizeX() - 1 {
          s := s + " ";
        }
        x := x + 1;
      }
      if y < d.SizeY() - 1 {
        s := s + "\n";
      }
      y := y + 1;
    }
  }

  /** The characters of the first n cells of row y. */
  function CellChars(d: TestData, y: int, n: nat): (r: string)
    ensures |r| == n && forall x :: 0 <= x < n ==> r[x] == CellChar(d, x, y)
  {
    seq(n, x => CellChar(d, x, y))
  }

  /** Without its spaces, a row's text is the row's characters. */
  lemma {:induction false} RowTextChars(d: TestData, y: int, n: nat)
    requires n <= Width(d)
    ensures RemoveSpaces(RowText(d, y, n)) == CellChars(d, y, n)
    decreases n
  {
    if n > 0 {
      RowTextChars(d, y, n - 1);
      var init, c := RowText(d, y, n - 1), CellChar(d, n - 1, y);
      var sep := if n - 1 < d.SizeX() - 1 then " " else "";
      assert RowText(d, y, n) == init + [c] + sep;
      RemoveSpacesCell(init, c, sep);
      CellCharsSnoc(d, y, n);
    }
  }

  lemma CellCharsSnoc(d: TestData, y: int, n: nat)
    requires n > 0
    ensures CellChars(d, y, n) == CellChars(d, y, n - 1) + [CellChar(d, n - 1, y)]
  {
  }

  /** A row's text holds no line break. */
  lemma {:induction false} RowTextSingleLine(d: TestData, y: int, n: nat)
    ensures '\n' !in RowText(d, y, n) && '\r' !in RowText(d, y, n)
    decreases n
  {
    if n > 0 {
      RowTextSingleLine(d, y, n - 1);
    }
  }

  function RowTexts(d: TestData, m: nat): (rows: seq<string>)
    ensures |rows| == m
  {
    seq(m, y => RowText(d, y, Width(d)))
  }

  /** The first m rows are the row texts joined by line breaks, with one more break while rows remain. */
  lemma {:induction false} GridLinesJoin(d: TestData, m: nat)
    requires 1 <= m <= Height(d)
    ensures GridLines(d, m) == Join(RowTexts(d, m), '\n') + (if m < Height(d) then "\n" else "")
    decreases m
  {
    if m > 1 {
      GridLinesJoin(d, m - 1);
      assert RowTexts(d, m) == RowTexts(d, m - 1) + [RowText(d, m - 1, Width(d))];
      JoinSnoc(RowTexts(d, m - 1), RowText(d, m - 1, Width(d)), '\n');
    } else {
      assert GridLines(d, 0) == "";
    }
  }

  /** `lines()` of the pretty text are exactly the row texts. */
  lemma PrettyLines(d: TestData)
    requires Height(d) >= 1
    ensures Lines(PrettyText(d)) == RowTexts(d, Height(d))
  {
    GridLinesJoin(d, Height(d));
    forall y | 0 <= y < Height(d) ensures '\n' !in RowTexts(d, Height(d))[y] && '\r' !in RowTexts(d, Height(d))[y] {
      RowTextSingleLine(d, y, Width(d));
    }
    assert PrettyText(d) == Join(RowTexts(d, Height(d)), '\n');
    LinesOfJoin(RowTexts(d, Height(d)));
  }

  /** The rows of the pretty text, spaces removed, are the cell characters. */
  lemma PrettyRows(d: TestData)
    requires Height(d) >= 1
    ensures |Rows(PrettyText(d))| == Height(d)
    ensures forall y :: 0 <= y < Height(d) ==> |Rows(PrettyText(d))[y]| == Width(d)
    ensures forall y, x :: 0 <= y < Height(d) && 0 <= x < Width(d) ==> Rows(PrettyText(d))[y][x] == CellChar(d, x, y)
  {
    PrettyLines(d);
    forall y | 0 <= y < Height(d)
      ensures |Rows(PrettyText(d))[y]| == Width(d)
      ensures forall x :: 0 <= x < Width(d) ==> Rows(PrettyText(d))[y][x] == CellChar(d, x, y)
    {
      RowTextChars(d, y, Width(d));
    }
  }

  /** In a parsed grid, every cell's character is the one the grid had there. */
  lemma ParsedCellChar(rows: seq<string>, x: int, y: int)
    requires |rows| >= 1 && ParseRows(rows).Ok?
    requires 0 <= y < |rows| && 0 <= x < |rows[y]|
    ensures CellChar(ParseRows(rows).value, x, y) == rows[y][x]
  {
    ParseMeaning(rows);
    assert rows[y][x] in Marks;
  }

  /** Parsing the pretty text of a parsed grid gives the same result. */
  lemma RoundTrip(s: string)
    requires Parse(s).Ok?
    ensures Parse(PrettyText(Parse(s).value)) == Parse(s)
  {
    var rows, d := Rows(s), Parse(s).value;
    assert Width(d) == |rows[0]| && Height(d) == |rows|;
    var t := PrettyText(d);
    PrettyRows(d);
    forall y | 0 <= y < |rows| ensures Rows(t)[y] == rows[y] {
      forall x | 0 <= x < |rows[y]| ensures Rows(t)[y][x] == rows[y][x] {
        ParsedCellChar(rows, x, y);
      }
    }
    assert Rows(t) == rows;
  }

  /** The `basicParse` example: a 4 × 3 grid, seven path cells in row-major order and nothing inside. */
  lemma BasicParse()
    ensures ParseRows(["xxx.", "x.x.", "x.x."]) == Ok(TestData(
      [Point(0, 0), Point(1, 0), Point(2, 0), Point(0, 1), Point(2, 1), Point(0, 2), Point(2, 2)],
      BoundingShapes.Rect(0, 0, 4, 3), []))
  {
    var rows := ["xxx.", "x.x.", "x.x."];
    assert SameWidth(rows);
    BasicMarks();
    BasicPath();
    BasicInside();
  }

  lemma BasicMarks()
    ensures FirstOutside(["xxx.", "x.x.", "x.x."], Marks) == None
  {
    assert AllIn(["xxx.", "x.x.", "x.x."], Marks);
  }

  lemma BasicPath()
    ensures Cells(["xxx.", "x.x.", "x.x."], 'x', 3) ==
      [Point(0, 0), Point(1, 0), Point(2, 0), Point(0, 1), Point(2, 1), Point(0, 2), Point(2, 2)]
  {
    var rows := ["xxx.", "x.x.", "x.x."];
    assert RowCells(rows[0], 0, 'x', 1) == [Point(0, 0)];
    assert RowCells(rows[0], 0, 'x', 2) == [Point(0, 0), Point(1, 0)];
    assert RowCells(rows[0], 0, 'x', 3) == [Point(0, 0), Point(1, 0), Point(2, 0)];
    assert RowCells(rows[0], 0, 'x', 4) == [Point(0, 0), Point(1, 0), Point(2, 0)];
    assert RowCells(rows[1], 1, 'x', 1) == [Point(0, 1)];
    assert RowCells(rows[1], 1, 'x', 2) == [Point(0, 1)];
    assert RowCells(rows[1], 1, 'x', 3) == [Point(0, 1), Point(2, 1)];
    assert RowCells(rows[1], 1, 'x', 4) == [Point(0, 1), Point(2, 1)];
    assert RowCells(rows[2], 2, 'x', 1) == [Point(0, 2)];
    assert RowCells(rows[2], 2, 'x', 2) == [Point(0, 2)];
    assert RowCells(rows[2], 2, 'x', 3) == [Point(0, 2), Point(2, 2)];
    assert RowCells(rows[2], 2, 'x', 4) == [Point(0, 2), Point(2, 2)];
    assert Cells(rows, 'x', 1) == [Point(0, 0), Point(1, 0), Point(2, 0)];
    assert Cells(rows, 'x', 2) == [Point(0, 0), Point(1, 0), Point(2, 0), Point(0, 1), Point(2, 1)];
  }

  lemma BasicInside()
    ensures Cells(["xxx.", "x.x.", "x.x."], '-', 3) == []
  {
    var rows := ["xxx.", "x.x.", "x.x."];
    assert RowCells(rows[0], 0, '-', 1) == [];
    assert RowCells(rows[0], 0, '-', 2) == [];
    assert RowCells(rows[0], 0, '-', 3) == [];
    assert RowCells(rows[0], 0, '-', 4) == [];
    assert RowCells(rows[1], 1, '-', 1) == [];
    assert RowCells(rows[1], 1, '-', 2) == [];
    assert RowCells(rows[1], 1, '-', 3) == [];
    assert RowCells(rows[1], 1, '-', 4) == [];
    assert RowCells(rows[2], 2, '-', 1) == [];
    assert RowCells(rows[2], 2, '-', 2) == [];
    assert RowCells(rows[2], 2, '-', 3) == [];
    assert RowCells(rows[2], 2, '-', 4) == [];
  }

  /** A parsed grid's path holds every 'x' cell of the grid. */
  lemma ParsedPathCell(rows: seq<string>, x: int, y: int)
    requires |rows| >= 1 && ParseRows(rows).Ok?
    requires 0 <= y < |rows| && 0 <= x < |rows[y]| && rows[y][x] == 'x'
    ensures Point(x, y) in ParseRows(rows).value.path
  {
    CellsMembers(rows, 'x', |rows|);
  }

  /** `path1`, each line with its spaces removed. */
  const Path1: seq<string> := ["xxx...xxx", "x-xx..x-x", "x--xxxx-x", "xx------x", ".xxx---xx", "...xxxxx."]

  /** `path2`, each line with its spaces removed. */
  const Path2: seq<string> := ["xxx...xxx", "x-xx.xx-x", "x--xxx--x", "xx-----xx", "x--xxx--x", "x-xx.xx-x", "xxx...xxx"]

  /** `path1` parses to a 9 × 6 box whose path turns a corner at (7, 4). */
  lemma Path1Parse()
    ensures ParseRows(Path1).Ok?
    ensures var d := ParseRows(Path1).value;
      d.box == BoundingShapes.Rect(0, 0, 9, 6) && Point(7, 4) in d.path && Point(8, 4) in d.path && Point(7, 5) in d.path
  {
    Path1Marks();
    ParseRowsValid(Path1);
    ParsedPathCell(Path1, 7, 4);
    ParsedPathCell(Path1, 8, 4);
    ParsedPathCell(Path1, 7, 5);
  }

  lemma Path1Marks()
    ensures SameWidth(Path1) && AllIn(Path1, Marks)
  {
  }

  /** `path2` parses to a 9 × 7 box whose path turns a corner at (5, 1). */
  lemma Path2Parse()
    ensures ParseRows(Path2).Ok?
    ensures var d := ParseRows(Path2).value;
      d.box == BoundingShapes.Rect(0, 0, 9, 7) && Point(5, 1) in d.path && Point(6, 1) in d.path && Point(5, 2) in d.path
  {
    Path2Marks();
    ParseRowsValid(Path2);
    ParsedPathCell(Path2, 5, 1);
    ParsedPathCell(Path2, 6, 1);
    ParsedPathCell(Path2, 5, 2);
  }

  lemma Path2Marks()
    ensures SameWidth(Path2) && AllIn(Path2, Marks)
  {
  }

  /** The `PolygonData` a parsed grid describes: its path, over the box (0, 0) to (sizeX, sizeY). */
  method NewPolygon(d: TestData) returns (polygon: PolygonData)
    requires d.SizeX() >= 0 && d.SizeY() >= 0
    ensures fresh(polygon) && fresh(polygon.status)
    ensures polygon.path == d.path && polygon.box == d.box
    ensures polygon.Valid() && polygon.cache.None? && polygon.Grid() == Blank(polygon.SweepFrame())
  {
    var boundingBox := new ExclusiveBox.BoundingBox(d.box.minX, d.box.minY, d.box.maxX, d.box.maxY);
    polygon := new PolygonData(d.path, boundingBox);
  }

  /** `pointsInPolygon()` on a fresh polygon whose path turns a corner inside the box fails. */
  method PointsOfCornered(d: TestData, x: int, y: int) returns (r: Result<seq<Point>, Failure>)
    requires d.box.minX == 0 && d.box.minY == 0 && d.SizeX() >= 0 && d.SizeY() >= 0
    requires 0 < x < d.SizeX() - 1 && 0 < y < d.SizeY() - 1
    requires Point(x, y) in d.path && Point(x + 1, y) in d.path && Point(x, y + 1) in d.path
    ensures r.Err?
  {
    var polygon := NewPolygon(d);
    assert Corner(polygon.SweepFrame(), x, y) by {
      assert IsEdge(polygon.SweepFrame(), x, y) && IsEdge(polygon.SweepFrame(), x + 1, y) && IsEdge(polygon.SweepFrame(), x, y + 1) by {
        assert Point(x + 0, y + 0) in d.path && Point(x + 1 + 0, y + 0) in d.path && Point(x + 0, y + 1 + 0) in d.path;
      }
    }
    CornerFails(polygon.SweepFrame(), x, y);
    r := polygon.PointsInPolygon();
  }

  /**
   * `complexExtract1`: the resolver does not return the fourteen inside points listed by
   * the test; on `path1` it raises, because no sweep resolves the corner cell (7, 4).
   */
  method ComplexExtract1() returns (r: Result<seq<Point>, Failure>)
    ensures r.Err?
  {
    Path1Parse();
    r := PointsOfCornered(ParseRows(Path1).value, 7, 4);
  }

  /** `complexParseAll` on `path2`: the round trip holds, but `pointsInPolygon()` raises at the corner (5, 1). */
  method ComplexParsePath2() returns (r: Result<seq<Point>, Failure>)
    ensures r.Err?
  {
    Path2Parse();
    r := PointsOfCornered(ParseRows(Path2).value, 5, 1);
  }

  /** A neighbour of a fenced cell is a wall when it is on the path, or fenced in itself. */
  predicate Walled(path: seq<Point>, s: set<Point>, q: Point) {
    q in path || q in s
  }

  /**
   * Cell `p` of `s` is fenced in by the path: it is neither on the path nor on the border
   * of the box, and each of its side-neighbours is on the path or in `s`.
   */
  predicate FencedCell(path: seq<Point>, box: BoundingShapes.Rect, s: set<Point>, p: Point) {
    && p !in path
    && box.minX < p.x < box.maxX - 1 && box.minY < p.y < box.maxY - 1
    && Walled(path, s, Point(p.x - 1, p.y)) && Walled(path, s, Point(p.x + 1, p.y))
    && Walled(path, s, Point(p.x, p.y - 1)) && Walled(path, s, Point(p.x, p.y + 1))
  }

  /** Every cell of `s` is fenced in, so no walk through free cells leads from `s` out to the border. */
  ghost predicate Fenced(path: seq<Point>, box: BoundingShapes.Rect, s: set<Point>) {
    forall p {:trigger FencedCell(path, box, s, p)} :: p in s ==> FencedCell(path, box, s, p)
  }

  /** A cell strictly inside the polygon: one that some fenced set holds. */
  ghost predicate Enclosed(path: seq<Point>, box: BoundingShapes.Rect, p: Point) {
    exists s :: p in s && Fenced(path, box, s)
  }

  /** The fourteen points `complexExtract1` expects from `path1`, in the test's order. */
  const Extract1Inside: seq<Point> := [
    Point(1, 1), Point(7, 1), Point(1, 2), Point(2, 2), Point(7, 2),
    Point(2, 3), Point(3, 3), Point(4, 3), Point(5, 3), Point(6, 3), Point(7, 3),
    Point(4, 4), Point(5, 4), Point(6, 4)]

  /** The same points as a set. */
  const Extract1Cells: set<Point> := {
    Point(1, 1), Point(7, 1), Point(1, 2), Point(2, 2), Point(7, 2),
    Point(2, 3), Point(3, 3), Point(4, 3), Point(5, 3), Point(6, 3), Point(7, 3),
    Point(4, 4), Point(5, 4), Point(6, 4)}

  /** The 'x' cells of `path1`. */
  const Path1Walls: set<Point> := {
    Point(0, 0), Point(1, 0), Point(2, 0), Point(6, 0), Point(7, 0), Point(8, 0),
    Point(0, 1), Point(2, 1), Point(3, 1), Point(6, 1), Point(8, 1),
    Point(0, 2), Point(3, 2), Point(4, 2), Point(5, 2), Point(6, 2), Point(8, 2),
    Point(0, 3), Point(1, 3), Point(8, 3),
    Point(1, 4), Point(2, 4), Point(3, 4), Point(7, 4), Point(8, 4),
    Point(3, 5), Point(4, 5), Point(5, 5), Point(6, 5), Point(7, 5)}

  /** `path1`'s rows, read cell by cell: its 'x' cells and its '-' cells. */
  lemma Path1Marked()
    ensures forall p: Point :: (0 <= p.y < 6 && 0 <= p.x < 9 && Path1[p.y][p.x] == 'x') <==> p in Path1Walls
    ensures forall p: Point :: (0 <= p.y < 6 && 0 <= p.x < 9 && Path1[p.y][p.x] == '-') <==> p in Extract1Cells
  {
    forall p: Point
      ensures (0 <= p.y < 6 && 0 <= p.x < 9 && Path1[p.y][p.x] == 'x') <==> p in Path1Walls
      ensures (0 <= p.y < 6 && 0 <= p.x < 9 && Path1[p.y][p.x] == '-') <==> p in Extract1Cells
    {
      if 0 <= p.y < 6 && 0 <= p.x < 9 {
        var row := Path1[p.y];
        if p.y == 0 { assert row == "xxx...xxx"; }
        else if p.y == 1 { assert row == "x-xx..x-x"; }
        else if p.y == 2 { assert row == "x--xxxx-x"; }
        else if p.y == 3 { assert row == "xx------x"; }
        else if p.y == 4 { assert row == ".xxx---xx"; }
        else { assert row == "...xxxxx."; }
      }
    }
  }

  /** The parse of `path1`: its box, its path and its inside cells as sets. */
  lemma Path1Cells()
    ensures ParseRows(Path1).Ok?
    ensures var d := ParseRows(Path1).value;
      && d.box == BoundingShapes.Rect(0, 0, 9, 6)
      && (forall p :: p in d.path <==> p in Path1Walls)
      && (forall p :: p in d.inside <==> p in Extract1Cells)
  {
    Path1Parse();
    ParseMeaning(Path1);
    Path1Marked();
  }

  /** A cell is walled on `path1` when it is on the path or among the expected cells. */
  predicate Closed1(q: Point) {
    q in Path1Walls || q in Extract1Cells
  }

  /** Each expected cell is a free interior cell of `path1` whose four neighbours are walled. */
  lemma Extract1Closed(p: Point)
    requires p in Extract1Cells
    ensures p !in Path1Walls && 0 < p.x < 8 && 0 < p.y < 5
    ensures Closed1(Point(p.x - 1, p.y)) && Closed1(Point(p.x + 1, p.y))
    ensures Closed1(Point(p.x, p.y - 1)) && Closed1(Point(p.x, p.y + 1))
  {
  }

  /** The expected cells form a fenced set of `path1`. */
  lemma Extract1Fenced(path: seq<Point>)
    requires forall p :: p in path <==> p in Path1Walls
    ensures Fenced(path, BoundingShapes.Rect(0, 0, 9, 6), Extract1Cells)
  {
    forall p | p in Extract1Cells
      ensures FencedCell(path, BoundingShapes.Rect(0, 0, 9, 6), Extract1Cells, p)
    {
      Extract1Closed(p);
    }
  }

  /** The free interior cells of `path1`: the expected ones and the two below the gap in its top row. */
  lemma Path1FreeInterior(p: Point)
    requires 0 < p.x < 8 && 0 < p.y < 5 && p !in Path1Walls
    ensures p in Extract1Cells || p == Point(4, 1) || p == Point(5, 1)
  {
    assert p.x == 1 || p.x == 2 || p.x == 3 || p.x == 4 || p.x == 5 || p.x == 6 || p.x == 7;
    assert p.y == 1 || p.y == 2 || p.y == 3 || p.y == 4;
  }

  /** (4, 1) and (5, 1) open onto the free border cells above them, so no fenced set holds them. */
  lemma Path1GapOpen(path: seq<Point>, s: set<Point>)
    requires forall p :: p in path <==> p in Path1Walls
    requires Fenced(path, BoundingShapes.Rect(0, 0, 9, 6), s)
    ensures Point(4, 1) !in s && Point(5, 1) !in s
  {
    var box := BoundingShapes.Rect(0, 0, 9, 6);
    assert Point(4, 0) !in path && Point(5, 0) !in path;
    assert Point(4, 0) in s ==> FencedCell(path, box, s, Point(4, 0));
    assert Point(5, 0) in s ==> FencedCell(path, box, s, Point(5, 0));
    assert Point(4, 1) in s ==> FencedCell(path, box, s, Point(4, 1));
    assert Point(5, 1) in s ==> FencedCell(path, box, s, Point(5, 1));
  }

  /** Every fenced set of `path1` lies among the expected cells. */
  lemma FencedWithinExtract1(path: seq<Point>, s: set<Point>)
    requires forall p :: p in path <==> p in Path1Walls
    requires Fenced(path, BoundingShapes.Rect(0, 0, 9, 6), s)
    ensures forall p :: p in s ==> p in Extract1Cells
  {
    Path1GapOpen(path, s);
    forall p | p in s
      ensures p in Extract1Cells
    {
      assert FencedCell(path, BoundingShapes.Rect(0, 0, 9, 6), s, p);
      Path1FreeInterior(p);
    }
  }

  /** The cells a path with `path1`'s cells encloses in its box are exactly the expected cells. */
  lemma EnclosedByPath1(path: seq<Point>)
    requires forall p :: p in path <==> p in Path1Walls
    ensures forall p :: Enclosed(path, BoundingShapes.Rect(0, 0, 9, 6), p) <==> p in Extract1Cells
  {
    var box := BoundingShapes.Rect(0, 0, 9, 6);
    forall p
      ensures Enclosed(path, box, p) <==> p in Extract1Cells
    {
      if p in Extract1Cells {
        Extract1Fenced(path);
      }
      if Enclosed(path, box, p) {
        var s :| p in s && Fenced(path, box, s);
        FencedWithinExtract1(path, s);
      }
    }
  }

  lemma Extract1InsideCells()
    ensures forall p :: p in Extract1Inside <==> p in Extract1Cells
  {
  }

  /**
   * The behaviour `complexExtract1` asks for: the cells strictly inside `path1` are
   * exactly its fourteen listed points, which are also exactly the cells its grid marks '-'.
   */
  lemma Extract1Enclosed()
    ensures ParseRows(Path1).Ok?
    ensures var d := ParseRows(Path1).value;
      forall p :: Enclosed(d.path, d.box, p) <==> p in Extract1Inside
    ensures var d := ParseRows(Path1).value;
      forall p :: p in d.inside <==> p in Extract1Inside
  {
    Path1Cells();
    var d := ParseRows(Path1).value;
    EnclosedByPath1(d.path);
    Extract1InsideCells();
    assert d.box == BoundingShapes.Rect(0, 0, 9, 6);
  }
}
