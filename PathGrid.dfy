/**
 * PointsInPolygonTest.kt: the older ASCII path grids, `x` for a path cell and `.` for
 * anything else, parsed into a point list and printed back.
 */
module PathGrid {
  import opened Wrappers
  import opened Points
  import opened Text
  import opened GridText
  import Ext

  /** How `parsePath` fails. */
  datatype ParseError =
    | MismatchedWidths        // the trimmed line lengths are not all equal
    | InvalidChar(c: char)    // "Invalid char $c in path gen"

  /** How `prettyString` fails. */
  datatype PrettyError =
    | EmptyOrTooLarge         // "pretty print is empty or too large"
    | MissingColumn(x: int)   // `getValue(x)` on a column no point lies in

  const PathMarks: set<char> := {'x', '.'}

  /** The lines' lengths once trimmed. */
  function TrimmedWidths(lines: seq<string>): (ws: seq<int>)
    ensures |ws| == |lines|
    ensures forall y :: 0 <= y < |lines| ==> ws[y] == |Trim(lines[y])|
  {
    seq(|lines|, y requires 0 <= y < |lines| => |Trim(lines[y])|)
  }

  predicate SameTrimmedWidth(lines: seq<string>)
    requires |lines| >= 1
  {
    forall y :: 0 <= y < |lines| ==> |Trim(lines[y])| == |Trim(lines[0])|
  }

  /** The scan of `parsePath` over the rows with spaces removed. */
  function PathOfRows(rows: seq<string>): Result<seq<Point>, ParseError> {
    match FirstOutside(rows, PathMarks)
    case Some(c) => Err(InvalidChar(c))
    case None => Ok(Cells(rows, 'x', |rows|))
  }

  /** `parsePath`: the 'x' cells of the grid in row-major order. */
  function ParsePath(s: string): Result<seq<Point>, ParseError> {
    if !SameTrimmedWidth(Lines(s)) then Err(MismatchedWidths) else PathOfRows(Rows(s))
  }

  /** When `parsePath` succeeds, and which points it lists. */
  lemma ParsePathMeaning(s: string)
    ensures ParsePath(s).Ok? <==> SameTrimmedWidth(Lines(s)) && AllIn(Rows(s), PathMarks)
    ensures ParsePath(s).Ok? ==>
      var rows, pts := Rows(s), ParsePath(s).value;
      && StrictlySorted(pts)
      && forall p :: p in pts <==> 0 <= p.y < |rows| && 0 <= p.x < |rows[p.y]| && rows[p.y][p.x] == 'x'
  {
    ParsePathOk(s);
    if ParsePath(s).Ok? {
      ParsePathPoints(s);
    }
  }

  lemma ParsePathPoints(s: string)
    requires ParsePath(s).Ok?
    ensures var rows, pts := Rows(s), ParsePath(s).value;
      && StrictlySorted(pts)
      && forall p :: p in pts <==> 0 <= p.y < |rows| && 0 <= p.x < |rows[p.y]| && rows[p.y][p.x] == 'x'
  {
    var rows := Rows(s);
    assert ParsePath(s).value == Cells(rows, 'x', |rows|);
    CellsSorted(rows, 'x', |rows|);
    CellsMembers(rows, 'x', |rows|);
  }

  lemma ParsePathOk(s: string)
    ensures ParsePath(s).Ok? <==> SameTrimmedWidth(Lines(s)) && AllIn(Rows(s), PathMarks)
  {
  }

  /** `parsePath`, line by line and character by character. */
  method ParsePathScan(s: string) returns (r: Result<seq<Point>, ParseError>)
    ensures r == ParsePath(s)
  {
    var lines := Lines(s);
    var widths := TrimmedWidths(lines);
    SingleValue(widths);
    if |set y | 0 <= y < |widths| :: widths[y]| != 1 {
      return Err(MismatchedWidths);
    }
    r := ScanPath(Rows(s));
  }

  /** The character-by-character part of `parsePath`. */
  method ScanPath(rows: seq<string>) returns (r: Result<seq<Point>, ParseError>)
    ensures r == PathOfRows(rows)
  {
    var points: seq<Point> := [];
    var y := 0;
    while y < |rows|
      invariant 0 <= y <= |rows|
      invariant points == Cells(rows, 'x', y)
      invariant forall j, i :: 0 <= j < y && 0 <= i < |rows[j]| ==> rows[j][i] in PathMarks
    {
      var line := rows[y];
      var added: seq<Point> := [];
      var x := 0;
      while x < |line|
        invariant 0 <= x <= |line|
        invariant added == RowCells(line, y, 'x', x)
        invariant forall i :: 0 <= i < x ==> line[i] in PathMarks
      {
        var c := line[x];
        if c == 'x' {
          added := added + [Point(x, y)];
        } else if c != '.' {
          AllInUpTo(rows, PathMarks, y);
          FirstOutsideAt(rows, PathMarks, x, y);
          return Err(InvalidChar(c));
        }
        x := x + 1;
      }
      points := points + added;
      y := y + 1;
    }
    AllInUpTo(rows, PathMarks, |rows|);
    assert rows[..|rows|] == rows;
    r := Ok(points);
  }

  // ---------------------------------------------------------------------------
  // prettyString

  /** Kotlin `maxOfOrNull`. */
  function MaxOfOrNull(vs: seq<int>): (r: Option<int>)
    ensures r.None? <==> vs == []
    ensures r.Some? ==> (exists i :: 0 <= i < |vs| && vs[i] == r.value) && forall i :: 0 <= i < |vs| ==> vs[i] <= r.value
    decreases |vs|
  {
    if vs == [] then None
    else
      match MaxOfOrNull(vs[1..])
      case None => Some(vs[0])
      case Some(m) => Some(if vs[0] < m then m else vs[0])
  }

  function Xs(pts: seq<Point>): (xs: seq<int>)
    ensures |xs| == |pts| && forall i :: 0 <= i < |pts| ==> xs[i] == pts[i].x
  {
    seq(|pts|, i requires 0 <= i < |pts| => pts[i].x)
  }

  function Ys(pts: seq<Point>): (ys: seq<int>)
    ensures |ys| == |pts| && forall i :: 0 <= i < |pts| ==> ys[i] == pts[i].y
  {
    seq(|pts|, i requires 0 <= i < |pts| => pts[i].y)
  }

  /** `maxOfOrNull { … }?.takeIf { it < 20 }`. */
  function Bound(vs: seq<int>): (r: Option<int>)
    ensures r.Some? <==> vs != [] && MaxOfOrNull(vs).value < 20
  {
    match MaxOfOrNull(vs)
    case Some(m) => if m < 20 then Some(m) else None
    case None => None
  }

  /** Some point lies in column x: what `coordGraph.getValue(x)` needs. */
  predicate HasColumn(pts: seq<Point>, x: int) {
    exists i :: 0 <= i < |pts| && pts[i].x == x
  }

  /** The first column from `x` to `maxX` that no point lies in. */
  function FirstMissing(pts: seq<Point>, x: int, maxX: int): (r: Option<int>)
    ensures r.None? <==> forall c :: x <= c <= maxX ==> HasColumn(pts, c)
    ensures r.Some? ==> x <= r.value <= maxX && !HasColumn(pts, r.value)
    ensures r.Some? ==> forall c :: x <= c < r.value ==> HasColumn(pts, c)
    decreases maxX - x
  {
    if x > maxX then None
    else if !HasColumn(pts, x) then Some(x)
    else FirstMissing(pts, x + 1, maxX)
  }

  /** A column without points, all columns before it having some, is the first missing one. */
  lemma FirstMissingIs(pts: seq<Point>, x: int, maxX: int)
    requires 0 <= x <= maxX && !HasColumn(pts, x)
    requires forall c :: 0 <= c < x ==> HasColumn(pts, c)
    ensures FirstMissing(pts, 0, maxX) == Some(x)
  {
  }

  /** The number of values in the range `0..m`. */
  function Count(m: int): nat {
    if m < 0 then 0 else m + 1
  }

  function CellOf(pts: seq<Point>, x: int, y: int): char {
    if Point(x, y) in pts then 'x' else '.'
  }

  lemma CellNotWhitespace(pts: seq<Point>, x: int, y: int)
    ensures !IsWhitespace(CellOf(pts, x, y))
  {
  }

  /** Row y up to its first n cells, each cell followed by a space. */
  function RowBody(pts: seq<Point>, y: int, n: nat): string
    decreases n
  {
    if n == 0 then "" else RowBody(pts, y, n - 1) + [CellOf(pts, n - 1, y)] + " "
  }

  /** The first m rows, each followed by a line break. */
  function Body(pts: seq<Point>, width: nat, m: nat): string
    decreases m
  {
    if m == 0 then "" else Body(pts, width, m - 1) + RowBody(pts, m - 1, width) + "\n"
  }

  /** `List<Point>.prettyString()`. */
  function PrettyPath(pts: seq<Point>): Result<string, PrettyError> {
    var boundX, boundY := Bound(Xs(pts)), Bound(Ys(pts));
    if boundX.None? || boundY.None? then Err(EmptyOrTooLarge)
    else
      var missing := FirstMissing(pts, 0, boundX.value);
      if boundY.value >= 0 && missing.Some? then Err(MissingColumn(missing.value))
      else Ok(Trim(Body(pts, Count(boundX.value), Count(boundY.value))))
  }

  /** When `prettyString` succeeds: a non-empty list, both maxima below 20, and no empty column before `maxX`. */
  lemma PrettyPathDefined(pts: seq<Point>)
    ensures PrettyPath(pts).Ok? <==>
      && pts != []
      && MaxOfOrNull(Xs(pts)).value < 20 && MaxOfOrNull(Ys(pts)).value < 20
      && (MaxOfOrNull(Ys(pts)).value >= 0 ==> forall c :: 0 <= c <= MaxOfOrNull(Xs(pts)).value ==> HasColumn(pts, c))
  {
  }

  /** `prettyString`, with its string builder and the column-to-rows index. */
  method PrettyString(pts: seq<Point>) returns (r: Result<string, PrettyError>)
    ensures r == PrettyPath(pts)
  {
    var boundX, boundY := Bound(Xs(pts)), Bound(Ys(pts));
    if boundX.None? || boundY.None? {
      return Err(EmptyOrTooLarge);
    }
    var maxX, maxY := boundX.value, boundY.value;
    var coordGraph := ColumnIndex(pts);
    var b := "";
    var y := 0;
    while y <= maxY
      invariant 0 <= y <= Count(maxY)
      invariant b == Body(pts, Count(maxX), y)
      invariant y > 0 ==> FirstMissing(pts, 0, maxX).None?
    {
      var row, missing := PrintRow(pts, coordGraph, y, maxX);
      if missing.Some? {
        assert PrettyPath(pts) == Err(MissingColumn(missing.value));
        return Err(MissingColumn(missing.value));
      }
      b := b + row + "\n";
      y := y + 1;
    }
    assert y == Count(maxY);
    assert PrettyPath(pts) == Ok(Trim(Body(pts, Count(maxX), y)));
    r := Ok(Trim(b));
  }

  /** `coordGraph` maps each column holding a point to the rows of the points in it. */
  ghost predicate Indexes(graph: Ext.LinkedSetMap<int, int>, pts: seq<Point>) {
    && (forall x :: x in graph.entries <==> HasColumn(pts, x))
    && (forall x, y :: x in graph.entries ==> (y in graph.entries[x] <==> Point(x, y) in pts))
  }

  /** `groupBySet({ it.x }, { it.y })`, seen through `Indexes`. */
  method ColumnIndex(pts: seq<Point>) returns (coordGraph: Ext.LinkedSetMap<int, int>)
    ensures Indexes(coordGraph, pts)
  {
    coordGraph := Ext.GroupBySet(pts, (p: Point) => p.x, (p: Point) => p.y);
    assert Indexes(coordGraph, pts) by {
      forall x ensures x in coordGraph.entries <==> HasColumn(pts, x) {
        if HasColumn(pts, x) {
          var i :| 0 <= i < |pts| && pts[i].x == x;
          assert ((p: Point) => p.x)(pts[i]) == x;
        }
      }
      forall x, y | x in coordGraph.entries ensures y in coordGraph.entries[x] <==> Point(x, y) in pts {
        assert coordGraph.Get(x) == coordGraph.entries[x];
        if Point(x, y) in pts {
          var i :| 0 <= i < |pts| && pts[i] == Point(x, y);
          assert ((p: Point) => p.x)(pts[i]) == x && ((p: Point) => p.y)(pts[i]) == y;
        }
      }
    }
  }

  /** One pass of the inner loop of `prettyString`: row y, or the first column `getValue` fails on. */
  method PrintRow(pts: seq<Point>, graph: Ext.LinkedSetMap<int, int>, y: int, maxX: int)
    returns (row: string, missing: Option<int>)
    requires Indexes(graph, pts)
    ensures missing.None? ==> row == RowBody(pts, y, Count(maxX)) && FirstMissing(pts, 0, maxX).None?
    ensures missing.Some? ==> missing == FirstMissing(pts, 0, maxX)
  {
    row := "";
    var x := 0;
    while x <= maxX
      invariant 0 <= x <= Count(maxX)
      invariant row == RowBody(pts, y, x)
      invariant forall c :: 0 <= c < x ==> HasColumn(pts, c)
    {
      if x !in graph.entries {
        FirstMissingIs(pts, x, maxX);
        return row, Some(x);
      }
      var c := if y in graph.entries[x] then 'x' else '.';
      assert c == CellOf(pts, x, y);
      row := row + [c] + " ";
      x := x + 1;
    }
    missing := None;
  }

  // ---------------------------------------------------------------------------
  // The round trip of `checkPathParse`

  /** A row without its last space. */
  function RowTrimmed(pts: seq<Point>, y: int, n: nat): string
    requires n >= 1
  {
    RowBody(pts, y, n - 1) + [CellOf(pts, n - 1, y)]
  }

  /** A printed row is two characters per cell, the cells at the even positions. */
  lemma RowBodyShape(pts: seq<Point>, y: int, n: nat)
    ensures |RowBody(pts, y, n)| == 2 * n
    ensures forall x :: 0 <= x < n ==> RowBody(pts, y, n)[2 * x] == CellOf(pts, x, y)
    ensures '\n' !in RowBody(pts, y, n) && '\r' !in RowBody(pts, y, n)
    ensures |RemoveSpaces(RowBody(pts, y, n))| == n
    ensures forall x :: 0 <= x < n ==> RemoveSpaces(RowBody(pts, y, n))[x] == CellOf(pts, x, y)
  {
    RowBodyLayout(pts, y, n);
    RowBodyCells(pts, y, n);
  }

  lemma {:induction false} RowBodyLayout(pts: seq<Point>, y: int, n: nat)
    ensures |RowBody(pts, y, n)| == 2 * n
    ensures forall x :: 0 <= x < n ==> RowBody(pts, y, n)[2 * x] == CellOf(pts, x, y)
    ensures '\n' !in RowBody(pts, y, n) && '\r' !in RowBody(pts, y, n)
    decreases n
  {
    if n > 0 {
      RowBodyLayout(pts, y, n - 1);
      assert RowBody(pts, y, n) == RowBody(pts, y, n - 1) + [CellOf(pts, n - 1, y)] + " ";
    }
  }

  lemma RowBodyCells(pts: seq<Point>, y: int, n: nat)
    ensures |RemoveSpaces(RowBody(pts, y, n))| == n
    ensures forall x :: 0 <= x < n ==> RemoveSpaces(RowBody(pts, y, n))[x] == CellOf(pts, x, y)
  {
    RowBodySpaceless(pts, y, n);
  }

  /** The cells of row y up to n. */
  function RowCellChars(pts: seq<Point>, y: int, n: nat): (r: string)
    ensures |r| == n && forall x :: 0 <= x < n ==> r[x] == CellOf(pts, x, y)
  {
    seq(n, x => CellOf(pts, x, y))
  }

  lemma {:induction false} RowBodySpaceless(pts: seq<Point>, y: int, n: nat)
    ensures RemoveSpaces(RowBody(pts, y, n)) == RowCellChars(pts, y, n)
    decreases n
  {
    if n > 0 {
      RowBodySpaceless(pts, y, n - 1);
      var init, c := RowBody(pts, y, n - 1), CellOf(pts, n - 1, y);
      RemoveSpacesCell(init, c, " ");
      assert RowCellChars(pts, y, n) == RowCellChars(pts, y, n - 1) + [c];
    }
  }

  /** A row without its last space: what `trim()` leaves of the last row, and of any row. */
  lemma RowTrimmedShape(pts: seq<Point>, y: int, n: nat)
    requires n >= 1
    ensures RowBody(pts, y, n) == RowTrimmed(pts, y, n) + " "
    ensures |RowTrimmed(pts, y, n)| == 2 * n - 1
    ensures Trim(RowTrimmed(pts, y, n)) == RowTrimmed(pts, y, n)
    ensures Trim(RowBody(pts, y, n)) == RowTrimmed(pts, y, n)
    ensures '\n' !in RowTrimmed(pts, y, n) && '\r' !in RowTrimmed(pts, y, n)
    ensures RemoveSpaces(RowTrimmed(pts, y, n)) == RemoveSpaces(RowBody(pts, y, n))
  {
    RowTrimmedLayout(pts, y, n);
    RowTrimmedTrim(pts, y, n);
    RemoveSpacesCell(RowBody(pts, y, n - 1), CellOf(pts, n - 1, y), " ");
    RemoveSpacesCell(RowBody(pts, y, n - 1), CellOf(pts, n - 1, y), "");
    assert RowTrimmed(pts, y, n) + "" == RowTrimmed(pts, y, n);
  }

  lemma RowTrimmedLayout(pts: seq<Point>, y: int, n: nat)
    requires n >= 1
    ensures RowBody(pts, y, n) == RowTrimmed(pts, y, n) + " "
    ensures |RowTrimmed(pts, y, n)| == 2 * n - 1
    ensures RowTrimmed(pts, y, n)[0] == CellOf(pts, 0, y)
    ensures RowTrimmed(pts, y, n)[2 * n - 2] == CellOf(pts, n - 1, y)
    ensures '\n' !in RowTrimmed(pts, y, n) && '\r' !in RowTrimmed(pts, y, n)
  {
    RowBodyLayout(pts, y, n);
    RowBodyLayout(pts, y, n - 1);
    assert RowTrimmed(pts, y, n)[0] == RowBody(pts, y, n)[0];
  }

  lemma RowTrimmedTrim(pts: seq<Point>, y: int, n: nat)
    requires n >= 1
    ensures Trim(RowTrimmed(pts, y, n)) == RowTrimmed(pts, y, n)
    ensures Trim(RowBody(pts, y, n)) == RowTrimmed(pts, y, n)
  {
    RowTrimmedLayout(pts, y, n);
    var t := RowTrimmed(pts, y, n);
    CellNotWhitespace(pts, 0, y);
    CellNotWhitespace(pts, n - 1, y);
    TrimKeeps(t);
    TrimEndWhitespace(t, ' ');
    assert RowBody(pts, y, n) == t + [' '];
    assert TrimEnd(RowBody(pts, y, n)) == t;
  }

  /** The first m printed rows, each ending in its space. */
  function Rows0(pts: seq<Point>, w: nat, m: nat): (ls: seq<string>)
    ensures |ls| == m
    ensures forall y :: 0 <= y < m ==> ls[y] == RowBody(pts, y, w)
  {
    if m == 0 then [] else Rows0(pts, w, m - 1) + [RowBody(pts, m - 1, w)]
  }

  /** The printed rows as the list of lines `trim()` leaves: every row but the last keeps its final space. */
  function PrintedLines(pts: seq<Point>, w: nat, h: nat): (ls: seq<string>)
    requires w >= 1 && h >= 1
    ensures |ls| == h
  {
    Rows0(pts, w, h - 1) + [RowTrimmed(pts, h - 1, w)]
  }

  /** The body is the rows joined by line breaks, plus a final line break. */
  lemma {:induction false} BodyJoin(pts: seq<Point>, w: nat, m: nat)
    requires m >= 1
    ensures Body(pts, w, m) == Join(Rows0(pts, w, m), '\n') + "\n"
    decreases m
  {
    if m > 1 {
      BodyJoin(pts, w, m - 1);
      assert Rows0(pts, w, m) == Rows0(pts, w, m - 1) + [RowBody(pts, m - 1, w)];
      JoinSnoc(Rows0(pts, w, m - 1), RowBody(pts, m - 1, w), '\n');
    } else {
      assert Body(pts, w, 0) == "";
    }
  }

  /** The body is the printed lines joined by line breaks, then the last row's space and line break. */
  lemma BodyAsPrinted(pts: seq<Point>, w: nat, h: nat)
    requires w >= 1 && h >= 1
    ensures Body(pts, w, h) == Join(PrintedLines(pts, w, h), '\n') + [' '] + ['\n']
  {
    BodyJoin(pts, w, h);
    var last := RowTrimmed(pts, h - 1, w);
    var init := Rows0(pts, w, h - 1);
    assert RowBody(pts, h - 1, w) == last + " ";
    assert Rows0(pts, w, h) == init + [last + " "];
    assert PrintedLines(pts, w, h) == init + [last];
    if h > 1 {
      JoinSnoc(init, last + " ", '\n');
      JoinSnoc(init, last, '\n');
      assert Join(Rows0(pts, w, h), '\n') == Join(init, '\n') + ['\n'] + last + " ";
      assert Join(PrintedLines(pts, w, h), '\n') == Join(init, '\n') + ['\n'] + last;
    } else {
      assert Join(Rows0(pts, w, h), '\n') == last + " ";
      assert Join(PrintedLines(pts, w, h), '\n') == last;
    }
  }

  /** Trimming the body leaves the printed lines joined by line breaks. */
  lemma TrimBody(pts: seq<Point>, w: nat, h: nat)
    requires w >= 1 && h >= 1
    ensures Trim(Body(pts, w, h)) == Join(PrintedLines(pts, w, h), '\n')
  {
    var joined := Join(PrintedLines(pts, w, h), '\n');
    BodyAsPrinted(pts, w, h);
    TrimEndWhitespace(joined + [' '], '\n');
    TrimEndWhitespace(joined, ' ');
    PrintedEnds(pts, w, h);
    TrimKeeps(joined);
  }

  /** The printed lines, joined, start and end with a cell character. */
  lemma PrintedEnds(pts: seq<Point>, w: nat, h: nat)
    requires w >= 1 && h >= 1
    ensures var joined := Join(PrintedLines(pts, w, h), '\n');
      joined != [] && !IsWhitespace(joined[0]) && !IsWhitespace(joined[|joined| - 1])
  {
    var ls := PrintedLines(pts, w, h);
    forall y | 0 <= y < h ensures ls[y] != [] {
      PrintedLine(pts, w, h, y);
    }
    JoinEnds(ls);
    assert ls[0][0] == CellOf(pts, 0, 0) by {
      if h > 1 {
        RowBodyShape(pts, 0, w);
        assert ls[0] == RowBody(pts, 0, w);
      } else if w > 1 {
        RowBodyShape(pts, 0, w - 1);
        assert ls[0] == RowBody(pts, 0, w - 1) + [CellOf(pts, w - 1, 0)];
      } else {
        assert ls[0] == "" + [CellOf(pts, 0, 0)];
      }
    }
    assert ls[h - 1] == RowTrimmed(pts, h - 1, w);
  }

  /** The outer characters of joined lines are those of the first and the last line. */
  lemma {:induction false} JoinEnds(ls: seq<string>)
    requires |ls| >= 1 && forall i :: 0 <= i < |ls| ==> ls[i] != []
    ensures Join(ls, '\n') != []
    ensures Join(ls, '\n')[0] == ls[0][0]
    ensures Join(ls, '\n')[|Join(ls, '\n')| - 1] == ls[|ls| - 1][|ls[|ls| - 1]| - 1]
    decreases |ls|
  {
    if |ls| > 1 {
      JoinEnds(ls[1..]);
    }
  }

  /** The pretty text, read back: its rows without spaces are the cells of the w × h window. */
  lemma PrintedRows(pts: seq<Point>, w: nat, h: nat)
    requires w >= 1 && h >= 1
    ensures Lines(Trim(Body(pts, w, h))) == PrintedLines(pts, w, h)
    ensures SameTrimmedWidth(PrintedLines(pts, w, h))
    ensures |Rows(Trim(Body(pts, w, h)))| == h
    ensures forall y :: 0 <= y < h ==> |Rows(Trim(Body(pts, w, h)))[y]| == w
    ensures forall y, x :: 0 <= y < h && 0 <= x < w ==> Rows(Trim(Body(pts, w, h)))[y][x] == CellOf(pts, x, y)
  {
    PrintedLinesOf(pts, w, h);
    var ls := PrintedLines(pts, w, h);
    var rows := Rows(Trim(Body(pts, w, h)));
    forall y | 0 <= y < h
      ensures |Trim(ls[y])| == 2 * w - 1
      ensures |rows[y]| == w
      ensures forall x :: 0 <= x < w ==> rows[y][x] == CellOf(pts, x, y)
    {
      PrintedLine(pts, w, h, y);
      assert rows[y] == RemoveSpaces(ls[y]);
    }
  }

  /** The lines of a print are the printed lines. */
  lemma PrintedLinesOf(pts: seq<Point>, w: nat, h: nat)
    requires w >= 1 && h >= 1
    ensures Lines(Trim(Body(pts, w, h))) == PrintedLines(pts, w, h)
  {
    TrimBody(pts, w, h);
    var ls := PrintedLines(pts, w, h);
    forall y | 0 <= y < h ensures '\n' !in ls[y] && '\r' !in ls[y] {
      PrintedLine(pts, w, h, y);
    }
    LinesOfJoin(ls);
  }

  /** One printed line: a single line, of trimmed length 2w - 1, whose characters without spaces are the cells. */
  lemma PrintedLine(pts: seq<Point>, w: nat, h: nat, y: int)
    requires w >= 1 && 0 <= y < h
    ensures var l := PrintedLines(pts, w, h)[y];
      && '\n' !in l && '\r' !in l
      && |Trim(l)| == 2 * w - 1
      && |RemoveSpaces(l)| == w
      && forall x :: 0 <= x < w ==> RemoveSpaces(l)[x] == CellOf(pts, x, y)
  {
    RowBodyShape(pts, y, w);
    RowTrimmedShape(pts, y, w);
    if y < h - 1 {
      assert PrintedLines(pts, w, h)[y] == Rows0(pts, w, h - 1)[y] == RowBody(pts, y, w);
    } else {
      assert PrintedLines(pts, w, h)[y] == RowTrimmed(pts, y, w);
    }
  }

  /** A parsed path lies in the quadrant x, y >= 0. */
  lemma ParsedNonNegative(s: string, p: Point)
    requires ParsePath(s).Ok? && p in ParsePath(s).value
    ensures p.x >= 0 && p.y >= 0
  {
    ParsePathMeaning(s);
  }

  /** The print of a parsed path, when there is one: the window (0, 0) to (maxX, maxY) holds every point. */
  lemma PrettyOfParsed(s: string)
    requires ParsePath(s).Ok? && PrettyPath(ParsePath(s).value).Ok?
    ensures var pts := ParsePath(s).value;
      var w, h := Count(Bound(Xs(pts)).value), Count(Bound(Ys(pts)).value);
      && w >= 1 && h >= 1
      && PrettyPath(pts) == Ok(Trim(Body(pts, w, h)))
      && forall p :: p in pts ==> 0 <= p.x < w && 0 <= p.y < h
  {
    var pts := ParsePath(s).value;
    forall p | p in pts ensures p.x >= 0 && p.y >= 0 {
      ParsedNonNegative(s, p);
    }
    PrettyWindow(pts);
  }

  /** A printable list of points with no negative coordinate: its window holds every point. */
  lemma PrettyWindow(pts: seq<Point>)
    requires PrettyPath(pts).Ok?
    requires forall p :: p in pts ==> p.x >= 0 && p.y >= 0
    ensures var w, h := Count(Bound(Xs(pts)).value), Count(Bound(Ys(pts)).value);
      && w >= 1 && h >= 1
      && PrettyPath(pts) == Ok(Trim(Body(pts, w, h)))
      && forall p :: p in pts ==> 0 <= p.x < w && 0 <= p.y < h
  {
    var maxX, maxY := Bound(Xs(pts)).value, Bound(Ys(pts)).value;
    var j :| 0 <= j < |pts| && Ys(pts)[j] == maxY;
    assert pts[j] in pts;
    forall p | p in pts ensures p.x <= maxX && p.y <= maxY {
      var k :| 0 <= k < |pts| && pts[k] == p;
      assert Xs(pts)[k] <= maxX && Ys(pts)[k] <= maxY;
    }
  }

  /** Parsing a print gives the points of the window, in row-major order. */
  lemma ParsePrinted(pts: seq<Point>, w: nat, h: nat)
    requires w >= 1 && h >= 1
    ensures ParsePath(Trim(Body(pts, w, h))).Ok?
    ensures var parsed := ParsePath(Trim(Body(pts, w, h))).value;
      && StrictlySorted(parsed)
      && forall p :: p in parsed <==> 0 <= p.x < w && 0 <= p.y < h && p in pts
  {
    var t := Trim(Body(pts, w, h));
    PrintedParses(pts, w, h);
    PrintedRows(pts, w, h);
    var rows := Rows(t);
    assert ParsePath(t).value == Cells(rows, 'x', |rows|);
    CellsSorted(rows, 'x', |rows|);
    WindowCells(rows, pts, w, h);
  }

  /** The 'x' cells of rows showing the w × h window of a point list are the points in that window. */
  lemma WindowCells(rows: seq<string>, pts: seq<Point>, w: nat, h: nat)
    requires |rows| == h
    requires forall y :: 0 <= y < h ==> |rows[y]| == w
    requires forall y, x :: 0 <= y < h && 0 <= x < w ==> rows[y][x] == CellOf(pts, x, y)
    ensures forall p :: p in Cells(rows, 'x', h) <==> 0 <= p.x < w && 0 <= p.y < h && p in pts
  {
    CellsMembers(rows, 'x', h);
    forall p ensures p in Cells(rows, 'x', h) <==> 0 <= p.x < w && 0 <= p.y < h && p in pts {
      if 0 <= p.x < w && 0 <= p.y < h {
        assert rows[p.y][p.x] == CellOf(pts, p.x, p.y);
      }
    }
  }

  /** A print passes both checks of `parsePath`. */
  lemma PrintedParses(pts: seq<Point>, w: nat, h: nat)
    requires w >= 1 && h >= 1
    ensures ParsePath(Trim(Body(pts, w, h))).Ok?
  {
    var t := Trim(Body(pts, w, h));
    PrintedRows(pts, w, h);
    var rows := Rows(t);
    assert SameTrimmedWidth(Lines(t));
    forall y, x | 0 <= y < |rows| && 0 <= x < |rows[y]| ensures rows[y][x] in PathMarks {
      assert rows[y][x] == CellOf(pts, x, y);
    }
    assert AllIn(rows, PathMarks);
  }

  /** Printing a parsed path and parsing the print gives the same path back, whenever the print succeeds. */
  lemma RoundTrip(s: string)
    requires ParsePath(s).Ok? && PrettyPath(ParsePath(s).value).Ok?
    ensures ParsePath(PrettyPath(ParsePath(s).value).value) == ParsePath(s)
  {
    var pts := ParsePath(s).value;
    PrettyOfParsed(s);
    ParsePathPoints(s);
    var w, h := Count(Bound(Xs(pts)).value), Count(Bound(Ys(pts)).value);
    PrintedWindow(pts, w, h);
  }

  /** A sorted point list that fits its window is exactly what parsing its print gives. */
  lemma PrintedWindow(pts: seq<Point>, w: nat, h: nat)
    requires w >= 1 && h >= 1 && StrictlySorted(pts)
    requires forall p :: p in pts ==> 0 <= p.x < w && 0 <= p.y < h
    ensures ParsePath(Trim(Body(pts, w, h))) == Ok(pts)
  {
    ParsePrinted(pts, w, h);
    var q := ParsePath(Trim(Body(pts, w, h))).value;
    StrictlySortedUnique(q, pts);
  }

  /** The `basicParse` example, once each line has lost its spaces: seven points in row-major order. */
  lemma BasicParse()
    ensures PathOfRows(["xxx", "x.x", "x.x"]) ==
      Ok([Point(0, 0), Point(1, 0), Point(2, 0), Point(0, 1), Point(2, 1), Point(0, 2), Point(2, 2)])
  {
    BasicMarks();
    BasicCells();
  }

  lemma BasicMarks()
    ensures FirstOutside(["xxx", "x.x", "x.x"], PathMarks) == None
  {
    assert AllIn(["xxx", "x.x", "x.x"], PathMarks);
  }

  lemma BasicCells()
    ensures Cells(["xxx", "x.x", "x.x"], 'x', 3) ==
      [Point(0, 0), Point(1, 0), Point(2, 0), Point(0, 1), Point(2, 1), Point(0, 2), Point(2, 2)]
  {
    var rows := ["xxx", "x.x", "x.x"];
    assert RowCells(rows[0], 0, 'x', 3) == [Point(0, 0), Point(1, 0), Point(2, 0)];
    assert RowCells(rows[1], 1, 'x', 3) == [Point(0, 1), Point(2, 1)];
    assert RowCells(rows[2], 2, 'x', 3) == [Point(0, 2), Point(2, 2)];
    assert Cells(rows, 'x', 1) == [Point(0, 0), Point(1, 0), Point(2, 0)];
    assert Cells(rows, 'x', 2) == [Point(0, 0), Point(1, 0), Point(2, 0), Point(0, 1), Point(2, 1)];
  }
}
