/**
 * The character-grid layout both test files read: the lines of a text with spaces
 * removed, where the character at index x of line y stands for the cell (x, y).
 */
module GridText {
  import opened Wrappers
  import opened Points
  import opened Text

  /** `lines()`, each with `replace(" ", "")` applied. */
  function Rows(s: string): (rows: seq<string>)
    ensures |rows| == |Lines(s)| >= 1
    ensures forall y :: 0 <= y < |rows| ==> rows[y] == RemoveSpaces(Lines(s)[y])
  {
    var ls := Lines(s);
    seq(|ls|, y requires 0 <= y < |ls| => RemoveSpaces(ls[y]))
  }

  /** The cells (x, y) among the first n of `row` whose character is c, left to right. */
  function RowCells(row: string, y: int, c: char, n: int): seq<Point>
    requires 0 <= n <= |row|
    decreases n
  {
    if n == 0 then [] else RowCells(row, y, c, n - 1) + (if row[n - 1] == c then [Point(n - 1, y)] else [])
  }

  /** The cells of the first m rows whose character is c, in row-major order. */
  function Cells(rows: seq<string>, c: char, m: int): seq<Point>
    requires 0 <= m <= |rows|
    decreases m
  {
    if m == 0 then [] else Cells(rows, c, m - 1) + RowCells(rows[m - 1], m - 1, c, |rows[m - 1]|)
  }

  lemma {:induction false} RowCellsMembers(row: string, y: int, c: char, n: int)
    requires 0 <= n <= |row|
    ensures forall p :: p in RowCells(row, y, c, n) <==> p.y == y && 0 <= p.x < n && row[p.x] == c
    decreases n
  {
    if n > 0 {
      RowCellsMembers(row, y, c, n - 1);
    }
  }

  /** A row's cells come left to right. */
  lemma {:induction false} RowCellsSorted(row: string, y: int, c: char, n: int)
    requires 0 <= n <= |row|
    ensures StrictlySorted(RowCells(row, y, c, n))
    decreases n
  {
    if n > 0 {
      var init := RowCells(row, y, c, n - 1);
      RowCellsSorted(row, y, c, n - 1);
      RowCellsMembers(row, y, c, n - 1);
      if row[n - 1] == c {
        forall i | 0 <= i < |init| ensures Before(init[i], Point(n - 1, y)) {
          assert init[i] in init;
        }
        SortedConcat(init, [Point(n - 1, y)]);
      } else {
        assert RowCells(row, y, c, n) == init;
      }
    }
  }

  /** The cells of the rows come in row-major order. */
  lemma {:induction false} CellsSorted(rows: seq<string>, c: char, m: int)
    requires 0 <= m <= |rows|
    ensures StrictlySorted(Cells(rows, c, m))
    decreases m
  {
    if m > 0 {
      var init := Cells(rows, c, m - 1);
      var row := RowCells(rows[m - 1], m - 1, c, |rows[m - 1]|);
      CellsSorted(rows, c, m - 1);
      CellsMembers(rows, c, m - 1);
      RowCellsSorted(rows[m - 1], m - 1, c, |rows[m - 1]|);
      RowCellsMembers(rows[m - 1], m - 1, c, |rows[m - 1]|);
      forall i, j | 0 <= i < |init| && 0 <= j < |row| ensures Before(init[i], row[j]) {
        assert init[i] in init && row[j] in row;
      }
      SortedConcat(init, row);
    }
  }

  /** A cell is listed exactly when its character is c. */
  lemma {:induction false} CellsMembers(rows: seq<string>, c: char, m: int)
    requires 0 <= m <= |rows|
    ensures forall p :: p in Cells(rows, c, m) <==> 0 <= p.y < m && 0 <= p.x < |rows[p.y]| && rows[p.y][p.x] == c
    decreases m
  {
    if m > 0 {
      var init := Cells(rows, c, m - 1);
      var row := RowCells(rows[m - 1], m - 1, c, |rows[m - 1]|);
      CellsMembers(rows, c, m - 1);
      RowCellsMembers(rows[m - 1], m - 1, c, |rows[m - 1]|);
      assert Cells(rows, c, m) == init + row;
      forall p: Point | 0 <= p.y < m && 0 <= p.x < |rows[p.y]| && rows[p.y][p.x] == c
        ensures p in init + row
      {
        if p.y < m - 1 { assert p in init; } else { assert p in row; }
      }
    }
  }

  /** Every character of the rows is in `allowed`. */
  ghost predicate AllIn(rows: seq<string>, allowed: set<char>) {
    forall y, x :: 0 <= y < |rows| && 0 <= x < |rows[y]| ==> rows[y][x] in allowed
  }

  /** The first character of `row` outside `allowed`. */
  function FirstOutsideRow(row: string, allowed: set<char>): (r: Option<char>)
    ensures r.None? <==> forall x :: 0 <= x < |row| ==> row[x] in allowed
    ensures r.Some? ==> r.value !in allowed && r.value in row
    decreases |row|
  {
    if row == [] then None
    else if row[0] !in allowed then Some(row[0])
    else FirstOutsideRow(row[1..], allowed)
  }

  /** The first character, row by row, outside `allowed`: what a row-major scan that stops at it reports. */
  function FirstOutside(rows: seq<string>, allowed: set<char>): (r: Option<char>)
    ensures r.None? <==> AllIn(rows, allowed)
    ensures r.Some? ==> r.value !in allowed
    decreases |rows|
  {
    if rows == [] then None
    else
      match FirstOutsideRow(rows[0], allowed)
      case Some(c) => Some(c)
      case None =>
        var r := FirstOutside(rows[1..], allowed);
        assert AllIn(rows[1..], allowed) ==> AllIn(rows, allowed) by {
          if AllIn(rows[1..], allowed) {
            forall y, x | 0 <= y < |rows| && 0 <= x < |rows[y]| ensures rows[y][x] in allowed {
              if y > 0 { assert rows[y] == rows[1..][y - 1]; }
            }
          }
        }
        r
  }

  lemma {:induction false} FirstOutsideRowAt(row: string, allowed: set<char>, x: int)
    requires 0 <= x < |row| && row[x] !in allowed
    requires forall i :: 0 <= i < x ==> row[i] in allowed
    ensures FirstOutsideRow(row, allowed) == Some(row[x])
    decreases x
  {
    if x > 0 {
      FirstOutsideRowAt(row[1..], allowed, x - 1);
    }
  }

  /** A scan that meets its first disallowed character at (x, y) reports that character. */
  lemma {:induction false} FirstOutsideAt(rows: seq<string>, allowed: set<char>, x: int, y: int)
    requires 0 <= y < |rows| && 0 <= x < |rows[y]| && rows[y][x] !in allowed
    requires AllIn(rows[..y], allowed)
    requires forall i :: 0 <= i < x ==> rows[y][i] in allowed
    ensures FirstOutside(rows, allowed) == Some(rows[y][x])
    decreases y
  {
    if y == 0 {
      FirstOutsideRowAt(rows[0], allowed, x);
    } else {
      assert FirstOutsideRow(rows[0], allowed).None? by {
        assert forall i :: 0 <= i < |rows[0]| ==> rows[..y][0][i] == rows[0][i];
      }
      var tail := rows[1..][..y - 1];
      assert AllIn(tail, allowed) by {
        forall j | 0 <= j < y - 1
          ensures forall i :: 0 <= i < |tail[j]| ==> tail[j][i] in allowed
        {
          assert tail[j] == rows[..y][j + 1];
        }
      }
      FirstOutsideAt(rows[1..], allowed, x, y - 1);
    }
  }

  /** A list of widths turned into a set has one element exactly when every width equals the first. */
  lemma SingleValue(ws: seq<int>)
    requires |ws| >= 1
    ensures |(set y | 0 <= y < |ws| :: ws[y])| == 1 <==> forall y :: 0 <= y < |ws| ==> ws[y] == ws[0]
  {
    var values := set y | 0 <= y < |ws| :: ws[y];
    if forall y :: 0 <= y < |ws| ==> ws[y] == ws[0] {
      assert values == {ws[0]};
    } else {
      var y :| 0 <= y < |ws| && ws[y] != ws[0];
      var rest := values - {ws[0]};
      assert ws[y] in rest;
      assert values == rest + {ws[0]};
      assert |values| == |rest| + 1 >= 2;
    }
  }

  /** The rows before y all hold only allowed characters. */
  lemma AllInUpTo(rows: seq<string>, allowed: set<char>, y: int)
    requires 0 <= y <= |rows|
    requires forall j, i :: 0 <= j < y && 0 <= i < |rows[j]| ==> rows[j][i] in allowed
    ensures AllIn(rows[..y], allowed)
  {
    forall j, i | 0 <= j < y && 0 <= i < |rows[..y][j]| ensures rows[..y][j][i] in allowed {
      assert rows[..y][j] == rows[j];
    }
  }
}
