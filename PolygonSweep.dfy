/**
 * The resolver of PolygonData.kt stated over values: the grid of cell states, the row
 * sweep with its one-level column fallback, the full resolve, and the extraction of
 * the interior, with what each of them guarantees. The class in PolygonData.dfy runs
 * the same sweeps in place over a 2-D array and is proved equal to these functions.
 */
module PolygonSweep {
  import opened Wrappers
  import opened Points

  /** `PointState`: whether a cell counts as inside, and whether it lies on the path. */
  datatype PointState = PointState(inside: bool, edge: bool)

  /** `polygonStatus.data`, indexed [x][y]; `None` is a cell not resolved yet. */
  type Grid = seq<seq<Option<PointState>>>

  /** What the sweeps read besides the grid: its size and the column-to-rows index of the offset path. */
  datatype Frame = Frame(sizeX: nat, sizeY: nat, graph: map<int, set<int>>)

  /** The exceptions a resolve can end with. */
  datatype Failure =
    | EdgeNotResolved(at: Point)    // "Edge along row at (x, y) not resolved"
    | IndexOutOfBounds(at: Point)   // the first lookup of a row when the grid has no columns

  /** `isEdge(x, y)`: `coordGraph[x]?.contains(y) == true`. */
  predicate IsEdge(f: Frame, x: int, y: int) {
    x in f.graph && y in f.graph[x]
  }

  predicate InGrid(f: Frame, x: int, y: int) {
    0 <= x < f.sizeX && 0 <= y < f.sizeY
  }

  ghost predicate Shaped(f: Frame, g: Grid) {
    |g| == f.sizeX && forall x :: 0 <= x < |g| ==> |g[x]| == f.sizeY
  }

  /** The grid as `PolygonStatus` allocates it: every cell null. */
  function Blank(f: Frame): (g: Grid)
    ensures Shaped(f, g)
    ensures forall x, y :: InGrid(f, x, y) ==> g[x][y].None?
  {
    seq(f.sizeX, _ => seq(f.sizeY, _ => None))
  }

  /** `polygonStatus[point] = state`. */
  function Write(f: Frame, g: Grid, x: int, y: int, s: PointState): (r: Grid)
    requires Shaped(f, g) && InGrid(f, x, y)
    ensures Shaped(f, r)
    ensures forall i, j :: InGrid(f, i, j) ==> r[i][j] == (if i == x && j == y then Some(s) else g[i][j])
  {
    g[x := g[x][y := Some(s)]]
  }

  /** Grids of the frame's shape are equal when their cells are. */
  lemma GridsEqual(f: Frame, g: Grid, h: Grid)
    requires Shaped(f, g) && Shaped(f, h)
    requires forall x, y :: InGrid(f, x, y) ==> g[x][y] == h[x][y]
    ensures g == h
  {
    forall x | 0 <= x < f.sizeX
      ensures g[x] == h[x]
    {
      assert forall y :: 0 <= y < f.sizeY ==> g[x][y] == h[x][y];
    }
  }

  /** `isEdge(next(point))`: whether the following cell of the sweep is an edge; false past the end. */
  predicate NextIsEdge(f: Frame, x: int, y: int, alongRow: bool) {
    if alongRow then x < f.sizeX - 1 && IsEdge(f, x + 1, y)
    else y < f.sizeY - 1 && IsEdge(f, x, y + 1)
  }

  /** The classification of an unresolved cell; `None` is an edge aligned with the ray. */
  function Decide(f: Frame, x: int, y: int, prevInside: bool, nextIsEdge: bool): Option<bool> {
    if !IsEdge(f, x, y) then Some(prevInside)
    else if x == 0 || y == 0 then Some(true)
    else if nextIsEdge then None
    else Some(!prevInside)
  }

  /**
   * `resolveCol(x)` from row y on: the fallback sweep. Its own fallback answers false,
   * so an aligned edge ends the sweep without writing anything.
   */
  function ColFrom(f: Frame, g: Grid, x: int, y: int, prevInside: bool): (r: Grid)
    requires Shaped(f, g) && InGrid(f, x, y)
    ensures Shaped(f, r)
    decreases f.sizeY - y
  {
    var last := y == f.sizeY - 1;
    match g[x][y]
    case Some(s) => if last then g else ColFrom(f, g, x, y + 1, s.inside)
    case None =>
      match Decide(f, x, y, prevInside, NextIsEdge(f, x, y, false))
      case None => g
      case Some(b) =>
        var h: Grid := Write(f, g, x, y, PointState(b, IsEdge(f, x, y)));
        if last then h else ColFrom(f, h, x, y + 1, b)
  }

  /**
   * One iteration of the row sweep at (x, y): the grid afterwards and the cell's inside
   * flag, or None when it is an aligned edge that the column sweep of its column,
   * run from the top, left null.
   */
  function RowStep(f: Frame, g: Grid, x: int, y: int, prevInside: bool): (r: (Grid, Option<bool>))
    requires Shaped(f, g) && InGrid(f, x, y)
    ensures Shaped(f, r.0)
  {
    match g[x][y]
    case Some(s) => (g, Some(s.inside))
    case None =>
      match Decide(f, x, y, prevInside, NextIsEdge(f, x, y, true))
      case None =>
        var h := ColFrom(f, g, x, 0, false);
        (h, if h[x][y].Some? then Some(h[x][y].value.inside) else None)
      case Some(b) => (Write(f, g, x, y, PointState(b, IsEdge(f, x, y))), Some(b))
  }

  /** `resolveRow(y)` from column x on. */
  function RowFrom(f: Frame, g: Grid, x: int, y: int, prevInside: bool): (r: (Grid, Option<Failure>))
    requires Shaped(f, g) && InGrid(f, x, y)
    ensures Shaped(f, r.0)
    decreases f.sizeX - x
  {
    var (h, inside) := RowStep(f, g, x, y, prevInside);
    if inside.None? then (h, Some(EdgeNotResolved(Point(x, y))))
    else if x == f.sizeX - 1 then (h, None)
    else RowFrom(f, h, x + 1, y, inside.value)
  }

  /** `resolveRow(y)`, which starts at column 0 and so cannot start at all in a grid with no columns. */
  function Row(f: Frame, g: Grid, y: int): (r: (Grid, Option<Failure>))
    requires Shaped(f, g) && 0 <= y < f.sizeY
    ensures Shaped(f, r.0)
  {
    if f.sizeX == 0 then (g, Some(IndexOutOfBounds(Point(0, y))))
    else RowFrom(f, g, 0, y, false)
  }

  /** `resolve()` from row y on: the rows in order, stopping at the first exception. */
  function ResolveFrom(f: Frame, g: Grid, y: int): (r: (Grid, Option<Failure>))
    requires Shaped(f, g) && 0 <= y <= f.sizeY
    ensures Shaped(f, r.0)
    decreases f.sizeY - y
  {
    if y == f.sizeY then (g, None)
    else
      var (h, failure) := Row(f, g, y);
      if failure.Some? then (h, failure) else ResolveFrom(f, h, y + 1)
  }

  /** A first resolve, on the grid as allocated. */
  function Resolve(f: Frame): (r: (Grid, Option<Failure>))
    ensures Shaped(f, r.0)
  {
    ResolveFrom(f, Blank(f), 0)
  }

  // ---------------------------------------------------------------------------
  // What the sweeps keep true

  /** `h` only adds to `g`: no resolved cell is ever overwritten. */
  ghost predicate Extends(f: Frame, g: Grid, h: Grid)
    requires Shaped(f, g) && Shaped(f, h)
  {
    forall x, y :: InGrid(f, x, y) && g[x][y].Some? ==> h[x][y] == g[x][y]
  }

  /** The inside flag of the cell before (x, y) along the axis; false before the first cell, None while unresolved. */
  function Prev(f: Frame, g: Grid, x: int, y: int, alongRow: bool): Option<bool>
    requires Shaped(f, g) && InGrid(f, x, y)
  {
    if alongRow then
      if x == 0 then Some(false) else if g[x - 1][y].Some? then Some(g[x - 1][y].value.inside) else None
    else
      if y == 0 then Some(false) else if g[x][y - 1].Some? then Some(g[x][y - 1].value.inside) else None
  }

  /** The resolved cell (x, y) is what the classification gives from its resolved predecessor on the axis. */
  predicate Follows(f: Frame, g: Grid, x: int, y: int, alongRow: bool)
    requires Shaped(f, g) && InGrid(f, x, y) && g[x][y].Some?
  {
    var p := Prev(f, g, x, y, alongRow);
    p.Some? && Decide(f, x, y, p.value, NextIsEdge(f, x, y, alongRow)) == Some(g[x][y].value.inside)
  }

  /** Every resolved cell carries the right edge flag and follows the classification along its row or its column. */
  ghost predicate Consistent(f: Frame, g: Grid)
    requires Shaped(f, g)
  {
    forall x, y :: InGrid(f, x, y) && g[x][y].Some? ==>
      g[x][y].value.edge == IsEdge(f, x, y) && (Follows(f, g, x, y, true) || Follows(f, g, x, y, false))
  }

  /** Nothing resolved yet contradicts nothing. */
  lemma BlankConsistent(f: Frame)
    ensures Consistent(f, Blank(f))
  {
  }

  ghost predicate Complete(f: Frame, g: Grid)
    requires Shaped(f, g)
  {
    forall x, y :: InGrid(f, x, y) ==> g[x][y].Some?
  }

  /** An exception the sweep can end with: a row that cannot start, or an aligned edge the fallback left null. */
  predicate Explains(f: Frame, g: Grid, failure: Failure, fromRow: int)
    requires Shaped(f, g)
  {
    match failure
    case IndexOutOfBounds(p) => f.sizeX == 0 && p.x == 0 && fromRow <= p.y < f.sizeY
    case EdgeNotResolved(p) =>
      && InGrid(f, p.x, p.y) && fromRow <= p.y && g[p.x][p.y].None?
      && IsEdge(f, p.x, p.y) && p.x != 0 && p.y != 0 && NextIsEdge(f, p.x, p.y, true)
  }

  lemma ExtendsTransitive(f: Frame, a: Grid, b: Grid, c: Grid)
    requires Shaped(f, a) && Shaped(f, b) && Shaped(f, c)
    requires Extends(f, a, b) && Extends(f, b, c)
    ensures Extends(f, a, c)
  {
  }

  /** A cell that follows its predecessor still does once the grid has only gained cells. */
  lemma FollowsKept(f: Frame, g: Grid, h: Grid, x: int, y: int, alongRow: bool)
    requires Shaped(f, g) && Shaped(f, h) && InGrid(f, x, y) && g[x][y].Some?
    requires Extends(f, g, h) && Follows(f, g, x, y, alongRow)
    ensures h[x][y] == g[x][y] && Follows(f, h, x, y, alongRow)
  {
    assert Prev(f, h, x, y, alongRow) == Prev(f, g, x, y, alongRow);
  }

  /** Writing the classification of an unresolved cell keeps the grid consistent and overwrites nothing. */
  lemma WriteKeepsConsistent(f: Frame, g: Grid, x: int, y: int, b: bool, alongRow: bool)
    requires Shaped(f, g) && InGrid(f, x, y) && Consistent(f, g) && g[x][y].None?
    requires Prev(f, g, x, y, alongRow).Some?
    requires Decide(f, x, y, Prev(f, g, x, y, alongRow).value, NextIsEdge(f, x, y, alongRow)) == Some(b)
    ensures var h := Write(f, g, x, y, PointState(b, IsEdge(f, x, y)));
      Extends(f, g, h) && Consistent(f, h)
  {
    var h: Grid := Write(f, g, x, y, PointState(b, IsEdge(f, x, y)));
    forall i, j | InGrid(f, i, j) && h[i][j].Some?
      ensures h[i][j].value.edge == IsEdge(f, i, j) && (Follows(f, h, i, j, true) || Follows(f, h, i, j, false))
    {
      if i == x && j == y {
        assert Prev(f, h, x, y, alongRow) == Prev(f, g, x, y, alongRow);
      } else if Follows(f, g, i, j, true) {
        FollowsKept(f, g, h, i, j, true);
      } else {
        FollowsKept(f, g, h, i, j, false);
      }
    }
  }

  /** The column sweep only adds consistent cells, and only to its own column at or below where it starts. */
  lemma {:induction false} ColSound(f: Frame, g: Grid, x: int, y: int, prevInside: bool)
    requires Shaped(f, g) && InGrid(f, x, y) && Consistent(f, g)
    requires Prev(f, g, x, y, false) == Some(prevInside)
    ensures var h := ColFrom(f, g, x, y, prevInside);
      && Extends(f, g, h) && Consistent(f, h)
      && forall i, j :: InGrid(f, i, j) && (i != x || j < y) ==> h[i][j] == g[i][j]
    decreases f.sizeY - y
  {
    var last := y == f.sizeY - 1;
    match g[x][y]
    case Some(s) =>
      if !last {
        ColSound(f, g, x, y + 1, s.inside);
      }
    case None =>
      match Decide(f, x, y, prevInside, NextIsEdge(f, x, y, false))
      case None =>
      case Some(b) =>
        var h: Grid := Write(f, g, x, y, PointState(b, IsEdge(f, x, y)));
        WriteKeepsConsistent(f, g, x, y, b, false);
        if !last {
          ColSound(f, h, x, y + 1, b);
          ExtendsTransitive(f, g, h, ColFrom(f, h, x, y + 1, b));
        }
  }

  /** The column sweep only adds cells. */
  lemma {:induction false} ColExtends(f: Frame, g: Grid, x: int, y: int, prevInside: bool)
    requires Shaped(f, g) && InGrid(f, x, y)
    ensures Extends(f, g, ColFrom(f, g, x, y, prevInside))
    decreases f.sizeY - y
  {
    var last := y == f.sizeY - 1;
    match g[x][y]
    case Some(s) =>
      if !last {
        ColExtends(f, g, x, y + 1, s.inside);
      }
    case None =>
      match Decide(f, x, y, prevInside, NextIsEdge(f, x, y, false))
      case None =>
      case Some(b) =>
        var h: Grid := Write(f, g, x, y, PointState(b, IsEdge(f, x, y)));
        if !last {
          ColExtends(f, h, x, y + 1, b);
          ExtendsTransitive(f, g, h, ColFrom(f, h, x, y + 1, b));
        }
  }

  /**
   * One row step only adds cells; it resolves its cell exactly when it yields an inside
   * flag, which is that cell's, and yields none only at an aligned edge off the first row and column.
   */
  lemma RowStepFacts(f: Frame, g: Grid, x: int, y: int, prevInside: bool)
    requires Shaped(f, g) && InGrid(f, x, y)
    ensures var (h, inside) := RowStep(f, g, x, y, prevInside);
      && Extends(f, g, h)
      && (inside.Some? <==> h[x][y].Some?)
      && (inside.Some? ==> inside.value == h[x][y].value.inside)
      && (inside.None? ==> IsEdge(f, x, y) && x != 0 && y != 0 && NextIsEdge(f, x, y, true))
  {
    if g[x][y].None? && Decide(f, x, y, prevInside, NextIsEdge(f, x, y, true)).None? {
      ColExtends(f, g, x, 0, false);
    }
  }

  /** One row step on a consistent grid adds only consistent cells. */
  lemma RowStepSound(f: Frame, g: Grid, x: int, y: int, prevInside: bool)
    requires Shaped(f, g) && InGrid(f, x, y) && Consistent(f, g)
    requires Prev(f, g, x, y, true) == Some(prevInside)
    ensures Consistent(f, RowStep(f, g, x, y, prevInside).0)
  {
    if g[x][y].None? {
      var d := Decide(f, x, y, prevInside, NextIsEdge(f, x, y, true));
      if d.None? {
        ColSound(f, g, x, 0, false);
      } else {
        WriteKeepsConsistent(f, g, x, y, d.value, true);
      }
    }
  }

  /** A row sweep only adds cells. */
  lemma {:induction false} RowExtends(f: Frame, g: Grid, x: int, y: int, prevInside: bool)
    requires Shaped(f, g) && InGrid(f, x, y)
    ensures Extends(f, g, RowFrom(f, g, x, y, prevInside).0)
    decreases f.sizeX - x
  {
    var (h, inside) := RowStep(f, g, x, y, prevInside);
    RowStepFacts(f, g, x, y, prevInside);
    if inside.Some? && x < f.sizeX - 1 {
      RowExtends(f, h, x + 1, y, inside.value);
      ExtendsTransitive(f, g, h, RowFrom(f, h, x + 1, y, inside.value).0);
    }
  }

  /** A row sweep from a consistent grid leaves it consistent. */
  lemma {:induction false} RowKeeps(f: Frame, g: Grid, x: int, y: int, prevInside: bool)
    requires Shaped(f, g) && InGrid(f, x, y) && Consistent(f, g)
    requires Prev(f, g, x, y, true) == Some(prevInside)
    ensures Consistent(f, RowFrom(f, g, x, y, prevInside).0)
    decreases f.sizeX - x
  {
    var (h, inside) := RowStep(f, g, x, y, prevInside);
    RowStepFacts(f, g, x, y, prevInside);
    RowStepSound(f, g, x, y, prevInside);
    if inside.Some? && x < f.sizeX - 1 {
      assert Prev(f, h, x + 1, y, true) == Some(inside.value);
      RowKeeps(f, h, x + 1, y, inside.value);
    }
  }

  /** Every cell of row y from column x on is resolved. */
  ghost predicate RowFilled(f: Frame, g: Grid, x: int, y: int)
    requires Shaped(f, g) && 0 <= y < f.sizeY
  {
    forall i :: 0 <= i < f.sizeX && x <= i ==> g[i][y].Some?
  }

  /** Every cell of the rows from y on is resolved. */
  ghost predicate FilledFrom(f: Frame, g: Grid, y: int)
    requires Shaped(f, g)
  {
    forall i, j :: InGrid(f, i, j) && y <= j ==> g[i][j].Some?
  }

  /** A row sweep that ends normally leaves every cell of its row from x on resolved. */
  lemma {:induction false} RowCompletes(f: Frame, g: Grid, x: int, y: int, prevInside: bool)
    requires Shaped(f, g) && InGrid(f, x, y)
    requires RowFrom(f, g, x, y, prevInside).1.None?
    ensures RowFilled(f, RowFrom(f, g, x, y, prevInside).0, x, y)
    decreases f.sizeX - x
  {
    var (h, inside) := RowStep(f, g, x, y, prevInside);
    RowStepFacts(f, g, x, y, prevInside);
    if x < f.sizeX - 1 {
      var r := RowFrom(f, h, x + 1, y, inside.value).0;
      assert RowFrom(f, g, x, y, prevInside).0 == r;
      RowCompletes(f, h, x + 1, y, inside.value);
      RowExtends(f, h, x + 1, y, inside.value);
      assert r[x][y] == h[x][y];
    } else {
      assert RowFrom(f, g, x, y, prevInside).0 == h;
    }
  }

  /** A row sweep that raises stopped at an aligned edge of its row which the fallback left null. */
  lemma {:induction false} RowFails(f: Frame, g: Grid, x: int, y: int, prevInside: bool)
    requires Shaped(f, g) && InGrid(f, x, y)
    requires RowFrom(f, g, x, y, prevInside).1.Some?
    ensures var e := RowFrom(f, g, x, y, prevInside).1.value;
      e.EdgeNotResolved? && x <= e.at.x && e.at.y == y && Explains(f, RowFrom(f, g, x, y, prevInside).0, e, y)
    decreases f.sizeX - x
  {
    var (h, inside) := RowStep(f, g, x, y, prevInside);
    RowStepFacts(f, g, x, y, prevInside);
    if inside.Some? {
      RowFails(f, h, x + 1, y, inside.value);
    }
  }

  /** `resolve()` from row y on only adds cells. */
  lemma {:induction false} ResolveFromExtends(f: Frame, g: Grid, y: int)
    requires Shaped(f, g) && 0 <= y <= f.sizeY
    ensures Extends(f, g, ResolveFrom(f, g, y).0)
    decreases f.sizeY - y
  {
    if y < f.sizeY && f.sizeX > 0 {
      var r := RowFrom(f, g, 0, y, false);
      RowExtends(f, g, 0, y, false);
      if r.1.None? {
        ResolveFromNext(f, g, y);
        ResolveFromExtends(f, r.0, y + 1);
        ExtendsTransitive(f, g, r.0, ResolveFrom(f, r.0, y + 1).0);
      } else {
        ResolveFromStops(f, g, y);
      }
    } else {
      assert ResolveFrom(f, g, y).0 == g;
    }
  }

  /** `resolve()` from row y on keeps a consistent grid consistent. */
  lemma {:induction false} ResolveFromKeeps(f: Frame, g: Grid, y: int)
    requires Shaped(f, g) && 0 <= y <= f.sizeY && Consistent(f, g)
    ensures Consistent(f, ResolveFrom(f, g, y).0)
    decreases f.sizeY - y
  {
    if y < f.sizeY && f.sizeX > 0 {
      var r := RowFrom(f, g, 0, y, false);
      RowKeeps(f, g, 0, y, false);
      if r.1.None? {
        ResolveFromNext(f, g, y);
        ResolveFromKeeps(f, r.0, y + 1);
      } else {
        ResolveFromStops(f, g, y);
      }
    } else {
      assert ResolveFrom(f, g, y).0 == g;
    }
  }

  /** `resolve()` from row y on that raises nothing fills every row from y on. */
  lemma {:induction false} ResolveFromCompletes(f: Frame, g: Grid, y: int)
    requires Shaped(f, g) && 0 <= y <= f.sizeY
    requires ResolveFrom(f, g, y).1.None?
    ensures FilledFrom(f, ResolveFrom(f, g, y).0, y)
    decreases f.sizeY - y
  {
    if y < f.sizeY && f.sizeX > 0 {
      var r := RowFrom(f, g, 0, y, false);
      if r.1.Some? {
        ResolveFromStops(f, g, y);
        assert false;
      }
      ResolveFromNext(f, g, y);
      var rest := ResolveFrom(f, r.0, y + 1);
      RowCompletes(f, g, 0, y, false);
      ResolveFromCompletes(f, r.0, y + 1);
      ResolveFromExtends(f, r.0, y + 1);
      RowsComplete(f, r.0, rest.0, y);
    }
  }

  /** `resolve()` from row y on that raises an exception raises one explained from row y on. */
  lemma {:induction false} ResolveFromExplains(f: Frame, g: Grid, y: int)
    requires Shaped(f, g) && 0 <= y <= f.sizeY
    requires ResolveFrom(f, g, y).1.Some?
    ensures Explains(f, ResolveFrom(f, g, y).0, ResolveFrom(f, g, y).1.value, y)
    decreases f.sizeY - y
  {
    if f.sizeX > 0 {
      var r := RowFrom(f, g, 0, y, false);
      if r.1.None? {
        ResolveFromNext(f, g, y);
        ResolveFromExplains(f, r.0, y + 1);
        var rest := ResolveFrom(f, r.0, y + 1);
        ExplainsEarlier(f, rest.0, rest.1.value, y + 1, y);
      } else {
        ResolveFromStops(f, g, y);
        RowFails(f, g, 0, y, false);
      }
    }
  }

  /** A row of `resolve()` that raises ends it. */
  lemma ResolveFromStops(f: Frame, g: Grid, y: int)
    requires Shaped(f, g) && 0 <= y < f.sizeY && f.sizeX > 0
    requires RowFrom(f, g, 0, y, false).1.Some?
    ensures ResolveFrom(f, g, y) == RowFrom(f, g, 0, y, false)
  {
  }

  /** A row of `resolve()` that ends normally hands its grid to the next row. */
  lemma ResolveFromNext(f: Frame, g: Grid, y: int)
    requires Shaped(f, g) && 0 <= y < f.sizeY && f.sizeX > 0
    requires RowFrom(f, g, 0, y, false).1.None?
    ensures ResolveFrom(f, g, y) == ResolveFrom(f, RowFrom(f, g, 0, y, false).0, y + 1)
  {
  }

  /** Row y filled in `g`, the rows below it filled in an extension `h` of `g`: all from y on are filled in `h`. */
  lemma RowsComplete(f: Frame, g: Grid, h: Grid, y: int)
    requires Shaped(f, g) && Shaped(f, h) && Extends(f, g, h)
    requires 0 <= y < f.sizeY && RowFilled(f, g, 0, y)
    requires FilledFrom(f, h, y + 1)
    ensures FilledFrom(f, h, y)
  {
    forall i, j | InGrid(f, i, j) && y <= j ensures h[i][j].Some? {
      if j == y { assert g[i][y].Some?; }
    }
  }

  /** An exception explained from a row on is explained from any earlier row. */
  lemma ExplainsEarlier(f: Frame, g: Grid, failure: Failure, fromRow: int, earlier: int)
    requires Shaped(f, g) && earlier <= fromRow && Explains(f, g, failure, fromRow)
    ensures Explains(f, g, failure, earlier)
  {
  }

  /** A resolve on a consistent grid: consistent afterwards, and complete unless it raised an explained exception. */
  lemma ResolveSound(f: Frame, g: Grid)
    requires Shaped(f, g) && Consistent(f, g)
    ensures var (h, failure) := ResolveFrom(f, g, 0);
      && Extends(f, g, h) && Consistent(f, h)
      && (failure.None? ==> Complete(f, h))
      && (failure.Some? ==> Explains(f, h, failure.value, 0))
  {
    ResolveFromExtends(f, g, 0);
    ResolveFromKeeps(f, g, 0);
    if ResolveFrom(f, g, 0).1.None? {
      ResolveFromCompletes(f, g, 0);
      assert Complete(f, ResolveFrom(f, g, 0).0);
    } else {
      ResolveFromExplains(f, g, 0);
    }
  }

  /** An edge cell off the first row and column with edges both to its right and below. */
  predicate Corner(f: Frame, x: int, y: int) {
    && 0 < x < f.sizeX - 1 && 0 < y < f.sizeY - 1
    && IsEdge(f, x, y) && IsEdge(f, x + 1, y) && IsEdge(f, x, y + 1)
  }

  /** Such a corner is aligned with both sweeps, so no consistent grid ever resolves it. */
  lemma CornerUnresolved(f: Frame, g: Grid, x: int, y: int)
    requires Shaped(f, g) && Consistent(f, g) && Corner(f, x, y)
    ensures g[x][y].None?
  {
  }

  /** Hence a resolve fails on any frame with such a corner. */
  lemma CornerFails(f: Frame, x: int, y: int)
    requires Corner(f, x, y)
    ensures Resolve(f).1.Some?
  {
    ResolveSound(f, Blank(f));
    CornerUnresolved(f, Resolve(f).0, x, y);
  }

  // ---------------------------------------------------------------------------
  // What extract reports

  /** A cell `extract` reports: resolved, not an edge, and inside. */
  predicate Reported(c: Option<PointState>) {
    c.Some? && !c.value.edge && c.value.inside
  }

  /** The reported cells of row y among its first n columns, translated by (ox, oy), left to right. */
  function RowPoints(f: Frame, g: Grid, ox: int, oy: int, y: int, n: int): seq<Point>
    requires Shaped(f, g) && 0 <= y < f.sizeY && 0 <= n <= f.sizeX
    decreases n
  {
    if n == 0 then []
    else RowPoints(f, g, ox, oy, y, n - 1) + (if Reported(g[n - 1][y]) then [Point(n - 1 + ox, y + oy)] else [])
  }

  /** The reported cells of the first m rows, translated by (ox, oy), row by row. */
  function Interior(f: Frame, g: Grid, ox: int, oy: int, m: int): seq<Point>
    requires Shaped(f, g) && 0 <= m <= f.sizeY
    decreases m
  {
    if m == 0 then [] else Interior(f, g, ox, oy, m - 1) + RowPoints(f, g, ox, oy, m - 1, f.sizeX)
  }

  lemma {:induction false} RowPointsMembers(f: Frame, g: Grid, ox: int, oy: int, y: int, n: int)
    requires Shaped(f, g) && 0 <= y < f.sizeY && 0 <= n <= f.sizeX
    ensures forall p :: p in RowPoints(f, g, ox, oy, y, n) <==>
      p.y == y + oy && 0 <= p.x - ox < n && Reported(g[p.x - ox][y])
    decreases n
  {
    if n > 0 {
      RowPointsMembers(f, g, ox, oy, y, n - 1);
    }
  }

  /** `extract` reports a point exactly when it is a reported cell translated by (ox, oy). */
  lemma {:induction false} InteriorMembers(f: Frame, g: Grid, ox: int, oy: int, m: int)
    requires Shaped(f, g) && 0 <= m <= f.sizeY
    ensures forall p :: p in Interior(f, g, ox, oy, m) <==>
      InGrid(f, p.x - ox, p.y - oy) && p.y - oy < m && Reported(g[p.x - ox][p.y - oy])
    decreases m
  {
    if m > 0 {
      InteriorMembers(f, g, ox, oy, m - 1);
      RowPointsMembers(f, g, ox, oy, m - 1, f.sizeX);
    }
  }

  /** A row's points come left to right. */
  lemma {:induction false} RowPointsSorted(f: Frame, g: Grid, ox: int, oy: int, y: int, n: int)
    requires Shaped(f, g) && 0 <= y < f.sizeY && 0 <= n <= f.sizeX
    ensures StrictlySorted(RowPoints(f, g, ox, oy, y, n))
    decreases n
  {
    if n > 0 {
      var init := RowPoints(f, g, ox, oy, y, n - 1);
      RowPointsSorted(f, g, ox, oy, y, n - 1);
      RowPointsMembers(f, g, ox, oy, y, n - 1);
      if Reported(g[n - 1][y]) {
        var last := Point(n - 1 + ox, y + oy);
        forall i | 0 <= i < |init| ensures Before(init[i], last) {
          assert init[i] in init;
        }
        SortedConcat(init, [last]);
      } else {
        assert RowPoints(f, g, ox, oy, y, n) == init;
      }
    }
  }

  /** `extract` lists its points in row-major order, each once. */
  lemma {:induction false} InteriorSorted(f: Frame, g: Grid, ox: int, oy: int, m: int)
    requires Shaped(f, g) && 0 <= m <= f.sizeY
    ensures StrictlySorted(Interior(f, g, ox, oy, m))
    decreases m
  {
    if m > 0 {
      var init := Interior(f, g, ox, oy, m - 1);
      var row := RowPoints(f, g, ox, oy, m - 1, f.sizeX);
      InteriorSorted(f, g, ox, oy, m - 1);
      InteriorMembers(f, g, ox, oy, m - 1);
      RowPointsSorted(f, g, ox, oy, m - 1, f.sizeX);
      RowPointsMembers(f, g, ox, oy, m - 1, f.sizeX);
      forall i, j | 0 <= i < |init| && 0 <= j < |row| ensures Before(init[i], row[j]) {
        assert init[i] in init && row[j] in row;
      }
      SortedConcat(init, row);
    }
  }

  /** On a consistent grid no reported point is a cell of the path. */
  lemma InteriorOffPath(f: Frame, g: Grid, ox: int, oy: int)
    requires Shaped(f, g) && Consistent(f, g)
    ensures forall p :: p in Interior(f, g, ox, oy, f.sizeY) ==> !IsEdge(f, p.x - ox, p.y - oy)
  {
    InteriorMembers(f, g, ox, oy, f.sizeY);
  }
}
