/**
 * PolygonData.kt: the point-in-polygon resolver as the class it is, with its cell grid
 * as a 2-D array written in place by the row and column sweeps. Each method is proved
 * equal to the corresponding function of PolygonSweep, whose properties carry over.
 */
module Polygon {
  import opened Wrappers
  import opened Points
  import opened PolygonSweep
  import Ext
  import BoundingShapes
  import ExclusiveBox

  /**
   * `offsetPath` and `coordGraph`: the path moved so the box's corner is (0, 0), grouped
   * by column; row y of column x is in the graph exactly when the path passes there.
   */
  method CoordGraph(path: seq<Point>, b: BoundingShapes.Rect) returns (offset: seq<Point>, graph: Ext.LinkedSetMap<int, int>)
    ensures |offset| == |path|
    ensures forall i :: 0 <= i < |path| ==> offset[i] == Point(path[i].x - b.minX, path[i].y - b.minY)
    ensures forall x, y :: IsEdge(Frame(0, 0, graph.entries), x, y) <==> Point(x + b.minX, y + b.minY) in path
  {
    offset := seq(|path|, i requires 0 <= i < |path| => Point(path[i].x - b.minX, path[i].y - b.minY));
    graph := Ext.GroupBySet(offset, (p: Point) => p.x, (p: Point) => p.y);
    OffsetGraph(path, b, offset, graph, (p: Point) => p.x, (p: Point) => p.y);
  }

  /** A grouping of the moved path by column holds row y of column x exactly when the path passes there. */
  lemma OffsetGraph(path: seq<Point>, b: BoundingShapes.Rect, offset: seq<Point>, graph: Ext.LinkedSetMap<int, int>,
                    key: Point -> int, value: Point -> int)
    requires |offset| == |path|
    requires forall i :: 0 <= i < |path| ==> offset[i] == Point(path[i].x - b.minX, path[i].y - b.minY)
    requires forall p :: key(p) == p.x && value(p) == p.y
    requires forall k, v :: v in graph.Get(k) <==> exists i :: 0 <= i < |offset| && key(offset[i]) == k && value(offset[i]) == v
    ensures forall x, y :: IsEdge(Frame(0, 0, graph.entries), x, y) <==> Point(x + b.minX, y + b.minY) in path
  {
    forall x, y ensures IsEdge(Frame(0, 0, graph.entries), x, y) <==> Point(x + b.minX, y + b.minY) in path {
      assert IsEdge(Frame(0, 0, graph.entries), x, y) <==> y in graph.Get(x);
      if Point(x + b.minX, y + b.minY) in path {
        var i :| 0 <= i < |path| && path[i] == Point(x + b.minX, y + b.minY);
        assert key(offset[i]) == x && value(offset[i]) == y;
      }
      if y in graph.Get(x) {
        var i :| 0 <= i < |offset| && key(offset[i]) == x && value(offset[i]) == y;
        assert offset[i] == Point(x, y);
      }
    }
  }

  /** `Array(sizeX) { arrayOfNulls(sizeY) }`. */
  method NullGrid(sizeX: nat, sizeY: nat) returns (a: array2<Option<PointState>>)
    ensures fresh(a) && a.Length0 == sizeX && a.Length1 == sizeY
    ensures forall x, y :: 0 <= x < sizeX && 0 <= y < sizeY ==> a[x, y].None?
  {
    a := new Option<PointState>[sizeX, sizeY]((_, _) => None);
  }

  ghost predicate ExtractReady(f: Frame, g: Grid, path: seq<Point>, box: BoundingShapes.Rect) {
    && Shaped(f, g) && Consistent(f, g)
    && f.sizeX == box.maxX - box.minX && f.sizeY == box.maxY - box.minY
    && forall x, y :: IsEdge(f, x, y) <==> Point(x + box.minX, y + box.minY) in path
  }

  /**
   * `ps` lists, in row-major order and each once, the grid cells reported inside, moved
   * back to world coordinates; none of them is on the path and all lie in the box.
   */
  ghost predicate Extracted(f: Frame, g: Grid, path: seq<Point>, box: BoundingShapes.Rect, ps: seq<Point>)
    requires Shaped(f, g)
  {
    && StrictlySorted(ps)
    && (forall p :: p in ps <==> InGrid(f, p.x - box.minX, p.y - box.minY) && Reported(g[p.x - box.minX][p.y - box.minY]))
    && forall p :: p in ps ==> p !in path && box.minX <= p.x < box.maxX && box.minY <= p.y < box.maxY
  }

  /**
   * What `extract()` returns once the grid is consistent: the reported cells in row-major
   * order, none of them on the path and all inside the box.
   */
  lemma ExtractedFacts(f: Frame, g: Grid, path: seq<Point>, box: BoundingShapes.Rect)
    requires ExtractReady(f, g, path, box)
    ensures Extracted(f, g, path, box, Interior(f, g, box.minX, box.minY, f.sizeY))
  {
    ExtractedCells(f, g, box);
    ExtractedOffPath(f, g, path, box);
  }

  lemma ExtractedCells(f: Frame, g: Grid, box: BoundingShapes.Rect)
    requires Shaped(f, g) && f.sizeX == box.maxX - box.minX && f.sizeY == box.maxY - box.minY
    ensures var ps := Interior(f, g, box.minX, box.minY, f.sizeY);
      && StrictlySorted(ps)
      && (forall p :: p in ps <==> InGrid(f, p.x - box.minX, p.y - box.minY) && Reported(g[p.x - box.minX][p.y - box.minY]))
      && forall p :: p in ps ==> box.minX <= p.x < box.maxX && box.minY <= p.y < box.maxY
  {
    InteriorSorted(f, g, box.minX, box.minY, f.sizeY);
    InteriorMembers(f, g, box.minX, box.minY, f.sizeY);
  }

  lemma ExtractedOffPath(f: Frame, g: Grid, path: seq<Point>, box: BoundingShapes.Rect)
    requires ExtractReady(f, g, path, box)
    ensures forall p :: p in Interior(f, g, box.minX, box.minY, f.sizeY) ==> p !in path
  {
    var ps := Interior(f, g, box.minX, box.minY, f.sizeY);
    InteriorOffPath(f, g, box.minX, box.minY);
    forall p | p in ps ensures p !in path {
      var x, y := p.x - box.minX, p.y - box.minY;
      assert !IsEdge(f, x, y);
      assert p == Point(x + box.minX, y + box.minY);
    }
  }

  class PolygonData {
    const path: seq<Point>
    /** The bounds of `boundingBox` as they were when the object was made. */
    const box: BoundingShapes.Rect
    /** `offsetPath`: the path in grid coordinates. */
    const offsetPath: seq<Point>
    /** `coordGraph`: for each grid column, the rows where the path passes. */
    const coordGraph: Ext.LinkedSetMap<int, int>
    /** `polygonStatus.data`, indexed [x, y]. */
    const status: array2<Option<PointState>>
    /** The value of the `pointsInPolygon` lazy, once it has been computed. */
    var cache: Option<seq<Point>>

    /** What the sweeps read besides the grid. */
    function SweepFrame(): Frame {
      Frame(status.Length0, status.Length1, coordGraph.entries)
    }

    /** The contents of `status` as a value. */
    ghost function Grid(): (g: Grid)
      reads status
      ensures Shaped(SweepFrame(), g)
      ensures forall x, y :: InGrid(SweepFrame(), x, y) ==> g[x][y] == status[x, y]
    {
      seq(status.Length0, x requires 0 <= x < status.Length0 reads status =>
        seq(status.Length1, y requires 0 <= y < status.Length1 reads status => status[x, y]))
    }

    ghost predicate Valid()
      reads this, status
    {
      && status.Length0 == box.maxX - box.minX
      && status.Length1 == box.maxY - box.minY
      && (forall x, y :: IsEdge(SweepFrame(), x, y) <==> Point(x + box.minX, y + box.minY) in path)
      && Consistent(SweepFrame(), Grid())
      && (cache.Some? ==>
            && Complete(SweepFrame(), Grid())
            && cache.value == Interior(SweepFrame(), Grid(), box.minX, box.minY, status.Length1))
    }

    /** `PolygonData(path, boundingBox)`: an all-null grid of the box's (exclusive) size; `Array(n)` needs n >= 0. */
    constructor (path: seq<Point>, boundingBox: ExclusiveBox.BoundingBox)
      requires boundingBox.SizeX() >= 0 && boundingBox.SizeY() >= 0
      ensures this.path == path && box == boundingBox.Value()
      ensures status.Length0 == boundingBox.SizeX() && status.Length1 == boundingBox.SizeY()
      ensures Valid() && cache.None? && Grid() == Blank(SweepFrame())
      ensures fresh(status)
    {
      var b := boundingBox.Value();
      var offset, graph := CoordGraph(path, b);
      var grid := NullGrid(boundingBox.SizeX(), boundingBox.SizeY());
      this.path := path;
      box := b;
      offsetPath := offset;
      coordGraph := graph;
      status := grid;
      cache := None;
      new;
      assert forall x, y :: IsEdge(SweepFrame(), x, y) == IsEdge(Frame(0, 0, graph.entries), x, y);
      GridsEqual(SweepFrame(), Grid(), Blank(SweepFrame()));
      BlankConsistent(SweepFrame());
    }

    /** `resolveCol(x)`: the fallback sweep down column x, which gives up at an aligned edge. */
    method ResolveCol(x: int)
      requires 0 <= x < status.Length0 && 0 < status.Length1
      modifies status
      ensures Grid() == ColFrom(SweepFrame(), old(Grid()), x, 0, false)
    {
      var y := 0;
      var prevInside := false;
      while true
        invariant 0 <= y < status.Length1
        invariant ColFrom(SweepFrame(), Grid(), x, y, prevInside) == ColFrom(SweepFrame(), old(Grid()), x, 0, false)
        decreases status.Length1 - y
      {
        var inside := ColCell(x, y, prevInside);
        if inside.None? || y == status.Length1 - 1 {
          return;
        }
        prevInside := inside.value;
        y := y + 1;
      }
    }

    /**
     * One iteration of `resolveCol`'s loop at (x, y): a resolved cell gives its flag; an
     * unresolved one is classified and written, or, at an aligned edge, ends the sweep (None).
     */
    method ColCell(x: int, y: int, prevInside: bool) returns (inside: Option<bool>)
      requires 0 <= x < status.Length0 && 0 <= y < status.Length1
      modifies status
      ensures var f, g := SweepFrame(), old(Grid());
        match g[x][y]
        case Some(s) => Grid() == g && inside == Some(s.inside)
        case None =>
          && inside == Decide(f, x, y, prevInside, NextIsEdge(f, x, y, false))
          && Grid() == (if inside.None? then g else Write(f, g, x, y, PointState(inside.value, IsEdge(f, x, y))))
    {
      var currState := status[x, y];
      if currState.Some? {
        return Some(currState.value.inside);
      }
      var hasNext := y < status.Length1 - 1;
      var isEdge := IsEdge(SweepFrame(), x, y);
      if !isEdge {
        inside := Some(prevInside);
      } else if x == 0 || y == 0 {
        inside := Some(true);
      } else if hasNext && IsEdge(SweepFrame(), x, y + 1) {
        // the column's fallbackResolve answers false
        return None;
      } else {
        inside := Some(!prevInside);
      }
      ghost var before := Grid();
      status[x, y] := Some(PointState(inside.value, isEdge));
      GridsEqual(SweepFrame(), Grid(), Write(SweepFrame(), before, x, y, PointState(inside.value, isEdge)));
    }

    /**
     * One iteration of `resolveRow`'s loop at (x, y): the cell's inside flag, resolving
     * the cell or, at an aligned edge, sweeping its column first; None when that left it null.
     */
    method RowCell(x: int, y: int, prevInside: bool) returns (inside: Option<bool>)
      requires 0 <= x < status.Length0 && 0 <= y < status.Length1
      modifies status
      ensures (Grid(), inside) == RowStep(SweepFrame(), old(Grid()), x, y, prevInside)
    {
      var currState := status[x, y];
      if currState.Some? {
        return Some(currState.value.inside);
      }
      var hasNext := x < status.Length0 - 1;
      var isEdge := IsEdge(SweepFrame(), x, y);
      var isInside: Option<bool>;
      if !isEdge {
        isInside := Some(prevInside);
      } else if x == 0 || y == 0 {
        isInside := Some(true);
      } else if hasNext && IsEdge(SweepFrame(), x + 1, y) {
        isInside := None;
      } else {
        isInside := Some(!prevInside);
      }
      if isInside.None? {
        // fallbackResolve: sweep the column, then the cell must have been resolved
        ResolveCol(x);
        var resolved := status[x, y];
        return if resolved.Some? then Some(resolved.value.inside) else None;
      }
      ghost var before := Grid();
      status[x, y] := Some(PointState(isInside.value, isEdge));
      GridsEqual(SweepFrame(), Grid(), Write(SweepFrame(), before, x, y, PointState(isInside.value, isEdge)));
      return isInside;
    }

    /** `resolveRow(y)`: the sweep along row y, falling back to the column sweep at an aligned edge. */
    method ResolveRow(y: int) returns (failure: Option<Failure>)
      requires 0 <= y < status.Length1
      modifies status
      ensures (Grid(), failure) == Row(SweepFrame(), old(Grid()), y)
    {
      if status.Length0 == 0 {
        return Some(IndexOutOfBounds(Point(0, y)));
      }
      var x := 0;
      var prevInside := false;
      while true
        invariant 0 <= x < status.Length0
        invariant RowFrom(SweepFrame(), Grid(), x, y, prevInside) == Row(SweepFrame(), old(Grid()), y)
        decreases status.Length0 - x
      {
        var inside := RowCell(x, y, prevInside);
        if inside.None? {
          return Some(EdgeNotResolved(Point(x, y)));
        }
        if x == status.Length0 - 1 {
          return None;
        }
        prevInside := inside.value;
        x := x + 1;
      }
    }

    /** `resolve()`: every row in order; an exception ends it. */
    method Resolve() returns (failure: Option<Failure>)
      modifies status
      ensures (Grid(), failure) == ResolveFrom(SweepFrame(), old(Grid()), 0)
    {
      var y := 0;
      while y < status.Length1
        invariant 0 <= y <= status.Length1
        invariant ResolveFrom(SweepFrame(), Grid(), y) == ResolveFrom(SweepFrame(), old(Grid()), 0)
      {
        failure := ResolveRow(y);
        if failure.Some? {
          return;
        }
        y := y + 1;
      }
      return None;
    }

    /** `extract()`: the reported cells, row by row, in world coordinates. */
    method Extract() returns (points: seq<Point>)
      ensures points == Interior(SweepFrame(), Grid(), box.minX, box.minY, status.Length1)
    {
      points := [];
      var y := 0;
      while y < status.Length1
        invariant 0 <= y <= status.Length1
        invariant points == Interior(SweepFrame(), Grid(), box.minX, box.minY, y)
      {
        var row := ExtractRow(y);
        points := points + row;
        y := y + 1;
      }
    }

    /** The inner loop of `extract()`: the reported cells of row y, left to right. */
    method ExtractRow(y: int) returns (row: seq<Point>)
      requires 0 <= y < status.Length1
      ensures row == RowPoints(SweepFrame(), Grid(), box.minX, box.minY, y, status.Length0)
    {
      row := [];
      var x := 0;
      while x < status.Length0
        invariant 0 <= x <= status.Length0
        invariant row == RowPoints(SweepFrame(), Grid(), box.minX, box.minY, y, x)
      {
        var state := status[x, y];
        if state.Some? && !state.value.edge && state.value.inside {
          row := row + [Point(x + box.minX, y + box.minY)];
        }
        x := x + 1;
      }
    }

    /**
     * `pointsInPolygon()`: resolve and extract on the first successful call, the cached
     * list afterwards. A resolve that raises leaves the lazy unset, so the next call
     * resolves again from the partly filled grid.
     */
    method PointsInPolygon() returns (r: Result<seq<Point>, Failure>)
      requires Valid()
      modifies this, status
      ensures Valid()
      ensures old(cache).Some? ==> r == Ok(old(cache).value) && cache == old(cache) && Grid() == old(Grid())
      ensures old(cache).None? ==>
        && Grid() == ResolveFrom(SweepFrame(), old(Grid()), 0).0
        && (match ResolveFrom(SweepFrame(), old(Grid()), 0).1
            case Some(e) => r == Err(e) && cache.None?
            case None => r.Ok? && cache == Some(r.value))
      ensures r.Ok? ==> r.value == Interior(SweepFrame(), Grid(), box.minX, box.minY, status.Length1)
      ensures r.Ok? ==> Extracted(SweepFrame(), Grid(), path, box, r.value)
      ensures r.Err? ==> Explains(SweepFrame(), Grid(), r.error, 0)
    {
      if cache.Some? {
        r := Ok(cache.value);
      } else {
        r := ResolveAndExtract();
      }
      if r.Ok? {
        ghost var f, g := SweepFrame(), Grid();
        assert ExtractReady(f, g, path, box);
        ExtractedFacts(f, g, path, box);
      }
    }

    /** The first evaluation of the `pointsInPolygon` lazy: resolve, then extract and cache. */
    method ResolveAndExtract() returns (r: Result<seq<Point>, Failure>)
      requires Valid() && cache.None?
      modifies this, status
      ensures Valid()
      ensures Grid() == ResolveFrom(SweepFrame(), old(Grid()), 0).0
      ensures match ResolveFrom(SweepFrame(), old(Grid()), 0).1
        case Some(e) => r == Err(e) && cache.None?
        case None => r.Ok? && cache == Some(r.value)
      ensures r.Ok? ==> r.value == Interior(SweepFrame(), Grid(), box.minX, box.minY, status.Length1)
      ensures r.Err? ==> Explains(SweepFrame(), Grid(), r.error, 0)
    {
      ghost var g0 := Grid();
      ResolveSound(SweepFrame(), g0);
      var failure := Resolve();
      if failure.Some? {
        return Err(failure.value);
      }
      var points := Extract();
      cache := Some(points);
      r := Ok(points);
    }
  }
}
