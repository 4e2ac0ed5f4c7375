/**
 * Terraform.kt: the argument checks and block sweeps behind the `terraform`
 * commands `up`, `down`, `fill` and `clear`.
 *
 * Path mode works on the polygon of path points the player stands on
 * (found by the terraform helper, a parameter here) over a range of heights.
 * Prism mode works on the bounding prism of coordinates typed by the player.
 * The world edits themselves are left out; each sweep returns the block
 * coordinates it would hand to the action, in order.
 */
module Terraform {
  import opened Wrappers
  import Decimal
  import Text
  import opened BoundingShapes
  import opened Points

  const MAX_HEIGHT: int := 50
  const MAX_PATH_SIZE: int := 100
  /** Largest distance between the player and the prism they terraform. */
  const TERRAFORM_MAX_REMOTE_DISTANCE: int := 50

  /** The `fail(...)` messages, one constructor each. */
  datatype Failure =
    | MissingHeight(name: string)     // "Please supply $name (max 50)"
    | HeightOutOfRange(name: string)  // "$name must be positive; max 50"
    | NotOnPath                       // "Not standing on valid path. ..."
    | NotInGroupsOfThree              // "Points must be provided in groups of 3 (x, y, z)"
    | TooFewPoints(count: nat)        // "Must have at least 2 points; received $count"
    | TooFar                          // "You are too far away from the terraform location. ..."

  /** A block coordinate passed to `world.getBlockAt(x, y, z)`. */
  datatype Block = Block(x: int, y: int, z: int)

  /** Kotlin's iteration count of `a..b`, given b - a + 1: none when it is not positive. */
  function Count(n: int): nat {
    if n > 0 then n else 0
  }

  // ---------------------------------------------------------------------------
  // height()

  /** `height(name)`: the first argument as an integer in 1..MAX_HEIGHT. */
  function Height(args: seq<string>, name: string): (r: Result<int, Failure>)
    ensures r.Ok? <==> |args| >= 1 && Decimal.ParseInt(args[0]).Some?
                       && 1 <= Decimal.ParseInt(args[0]).value <= MAX_HEIGHT
    ensures r.Ok? ==> r.value == Decimal.ParseInt(args[0]).value
    ensures r.Err? && (|args| == 0 || Decimal.ParseInt(args[0]).None?) ==> r.error == MissingHeight(name)
    ensures r.Err? && |args| >= 1 && Decimal.ParseInt(args[0]).Some? ==> r.error == HeightOutOfRange(name)
  {
    var parsed := if |args| == 0 then None else Decimal.ParseInt(args[0]);
    match parsed
    case None => Err(MissingHeight(name))
    case Some(h) => if h <= 0 || h > MAX_HEIGHT then Err(HeightOutOfRange(name)) else Ok(h)
  }

  /** A height typed as its decimal rendering is accepted as itself, whatever follows. */
  lemma HeightOfRendered(h: int, rest: seq<string>, name: string)
    requires 1 <= h <= MAX_HEIGHT
    ensures Height([Decimal.IntToString(h)] + rest, name) == Ok(h)
  {
    Decimal.ParseIntOfIntToString(h);
  }

  // ---------------------------------------------------------------------------
  // prismPoints()

  function TrimAll(pieces: seq<string>): (ts: seq<string>)
    ensures |ts| == |pieces|
    ensures forall i :: 0 <= i < |ts| ==> ts[i] == Text.Trim(pieces[i])
  {
    seq(|pieces|, i requires 0 <= i < |pieces| => Text.Trim(pieces[i]))
  }

  /** The tokens `prismPoints` reads: every argument split on ',', each piece trimmed. */
  function Tokens(args: seq<string>): (ts: seq<string>)
    ensures |ts| >= |args|
    ensures forall i :: 0 <= i < |ts| ==> ',' !in ts[i]
  {
    if args == [] then []
    else
      var pieces := Text.Split(args[|args| - 1], ',');
      var trimmed := TrimAll(pieces);
      assert forall i :: 0 <= i < |trimmed| ==> ',' !in trimmed[i] by {
        forall i | 0 <= i < |trimmed| ensures ',' !in trimmed[i] {
          Text.TrimAbsent(pieces[i], ',');
        }
      }
      Tokens(args[..|args| - 1]) + trimmed
  }

  /**
   * `untilFirstNull()`, whose definition is not part of this model, read as its
   * name says: the values up to, and not including, the first null.
   */
  function UntilFirstNull(vs: seq<Option<int>>): (r: seq<int>)
    ensures |r| <= |vs|
    ensures forall i :: 0 <= i < |r| ==> vs[i] == Some(r[i])
    ensures |r| < |vs| ==> vs[|r|].None?
  {
    if vs == [] || vs[0].None? then [] else [vs[0].value] + UntilFirstNull(vs[1..])
  }

  function ParseAll(ts: seq<string>): (vs: seq<Option<int>>)
    ensures |vs| == |ts|
    ensures forall i :: 0 <= i < |ts| ==> vs[i] == Decimal.ParseInt(ts[i])
  {
    seq(|ts|, i requires 0 <= i < |ts| => Decimal.ParseInt(ts[i]))
  }

  /** The numbers of `prismPoints`: the longest run of integer tokens from the start. */
  function Numbers(args: seq<string>): (ns: seq<int>)
    ensures |ns| <= |Tokens(args)|
    ensures forall i :: 0 <= i < |ns| ==> Decimal.ParseInt(Tokens(args)[i]) == Some(ns[i])
    ensures |ns| < |Tokens(args)| ==> Decimal.ParseInt(Tokens(args)[|ns|]).None?
  {
    UntilFirstNull(ParseAll(Tokens(args)))
  }

  /** `chunked(3).map { (x, y, z) -> Triple(x, y, z) }` on a count divisible by three. */
  function Triples(ns: seq<int>): (ps: seq<Block>)
    requires |ns| % 3 == 0
    ensures |ps| == |ns| / 3
    ensures forall i :: 0 <= i < |ps| ==> ps[i] == Block(ns[3 * i], ns[3 * i + 1], ns[3 * i + 2])
  {
    if ns == [] then []
    else
      var rest := Triples(ns[3..]);
      assert forall i :: 0 <= i < |rest| ==> ns[3..][3 * i] == ns[3 * (i + 1)];
      [Block(ns[0], ns[1], ns[2])] + rest
  }

  function Start(b: Block): Cuboid {
    Cuboid(b.x, b.y, b.z, b.x, b.y, b.z)
  }

  /**
   * The bounds a BoundingPrism reaches after binding every point: the smallest
   * cuboid holding them all.
   */
  function Hull(ps: seq<Block>): (c: Cuboid)
    requires |ps| >= 1
    ensures c.Ordered()
    ensures forall i :: 0 <= i < |ps| ==> c.Contains(ps[i].x, ps[i].y, ps[i].z)
    ensures forall d: Cuboid :: (forall i :: 0 <= i < |ps| ==> d.Contains(ps[i].x, ps[i].y, ps[i].z)) ==> d.Covers(c)
    decreases |ps|
  {
    if |ps| == 1 then Start(ps[0])
    else
      var last := ps[|ps| - 1];
      var before := Hull(ps[..|ps| - 1]);
      assert forall i :: 0 <= i < |ps| - 1 ==> ps[..|ps| - 1][i] == ps[i];
      before.Extend(last.x, last.y, last.z)
  }

  /** What `prismPoints()` returns, or the failure it reports. */
  function PrismOf(args: seq<string>): (r: Result<Cuboid, Failure>)
    ensures r.Ok? <==> |Numbers(args)| % 3 == 0 && |Numbers(args)| / 3 >= 2
    ensures |Numbers(args)| % 3 != 0 ==> r == Err(NotInGroupsOfThree)
    ensures |Numbers(args)| % 3 == 0 && |Numbers(args)| / 3 < 2 ==> r == Err(TooFewPoints(|Numbers(args)| / 3))
    ensures r.Ok? ==> r.value == Hull(Triples(Numbers(args)))
  {
    var ns := Numbers(args);
    if |ns| % 3 != 0 then Err(NotInGroupsOfThree)
    else if |ns| / 3 < 2 then Err(TooFewPoints(|ns| / 3))
    else Ok(Hull(Triples(ns)))
  }

  /** `prismPoints()`: binds every point into a BoundingPrism started at the first one. */
  method PrismPoints(args: seq<string>) returns (r: Result<Cuboid, Failure>)
    ensures r == PrismOf(args)
  {
    var numbers := Numbers(args);
    if |numbers| % 3 != 0 {
      return Err(NotInGroupsOfThree);
    }
    var points := Triples(numbers);
    if |points| < 2 {
      return Err(TooFewPoints(|points|));
    }
    var prism := BindAll(points);
    r := Ok(prism);
  }

  /** `BoundingPrism(firstX, firstY, firstZ)` followed by `bind` of every point. */
  method BindAll(points: seq<Block>) returns (c: Cuboid)
    requires |points| >= 1
    ensures c == Hull(points)
  {
    var first := points[0];
    var prism := new BoundingPrism(first.x, first.y, first.z);
    for i := 0 to |points|
      invariant i == 0 ==> prism.Value() == Start(first)
      invariant i > 0 ==> prism.Value() == Hull(points[..i])
    {
      var p := points[i];
      prism.Bind(p.x, p.y, p.z);
      HullStep(points, i);
    }
    assert points[..|points|] == points;
    c := prism.Value();
  }

  /** Binding the next point extends the hull of the points so far; the first changes nothing. */
  lemma HullStep(ps: seq<Block>, i: nat)
    requires i < |ps|
    ensures i == 0 ==> Hull(ps[..1]) == Start(ps[0]).Extend(ps[0].x, ps[0].y, ps[0].z)
    ensures i > 0 ==> Hull(ps[..i + 1]) == Hull(ps[..i]).Extend(ps[i].x, ps[i].y, ps[i].z)
  {
    if i > 0 {
      assert ps[..i + 1][..i] == ps[..i];
    }
  }

  // ---------------------------------------------------------------------------
  // The prism distance check

  function Abs(n: int): nat {
    if n < 0 then -n else n
  }

  /** `minAbs(ref, min, max)`: how far `ref` is from the nearer of the two bounds. */
  function MinAbs(ref: int, lo: int, hi: int): (d: nat)
    ensures d <= Abs(ref - lo) && d <= Abs(ref - hi)
    ensures d == Abs(ref - lo) || d == Abs(ref - hi)
  {
    Min(Abs(ref - lo), Abs(ref - hi))
  }

  /** `distanceToPrism`: the largest of the three per-axis `minAbs` values. */
  function Distance(p: Block, c: Cuboid): (d: nat)
    ensures d >= MinAbs(p.x, c.minX, c.maxX) && d >= MinAbs(p.y, c.minY, c.maxY) && d >= MinAbs(p.z, c.minZ, c.maxZ)
    ensures d == MinAbs(p.x, c.minX, c.maxX) || d == MinAbs(p.y, c.minY, c.maxY) || d == MinAbs(p.z, c.minZ, c.maxZ)
  {
    Max(Max(MinAbs(p.x, c.minX, c.maxX), MinAbs(p.y, c.minY, c.maxY)), MinAbs(p.z, c.minZ, c.maxZ))
  }

  /** The player is near enough exactly when, on each axis, one of the two faces is near enough. */
  lemma NearIffEachAxis(p: Block, c: Cuboid)
    ensures Distance(p, c) <= TERRAFORM_MAX_REMOTE_DISTANCE <==>
      && (Abs(p.x - c.minX) <= TERRAFORM_MAX_REMOTE_DISTANCE || Abs(p.x - c.maxX) <= TERRAFORM_MAX_REMOTE_DISTANCE)
      && (Abs(p.y - c.minY) <= TERRAFORM_MAX_REMOTE_DISTANCE || Abs(p.y - c.maxY) <= TERRAFORM_MAX_REMOTE_DISTANCE)
      && (Abs(p.z - c.minZ) <= TERRAFORM_MAX_REMOTE_DISTANCE || Abs(p.z - c.maxZ) <= TERRAFORM_MAX_REMOTE_DISTANCE)
  {
  }

  /**
   * The distance is measured to the nearer face, not to the prism: a player standing
   * in the middle of a prism 202 blocks long is turned away.
   */
  lemma CentreOfLongPrismIsFar()
    ensures Cuboid(0, 0, 0, 202, 0, 0).Contains(101, 0, 0)
    ensures Distance(Block(101, 0, 0), Cuboid(0, 0, 0, 202, 0, 0)) == 101
  {
  }

  // ---------------------------------------------------------------------------
  // The prism sweep: x outermost, then y, then z, each ascending

  /** Blocks that come strictly earlier in the sweep's (x, y, z) order. */
  predicate LexBefore(a: Block, b: Block) {
    a.x < b.x || (a.x == b.x && (a.y < b.y || (a.y == b.y && a.z < b.z)))
  }

  predicate LexSorted(s: seq<Block>) {
    forall i, j :: 0 <= i < j < |s| ==> LexBefore(s[i], s[j])
  }

  lemma LexSortedAppend(a: seq<Block>, b: seq<Block>)
    requires LexSorted(a) && LexSorted(b)
    requires forall u, v :: u in a && v in b ==> LexBefore(u, v)
    ensures LexSorted(a + b)
  {
    var s := a + b;
    forall i, j | 0 <= i < j < |s| ensures LexBefore(s[i], s[j]) {
      if j < |a| {
        assert s[i] == a[i] && s[j] == a[j];
      } else if i >= |a| {
        assert s[i] == b[i - |a|] && s[j] == b[j - |a|];
      } else {
        assert s[i] == a[i] && s[j] == b[j - |a|];
      }
    }
  }

  /** The z-column of the prism at (x, y). */
  function Column(c: Cuboid, x: int, y: int): (s: seq<Block>)
    ensures |s| == Count(c.SizeZ())
  {
    seq(Count(c.SizeZ()), j requires j >= 0 => Block(x, y, c.minZ + j))
  }

  lemma ColumnFacts(c: Cuboid, x: int, y: int)
    ensures forall b :: b in Column(c, x, y) <==> b.x == x && b.y == y && c.minZ <= b.z <= c.maxZ
    ensures LexSorted(Column(c, x, y))
  {
    var s := Column(c, x, y);
    forall b: Block | b.x == x && b.y == y && c.minZ <= b.z <= c.maxZ ensures b in s {
      assert s[b.z - c.minZ] == b;
    }
  }

  /** The first m z-columns of the layer at x. */
  function Layer(c: Cuboid, x: int, m: nat): seq<Block> {
    if m == 0 then [] else Layer(c, x, m - 1) + Column(c, x, c.minY + m - 1)
  }

  lemma {:induction false} LayerFacts(c: Cuboid, x: int, m: nat)
    ensures |Layer(c, x, m)| == m * Count(c.SizeZ())
    ensures forall b :: b in Layer(c, x, m) <==> b.x == x && c.minY <= b.y < c.minY + m && c.minZ <= b.z <= c.maxZ
    ensures LexSorted(Layer(c, x, m))
  {
    LayerLength(c, x, m);
    LayerMembers(c, x, m);
    LayerSorted(c, x, m);
  }

  lemma {:induction false} LayerLength(c: Cuboid, x: int, m: nat)
    ensures |Layer(c, x, m)| == m * Count(c.SizeZ())
  {
    if m > 0 {
      LayerLength(c, x, m - 1);
      assert (m - 1) * Count(c.SizeZ()) + Count(c.SizeZ()) == m * Count(c.SizeZ());
    }
  }

  lemma {:induction false} LayerMembers(c: Cuboid, x: int, m: nat)
    ensures forall b :: b in Layer(c, x, m) <==> b.x == x && c.minY <= b.y < c.minY + m && c.minZ <= b.z <= c.maxZ
  {
    if m > 0 {
      LayerMembers(c, x, m - 1);
      ColumnFacts(c, x, c.minY + m - 1);
    }
  }

  lemma {:induction false} LayerSorted(c: Cuboid, x: int, m: nat)
    ensures LexSorted(Layer(c, x, m))
  {
    if m > 0 {
      LayerSorted(c, x, m - 1);
      LayerMembers(c, x, m - 1);
      ColumnFacts(c, x, c.minY + m - 1);
      LexSortedAppend(Layer(c, x, m - 1), Column(c, x, c.minY + m - 1));
    }
  }

  /** The first n layers of the sweep. */
  function Sweep(c: Cuboid, n: nat): seq<Block> {
    if n == 0 then [] else Sweep(c, n - 1) + Layer(c, c.minX + n - 1, Count(c.SizeY()))
  }

  lemma {:induction false} SweepFacts(c: Cuboid, n: nat)
    ensures |Sweep(c, n)| == n * (Count(c.SizeY()) * Count(c.SizeZ()))
    ensures forall b :: b in Sweep(c, n) <==>
      c.minX <= b.x < c.minX + n && c.minY <= b.y <= c.maxY && c.minZ <= b.z <= c.maxZ
    ensures LexSorted(Sweep(c, n))
  {
    if n > 0 {
      var area := Count(c.SizeY()) * Count(c.SizeZ());
      SweepFacts(c, n - 1);
      LayerFacts(c, c.minX + n - 1, Count(c.SizeY()));
      LexSortedAppend(Sweep(c, n - 1), Layer(c, c.minX + n - 1, Count(c.SizeY())));
      assert (n - 1) * area + area == n * area;
    }
  }

  lemma SweepNext(c: Cuboid, x: int)
    requires c.minX <= x
    ensures Sweep(c, x + 1 - c.minX) == Sweep(c, x - c.minX) + Layer(c, x, Count(c.SizeY()))
  {
  }

  /** Every block the prism loops of `innerPointSequencePrism` visit, in order. */
  function PrismOrder(c: Cuboid): seq<Block> {
    Sweep(c, Count(c.SizeX()))
  }

  /**
   * The prism sweep visits each block of the prism exactly once (in strictly
   * increasing order, so never twice), and nothing else: sizeX·sizeY·sizeZ blocks.
   */
  lemma PrismOrderFacts(c: Cuboid)
    requires c.Ordered()
    ensures |PrismOrder(c)| == c.SizeX() * c.SizeY() * c.SizeZ()
    ensures forall b :: b in PrismOrder(c) <==> c.Contains(b.x, b.y, b.z)
    ensures LexSorted(PrismOrder(c))
  {
    SweepFacts(c, Count(c.SizeX()));
    assert c.SizeX() * (c.SizeY() * c.SizeZ()) == c.SizeX() * c.SizeY() * c.SizeZ();
  }

  method ColumnCells(c: Cuboid, x: int, y: int) returns (cells: seq<Block>)
    ensures cells == Column(c, x, y)
  {
    cells := [];
    var z := c.minZ;
    while z <= c.maxZ
      invariant c.minZ <= z && (c.minZ <= c.maxZ ==> z <= c.maxZ + 1)
      invariant z - c.minZ <= |Column(c, x, y)|
      invariant cells == Column(c, x, y)[..z - c.minZ]
    {
      assert Column(c, x, y)[..z + 1 - c.minZ] == Column(c, x, y)[..z - c.minZ] + [Block(x, y, z)];
      cells := cells + [Block(x, y, z)];
      z := z + 1;
    }
    assert Column(c, x, y)[..z - c.minZ] == Column(c, x, y);
  }

  method LayerCells(c: Cuboid, x: int) returns (cells: seq<Block>)
    ensures cells == Layer(c, x, Count(c.SizeY()))
  {
    cells := [];
    var y := c.minY;
    while y <= c.maxY
      invariant c.minY <= y && y - c.minY <= Count(c.SizeY())
      invariant cells == Layer(c, x, y - c.minY)
    {
      var column := ColumnCells(c, x, y);
      cells := cells + column;
      y := y + 1;
    }
    assert y - c.minY == Count(c.SizeY());
  }

  /** The nested `forEach` loops over x, y and z of `innerPointSequencePrism`. */
  method PrismCells(c: Cuboid) returns (cells: seq<Block>)
    ensures cells == PrismOrder(c)
  {
    cells := [];
    var x := c.minX;
    while x <= c.maxX
      invariant c.minX <= x && x - c.minX <= Count(c.SizeX())
      invariant cells == Sweep(c, x - c.minX)
    {
      var layer := LayerCells(c, x);
      SweepNext(c, x);
      cells := cells + layer;
      x := x + 1;
    }
    assert x - c.minX == Count(c.SizeX());
  }

  // ---------------------------------------------------------------------------
  // The path sweep

  /**
   * The levels of `innerPointSequencePath`, starting two below the player's block:
   * `base..base + height` going up, `base downTo base - height` going down.
   */
  function YRange(base: int, height: int, up: bool): (ys: seq<int>)
    ensures |ys| == Count(height + 1)
  {
    seq(Count(height + 1), i => if up then base + i else base - i)
  }

  /** Kotlin's `last` of those ranges: the end the range was written with. */
  function RangeLast(base: int, height: int, up: bool): int {
    if up then base + height else base - height
  }

  /** A valid height gives height + 1 levels, from `base` to `RangeLast`, one block apart. */
  lemma YRangeLevels(base: int, height: int, up: bool)
    requires height >= 0
    ensures var ys := YRange(base, height, up);
      && |ys| == height + 1 && ys[0] == base && ys[height] == RangeLast(base, height, up)
      && (forall i :: 0 <= i < height ==> ys[i + 1] == ys[i] + (if up then 1 else -1))
  {
  }

  /** One level of the path: every point, at height y (the point's y is the world z). */
  function Level(points: seq<Point>, y: int): (s: seq<Block>)
    ensures |s| == |points|
    ensures forall i :: 0 <= i < |points| ==> s[i] == Block(points[i].x, y, points[i].y)
  {
    seq(|points|, i requires 0 <= i < |points| => Block(points[i].x, y, points[i].y))
  }

  /** `yRange.forEach { y -> points.forEach { ... } }`: level after level. */
  function PathSweep(points: seq<Point>, ys: seq<int>): seq<Block>
    decreases |ys|
  {
    if ys == [] then [] else PathSweep(points, ys[..|ys| - 1]) + Level(points, ys[|ys| - 1])
  }

  /** The path sweep visits |ys|·|points| blocks: each path point at each level. */
  lemma {:induction false} PathSweepFacts(points: seq<Point>, ys: seq<int>)
    ensures |PathSweep(points, ys)| == |ys| * |points|
    ensures forall b :: b in PathSweep(points, ys) <==> b.y in ys && Point(b.x, b.z) in points
    decreases |ys|
  {
    if ys != [] {
      var init := ys[..|ys| - 1];
      var y := ys[|ys| - 1];
      PathSweepFacts(points, init);
      assert ys == init + [y];
      forall b ensures b in Level(points, y) <==> b.y == y && Point(b.x, b.z) in points {
        if b.y == y && Point(b.x, b.z) in points {
          var i :| 0 <= i < |points| && points[i] == Point(b.x, b.z);
          assert Level(points, y)[i] == b;
        }
      }
      assert (|ys| - 1) * |points| + |points| == |ys| * |points|;
    }
  }

  method LevelCells(points: seq<Point>, y: int) returns (cells: seq<Block>)
    ensures cells == Level(points, y)
  {
    cells := [];
    for i := 0 to |points|
      invariant cells == Level(points, y)[..i]
    {
      cells := cells + [Block(points[i].x, y, points[i].y)];
    }
    assert Level(points, y)[..|points|] == Level(points, y);
  }

  method PathCells(points: seq<Point>, ys: seq<int>) returns (cells: seq<Block>)
    ensures cells == PathSweep(points, ys)
  {
    cells := [];
    for k := 0 to |ys|
      invariant cells == PathSweep(points, ys[..k])
    {
      var level := LevelCells(points, ys[k]);
      assert ys[..k + 1][..k] == ys[..k];
      cells := cells + level;
    }
    assert ys[..|ys|] == ys;
  }

  /** What a terraform command does: the block count it announces and the blocks it visits. */
  datatype Work = Work(announced: int, cells: seq<Block>)

  /**
   * The announcement of `innerPointSequencePath` as written:
   * `points.size * (yRange.last - yRange.first)`.
   */
  function AnnouncedAsWritten(pointCount: nat, base: int, height: int, up: bool): int {
    pointCount * (RangeLast(base, height, up) - base)
  }

  /**
   * As written, the announcement is one level short going up and negative going
   * down: 10 path points and a depth of 5 announce -50 blocks while 60 are cleared.
   */
  lemma AnnouncedAsWrittenMiscounts(points: seq<Point>)
    requires |points| == 10
    ensures AnnouncedAsWritten(10, 62, 5, false) == -50
    ensures AnnouncedAsWritten(10, 62, 5, true) == 50
    ensures |PathSweep(points, YRange(62, 5, false))| == 60
    ensures |PathSweep(points, YRange(62, 5, true))| == 60
  {
    PathSweepFacts(points, YRange(62, 5, false));
    PathSweepFacts(points, YRange(62, 5, true));
  }

  /** The announcement of `innerPointSequencePath`, corrected: one block per point per level. */
  function Announced(pointCount: nat, base: int, height: int, up: bool): (n: nat)
    ensures height >= 0 ==> n == pointCount * (height + 1)
  {
    pointCount * |YRange(base, height, up)|
  }

  /** `sender.location.blockY - 2`: ground level is below the path, which is below the player. */
  function PathBase(blockY: int): int {
    blockY - 2
  }

  /**
   * `innerPointSequencePath(up)`: the height (or depth) argument, then the path the
   * player stands on (`None` when the helper finds no valid polygon), then each
   * path point at each level.
   */
  function PathWork(args: seq<string>, up: bool, points: Option<seq<Point>>, blockY: int): (r: Result<Work, Failure>)
    ensures var hr := Height(args, if up then "height" else "depth");
      && (r.Ok? <==> hr.Ok? && points.Some?)
      && (hr.Err? ==> r == Err(hr.error))
      && (hr.Ok? && points.None? ==> r == Err(NotOnPath))
      && (r.Ok? ==> PathWorkDone(r.value, points.value, PathBase(blockY), hr.value, up))
  {
    var name := if up then "height" else "depth";
    match Height(args, name)
    case Err(e) => Err(e)
    case Ok(h) =>
      if points.None? then Err(NotOnPath)
      else
        PathLevelsWork(points.value, PathBase(blockY), h, up);
        Ok(Work(Announced(|points.value|, PathBase(blockY), h, up), PathSweep(points.value, YRange(PathBase(blockY), h, up))))
  }

  /**
   * A path sweep of `height` levels from `base`: it announces and visits one block per
   * path point per level, and visits exactly those blocks.
   */
  ghost predicate PathWorkDone(w: Work, points: seq<Point>, base: int, height: int, up: bool) {
    && w.announced == |w.cells| == |points| * (height + 1)
    && (forall b :: b in w.cells <==> b.y in YRange(base, height, up) && Point(b.x, b.z) in points)
  }

  lemma PathLevelsWork(points: seq<Point>, base: int, height: int, up: bool)
    requires height >= 0
    ensures PathWorkDone(Work(Announced(|points|, base, height, up), PathSweep(points, YRange(base, height, up))),
                         points, base, height, up)
  {
    var ys := YRange(base, height, up);
    PathSweepFacts(points, ys);
    assert |ys| == height + 1;
    var n := Announced(|points|, base, height, up);
    assert n == |points| * (height + 1);
    MulComm(|ys|, |points|);
  }

  lemma MulComm(a: int, b: int)
    ensures a * b == b * a
  {
  }

  method InnerPointSequencePath(args: seq<string>, up: bool, points: Option<seq<Point>>, blockY: int)
    returns (r: Result<Work, Failure>)
    ensures r == PathWork(args, up, points, blockY)
  {
    var height := Height(args, if up then "height" else "depth");
    if height.Err? {
      return Err(height.error);
    }
    if points.None? {
      return Err(NotOnPath);
    }
    var pts := points.value;
    var yRange := YRange(PathBase(blockY), height.value, up);
    var cells := PathCells(pts, yRange);
    r := Ok(Work(Announced(|pts|, PathBase(blockY), height.value, up), cells));
  }

  /**
   * `innerPointSequencePrism`: the typed prism, refused when the player is more than
   * TERRAFORM_MAX_REMOTE_DISTANCE away, then every block of it.
   */
  function PrismWork(args: seq<string>, player: Block): (r: Result<Work, Failure>)
    ensures r.Ok? <==> PrismOf(args).Ok? && Distance(player, PrismOf(args).value) <= TERRAFORM_MAX_REMOTE_DISTANCE
    ensures PrismOf(args).Err? ==> r == Err(PrismOf(args).error)
    ensures r.Ok? ==> var c := PrismOf(args).value;
      && r.value.announced == |r.value.cells| == c.SizeX() * c.SizeY() * c.SizeZ()
      && (forall b :: b in r.value.cells <==> c.Contains(b.x, b.y, b.z))
      && LexSorted(r.value.cells)
  {
    match PrismOf(args)
    case Err(e) => Err(e)
    case Ok(c) =>
      if Distance(player, c) > TERRAFORM_MAX_REMOTE_DISTANCE then Err(TooFar)
      else
        PrismOrderFacts(c);
        Ok(Work(c.SizeX() * c.SizeY() * c.SizeZ(), PrismOrder(c)))
  }

  method InnerPointSequencePrism(args: seq<string>, player: Block) returns (r: Result<Work, Failure>)
    ensures r == PrismWork(args, player)
  {
    var prism := PrismPoints(args);
    if prism.Err? {
      return Err(prism.error);
    }
    var c := prism.value;
    var distanceToPrism := Distance(player, c);
    if distanceToPrism > TERRAFORM_MAX_REMOTE_DISTANCE {
      return Err(TooFar);
    }
    var cells := PrismCells(c);
    r := Ok(Work(c.SizeX() * c.SizeY() * c.SizeZ(), cells));
  }

  /** `innerPointSequence`'s choice: path mode for fewer than 3 arguments led by an integer. */
  predicate UsesPath(args: seq<string>) {
    |args| < 3 && |args| >= 1 && Decimal.ParseInt(args[0]).Some?
  }

  /** In path mode the height argument is always present and numeric; only its range can fail. */
  lemma PathModeHeight(args: seq<string>, name: string)
    requires UsesPath(args)
    ensures Height(args, name).Ok? || Height(args, name).error == HeightOutOfRange(name)
  {
  }

  method InnerPointSequence(args: seq<string>, up: bool, points: Option<seq<Point>>, blockY: int, player: Block)
    returns (r: Result<Work, Failure>)
    ensures UsesPath(args) ==> r == PathWork(args, up, points, blockY)
    ensures !UsesPath(args) ==> r == PrismWork(args, player)
  {
    if |args| < 3 && |args| >= 1 && Decimal.ParseInt(args[0]).Some? {
      r := InnerPointSequencePath(args, up, points, blockY);
    } else {
      r := InnerPointSequencePrism(args, player);
    }
  }

  /** The four `terraform` sub-commands. */
  datatype Command = Up | Down | Fill | Clear

  /** `up` and `down` sweep the path; `fill` chooses; `clear` sweeps the typed prism. */
  method RunCommand(cmd: Command, args: seq<string>, points: Option<seq<Point>>, blockY: int, player: Block)
    returns (r: Result<Work, Failure>)
    ensures cmd == Up ==> r == PathWork(args, true, points, blockY)
    ensures cmd == Down ==> r == PathWork(args, false, points, blockY)
    ensures cmd == Fill ==> r == if UsesPath(args) then PathWork(args, false, points, blockY) else PrismWork(args, player)
    ensures cmd == Clear ==> r == PrismWork(args, player)
  {
    match cmd
    case Up => r := InnerPointSequencePath(args, true, points, blockY);
    case Down => r := InnerPointSequencePath(args, false, points, blockY);
    case Fill => r := InnerPointSequence(args, false, points, blockY, player);
    case Clear => r := InnerPointSequencePrism(args, player);
  }

  /** The completions each sub-command offers. */
  function TabList(cmd: Command): seq<string> {
    match cmd
    case Up => ["~"]
    case Down => ["~"]
    case Fill => ["~", "x1,y1,z1 x2,y2,z2 ..."]
    case Clear => ["x1,y1,z1 x2,y2,z2 ..."]
  }
}
