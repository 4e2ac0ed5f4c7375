/**
 * BoundingShapes.kt: accumulators of the min/max coordinates over a stream of points,
 * in 2D (BoundingBox) and 3D (BoundingPrism). Sizes are inclusive: both bounds count.
 */
module BoundingShapes {

  function Min(a: int, b: int): int { if a <= b then a else b }
  function Max(a: int, b: int): int { if a >= b then a else b }

  /** The bounds of a BoundingBox. */
  datatype Rect = Rect(minX: int, minY: int, maxX: int, maxY: int) {

    predicate Ordered() {
      minX <= maxX && minY <= maxY
    }

    predicate Contains(x: int, y: int) {
      minX <= x <= maxX && minY <= y <= maxY
    }

    predicate Covers(r: Rect) {
      minX <= r.minX && r.maxX <= maxX && minY <= r.minY && r.maxY <= maxY
    }

    /** `bind(x, y)`: widen each bound just enough to take in the point. */
    function Extend(x: int, y: int): (r: Rect)
      ensures r.Contains(x, y) && r.Covers(this)
      ensures forall s: Rect :: s.Covers(this) && s.Contains(x, y) ==> s.Covers(r)
      ensures Ordered() ==> r.Ordered()
      ensures Contains(x, y) ==> r == this
    {
      Rect(Min(minX, x), Min(minY, y), Max(maxX, x), Max(maxY, y))
    }

    /** Number of columns, both bounds included. */
    function SizeX(): (n: int)
      ensures n >= 1 <==> minX <= maxX
    {
      maxX - minX + 1
    }

    /** Number of rows, both bounds included. */
    function SizeY(): (n: int)
      ensures n >= 1 <==> minY <= maxY
    {
      maxY - minY + 1
    }

    function MaxSize(): (n: int)
      ensures n >= SizeX() && n >= SizeY()
      ensures n == SizeX() || n == SizeY()
    {
      Max(SizeX(), SizeY())
    }
  }

  /** A box built from one point, as `BoundingBox(x, y)` with the default maxima, is 1×1. */
  lemma SinglePointRect(x: int, y: int)
    ensures Rect(x, y, x, y).Ordered() && Rect(x, y, x, y).SizeX() == 1 && Rect(x, y, x, y).SizeY() == 1
    ensures forall a, b :: Rect(x, y, x, y).Contains(a, b) <==> a == x && b == y
  {
  }

  class BoundingBox {
    var minX: int
    var minY: int
    var maxX: int
    var maxY: int

    function Value(): Rect
      reads this
    {
      Rect(minX, minY, maxX, maxY)
    }

    /** `BoundingBox(minX, minY, maxX = minX, maxY = minY)`. */
    constructor (minX: int, minY: int, maxX: int := minX, maxY: int := minY)
      ensures Value() == Rect(minX, minY, maxX, maxY)
    {
      this.minX, this.minY, this.maxX, this.maxY := minX, minY, maxX, maxY;
    }

    method Bind(x: int, y: int)
      modifies this
      ensures Value() == old(Value()).Extend(x, y)
    {
      minX := Min(minX, x);
      maxX := Max(maxX, x);
      minY := Min(minY, y);
      maxY := Max(maxY, y);
    }

    function SizeX(): int reads this { Value().SizeX() }
    function SizeY(): int reads this { Value().SizeY() }
    function MaxSize(): int reads this { Value().MaxSize() }
  }

  /** The bounds of a BoundingPrism. */
  datatype Cuboid = Cuboid(minX: int, minY: int, minZ: int, maxX: int, maxY: int, maxZ: int) {

    predicate Ordered() {
      minX <= maxX && minY <= maxY && minZ <= maxZ
    }

    predicate Contains(x: int, y: int, z: int) {
      minX <= x <= maxX && minY <= y <= maxY && minZ <= z <= maxZ
    }

    predicate Covers(c: Cuboid) {
      && minX <= c.minX && c.maxX <= maxX
      && minY <= c.minY && c.maxY <= maxY
      && minZ <= c.minZ && c.maxZ <= maxZ
    }

    /** `bind(x, y, z)`: widen each bound just enough to take in the point. */
    function Extend(x: int, y: int, z: int): (r: Cuboid)
      ensures r.Contains(x, y, z) && r.Covers(this)
      ensures forall c: Cuboid :: c.Covers(this) && c.Contains(x, y, z) ==> c.Covers(r)
      ensures Ordered() ==> r.Ordered()
      ensures Contains(x, y, z) ==> r == this
    {
      Cuboid(Min(minX, x), Min(minY, y), Min(minZ, z), Max(maxX, x), Max(maxY, y), Max(maxZ, z))
    }

    function SizeX(): (n: int)
      ensures n >= 1 <==> minX <= maxX
    {
      maxX - minX + 1
    }

    function SizeY(): (n: int)
      ensures n >= 1 <==> minY <= maxY
    {
      maxY - minY + 1
    }

    function SizeZ(): (n: int)
      ensures n >= 1 <==> minZ <= maxZ
    {
      maxZ - minZ + 1
    }

    /** Kotlin `max(sizeX, sizeY, sizeZ)`. */
    function MaxSize(): (n: int)
      ensures n >= SizeX() && n >= SizeY() && n >= SizeZ()
      ensures n == SizeX() || n == SizeY() || n == SizeZ()
    {
      Max(Max(SizeX(), SizeY()), SizeZ())
    }
  }

  class BoundingPrism {
    var minX: int
    var minY: int
    var minZ: int
    var maxX: int
    var maxY: int
    var maxZ: int

    function Value(): Cuboid
      reads this
    {
      Cuboid(minX, minY, minZ, maxX, maxY, maxZ)
    }

    /** `BoundingPrism(minX, minY, minZ, maxX = minX, maxY = minY, maxZ = minZ)`. */
    constructor (minX: int, minY: int, minZ: int, maxX: int := minX, maxY: int := minY, maxZ: int := minZ)
      ensures Value() == Cuboid(minX, minY, minZ, maxX, maxY, maxZ)
    {
      this.minX, this.minY, this.minZ := minX, minY, minZ;
      this.maxX, this.maxY, this.maxZ := maxX, maxY, maxZ;
    }

    method Bind(x: int, y: int, z: int)
      modifies this
      ensures Value() == old(Value()).Extend(x, y, z)
    {
      minX := Min(minX, x);
      maxX := Max(maxX, x);
      minY := Min(minY, y);
      maxY := Max(maxY, y);
      minZ := Min(minZ, z);
      maxZ := Max(maxZ, z);
    }

    function SizeX(): int reads this { Value().SizeX() }
    function SizeY(): int reads this { Value().SizeY() }
    function SizeZ(): int reads this { Value().SizeZ() }
    function MaxSize(): int reads this { Value().MaxSize() }
  }
}
