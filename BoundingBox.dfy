/**
 * BoundingBox.kt: the older 2D bounding box, whose sizes are exclusive (the distance
 * between the bounds, not the number of cells). PolygonData declares a nested box
 * with exactly this behaviour; both are modelled by this class.
 */
module ExclusiveBox {
  import opened BoundingShapes

  class BoundingBox {
    var minX: int
    var minY: int
    var maxX: int
    var maxY: int

    /** The bounds, as the value type shared with the inclusive box. */
    function Value(): Rect
      reads this
    {
      Rect(minX, minY, maxX, maxY)
    }

    /** `BoundingBox(minX, minY, maxX = minX, maxY = minY)`. */
    constructor (minX: int, minY: int, maxX: int := minX, maxY: int := minY)
      ensures Value() == Rect(minX, minY, maxX, maxY)
    {
      this.minX, this.minY, this.maxX, this.maxY := minX, minY, maxX, maxY;
    }

    method Bind(x: int, y: int)
      modifies this
      ensures Value() == old(Value()).Extend(x, y)
    {
      minX := Min(minX, x);
      maxX := Max(maxX, x);
      minY := Min(minY, y);
      maxY := Max(maxY, y);
    }

    /** One less than the number of columns the bounds take in. */
    function SizeX(): (n: int)
      reads this
      ensures n == Value().SizeX() - 1
      ensures n >= 0 <==> minX <= maxX
    {
      maxX - minX
    }

    /** One less than the number of rows the bounds take in. */
    function SizeY(): (n: int)
      reads this
      ensures n == Value().SizeY() - 1
      ensures n >= 0 <==> minY <= maxY
    {
      maxY - minY
    }

    function MaxSize(): (n: int)
      reads this
      ensures n >= SizeX() && n >= SizeY()
      ensures n == SizeX() || n == SizeY()
    {
      Max(SizeX(), SizeY())
    }
  }

  /** A box made from one point has exclusive size 0 in both directions, while it still contains that point. */
  lemma SinglePointIsEmpty(x: int, y: int)
    ensures Rect(x, y, x, y).SizeX() - 1 == 0 && Rect(x, y, x, y).SizeY() - 1 == 0
    ensures Rect(x, y, x, y).Contains(x, y)
  {
  }
}
