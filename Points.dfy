/** PointKt: an immutable integer grid point, ordered row-major (y first, then x). */
module Points {
  import Decimal

  datatype Point = Point(x: int, y: int)

  /** Kotlin `Int.compareTo`: -1, 0 or 1. */
  function CompareInt(a: int, b: int): (r: int)
    ensures r == -1 || r == 0 || r == 1
    ensures r < 0 <==> a < b
    ensures r == 0 <==> a == b
  {
    if a < b then -1 else if a == b then 0 else 1
  }

  /** `PointKt.compareTo`: compare the rows, and only when they tie, the columns. */
  function Compare(a: Point, b: Point): (r: int)
    ensures r == 0 <==> a == b
    ensures r < 0 <==> a.y < b.y || (a.y == b.y && a.x < b.x)
    ensures r > 0 <==> a.y > b.y || (a.y == b.y && a.x > b.x)
  {
    var c := CompareInt(a.y, b.y);
    if c != 0 then c else CompareInt(a.x, b.x)
  }

  /** Strictly before in row-major order. */
  predicate Before(a: Point, b: Point) {
    Compare(a, b) < 0
  }

  lemma CompareAntisymmetric(a: Point, b: Point)
    ensures Compare(a, b) == -Compare(b, a)
  {
  }

  lemma CompareTransitive(a: Point, b: Point, c: Point)
    requires Compare(a, b) < 0 && Compare(b, c) < 0
    ensures Compare(a, c) < 0
  {
  }

  /** A sequence strictly increasing in row-major order (so also free of duplicates). */
  predicate StrictlySorted(s: seq<Point>) {
    forall i, j :: 0 <= i < j < |s| ==> Before(s[i], s[j])
  }

  /** Strictly sorted runs, each wholly before the next, concatenate to a strictly sorted sequence. */
  lemma SortedConcat(a: seq<Point>, b: seq<Point>)
    requires StrictlySorted(a) && StrictlySorted(b)
    requires forall i, j :: 0 <= i < |a| && 0 <= j < |b| ==> Before(a[i], b[j])
    ensures StrictlySorted(a + b)
  {
    forall i, j | 0 <= i < j < |a + b| ensures Before((a + b)[i], (a + b)[j]) {
      if j < |a| {
        assert (a + b)[i] == a[i] && (a + b)[j] == a[j];
      } else if i < |a| {
        assert (a + b)[i] == a[i] && (a + b)[j] == b[j - |a|];
      } else {
        assert (a + b)[i] == b[i - |a|] && (a + b)[j] == b[j - |a|];
      }
    }
  }

  /** Two strictly sorted sequences with the same elements are the same sequence. */
  lemma {:induction false} StrictlySortedUnique(s: seq<Point>, t: seq<Point>)
    requires StrictlySorted(s) && StrictlySorted(t)
    requires forall p :: p in s <==> p in t
    ensures s == t
    decreases |s|
  {
    assert s != [] ==> s[0] in t;
    assert t != [] ==> t[0] in s;
    if s != [] && t != [] {
      // Both heads are the least element of the common set.
      assert s[0] in t && t[0] in s;
      assert s[0] == t[0];
      forall p ensures p in s[1..] <==> p in t[1..] {
        if p in s[1..] {
          var k :| 1 <= k < |s| && s[k] == p;
          assert Before(s[0], p);
          assert p in t && p != t[0];
          var m :| 0 <= m < |t| && t[m] == p;
          assert t[1..][m - 1] == p;
        }
        if p in t[1..] {
          var k :| 1 <= k < |t| && t[k] == p;
          assert Before(t[0], p);
          assert p in s && p != s[0];
          var m :| 0 <= m < |s| && s[m] == p;
          assert s[1..][m - 1] == p;
        }
      }
      StrictlySortedUnique(s[1..], t[1..]);
      assert s == [s[0]] + s[1..] && t == [t[0]] + t[1..];
    }
  }

  /** The "(x, y)" rendering shared by `PointKt.toString` and `Point.coord()`. */
  function Format(x: int, y: int): (s: string)
    ensures |s| >= 6 && s[0] == '(' && s[|s| - 1] == ')'
  {
    "(" + Decimal.IntToString(x) + ", " + Decimal.IntToString(y) + ")"
  }

  /** `PointKt.toString`. */
  function ToString(p: Point): string {
    Format(p.x, p.y)
  }

  /** Distinct points render differently: the first comma separates the two numbers. */
  lemma FormatInjective(x1: int, y1: int, x2: int, y2: int)
    requires Format(x1, y1) == Format(x2, y2)
    ensures x1 == x2 && y1 == y2
  {
    var a1, a2 := Decimal.IntToString(x1), Decimal.IntToString(x2);
    var b1, b2 := Decimal.IntToString(y1), Decimal.IntToString(y2);
    var s := Format(x1, y1);
    assert s == "(" + a1 + ", " + b1 + ")";
    assert s == "(" + a2 + ", " + b2 + ")";
    // The first comma of s closes the first number, whichever rendering is read.
    assert s[1 + |a1|] == ',' && s[1 + |a2|] == ',';
    assert forall k :: 1 <= k < 1 + |a1| ==> s[k] == a1[k - 1] != ',';
    assert forall k :: 1 <= k < 1 + |a2| ==> s[k] == a2[k - 1] != ',';
    assert |a1| == |a2|;
    assert a1 == s[1..1 + |a1|] == a2;
    assert b1 == s[3 + |a1|..|s| - 1] == b2;
    Decimal.IntToStringInjective(x1, x2);
    Decimal.IntToStringInjective(y1, y2);
  }

  lemma ToStringInjective(p: Point, q: Point)
    requires ToString(p) == ToString(q)
    ensures p == q
  {
    FormatInjective(p.x, p.y, q.x, q.y);
  }
}
