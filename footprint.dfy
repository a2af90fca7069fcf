/** The wheelchair footprint: an origin-centred rectangle, and the distance from a
    point in the LiDAR's Cartesian frame to it (get_distance_to_wheelchair_boundary,
    identical in the three display scripts). */
module Footprint {

  import opened RealArith

  /** Width along x and length along y, in metres. */
  datatype Footprint = Footprint(width: real, length: real) {
    predicate Valid() { 0.0 <= width && 0.0 <= length }
    function HalfWidth(): real { width / 2.0 }
    function HalfLength(): real { length / 2.0 }
  }

  /** WHEELCHAIR_WIDTH = .50, WHEELCHAIR_LENGTH = .60 in all three scripts. */
  const WHEELCHAIR: Footprint := Footprint(0.50, 0.60)

  /** np.sqrt on non-negative reals: the non-negative square root. numpy's sqrt is
      foreign code, so the model takes it as a parameter constrained by this. */
  ghost predicate IsSqrt(sqrt: real -> real) {
    forall a :: 0.0 <= a ==> 0.0 <= sqrt(a) && Square(sqrt(a)) == a
  }

  /** True for points inside or on the rectangle. */
  predicate Inside(fp: Footprint, x: real, y: real) {
    Abs(x) <= fp.HalfWidth() && Abs(y) <= fp.HalfLength()
  }

  /** The clamped overhang of one coordinate past the half-extent: max(|v| - half, 0). */
  function Overhang(v: real, half: real): (o: real)
    ensures 0.0 <= o
    ensures o == 0.0 <==> Abs(v) <= half
    ensures half < Abs(v) ==> o + half == Abs(v)
  {
    Max(Abs(v) - half, 0.0)
  }

  /** dx**2 + dy**2, the squared distance before the square root is taken: zero on the
      closed rectangle and positive outside it. */
  function SquaredDistance(fp: Footprint, x: real, y: real): (s: real)
    ensures 0.0 <= s
    ensures s == 0.0 <==> Inside(fp, x, y)
  {
    var dx := Overhang(x, fp.HalfWidth());
    var dy := Overhang(y, fp.HalfLength());
    SquareSign(dx);
    SquareSign(dy);
    Square(dx) + Square(dy)
  }

  /** np.sqrt(dx**2 + dy**2). */
  function BoundaryDistance(sqrt: real -> real, fp: Footprint, x: real, y: real): (d: real)
    ensures IsSqrt(sqrt) ==> 0.0 <= d && Square(d) == SquaredDistance(fp, x, y)
  {
    sqrt(SquaredDistance(fp, x, y))
  }

  /** The square root is determined by its square: sqrt(r ** 2) == r for r >= 0. */
  lemma SqrtOfSquare(sqrt: real -> real, r: real)
    requires IsSqrt(sqrt) && 0.0 <= r
    ensures sqrt(Square(r)) == r
  {
    SquareMonotone(0.0, r);
    var s := sqrt(Square(r));
    assert 0.0 <= s && Square(s) == Square(r);
    RootUnique(s, r);
  }

  /** The square root is monotonic. */
  lemma SqrtMonotone(sqrt: real -> real, a: real, b: real)
    requires IsSqrt(sqrt) && 0.0 <= a <= b
    ensures sqrt(a) <= sqrt(b)
  {
    var sa, sb := sqrt(a), sqrt(b);
    assert 0.0 <= sa && Square(sa) == a;
    assert 0.0 <= sb && Square(sb) == b;
    if sb < sa {
      SquareStrict(sb, sa);
    }
  }

  /** The distance is zero exactly on the closed rectangle and positive outside it. */
  lemma DistanceZeroIffInside(sqrt: real -> real, fp: Footprint, x: real, y: real)
    requires IsSqrt(sqrt)
    ensures BoundaryDistance(sqrt, fp, x, y) == 0.0 <==> Inside(fp, x, y)
    ensures !Inside(fp, x, y) ==> 0.0 < BoundaryDistance(sqrt, fp, x, y)
  {
    var d := BoundaryDistance(sqrt, fp, x, y);
    SquareSign(d);
  }

  /** On an axis, outside the rectangle, the distance is the straight gap to the edge. */
  lemma DistanceOnAxes(sqrt: real -> real, fp: Footprint, x: real, y: real)
    requires IsSqrt(sqrt) && fp.Valid()
    ensures y == 0.0 && fp.HalfWidth() < Abs(x) ==>
              BoundaryDistance(sqrt, fp, x, y) == Abs(x) - fp.HalfWidth()
    ensures x == 0.0 && fp.HalfLength() < Abs(y) ==>
              BoundaryDistance(sqrt, fp, x, y) == Abs(y) - fp.HalfLength()
  {
    if y == 0.0 && fp.HalfWidth() < Abs(x) {
      SquaredGap(x, fp.HalfWidth(), y, fp.HalfLength());
      SqrtOfSquare(sqrt, Abs(x) - fp.HalfWidth());
    }
    if x == 0.0 && fp.HalfLength() < Abs(y) {
      SquaredGap(y, fp.HalfLength(), x, fp.HalfWidth());
      SqrtOfSquare(sqrt, Abs(y) - fp.HalfLength());
    }
  }

  /** The sum of squared overhangs when one coordinate is zero. */
  lemma SquaredGap(v: real, half: real, w: real, otherHalf: real)
    requires half < Abs(v) && w == 0.0 && 0.0 <= otherHalf
    ensures Square(Overhang(v, half)) + Square(Overhang(w, otherHalf)) == Square(Abs(v) - half)
    ensures Square(Overhang(w, otherHalf)) + Square(Overhang(v, half)) == Square(Abs(v) - half)
  {
    assert Overhang(w, otherHalf) == 0.0;
    SquareSign(0.0);
  }

  /** The distance depends only on |x| and |y|. */
  lemma DistanceSymmetric(sqrt: real -> real, fp: Footprint, x: real, y: real)
    ensures BoundaryDistance(sqrt, fp, -x, y) == BoundaryDistance(sqrt, fp, x, y)
    ensures BoundaryDistance(sqrt, fp, x, -y) == BoundaryDistance(sqrt, fp, x, y)
  {
    assert Abs(-x) == Abs(x) && Abs(-y) == Abs(y);
  }

  /** With the wheelchair's dimensions, the point (1.0, 0) is 0.75 m from the footprint. */
  lemma WheelchairAxisExample(sqrt: real -> real)
    requires IsSqrt(sqrt)
    ensures BoundaryDistance(sqrt, WHEELCHAIR, 1.0, 0.0) == 0.75
  {
    DistanceOnAxes(sqrt, WHEELCHAIR, 1.0, 0.0);
  }

  /** Reference definition: the squared distance is the squared Euclidean distance
      to the nearest point of the rectangle. That nearest point lies in the rectangle,
      and no point of the rectangle is nearer. */
  lemma NearestPoint(fp: Footprint, x: real, y: real, px: real, py: real)
    requires fp.Valid()
    requires Inside(fp, px, py)
    ensures Inside(fp, Clip(x, -fp.HalfWidth(), fp.HalfWidth()),
                   Clip(y, -fp.HalfLength(), fp.HalfLength()))
    ensures SquaredDistance(fp, x, y)
         == Square(x - Clip(x, -fp.HalfWidth(), fp.HalfWidth()))
            + Square(y - Clip(y, -fp.HalfLength(), fp.HalfLength()))
    ensures SquaredDistance(fp, x, y) <= Square(x - px) + Square(y - py)
  {
    AxisNearest(x, fp.HalfWidth(), px);
    AxisNearest(y, fp.HalfLength(), py);
  }

  /** One coordinate of NearestPoint. */
  lemma AxisNearest(v: real, half: real, p: real)
    requires 0.0 <= half && Abs(p) <= half
    ensures Abs(Clip(v, -half, half)) <= half
    ensures Square(Overhang(v, half)) == Square(v - Clip(v, -half, half))
    ensures Square(Overhang(v, half)) <= Square(v - p)
  {
    var o := Overhang(v, half);
    if half < v {
      assert v - Clip(v, -half, half) == o;
      SquareMonotone(o, v - p);
    } else if v < -half {
      assert v - Clip(v, -half, half) == -o;
      SquareOfNegation(o);
      SquareMonotone(o, p - v);
      SquareOfNegation(v - p);
      assert p - v == -(v - p);
    } else {
      assert o == 0.0 && v - Clip(v, -half, half) == 0.0;
      SquareSign(0.0);
      SquareMonotone(0.0, Abs(v - p));
      SquareOfNegation(v - p);
    }
  }

  /** The distance itself is at most the Euclidean distance to any point of the rectangle. */
  lemma DistanceIsMinimal(sqrt: real -> real, fp: Footprint, x: real, y: real, px: real, py: real)
    requires IsSqrt(sqrt) && fp.Valid()
    requires Inside(fp, px, py)
    ensures BoundaryDistance(sqrt, fp, x, y) <= sqrt(Square(x - px) + Square(y - py))
  {
    NearestPoint(fp, x, y, px, py);
    SquareSign(x - px);
    SquareSign(y - py);
    SqrtMonotone(sqrt, SquaredDistance(fp, x, y), Square(x - px) + Square(y - py));
  }
}
