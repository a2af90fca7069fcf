/** The per-scan loops the three display scripts share: copying the SDK's points into
    the angle and range lists, and colouring every point by its distance to the
    wheelchair footprint. */
module Scan {

  import opened RealArith
  import opened Footprint
  import opened Hazard

  /** One entry of scan.points: the bearing in radians and the range in metres. */
  datatype ScanPoint = ScanPoint(angle: real, range: real)

  /** np.sqrt, np.cos and np.sin, which are foreign code and enter as parameters. */
  datatype MathLib = MathLib(sqrt: real -> real, cos: real -> real, sin: real -> real) {
    function Cos(a: real): real { cos(a) }
    function Sin(a: real): real { sin(a) }
  }

  /** The two facts about them the model relies on: sqrt is the non-negative square
      root, and cos^2 + sin^2 == 1. */
  ghost predicate Lawful(m: MathLib) {
    IsSqrt(m.sqrt) && forall a :: Square(m.Cos(a)) + Square(m.Sin(a)) == 1.0
  }

  datatype Option<T> = None | Some(value: T)

  /** What one animation frame hands to matplotlib: the radial limit, the boundary
      r_grid over theta_grid (empty when none is drawn), and the scattered points with
      their colours. */
  datatype Frame = Frame(rlim: real, grid: seq<real>, pointAngles: seq<real>,
                         pointRanges: seq<real>, colours: seq<Rgb>)

  /** The bearings of a scan, in scan order. */
  function Angles(points: seq<ScanPoint>): (a: seq<real>)
    ensures |a| == |points|
    ensures forall k :: 0 <= k < |points| ==> a[k] == points[k].angle
  {
    seq(|points|, k requires 0 <= k < |points| => points[k].angle)
  }

  /** The ranges of a scan, in scan order. */
  function Ranges(points: seq<ScanPoint>): (r: seq<real>)
    ensures |r| == |points|
    ensures forall k :: 0 <= k < |points| ==> r[k] == points[k].range
  {
    seq(|points|, k requires 0 <= k < |points| => points[k].range)
  }

  /** The loop `for point in scan.points: angle.append(point.angle);
      ran.append(point.range)`: two lists in scan order. */
  method Collect(points: seq<ScanPoint>) returns (angle: seq<real>, ran: seq<real>)
    ensures angle == Angles(points) && ran == Ranges(points)
  {
    angle, ran := [], [];
    var i := 0;
    while i < |points|
      invariant 0 <= i <= |points|
      invariant |angle| == i && |ran| == i
      invariant forall k :: 0 <= k < i ==> angle[k] == points[k].angle && ran[k] == points[k].range
    {
      angle := angle + [points[i].angle];
      ran := ran + [points[i].range];
      i := i + 1;
    }
  }

  /** x = r * np.cos(ang): with lawful cos and sin, never farther out than the range. */
  function CartesianX(m: MathLib, ang: real, r: real): (x: real)
    ensures Lawful(m) ==> Abs(x) <= Abs(r)
  {
    ScaledIfLawful(m, ang, r);
    r * m.Cos(ang)
  }

  /** y = r * np.sin(ang): with lawful cos and sin, never farther out than the range. */
  function CartesianY(m: MathLib, ang: real, r: real): (y: real)
    ensures Lawful(m) ==> Abs(y) <= Abs(r)
  {
    ScaledIfLawful(m, ang, r);
    r * m.Sin(ang)
  }

  /** With lawful cos and sin, scaling either by r stays within |r|. */
  lemma ScaledIfLawful(m: MathLib, ang: real, r: real)
    ensures Lawful(m) ==> Abs(r * m.Cos(ang)) <= Abs(r) && Abs(r * m.Sin(ang)) <= Abs(r)
  {
    if Lawful(m) {
      assert Square(m.Cos(ang)) + Square(m.Sin(ang)) == 1.0;
      ScaledCoordinate(r, m.Cos(ang), m.Sin(ang));
      ScaledCoordinate(r, m.Sin(ang), m.Cos(ang));
    }
  }

  /** The colour of one point: to Cartesian coordinates, distance to the footprint,
      colour by hazard zone. */
  function PointColourAt(m: MathLib, ang: real, r: real): (c: Rgb)
    ensures c.b == 0.0 && c.InUnitCube()
  {
    var x := CartesianX(m, ang, r);
    var y := CartesianY(m, ang, r);
    PointColour(HAZARD_ZONES, BoundaryDistance(m.sqrt, WHEELCHAIR, x, y))
  }

  /** The loop `for ang, r in zip(angles, ranges): ... colors.append(color)`: one
      colour per point, in scan order; zip stops at the shorter list. */
  method ColourPoints(m: MathLib, angles: seq<real>, ranges: seq<real>) returns (colours: seq<Rgb>)
    ensures |colours| == if |angles| < |ranges| then |angles| else |ranges|
    ensures forall k :: 0 <= k < |colours| ==> colours[k] == PointColourAt(m, angles[k], ranges[k])
    ensures |angles| == |ranges| ==> colours == ColoursOf(m, angles, ranges)
  {
    var n := if |angles| < |ranges| then |angles| else |ranges|;
    colours := [];
    var i := 0;
    while i < n
      invariant 0 <= i <= n
      invariant |colours| == i
      invariant forall k :: 0 <= k < i ==> colours[k] == PointColourAt(m, angles[k], ranges[k])
    {
      var x := CartesianX(m, angles[i], ranges[i]);
      var y := CartesianY(m, angles[i], ranges[i]);
      var d := BoundaryDistance(m.sqrt, WHEELCHAIR, x, y);
      colours := colours + [PointColour(HAZARD_ZONES, d)];
      i := i + 1;
    }
  }

  /** The colour list of a scan, one colour per (angle, range) pair in order. */
  function ColoursOf(m: MathLib, angles: seq<real>, ranges: seq<real>): (cs: seq<Rgb>)
    requires |angles| == |ranges|
    ensures |cs| == |angles|
    ensures forall k :: 0 <= k < |cs| ==> cs[k] == PointColourAt(m, angles[k], ranges[k])
  {
    seq(|angles|, k requires 0 <= k < |angles| => PointColourAt(m, angles[k], ranges[k]))
  }

  /** Colouring the raw readings: a reading the sensor reports as range 0 shows as a
      red point, at the centre of the plot. */
  lemma RawDropoutIsRed(m: MathLib, points: seq<ScanPoint>, k: int)
    requires Lawful(m) && 0 <= k < |points| && points[k].range == 0.0
    ensures ColoursOf(m, Angles(points), Ranges(points))[k] == RED
  {
    NearIsRed(m, points[k].angle, 0.0);
  }

  /** A reading within 0.25 m of the LiDAR lies on the footprint, whatever its
      bearing, and is drawn red. In particular a range of 0 is. */
  lemma NearIsRed(m: MathLib, ang: real, r: real)
    requires Lawful(m) && Abs(r) <= 0.25
    ensures PointColourAt(m, ang, r) == RED
  {
    RedOnFootprint(m.sqrt, CartesianX(m, ang, r), CartesianY(m, ang, r));
  }

  /** Points on the footprint are at distance 0 and drawn red. */
  lemma RedOnFootprint(sqrt: real -> real, x: real, y: real)
    requires IsSqrt(sqrt) && Abs(x) <= 0.25 && Abs(y) <= 0.25
    ensures PointColour(HAZARD_ZONES, BoundaryDistance(sqrt, WHEELCHAIR, x, y)) == RED
  {
    DistanceZeroIffInside(sqrt, WHEELCHAIR, x, y);
  }

  /** |r * c| <= |r| when c^2 + s^2 == 1. */
  lemma ScaledCoordinate(r: real, c: real, s: real)
    requires Square(c) + Square(s) == 1.0
    ensures Abs(r * c) <= Abs(r)
  {
    SquareSign(s);
    var ar, ac := Abs(r), Abs(c);
    assert Square(ac) == Square(c);
    if 1.0 < ac {
      SquareStrict(1.0, ac);
    }
    assert ac <= 1.0;
    assert Abs(r * c) == ar * ac;
    if 0.0 < ar {
      ScaleBound(ac, 1.0, ar);
    }
  }

  /** A reading at 1.5 m or more lies beyond the caution zone, whatever its bearing,
      and is drawn green. */
  lemma FarIsSafe(m: MathLib, ang: real, r: real)
    requires Lawful(m) && 1.5 <= Abs(r)
    ensures PointColourAt(m, ang, r) == GREEN
  {
    PolarRadius(m, ang, r);
    SquareMonotone(1.5, Abs(r));
    assert Square(Abs(r)) == Square(r);
    GreenBeyond(m.sqrt, CartesianX(m, ang, r), CartesianY(m, ang, r));
  }

  /** x^2 + y^2 == r^2. */
  lemma PolarRadius(m: MathLib, ang: real, r: real)
    requires Lawful(m)
    ensures Square(CartesianX(m, ang, r)) + Square(CartesianY(m, ang, r)) == Square(r)
  {
    var c, s := m.Cos(ang), m.Sin(ang);
    assert Square(c) + Square(s) == 1.0;
    PolarNorm(r, c, s, CartesianX(m, ang, r), CartesianY(m, ang, r));
  }

  /** Points with x^2 + y^2 >= 2.25 are more than 0.7 m from the footprint and drawn
      green. */
  lemma GreenBeyond(sqrt: real -> real, x: real, y: real)
    requires IsSqrt(sqrt) && 2.25 <= Square(x) + Square(y)
    ensures PointColour(HAZARD_ZONES, BoundaryDistance(sqrt, WHEELCHAIR, x, y)) == GREEN
  {
    OneCoordinateFar(x, y);
    var d := BoundaryDistance(sqrt, WHEELCHAIR, x, y);
    if d <= 0.7 {
      SquareMonotone(d, 0.7);
    }
  }

  /** x^2 + y^2 == r^2 for x == r c and y == r s, when c^2 + s^2 == 1. */
  lemma PolarNorm(r: real, c: real, s: real, x: real, y: real)
    requires Square(c) + Square(s) == 1.0 && x == r * c && y == r * s
    ensures Square(x) + Square(y) == Square(r)
  {
    assert Square(r * c) == Square(r) * Square(c);
    assert Square(r * s) == Square(r) * Square(s);
    assert Square(r) * Square(c) + Square(r) * Square(s) == Square(r) * (Square(c) + Square(s));
  }

  /** A point with x^2 + y^2 >= 2.25 overhangs the footprint by more than 0.7 m on
      one axis, so its squared distance exceeds 0.49. */
  lemma OneCoordinateFar(x: real, y: real)
    requires 2.25 <= Square(x) + Square(y)
    ensures 0.49 < SquaredDistance(WHEELCHAIR, x, y)
  {
    var dx := Overhang(x, WHEELCHAIR.HalfWidth());
    var dy := Overhang(y, WHEELCHAIR.HalfLength());
    SquareSign(dx);
    SquareSign(dy);
    assert Square(Abs(x)) == Square(x) && Square(Abs(y)) == Square(y);
    if Abs(x) <= 1.0 && Abs(y) <= 1.0 {
      SquareMonotone(Abs(x), 1.0);
      SquareMonotone(Abs(y), 1.0);
    } else if 1.0 < Abs(x) {
      SquareStrict(0.7, dx);
    } else {
      SquareStrict(0.7, dy);
    }
  }
}
