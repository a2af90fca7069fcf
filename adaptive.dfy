/** The fixed-range display with a shaded boundary (Adaptive_Lidar_system.py): the
    scan is wrapped and cleaned against RMAX, the boundary r_grid is interpolated from
    it, and the cleaned points are scattered coloured by distance to the footprint. */
module Adaptive {

  import opened Hazard
  import opened Boundary
  import opened Scan

  /** The fixed radial limit and the range that replaces invalid readings, in metres. */
  const RMAX: real := 6.0

  /** The script's module-level state: the number of scans processed. */
  class Display {
    var scanCount: nat

    constructor ()
      ensures scanCount == 0
    {
      scanCount := 0;
    }

    /** animate(num): ok is what laser.doProcessSimple(scan) returned and points is
        scan.points. A failed read draws nothing. Otherwise the scan is counted; a
        non-empty one is wrapped and cleaned, its boundary grid drawn, and its
        wrapped angles and cleaned ranges scattered with one colour per point. */
    method Animate(m: MathLib, ok: bool, points: seq<ScanPoint>) returns (frame: Option<Frame>)
      modifies this
      ensures !ok ==> frame == None && scanCount == old(scanCount)
      ensures ok ==> scanCount == old(scanCount) + 1 && frame.Some? && frame.value.rlim == RMAX
      ensures ok && |points| == 0 ==> frame == Some(Frame(RMAX, [], [], [], []))
      ensures ok && 0 < |points| ==>
                var angles, clean := WrapAll(Angles(points)), CleanAll(Ranges(points), RMAX);
                var f := frame.value;
                && f.pointAngles == angles && f.pointRanges == clean
                && f.colours == ColoursOf(m, angles, clean)
                && |f.grid| == GRID_SIZE && IsGridOf(f.grid, angles, clean, RMAX)
                && f.grid[0] == f.grid[GRID_SIZE - 1]
                && (forall k :: 0 <= k < GRID_SIZE ==> 0.0 < f.grid[k] <= RMAX)
    {
      if !ok {
        return None;
      }
      scanCount := scanCount + 1;
      var angle, ran := Collect(points);
      if |angle| == 0 {
        return Some(Frame(RMAX, [], [], [], []));
      }
      var angles := WrapAll(angle);
      var rangesClean := CleanCopy(ran, RMAX);
      var grid := BoundaryGrid(angles, rangesClean, RMAX);
      ScanGridWithin(grid, angle, ran, RMAX);
      var colours := ColourPoints(m, angles, rangesClean);
      frame := Some(Frame(RMAX, grid, angles, rangesClean, colours));
    }
  }

  /** Unlike the raw colouring, a reading the sensor reports as range 0 is drawn, among
      the colours Animate hands to the plot, at RMAX and green, as free space. */
  lemma DropoutShownSafe(m: MathLib, points: seq<ScanPoint>, k: int)
    requires Lawful(m) && 0 <= k < |points| && points[k].range == 0.0
    ensures ColoursOf(m, WrapAll(Angles(points)), CleanAll(Ranges(points), RMAX))[k] == GREEN
  {
    FarIsSafe(m, WrapAngle(points[k].angle), RMAX);
  }

  /** Every cleaned point is drawn in (0, RMAX], and a point beyond RMAX in the raw
      scan is drawn at RMAX and green. */
  lemma CleanedPointsOnPlot(m: MathLib, points: seq<ScanPoint>, k: int)
    requires Lawful(m) && 0 <= k < |points|
    ensures 0.0 < CleanRange(points[k].range, RMAX) <= RMAX
    ensures RMAX < points[k].range ==>
              ColoursOf(m, WrapAll(Angles(points)), CleanAll(Ranges(points), RMAX))[k] == GREEN
  {
    if RMAX < points[k].range {
      FarIsSafe(m, WrapAngle(points[k].angle), RMAX);
    }
  }
}
