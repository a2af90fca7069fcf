/** The auto-zooming display (PlotMoving_Adaptive_Lidar_system.py): the radial limit
    current_rmax follows 1.2 times the farthest reading, kept within
    [RMIN_DISPLAY, RMAX_ABSOLUTE] and smoothed exponentially; the boundary is
    interpolated against it and the raw points are scattered. */
module PlotMoving {

  import opened RealArith
  import opened Boundary
  import opened Scan

  /** The sensor's maximum range and the widest zoom, in metres. */
  const RMAX_ABSOLUTE: real := 8.0
  /** The narrowest zoom, in metres. */
  const RMIN_DISPLAY: real := 2.0
  /** Headroom above the farthest reading. */
  const SCALE_MARGIN: real := 1.2
  /** The weight of the new target in each smoothing step. */
  const SMOOTHING_FACTOR: real := 0.3

  /** The range current_rmax is meant to stay in. */
  predicate InZoom(rmax: real) { RMIN_DISPLAY <= rmax <= RMAX_ABSOLUTE }

  /** max(ran): the farthest reading of a non-empty scan. */
  function MaxRange(ran: seq<real>): (mx: real)
    requires 0 < |ran|
    ensures exists k :: 0 <= k < |ran| && ran[k] == mx
    ensures forall k :: 0 <= k < |ran| ==> ran[k] <= mx
  {
    if |ran| == 1 then ran[0]
    else
      var rest := MaxRange(ran[1..]);
      assert forall k :: 1 <= k < |ran| ==> ran[k] == ran[1..][k - 1];
      if rest < ran[0] then ran[0] else rest
  }

  /** target_rmax = max(min(max_distance * SCALE_MARGIN, RMAX_ABSOLUTE), RMIN_DISPLAY):
      the margin-scaled farthest reading, clamped into the zoom range. */
  function TargetRmax(maxDistance: real): (t: real)
    ensures InZoom(t)
    ensures InZoom(maxDistance * SCALE_MARGIN) ==> t == maxDistance * SCALE_MARGIN
    ensures RMAX_ABSOLUTE <= maxDistance * SCALE_MARGIN ==> t == RMAX_ABSOLUTE
    ensures maxDistance * SCALE_MARGIN <= RMIN_DISPLAY ==> t == RMIN_DISPLAY
  {
    Max(Min(maxDistance * SCALE_MARGIN, RMAX_ABSOLUTE), RMIN_DISPLAY)
  }

  /** current_rmax * (1 - SMOOTHING_FACTOR) + target_rmax * SMOOTHING_FACTOR: a convex
      combination that closes 30% of the gap to the target. */
  function Smooth(current: real, target: real): (s: real)
    ensures Min(current, target) <= s <= Max(current, target)
    ensures s - target == (1.0 - SMOOTHING_FACTOR) * (current - target)
  {
    current * (1.0 - SMOOTHING_FACTOR) + target * SMOOTHING_FACTOR
  }

  /** The update of current_rmax for one successfully read scan: smoothing towards
      the target for a non-empty scan, a reset to RMAX_ABSOLUTE for an empty one. */
  function NextRmax(current: real, ran: seq<real>): (n: real)
    ensures InZoom(current) ==> InZoom(n)
    ensures |ran| == 0 ==> n == RMAX_ABSOLUTE
    ensures 0 < |ran| ==> n - TargetRmax(MaxRange(ran))
                          == (1.0 - SMOOTHING_FACTOR) * (current - TargetRmax(MaxRange(ran)))
  {
    if |ran| > 0 then Smooth(current, TargetRmax(MaxRange(ran))) else RMAX_ABSOLUTE
  }

  /** current_rmax after a run of successful scans, from its start at RMAX_ABSOLUTE. */
  function RmaxAfter(scans: seq<seq<real>>): real
  {
    if |scans| == 0 then RMAX_ABSOLUTE else NextRmax(RmaxAfter(scans[..|scans| - 1]), scans[|scans| - 1])
  }

  /** The zoom range is invariant: whatever the scans, current_rmax never leaves
      [RMIN_DISPLAY, RMAX_ABSOLUTE]. */
  lemma {:induction false} RmaxStaysInZoom(scans: seq<seq<real>>)
    ensures InZoom(RmaxAfter(scans))
  {
    if |scans| > 0 {
      RmaxStaysInZoom(scans[..|scans| - 1]);
    }
  }

  /** The distance left to a fixed target after n smoothing steps from an initial
      distance g. */
  function Gap(g: real, n: nat): real
  {
    if n == 0 then g else (1.0 - SMOOTHING_FACTOR) * Gap(g, n - 1)
  }

  /** Facing the same scene (every scan has the same target t), the zoom closes in on
      t: after n scans the distance left is Gap(RMAX_ABSOLUTE - t, n). */
  lemma {:induction false} RmaxSettles(scans: seq<seq<real>>, t: real)
    requires forall k :: 0 <= k < |scans| ==> 0 < |scans[k]| && TargetRmax(MaxRange(scans[k])) == t
    ensures RmaxAfter(scans) - t == Gap(RMAX_ABSOLUTE - t, |scans|)
  {
    if |scans| > 0 {
      var init := scans[..|scans| - 1];
      assert forall k :: 0 <= k < |init| ==> init[k] == scans[k];
      RmaxSettles(init, t);
      var last := scans[|scans| - 1];
      assert 0 < |last| && TargetRmax(MaxRange(last)) == t;
    }
  }

  function Power(b: real, n: nat): real
  {
    if n == 0 then 1.0 else b * Power(b, n - 1)
  }

  /** The settling is geometric, Gap(g, n) == 0.7^n * g, and never overshoots. */
  lemma {:induction false} GapGeometric(g: real, n: nat)
    ensures Gap(g, n) == Power(1.0 - SMOOTHING_FACTOR, n) * g
    ensures Abs(Gap(g, n)) <= Abs(g)
    ensures 0.0 <= g ==> 0.0 <= Gap(g, n)
    ensures g <= 0.0 ==> Gap(g, n) <= 0.0
  {
    if n > 0 {
      GapGeometric(g, n - 1);
      var p := Power(1.0 - SMOOTHING_FACTOR, n - 1);
      assert (1.0 - SMOOTHING_FACTOR) * (p * g) == ((1.0 - SMOOTHING_FACTOR) * p) * g;
    }
  }

  /** The script's module-level state: the scan counter and the zoom, with the
      zoom's history of successful scans as ghost state. */
  class Display {
    var scanCount: nat
    var currentRmax: real
    ghost var scans: seq<seq<real>>

    /** The zoom is the fold of NextRmax over the scans so far, hence in range. */
    ghost predicate Valid()
      reads this
    {
      currentRmax == RmaxAfter(scans) && InZoom(currentRmax) && scanCount == |scans|
    }

    constructor ()
      ensures Valid() && scanCount == 0 && currentRmax == RMAX_ABSOLUTE && scans == []
    {
      scanCount := 0;
      currentRmax := RMAX_ABSOLUTE;
      scans := [];
    }

    /** animate(num): ok is what laser.doProcessSimple(scan) returned and points is
        scan.points. A failed read changes and draws nothing. Otherwise the scan is
        counted, current_rmax is updated, and a non-empty scan is wrapped and cleaned
        against the new current_rmax, its boundary drawn, and its raw points scattered
        with one colour per point. */
    method Animate(m: MathLib, ok: bool, points: seq<ScanPoint>) returns (frame: Option<Frame>)
      requires Valid()
      modifies this
      ensures Valid()
      ensures !ok ==> frame == None && scanCount == old(scanCount)
                      && currentRmax == old(currentRmax) && scans == old(scans)
      ensures ok ==> scanCount == old(scanCount) + 1 && scans == old(scans) + [Ranges(points)]
      ensures ok ==> currentRmax == NextRmax(old(currentRmax), Ranges(points))
      ensures ok ==> frame.Some? && frame.value.rlim == currentRmax
      ensures ok && |points| == 0 ==> frame.value == Frame(currentRmax, [], [], [], [])
      ensures ok && 0 < |points| ==>
                var f := frame.value;
                && f.pointAngles == Angles(points) && f.pointRanges == Ranges(points)
                && f.colours == ColoursOf(m, Angles(points), Ranges(points))
                && |f.grid| == GRID_SIZE
                && IsGridOf(f.grid, WrapAll(Angles(points)), CleanAll(Ranges(points), currentRmax), currentRmax)
                && f.grid[0] == f.grid[GRID_SIZE - 1]
                && (forall k :: 0 <= k < GRID_SIZE ==> 0.0 < f.grid[k] <= currentRmax)
    {
      if !ok {
        return None;
      }
      scanCount := scanCount + 1;
      var angle, ran := Collect(points);
      if |ran| > 0 {
        var maxDistance := MaxRange(ran);
        var targetRmax := Min(maxDistance * SCALE_MARGIN, RMAX_ABSOLUTE);
        targetRmax := Max(targetRmax, RMIN_DISPLAY);
        currentRmax := currentRmax * (1.0 - SMOOTHING_FACTOR) + targetRmax * SMOOTHING_FACTOR;
      } else {
        currentRmax := RMAX_ABSOLUTE;
      }
      scans := scans + [ran];
      assert scans[..|scans| - 1] == old(scans);
      if |angle| == 0 {
        return Some(Frame(currentRmax, [], [], [], []));
      }
      var f := ScanFrame(m, angle, ran, currentRmax);
      frame := Some(f);
    }
  }

  /** The drawing part of animate for a non-empty scan against the limit rmax: the
      boundary is built from the wrapped angles and the ranges cleaned against rmax,
      and the raw points are scattered with one colour each. */
  method ScanFrame(m: MathLib, angle: seq<real>, ran: seq<real>, rmax: real) returns (frame: Frame)
    requires 0 < |angle| == |ran| && 0.0 < rmax
    ensures frame.rlim == rmax && frame.pointAngles == angle && frame.pointRanges == ran
    ensures frame.colours == ColoursOf(m, angle, ran)
    ensures |frame.grid| == GRID_SIZE && IsGridOf(frame.grid, WrapAll(angle), CleanAll(ran, rmax), rmax)
    ensures frame.grid[0] == frame.grid[GRID_SIZE - 1]
    ensures forall k :: 0 <= k < GRID_SIZE ==> 0.0 < frame.grid[k] <= rmax
  {
    var angles := WrapAll(angle);
    var rangesClean := CleanCopy(ran, rmax);
    var grid := BoundaryGrid(angles, rangesClean, rmax);
    ScanGridWithin(grid, angle, ran, rmax);
    var colours := ColourPoints(m, angle, ran);
    frame := Frame(rmax, grid, angle, ran, colours);
  }
}
