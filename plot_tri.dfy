/** The fixed-range display (plot_tri_maxfreq.py): every frame scatters the raw scan
    coloured by distance to the footprint, on a radial axis fixed at RMAX. */
module PlotTri {

  import opened Scan

  /** The fixed radial limit of the plot, in metres. */
  const RMAX: real := 5.0

  /** The script's module-level state: the number of scans processed. */
  class Display {
    var scanCount: nat

    constructor ()
      ensures scanCount == 0
    {
      scanCount := 0;
    }

    /** animate(num): ok is what laser.doProcessSimple(scan) returned and points is
        scan.points. A failed read draws nothing; otherwise the scan is counted and
        its raw points are scattered, one colour per point in scan order. */
    method Animate(m: MathLib, ok: bool, points: seq<ScanPoint>) returns (frame: Option<Frame>)
      modifies this
      ensures !ok ==> frame == None && scanCount == old(scanCount)
      ensures ok ==> scanCount == old(scanCount) + 1
      ensures ok ==> frame == Some(Frame(RMAX, [], Angles(points), Ranges(points),
                                        ColoursOf(m, Angles(points), Ranges(points))))
    {
      if !ok {
        return None;
      }
      scanCount := scanCount + 1;
      var angle, ran := Collect(points);
      var colours := [];
      if |angle| > 0 {
        colours := ColourPoints(m, angle, ran);
      }
      frame := Some(Frame(RMAX, [], angle, ran, colours));
    }
  }
}
