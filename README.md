# LiDAR wheelchair display: a verified model

The repository drives a YDLIDAR triangulation scanner mounted on a wheelchair and shows each scan on a polar plot.

The scanner sits at the centre of a 0.50 m × 0.60 m footprint. Every point is coloured by its distance to the edge of that rectangle:
- red within 0.20 m;
- red → yellow → green across the 0.20–0.70 m band;
- green beyond 0.70 m.

Three display scripts share this colouring:

- `plot_tri_maxfreq.py` draws the raw points on a fixed 5 m axis.
- `Adaptive_Lidar_system.py` works on a fixed 6 m axis. It first:
  - wraps every angle into [-π, π);
  - replaces invalid ranges (≤ 0 or > RMAX) with RMAX;
  - sorts by angle;
  - repeats the scan one turn below and one turn above.

  It then interpolates a boundary onto 720 evenly spaced angles and clips it to [0, RMAX]. It shades the plot beyond that boundary, and scatters the *cleaned* points.
- `PlotMoving_Adaptive_Lidar_system.py` does the same against an auto-zooming limit `current_rmax`. That limit follows 1.2 × the farthest reading. It is clamped to [2 m, 8 m] and smoothed exponentially with weight 0.3. This script scatters the *raw* points.

The modules follow that structure:

| module | file | contents |
|---|---|---|
| `RealArith` | real_arith.dfy | `Abs`, `Min`, `Max`, `Clip` (`np.clip`, which the footprint's nearest point and the colour ramp also use), `Square`, and small lemmas about products and quotients of reals |
| `Footprint` | footprint.dfy | `get_distance_to_wheelchair_boundary`: the per-axis overhang, the squared distance, and the distance through a square-root parameter |
| `Hazard` | hazard.dfy | `get_point_color`: the three zones and the two half-bands |
| `Boundary` | boundary.dfy | the pipeline: wrap, in-place cleaning, argsort (an insertion sort on an index array), gather, ±2π extension, `np.interp`, `np.linspace` |
| `Scan` | scan.dfy | the loops that collect `scan.points` into lists and build the colour list |
| `PlotTri`, `Adaptive`, `PlotMoving` | plot_tri.dfy, adaptive.dfy, plot_moving.dfy | one `Display` class per script; its fields are the script's globals and its `Animate` method is the script's `animate` |

All arithmetic is on mathematical reals:
- `np.pi` is the real number 3.141592653589793.
- `np.sqrt`, `np.cos` and `np.sin` are parameters (`Scan.MathLib`).
- The lemmas that need facts about these functions assume only that `sqrt` is the non-negative square root and that cos² + sin² = 1 (`Footprint.IsSqrt`, `Scan.Lawful`).

`get_point_color` divides by `CAUTION_ZONE - DANGER_ZONE` only inside the branch `DANGER_ZONE < d <= CAUTION_ZONE`. That branch is unreachable when the zones are degenerate, so the model follows the code: `Hazard.PointColour` has no precondition on the zones. Only the lemmas about the middle band require `danger < caution`.

`np.argsort` uses an unstable sort. `Boundary.BoundaryGrid` is therefore specified for *some* sorting permutation (`Boundary.IsGridOf`), and its proved properties hold for every such permutation.

## Model

| member | source | states |
|---|---|---|
| Footprint.Overhang | my_scripts/PlotMoving_Adaptive_Lidar_system.py:85-86 | the clamped per-axis overhang is non-negative, zero exactly when the coordinate is within the half-size, and otherwise the straight gap to the edge |
| Footprint.SquaredDistance | my_scripts/PlotMoving_Adaptive_Lidar_system.py:85-89 | dx² + dy² is non-negative and zero exactly for points inside or on the rectangle |
| Footprint.BoundaryDistance | my_scripts/PlotMoving_Adaptive_Lidar_system.py:81-89 | with a lawful sqrt the result is non-negative and its square is dx² + dy² |
| Footprint.SqrtOfSquare | my_scripts/PlotMoving_Adaptive_Lidar_system.py:89 | a lawful sqrt returns r for r² when r ≥ 0 |
| Footprint.SqrtMonotone | my_scripts/PlotMoving_Adaptive_Lidar_system.py:89 | a lawful sqrt is monotone |
| Footprint.DistanceZeroIffInside | my_scripts/PlotMoving_Adaptive_Lidar_system.py:81-89 | the distance is 0 if and only if \|x\| ≤ W/2 and \|y\| ≤ L/2, and positive otherwise |
| Footprint.DistanceOnAxes | my_scripts/PlotMoving_Adaptive_Lidar_system.py:85-89 | on the x axis beyond W/2 the distance is \|x\| − W/2; on the y axis beyond L/2 it is \|y\| − L/2 |
| Footprint.DistanceSymmetric | my_scripts/Adaptive_Lidar_system.py:83-87 | flipping the sign of either coordinate leaves the distance unchanged |
| Footprint.WheelchairAxisExample | my_scripts/plot_tri_maxfreq.py:82-86 | for the 0.50 × 0.60 footprint, the point (1.0, 0) is at distance 0.75 |
| Footprint.NearestPoint | my_scripts/plot_tri_maxfreq.py:75-86 | the per-axis clamp of (x, y) lies on the rectangle and realises dx² + dy², which is at most the squared distance to any point of the rectangle |
| Footprint.AxisNearest | my_scripts/plot_tri_maxfreq.py:82-83 | on one axis, the clamped overhang is the gap to the clamp point and at most the gap to any point within the half-size |
| Footprint.DistanceIsMinimal | my_scripts/Adaptive_Lidar_system.py:76-87 | the computed distance is at most the Euclidean distance to every point of the footprint, so it is the minimum distance the docstring promises |
| Hazard.Normalized | my_scripts/PlotMoving_Adaptive_Lidar_system.py:101 | on a non-degenerate band, normalized lies in (0, 1] inside the band, is 0 at DANGER_ZONE and is 1 at CAUTION_ZONE |
| Hazard.Blend | my_scripts/PlotMoving_Adaptive_Lidar_system.py:103-116 | blue is 0; for normalized in [0, 1] the triple lies in the unit cube with r = 1 or g = 1; below 0.5 red is 1, from 0.5 green is 1 |
| Hazard.PointColour | my_scripts/PlotMoving_Adaptive_Lidar_system.py:96-119 | blue is 0, the triple lies in the unit cube and one of r, g is 1; pure red at or below DANGER_ZONE; pure green above CAUTION_ZONE |
| Hazard.PointColourIsRamp | my_scripts/PlotMoving_Adaptive_Lidar_system.py:96-119 | the three branches together equal the ramp of normalized clamped to [0, 1] |
| Hazard.MidpointIsYellow | my_scripts/plot_tri_maxfreq.py:99-112 | the midpoint of the danger–caution interval is exactly yellow (1, 1, 0) |
| Hazard.BandEndsMatch | my_scripts/Adaptive_Lidar_system.py:97-114 | the middle formula gives red at DANGER_ZONE and green at CAUTION_ZONE, the outer branches' values, so the map is continuous |
| Hazard.MiddleBandHalves | my_scripts/plot_tri_maxfreq.py:101-112 | in the band, below the midpoint r = 1 and from the midpoint g = 1 |
| Hazard.ColourMonotone | my_scripts/Adaptive_Lidar_system.py:94-117 | green never decreases and red never increases as the distance grows |
| Hazard.NormalizedMonotone | my_scripts/Adaptive_Lidar_system.py:99 | normalized, and normalized clamped to [0, 1], are monotone in the distance |
| Hazard.ColourLipschitz | my_scripts/PlotMoving_Adaptive_Lidar_system.py:96-119 | for the scripts' zones, each channel changes by at most 4 per metre of distance |
| Hazard.ColourFollowsNormalized | my_scripts/PlotMoving_Adaptive_Lidar_system.py:99-116 | each channel changes by at most twice the change of normalized |
| Boundary.PyMod | my_scripts/PlotMoving_Adaptive_Lidar_system.py:164 | Python's float % with a positive modulus lies in [0, m) and is the identity on [0, m) |
| Boundary.WrapAngle | my_scripts/PlotMoving_Adaptive_Lidar_system.py:164 | the normalised angle lies in [-π, π) and an angle already there is unchanged |
| Boundary.WrapPeriodic | my_scripts/PlotMoving_Adaptive_Lidar_system.py:164 | adding any whole number of turns does not change the normalised angle |
| Boundary.WrapAll | my_scripts/Adaptive_Lidar_system.py:151 | the element-wise normalisation keeps the length and puts every angle in [-π, π) |
| Boundary.CleanRange | my_scripts/PlotMoving_Adaptive_Lidar_system.py:168-169 | a cleaned range lies in (0, rmax]; a valid range is kept and an invalid one becomes rmax |
| Boundary.CleanAll | my_scripts/Adaptive_Lidar_system.py:154-156 | the cleaned copy has the same length; for a positive limit every entry is a valid range in (0, rmax]; each valid reading is kept in place and every invalid one becomes rmax |
| Boundary.CleanInPlace | my_scripts/PlotMoving_Adaptive_Lidar_system.py:168-169 | the masked assignment leaves the array equal to the cleaned old contents |
| Boundary.CleanCopy | my_scripts/PlotMoving_Adaptive_Lidar_system.py:167-169 | np.copy followed by the masked assignment returns the cleaned ranges and leaves the input alone |
| Boundary.ArgSort | my_scripts/PlotMoving_Adaptive_Lidar_system.py:172 | the result is a permutation of the indices that orders the keys non-decreasingly |
| Boundary.GatherPermutes | my_scripts/Adaptive_Lidar_system.py:161-162 | gathering through a permutation yields a permutation of the array (equal multisets) |
| Boundary.SortedScan | my_scripts/Adaptive_Lidar_system.py:160-162 | a_sorted is non-decreasing and a permutation of the angles; r_sorted is a permutation of the ranges; the (angle, range) pairs are permuted together |
| Boundary.ExtendedSorted | my_scripts/Adaptive_Lidar_system.py:165 | a_ext holds the three shifted copies of the scan, so its length is 3n, and for sorted angles in [-π, π) it is non-decreasing |
| Boundary.LastAtMost | my_scripts/PlotMoving_Adaptive_Lidar_system.py:182 | np.interp's bracket: the last position whose sample is at or below x |
| Boundary.Lerp | my_scripts/PlotMoving_Adaptive_Lidar_system.py:182 | the chord value is the average of y0 and y1 weighted by the distances of x to the far ends, v·(x1 − x0) = y0·(x1 − x) + y1·(x − x0), and so lies between the two values |
| Boundary.Interp | my_scripts/PlotMoving_Adaptive_Lidar_system.py:182 | np.interp gives the last value right of the samples and the first value left of them; whatever the positions, the result lies between two sample values (the value at and between samples is stated by InterpAtSample and InterpBetweenNeighbours) |
| Boundary.InterpAtSample | my_scripts/Adaptive_Lidar_system.py:170 | on sorted positions, at a sample position the value is that sample's |
| Boundary.InterpBetweenNeighbours | my_scripts/Adaptive_Lidar_system.py:170 | on sorted positions, strictly between two neighbouring samples the value is their linear interpolation, v·(xp[k+1] − xp[k]) = fp[k]·(xp[k+1] − x) + fp[k+1]·(x − xp[k]), and so lies between the two sample values |
| Boundary.InterpBounded | my_scripts/Adaptive_Lidar_system.py:170 | when every sample value lies in (lo, hi], so does the interpolated value |
| Boundary.Theta | my_scripts/PlotMoving_Adaptive_Lidar_system.py:181 | grid angle k lies in [-π, π], the first is -π and the last is π |
| Boundary.ThetaIncreasing | my_scripts/PlotMoving_Adaptive_Lidar_system.py:181 | the grid angles are strictly increasing, one step apart |
| RealArith.Clip | my_scripts/PlotMoving_Adaptive_Lidar_system.py:183 | for lo ≤ hi the clipped value lies in [lo, hi]: it is lo below lo, v inside the interval and hi above it; for hi < lo it is hi |
| Boundary.GridOf | my_scripts/Adaptive_Lidar_system.py:169-172 | r_grid has 720 entries, all in [0, rmax] |
| Boundary.BoundaryGrid | my_scripts/PlotMoving_Adaptive_Lidar_system.py:172-183 | sort, extend, interpolate and clip give a 720-entry grid in [0, rmax]; the grid is the interpolation of a sorted arrangement of the scan, and its values at -π and π agree |
| Boundary.Seam | my_scripts/PlotMoving_Adaptive_Lidar_system.py:176-182 | thanks to the ±2π copies, interpolating at -π and at π gives the same value |
| Boundary.GridSeam | my_scripts/Adaptive_Lidar_system.py:164-172 | the first and last grid entries, both on the -π/π ray, coincide |
| Boundary.GridWithin | my_scripts/Adaptive_Lidar_system.py:169-172 | on cleaned ranges every interpolated value already lies in (0, rmax], so the clip changes nothing |
| Boundary.ScanGridWithin | my_scripts/Adaptive_Lidar_system.py:151-172 | for any scan, every entry of the boundary built from the wrapped angles and cleaned ranges lies in (0, rmax] |
| Boundary.ShadeNeedsEcho | my_scripts/PlotMoving_Adaptive_Lidar_system.py:186-187 | a grid angle is shaded (r_grid < rmax) only if some cleaned reading lies nearer than rmax |
| Boundary.NoEchoNoShade | my_scripts/Adaptive_Lidar_system.py:153-180 | if no raw reading lies in (0, rmax), no part of the plot is shaded |
| Scan.Collect | my_scripts/PlotMoving_Adaptive_Lidar_system.py:127-132 | the append loop yields exactly the scan's angles and ranges in order |
| Scan.CartesianX | my_scripts/PlotMoving_Adaptive_Lidar_system.py:196 | with cos² + sin² = 1, \|x\| never exceeds \|r\| |
| Scan.CartesianY | my_scripts/PlotMoving_Adaptive_Lidar_system.py:197 | with cos² + sin² = 1, \|y\| never exceeds \|r\| |
| Scan.PointColourAt | my_scripts/PlotMoving_Adaptive_Lidar_system.py:196-203 | a point's colour has blue 0 and lies in the unit cube |
| Scan.ColourPoints | my_scripts/PlotMoving_Adaptive_Lidar_system.py:193-204 | the zip loop appends one colour per pair, in order, stopping at the shorter list; the k-th is the colour of the k-th point |
| Scan.RawDropoutIsRed | my_scripts/plot_tri_maxfreq.py:148-157 | colouring raw ranges, a reading of range 0 is drawn red |
| Scan.NearIsRed | my_scripts/PlotMoving_Adaptive_Lidar_system.py:194-203 | a reading within 0.25 m of the scanner is red, whatever its bearing |
| Scan.PolarRadius | my_scripts/PlotMoving_Adaptive_Lidar_system.py:196-197 | x² + y² equals r² |
| Scan.FarIsSafe | my_scripts/PlotMoving_Adaptive_Lidar_system.py:194-203 | a reading at 1.5 m or more is green, whatever its bearing |
| Scan.GreenBeyond | my_scripts/PlotMoving_Adaptive_Lidar_system.py:85-119 | a point with x² + y² ≥ 2.25 is more than 0.7 m from the footprint and green |
| PlotTri.Display.constructor | my_scripts/plot_tri_maxfreq.py:70 | scan_count starts at 0 |
| PlotTri.Display.Animate | my_scripts/plot_tri_maxfreq.py:119-164 | a failed read draws nothing and leaves the count; otherwise the count goes up by one and the frame shows the raw points on the 5 m axis with their colours in order |
| Adaptive.Display.constructor | my_scripts/Adaptive_Lidar_system.py:71 | scan_count starts at 0 |
| Adaptive.Display.Animate | my_scripts/Adaptive_Lidar_system.py:119-198 | a failed read draws nothing; otherwise the count goes up by one; a non-empty scan shows the wrapped angles and cleaned ranges with their colours, and a 720-entry boundary in (0, 6] that is the grid of the scan and closes at -π/π |
| Adaptive.DropoutShownSafe | my_scripts/Adaptive_Lidar_system.py:153-194 | in the colour list Animate draws (that of the wrapped angles and cleaned ranges), a reading of range 0 is drawn at RMAX and green |
| Adaptive.CleanedPointsOnPlot | my_scripts/Adaptive_Lidar_system.py:154-198 | every cleaned point is drawn in (0, RMAX]; a reading beyond RMAX is drawn at RMAX and green |
| PlotMoving.MaxRange | my_scripts/PlotMoving_Adaptive_Lidar_system.py:136 | max(ran) is one of the readings and no reading exceeds it |
| PlotMoving.TargetRmax | my_scripts/PlotMoving_Adaptive_Lidar_system.py:137-138 | target_rmax lies in [RMIN_DISPLAY, RMAX_ABSOLUTE]; it is 1.2·max when that is in range, and the nearer bound otherwise |
| PlotMoving.Smooth | my_scripts/PlotMoving_Adaptive_Lidar_system.py:141 | the smoothed limit lies between the current limit and the target and closes 30% of the gap |
| PlotMoving.NextRmax | my_scripts/PlotMoving_Adaptive_Lidar_system.py:135-143 | one update keeps the limit in [RMIN_DISPLAY, RMAX_ABSOLUTE]; an empty scan resets it to RMAX_ABSOLUTE; a non-empty scan leaves 70% of the gap to the target |
| PlotMoving.RmaxStaysInZoom | my_scripts/PlotMoving_Adaptive_Lidar_system.py:74-143 | from its start at RMAX_ABSOLUTE, the limit stays in [RMIN_DISPLAY, RMAX_ABSOLUTE] after any sequence of scans |
| PlotMoving.RmaxSettles | my_scripts/PlotMoving_Adaptive_Lidar_system.py:136-141 | when every scan has the same target, the remaining gap after n scans is Gap(RMAX_ABSOLUTE − target, n) |
| PlotMoving.GapGeometric | my_scripts/PlotMoving_Adaptive_Lidar_system.py:141 | that gap is 0.7ⁿ times the initial gap; it never grows and never changes sign, so the zoom never overshoots |
| PlotMoving.Display.constructor | my_scripts/PlotMoving_Adaptive_Lidar_system.py:73-74 | scan_count starts at 0 and current_rmax at RMAX_ABSOLUTE |
| PlotMoving.Display.Animate | my_scripts/PlotMoving_Adaptive_Lidar_system.py:121-207 | a failed read changes and draws nothing. Otherwise the count goes up by one, current_rmax takes one NextRmax step and stays in range, and a non-empty scan shows the raw points with their colours and a 720-entry boundary in (0, current_rmax] built against the new limit, closing at -π/π |
| PlotMoving.ScanFrame | my_scripts/PlotMoving_Adaptive_Lidar_system.py:158-207 | for a non-empty scan and a positive limit, the frame scatters the raw angles and ranges with their colours in order, and its 720-entry boundary is the grid of the wrapped angles and the ranges cleaned against that limit, lies in (0, rmax] and closes at -π/π |

## Left out

- Sensor and drawing. Everything the ydlidar SDK does is left out: port discovery, option setting, `initialize`, `turnOn`, `doProcessSimple`, `turnOff` and `disconnecting`. `Animate` takes the read's success flag and `scan.points` as inputs. The matplotlib work is also left out (axes styling, `scatter`, `fill_between`, the footprint rectangle, the arrows and text, and the `FuncAnimation` timer). A frame is modelled as the values handed to matplotlib (`Scan.Frame`). For the shading, only its `where` condition is modelled (`Boundary.ShadeNeedsEcho`, `Boundary.NoEchoNoShade`).
- Console output and the frequency line `1.0 / scan.config.scan_time`: these are display only.
- `my_scripts/tof_test_maxfreq.py` and `my_scripts/tri_test_maxfreq.py`: they only configure the sensor and print statistics in a loop.
- Floating point. All values are exact reals, so IEEE rounding is not modelled:
  - `Boundary.Seam` and `Boundary.GridSeam` hold exactly in the reals. In float64, `-π - 2π` and `π` need not be exactly two turns apart.
  - `np.linspace` is modelled as `-π + k·step` with the last angle set to π exactly.
  - `np.pi` is the 16-digit decimal 3.141592653589793 rather than the binary double.
- NaN. Ranges are reals, so the `np.isnan` part of the invalid mask cannot arise.
  - In a float implementation, Python's `max` returns NaN only when the first reading is NaN (a later NaN never compares greater and is skipped). Such a first reading makes `target_rmax` and then `current_rmax` NaN, and `current_rmax` stays NaN until an empty scan resets it to `RMAX_ABSOLUTE`. `PlotMoving.RmaxStaysInZoom` does not cover that.
- `np.sqrt`, `np.cos` and `np.sin` are foreign numerical code and enter as parameters. The properties that need them assume only the laws in `Footprint.IsSqrt` and `Scan.Lawful`.
- Boundary.ArgSort: its result is an insertion sort's order. numpy's unstable quicksort may order equal angles differently. For that reason the scripts' grid is specified for any sorting permutation (`Boundary.IsGridOf`).
- Boundary.Interp: the bracket is the last position at or below x. For sorted positions this is what numpy's binary search finds. For unsorted positions, which never reach `np.interp` here, numpy may pick another bracket.
- Hazard.ColourLipschitz: it is stated only for the scripts' zones (0.20, 0.70). The general form is `Hazard.ColourFollowsNormalized`.
- PlotMoving.Display.Animate: the history of scans is ghost state. It is used only to state that `current_rmax` is the fold of `NextRmax` over the successful scans.
- The constants `LIDAR_X`, `LIDAR_Y` and `MAX_SENSING_DISTANCE`: the scripts define them but never read them.
