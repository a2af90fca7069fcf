/** The proximity colouring of one LiDAR point (get_point_color, identical in the three
    display scripts): red up to the danger distance, then a red -> yellow -> green ramp
    up to the caution distance, then green. */
module Hazard {

  import opened RealArith

  /** An RGB triple with channels as numpy floats; the scripts only ever build b == 0. */
  datatype Rgb = Rgb(r: real, g: real, b: real) {
    predicate InUnitCube() {
      0.0 <= r <= 1.0 && 0.0 <= g <= 1.0 && 0.0 <= b <= 1.0
    }
  }

  const RED: Rgb := Rgb(1.0, 0.0, 0.0)
  const YELLOW: Rgb := Rgb(1.0, 1.0, 0.0)
  const GREEN: Rgb := Rgb(0.0, 1.0, 0.0)

  /** The two thresholds, in metres from the footprint. */
  datatype Zones = Zones(danger: real, caution: real)

  /** DANGER_ZONE = 0.20 and CAUTION_ZONE = 0.70 in all three scripts. */
  const HAZARD_ZONES: Zones := Zones(0.20, 0.70)

  /** (distance - DANGER_ZONE) / (CAUTION_ZONE - DANGER_ZONE): 0 at the danger distance,
      1 at the caution distance. */
  function Normalized(z: Zones, d: real): (n: real)
    requires z.danger < z.caution
    ensures z.danger < d <= z.caution ==> 0.0 < n <= 1.0
    ensures d == z.danger ==> n == 0.0
    ensures d == z.caution ==> n == 1.0
  {
    UnitQuotient(d - z.danger, z.caution - z.danger);
    (d - z.danger) / (z.caution - z.danger)
  }

  /** The two halves of the middle band: red to yellow below 0.5, yellow to green above. */
  function Blend(n: real): (c: Rgb)
    ensures c.b == 0.0
    ensures 0.0 <= n <= 1.0 ==> c.InUnitCube() && (c.r == 1.0 || c.g == 1.0)
    ensures n < 0.5 ==> c.r == 1.0
    ensures 0.5 <= n ==> c.g == 1.0
  {
    if n < 0.5 then
      var t := n * 2.0;
      Rgb(1.0, t, 0.0)
    else
      var t := (n - 0.5) * 2.0;
      Rgb(1.0 - t, 1.0, 0.0)
  }

  /** get_point_color. The middle branch is only reached when danger < d <= caution, so
      the division in Normalized is never by zero and no precondition is needed. */
  function PointColour(z: Zones, d: real): (c: Rgb)
    ensures c.b == 0.0 && c.InUnitCube() && (c.r == 1.0 || c.g == 1.0)
    ensures d <= z.danger ==> c == RED
    ensures z.danger < d && z.caution < d ==> c == GREEN
  {
    if d <= z.danger then
      RED
    else if d <= z.caution then
      Blend(Normalized(z, d))
    else
      GREEN
  }

  // An independent closed form of the whole colour map.

  /** Reference ramp on the clamped position n in [0, 1]: red falls as min(1, 2 - 2n),
      green rises as min(1, 2n). */
  function Ramp(n: real): Rgb {
    Rgb(Min(1.0, 2.0 - 2.0 * n), Min(1.0, 2.0 * n), 0.0)
  }

  /** With a non-empty band, the branchy get_point_color equals the clamped ramp
      everywhere: the outer branches are the ramp's ends. */
  lemma PointColourIsRamp(z: Zones, d: real)
    requires z.danger < z.caution
    ensures PointColour(z, d) == Ramp(Clip(Normalized(z, d), 0.0, 1.0))
  {
    var w := z.caution - z.danger;
    if d <= z.danger {
      QuotientMonotone(d - z.danger, 0.0, w);
      Quotient(0.0, w, 0.0);
    } else if z.caution < d {
      QuotientStrict(w, d - z.danger, w);
      Quotient(w, w, 1.0);
    }
  }

  /** The midpoint of the band is exactly yellow. */
  lemma MidpointIsYellow(z: Zones)
    requires z.danger < z.caution
    ensures PointColour(z, (z.danger + z.caution) / 2.0) == YELLOW
  {
    var d := (z.danger + z.caution) / 2.0;
    var w := z.caution - z.danger;
    assert d - z.danger == 0.5 * w;
    Quotient(d - z.danger, w, 0.5);
  }

  /** The middle formula meets the outer branches: it gives red at the danger distance
      and green at the caution distance, so the map has no jump at either threshold. */
  lemma BandEndsMatch(z: Zones)
    requires z.danger < z.caution
    ensures Blend(Normalized(z, z.danger)) == RED == PointColour(z, z.danger)
    ensures Blend(Normalized(z, z.caution)) == GREEN == PointColour(z, z.caution)
  {
  }

  /** Below the midpoint red is saturated, from the midpoint on green is. */
  lemma MiddleBandHalves(z: Zones, d: real)
    requires z.danger < d <= z.caution
    ensures d < (z.danger + z.caution) / 2.0 ==> PointColour(z, d).r == 1.0
    ensures (z.danger + z.caution) / 2.0 <= d ==> PointColour(z, d).g == 1.0
  {
    var w := z.caution - z.danger;
    Quotient(0.5 * w, w, 0.5);
    if d < (z.danger + z.caution) / 2.0 {
      QuotientStrict(d - z.danger, 0.5 * w, w);
    } else {
      QuotientMonotone(0.5 * w, d - z.danger, w);
    }
  }

  /** Moving away never makes a point look more dangerous: green never falls and red
      never rises with distance, on the whole real line. */
  lemma ColourMonotone(z: Zones, d1: real, d2: real)
    requires d1 <= d2
    ensures PointColour(z, d1).g <= PointColour(z, d2).g
    ensures PointColour(z, d2).r <= PointColour(z, d1).r
  {
    if z.danger < z.caution {
      PointColourIsRamp(z, d1);
      PointColourIsRamp(z, d2);
      NormalizedMonotone(z, d1, d2);
    }
  }

  lemma NormalizedMonotone(z: Zones, d1: real, d2: real)
    requires z.danger < z.caution && d1 <= d2
    ensures Normalized(z, d1) <= Normalized(z, d2)
    ensures Clip(Normalized(z, d1), 0.0, 1.0) <= Clip(Normalized(z, d2), 0.0, 1.0)
  {
    QuotientMonotone(d1 - z.danger, d2 - z.danger, z.caution - z.danger);
  }

  /** With the scripts' thresholds the colour is Lipschitz in distance: no channel
      changes by more than 4 per metre (2 / (CAUTION_ZONE - DANGER_ZONE)), so nearby
      points get nearby colours. */
  lemma ColourLipschitz(d1: real, d2: real)
    ensures Abs(PointColour(HAZARD_ZONES, d1).r - PointColour(HAZARD_ZONES, d2).r)
         <= 4.0 * Abs(d1 - d2)
    ensures Abs(PointColour(HAZARD_ZONES, d1).g - PointColour(HAZARD_ZONES, d2).g)
         <= 4.0 * Abs(d1 - d2)
  {
    ColourFollowsNormalized(HAZARD_ZONES, d1, d2);
  }

  /** In normalised units the colour changes by at most twice the change in position. */
  lemma ColourFollowsNormalized(z: Zones, d1: real, d2: real)
    requires z.danger < z.caution
    ensures Abs(PointColour(z, d1).r - PointColour(z, d2).r)
         <= 2.0 * Abs(Normalized(z, d1) - Normalized(z, d2))
    ensures Abs(PointColour(z, d1).g - PointColour(z, d2).g)
         <= 2.0 * Abs(Normalized(z, d1) - Normalized(z, d2))
  {
    PointColourIsRamp(z, d1);
    PointColourIsRamp(z, d2);
    ClampedRampLipschitz(Normalized(z, d1), Normalized(z, d2));
  }

  lemma ClampedRampLipschitz(n1: real, n2: real)
    ensures Abs(Ramp(Clip(n1, 0.0, 1.0)).r - Ramp(Clip(n2, 0.0, 1.0)).r) <= 2.0 * Abs(n1 - n2)
    ensures Abs(Ramp(Clip(n1, 0.0, 1.0)).g - Ramp(Clip(n2, 0.0, 1.0)).g) <= 2.0 * Abs(n1 - n2)
  {
    ClampShrinks(n1, n2);
    RampLipschitz(Clip(n1, 0.0, 1.0), Clip(n2, 0.0, 1.0));
  }

  lemma ClampShrinks(n1: real, n2: real)
    ensures Abs(Clip(n1, 0.0, 1.0) - Clip(n2, 0.0, 1.0)) <= Abs(n1 - n2)
  {
  }

  lemma RampLipschitz(m1: real, m2: real)
    ensures Abs(Ramp(m1).r - Ramp(m2).r) <= 2.0 * Abs(m1 - m2)
    ensures Abs(Ramp(m1).g - Ramp(m2).g) <= 2.0 * Abs(m1 - m2)
  {
  }
}
