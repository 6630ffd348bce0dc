/** The older global parameter block (`GlobalVars`): a zoom that fixes the
    scale between physical and algorithm units, the conversions in both
    directions about the window centre, the clustering radius, the scan bins
    with their defaults, and the sigma bins in algorithm units. */
module GlobalVars {
  import opened ListComprehension
  import opened Configurations

  datatype Vars = Vars(
    scale: real, scale2: real, centreX: real, centreY: real,
    sigmaCount: nat, sigmaSpacing: Step, sigmaBins: seq<real>, sigmaBins2: seq<real>,
    probabilitySigma: seq<real>,
    maxR: real, maxR2: real, max2R: real, max2R2: real,
    rBins: nat, tBins: nat,
    minScanR: real, maxScanR: real, minScanT: real, maxScanT: real,
    dR: Step, dT: Step)

  /** `toAlgorithmUnits`: a physical length in algorithm units. */
  function ToAlgorithmUnits(g: Vars, p: real): real
  {
    p * g.scale
  }

  /** `toPhysicalUnits`: an algorithm length in physical units. */
  function ToPhysicalUnits(g: Vars, a: real): real
    requires g.scale != 0.0
  {
    a / g.scale
  }

  /** `toAlgorithmX`: a physical x relative to the centre, in algorithm units. */
  function ToAlgorithmX(g: Vars, x: real): real
  {
    ToAlgorithmUnits(g, x - g.centreX)
  }

  /** `toPhysicalX`. */
  function ToPhysicalX(g: Vars, a: real): real
    requires g.scale != 0.0
  {
    ToPhysicalUnits(g, a) + g.centreX
  }

  /** `toAlgorithmY`. */
  function ToAlgorithmY(g: Vars, y: real): real
  {
    ToAlgorithmUnits(g, y - g.centreY)
  }

  /** `toPhysicalY`. */
  function ToPhysicalY(g: Vars, a: real): real
    requires g.scale != 0.0
  {
    ToPhysicalUnits(g, a) + g.centreY
  }

  lemma MulDiv(p: real, s: real)
    requires s != 0.0
    ensures (p * s) / s == p && (p / s) * s == p
  {
  }

  /** Unit conversion is invertible in both directions for a non-zero scale. */
  lemma UnitsRoundTrip(g: Vars, p: real, a: real)
    requires g.scale != 0.0
    ensures ToPhysicalUnits(g, ToAlgorithmUnits(g, p)) == p
    ensures ToAlgorithmUnits(g, ToPhysicalUnits(g, a)) == a
  {
    MulDiv(p, g.scale);
    MulDiv(a, g.scale);
  }

  /** The x conversions are mutual inverses, and the centre maps to 0. */
  lemma XRoundTrip(g: Vars, x: real, a: real)
    requires g.scale != 0.0
    ensures ToPhysicalX(g, ToAlgorithmX(g, x)) == x
    ensures ToAlgorithmX(g, ToPhysicalX(g, a)) == a
    ensures ToAlgorithmX(g, g.centreX) == 0.0
  {
    UnitsRoundTrip(g, x - g.centreX, a);
  }

  /** The y conversions are mutual inverses, and the centre maps to 0. */
  lemma YRoundTrip(g: Vars, y: real, a: real)
    requires g.scale != 0.0
    ensures ToPhysicalY(g, ToAlgorithmY(g, y)) == y
    ensures ToAlgorithmY(g, ToPhysicalY(g, a)) == a
    ensures ToAlgorithmY(g, g.centreY) == 0.0
  {
    UnitsRoundTrip(g, y - g.centreY, a);
  }

  /** `SetZoom`: a window `zoom` wide spans algorithm units -1 to 1. */
  function SetZoom(g: Vars, zoom: real): (r: Vars)
    requires zoom != 0.0
    ensures r.scale * zoom == 2.0 && r.scale2 == r.scale * r.scale
    ensures r.(scale := g.scale, scale2 := g.scale2) == g
  {
    g.(scale := 2.0 / zoom, scale2 := (2.0 / zoom) * (2.0 / zoom))
  }

  /** After `SetZoom`, half the window is one algorithm unit. */
  lemma ZoomHalfIsUnit(g: Vars, zoom: real)
    requires zoom != 0.0
    ensures ToAlgorithmUnits(SetZoom(g, zoom), zoom / 2.0) == 1.0
  {
    var s := 2.0 / zoom;
    assert (zoom / 2.0) * s == 1.0;
  }

  /** `SetMaxR`: the clustering radius in algorithm units, its square, its
      double and the double's square. */
  function SetMaxR(g: Vars, radius: real): (r: Vars)
    ensures r.maxR == ToAlgorithmUnits(g, radius)
    ensures r.maxR2 == r.maxR * r.maxR && r.max2R == 2.0 * r.maxR && r.max2R2 == r.max2R * r.max2R
    ensures r.(maxR := g.maxR, maxR2 := g.maxR2, max2R := g.max2R, max2R2 := g.max2R2) == g
  {
    var m := radius * g.scale;
    g.(maxR := m, maxR2 := m * m, max2R := 2.0 * m, max2R2 := (2.0 * m) * (2.0 * m))
  }

  /** The stored radius converts back to the one given. */
  lemma MaxRIsRadius(g: Vars, radius: real)
    requires g.scale != 0.0
    ensures ToPhysicalUnits(SetMaxR(g, radius), SetMaxR(g, radius).maxR) == radius
    ensures SetMaxR(g, radius).max2R2 == 4.0 * SetMaxR(g, radius).maxR2
  {
    var m := radius * g.scale;
    MulDiv(radius, g.scale);
    assert (2.0 * m) * (2.0 * m) == 4.0 * (m * m);
  }

  /** `SetBins`: the counts and ranges of the scan; a negative largest R
      defaults to the clustering radius and a negative largest T to 2.5 times
      it; the steps are range over count. */
  function SetBins(g: Vars, nr: nat, nt: nat, minR: real, maxR: real, minT: real, maxT: real): (r: Vars)
    ensures r.rBins == nr && r.tBins == nt && r.minScanR == minR && r.minScanT == minT
    ensures r.maxScanR == (if maxR < 0.0 then g.maxR else maxR)
    ensures r.maxScanT == (if maxT < 0.0 then 2.5 * g.maxR else maxT)
    ensures r.dR == Divide(r.maxScanR - minR, nr) && r.dT == Divide(r.maxScanT - minT, nt)
    ensures r.(rBins := g.rBins, tBins := g.tBins, minScanR := g.minScanR, maxScanR := g.maxScanR,
               minScanT := g.minScanT, maxScanT := g.maxScanT, dR := g.dR, dT := g.dT) == g
  {
    var hiR := if maxR < 0.0 then g.maxR else maxR;
    var hiT := if maxT < 0.0 then 2.5 * g.maxR else maxT;
    g.(rBins := nr, tBins := nt, minScanR := minR, maxScanR := hiR, minScanT := minT, maxScanT := hiT,
       dR := Divide(hiR - minR, nr), dT := Divide(hiT - minT, nt))
  }

  /** A spacing scaled into algorithm units; a non-finite one stays so. */
  function ScaleStep(q: Step, scale: real): Step
  {
    match q
    case Finite(v) => Finite(v * scale)
    case NotFinite => NotFinite
  }

  /** `SetSigmaParameters`: the sigma bins are laid out in physical units,
      stored in algorithm units with their squares, and the probabilities are
      taken at the physical bins. */
  function SetSigmaParameters(g: Vars, count: nat, lo: real, hi: real, interpolate: real -> real): (r: Vars)
    ensures r.sigmaCount == count && r.sigmaSpacing == ScaleStep(Divide(hi - lo, count), g.scale)
    ensures |r.sigmaBins| == count && |r.sigmaBins2| == count && |r.probabilitySigma| == count
    ensures forall i :: 0 <= i < count ==>
              r.sigmaBins[i] == ToAlgorithmUnits(g, SigmaBin(lo, Spacing(count, lo, hi), i)) &&
              r.sigmaBins2[i] == r.sigmaBins[i] * r.sigmaBins[i] &&
              r.probabilitySigma[i] == interpolate(SigmaBin(lo, Spacing(count, lo, hi), i))
    ensures r.(sigmaCount := g.sigmaCount, sigmaSpacing := g.sigmaSpacing, sigmaBins := g.sigmaBins,
               sigmaBins2 := g.sigmaBins2, probabilitySigma := g.probabilitySigma) == g
  {
    var spacing := Spacing(count, lo, hi);
    var physical := Map((i: nat) => SigmaBin(lo, spacing, i), Range(count));
    var bins := Map((b: real) => b * g.scale, physical);
    g.(sigmaCount := count, sigmaSpacing := ScaleStep(Divide(hi - lo, count), g.scale),
       sigmaBins := bins, sigmaBins2 := Map((b: real) => b * b, bins),
       probabilitySigma := Map(interpolate, physical))
  }

  /** Each probability belongs to its stored bin: it is the interpolation at
      that bin converted back to physical units. */
  lemma SigmaProbabilityAtBin(g: Vars, count: nat, lo: real, hi: real, interpolate: real -> real, i: nat)
    requires g.scale != 0.0 && i < count
    ensures var r := SetSigmaParameters(g, count, lo, hi, interpolate);
            r.probabilitySigma[i] == interpolate(ToPhysicalUnits(g, r.sigmaBins[i]))
  {
    var b := SigmaBin(lo, Spacing(count, lo, hi), i);
    UnitsRoundTrip(g, b, 0.0);
  }
}
