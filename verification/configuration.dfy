/** The scan configuration (`Configuration`): the RoI window, the sigma bins
    the score integrates over, and the R and T bins of the scan, with the
    post-parse binning guards and the process-wide current configuration.
    Floating-point division by a zero bin count yields an infinity or NaN;
    `Step` keeps that outcome apart from a finite step. */
module Configurations {
  import opened Wrappers
  import opened ListComprehension

  /** `std::size_t(-1)`, the "unset" value of the bin counts. */
  const SizeMax: nat := 0x1_0000_0000_0000_0000 - 1

  /** The quotient of a range by a bin count: finite, or not a number when the
      count is 0. */
  datatype Step = Finite(value: real) | NotFinite

  /** `range / bins` in floating point. */
  function Divide(range: real, bins: nat): (q: Step)
    ensures q.Finite? <==> bins > 0
    ensures q.Finite? ==> q.value * bins as real == range
  {
    if bins == 0 then NotFinite else Finite(range / bins as real)
  }

  datatype Configuration = Configuration(
    centreX: real, centreY: real,
    widthX: real, widthY: real, area: real,
    sigmaCount: nat, sigmaSpacing: Step, sigmaBins: seq<real>, sigmaBins2: seq<real>,
    probabilitySigma: seq<real>,
    maxR: real, maxR2: real, max2R: real, max2R2: real,
    minScanR: real, maxScanR: real, minScanT: real, maxScanT: real,
    dR: Step, dT: Step,
    rBins: nat, tBins: nat,
    validate: bool, inputFile: string, outputFile: string,
    clusterR: real, clusterT: real)

  /** `Configuration()`: an empty window at the origin, every count unset
      (`size_t(-1)`), every other number -1, no validation and no files. */
  function Default(): (c: Configuration)
    ensures c.centreX == 0.0 && c.centreY == 0.0 && c.widthX == 0.0 && c.widthY == 0.0 && c.area == 0.0
    ensures c.sigmaCount == SizeMax && c.rBins == SizeMax && c.tBins == SizeMax
    ensures c.sigmaSpacing == Finite(-1.0) && c.dR == Finite(-1.0) && c.dT == Finite(-1.0)
    ensures c.maxR == -1.0 && c.maxR2 == -1.0 && c.max2R == -1.0 && c.max2R2 == -1.0
    ensures c.minScanR == -1.0 && c.maxScanR == -1.0 && c.minScanT == -1.0 && c.maxScanT == -1.0
    ensures c.sigmaBins == [] && c.sigmaBins2 == [] && c.probabilitySigma == []
    ensures !c.validate && c.inputFile == "" && c.outputFile == ""
    ensures c.clusterR == -1.0 && c.clusterT == -1.0
  {
    Configuration(0.0, 0.0, 0.0, 0.0, 0.0,
                  SizeMax, Finite(-1.0), [], [], [],
                  -1.0, -1.0, -1.0, -1.0,
                  -1.0, -1.0, -1.0, -1.0,
                  Finite(-1.0), Finite(-1.0),
                  SizeMax, SizeMax,
                  false, "", "",
                  -1.0, -1.0)
  }

  /** `SetCentre`: the centre is stored; nothing else changes. */
  function SetCentre(c: Configuration, x: real, y: real): (r: Configuration)
    ensures r.centreX == x && r.centreY == y
    ensures r.(centreX := c.centreX, centreY := c.centreY) == c
  {
    c.(centreX := x, centreY := y)
  }

  /** `SetWidth`: the widths are stored and the area is their product; nothing
      else changes. */
  function SetWidth(c: Configuration, wx: real, wy: real): (r: Configuration)
    ensures r.widthX == wx && r.widthY == wy && r.area == wx * wy
    ensures r.(widthX := c.widthX, widthY := c.widthY, area := c.area) == c
  {
    c.(widthX := wx, widthY := wy, area := wx * wy)
  }

  /** Sigma bin `i`: `i * spacing + min`. */
  function SigmaBin(lo: real, spacing: real, i: nat): real
  {
    i as real * spacing + lo
  }

  /** The spacing the bins use; with no bins it is never used. */
  function Spacing(count: nat, lo: real, hi: real): real
  {
    if count == 0 then 0.0 else (hi - lo) / count as real
  }

  /** `SetSigmaParameters`: `count` bins from `lo` in steps of `(hi - lo) /
      count`, their squares, and the interpolated probability of each; the
      logarithms of the probabilities are left out. */
  function SetSigmaParameters(c: Configuration, count: nat, lo: real, hi: real, interpolate: real -> real): (r: Configuration)
    ensures r.sigmaCount == count && r.sigmaSpacing == Divide(hi - lo, count)
    ensures |r.sigmaBins| == count && |r.sigmaBins2| == count && |r.probabilitySigma| == count
    ensures forall i :: 0 <= i < count ==>
              r.sigmaBins[i] == SigmaBin(lo, Spacing(count, lo, hi), i) &&
              r.sigmaBins2[i] == r.sigmaBins[i] * r.sigmaBins[i] &&
              r.probabilitySigma[i] == interpolate(r.sigmaBins[i])
    ensures r.(sigmaCount := c.sigmaCount, sigmaSpacing := c.sigmaSpacing, sigmaBins := c.sigmaBins,
               sigmaBins2 := c.sigmaBins2, probabilitySigma := c.probabilitySigma) == c
  {
    var spacing := Spacing(count, lo, hi);
    var bins := Map((i: nat) => SigmaBin(lo, spacing, i), Range(count));
    c.(sigmaCount := count, sigmaSpacing := Divide(hi - lo, count), sigmaBins := bins,
       sigmaBins2 := Map((b: real) => b * b, bins), probabilitySigma := Map(interpolate, bins))
  }

  /** The sigma bins start at `lo`, step by the stored spacing, and one more
      step past the last bin lands on `hi`. */
  lemma SigmaBinsSpan(c: Configuration, count: nat, lo: real, hi: real, interpolate: real -> real)
    requires count > 0
    ensures var r := SetSigmaParameters(c, count, lo, hi, interpolate);
            r.sigmaBins[0] == lo &&
            (forall i :: 0 < i < count ==> r.sigmaBins[i] == r.sigmaBins[i - 1] + r.sigmaSpacing.value) &&
            r.sigmaBins[count - 1] + r.sigmaSpacing.value == hi
  {
    var r := SetSigmaParameters(c, count, lo, hi, interpolate);
    assert r.sigmaSpacing.value == Spacing(count, lo, hi);
    BinsSpan(r.sigmaBins, count, lo, hi);
  }

  /** Bins `lo + i * d` with `d = (hi - lo) / count` step by `d` and end one
      step short of `hi`. */
  lemma BinsSpan(bins: seq<real>, count: nat, lo: real, hi: real)
    requires count > 0 && |bins| == count
    requires forall i :: 0 <= i < count ==> bins[i] == SigmaBin(lo, Spacing(count, lo, hi), i)
    ensures bins[0] == lo
    ensures forall i :: 0 < i < count ==> bins[i] == bins[i - 1] + Spacing(count, lo, hi)
    ensures bins[count - 1] + Spacing(count, lo, hi) == hi
  {
    var d := Spacing(count, lo, hi);
    forall i | 0 < i < count
      ensures bins[i] == bins[i - 1] + d
    {
      BinStep(lo, d, i - 1);
    }
    BinStep(lo, d, count - 1);
    StepsCover(lo, hi, count);
  }

  lemma BinStep(lo: real, d: real, i: nat)
    ensures SigmaBin(lo, d, i + 1) == SigmaBin(lo, d, i) + d
  {
  }

  /** `count` steps of `(hi - lo) / count` lead from `lo` to `hi`. */
  lemma StepsCover(lo: real, hi: real, count: nat)
    requires count > 0
    ensures SigmaBin(lo, Spacing(count, lo, hi), count) == hi
  {
    var d := (hi - lo) / count as real;
    assert d * count as real == hi - lo;
  }

  /** `SetRBins`: the R range and step, and the radii derived from the largest R;
      nothing else changes. */
  function SetRBins(c: Configuration, bins: nat, lo: real, hi: real): (r: Configuration)
    ensures r.rBins == bins && r.minScanR == lo && r.maxScanR == hi && r.dR == Divide(hi - lo, bins)
    ensures r.maxR == hi && r.maxR2 == hi * hi && r.max2R == 2.0 * hi
    ensures r.max2R2 == r.max2R * r.max2R
    ensures r.(rBins := c.rBins, minScanR := c.minScanR, maxScanR := c.maxScanR, dR := c.dR,
               maxR := c.maxR, maxR2 := c.maxR2, max2R := c.max2R, max2R2 := c.max2R2) == c
  {
    c.(rBins := bins, minScanR := lo, maxScanR := hi, dR := Divide(hi - lo, bins),
       maxR := hi, maxR2 := hi * hi, max2R := 2.0 * hi, max2R2 := (2.0 * hi) * (2.0 * hi))
  }

  /** The doubled radius squared is four times the radius squared. */
  lemma RadiiAgree(c: Configuration, bins: nat, lo: real, hi: real)
    ensures SetRBins(c, bins, lo, hi).max2R2 == 4.0 * SetRBins(c, bins, lo, hi).maxR2
  {
    assert (2.0 * hi) * (2.0 * hi) == 4.0 * (hi * hi);
  }

  /** `SetTBins`: the T range and step; nothing else changes. */
  function SetTBins(c: Configuration, bins: nat, lo: real, hi: real): (r: Configuration)
    ensures r.tBins == bins && r.minScanT == lo && r.maxScanT == hi && r.dT == Divide(hi - lo, bins)
    ensures r.(tBins := c.tBins, minScanT := c.minScanT, maxScanT := c.maxScanT, dT := c.dT) == c
  {
    c.(tBins := bins, minScanT := lo, maxScanT := hi, dT := Divide(hi - lo, bins))
  }

  /** The binning options that `FromVector` applies after parsing. */
  datatype Binning = Binning(nr: nat, rLo: real, rHi: real,
                             nt: nat, tLo: real, tHi: real,
                             nsig: nat, sigLo: real, sigHi: real)

  /** The post-parse guards: each binning is applied only when its count is
      non-zero. */
  function ApplyBinning(c: Configuration, b: Binning, interpolate: real -> real): (r: Configuration)
    ensures b.nr == 0 ==> r.rBins == c.rBins && r.dR == c.dR && r.maxR == c.maxR
    ensures b.nr > 0 ==> r.rBins == b.nr && r.minScanR == b.rLo && r.maxScanR == b.rHi && r.dR.Finite?
    ensures b.nt == 0 ==> r.tBins == c.tBins && r.dT == c.dT
    ensures b.nt > 0 ==> r.tBins == b.nt && r.minScanT == b.tLo && r.maxScanT == b.tHi && r.dT.Finite?
    ensures b.nsig == 0 ==> r.sigmaCount == c.sigmaCount && r.sigmaBins == c.sigmaBins
    ensures b.nsig > 0 ==> r.sigmaCount == b.nsig && |r.sigmaBins| == b.nsig && r.sigmaSpacing.Finite?
    ensures r.centreX == c.centreX && r.centreY == c.centreY && r.area == c.area
  {
    var c1 := if b.nr > 0 then SetRBins(c, b.nr, b.rLo, b.rHi) else c;
    var c2 := if b.nt > 0 then SetTBins(c1, b.nt, b.tLo, b.tHi) else c1;
    if b.nsig > 0 then SetSigmaParameters(c2, b.nsig, b.sigLo, b.sigHi, interpolate) else c2
  }

  /** `Configuration::Current`: the configuration last registered, if any. */
  datatype Registry = Registry(current: Option<Configuration>)

  /** No configuration registered yet. */
  function NoRegistry(): Registry
  {
    Registry(None)
  }

  /** `CurrentConfiguration()`: the registered configuration, or the error it
      throws when none is. */
  function CurrentConfiguration(reg: Registry): (r: Result<Configuration, string>)
    ensures r.Err? <==> reg.current.None?
    ensures r.Err? ==> r.error == "Current configuration not set"
  {
    match reg.current
    case None => Err("Current configuration not set")
    case Some(c) => Ok(c)
  }

  /** `SetCurrentConfiguration(c)`. */
  function SetCurrentConfiguration(reg: Registry, c: Configuration): (r: Registry)
    ensures r.current.Some?
  {
    Registry(Some(c))
  }

  /** Before any configuration is set, asking for it throws; afterwards it is
      the last one set. */
  lemma CurrentIsLastSet(reg: Registry, c: Configuration, d: Configuration)
    ensures CurrentConfiguration(NoRegistry()).Err?
    ensures CurrentConfiguration(SetCurrentConfiguration(reg, c)) == Ok(c)
    ensures CurrentConfiguration(SetCurrentConfiguration(SetCurrentConfiguration(reg, d), c)) == Ok(c)
  {
  }
}
