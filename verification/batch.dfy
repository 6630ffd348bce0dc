/** The Python driver's `__main__`: the command line picks a localisation file and
    a configuration template, the boxes found in the density image are scanned one
    child process at a time, at most ten of them, and an interrupt ends the batch.
    Reading the file, copying the template and running the child are parameters:
    the file's lines come from `read`, and the fate of the k-th child from `fate`. */
module Batch {
  import opened Wrappers
  import opened Grids
  import opened RoiBox
  import opened Blur
  import opened CsvReader
  import opened AreaSort
  import opened RoiSweep
  import opened ConfigRewrite

  /** How `process.wait()` returned: the child finished, or a KeyboardInterrupt
      arrived while waiting (the child is then killed). */
  datatype Outcome = Completed | Interrupted

  /** One scan: the box, its output file, the lines `writeLine` leaves in the
      configuration copy, and the command line run for it. */
  datatype Job = Job(box: Box, outfile: string, config: seq<string>, command: string)

  /** What a run of the script comes to. */
  datatype Run =
    | Usage                                  // the arguments lack a csv or a txt file
    | Crashed(error: ReadError)              // `reader` raised
    | Scanned(boxes: seq<Box>, jobs: seq<Job>)

  /** At most this many boxes are scanned (`scanAreas[:10]`). */
  const MaxScans := 10
  /** `blurAndThresh`'s defaults. */
  const Rounds := 15
  const Threshold := 0.2

  /** `s.endswith(suffix)`. */
  predicate EndsWith(s: string, suffix: string)
  {
    |s| >= |suffix| && s[|s| - |suffix|..] == suffix
  }

  /** The last argument ending in `suffix`, if any: the loop over `args` assigns
      each match in turn, so the last one wins. */
  function LastEndingIn(args: seq<string>, suffix: string): (r: Option<string>)
    ensures r.None? <==> forall k :: 0 <= k < |args| ==> !EndsWith(args[k], suffix)
    ensures r.Some? ==> exists k :: 0 <= k < |args| && args[k] == r.value && EndsWith(args[k], suffix) &&
                          forall j :: k < j < |args| ==> !EndsWith(args[j], suffix)
  {
    if args == [] then None
    else if EndsWith(args[|args| - 1], suffix) then Some(args[|args| - 1])
    else
      var r := LastEndingIn(args[..|args| - 1], suffix);
      assert forall k :: 0 <= k < |args| - 1 ==> args[..|args| - 1][k] == args[k];
      r
  }

  /** The argument check: both a csv and a txt argument are needed; the result is
      (data file, configuration template). */
  function Classify(args: seq<string>): (r: Option<(string, string)>)
    ensures r.Some? <==> (exists k :: 0 <= k < |args| && EndsWith(args[k], "csv")) &&
                         (exists k :: 0 <= k < |args| && EndsWith(args[k], "txt"))
    ensures r.Some? ==> r.value.0 == LastEndingIn(args, "csv").value && r.value.1 == LastEndingIn(args, "txt").value
  {
    match (LastEndingIn(args, "csv"), LastEndingIn(args, "txt"))
    case (Some(data), Some(config)) => Some((data, config))
    case _ => None
  }

  /** A later argument with the same ending replaces an earlier one. */
  lemma LastArgumentWins(args: seq<string>, a: string)
    requires Classify(args).Some? && EndsWith(a, "csv")
    ensures Classify(args + [a]) == Some((a, Classify(args).value.1))
  {
    assert (args + [a])[..|args|] == args;
    assert a[|a| - 3..] != "txt" by {
      assert a[|a| - 3..][2] == a[|a| - 1] == 'v';
    }
  }

  /** Python's `int(v)`: truncation toward zero. */
  function Trunc(v: real): (i: int)
    ensures v >= 0.0 ==> 0 <= i && i as real <= v < i as real + 1.0
    ensures v < 0.0 ==> i <= 0 && i as real - 1.0 < v <= i as real
  {
    if v >= 0.0 then v.Floor else -((-v).Floor)
  }

  /** `str(i)`: an optional minus sign, then digits. */
  function IntString(i: int): (s: string)
    ensures |s| >= 1 && forall k :: (if s[0] == '-' then 1 else 0) <= k < |s| ==> IsDigit(s[k])
  {
    if i < 0 then "-" + NatString(-i) else NatString(i)
  }

  /** The number `str(i)` denotes, read back. */
  function IntValue(s: string): int
    requires |s| >= 1
    requires forall k :: (if s[0] == '-' then 1 else 0) <= k < |s| ==> IsDigit(s[k])
  {
    if s[0] == '-' then 0 - DigitsValue(s[1..]) else DigitsValue(s)
  }

  /** `str` and reading back are inverse. */
  lemma IntStringValue(i: int)
    ensures IntValue(IntString(i)) == i
  {
    if i < 0 {
      NatStringValue(-i);
      assert IntString(i)[1..] == NatString(-i);
    } else {
      NatStringValue(i);
    }
  }

  /** `PATH + f'/results_SA_{int(cx)}_{int(cy)}_Z_{int(zoom)}.json'`. */
  function OutFile(path: string, b: Box): string
  {
    path + "/results_SA_" + IntString(Trunc(Centre(b).0)) + "_" + IntString(Trunc(Centre(b).1)) +
    "_Z_" + IntString(Trunc(Zoom(b))) + ".json"
  }

  /** The copy of the template the scan reads (`lFName`). */
  function TempConfig(path: string): string
  {
    path + "/tempconfig.txt"
  }

  /** The command line: the input is always `1_un_red.csv` next to the script,
      whatever data file was named on the command line. */
  function Command(path: string, outfile: string): string
  {
    path + "/Cluster.exe -i " + path + "/1_un_red.csv --cfg " + TempConfig(path) + " -o " + outfile
  }

  /** The job for box `b`: the template's lines (copied to `tempconfig.txt`) are
      rewritten for the box's centre and zoom before the child starts. */
  function JobFor(path: string, template: seq<string>, b: Box): Job
  {
    Job(b, OutFile(path, b), WriteLine(template, b), Command(path, OutFile(path, b)))
  }

  function Min(a: int, b: int): int
  {
    if a <= b then a else b
  }

  /** The loop over `scanAreas[:10]`: the k-th child's fate is `fate(k)`; an
      interrupted child ends the batch. The jobs started are the boxes' jobs, in
      order, up to and including the first interrupted one, and at most ten. */
  method Scan(boxes: seq<Box>, path: string, template: seq<string>, fate: nat -> Outcome) returns (jobs: seq<Job>)
    ensures |jobs| <= Min(MaxScans, |boxes|)
    ensures forall k :: 0 <= k < |jobs| ==> jobs[k] == JobFor(path, template, boxes[k])
    ensures forall k :: 0 <= k < |jobs| - 1 ==> fate(k) == Completed
    ensures |jobs| < Min(MaxScans, |boxes|) ==> |jobs| > 0 && fate(|jobs| - 1) == Interrupted
  {
    var started := Started(Min(MaxScans, |boxes|), fate);
    jobs := seq(started, k requires 0 <= k < started => JobFor(path, template, boxes[k]));
  }

  /** The jobs the scan loop starts for `boxes`: their jobs in order, at most ten,
      every one but the last completed, and fewer than ten (or than the boxes)
      only when the last was interrupted. */
  ghost predicate Scanning(boxes: seq<Box>, path: string, template: seq<string>, fate: nat -> Outcome, jobs: seq<Job>)
  {
    |jobs| <= Min(MaxScans, |boxes|) &&
    (forall k :: 0 <= k < |jobs| ==> jobs[k] == JobFor(path, template, boxes[k])) &&
    (forall k :: 0 <= k < |jobs| - 1 ==> fate(k) == Completed) &&
    (|jobs| < Min(MaxScans, |boxes|) ==> |jobs| > 0 && fate(|jobs| - 1) == Interrupted)
  }

  /** The boxes `roiID` returns for a 0/1 mask: the stable sort by area of the
      boxes of area at least 500 of its regions, one per region in sweep order. */
  ghost predicate RegionsBoxed(mask: seq<seq<int>>, boxes: seq<Box>)
    requires IsGrid(mask, Shape, Shape)
  {
    exists seeds: seq<Cell>, found: seq<Box> ::
      SeedsAndBoxes(mask, Shape, Shape, seeds, found) && boxes == SortByArea(Keep(found))
  }

  /** The mask the script labels: `blurAndThresh(image)` with its defaults. */
  function MaskOf(g: seq<seq<real>>): (m: seq<seq<int>>)
    requires IsGrid(g, Shape, Shape)
    ensures IsGrid(m, Shape, Shape)
    ensures forall x, y :: 0 <= x < Shape && 0 <= y < Shape ==> m[x][y] == 0 || m[x][y] == 1
  {
    BlurAndThresh(g, Shape, Shape, Rounds, Threshold)
  }

  /** How many of `n` children are started: all of them, unless one is
      interrupted, which is the last started. */
  method Started(n: nat, fate: nat -> Outcome) returns (started: nat)
    ensures started <= n
    ensures forall k :: 0 <= k < started - 1 ==> fate(k) == Completed
    ensures started < n ==> started > 0 && fate(started - 1) == Interrupted
  {
    var k := 0;
    while k < n
      invariant 0 <= k <= n
      invariant forall j :: 0 <= j < k ==> fate(j) == Completed
    {
      if fate(k) == Interrupted {
        return k + 1;
      }
      k := k + 1;
    }
    return n;
  }

  /** What the data file's `lines` decide: a read error ends the run with that
      error, an all-NaN image gives no boxes and no jobs, and a normalised image
      is scanned into the boxes of its mask's regions. */
  ghost predicate ReadOutcome(lines: seq<string>, parse: string -> Option<real>, r: Run)
  {
    match Reader(lines, ScaleFactor as real, parse)
    case Err(e) => r == Crashed(e)
    case Ok(AllNaN) => r == Scanned([], [])
    case Ok(Normalised(g)) => IsGrid(g, Shape, Shape) && r.Scanned? && RegionsBoxed(MaskOf(g), r.boxes)
  }

  /** The script: arguments, `reader`, `blurAndThresh(image)`, `roiID` and the
      scan loop; `read` gives a file's lines, for the data file and for the
      configuration template alike. A grid of NaN (nothing was counted) stays NaN
      through the blur, `NaN > threshold` is false, so the mask is all 0 and no box
      is found. */
  method RunScript(args: seq<string>, path: string, read: string -> seq<string>, parse: string -> Option<real>,
                   fate: nat -> Outcome)
    returns (r: Run)
    ensures r.Usage? <==> Classify(args).None?
    ensures Classify(args).Some? ==> ReadOutcome(read(Classify(args).value.0), parse, r)
    ensures r.Scanned? ==> SortedByArea(r.boxes) && forall k :: 0 <= k < |r.boxes| ==> Area(r.boxes[k]) >= MinArea
    ensures r.Scanned? ==> Scanning(r.boxes, path, read(Classify(args).value.1), fate, r.jobs)
  {
    match Classify(args)
    case None =>
      r := Usage;
    case Some((data, config)) =>
      assert Classify(args).value == (data, config);
      r := ScanFile(read(data), path, read(config), parse, fate);
  }

  /** The script once the arguments are accepted, from the data file's `lines`:
      a read error ends the run, an all-NaN image finds no box, and a normalised
      image is scanned. */
  method ScanFile(lines: seq<string>, path: string, template: seq<string>, parse: string -> Option<real>,
                  fate: nat -> Outcome)
    returns (r: Run)
    ensures !r.Usage?
    ensures ReadOutcome(lines, parse, r)
    ensures r.Scanned? ==> SortedByArea(r.boxes) && forall k :: 0 <= k < |r.boxes| ==> Area(r.boxes[k]) >= MinArea
    ensures r.Scanned? ==> Scanning(r.boxes, path, template, fate, r.jobs)
  {
    match Reader(lines, ScaleFactor as real, parse)
    case Err(e) =>
      r := Crashed(e);
    case Ok(AllNaN) =>
      r := Scanned([], []);
    case Ok(Normalised(g)) =>
      var boxes, jobs := ScanImage(g, path, template, fate);
      r := Scanned(boxes, jobs);
  }

  /** The script from a normalised image on: blur, threshold, label, scan. The
      boxes are those of the mask's regions, sorted by area, and the jobs follow
      the scan loop's fate rule. */
  method ScanImage(g: seq<seq<real>>, path: string, template: seq<string>, fate: nat -> Outcome)
    returns (boxes: seq<Box>, jobs: seq<Job>)
    requires IsGrid(g, Shape, Shape)
    ensures RegionsBoxed(MaskOf(g), boxes)
    ensures SortedByArea(boxes) && forall k :: 0 <= k < |boxes| ==> Area(boxes[k]) >= MinArea
    ensures Scanning(boxes, path, template, fate, jobs)
  {
    ghost var seeds, found;
    boxes, seeds, found := FindBoxes(MaskOf(g));
    jobs := Scan(boxes, path, template, fate);
  }

  /** `scanAreas = roiID(image)` on the 0/1 mask. */
  method FindBoxes(mask: seq<seq<int>>) returns (boxes: seq<Box>, ghost seeds: seq<Cell>, ghost found: seq<Box>)
    requires IsGrid(mask, Shape, Shape)
    requires forall x, y :: 0 <= x < Shape && 0 <= y < Shape ==> mask[x][y] == 0 || mask[x][y] == 1
    ensures SeedsAndBoxes(mask, Shape, Shape, seeds, found) && boxes == SortByArea(Keep(found))
    ensures RegionsBoxed(mask, boxes)
    ensures SortedByArea(boxes) && forall k :: 0 <= k < |boxes| ==> Area(boxes[k]) >= MinArea
  {
    var _, _, b, s, f := RoiId(mask, Shape, Shape);
    MaskSeeds(mask, s, f);
    boxes, seeds, found := b, s, f;
  }

  /** On the 0/1 mask every seed of `roiID` is a 1-pixel, so each is the first
      cell of its region and `found` holds the regions' boxes. */
  lemma MaskSeeds(mask: seq<seq<int>>, seeds: seq<Cell>, found: seq<Box>)
    requires IsGrid(mask, Shape, Shape)
    requires forall x, y :: 0 <= x < Shape && 0 <= y < Shape ==> mask[x][y] == 0 || mask[x][y] == 1
    requires |found| == |seeds|
    requires forall k :: 0 <= k < |seeds| ==>
               InBounds(Shape, Shape, seeds[k]) && mask[seeds[k].0][seeds[k].1] != 0 &&
               (mask[seeds[k].0][seeds[k].1] == 1 ==>
                  BoxOf(found[k], Region(mask, Shape, Shape, seeds[k]), Shape, Shape) &&
                  FirstOfRegion(mask, Shape, Shape, seeds[k]))
    requires forall a, b :: 0 <= a < b < |seeds| ==> Before(seeds[a], seeds[b].0, seeds[b].1)
    requires forall c :: InBounds(Shape, Shape, c) && mask[c.0][c.1] == 1 ==>
               exists k :: 0 <= k < |seeds| && (c == seeds[k] || c in Region(mask, Shape, Shape, seeds[k]))
    ensures SeedsAndBoxes(mask, Shape, Shape, seeds, found)
  {
    forall k | 0 <= k < |seeds| ensures mask[seeds[k].0][seeds[k].1] == 1 {
      var c := seeds[k];
      assert mask[c.0][c.1] == 0 || mask[c.0][c.1] == 1;
    }
  }

  /** Every scan reads the same input, `1_un_red.csv` next to the script, and the
      same configuration copy: the data file named on the command line is only
      used to find the boxes. */
  lemma CommandIgnoresDataFile(path: string, template: seq<string>, b: Box)
    ensures JobFor(path, template, b).command ==
              path + "/Cluster.exe -i " + path + "/1_un_red.csv --cfg " + path + "/tempconfig.txt -o " + OutFile(path, b)
  {
  }

  /** Box(n=10, e=20, s=2, w=4), centred at (2.75, 1.25) with zoom 4.0, writes
      `results_SA_2_1_Z_4.json`: `int` truncates each part. */
  lemma OutFileExample()
    ensures OutFile("", Box(10, 20, 2, 4)) == "/results_SA_2_1_Z_4.json"
  {
    CentreZoomExample();
    assert Trunc(2.75) == 2 && Trunc(1.25) == 1 && Trunc(4.0) == 4;
  }
}
