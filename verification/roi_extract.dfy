/** The C++ engine's region extraction end to end: the automatic extraction of
    `LocalizationFile.cpp` (regions handed out smallest first, each with its
    centre and width) and of `API.cpp` (regions in id order, each with a copy
    of the current configuration re-centred on it), the manual rectangular
    region, and the region read from the configuration file. */
module RoiExtract {
  import opened Wrappers
  import opened Grids
  import opened FloodFill
  import opened RegionSweep
  import opened HoleFill
  import opened Points
  import opened RoiTally
  import opened Configurations

  /** A data point moved so that (cx, cy) becomes the origin. */
  function Shift(p: Point, cx: real, cy: real): Point
  {
    Point(p.x - cx, p.y - cy, p.s)
  }

  function ShiftAll(ps: seq<Point>, cx: real, cy: real): (r: seq<Point>)
    ensures |r| == |ps| && forall k :: 0 <= k < |ps| ==> r[k] == Shift(ps[k], cx, cy)
  {
    seq(|ps|, k requires 0 <= k < |ps| => Shift(ps[k], cx, cy))
  }

  /** A region as handed to the callback: its data relative to its centre, the
      centre, and the widths. */
  datatype Region = Region(data: seq<Point>, centreX: real, centreY: real, widthX: real, widthY: real)

  /** `(second + first) / 2`. */
  function Midpoint(b: Span): real
  {
    (b.hi + b.lo) / 2.0
  }

  /** The region built from a record: centred on the midpoint of its bounds,
      as wide as its bounds, holding its points re-centred. */
  function RegionOf(pts: seq<Point>, t: Tally): Region
    requires Indices(pts, t.members)
  {
    var cx, cy := Midpoint(t.x), Midpoint(t.y);
    Region(ShiftAll(Gather(pts, t.members), cx, cy), cx, cy, t.x.hi - t.x.lo, t.y.hi - t.y.lo)
  }

  /** Every point of the region lies within half a width of its centre. */
  predicate Framed(r: Region)
  {
    forall k :: 0 <= k < |r.data| ==> Abs(r.data[k].x) <= r.widthX / 2.0 && Abs(r.data[k].y) <= r.widthY / 2.0
  }

  /** Regions in ascending number of points. */
  predicate Ascending(rs: seq<Region>)
  {
    forall p, q :: 0 <= p < q < |rs| ==> |rs[p].data| <= |rs[q].data|
  }

  /** Every region non-empty and framed. */
  predicate AllFramed(rs: seq<Region>)
  {
    forall r :: 0 <= r < |rs| ==> rs[r].data != [] && Framed(rs[r])
  }

  /** A record whose bounds are those of its points. */
  ghost predicate Faithful(pts: seq<Point>, t: Tally)
  {
    Indices(pts, t.members) &&
    t.x == Extent(Gather(pts, t.members), X) && t.y == Extent(Gather(pts, t.members), Y)
  }

  /** The join leaves faithful records. */
  lemma ExpectedIsFaithful(size: int, ls: seq<int>, pts: seq<Point>, id: int, n: nat)
    requires n <= |ls| == |pts|
    ensures Faithful(pts, Expected(size, ls, pts, id, n))
  {
  }

  /** A faithful record's region holds one point per member, each within half
      a width of the centre: re-centring on the midpoint of the bounds frames
      the data. */
  lemma RegionIsFramed(pts: seq<Point>, t: Tally)
    requires Faithful(pts, t)
    ensures |RegionOf(pts, t).data| == |t.members| && Framed(RegionOf(pts, t))
  {
    var ps := Gather(pts, t.members);
    ExtentBounds(ps, X);
    ExtentBounds(ps, Y);
    forall k | 0 <= k < |ps|
      ensures t.x.lo <= ps[k].x <= t.x.hi && t.y.lo <= ps[k].y <= t.y.hi
    {
      assert Coord(ps[k], X) == ps[k].x && Coord(ps[k], Y) == ps[k].y;
    }
  }

  // ---------------------------------------------------------------- ordering

  /** Joined-point counts never decrease along `ts`. */
  predicate SizeSorted(ts: seq<Tally>)
  {
    forall p, q :: 0 <= p < q < |ts| ==> |ts[p].members| <= |ts[q].members|
  }

  /** Places `t` after every record with at most as many points. */
  function InsertBySize(t: Tally, s: seq<Tally>): (r: seq<Tally>)
    requires SizeSorted(s)
    ensures SizeSorted(r)
    ensures multiset(r) == multiset(s) + multiset{t}
    ensures r != [] && (r[0] == t || (s != [] && r[0] == s[0]))
  {
    if s == [] then [t]
    else if |t.members| < |s[0].members| then [t] + s
    else
      var u := InsertBySize(t, s[1..]);
      assert s == [s[0]] + s[1..];
      assert |s[0].members| <= |u[0].members| by {
        if u[0] != t {
          assert u[0] == s[1..][0] == s[1];
        }
      }
      ConsSorted(s[0], u);
      [s[0]] + u
  }

  /** A record no larger than the head of a sorted sequence can go in front. */
  lemma ConsSorted(x: Tally, u: seq<Tally>)
    requires SizeSorted(u) && (u == [] || |x.members| <= |u[0].members|)
    ensures SizeSorted([x] + u)
  {
    var r := [x] + u;
    forall p, q | 0 <= p < q < |r| ensures |r[p].members| <= |r[q].members| {
      if p == 0 {
        assert r[q] == u[q - 1];
        assert |u[0].members| <= |u[q - 1].members| || q - 1 == 0;
      } else {
        assert r[p] == u[p - 1] && r[q] == u[q - 1];
      }
    }
  }

  /** `std::sort` by joined-point count: a permutation of the records, in
      ascending count. Records with equal counts may come in any order there;
      this one keeps them in id order. */
  function SortBySize(s: seq<Tally>): (r: seq<Tally>)
    ensures SizeSorted(r)
    ensures multiset(r) == multiset(s)
  {
    if s == [] then []
    else
      assert s == s[..|s| - 1] + [s[|s| - 1]];
      InsertBySize(s[|s| - 1], SortBySize(s[..|s| - 1]))
  }

  /** Sorting keeps every record, so it keeps them faithful. */
  lemma SortKeepsFaithful(pts: seq<Point>, ts: seq<Tally>, sorted: seq<Tally>)
    requires multiset(sorted) == multiset(ts)
    requires forall k :: 0 <= k < |ts| ==> Faithful(pts, ts[k])
    ensures forall k :: 0 <= k < |sorted| ==> Faithful(pts, sorted[k])
  {
    forall k | 0 <= k < |sorted|
      ensures Faithful(pts, sorted[k])
    {
      assert sorted[k] in multiset(ts);
    }
  }

  // ---------------------------------------------------------------- emission

  predicate AllIndices(pts: seq<Point>, ts: seq<Tally>)
  {
    forall k :: 0 <= k < |ts| ==> Indices(pts, ts[k].members)
  }

  /** The emission loop of `LocalizationFile.cpp`: a region per record with
      points, in record order. */
  function Emit(pts: seq<Point>, ts: seq<Tally>): seq<Region>
    requires AllIndices(pts, ts)
  {
    if ts == [] then []
    else
      var t := ts[|ts| - 1];
      assert AllIndices(pts, ts[..|ts| - 1]);
      Emit(pts, ts[..|ts| - 1]) + (if t.members == [] then [] else [RegionOf(pts, t)])
  }

  /** Every emitted region comes from a record with points. */
  lemma {:induction false} EmitFromRecord(pts: seq<Point>, ts: seq<Tally>, r: nat)
    requires AllIndices(pts, ts) && r < |Emit(pts, ts)|
    ensures exists k :: 0 <= k < |ts| && ts[k].members != [] && Emit(pts, ts)[r] == RegionOf(pts, ts[k])
  {
    var ts' := ts[..|ts| - 1];
    assert AllIndices(pts, ts');
    if r < |Emit(pts, ts')| {
      EmitFromRecord(pts, ts', r);
      var k :| 0 <= k < |ts'| && ts'[k].members != [] && Emit(pts, ts')[r] == RegionOf(pts, ts'[k]);
      assert ts[k] == ts'[k];
    } else {
      assert Emit(pts, ts)[r] == RegionOf(pts, ts[|ts| - 1]);
    }
  }

  /** Every record with points is emitted. */
  lemma {:induction false} RecordIsEmitted(pts: seq<Point>, ts: seq<Tally>, k: nat)
    requires AllIndices(pts, ts) && k < |ts| && ts[k].members != []
    ensures RegionOf(pts, ts[k]) in Emit(pts, ts)
  {
    var ts' := ts[..|ts| - 1];
    assert AllIndices(pts, ts');
    if k < |ts'| {
      RecordIsEmitted(pts, ts', k);
      assert ts[k] == ts'[k];
    }
  }

  /** Emitting records sorted by count gives regions sorted by size. */
  lemma {:induction false} EmitKeepsOrder(pts: seq<Point>, ts: seq<Tally>)
    requires AllIndices(pts, ts) && SizeSorted(ts)
    ensures Ascending(Emit(pts, ts))
  {
    if ts != [] {
      var ts' := ts[..|ts| - 1];
      var t := ts[|ts| - 1];
      assert AllIndices(pts, ts') && SizeSorted(ts');
      EmitKeepsOrder(pts, ts');
      var e', e := Emit(pts, ts'), Emit(pts, ts);
      if t.members != [] {
        forall p | 0 <= p < |e'|
          ensures |e'[p].data| <= |t.members|
        {
          EmitFromRecord(pts, ts', p);
        }
      }
    }
  }

  /** Every emitted region of faithful records is framed and non-empty. */
  lemma EmitFramed(pts: seq<Point>, ts: seq<Tally>)
    requires forall k :: 0 <= k < |ts| ==> Faithful(pts, ts[k])
    ensures AllIndices(pts, ts)
    ensures AllFramed(Emit(pts, ts))
  {
    var e := Emit(pts, ts);
    forall r | 0 <= r < |e|
      ensures e[r].data != [] && Framed(e[r])
    {
      EmitFromRecord(pts, ts, r);
      var k :| 0 <= k < |ts| && ts[k].members != [] && e[r] == RegionOf(pts, ts[k]);
      RegionIsFramed(pts, ts[k]);
    }
  }

  // ---------------------------------------------------------------- pipelines

  /** A grid whose cells are 0, or an id up to `count`, is indexed by records
      0 to `count`. */
  lemma LabelledIsIndexed(mask: seq<seq<int>>, g: seq<seq<int>>, seeds: seq<Cell>)
    requires Labelled(mask, g, seeds)
    requires forall c :: Inside(c) ==> g[c.0][c.1] >= 0
    ensures Indexed(g, |seeds| + 1)
  {
    forall c | Inside(c)
      ensures 0 <= g[c.0][c.1] < |seeds| + 1
    {
      assert mask[c.0][c.1] == 0 || mask[c.0][c.1] == -1;
    }
  }

  /** The histogram of the data over the data's own bounds: each cell holds
      the number of data points in it. */
  ghost function Tallied(pts: seq<Point>): (h: seq<seq<int>>)
    ensures IsHist(h) && AllFit(pts, Extent(pts, X), Extent(pts, Y))
    ensures forall c :: Inside(c) ==> h[c.0][c.1] == Count(pts, Extent(pts, X), Extent(pts, Y), c)
  {
    BoundsFit(pts);
    seq(Side, i requires 0 <= i < Side => seq(Side, j requires 0 <= j < Side => Count(pts, Extent(pts, X), Extent(pts, Y), (i, j))))
  }

  /** The region id of every data point, binned over the data's own bounds. */
  function DataLabels(g: seq<seq<int>>, pts: seq<Point>): (ls: seq<int>)
    requires IsHist(g)
    ensures |ls| == |pts|
  {
    BoundsFit(pts);
    Labels(g, pts, Extent(pts, X), Extent(pts, Y))
  }

  /** What the grid passes leave: `labels` labels the thresholded blurred
      histogram of the data from `seeds`; `g` and `sizes` are where the
      hole-filling pass over all cells from zeroed sizes ends, so every labelled
      cell is kept, each 0 cell is filled by the four-ray rule, and `sizes` has
      one entry per region plus the background, each region's entry its number
      of cells in `g`. */
  ghost predicate Regioned(pts: seq<Point>, blur: seq<seq<int>> -> seq<seq<int>>, g: seq<seq<int>>, sizes: seq<int>,
                           labels: seq<seq<int>>, seeds: seq<Cell>)
    requires forall h :: IsHist(h) ==> IsHist(blur(h))
  {
    Labelled(Threshold(blur(Tallied(pts))), labels, seeds) &&
    exists trace: seq<Stage> :: Pass(labels, NoSizes(|seeds|), trace) && (g, sizes) == trace[Side * Side]
  }

  /** The regions are where the pass from the labels ends: given the pass
      (there is exactly one, `PassUnique`), the grid and sizes are its last
      stage, so `PassSized` and `PassFills` describe them: labelled cells are
      kept, each 0 cell is filled by the four-ray rule in the grid as filled so
      far, and each region's size is its number of cells. */
  lemma RegionedEnds(pts: seq<Point>, blur: seq<seq<int>> -> seq<seq<int>>, g: seq<seq<int>>, sizes: seq<int>,
                     labels: seq<seq<int>>, seeds: seq<Cell>, trace: seq<Stage>)
    requires Pass(labels, NoSizes(|seeds|), trace)
    requires forall h :: IsHist(h) ==> IsHist(blur(h))
    requires Regioned(pts, blur, g, sizes, labels, seeds)
    ensures (g, sizes) == trace[Side * Side]
  {
    var t: seq<Stage> :| Pass(labels, NoSizes(|seeds|), t) && (g, sizes) == t[Side * Side];
    PassUnique(labels, NoSizes(|seeds|), t, trace);
  }

  /** The join's records for the grid `g`: one per entry of `sizes`, each as
      `Expected` says once every data point has been seen. */
  ghost predicate Collected(pts: seq<Point>, g: seq<seq<int>>, sizes: seq<int>, ts: seq<Tally>)
  {
    IsHist(g) && |ts| == |sizes| &&
    forall k :: 0 <= k < |ts| ==> ts[k] == Expected(sizes[k], DataLabels(g, pts), pts, k, |pts|)
  }

  /** `ts` are the records the join leaves for the data, after the grid passes. */
  ghost predicate Extracted(pts: seq<Point>, blur: seq<seq<int>> -> seq<seq<int>>, ts: seq<Tally>)
    requires forall h :: IsHist(h) ==> IsHist(blur(h))
  {
    exists g, sizes, labels, seeds :: Regioned(pts, blur, g, sizes, labels, seeds) && Collected(pts, g, sizes, ts)
  }

  /** The records after the join, from the data and the hole-filled grid. */
  method Records(pts: seq<Point>, g: seq<seq<int>>, sizes: seq<int>) returns (ts: seq<Tally>)
    requires Indexed(g, |sizes|)
    ensures Collected(pts, g, sizes, ts)
    ensures forall k :: 0 <= k < |ts| ==> Faithful(pts, ts[k])
    ensures forall k :: 0 <= k < |ts| ==> ts[k].size == sizes[k] && (ts[k].members != [] ==> RoiTally.Kept(k, sizes[k]))
  {
    var ls := DataLabels(g, pts);
    BoundsFit(pts);
    LabelsBounded(g, pts, Extent(pts, X), Extent(pts, Y), |sizes|);
    ts := Join(Fresh(sizes), ls, pts, |pts|);
    forall k | 0 <= k < |ts|
      ensures ts[k] == Expected(sizes[k], ls, pts, k, |pts|)
      ensures Faithful(pts, ts[k]) && ts[k].size == sizes[k] && (ts[k].members != [] ==> RoiTally.Kept(k, sizes[k]))
    {
      JoinCollects(sizes, ls, pts, |pts|, k);
      ExpectedIsFaithful(sizes[k], ls, pts, k, |pts|);
    }
  }

  /** The histogram filled by `Histogram` is the histogram of the data. */
  lemma HistogramIsTallied(pts: seq<Point>, h: seq<seq<int>>)
    requires IsHist(h) && AllFit(pts, Extent(pts, X), Extent(pts, Y))
    requires forall c :: Inside(c) ==> h[c.0][c.1] == Count(pts, Extent(pts, X), Extent(pts, Y), c)
    ensures h == Tallied(pts)
  {
    var t := Tallied(pts);
    forall i | 0 <= i < Side
      ensures h[i] == t[i]
    {
      assert forall j :: 0 <= j < Side ==> h[i][j] == t[i][j] by {
        forall j | 0 <= j < Side
          ensures h[i][j] == t[i][j]
        {
          assert Inside((i, j));
        }
      }
    }
  }

  /** The labelled, hole-filled grid and region sizes of the data. */
  method Regions(pts: seq<Point>, blur: seq<seq<int>> -> seq<seq<int>>)
    returns (g: seq<seq<int>>, sizes: seq<int>, ghost labels: seq<seq<int>>, ghost seeds: seq<Cell>)
    requires forall h :: IsHist(h) ==> IsHist(blur(h))
    ensures Regioned(pts, blur, g, sizes, labels, seeds)
    ensures Indexed(g, |sizes|) && |sizes| >= 1
  {
    var sx, sy := Extent(pts, X), Extent(pts, Y);
    BoundsFit(pts);
    var h := Histogram(pts, sx, sy);
    HistogramIsTallied(pts, h);
    var mask := Threshold(blur(h));
    var lab, count, sd := Label(mask);
    labels, seeds := lab, sd;
    LabelledIsIndexed(mask, lab, sd);
    assert count >= 0;
    ghost var trace: seq<Stage>;
    g, sizes, trace := FillHoles(lab, count);
  }

  /** `LocalizationFile::ExtractRoIs`: histogram, blur (given as `blur`),
      threshold, label, fill holes, join, sort and emit. The regions are those
      of the join's records `ts`, smallest first; each is non-empty and holds
      its points within half a width of its centre. Without data the histogram
      is empty and no region passes the threshold. */
  method ExtractSorted(pts: seq<Point>, blur: seq<seq<int>> -> seq<seq<int>>) returns (regions: seq<Region>, ghost ts: seq<Tally>)
    requires forall h :: IsHist(h) ==> IsHist(blur(h))
    ensures pts == [] ==> regions == []
    ensures pts != [] ==> Extracted(pts, blur, ts)
    ensures AllIndices(pts, SortBySize(ts)) && regions == Emit(pts, SortBySize(ts))
    ensures Ascending(regions) && AllFramed(regions)
  {
    if pts == [] {
      return [], [];
    }
    var g, sizes, labels, seeds := Regions(pts, blur);
    var records := Records(pts, g, sizes);
    ts := records;
    var sorted := SortBySize(records);
    SortKeepsFaithful(pts, records, sorted);
    EmitFramed(pts, sorted);
    EmitKeepsOrder(pts, sorted);
    regions := Emit(pts, sorted);
  }

  // ---------------------------------------------------------------- API emission

  /** A region of the API: its data and its own configuration. */
  datatype Placed = Placed(data: seq<Point>, config: Configuration)

  /** The API's region for a record: a copy of the configuration re-centred on
      the midpoint of the bounds, with the points re-centred on it. */
  function PlacedOf(pts: seq<Point>, t: Tally, c: Configuration): Placed
    requires Indices(pts, t.members)
  {
    var c' := SetCentre(c, Midpoint(t.x), Midpoint(t.y));
    Placed(ShiftAll(Gather(pts, t.members), c'.centreX, c'.centreY), c')
  }

  /** The API's emission loop: in record order, records without points skipped. */
  function PlaceAll(pts: seq<Point>, ts: seq<Tally>, c: Configuration): seq<Placed>
    requires AllIndices(pts, ts)
  {
    if ts == [] then []
    else
      var t := ts[|ts| - 1];
      assert AllIndices(pts, ts[..|ts| - 1]);
      PlaceAll(pts, ts[..|ts| - 1], c) + (if t.members == [] then [] else [PlacedOf(pts, t, c)])
  }

  /** The two emitters agree region by region: the API's regions are those of
      `LocalizationFile.cpp` before the sort, carrying the configuration
      re-centred on the region's centre instead of centre and width. */
  lemma {:induction false} PlaceAllIsEmit(pts: seq<Point>, ts: seq<Tally>, c: Configuration)
    requires AllIndices(pts, ts)
    ensures var p, e := PlaceAll(pts, ts, c), Emit(pts, ts);
            |p| == |e| &&
            forall r :: 0 <= r < |p| ==> p[r].data == e[r].data && p[r].config == SetCentre(c, e[r].centreX, e[r].centreY)
  {
    if ts != [] {
      assert AllIndices(pts, ts[..|ts| - 1]);
      PlaceAllIsEmit(pts, ts[..|ts| - 1], c);
    }
  }

  /** Whether any record has points: the API asks for the current
      configuration only then. */
  predicate AnyPoints(ts: seq<Tally>)
  {
    exists k :: 0 <= k < |ts| && ts[k].members != []
  }

  /** `ExtractRoIs(tAuto)` after the join: the regions in record order, or the
      error of `CurrentConfiguration` once a region needs it. */
  function EmitById(pts: seq<Point>, ts: seq<Tally>, reg: Registry): Result<seq<Placed>, string>
    requires AllIndices(pts, ts)
  {
    if !AnyPoints(ts) then Ok([])
    else
      match CurrentConfiguration(reg)
      case Err(e) => Err(e)
      case Ok(c) => Ok(PlaceAll(pts, ts, c))
  }

  /** The API fails exactly when a region exists and no configuration is set;
      otherwise each region carries the current configuration with only the
      centre changed, and its points framed within the record's bounds. */
  lemma EmitByIdOutcome(pts: seq<Point>, ts: seq<Tally>, reg: Registry)
    requires forall k :: 0 <= k < |ts| ==> Faithful(pts, ts[k])
    ensures AllIndices(pts, ts)
    ensures EmitById(pts, ts, reg).Err? <==> AnyPoints(ts) && reg.current.None?
    ensures EmitById(pts, ts, reg).Err? ==> EmitById(pts, ts, reg).error == "Current configuration not set"
    ensures EmitById(pts, ts, reg).Ok? && reg.current.Some? ==>
              var p := EmitById(pts, ts, reg).value;
              forall r :: 0 <= r < |p| ==>
                p[r].config.(centreX := reg.current.value.centreX, centreY := reg.current.value.centreY) == reg.current.value
    ensures !AnyPoints(ts) ==> EmitById(pts, ts, reg) == Ok([])
  {
    if AnyPoints(ts) && reg.current.Some? {
      var c := reg.current.value;
      PlaceAllIsEmit(pts, ts, c);
    }
  }

  /** `ExtractRoIs(aDataset, tAuto)`: the regions of the join's records `ts`
      in id order. It fails exactly when a region exists and no configuration
      is set; otherwise every region carries the current configuration with
      only its centre changed. */
  method ExtractById(pts: seq<Point>, blur: seq<seq<int>> -> seq<seq<int>>, reg: Registry)
    returns (r: Result<seq<Placed>, string>, ghost ts: seq<Tally>)
    requires forall h :: IsHist(h) ==> IsHist(blur(h))
    ensures pts == [] ==> r == Ok([])
    ensures pts != [] ==> Extracted(pts, blur, ts)
    ensures AllIndices(pts, ts) && r == EmitById(pts, ts, reg)
    ensures r.Err? <==> AnyPoints(ts) && reg.current.None?
    ensures r.Err? ==> r.error == "Current configuration not set"
    ensures r.Ok? ==> forall k :: 0 <= k < |r.value| ==> r.value[k].data != []
    ensures r.Ok? && reg.current.Some? ==>
              forall k :: 0 <= k < |r.value| ==>
                r.value[k].config.(centreX := reg.current.value.centreX, centreY := reg.current.value.centreY) == reg.current.value
  {
    if pts == [] {
      return Ok([]), [];
    }
    var g, sizes, labels, seeds := Regions(pts, blur);
    var records := Records(pts, g, sizes);
    ts := records;
    EmitByIdOutcome(pts, records, reg);
    EmitFramed(pts, records);
    r := EmitById(pts, records, reg);
    if r.Ok? && AnyPoints(records) {
      PlaceAllIsEmit(pts, records, reg.current.value);
    }
  }

  // ---------------------------------------------------------------- manual

  /** `ManualRoI`: a rectangle given by its centre and size. */
  datatype Manual = Manual(x: real, y: real, width: real, height: real)

  /** Strictly within half the width and half the height of the centre. */
  predicate InWindow(p: Point, m: Manual)
  {
    Abs(p.x - m.x) < m.width / 2.0 && Abs(p.y - m.y) < m.height / 2.0
  }

  /** The points in the window, in data order, re-centred on it. */
  function Windowed(pts: seq<Point>, m: Manual): seq<Point>
  {
    if pts == [] then []
    else
      var p := pts[|pts| - 1];
      Windowed(pts[..|pts| - 1], m) + (if InWindow(p, m) then [Shift(p, m.x, m.y)] else [])
  }

  /** The manual `ExtractRoIs`: one region, centred and sized as given. */
  function ExtractManual(pts: seq<Point>, m: Manual): Region
  {
    Region(Windowed(pts, m), m.x, m.y, m.width, m.height)
  }

  /** The manual region holds exactly the points in the window, re-centred. */
  lemma {:induction false} ManualKeeps(pts: seq<Point>, m: Manual, q: Point)
    ensures q in ExtractManual(pts, m).data <==>
            exists k :: 0 <= k < |pts| && InWindow(pts[k], m) && q == Shift(pts[k], m.x, m.y)
  {
    if pts != [] {
      var pts' := pts[..|pts| - 1];
      ManualKeeps(pts', m, q);
      if q in ExtractManual(pts', m).data {
        var k :| 0 <= k < |pts'| && InWindow(pts'[k], m) && q == Shift(pts'[k], m.x, m.y);
        assert pts[k] == pts'[k];
      }
      if exists k :: 0 <= k < |pts| && InWindow(pts[k], m) && q == Shift(pts[k], m.x, m.y) {
        var k :| 0 <= k < |pts| && InWindow(pts[k], m) && q == Shift(pts[k], m.x, m.y);
        if k < |pts'| {
          assert pts'[k] == pts[k];
        }
      }
    }
  }

  /** The manual region is framed by its own width and height. */
  lemma {:induction false} ManualFramed(pts: seq<Point>, m: Manual)
    ensures Framed(ExtractManual(pts, m))
  {
    if pts != [] {
      ManualFramed(pts[..|pts| - 1], m);
    }
  }

  // ---------------------------------------------------------------- from the configuration

  /** The offset of a point from the configured centre. As written, the y
      offset is taken from the point's x; the intended offset takes it from
      the point's y. */
  function ConfigShift(p: Point, c: Configuration, asWritten: bool): Point
  {
    Point(p.x - c.centreX, (if asWritten then p.x else p.y) - c.centreY, p.s)
  }

  /** The points within one unit of the configured centre on both offsets. */
  function NearCentre(pts: seq<Point>, c: Configuration, asWritten: bool): seq<Point>
  {
    if pts == [] then []
    else
      var q := ConfigShift(pts[|pts| - 1], c, asWritten);
      NearCentre(pts[..|pts| - 1], c, asWritten) + (if Abs(q.x) < 1.0 && Abs(q.y) < 1.0 then [q] else [])
  }

  /** `ExtractRoIs(aDataset, tFromConfigFile)`: one region with the current
      configuration, or its error. */
  function FromConfigFile(pts: seq<Point>, reg: Registry, asWritten: bool): Result<seq<Placed>, string>
  {
    match CurrentConfiguration(reg)
    case Err(e) => Err(e)
    case Ok(c) => Ok([Placed(NearCentre(pts, c, asWritten), c)])
  }

  /** Without a configuration the call fails; with one it yields a single
      region, whose points are exactly the shifted points within one unit. */
  lemma {:induction false} FromConfigKeeps(pts: seq<Point>, reg: Registry, asWritten: bool, q: Point)
    ensures FromConfigFile(pts, reg, asWritten).Err? <==> reg.current.None?
    ensures reg.current.Some? ==>
              var r := FromConfigFile(pts, reg, asWritten).value;
              |r| == 1 && r[0].config == reg.current.value &&
              (q in r[0].data <==> exists k :: 0 <= k < |pts| && q == ConfigShift(pts[k], reg.current.value, asWritten) &&
                                              Abs(q.x) < 1.0 && Abs(q.y) < 1.0)
  {
    if reg.current.Some? {
      NearCentreKeeps(pts, reg.current.value, asWritten, q);
    }
  }

  lemma {:induction false} NearCentreKeeps(pts: seq<Point>, c: Configuration, asWritten: bool, q: Point)
    ensures q in NearCentre(pts, c, asWritten) <==>
            exists k :: 0 <= k < |pts| && q == ConfigShift(pts[k], c, asWritten) && Abs(q.x) < 1.0 && Abs(q.y) < 1.0
  {
    if pts != [] {
      var pts' := pts[..|pts| - 1];
      NearCentreKeeps(pts', c, asWritten, q);
      if q in NearCentre(pts', c, asWritten) {
        var k :| 0 <= k < |pts'| && q == ConfigShift(pts'[k], c, asWritten) && Abs(q.x) < 1.0 && Abs(q.y) < 1.0;
        assert pts[k] == pts'[k];
      }
      if exists k :: 0 <= k < |pts| && q == ConfigShift(pts[k], c, asWritten) && Abs(q.x) < 1.0 && Abs(q.y) < 1.0 {
        var k :| 0 <= k < |pts| && q == ConfigShift(pts[k], c, asWritten) && Abs(q.x) < 1.0 && Abs(q.y) < 1.0;
        if k < |pts'| {
          assert pts'[k] == pts[k];
        }
      }
    }
  }

  /** As written, the y offset comes from x, so the data's y coordinates play
      no part: data differing only in y give the same region. */
  lemma {:induction false} FromConfigIgnoresY(pts: seq<Point>, pts': seq<Point>, reg: Registry)
    requires |pts| == |pts'| && forall k :: 0 <= k < |pts| ==> pts[k].x == pts'[k].x && pts[k].s == pts'[k].s
    ensures FromConfigFile(pts, reg, true) == FromConfigFile(pts', reg, true)
  {
    if reg.current.Some? {
      NearCentreIgnoresY(pts, pts', reg.current.value);
    }
  }

  lemma {:induction false} NearCentreIgnoresY(pts: seq<Point>, pts': seq<Point>, c: Configuration)
    requires |pts| == |pts'| && forall k :: 0 <= k < |pts| ==> pts[k].x == pts'[k].x && pts[k].s == pts'[k].s
    ensures NearCentre(pts, c, true) == NearCentre(pts', c, true)
  {
    if pts != [] {
      NearCentreIgnoresY(pts[..|pts| - 1], pts'[..|pts'| - 1], c);
    }
  }

  /** A point sitting exactly on a configured centre (0, 5): the code as
      written drops it, since its y offset is computed as 0 - 5; the intended
      extraction keeps it at the origin. */
  lemma CentredPointDropped(c: Configuration)
    requires c.centreX == 0.0 && c.centreY == 5.0
    ensures FromConfigFile([Point(0.0, 5.0, 0.0)], Registry(Some(c)), true) == Ok([Placed([], c)])
    ensures FromConfigFile([Point(0.0, 5.0, 0.0)], Registry(Some(c)), false) == Ok([Placed([Point(0.0, 0.0, 0.0)], c)])
  {
    var p := [Point(0.0, 5.0, 0.0)];
    assert p[..0] == [];
    assert ConfigShift(p[0], c, true) == Point(0.0, -5.0, 0.0);
    assert NearCentre(p, c, true) == NearCentre([], c, true) + [];
    assert ConfigShift(p[0], c, false) == Point(0.0, 0.0, 0.0);
    assert NearCentre(p, c, false) == NearCentre([], c, false) + [Point(0.0, 0.0, 0.0)];
    assert NearCentre(p, c, false) == [Point(0.0, 0.0, 0.0)];
  }

  /** The intended extraction keeps exactly the points whose own offsets from
      the centre are both below one unit, each moved to the centre's frame. */
  lemma IntendedKeepsNearPoints(pts: seq<Point>, reg: Registry, q: Point)
    requires reg.current.Some?
    ensures var c := reg.current.value;
            q in FromConfigFile(pts, reg, false).value[0].data <==>
            exists k :: 0 <= k < |pts| && Abs(pts[k].x - c.centreX) < 1.0 && Abs(pts[k].y - c.centreY) < 1.0 &&
                        q == Point(pts[k].x - c.centreX, pts[k].y - c.centreY, pts[k].s)
  {
    FromConfigKeeps(pts, reg, false, q);
  }
}
