/** The C++ engine's automatic region finder, second half: loading the
    localisations, the data bounds, the 512 x 512 histogram of the data, and the
    per-region records (`tRecord`) that collect the data points of each region
    large enough to keep. `LocalizationFile.cpp` and `API.cpp` share this code. */
module RoiTally {
  import opened Wrappers
  import opened Grids
  import opened FloodFill
  import opened HoleFill
  import opened Points
  import opened Units

  // ---------------------------------------------------------------- loading

  /** The columns of one CSV row that the loader keeps, as written in the file
      (nanometres). */
  datatype Row = Row(x: real, y: real, sigma: real, s: real)

  /** Rows whose sigma lies outside [100, 300] are skipped. */
  predicate SigmaAccepted(r: Row)
  {
    !(r.sigma < 100.0 || r.sigma > 300.0)
  }

  /** A kept row as a data point: position and uncertainty converted from
      nanometres. */
  function ToPoint(r: Row): Point
  {
    Point(Nanometers(r.x), Nanometers(r.y), Nanometers(r.s))
  }

  /** The loader: every accepted row, in file order. */
  function Load(rows: seq<Row>): seq<Point>
  {
    if rows == [] then []
    else
      var last := rows[|rows| - 1];
      Load(rows[..|rows| - 1]) + (if SigmaAccepted(last) then [ToPoint(last)] else [])
  }

  /** Loading two blocks of rows is loading each and concatenating. */
  lemma {:induction false} LoadAppend(a: seq<Row>, b: seq<Row>)
    ensures Load(a + b) == Load(a) + Load(b)
    decreases |b|
  {
    if b != [] {
      var b' := b[..|b| - 1];
      assert (a + b)[..|a + b| - 1] == a + b';
      assert (a + b)[|a + b| - 1] == b[|b| - 1];
      LoadAppend(a, b');
    } else {
      assert a + b == a;
    }
  }

  /** The loaded points are exactly the conversions of the accepted rows. */
  lemma {:induction false} LoadKeeps(rows: seq<Row>, p: Point)
    ensures p in Load(rows) <==> exists k :: 0 <= k < |rows| && SigmaAccepted(rows[k]) && ToPoint(rows[k]) == p
  {
    if rows != [] {
      var rows' := rows[..|rows| - 1];
      LoadKeeps(rows', p);
      if p in Load(rows') {
        var k :| 0 <= k < |rows'| && SigmaAccepted(rows'[k]) && ToPoint(rows'[k]) == p;
        assert rows[k] == rows'[k];
      }
      if exists k :: 0 <= k < |rows| && SigmaAccepted(rows[k]) && ToPoint(rows[k]) == p {
        var k :| 0 <= k < |rows| && SigmaAccepted(rows[k]) && ToPoint(rows[k]) == p;
        if k < |rows| - 1 {
          assert rows'[k] == rows[k];
        }
      }
    }
  }

  // ---------------------------------------------------------------- bounds

  /** The sentinel of the bound search, `9e99`. */
  const Big: real := 9000000000000000000000000000000000000000000000000000000000000000000000000000000000000000000000000000.0

  /** A `std::pair` of bounds: `first` is the low one, `second` the high one. */
  datatype Span = Span(lo: real, hi: real)

  /** The start of every bound search, `(9e99, -9e99)`. */
  const Unset := Span(Big, -Big)

  /** One step of the bound search: the low bound takes `v` if `v` is below it,
      the high bound takes `v` if `v` is above it. */
  function Widen(b: Span, v: real): Span
  {
    Span(if v < b.lo then v else b.lo, if v > b.hi then v else b.hi)
  }

  /** A widened span is the smallest one holding the old span's bounds and `v`:
      each new bound is the old one or `v`. */
  lemma WidenBounds(b: Span, v: real)
    ensures var r := Widen(b, v);
            r.lo <= b.lo && r.lo <= v && (r.lo == b.lo || r.lo == v) &&
            r.hi >= b.hi && r.hi >= v && (r.hi == b.hi || r.hi == v)
  {
  }

  datatype Axis = X | Y

  function Coord(p: Point, a: Axis): real
  {
    if a == X then p.x else p.y
  }

  /** The bound search over `ps` along axis `a`. */
  function Extent(ps: seq<Point>, a: Axis): Span
  {
    if ps == [] then Unset else Widen(Extent(ps[..|ps| - 1], a), Coord(ps[|ps| - 1], a))
  }

  /** Every coordinate lies between the bounds, and each bound is the sentinel
      or attained by a point. */
  lemma {:induction false} ExtentBounds(ps: seq<Point>, a: Axis)
    ensures var b := Extent(ps, a);
            (forall k :: 0 <= k < |ps| ==> b.lo <= Coord(ps[k], a) <= b.hi) &&
            b.lo <= Big && b.hi >= -Big &&
            (b.lo == Big || exists k :: 0 <= k < |ps| && Coord(ps[k], a) == b.lo) &&
            (b.hi == -Big || exists k :: 0 <= k < |ps| && Coord(ps[k], a) == b.hi)
  {
    if ps != [] {
      var ps' := ps[..|ps| - 1];
      ExtentBounds(ps', a);
      WidenBounds(Extent(ps', a), Coord(ps[|ps| - 1], a));
      assert forall k :: 0 <= k < |ps'| ==> ps'[k] == ps[k];
    }
  }

  /** The bounds of a non-empty data set inside the sentinels are attained: the
      low bound is the smallest coordinate and the high bound the largest. */
  lemma ExtentIsAttained(ps: seq<Point>, a: Axis)
    requires ps != [] && forall k :: 0 <= k < |ps| ==> -Big < Coord(ps[k], a) < Big
    ensures exists k :: 0 <= k < |ps| && Coord(ps[k], a) == Extent(ps, a).lo
    ensures exists k :: 0 <= k < |ps| && Coord(ps[k], a) == Extent(ps, a).hi
  {
    ExtentBounds(ps, a);
    var b := Extent(ps, a);
    assert b.lo <= Coord(ps[0], a) <= b.hi;
  }

  // ---------------------------------------------------------------- bins

  /** `512.0 / (second - first)`. */
  function BinScale(b: Span): real
    requires b.lo < b.hi
  {
    512.0 / (b.hi - b.lo)
  }

  /** `std::size_t x = (k.x - first) * scale` exactly as written: the cast of a
      non-negative double truncates. When every point has the same coordinate
      the scale is `512.0 / 0.0`, infinite, the offset of each point is 0, and
      `0 * inf` is not a number, whose conversion to `std::size_t` is
      undefined: there is no bin (`None`). */
  function BinAsWritten(v: real, b: Span): (k: Option<int>)
    requires b.lo <= b.hi && b.lo <= v
    ensures k.None? <==> b.lo == b.hi
  {
    if b.lo == b.hi then None else Some(Scale(v - b.lo, BinScale(b)).Floor)
  }

  /** The scale times the width of the span is 512. */
  lemma ScaleSpansGrid(b: Span)
    requires b.lo < b.hi
    ensures BinScale(b) > 0.0 && (b.hi - b.lo) * BinScale(b) == 512.0
  {
  }

  /** The point that sets the high bound falls in bin 512, one past the last
      row of the histogram, so `lHist[x][y] += 1` writes out of bounds. */
  lemma TopPointOverflows(b: Span)
    requires b.lo < b.hi
    ensures BinAsWritten(b.hi, b) == Some(Side)
  {
    ScaleSpansGrid(b);
    assert Scale(b.hi - b.lo, BinScale(b)) == 512.0;
  }

  /** An offset in [0, w) scaled by s, with w * s = 512, lies in [0, 512). */
  lemma ScaledBelow(d: real, w: real, s: real)
    requires 0.0 <= d < w && s > 0.0 && w * s == 512.0
    ensures 0.0 <= Scale(d, s) < 512.0
  {
    PosMul(w - d, s);
    assert w * s - d * s == (w - d) * s;
    var lo, hi := d * s, w * s;
    assert lo < hi;
    if d > 0.0 {
      PosMul(d, s);
    }
  }

  /** The bin the source evidently intends: the scaled offset, with the high
      bound itself put in the last bin rather than past it, and every value of
      an axis of zero width in bin 0. Every value of the span gets a bin of the
      histogram; below the high bound of a proper span it is the bin as
      written. */
  function Bin(v: real, b: Span): (k: int)
    requires b.lo <= v <= b.hi
    ensures 0 <= k < Side
    ensures b.lo < b.hi && v < b.hi ==> Some(k) == BinAsWritten(v, b)
    ensures b.lo < b.hi && v == b.hi ==> k == Side - 1
    ensures b.lo == b.hi ==> k == 0
  {
    if b.lo == b.hi then 0
    else if v < b.hi then
      ScaleSpansGrid(b);
      ScaledBelow(v - b.lo, b.hi - b.lo, BinScale(b));
      BinAsWritten(v, b).value
    else Side - 1
  }

  /** Larger values never get smaller bins. */
  lemma BinMonotone(u: real, v: real, b: Span)
    requires b.lo <= u <= v <= b.hi
    ensures Bin(u, b) <= Bin(v, b)
  {
    if b.lo < b.hi && v < b.hi {
      var s := BinScale(b);
      ScaleSpansGrid(b);
      ScaleMonotone(u - b.lo, v - b.lo, s);
    }
  }

  lemma ScaleMonotone(a: real, b: real, s: real)
    requires a <= b && s > 0.0
    ensures Scale(a, s) <= Scale(b, s)
  {
    if a < b {
      PosMul(b - a, s);
      assert b * s - a * s == (b - a) * s;
      var lo, hi := a * s, b * s;
      assert lo < hi;
    }
  }

  /** The data point lies within both spans. */
  predicate Fits(p: Point, sx: Span, sy: Span)
  {
    sx.lo <= p.x <= sx.hi && sy.lo <= p.y <= sy.hi
  }

  predicate AllFit(pts: seq<Point>, sx: Span, sy: Span)
  {
    forall k :: 0 <= k < |pts| ==> Fits(pts[k], sx, sy)
  }

  /** The histogram cell of a data point: x selects the row, y the column. */
  function CellOf(p: Point, sx: Span, sy: Span): (c: Cell)
    requires Fits(p, sx, sy)
    ensures Inside(c)
  {
    (Bin(p.x, sx), Bin(p.y, sy))
  }

  /** Every data point fits the data's own bounds. */
  lemma BoundsFit(pts: seq<Point>)
    ensures AllFit(pts, Extent(pts, X), Extent(pts, Y))
  {
    ExtentBounds(pts, X);
    ExtentBounds(pts, Y);
    forall k | 0 <= k < |pts|
      ensures Fits(pts[k], Extent(pts, X), Extent(pts, Y))
    {
      assert Coord(pts[k], X) == pts[k].x && Coord(pts[k], Y) == pts[k].y;
    }
  }

  /** A data set of one point has an axis of zero width: as written the point
      has no bin, while the corrected bins put it in cell (0, 0). */
  lemma OnePointHasNoBin(p: Point)
    requires -Big < p.x < Big && -Big < p.y < Big
    ensures Extent([p], X) == Span(p.x, p.x) && Extent([p], Y) == Span(p.y, p.y)
    ensures BinAsWritten(p.x, Extent([p], X)) == None && BinAsWritten(p.y, Extent([p], Y)) == None
    ensures AllFit([p], Extent([p], X), Extent([p], Y)) && CellOf(p, Extent([p], X), Extent([p], Y)) == (0, 0)
  {
    assert [p][..0] == [];
  }

  // ---------------------------------------------------------------- histogram

  /** How many of the data points fall in cell `c`. */
  function Count(pts: seq<Point>, sx: Span, sy: Span, c: Cell): nat
    requires AllFit(pts, sx, sy)
  {
    if pts == [] then 0
    else
      assert AllFit(pts[..|pts| - 1], sx, sy);
      Count(pts[..|pts| - 1], sx, sy, c) + (if CellOf(pts[|pts| - 1], sx, sy) == c then 1 else 0)
  }

  /** The zeroed histogram. */
  function Zeroes(): (h: seq<seq<int>>)
    ensures IsHist(h) && forall c :: Inside(c) ==> h[c.0][c.1] == 0
  {
    seq(Side, _ => seq(Side, _ => 0))
  }

  /** The histogram fill: each data point adds one to its cell, so each cell
      ends up holding the number of points in it. */
  method Histogram(pts: seq<Point>, sx: Span, sy: Span) returns (h: seq<seq<int>>)
    requires AllFit(pts, sx, sy)
    ensures IsHist(h)
    ensures forall c :: Inside(c) ==> h[c.0][c.1] == Count(pts, sx, sy, c)
  {
    h := Zeroes();
    var n := 0;
    while n != |pts|
      invariant 0 <= n <= |pts| && IsHist(h) && AllFit(pts[..n], sx, sy)
      invariant forall c :: Inside(c) ==> h[c.0][c.1] == Count(pts[..n], sx, sy, c)
    {
      var c := CellOf(pts[n], sx, sy);
      h := Set(h, c, h[c.0][c.1] + 1);
      assert pts[..n + 1][..n] == pts[..n];
      n := n + 1;
    }
    assert pts[..n] == pts;
  }

  // ---------------------------------------------------------------- records

  /** `tRecord`: the id (0 until a data point joins), the size in cells, the
      bounds of its data points and the indices of those points. */
  datatype Tally = Tally(id: int, size: int, x: Span, y: Span, members: seq<nat>)

  /** Regions of fewer cells are culled. */
  const MinSize := 500

  /** `lRecords(lRoIid + 1, ...)` with the sizes from the hole-filling pass. */
  function Fresh(sizes: seq<int>): (ts: seq<Tally>)
    ensures |ts| == |sizes|
    ensures forall k :: 0 <= k < |ts| ==> ts[k] == Tally(0, sizes[k], Unset, Unset, [])
  {
    seq(|sizes|, k requires 0 <= k < |sizes| => Tally(0, sizes[k], Unset, Unset, []))
  }

  /** The region id of every data point: the label of its histogram cell. */
  function Labels(g: seq<seq<int>>, pts: seq<Point>, sx: Span, sy: Span): (ls: seq<int>)
    requires IsHist(g) && AllFit(pts, sx, sy)
    ensures |ls| == |pts|
    ensures forall n :: 0 <= n < |pts| ==> ls[n] == g[CellOf(pts[n], sx, sy).0][CellOf(pts[n], sx, sy).1]
  {
    seq(|pts|, n requires 0 <= n < |pts| => var c := CellOf(pts[n], sx, sy); g[c.0][c.1])
  }

  /** Every label is a record index. */
  predicate Bounded(ls: seq<int>, count: int)
  {
    forall n :: 0 <= n < |ls| ==> 0 <= ls[n] < count
  }

  /** The labels of the data in a grid of record indices are record indices. */
  lemma LabelsBounded(g: seq<seq<int>>, pts: seq<Point>, sx: Span, sy: Span, count: int)
    requires Indexed(g, count) && AllFit(pts, sx, sy)
    ensures Bounded(Labels(g, pts, sx, sy), count)
  {
  }

  /** One pass of the join loop: a point in the background, or in a region
      smaller than `MinSize`, is skipped; otherwise its region's record takes
      the id, the point, and widens its bounds to it. */
  function JoinPoint(ts: seq<Tally>, ls: seq<int>, pts: seq<Point>, n: nat): (r: seq<Tally>)
    requires |ls| == |pts| && Bounded(ls, |ts|) && n < |pts|
    ensures |r| == |ts|
  {
    var id := ls[n];
    var t := ts[id];
    if id == 0 || t.size < MinSize then ts
    else ts[id := t.(id := id, members := t.members + [n], x := Widen(t.x, pts[n].x), y := Widen(t.y, pts[n].y))]
  }

  /** The join loop over the first `n` data points. */
  function Join(ts: seq<Tally>, ls: seq<int>, pts: seq<Point>, n: nat): (r: seq<Tally>)
    requires |ls| == |pts| && Bounded(ls, |ts|) && n <= |pts|
    ensures |r| == |ts|
  {
    if n == 0 then ts else JoinPoint(Join(ts, ls, pts, n - 1), ls, pts, n - 1)
  }

  /** The indices, in order, of the first `n` data points labelled `id`. */
  function Members(ls: seq<int>, id: int, n: nat): (ms: seq<nat>)
    requires n <= |ls|
    ensures forall k :: 0 <= k < |ms| ==> ms[k] < n
  {
    if n == 0 then [] else Members(ls, id, n - 1) + (if ls[n - 1] == id then [n - 1] else [])
  }

  predicate Indices(pts: seq<Point>, idx: seq<nat>)
  {
    forall k :: 0 <= k < |idx| ==> idx[k] < |pts|
  }

  /** The data points at the indices `idx`, in that order. */
  function Gather(pts: seq<Point>, idx: seq<nat>): (ps: seq<Point>)
    requires Indices(pts, idx)
    ensures |ps| == |idx| && forall k :: 0 <= k < |idx| ==> ps[k] == pts[idx[k]]
  {
    if idx == [] then []
    else
      assert Indices(pts, idx[..|idx| - 1]);
      Gather(pts, idx[..|idx| - 1]) + [pts[idx[|idx| - 1]]]
  }

  /** A region kept by the join: not the background and at least `MinSize`
      cells. */
  predicate Kept(id: int, size: int)
  {
    id != 0 && size >= MinSize
  }

  /** What the join leaves in record `id` after the first `n` data points: a
      kept region holds every one of them labelled `id`, in data order, with
      their bounds, and its id once it has a point; any other record is as it
      started. */
  function Expected(size: int, ls: seq<int>, pts: seq<Point>, id: int, n: nat): Tally
    requires n <= |ls| == |pts|
  {
    Record(size, pts, id, if Kept(id, size) then Members(ls, id, n) else [])
  }

  /** The record of region `id` holding the data points at `ms`: its id once
      it has a point, and their bounds. */
  function Record(size: int, pts: seq<Point>, id: int, ms: seq<nat>): Tally
    requires Indices(pts, ms)
  {
    Tally(if ms == [] then 0 else id, size, Extent(Gather(pts, ms), X), Extent(Gather(pts, ms), Y), ms)
  }

  /** Adding a point to a record is recording one more index. */
  lemma RecordSnoc(size: int, pts: seq<Point>, id: int, ms: seq<nat>, k: nat)
    requires Indices(pts, ms) && k < |pts| && id != 0
    ensures Indices(pts, ms + [k])
    ensures var t := Record(size, pts, id, ms);
            t.(id := id, members := ms + [k], x := Widen(t.x, pts[k].x), y := Widen(t.y, pts[k].y)) ==
            Record(size, pts, id, ms + [k])
  {
    GatherSnoc(pts, ms, k);
  }

  /** Adding one index extends the gathered points and their bounds by one. */
  lemma GatherSnoc(pts: seq<Point>, ms: seq<nat>, n: nat)
    requires Indices(pts, ms) && n < |pts|
    ensures Indices(pts, ms + [n])
    ensures Gather(pts, ms + [n]) == Gather(pts, ms) + [pts[n]]
    ensures Extent(Gather(pts, ms + [n]), X) == Widen(Extent(Gather(pts, ms), X), pts[n].x)
    ensures Extent(Gather(pts, ms + [n]), Y) == Widen(Extent(Gather(pts, ms), Y), pts[n].y)
  {
    assert (ms + [n])[..|ms|] == ms;
    var ps := Gather(pts, ms + [n]);
    assert ps[..|ps| - 1] == Gather(pts, ms);
  }

  /** A record the pass over point `n - 1` does not touch stays collected. */
  lemma UntouchedCollects(t: Tally, size: int, ls: seq<int>, pts: seq<Point>, id: int, n: nat)
    requires 0 < n <= |ls| == |pts| && t == Expected(size, ls, pts, id, n - 1)
    requires !Kept(id, size) || ls[n - 1] != id
    ensures t == Expected(size, ls, pts, id, n)
  {
    if Kept(id, size) {
      assert Members(ls, id, n) == Members(ls, id, n - 1);
    }
  }

  /** The record the pass over point `n - 1` adds the point to stays collected. */
  lemma AddedCollects(t: Tally, size: int, ls: seq<int>, pts: seq<Point>, id: int, n: nat)
    requires 0 < n <= |ls| == |pts| && t == Expected(size, ls, pts, id, n - 1)
    requires Kept(id, size) && ls[n - 1] == id
    ensures var p := pts[n - 1];
            t.(id := id, members := t.members + [n - 1], x := Widen(t.x, p.x), y := Widen(t.y, p.y)) ==
            Expected(size, ls, pts, id, n)
  {
    var ms := Members(ls, id, n - 1);
    assert Members(ls, id, n) == ms + [n - 1];
    RecordSnoc(size, pts, id, ms, n - 1);
  }

  /** The pass over point `n - 1` keeps record `id` collected; it needs only
      that record and the one of the point's own region. */
  lemma JoinPointCollects(ts: seq<Tally>, sizes: seq<int>, ls: seq<int>, pts: seq<Point>, n: nat, id: int)
    requires |ls| == |pts| && Bounded(ls, |ts|) && 0 < n <= |pts| && |sizes| == |ts| && 0 <= id < |ts|
    requires ts[id] == Expected(sizes[id], ls, pts, id, n - 1)
    requires ts[ls[n - 1]] == Expected(sizes[ls[n - 1]], ls, pts, ls[n - 1], n - 1)
    ensures JoinPoint(ts, ls, pts, n - 1)[id] == Expected(sizes[id], ls, pts, id, n)
  {
    var l := ls[n - 1];
    assert ts[l].size == sizes[l];
    if l == id && Kept(id, sizes[id]) {
      AddedCollects(ts[id], sizes[id], ls, pts, id, n);
    } else {
      assert JoinPoint(ts, ls, pts, n - 1)[id] == ts[id];
      UntouchedCollects(ts[id], sizes[id], ls, pts, id, n);
    }
  }

  /** The join loop fills every record as expected: each kept region's record ends with
      exactly the data points labelled with it, their bounds, and its id. */
  lemma {:induction false} JoinCollects(sizes: seq<int>, ls: seq<int>, pts: seq<Point>, n: nat, id: int)
    requires |ls| == |pts| && Bounded(ls, |sizes|) && n <= |pts| && 0 <= id < |sizes|
    ensures Join(Fresh(sizes), ls, pts, n)[id] == Expected(sizes[id], ls, pts, id, n)
  {
    if n > 0 {
      var ts := Join(Fresh(sizes), ls, pts, n - 1);
      assert |ts| == |sizes| && Bounded(ls, |ts|);
      JoinCollects(sizes, ls, pts, n - 1, id);
      JoinCollects(sizes, ls, pts, n - 1, ls[n - 1]);
      JoinPointCollects(ts, sizes, ls, pts, n, id);
      assert Join(Fresh(sizes), ls, pts, n) == JoinPoint(ts, ls, pts, n - 1);
    } else {
      FreshCollects(sizes, ls, pts, id);
    }
  }

  /** Before any data point, every record is as `Fresh` made it. */
  lemma FreshCollects(sizes: seq<int>, ls: seq<int>, pts: seq<Point>, id: int)
    requires |ls| == |pts| && 0 <= id < |sizes|
    ensures Fresh(sizes)[id] == Expected(sizes[id], ls, pts, id, 0)
  {
    assert Members(ls, id, 0) == [];
    assert Gather(pts, []) == [];
  }
}
