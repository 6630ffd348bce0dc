/** The C++ engine's automatic region finder, first half: the blurred 512 x 512
    histogram is thresholded to a mask of 0 and -1, and a row-major sweep hands
    every 4-connected region of -1 cells the next id, from 1, by the recursive
    `__RecursiveSearch__`. `LocalizationFile.cpp` and `API.cpp` share this code. */
module FloodFill {
  import opened Grids

  /** The histogram is `std::array<std::array<int, 512>, 512>`. */
  const Side := 512

  predicate Inside(c: Cell)
  {
    InBounds(Side, Side, c)
  }

  /** A 512 x 512 grid of ints. */
  ghost predicate IsHist(g: seq<seq<int>>)
  {
    IsGrid(g, Side, Side)
  }

  /** The thresholded histogram: every cell 0 or -1. */
  ghost predicate IsMask(m: seq<seq<int>>)
  {
    IsHist(m) && forall c :: Inside(c) ==> m[c.0][c.1] == 0 || m[c.0][c.1] == -1
  }

  /** The largest entry of a non-empty row. */
  function RowPeak(row: seq<int>): (m: int)
    requires |row| > 0
    ensures forall k :: 0 <= k < |row| ==> row[k] <= m
    ensures exists k :: 0 <= k < |row| && row[k] == m
  {
    if |row| == 1 then row[0]
    else
      var m := RowPeak(row[1..]);
      assert forall k :: 1 <= k < |row| ==> row[k] == row[1..][k - 1];
      if row[0] >= m then row[0] else m
  }

  /** `Max`, the largest blurred value (it starts at INT_MIN and sees every
      cell). */
  function Peak(g: seq<seq<int>>): (m: int)
    requires |g| > 0 && forall i :: 0 <= i < |g| ==> |g[i]| > 0
    ensures forall i, j :: 0 <= i < |g| && 0 <= j < |g[i]| ==> g[i][j] <= m
    ensures exists i, j :: 0 <= i < |g| && 0 <= j < |g[i]| && g[i][j] == m
  {
    var r := RowPeak(g[0]);
    if |g| == 1 then r
    else
      var m := Peak(g[1..]);
      assert forall i :: 1 <= i < |g| ==> g[i] == g[1..][i - 1];
      if r >= m then r else m
  }

  /** `int lThreshold = 0.2 * Max`: the conversion to int truncates toward zero. */
  function Cut(max: int): (t: int)
    ensures max >= 0 ==> 5 * t <= max < 5 * t + 5
    ensures max < 0 ==> 5 * t - 5 < max <= 5 * t
  {
    if max >= 0 then max / 5 else -((-max) / 5)
  }

  /** `lHist2[i][j] = -int(lHist2[i][j] > lThreshold)` over the whole histogram. */
  function Threshold(b: seq<seq<int>>): (m: seq<seq<int>>)
    requires IsHist(b)
    ensures IsMask(m)
    ensures forall c :: Inside(c) ==> (m[c.0][c.1] == -1 <==> b[c.0][c.1] > Cut(Peak(b)))
  {
    var t := Cut(Peak(b));
    seq(Side, i requires 0 <= i < Side => seq(Side, j requires 0 <= j < Side => if b[i][j] > t then -1 else 0))
  }

  /** The peak cell is -1 after thresholding whenever the peak is positive, so a
      histogram with any positive blurred value yields at least one region. */
  lemma PeakSurvives(b: seq<seq<int>>)
    requires IsHist(b) && Peak(b) > 0
    ensures exists c :: Inside(c) && Threshold(b)[c.0][c.1] == -1
  {
    var i, j :| 0 <= i < Side && 0 <= j < Side && b[i][j] == Peak(b);
    assert Inside((i, j)) && Threshold(b)[i][j] == -1;
  }

  /** `p` steps between 4-adjacent cells, every one of them negative in `g`. */
  ghost predicate NegPath(g: seq<seq<int>>, p: seq<Cell>)
    requires IsHist(g)
  {
    |p| >= 1 &&
    (forall k :: 0 <= k < |p| ==> Inside(p[k]) && g[p[k].0][p[k].1] < 0) &&
    (forall k :: 0 < k < |p| ==> Adjacent4(p[k - 1], p[k]))
  }

  /** `a` and `b` lie in the same 4-connected region of negative cells of `g`. */
  ghost predicate Linked(g: seq<seq<int>>, a: Cell, b: Cell)
    requires IsHist(g)
  {
    exists p :: NegPath(g, p) && p[0] == a && p[|p| - 1] == b
  }

  /** The negative cells: the recursion's measure. */
  ghost function Negatives(g: seq<seq<int>>): set<Cell>
    requires IsHist(g)
  {
    set i, j | 0 <= i < Side && 0 <= j < Side && g[i][j] < 0 :: (i, j)
  }

  /** A region of `g2` is a region of `g` when every negative cell of `g2` is
      negative in `g`. */
  lemma LinkedInLarger(g: seq<seq<int>>, g2: seq<seq<int>>, a: Cell, b: Cell)
    requires IsHist(g) && IsHist(g2)
    requires forall c :: Inside(c) && g2[c.0][c.1] < 0 ==> g[c.0][c.1] < 0
    requires Linked(g2, a, b)
    ensures Linked(g, a, b)
  {
    var p :| NegPath(g2, p) && p[0] == a && p[|p| - 1] == b;
    assert NegPath(g, p);
  }

  /** A negative neighbour of a region's cell joins the region. */
  lemma LinkedStep(g: seq<seq<int>>, a: Cell, b: Cell, c: Cell)
    requires IsHist(g) && Inside(a) && g[a.0][a.1] < 0 && Adjacent4(a, b) && Linked(g, b, c)
    ensures Linked(g, a, c)
  {
    var p :| NegPath(g, p) && p[0] == b && p[|p| - 1] == c;
    var q := [a] + p;
    assert forall k :: 1 <= k < |q| ==> q[k] == p[k - 1];
    assert NegPath(g, q);
  }

  /** What a fill from `c` with `id` has made of `g` so far: `c` holds `id`, only
      negative cells changed, each to `id`, and each of them is in `c`'s region. */
  ghost predicate Filled(g: seq<seq<int>>, g': seq<seq<int>>, id: int, c: Cell)
  {
    IsHist(g) && IsHist(g') && id > 0 && Inside(c) && g[c.0][c.1] < 0 && g'[c.0][c.1] == id &&
    (forall d :: Inside(d) ==> g'[d.0][d.1] == g[d.0][d.1] || (g[d.0][d.1] < 0 && g'[d.0][d.1] == id)) &&
    (forall d :: Inside(d) && g'[d.0][d.1] != g[d.0][d.1] ==> Linked(g, c, d))
  }

  /** No changed cell other than `c` has a negative neighbour left. */
  ghost predicate ClosedBut(g: seq<seq<int>>, g': seq<seq<int>>, c: Cell)
    requires IsHist(g) && IsHist(g')
  {
    forall d, e :: Inside(d) && Inside(e) && Adjacent4(d, e) && d != c && g'[d.0][d.1] != g[d.0][d.1] ==>
      g'[e.0][e.1] >= 0
  }

  /** No changed cell has a negative neighbour left. */
  ghost predicate Closed(g: seq<seq<int>>, g': seq<seq<int>>)
    requires IsHist(g) && IsHist(g')
  {
    forall d, e :: Inside(d) && Inside(e) && Adjacent4(d, e) && g'[d.0][d.1] != g[d.0][d.1] ==>
      g'[e.0][e.1] >= 0
  }

  /** A fill in progress has fewer negative cells than it started with. */
  lemma FilledShrinks(g: seq<seq<int>>, g': seq<seq<int>>, id: int, c: Cell)
    requires Filled(g, g', id, c)
    ensures Negatives(g') < Negatives(g)
  {
    assert c in Negatives(g) - Negatives(g');
  }

  /** `aHist[i][j] = aRoIid` starts the fill. */
  lemma FillStarts(g: seq<seq<int>>, id: int, c: Cell)
    requires IsHist(g) && id > 0 && Inside(c) && g[c.0][c.1] < 0
    ensures Filled(g, Set(g, c, id), id, c) && ClosedBut(g, Set(g, c, id), c)
  {
    assert NegPath(g, [c]);
  }

  /** A nested fill from the negative neighbour `n` of `c` extends the fill from
      `c`: what it changes is in `n`'s region, hence in `c`'s, and it leaves no
      changed cell with a negative neighbour. */
  lemma FillExtends(g: seq<seq<int>>, gc: seq<seq<int>>, gn: seq<seq<int>>, id: int, c: Cell, n: Cell)
    requires Filled(g, gc, id, c) && ClosedBut(g, gc, c)
    requires Inside(n) && Adjacent4(c, n) && gc[n.0][n.1] < 0
    requires Filled(gc, gn, id, n) && Closed(gc, gn)
    ensures Filled(g, gn, id, c) && ClosedBut(g, gn, c)
  {
    forall d | Inside(d) && gn[d.0][d.1] != g[d.0][d.1]
      ensures Linked(g, c, d)
    {
      if gc[d.0][d.1] == g[d.0][d.1] {
        LinkedInLarger(g, gc, n, d);
        LinkedStep(g, c, n, d);
      }
    }
  }

  /** Whether `__RecursiveSearch__`'s k-th test (up, down, left, right in the
      first index and then the second) has a cell to look at. */
  predicate HasNeighbour(c: Cell, k: nat)
  {
    match k
    case 0 => c.0 != 0
    case 1 => c.0 != Side - 1
    case 2 => c.1 != 0
    case _ => c.1 != Side - 1
  }

  /** The cell the k-th test looks at. */
  function Neighbour(c: Cell, k: nat): (n: Cell)
    ensures Adjacent4(c, n)
    ensures Inside(c) && HasNeighbour(c, k) ==> Inside(n)
  {
    match k
    case 0 => (c.0 - 1, c.1)
    case 1 => (c.0 + 1, c.1)
    case 2 => (c.0, c.1 - 1)
    case _ => (c.0, c.1 + 1)
  }

  /** The first `k` neighbours of `c` are no longer negative. */
  ghost predicate Settled(g': seq<seq<int>>, c: Cell, k: nat)
    requires IsHist(g') && Inside(c)
  {
    forall m :: 0 <= m < k && HasNeighbour(c, m) ==> g'[Neighbour(c, m).0][Neighbour(c, m).1] >= 0
  }

  /** Once every in-bounds neighbour of `c` is non-negative, the fill is closed. */
  lemma FillCloses(g: seq<seq<int>>, g': seq<seq<int>>, id: int, c: Cell)
    requires Filled(g, g', id, c) && ClosedBut(g, g', c) && Settled(g', c, 4)
    ensures Closed(g, g')
  {
    forall d, e | Inside(d) && Inside(e) && Adjacent4(d, e) && g'[d.0][d.1] != g[d.0][d.1]
      ensures g'[e.0][e.1] >= 0
    {
      if d == c {
        var m := if e.0 < c.0 then 0 else if e.0 > c.0 then 1 else if e.1 < c.1 then 2 else 3;
        assert HasNeighbour(c, m) && Neighbour(c, m) == e;
      }
    }
  }

  /** The k-th test of `__RecursiveSearch__`: recurse into the neighbour if there
      is one and it is still negative. */
  method Visit(ghost g: seq<seq<int>>, gc: seq<seq<int>>, id: int, c: Cell, k: nat) returns (gn: seq<seq<int>>)
    requires Filled(g, gc, id, c) && ClosedBut(g, gc, c) && Settled(gc, c, k)
    ensures Filled(g, gn, id, c) && ClosedBut(g, gn, c) && Settled(gn, c, k + 1)
    decreases Negatives(g), 0
  {
    gn := gc;
    if HasNeighbour(c, k) && gc[Neighbour(c, k).0][Neighbour(c, k).1] < 0 {
      var n := Neighbour(c, k);
      FilledShrinks(g, gc, id, c);
      gn := Search(gc, id, n);
      FillExtends(g, gc, gn, id, c, n);
      forall m | 0 <= m < k && HasNeighbour(c, m)
        ensures gn[Neighbour(c, m).0][Neighbour(c, m).1] >= 0
      {
        var d := Neighbour(c, m);
        assert gc[d.0][d.1] >= 0;
      }
    }
  }

  /** `__RecursiveSearch__(aHist, aRoIid, i, j)` on a negative cell with a
      positive id: the changed cells are each set to the id and lie in the region
      of negative cells 4-connected to (i, j), and none of them is left with a
      negative neighbour (so, by `FillIsRegion`, the whole region is changed). */
  method Search(g: seq<seq<int>>, id: int, c: Cell) returns (g': seq<seq<int>>)
    requires IsHist(g) && id > 0 && Inside(c) && g[c.0][c.1] < 0
    ensures Filled(g, g', id, c) && Closed(g, g')
    decreases Negatives(g), 1
  {
    g' := Set(g, c, id);
    FillStarts(g, id, c);
    g' := Visit(g, g', id, c, 0);
    g' := Visit(g, g', id, c, 1);
    g' := Visit(g, g', id, c, 2);
    g' := Visit(g, g', id, c, 3);
    FillCloses(g, g', id, c);
  }

  /** The fill reaches its whole region: every cell linked to `c` was changed. */
  lemma {:induction false} FillReachesRegion(g: seq<seq<int>>, g': seq<seq<int>>, id: int, c: Cell, p: seq<Cell>)
    requires Filled(g, g', id, c) && Closed(g, g')
    requires NegPath(g, p) && p[0] == c
    ensures g'[p[|p| - 1].0][p[|p| - 1].1] == id
  {
    if |p| > 1 {
      var q := p[..|p| - 1];
      assert NegPath(g, q);
      FillReachesRegion(g, g', id, c, q);
      var d, e := p[|p| - 2], p[|p| - 1];
      assert Inside(d) && Inside(e) && Adjacent4(d, e) && g[e.0][e.1] < 0;
    }
  }

  /** A completed fill changes exactly the region of `c`. */
  lemma FillIsRegion(g: seq<seq<int>>, g': seq<seq<int>>, id: int, c: Cell)
    requires Filled(g, g', id, c) && Closed(g, g')
    ensures forall d :: Inside(d) ==> (g'[d.0][d.1] != g[d.0][d.1] <==> Linked(g, c, d))
  {
    forall d | Inside(d) && Linked(g, c, d)
      ensures g'[d.0][d.1] != g[d.0][d.1]
    {
      var p :| NegPath(g, p) && p[0] == c && p[|p| - 1] == d;
      FillReachesRegion(g, g', id, c, p);
    }
  }
}
