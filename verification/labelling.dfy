/** The neighbourhood and bounds helpers of the Python driver's 8-connected
    labeller: `validIndices` and `NESWsetter`. */
module Labelling {
  import opened Grids
  import opened RoiBox

  /** The cells of row `x` that `validIndices` yields around (i, j): columns j-1, j, j+1
      in that order, in bounds, skipping (i, j) itself. */
  function RowOf(i: int, j: int, x: int, h: int, w: int): (r: seq<Cell>)
    ensures forall k :: 0 <= k < |r| ==> r[k].0 == x
    ensures forall c :: c in r <==> 0 <= x < h && c.0 == x && 0 <= c.1 < w && -1 <= c.1 - j <= 1 && c != (i, j)
    ensures forall a, b :: 0 <= a < b < |r| ==> r[a].1 < r[b].1
    ensures |r| <= 3
  {
    if x < 0 || x >= h then []
    else
      (if 0 <= j - 1 < w && (x, j - 1) != (i, j) then [(x, j - 1)] else []) +
      (if 0 <= j < w && (x, j) != (i, j) then [(x, j)] else []) +
      (if 0 <= j + 1 < w && (x, j + 1) != (i, j) then [(x, j + 1)] else [])
  }

  /** `validIndices(i, j, array)` for an array of shape (h, w): the in-bounds
      8-neighbours of (i, j), in row-major order. */
  function ValidIndices(i: int, j: int, h: int, w: int): (r: seq<Cell>)
    ensures forall c :: c in r <==> InBounds(h, w, c) && Adjacent8(c, (i, j))
    ensures forall a, b :: 0 <= a < b < |r| ==> CellLess(r[a], r[b])
    ensures |r| <= 8
  {
    var r0, r1, r2 := RowOf(i, j, i - 1, h, w), RowOf(i, j, i, h, w), RowOf(i, j, i + 1, h, w);
    RowsInOrder(r0, r1, i - 1);
    RowsInOrder(r0 + r1, r2, i);
    r0 + r1 + r2
  }

  /** Two row-major runs, the first on rows up to `x`, the second on row `x + 1`,
      concatenate to a row-major run. */
  lemma RowsInOrder(a: seq<Cell>, b: seq<Cell>, x: int)
    requires forall p, q :: 0 <= p < q < |a| ==> CellLess(a[p], a[q])
    requires forall p, q :: 0 <= p < q < |b| ==> b[p].1 < b[q].1
    requires forall k :: 0 <= k < |a| ==> a[k].0 <= x
    requires forall k :: 0 <= k < |b| ==> b[k].0 == x + 1
    ensures forall p, q :: 0 <= p < q < |a + b| ==> CellLess((a + b)[p], (a + b)[q])
    ensures forall k :: 0 <= k < |a + b| ==> (a + b)[k].0 <= x + 1
  {
  }

  /** `NESWsetter(x, y, n, e, s, w)`: widens the bounds to take in (x, y); the first
      index moves `e`/`w`, the second moves `n`/`s`. */
  function Widen(x: int, y: int, b: Box): (r: Box)
    ensures r.e >= x && r.e >= b.e && (r.e == x || r.e == b.e)
    ensures r.w <= x && r.w <= b.w && (r.w == x || r.w == b.w)
    ensures r.n <= y && r.n <= b.n && (r.n == y || r.n == b.n)
    ensures r.s >= y && r.s >= b.s && (r.s == y || r.s == b.s)
  {
    var e := if x > b.e then x else b.e;
    var w := if x < b.w then x else b.w;
    var n := if y < b.n then y else b.n;
    var s := if y > b.s then y else b.s;
    Box(n, e, s, w)
  }

}
