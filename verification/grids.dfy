/** Rectangular grids of cells, indexed (row, column), and the cell neighbourhoods
    used by the labelling passes. */
module Grids {

  /** A cell address: first index (row), second index (column). */
  type Cell = (int, int)

  /** `g` has exactly `h` rows of exactly `w` entries. */
  ghost predicate IsGrid<T>(g: seq<seq<T>>, h: nat, w: nat)
  {
    |g| == h && forall r :: 0 <= r < h ==> |g[r]| == w
  }

  /** Row-major (lexicographic) order on cells. */
  predicate CellLess(a: Cell, b: Cell)
  {
    a.0 < b.0 || (a.0 == b.0 && a.1 < b.1)
  }

  predicate InBounds(h: int, w: int, c: Cell)
  {
    0 <= c.0 < h && 0 <= c.1 < w
  }

  /** Two distinct cells at Chebyshev distance 1 (the 8-neighbourhood). */
  predicate Adjacent8(a: Cell, b: Cell)
  {
    a != b && -1 <= a.0 - b.0 <= 1 && -1 <= a.1 - b.1 <= 1
  }

  /** Two cells sharing an edge (the 4-neighbourhood). */
  predicate Adjacent4(a: Cell, b: Cell)
  {
    (a.0 == b.0 && (a.1 - b.1 == 1 || b.1 - a.1 == 1)) ||
    (a.1 == b.1 && (a.0 - b.0 == 1 || b.0 - a.0 == 1))
  }

  /** The grid with cell `c` replaced by `v`; every other cell is kept. */
  function Set<T>(g: seq<seq<T>>, c: Cell, v: T): (g': seq<seq<T>>)
    requires 0 <= c.0 < |g| && 0 <= c.1 < |g[c.0]|
    ensures |g'| == |g|
    ensures forall r :: 0 <= r < |g| ==> |g'[r]| == |g[r]|
    ensures g'[c.0][c.1] == v
    ensures forall r, k :: 0 <= r < |g| && 0 <= k < |g[r]| && (r, k) != c ==> g'[r][k] == g[r][k]
  {
    g[c.0 := g[c.0][c.1 := v]]
  }

  /** Every cell of the `h` by `w` rectangle. */
  ghost function AllCells(h: nat, w: nat): set<Cell>
  {
    set r, k | 0 <= r < h && 0 <= k < w :: (r, k)
  }

  lemma SubsetCard<T>(a: set<T>, b: set<T>)
    requires a <= b
    ensures |a| <= |b|
  {
    if a != {} {
      var x :| x in a;
      SubsetCard(a - {x}, b - {x});
    }
  }
}
