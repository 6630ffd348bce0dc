/** The sweep after thresholding: every cell of the mask is visited in row-major
    order and each cell still -1 starts `__RecursiveSearch__` with `++lRoIid`, so
    ids run from 1 and no -1 cell survives. */
module RegionSweep {
  import opened Grids
  import opened FloodFill

  /** The ids so far against the mask: 0 cells stay 0, -1 cells are -1 or carry
      an id handed out, 4-adjacent -1 cells of the mask agree, and each id is
      rooted at its seed. */
  ghost predicate Labelled(mask: seq<seq<int>>, g: seq<seq<int>>, seeds: seq<Cell>)
  {
    IsMask(mask) && IsHist(g) && Kept(mask, g, |seeds|) && Joined(mask, g) && Seeded(g, seeds) &&
    Rooted(mask, g, seeds)
  }

  /** 0 cells are still 0; -1 cells are -1 or carry one of the first `n` ids. */
  ghost predicate Kept(mask: seq<seq<int>>, g: seq<seq<int>>, n: int)
    requires IsHist(mask) && IsHist(g)
  {
    (forall c :: Inside(c) && mask[c.0][c.1] == 0 ==> g[c.0][c.1] == 0) &&
    (forall c :: Inside(c) && mask[c.0][c.1] == -1 ==> g[c.0][c.1] == -1 || 1 <= g[c.0][c.1] <= n)
  }

  /** The k-th seed carries id k + 1. */
  ghost predicate Seeded(g: seq<seq<int>>, seeds: seq<Cell>)
    requires IsHist(g)
  {
    forall k :: 0 <= k < |seeds| ==> Inside(seeds[k]) && g[seeds[k].0][seeds[k].1] == k + 1
  }

  /** A cell with id k + 1 is in the region of the k-th seed, and not before it in
      row-major order. */
  ghost predicate Rooted(mask: seq<seq<int>>, g: seq<seq<int>>, seeds: seq<Cell>)
    requires IsHist(mask) && IsHist(g)
  {
    forall c :: Inside(c) && g[c.0][c.1] >= 1 ==>
      g[c.0][c.1] <= |seeds| && Linked(mask, seeds[g[c.0][c.1] - 1], c) && !CellLess(c, seeds[g[c.0][c.1] - 1])
  }

  /** 4-adjacent cells that were -1 hold the same value. */
  ghost predicate Joined(mask: seq<seq<int>>, g: seq<seq<int>>)
    requires IsHist(mask) && IsHist(g)
  {
    forall c, d :: Inside(c) && Inside(d) && Adjacent4(c, d) && mask[c.0][c.1] == -1 && mask[d.0][d.1] == -1 ==>
      g[c.0][c.1] == g[d.0][d.1]
  }

  /** Every cell before (i, j) is done (no longer negative), and so is every seed. */
  ghost predicate Swept(g: seq<seq<int>>, seeds: seq<Cell>, i: int, j: int)
    requires IsHist(g)
  {
    (forall c :: Inside(c) && CellLess(c, (i, j)) ==> g[c.0][c.1] >= 0) &&
    (forall k :: 0 <= k < |seeds| ==> CellLess(seeds[k], (i, j))) &&
    (forall a, b :: 0 <= a < b < |seeds| ==> CellLess(seeds[a], seeds[b]))
  }

  /** A fill from the negative cell `s` with the next id keeps the labelling, with
      `s` as the new seed. */
  lemma FillKeepsLabelled(mask: seq<seq<int>>, g: seq<seq<int>>, g': seq<seq<int>>, seeds: seq<Cell>, s: Cell)
    requires Labelled(mask, g, seeds) && Swept(g, seeds, s.0, s.1)
    requires Filled(g, g', |seeds| + 1, s) && Closed(g, g')
    ensures Labelled(mask, g', seeds + [s]) && Swept(g', seeds + [s], s.0, s.1 + 1)
  {
    FillKeepsKept(mask, g, g', |seeds|, s);
    FillKeepsSeeds(g, g', seeds, s);
    FillJoins(mask, g, g', seeds, s);
    FillKeepsRooted(mask, g, g', seeds, s);
  }

  /** The same fill keeps 0 cells and hands out one id more. */
  lemma FillKeepsKept(mask: seq<seq<int>>, g: seq<seq<int>>, g': seq<seq<int>>, n: int, s: Cell)
    requires IsMask(mask) && IsHist(g) && Kept(mask, g, n) && Filled(g, g', n + 1, s)
    ensures Kept(mask, g', n + 1)
  {
    forall c | Inside(c)
      ensures mask[c.0][c.1] == 0 ==> g'[c.0][c.1] == 0
      ensures mask[c.0][c.1] == -1 ==> g'[c.0][c.1] == -1 || 1 <= g'[c.0][c.1] <= n + 1
    {
    }
  }

  /** The old seeds keep their ids, `s` carries the new one, and the sweep moves
      past `s`. */
  lemma FillKeepsSeeds(g: seq<seq<int>>, g': seq<seq<int>>, seeds: seq<Cell>, s: Cell)
    requires IsHist(g) && Seeded(g, seeds) && Swept(g, seeds, s.0, s.1) && Filled(g, g', |seeds| + 1, s)
    ensures Seeded(g', seeds + [s]) && Swept(g', seeds + [s], s.0, s.1 + 1)
  {
    var seeds' := seeds + [s];
    forall k | 0 <= k < |seeds'|
      ensures Inside(seeds'[k]) && g'[seeds'[k].0][seeds'[k].1] == k + 1
    {
      if k < |seeds| {
        assert seeds'[k] == seeds[k];
      }
    }
  }

  /** The same fill roots its cells at `s`: they are in `s`'s region of the mask
      and, being negative, not before `s`. */
  lemma FillKeepsRooted(mask: seq<seq<int>>, g: seq<seq<int>>, g': seq<seq<int>>, seeds: seq<Cell>, s: Cell)
    requires IsMask(mask) && IsHist(g) && Kept(mask, g, |seeds|) && Rooted(mask, g, seeds) && Swept(g, seeds, s.0, s.1)
    requires Filled(g, g', |seeds| + 1, s)
    ensures Rooted(mask, g', seeds + [s])
  {
    var seeds' := seeds + [s];
    NegativeInMask(mask, g, |seeds|);
    forall c | Inside(c) && g'[c.0][c.1] >= 1
      ensures g'[c.0][c.1] <= |seeds'| && Linked(mask, seeds'[g'[c.0][c.1] - 1], c) &&
              !CellLess(c, seeds'[g'[c.0][c.1] - 1])
    {
      if g'[c.0][c.1] != g[c.0][c.1] {
        assert g'[c.0][c.1] == |seeds'| && g[c.0][c.1] < 0 && Linked(g, s, c);
        LinkedInLarger(mask, g, s, c);
        assert seeds'[|seeds'| - 1] == s;
      } else {
        assert seeds'[g[c.0][c.1] - 1] == seeds[g[c.0][c.1] - 1];
      }
    }
  }

  /** A cell still negative is a -1 cell of the mask. */
  lemma NegativeInMask(mask: seq<seq<int>>, g: seq<seq<int>>, n: int)
    requires IsMask(mask) && IsHist(g) && Kept(mask, g, n)
    ensures forall c :: Inside(c) && g[c.0][c.1] < 0 ==> mask[c.0][c.1] < 0
  {
    forall c | Inside(c) && g[c.0][c.1] < 0 ensures mask[c.0][c.1] < 0 {
      assert mask[c.0][c.1] == 0 || mask[c.0][c.1] == -1;
    }
  }

  /** The fill keeps -1 neighbours together: it cannot change one of two
      4-adjacent negative cells and not the other. */
  lemma FillJoins(mask: seq<seq<int>>, g: seq<seq<int>>, g': seq<seq<int>>, seeds: seq<Cell>, s: Cell)
    requires IsMask(mask) && IsHist(g) && Joined(mask, g)
    requires Filled(g, g', |seeds| + 1, s) && Closed(g, g')
    ensures Joined(mask, g')
  {
    forall c, d | Inside(c) && Inside(d) && Adjacent4(c, d) && mask[c.0][c.1] == -1 && mask[d.0][d.1] == -1
      ensures g'[c.0][c.1] == g'[d.0][d.1]
    {
      assert Adjacent4(d, c);
    }
  }

  /** One cell of the sweep: `if( lHist2[i][j] < 0 ) __RecursiveSearch__( lHist2, ++lRoIid, i, j )`. */
  method Step(ghost mask: seq<seq<int>>, g: seq<seq<int>>, ghost seeds: seq<Cell>, id: int, i: int, j: int)
    returns (g': seq<seq<int>>, ghost seeds': seq<Cell>, id': int)
    requires Labelled(mask, g, seeds) && Swept(g, seeds, i, j) && id == |seeds| && Inside((i, j))
    ensures Labelled(mask, g', seeds') && Swept(g', seeds', i, j + 1) && id' == |seeds'|
    ensures seeds' == if g[i][j] < 0 then seeds + [(i, j)] else seeds
  {
    if g[i][j] < 0 {
      id' := id + 1;
      g' := Search(g, id', (i, j));
      FillKeepsLabelled(mask, g, g', seeds, (i, j));
      seeds' := seeds + [(i, j)];
    } else {
      SweptPast(g, seeds, i, j);
      g', seeds', id' := g, seeds, id;
    }
  }

  /** A cell that is not negative needs no fill: the sweep moves past it. */
  lemma SweptPast(g: seq<seq<int>>, seeds: seq<Cell>, i: int, j: int)
    requires IsHist(g) && Swept(g, seeds, i, j) && Inside((i, j)) && g[i][j] >= 0
    ensures Swept(g, seeds, i, j + 1)
  {
    forall c | Inside(c) && CellLess(c, (i, j + 1)) ensures g[c.0][c.1] >= 0 {
      if c != (i, j) {
        assert CellLess(c, (i, j));
      }
    }
  }

  /** Once every row is swept, no cell is negative, so every -1 cell of the
      mask carries an id. */
  lemma SweptAll(mask: seq<seq<int>>, g: seq<seq<int>>, seeds: seq<Cell>)
    requires Labelled(mask, g, seeds) && Swept(g, seeds, Side, 0)
    ensures forall c :: Inside(c) ==> g[c.0][c.1] >= 0
    ensures forall c :: Inside(c) && mask[c.0][c.1] == -1 ==> 1 <= g[c.0][c.1] <= |seeds|
  {
    forall c | Inside(c) ensures g[c.0][c.1] >= 0 {
      assert CellLess(c, (Side, 0));
    }
  }

  /** The sweep over row `i`. */
  method SweepRow(ghost mask: seq<seq<int>>, g: seq<seq<int>>, ghost seeds: seq<Cell>, id: int, i: int)
    returns (g': seq<seq<int>>, ghost seeds': seq<Cell>, id': int)
    requires 0 <= i < Side && Labelled(mask, g, seeds) && Swept(g, seeds, i, 0) && id == |seeds|
    ensures Labelled(mask, g', seeds') && Swept(g', seeds', i + 1, 0) && id' == |seeds'|
  {
    g', seeds', id' := g, seeds, id;
    var j := 0;
    while j != Side
      invariant 0 <= j <= Side
      invariant Labelled(mask, g', seeds') && Swept(g', seeds', i, j) && id' == |seeds'|
    {
      g', seeds', id' := Step(mask, g', seeds', id', i, j);
      j := j + 1;
    }
  }

  /** The labelling loop of `ExtractRoIs` on a thresholded histogram. The result
      has no negative cell, keeps every 0, gives every -1 cell an id in 1..lRoIid,
      gives 4-adjacent -1 cells the same id, and the k-th id's cells are in the
      region of its seed, the first of them in row-major order; the seeds come in
      row-major order. By `IdsAreRegions` each id's cells are its whole region. */
  method Label(mask: seq<seq<int>>) returns (g: seq<seq<int>>, count: int, ghost seeds: seq<Cell>)
    requires IsMask(mask)
    ensures Labelled(mask, g, seeds) && count == |seeds|
    ensures forall c :: Inside(c) ==> g[c.0][c.1] >= 0
    ensures forall c :: Inside(c) && mask[c.0][c.1] == -1 ==> 1 <= g[c.0][c.1] <= count
    ensures forall a, b :: 0 <= a < b < |seeds| ==> CellLess(seeds[a], seeds[b])
  {
    g, seeds, count := mask, [], 0;
    var i := 0;
    while i != Side
      invariant 0 <= i <= Side
      invariant Labelled(mask, g, seeds) && Swept(g, seeds, i, 0) && count == |seeds|
    {
      g, seeds, count := SweepRow(mask, g, seeds, count, i);
      i := i + 1;
    }
    SweptAll(mask, g, seeds);
  }

  /** Along a path of -1 cells every cell carries the label of the first. */
  lemma {:induction false} PathKeepsLabel(mask: seq<seq<int>>, g: seq<seq<int>>, p: seq<Cell>)
    requires IsMask(mask) && IsHist(g) && Joined(mask, g) && NegPath(mask, p)
    ensures g[p[|p| - 1].0][p[|p| - 1].1] == g[p[0].0][p[0].1]
  {
    if |p| > 1 {
      var q := p[..|p| - 1];
      assert NegPath(mask, q);
      PathKeepsLabel(mask, g, q);
      var d, e := p[|p| - 2], p[|p| - 1];
      assert Inside(d) && Inside(e) && Adjacent4(d, e) && mask[d.0][d.1] == -1 && mask[e.0][e.1] == -1;
    }
  }

  /** After the sweep, id k + 1 marks exactly the region of the k-th seed: the ids
      are the maximal 4-connected regions of the mask. */
  lemma IdsAreRegions(mask: seq<seq<int>>, g: seq<seq<int>>, seeds: seq<Cell>, k: int, c: Cell)
    requires Labelled(mask, g, seeds) && 0 <= k < |seeds| && Inside(c)
    ensures g[c.0][c.1] == k + 1 <==> Linked(mask, seeds[k], c)
  {
    if Linked(mask, seeds[k], c) {
      RegionCarriesId(mask, g, seeds, k, c);
    }
  }

  /** Every cell of the k-th seed's region carries id k + 1. */
  lemma RegionCarriesId(mask: seq<seq<int>>, g: seq<seq<int>>, seeds: seq<Cell>, k: int, c: Cell)
    requires IsMask(mask) && IsHist(g) && Joined(mask, g) && Seeded(g, seeds)
    requires 0 <= k < |seeds| && Linked(mask, seeds[k], c)
    ensures g[c.0][c.1] == k + 1
  {
    var p :| NegPath(mask, p) && p[0] == seeds[k] && p[|p| - 1] == c;
    PathKeepsLabel(mask, g, p);
  }
}
