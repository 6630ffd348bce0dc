/** The hole-filling pass of `ExtractRoIs`: in row-major order, a labelled cell
    adds one to its record's size; a 0 cell looks along the four axes for the
    nearest non-zero cell of the grid as updated so far and, when all four agree
    on L, takes L and adds one to record L (record 0 too, when all four rays find
    nothing). */
module HoleFill {
  import opened Grids
  import opened FloodFill

  /** The four rays, named as the source's variables: L and R walk the first
      index down and up, D and U the second. */
  datatype Ray = L | R | D | U

  /** The cell `t` steps from `c` along `ray`. */
  function Beyond(c: Cell, ray: Ray, t: int): Cell
  {
    match ray
    case L => (c.0 - t, c.1)
    case R => (c.0 + t, c.1)
    case D => (c.0, c.1 - t)
    case U => (c.0, c.1 + t)
  }

  /** How many cells lie beyond `c` along `ray`. */
  function Room(c: Cell, ray: Ray): int
  {
    match ray
    case L => c.0
    case R => Side - 1 - c.0
    case D => c.1
    case U => Side - 1 - c.1
  }

  /** `for( k = ...; ...; ... ) if( (L = lHist2[k][j]) ) break;`: the value of the
      first non-zero cell beyond `c` along `ray`, or 0 when the loop runs out. */
  function Scan(g: seq<seq<int>>, c: Cell, ray: Ray): int
    requires IsHist(g) && Inside(c)
    decreases Room(c, ray)
  {
    var n := Beyond(c, ray, 1);
    if !Inside(n) then 0
    else if g[n.0][n.1] != 0 then g[n.0][n.1]
    else Scan(g, n, ray)
  }

  /** The cell `t` steps along `ray` holds `v`, and every cell before it is 0. */
  ghost predicate Hit(g: seq<seq<int>>, c: Cell, ray: Ray, t: int, v: int)
    requires IsHist(g)
  {
    1 <= t && Inside(Beyond(c, ray, t)) && g[Beyond(c, ray, t).0][Beyond(c, ray, t).1] == v &&
    forall u :: 1 <= u < t ==> Inside(Beyond(c, ray, u)) && g[Beyond(c, ray, u).0][Beyond(c, ray, u).1] == 0
  }

  /** Every cell beyond `c` along `ray` is 0. */
  ghost predicate Clear(g: seq<seq<int>>, c: Cell, ray: Ray)
    requires IsHist(g)
  {
    forall t :: 1 <= t && Inside(Beyond(c, ray, t)) ==> g[Beyond(c, ray, t).0][Beyond(c, ray, t).1] == 0
  }

  /** `Scan` finds the nearest non-zero cell along the ray; 0 means there is none. */
  lemma ScanIsNearest(g: seq<seq<int>>, c: Cell, ray: Ray)
    requires IsHist(g) && Inside(c)
    ensures Scan(g, c, ray) != 0 ==> exists t :: Hit(g, c, ray, t, Scan(g, c, ray))
    ensures Scan(g, c, ray) == 0 <==> Clear(g, c, ray)
  {
    ScanHits(g, c, ray);
    ScanClear(g, c, ray);
  }

  /** A non-zero `Scan` is the value of a hit. */
  lemma {:induction false} ScanHits(g: seq<seq<int>>, c: Cell, ray: Ray)
    requires IsHist(g) && Inside(c)
    ensures Scan(g, c, ray) != 0 ==> exists t :: Hit(g, c, ray, t, Scan(g, c, ray))
    decreases Room(c, ray)
  {
    var n := Beyond(c, ray, 1);
    if Inside(n) && g[n.0][n.1] != 0 {
      assert Hit(g, c, ray, 1, g[n.0][n.1]);
    } else if Inside(n) && Scan(g, n, ray) != 0 {
      ScanHits(g, n, ray);
      var v := Scan(g, n, ray);
      var t :| Hit(g, n, ray, t, v);
      forall u | 2 <= u < t + 1
        ensures Inside(Beyond(c, ray, u)) && g[Beyond(c, ray, u).0][Beyond(c, ray, u).1] == 0
      {
        assert Beyond(c, ray, u) == Beyond(n, ray, u - 1);
      }
      assert Beyond(c, ray, t + 1) == Beyond(n, ray, t);
      assert Hit(g, c, ray, t + 1, v);
    }
  }

  /** `Scan` is 0 exactly when the ray meets no non-zero cell. */
  lemma {:induction false} ScanClear(g: seq<seq<int>>, c: Cell, ray: Ray)
    requires IsHist(g) && Inside(c)
    ensures Scan(g, c, ray) == 0 <==> Clear(g, c, ray)
    decreases Room(c, ray)
  {
    var n := Beyond(c, ray, 1);
    if !Inside(n) {
      forall t | 1 <= t && Inside(Beyond(c, ray, t))
        ensures false
      {
      }
    } else if g[n.0][n.1] != 0 {
      assert !Clear(g, c, ray) by {
        assert 1 <= 1 && Inside(Beyond(c, ray, 1));
      }
    } else {
      ScanClear(g, n, ray);
      if Clear(g, n, ray) {
        forall t | 2 <= t && Inside(Beyond(c, ray, t))
          ensures g[Beyond(c, ray, t).0][Beyond(c, ray, t).1] == 0
        {
          assert Beyond(c, ray, t) == Beyond(n, ray, t - 1);
        }
      } else {
        var t :| 1 <= t && Inside(Beyond(n, ray, t)) && g[Beyond(n, ray, t).0][Beyond(n, ray, t).1] != 0;
        assert Beyond(c, ray, t + 1) == Beyond(n, ray, t);
      }
    }
  }

  /** `U == L and R == L and D == L`. */
  predicate Agree(g: seq<seq<int>>, c: Cell)
    requires IsHist(g) && Inside(c)
  {
    Scan(g, c, U) == Scan(g, c, L) && Scan(g, c, R) == Scan(g, c, L) && Scan(g, c, D) == Scan(g, c, L)
  }

  /** Every cell holds a record index: 0 up to `n - 1`. */
  ghost predicate Indexed(g: seq<seq<int>>, n: int)
  {
    IsHist(g) && forall c :: Inside(c) ==> 0 <= g[c.0][c.1] < n
  }

  /** The pass's work on cell `c`: a labelled cell adds one to its record; a 0 cell
      whose four rays agree takes their value and adds one to that record; any
      other 0 cell is left alone. Only cell `c` and one size change. */
  function Visit(g: seq<seq<int>>, sizes: seq<int>, c: Cell): (r: (seq<seq<int>>, seq<int>))
    requires Indexed(g, |sizes|) && Inside(c)
    ensures Indexed(r.0, |sizes|) && |r.1| == |sizes|
    ensures forall d :: Inside(d) && d != c ==> r.0[d.0][d.1] == g[d.0][d.1]
    ensures g[c.0][c.1] != 0 ==> r.0[c.0][c.1] == g[c.0][c.1]
    ensures g[c.0][c.1] == 0 && r.0[c.0][c.1] != 0 ==>
              forall ray :: Scan(g, c, ray) == r.0[c.0][c.1]
    ensures g[c.0][c.1] == 0 && r.0[c.0][c.1] == 0 ==> !Agree(g, c) || Scan(g, c, L) == 0
    ensures g[c.0][c.1] != 0 || Agree(g, c) ==> r.1 == sizes[r.0[c.0][c.1] := sizes[r.0[c.0][c.1]] + 1]
    ensures g[c.0][c.1] == 0 && !Agree(g, c) ==> r.1 == sizes
  {
    var v := g[c.0][c.1];
    if v != 0 then (g, sizes[v := sizes[v] + 1])
    else if Agree(g, c) then
      var l := Scan(g, c, L);
      assert 0 <= l < |sizes| by {
        ScanIsNearest(g, c, L);
        if l != 0 {
          var t :| Hit(g, c, L, t, l);
        }
      }
      (Set(g, c, l), sizes[l := sizes[l] + 1])
    else (g, sizes)
  }

  /** The cell at row-major position `n`. */
  function At(n: int): Cell
  {
    (n / Side, n % Side)
  }

  /** How many of the first `n` cells, in row-major order, hold `k`. */
  ghost function CellsWith(g: seq<seq<int>>, k: int, n: nat): nat
    requires IsHist(g) && n <= Side * Side
  {
    if n == 0 then 0
    else CellsWith(g, k, n - 1) + (if g[At(n - 1).0][At(n - 1).1] == k then 1 else 0)
  }

  /** Grids that agree on the first `n` cells count the same there. */
  lemma {:induction false} CellsWithFrame(g: seq<seq<int>>, g': seq<seq<int>>, k: int, n: nat)
    requires IsHist(g) && IsHist(g') && n <= Side * Side
    requires forall m :: 0 <= m < n ==> g'[At(m).0][At(m).1] == g[At(m).0][At(m).1]
    ensures CellsWith(g', k, n) == CellsWith(g, k, n)
  {
    if n > 0 {
      CellsWithFrame(g, g', k, n - 1);
    }
  }

  /** What holds after the first `n` cells: the labels of the first `n` cells
      are final, and each non-zero record's size is the number of them carrying
      its id. */
  ghost predicate Sized(g: seq<seq<int>>, sizes: seq<int>, n: nat)
  {
    Indexed(g, |sizes|) && n <= Side * Side &&
    forall k :: 1 <= k < |sizes| ==> sizes[k] == CellsWith(g, k, n)
  }

  /** Visiting the cell at position `n` extends `Sized` by one cell. */
  lemma VisitSizes(g: seq<seq<int>>, sizes: seq<int>, n: nat)
    requires Sized(g, sizes, n) && n < Side * Side
    ensures Sized(Visit(g, sizes, At(n)).0, Visit(g, sizes, At(n)).1, n + 1)
  {
    var c := At(n);
    var (g', sizes') := Visit(g, sizes, c);
    forall m | 0 <= m < n
      ensures g'[At(m).0][At(m).1] == g[At(m).0][At(m).1]
    {
      assert At(m) != c;
    }
    forall k | 1 <= k < |sizes'|
      ensures sizes'[k] == CellsWith(g', k, n + 1)
    {
      CellsWithFrame(g, g', k, n);
    }
  }

  /** The zeroed sizes of records 0 to `count` (`lRecords( lRoIid+1, ... )`). */
  function NoSizes(count: nat): (sizes: seq<int>)
    ensures |sizes| == count + 1 && forall k :: 0 <= k <= count ==> sizes[k] == 0
  {
    seq(count + 1, _ => 0)
  }

  /** The grid and sizes at one point of the pass. */
  type Stage = (seq<seq<int>>, seq<int>)

  /** `trace[n]` is where the pass from `g` and `sizes` stands after its first
      `n` visits in row-major order: every stage is indexed by the records, and
      each visit sees the grid and sizes the earlier visits left. */
  ghost predicate Pass(g: seq<seq<int>>, sizes: seq<int>, trace: seq<Stage>)
  {
    |trace| == Side * Side + 1 && trace[0] == (g, sizes) &&
    (forall n :: 0 <= n < |trace| ==> Indexed(trace[n].0, |sizes|) && |trace[n].1| == |sizes|) &&
    forall n {:trigger At(n)} :: 0 <= n < Side * Side ==> trace[n + 1] == Visit(trace[n].0, trace[n].1, At(n))
  }

  /** Distinct row-major positions are distinct cells. */
  lemma AtInjective(m: nat, k: nat)
    requires m < Side * Side && k < Side * Side && m != k
    ensures At(m) != At(k)
  {
  }

  /** The pass is fixed by where it starts: two traces from the same grid and
      sizes are the same trace. */
  lemma PassUnique(g: seq<seq<int>>, sizes: seq<int>, t1: seq<Stage>, t2: seq<Stage>)
    requires Pass(g, sizes, t1) && Pass(g, sizes, t2)
    ensures t1 == t2
  {
    forall n | 0 <= n < |t1|
      ensures t1[n] == t2[n]
    {
      PassAgree(g, sizes, t1, t2, n);
    }
  }

  /** Two traces from the same start agree up to stage `n`. */
  lemma {:induction false} PassAgree(g: seq<seq<int>>, sizes: seq<int>, t1: seq<Stage>, t2: seq<Stage>, n: nat)
    requires Pass(g, sizes, t1) && Pass(g, sizes, t2) && n <= Side * Side
    ensures t1[n] == t2[n]
  {
    if n > 0 {
      var o: nat := n - 1;
      PassAgree(g, sizes, t1, t2, o);
      assert t1[o + 1] == Visit(t1[o].0, t1[o].1, At(o));
    }
  }

  /** The first `n` visits leave the cells from position `n` on as in `g`. */
  lemma {:induction false} PassFrame(g: seq<seq<int>>, sizes: seq<int>, trace: seq<Stage>, n: nat, k: nat)
    requires Pass(g, sizes, trace) && n <= k < Side * Side
    ensures trace[n].0[At(k).0][At(k).1] == g[At(k).0][At(k).1]
  {
    if n > 0 {
      var o: nat := n - 1;
      PassFrame(g, sizes, trace, o, k);
      AtInjective(o, k);
      assert trace[o + 1] == Visit(trace[o].0, trace[o].1, At(o));
    }
  }

  /** Once visited, the cell at position `m` keeps its value through the later
      visits. */
  lemma {:induction false} PassKept(g: seq<seq<int>>, sizes: seq<int>, trace: seq<Stage>, n: nat, m: nat)
    requires Pass(g, sizes, trace) && m < n <= Side * Side
    ensures trace[n].0[At(m).0][At(m).1] == trace[m + 1].0[At(m).0][At(m).1]
  {
    if n > m + 1 {
      var o: nat := n - 1;
      PassKept(g, sizes, trace, o, m);
      AtInjective(o, m);
      assert trace[o + 1] == Visit(trace[o].0, trace[o].1, At(o));
    }
  }

  /** The value the pass leaves at `c` when it reaches it with the grid `g`:
      a label stays; a 0 cell takes the common value of its four rays (0 when
      all four find nothing), or stays 0 when they disagree. */
  function Fill(g: seq<seq<int>>, c: Cell): int
    requires IsHist(g) && Inside(c)
  {
    if g[c.0][c.1] != 0 then g[c.0][c.1]
    else if Agree(g, c) then Scan(g, c, L)
    else 0
  }

  /** `Visit` writes `Fill` at the cell it visits. */
  lemma FillStep(g: seq<seq<int>>, sizes: seq<int>, c: Cell)
    requires Indexed(g, |sizes|) && Inside(c)
    ensures Visit(g, sizes, c).0[c.0][c.1] == Fill(g, c)
  {
  }

  /** Visit `m + 1` writes `Fill` at the cell at position `m`, which the first
      `m` visits left as in `g`. */
  lemma PassVisits(g: seq<seq<int>>, sizes: seq<int>, trace: seq<Stage>, m: nat)
    requires Pass(g, sizes, trace) && m < Side * Side
    ensures trace[m].0[At(m).0][At(m).1] == g[At(m).0][At(m).1]
    ensures trace[m + 1].0[At(m).0][At(m).1] == Fill(trace[m].0, At(m))
  {
    PassFrame(g, sizes, trace, m, m);
    assert trace[m + 1] == Visit(trace[m].0, trace[m].1, At(m));
    FillStep(trace[m].0, trace[m].1, At(m));
  }

  /** The fill rule over the whole pass: when the pass reaches cell `m` it is
      still as in `g`, and once visited it holds `Fill` of the grid as the first
      `m` visits left it; later visits never change it. */
  lemma FillRule(g: seq<seq<int>>, sizes: seq<int>, trace: seq<Stage>, n: nat, m: nat)
    requires Pass(g, sizes, trace) && m < n <= Side * Side
    ensures trace[m].0[At(m).0][At(m).1] == g[At(m).0][At(m).1]
    ensures trace[n].0[At(m).0][At(m).1] == Fill(trace[m].0, At(m))
  {
    PassVisits(g, sizes, trace, m);
    PassKept(g, sizes, trace, n, m);
  }

  /** The whole pass fills every cell by `FillRule`: the finished grid holds at
      each cell what `Fill` makes of it in the grid the pass had reached there. */
  lemma PassFills(g: seq<seq<int>>, sizes: seq<int>, trace: seq<Stage>)
    requires Pass(g, sizes, trace)
    ensures forall m :: 0 <= m < Side * Side ==> trace[|trace| - 1].0[At(m).0][At(m).1] == Fill(trace[m].0, At(m))
  {
    forall m | 0 <= m < Side * Side
      ensures trace[|trace| - 1].0[At(m).0][At(m).1] == Fill(trace[m].0, At(m))
    {
      FillRule(g, sizes, trace, |trace| - 1, m);
    }
  }

  /** After the first `n` visits the labels of `g` are kept and the sizes count
      the cells visited so far. */
  lemma {:induction false} PassSized(g: seq<seq<int>>, sizes: seq<int>, trace: seq<Stage>, n: nat)
    requires Pass(g, sizes, trace) && n <= Side * Side
    requires forall k :: 1 <= k < |sizes| ==> sizes[k] == 0
    ensures Sized(trace[n].0, trace[n].1, n)
    ensures forall c :: Inside(c) && g[c.0][c.1] != 0 ==> trace[n].0[c.0][c.1] == g[c.0][c.1]
  {
    if n > 0 {
      var o: nat := n - 1;
      PassSized(g, sizes, trace, o);
      VisitSizes(trace[o].0, trace[o].1, o);
      assert trace[o + 1] == Visit(trace[o].0, trace[o].1, At(o));
    }
  }

  /** The hole-filling loop over a labelled histogram with ids 1..`count`: it
      runs the pass `trace` over all cells from zeroed sizes, so each 0 cell is
      filled by the four-ray rule, as `PassFills` states; labels are kept, and
      afterwards record k's size, for every id k, is the number of cells
      carrying k. */
  method FillHoles(g: seq<seq<int>>, count: nat) returns (g': seq<seq<int>>, sizes: seq<int>, ghost trace: seq<Stage>)
    requires Indexed(g, count + 1)
    ensures Pass(g, NoSizes(count), trace) && (g', sizes) == trace[Side * Side]
    ensures Indexed(g', count + 1) && |sizes| == count + 1
    ensures forall c :: Inside(c) && g[c.0][c.1] != 0 ==> g'[c.0][c.1] == g[c.0][c.1]
    ensures forall k :: 1 <= k <= count ==> sizes[k] == CellsWith(g', k, Side * Side)
  {
    g', sizes := g, NoSizes(count);
    trace := [(g', sizes)];
    var n := 0;
    while n != Side * Side
      invariant 0 <= n <= Side * Side && |trace| == n + 1
      invariant trace[0] == (g, NoSizes(count)) && trace[n] == (g', sizes)
      invariant forall k :: 0 <= k < |trace| ==> Indexed(trace[k].0, count + 1) && |trace[k].1| == count + 1
      invariant forall k {:trigger At(k)} :: 0 <= k < n ==> trace[k + 1] == Visit(trace[k].0, trace[k].1, At(k))
    {
      var r := Visit(g', sizes, At(n));
      g', sizes := r.0, r.1;
      trace := trace + [r];
      n := n + 1;
    }
    PassSized(g, NoSizes(count), trace, Side * Side);
  }
}
