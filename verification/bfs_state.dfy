/** The ghost vocabulary in which the Python `bfs` is specified: which cells a call
    may claim, the chains that reach them, and what holds part-way through. */
module BfsState {
  import opened Grids
  import opened RoiBox
  import opened Labelling

  /** A cell that `bfs` may claim: in bounds, not yet visited and still 1 in the
      grids as they stood when `bfs` was called. */
  ghost predicate Fresh(labels: seq<seq<int>>, visited: seq<seq<bool>>, h: nat, w: nat, c: Cell)
    requires IsGrid(labels, h, w) && IsGrid(visited, h, w)
  {
    InBounds(h, w, c) && !visited[c.0][c.1] && labels[c.0][c.1] == 1
  }

  /** `p` walks from `seed` to `c` through 8-adjacent steps, every cell after the
      seed being `Fresh`. */
  ghost predicate ChainTo(labels: seq<seq<int>>, visited: seq<seq<bool>>, h: nat, w: nat,
                          seed: Cell, c: Cell, p: seq<Cell>)
    requires IsGrid(labels, h, w) && IsGrid(visited, h, w)
  {
    |p| >= 1 && p[0] == seed && p[|p| - 1] == c &&
    forall k :: 0 < k < |p| ==> Adjacent8(p[k - 1], p[k]) && Fresh(labels, visited, h, w, p[k])
  }

  /** Every in-bounds 8-neighbour of `c` is visited. */
  ghost predicate NeighboursVisited(visited: seq<seq<bool>>, h: nat, w: nat, c: Cell)
    requires IsGrid(visited, h, w)
  {
    forall d :: InBounds(h, w, d) && Adjacent8(c, d) ==> visited[d.0][d.1]
  }

  /** A cell other than the seed that this `bfs` call discovered: it was `Fresh`
      and is now visited. */
  ghost predicate Discovered(labels: seq<seq<int>>, visited: seq<seq<bool>>, visited': seq<seq<bool>>,
                             h: nat, w: nat, seed: Cell, c: Cell)
    requires IsGrid(labels, h, w) && IsGrid(visited, h, w) && IsGrid(visited', h, w)
  {
    c != seed && Fresh(labels, visited, h, w, c) && visited'[c.0][c.1]
  }

  /** The cells a `bfs` call discovered. */
  ghost function DiscoveredSet(labels: seq<seq<int>>, visited: seq<seq<bool>>, visited': seq<seq<bool>>,
                               h: nat, w: nat, seed: Cell): set<Cell>
    requires IsGrid(labels, h, w) && IsGrid(visited, h, w) && IsGrid(visited', h, w)
  {
    set c | c in AllCells(h, w) && Discovered(labels, visited, visited', h, w, seed, c)
  }

  /** `v'` has every visited mark of `v`. */
  ghost predicate Grows(v: seq<seq<bool>>, v': seq<seq<bool>>, h: nat, w: nat)
    requires IsGrid(v, h, w) && IsGrid(v', h, w)
  {
    forall c :: InBounds(h, w, c) && v[c.0][c.1] ==> v'[c.0][c.1]
  }

  /** What holds of the grids (L, V) part-way through `bfs` started on (labels, visited)
      at `seed`, `disc` being the cells discovered so far. */
  ghost predicate Progress(labels: seq<seq<int>>, visited: seq<seq<bool>>, h: nat, w: nat, seed: Cell, id: int,
                           L: seq<seq<int>>, V: seq<seq<bool>>, disc: set<Cell>)
  {
    IsGrid(labels, h, w) && IsGrid(visited, h, w) && IsGrid(L, h, w) && IsGrid(V, h, w) &&
    InBounds(h, w, seed) && L[seed.0][seed.1] == id && V[seed.0][seed.1] &&
    Grows(visited, V, h, w) &&
    (forall c :: c in disc ==> InBounds(h, w, c)) &&
    (forall c :: InBounds(h, w, c) ==> (c in disc <==> Discovered(labels, visited, V, h, w, seed, c))) &&
    (forall c :: InBounds(h, w, c) && c != seed ==> L[c.0][c.1] == (if c in disc then id else labels[c.0][c.1])) &&
    (forall c :: c in disc ==> exists p :: ChainTo(labels, visited, h, w, seed, c, p)) &&
    (forall c :: InBounds(h, w, c) && !visited[c.0][c.1] && V[c.0][c.1] && c != seed ==>
       exists d :: InBounds(h, w, d) && Adjacent8(c, d) && (d == seed || d in disc))
  }

  /** The running bounds. The first index of a discovered cell, below the row
      count `h`, moves `e` and `w`; the second, below the column count `w`,
      moves `n` and `s`. While nothing is discovered the bounds are the
      sentinel, which, as in the source, starts `w` at the column count and `n`
      at the row count. Afterwards `e` and `s` are the largest first and second
      index, and `w` and `n` the smallest, unless the sentinel is smaller still
      (possible only when the grid is not square). */
  ghost predicate Spans(b: Box, disc: set<Cell>, h: nat, w: nat)
  {
    (disc == {} ==> b == Box(h, 0, 0, w)) &&
    (forall c :: c in disc ==> 0 <= c.0 < h && 0 <= c.1 < w && b.w <= c.0 <= b.e && b.n <= c.1 <= b.s) &&
    (disc != {} ==>
       0 <= b.w <= w && b.e < h && 0 <= b.n <= h && b.s < w &&
       (b.w == w || exists c :: c in disc && c.0 == b.w) &&
       (exists c :: c in disc && c.0 == b.e) &&
       (b.n == h || exists c :: c in disc && c.1 == b.n) &&
       (exists c :: c in disc && c.1 == b.s))
  }

  /** Claiming an unvisited 1-cell that a chain reaches keeps `Progress`. */
  lemma ClaimKeepsProgress(labels: seq<seq<int>>, visited: seq<seq<bool>>, h: nat, w: nat, seed: Cell, id: int,
                           L: seq<seq<int>>, V: seq<seq<bool>>, disc: set<Cell>, f: Cell, c: Cell)
    requires Progress(labels, visited, h, w, seed, id, L, V, disc)
    requires InBounds(h, w, c) && !V[c.0][c.1] && L[c.0][c.1] == 1
    requires (f == seed || f in disc) && InBounds(h, w, f) && Adjacent8(c, f)
    requires exists p :: ChainTo(labels, visited, h, w, seed, c, p)
    ensures Progress(labels, visited, h, w, seed, id, Set(L, c, id), Set(V, c, true), disc + {c})
    ensures c !in disc && Grows(V, Set(V, c, true), h, w)
  {
    var L', V', disc' := Set(L, c, id), Set(V, c, true), disc + {c};
    assert c != seed && c !in disc;
    assert Fresh(labels, visited, h, w, c);
    assert Grows(visited, V', h, w);
    forall d | InBounds(h, w, d)
      ensures d in disc' <==> Discovered(labels, visited, V', h, w, seed, d)
    {
      if d != c {
        assert V'[d.0][d.1] == V[d.0][d.1];
      }
    }
    forall d | InBounds(h, w, d) && d != seed
      ensures L'[d.0][d.1] == (if d in disc' then id else labels[d.0][d.1])
    {
      if d != c {
        assert L'[d.0][d.1] == L[d.0][d.1];
      }
    }
    forall d | InBounds(h, w, d) && !visited[d.0][d.1] && V'[d.0][d.1] && d != seed
      ensures exists e :: InBounds(h, w, e) && Adjacent8(d, e) && (e == seed || e in disc')
    {
      if d == c {
        assert InBounds(h, w, f) && Adjacent8(d, f);
      } else {
        assert V[d.0][d.1];
      }
    }
  }

  /** Marking an unvisited cell that is not 1 as visited keeps `Progress`. */
  lemma MarkKeepsProgress(labels: seq<seq<int>>, visited: seq<seq<bool>>, h: nat, w: nat, seed: Cell, id: int,
                          L: seq<seq<int>>, V: seq<seq<bool>>, disc: set<Cell>, f: Cell, c: Cell)
    requires Progress(labels, visited, h, w, seed, id, L, V, disc)
    requires InBounds(h, w, c) && !V[c.0][c.1] && L[c.0][c.1] != 1
    requires (f == seed || f in disc) && InBounds(h, w, f) && Adjacent8(c, f)
    ensures Progress(labels, visited, h, w, seed, id, L, Set(V, c, true), disc)
    ensures Grows(V, Set(V, c, true), h, w)
  {
    var V' := Set(V, c, true);
    assert c != seed && c !in disc;
    assert !Fresh(labels, visited, h, w, c);
    assert Grows(visited, V', h, w);
    forall d | InBounds(h, w, d)
      ensures d in disc <==> Discovered(labels, visited, V', h, w, seed, d)
    {
      if d != c {
        assert V'[d.0][d.1] == V[d.0][d.1];
      }
    }
    forall d | InBounds(h, w, d) && !visited[d.0][d.1] && V'[d.0][d.1] && d != seed
      ensures exists e :: InBounds(h, w, e) && Adjacent8(d, e) && (e == seed || e in disc)
    {
      if d == c {
        assert InBounds(h, w, f) && Adjacent8(d, f);
      } else {
        assert V[d.0][d.1];
      }
    }
  }

  /** Taking a newly claimed cell into the bounds keeps `Spans`. */
  lemma WidenKeepsSpans(b: Box, disc: set<Cell>, h: nat, w: nat, c: Cell)
    requires Spans(b, disc, h, w) && c !in disc && InBounds(h, w, c)
    ensures Spans(Widen(c.0, c.1, b), disc + {c}, h, w)
  {
    var b' := Widen(c.0, c.1, b);
    var disc' := disc + {c};
    if disc == {} {
      assert b'.e == c.0 && b'.s == c.1;
    } else {
      if b'.w != w && b'.w != c.0 {
        var x :| x in disc && x.0 == b.w;
      }
    }
  }

  lemma GrowsTrans(V0: seq<seq<bool>>, V1: seq<seq<bool>>, V2: seq<seq<bool>>, h: nat, w: nat)
    requires IsGrid(V0, h, w) && IsGrid(V1, h, w) && IsGrid(V2, h, w)
    requires Grows(V0, V1, h, w) && Grows(V1, V2, h, w)
    ensures Grows(V0, V2, h, w)
  {
  }

  lemma GrowsRefl(V: seq<seq<bool>>, h: nat, w: nat)
    requires IsGrid(V, h, w)
    ensures Grows(V, V, h, w)
  {
  }

  /** The first `m` cells of `cs` are in bounds and visited in `v`. */
  ghost predicate AllVisited(v: seq<seq<bool>>, h: nat, w: nat, cs: seq<Cell>, m: int)
    requires IsGrid(v, h, w)
  {
    forall k :: 0 <= k < m && k < |cs| ==> InBounds(h, w, cs[k]) && v[cs[k].0][cs[k].1]
  }

  lemma VisitedExtend(v: seq<seq<bool>>, v': seq<seq<bool>>, h: nat, w: nat, cs: seq<Cell>, m: nat)
    requires IsGrid(v, h, w) && IsGrid(v', h, w) && m < |cs|
    requires AllVisited(v, h, w, cs, m) && Grows(v, v', h, w) && InBounds(h, w, cs[m]) && v'[cs[m].0][cs[m].1]
    ensures AllVisited(v', h, w, cs, m + 1)
  {
  }

  /** Visiting every cell `validIndices` lists for `f` visits all of `f`'s neighbours. */
  lemma NeighboursFromList(v: seq<seq<bool>>, h: nat, w: nat, f: Cell)
    requires IsGrid(v, h, w) && AllVisited(v, h, w, ValidIndices(f.0, f.1, h, w), |ValidIndices(f.0, f.1, h, w)|)
    ensures NeighboursVisited(v, h, w, f)
  {
    var nb := ValidIndices(f.0, f.1, h, w);
    forall d | InBounds(h, w, d) && Adjacent8(f, d)
      ensures v[d.0][d.1]
    {
      assert d in nb;
      var k :| 0 <= k < |nb| && nb[k] == d;
    }
  }

  /** Queueing a newly claimed cell keeps the queue equal to the cells claimed since `disc`. */
  lemma QueueClaimed(q: seq<Cell>, c: Cell, next: seq<Cell>, disc: set<Cell>, d0: set<Cell>)
    requires forall x :: x in q <==> x in next || x in d0 - disc
    requires disc <= d0 && c !in d0
    ensures forall x :: x in q + [c] <==> x in next || x in (d0 + {c}) - disc
  {
  }

  /** Part-way through a round: every claimed cell (and the seed) is still queued in
      `frontier` at or after position `k`, or queued in `next`, or has all its
      neighbours visited. */
  ghost predicate Closed(V: seq<seq<bool>>, h: nat, w: nat, seed: Cell, disc: set<Cell>,
                         frontier: seq<Cell>, k: int, next: seq<Cell>)
    requires IsGrid(V, h, w)
  {
    forall c :: (c == seed || c in disc) ==>
      (exists q :: 0 <= q < |frontier| && k <= q && frontier[q] == c) || c in next || NeighboursVisited(V, h, w, c)
  }

  lemma NeighboursVisitedGrows(V: seq<seq<bool>>, V': seq<seq<bool>>, h: nat, w: nat, c: Cell)
    requires IsGrid(V, h, w) && IsGrid(V', h, w) && Grows(V, V', h, w) && NeighboursVisited(V, h, w, c)
    ensures NeighboursVisited(V', h, w, c)
  {
  }

  /** Expanding `frontier[k]` moves the round one position on. */
  lemma ClosedStep(V0: seq<seq<bool>>, V1: seq<seq<bool>>, h: nat, w: nat, seed: Cell,
                   d0: set<Cell>, d1: set<Cell>, frontier: seq<Cell>, k: nat, n0: seq<Cell>, n1: seq<Cell>)
    requires IsGrid(V0, h, w) && IsGrid(V1, h, w) && k < |frontier|
    requires Closed(V0, h, w, seed, d0, frontier, k, n0)
    requires Grows(V0, V1, h, w) && d0 <= d1 && NeighboursVisited(V1, h, w, frontier[k])
    requires forall c :: c in n1 <==> c in n0 || c in d1 - d0
    ensures Closed(V1, h, w, seed, d1, frontier, k + 1, n1)
  {
    forall c | c == seed || c in d1
      ensures (exists q :: 0 <= q < |frontier| && k + 1 <= q && frontier[q] == c) || c in n1 || NeighboursVisited(V1, h, w, c)
    {
      if c !in d1 - d0 {
        if NeighboursVisited(V0, h, w, c) {
          NeighboursVisitedGrows(V0, V1, h, w, c);
        } else if c !in n0 {
          var q :| 0 <= q < |frontier| && k <= q && frontier[q] == c;
          if q == k {
            assert NeighboursVisited(V1, h, w, c);
          }
        }
      }
    }
  }

  /** At the end of a round, the queue just built becomes the frontier of the next. */
  lemma ClosedRestart(V: seq<seq<bool>>, h: nat, w: nat, seed: Cell, disc: set<Cell>, frontier: seq<Cell>, next: seq<Cell>)
    requires IsGrid(V, h, w) && Closed(V, h, w, seed, disc, frontier, |frontier|, next)
    ensures Closed(V, h, w, seed, disc, next, 0, [])
    ensures forall c :: (c == seed || c in disc) ==> c in next || NeighboursVisited(V, h, w, c)
  {
    forall c | c == seed || c in disc
      ensures (exists q :: 0 <= q < |next| && 0 <= q && next[q] == c) || c in [] || NeighboursVisited(V, h, w, c)
    {
      if c in next {
        var q :| 0 <= q < |next| && next[q] == c;
      }
    }
  }

  /** The state right after the seed is labelled and visited. */
  lemma StartProgress(labels: seq<seq<int>>, visited: seq<seq<bool>>, h: nat, w: nat, seed: Cell, id: int)
    requires IsGrid(labels, h, w) && IsGrid(visited, h, w) && InBounds(h, w, seed)
    ensures Progress(labels, visited, h, w, seed, id, Set(labels, seed, id), Set(visited, seed, true), {})
    ensures Spans(Box(h, 0, 0, w), {}, h, w)
    ensures Closed(Set(visited, seed, true), h, w, seed, {}, [seed], 0, [])
  {
    var V := Set(visited, seed, true);
    assert [seed][0] == seed;
  }

  /** A round that queued something discovered something new; one that queued
      nothing discovered nothing. */
  lemma RoundMeasure(all: set<Cell>, disc0: set<Cell>, disc: set<Cell>, next: seq<Cell>, h: nat, w: nat)
    requires all == AllCells(h, w) && disc0 <= disc && (forall c :: c in disc ==> InBounds(h, w, c))
    requires forall c :: c in next <==> c in disc - disc0
    ensures next != [] ==> |all - disc| < |all - disc0| && disc != {}
    ensures next == [] ==> disc == disc0
    ensures forall k :: 0 <= k < |next| ==> next[k] in disc
  {
    forall k | 0 <= k < |next|
      ensures next[k] in disc
    {
      assert next[k] in next;
    }
    if next != [] {
      var x := next[0];
      assert x in next;
      assert x in all;
      assert all - disc <= (all - disc0) - {x};
      SubsetCard(all - disc, (all - disc0) - {x});
    } else {
      forall x | x in disc
        ensures x in disc0
      {
        assert x !in next;
      }
    }
  }

  /** What a finished search guarantees about the grids. */
  lemma Outcome(labels: seq<seq<int>>, visited: seq<seq<bool>>, L: seq<seq<int>>, V: seq<seq<bool>>,
                h: nat, w: nat, i: int, j: int, id: int, disc: set<Cell>)
    requires Progress(labels, visited, h, w, (i, j), id, L, V, disc)
    requires forall c :: (c == (i, j) || c in disc) ==> NeighboursVisited(V, h, w, c)
    ensures IsGrid(L, h, w) && IsGrid(V, h, w)
    ensures L[i][j] == id && V[i][j]
    ensures Grows(visited, V, h, w)
    ensures forall c :: InBounds(h, w, c) && c != (i, j) ==>
              L[c.0][c.1] == (if Discovered(labels, visited, V, h, w, (i, j), c) then id else labels[c.0][c.1])
    ensures forall c, p :: ChainTo(labels, visited, h, w, (i, j), c, p) ==> V[c.0][c.1] && L[c.0][c.1] == id
    ensures forall c :: InBounds(h, w, c) && Discovered(labels, visited, V, h, w, (i, j), c) ==>
              exists p :: ChainTo(labels, visited, h, w, (i, j), c, p)
    ensures forall c :: InBounds(h, w, c) && !visited[c.0][c.1] && V[c.0][c.1] && c != (i, j) ==>
              exists d :: InBounds(h, w, d) && Adjacent8(c, d) &&
                (d == (i, j) || Discovered(labels, visited, V, h, w, (i, j), d))
  {
    ChainsReachDiscovered(labels, visited, L, V, h, w, (i, j), id, disc);
  }

  /** At the end, the claimed cells are exactly the discovered ones. */
  lemma DiscIsDiscoveredSet(labels: seq<seq<int>>, visited: seq<seq<bool>>, L: seq<seq<int>>, V: seq<seq<bool>>,
                            h: nat, w: nat, seed: Cell, id: int, disc: set<Cell>)
    requires Progress(labels, visited, h, w, seed, id, L, V, disc)
    ensures disc == DiscoveredSet(labels, visited, V, h, w, seed)
  {
    forall c | c in DiscoveredSet(labels, visited, V, h, w, seed)
      ensures c in disc
    {
    }
    forall c | c in disc
      ensures c in DiscoveredSet(labels, visited, V, h, w, seed)
    {
      assert c in AllCells(h, w);
    }
  }

  /** Composing two stretches of queueing. */
  lemma QueueGrows(n0: seq<Cell>, n1: seq<Cell>, disc: set<Cell>, d0: set<Cell>, d1: set<Cell>)
    requires disc <= d0 <= d1
    requires forall c :: c in n0 <==> c in d0 - disc
    requires forall c :: c in n1 <==> c in n0 || c in d1 - d0
    ensures disc <= d1
    ensures forall c :: c in n1 <==> c in d1 - disc
  {
  }

  /** Extending a chain to `f` by an 8-neighbour `c` that is `Fresh` gives a chain to `c`. */
  lemma ExtendChain(labels: seq<seq<int>>, visited: seq<seq<bool>>, h: nat, w: nat,
                    seed: Cell, f: Cell, c: Cell, disc: set<Cell>)
    requires IsGrid(labels, h, w) && IsGrid(visited, h, w)
    requires f == seed || f in disc
    requires forall d :: d in disc ==> exists p :: ChainTo(labels, visited, h, w, seed, d, p)
    requires Adjacent8(f, c) && Fresh(labels, visited, h, w, c)
    ensures exists p :: ChainTo(labels, visited, h, w, seed, c, p)
  {
    var pf: seq<Cell>;
    if f == seed {
      pf := [seed];
    } else {
      pf :| ChainTo(labels, visited, h, w, seed, f, pf);
    }
    var p := pf + [c];
    assert ChainTo(labels, visited, h, w, seed, c, p);
  }

  /** Completeness: once every claimed cell has all its neighbours visited, a chain from
      the seed only passes through claimed cells, so its end carries `id`. */
  lemma ChainsReachDiscovered(labels: seq<seq<int>>, visited: seq<seq<bool>>,
                              labels': seq<seq<int>>, visited': seq<seq<bool>>,
                              h: nat, w: nat, seed: Cell, id: int, disc: set<Cell>)
    requires Progress(labels, visited, h, w, seed, id, labels', visited', disc)
    requires forall c :: (c == seed || c in disc) ==> NeighboursVisited(visited', h, w, c)
    ensures forall c, p :: ChainTo(labels, visited, h, w, seed, c, p) ==> visited'[c.0][c.1] && labels'[c.0][c.1] == id
  {
    forall c, p | ChainTo(labels, visited, h, w, seed, c, p)
      ensures visited'[c.0][c.1] && labels'[c.0][c.1] == id
    {
      ChainPrefixClaimed(labels, visited, labels', visited', h, w, seed, id, disc, p, |p|);
    }
  }

  lemma {:induction false} ChainPrefixClaimed(labels: seq<seq<int>>, visited: seq<seq<bool>>,
                                              labels': seq<seq<int>>, visited': seq<seq<bool>>,
                                              h: nat, w: nat, seed: Cell, id: int, disc: set<Cell>, p: seq<Cell>, n: nat)
    requires Progress(labels, visited, h, w, seed, id, labels', visited', disc)
    requires forall c :: (c == seed || c in disc) ==> NeighboursVisited(visited', h, w, c)
    requires 1 <= n <= |p| && p[0] == seed
    requires forall k :: 0 < k < |p| ==> Adjacent8(p[k - 1], p[k]) && Fresh(labels, visited, h, w, p[k])
    ensures p[n - 1] == seed || p[n - 1] in disc
  {
    if n > 1 {
      ChainPrefixClaimed(labels, visited, labels', visited', h, w, seed, id, disc, p, n - 1);
      var c := p[n - 1];
      assert Adjacent8(p[n - 2], c) && InBounds(h, w, c);
      assert visited'[c.0][c.1];
    }
  }}
