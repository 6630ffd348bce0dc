/** The Python driver's `roiID`: every pixel is visited in row-major order, each
    unvisited non-zero pixel seeds a `bfs` with the next component id, and the
    boxes of area at least 500 are returned sorted by area. */
module RoiSweep {
  import opened Grids
  import opened RoiBox
  import opened BfsState
  import opened BfsSearch
  import opened AreaSort

  /** The first component id `roiID` hands out. */
  const FirstId := 2
  /** Boxes with a smaller area are dropped. */
  const MinArea := 500

  /** The boxes `roiID` keeps, in the order their `bfs` calls returned them. */
  function Keep(s: seq<Box>): (r: seq<Box>)
    ensures forall k :: 0 <= k < |r| ==> Area(r[k]) >= MinArea
    ensures forall b :: b in r <==> b in s && Area(b) >= MinArea
    ensures |r| <= |s|
  {
    if s == [] then []
    else
      assert forall b :: b in s <==> b in s[..|s| - 1] || b == s[|s| - 1] by {
        assert s == s[..|s| - 1] + [s[|s| - 1]];
      }
      Keep(s[..|s| - 1]) + (if Area(s[|s| - 1]) >= MinArea then [s[|s| - 1]] else [])
  }

  lemma KeepAppend(s: seq<Box>, b: Box)
    ensures Keep(s + [b]) == Keep(s) + (if Area(b) >= MinArea then [b] else [])
  {
    assert (s + [b])[..|s|] == s;
  }

  /** (x, y) comes before (i, j) in the row-major sweep. */
  predicate Before(c: Cell, i: int, j: int)
  {
    c.0 < i || (c.0 == i && c.1 < j)
  }

  /** `p` walks from `s` to `c` through 8-adjacent cells, every cell after `s`
      being 1 in the swept array. */
  ghost predicate OrigPath(orig: seq<seq<int>>, h: nat, w: nat, s: Cell, c: Cell, p: seq<Cell>)
    requires IsGrid(orig, h, w)
  {
    |p| >= 1 && p[0] == s && p[|p| - 1] == c &&
    forall k :: 0 < k < |p| ==> Adjacent8(p[k - 1], p[k]) && InBounds(h, w, p[k]) && orig[p[k].0][p[k].1] == 1
  }

  /** Some path of 1-pixels leads from `s` to `c`. */
  ghost predicate ReachedFrom(orig: seq<seq<int>>, h: nat, w: nat, s: Cell, c: Cell)
    requires IsGrid(orig, h, w)
  {
    exists p :: OrigPath(orig, h, w, s, c, p)
  }

  /** Two 8-adjacent cells that were 1 are either both still 1 or carry the same
      label. */
  ghost predicate Joined(orig: seq<seq<int>>, L: seq<seq<int>>, h: nat, w: nat)
    requires IsGrid(orig, h, w) && IsGrid(L, h, w)
  {
    forall c, d ::
      (InBounds(h, w, c) && InBounds(h, w, d) && Adjacent8(c, d) && orig[c.0][c.1] == 1 && orig[d.0][d.1] == 1) ==>
      (L[c.0][c.1] == 1 <==> L[d.0][d.1] == 1) && L[c.0][c.1] == L[d.0][d.1]
  }

  /** Every relabelled cell holds an id already handed out, and is reached from the
      seed of that id. */
  ghost predicate Rooted(orig: seq<seq<int>>, L: seq<seq<int>>, h: nat, w: nat, seeds: seq<Cell>)
    requires IsGrid(orig, h, w) && IsGrid(L, h, w)
  {
    forall c :: InBounds(h, w, c) && L[c.0][c.1] != orig[c.0][c.1] ==>
      orig[c.0][c.1] != 0 && FirstId <= L[c.0][c.1] < FirstId + |seeds| &&
      ReachedFrom(orig, h, w, seeds[L[c.0][c.1] - FirstId], c)
  }

  /** What holds between `bfs` calls: unvisited pixels are untouched, no visited
      pixel is still 1, and the labels so far are joined and rooted. */
  ghost predicate Labelled(orig: seq<seq<int>>, L: seq<seq<int>>, V: seq<seq<bool>>, h: nat, w: nat, seeds: seq<Cell>)
  {
    IsGrid(orig, h, w) && IsGrid(L, h, w) && IsGrid(V, h, w) &&
    (forall c :: InBounds(h, w, c) && !V[c.0][c.1] ==> L[c.0][c.1] == orig[c.0][c.1]) &&
    (forall c :: InBounds(h, w, c) && V[c.0][c.1] ==> L[c.0][c.1] != 1) &&
    Joined(orig, L, h, w) && Rooted(orig, L, h, w, seeds)
  }

  /** Every pixel before (i, j) is visited or 0. */
  ghost predicate Swept(L: seq<seq<int>>, V: seq<seq<bool>>, h: nat, w: nat, i: int, j: int)
    requires IsGrid(L, h, w) && IsGrid(V, h, w)
  {
    forall c :: InBounds(h, w, c) && Before(c, i, j) ==> V[c.0][c.1] || L[c.0][c.1] == 0
  }

  /** The promises of `Bfs` that the sweep relies on. */
  ghost predicate BfsOutcome(labels: seq<seq<int>>, visited: seq<seq<bool>>, L: seq<seq<int>>, V: seq<seq<bool>>,
                             h: nat, w: nat, seed: Cell, id: int)
  {
    IsGrid(labels, h, w) && IsGrid(visited, h, w) && IsGrid(L, h, w) && IsGrid(V, h, w) &&
    InBounds(h, w, seed) && L[seed.0][seed.1] == id && V[seed.0][seed.1] &&
    Grows(visited, V, h, w) &&
    (forall c :: InBounds(h, w, c) && c != seed ==>
       L[c.0][c.1] == (if Discovered(labels, visited, V, h, w, seed, c) then id else labels[c.0][c.1])) &&
    (forall c, p :: ChainTo(labels, visited, h, w, seed, c, p) ==> V[c.0][c.1] && L[c.0][c.1] == id) &&
    (forall c :: InBounds(h, w, c) && Discovered(labels, visited, V, h, w, seed, c) ==>
       exists p :: ChainTo(labels, visited, h, w, seed, c, p))
  }

  /** A `bfs` call from an unvisited non-zero seed with the next id keeps unvisited
      pixels untouched and leaves no visited pixel at 1. */
  lemma StepKeepsFrame(orig: seq<seq<int>>, L: seq<seq<int>>, V: seq<seq<bool>>, L': seq<seq<int>>, V': seq<seq<bool>>,
                       h: nat, w: nat, seeds: seq<Cell>, seed: Cell)
    requires Labelled(orig, L, V, h, w, seeds)
    requires BfsOutcome(L, V, L', V', h, w, seed, FirstId + |seeds|)
    ensures forall c :: InBounds(h, w, c) && !V'[c.0][c.1] ==> L'[c.0][c.1] == orig[c.0][c.1]
    ensures forall c :: InBounds(h, w, c) && V'[c.0][c.1] ==> L'[c.0][c.1] != 1
  {
  }

  /** The same call keeps adjacent 1-pixels joined: a chain to one of them extends
      to the other, so `bfs` labels both or neither. */
  lemma StepKeepsJoined(orig: seq<seq<int>>, L: seq<seq<int>>, V: seq<seq<bool>>, L': seq<seq<int>>, V': seq<seq<bool>>,
                        h: nat, w: nat, seeds: seq<Cell>, seed: Cell)
    requires BfsOutcome(L, V, L', V', h, w, seed, FirstId + |seeds|)
    requires Labelled(orig, L, V, h, w, seeds) && !V[seed.0][seed.1]
    ensures Joined(orig, L', h, w)
  {
    var id := FirstId + |seeds|;
    forall c, d | InBounds(h, w, c) && InBounds(h, w, d) && Adjacent8(c, d) &&
                  orig[c.0][c.1] == 1 && orig[d.0][d.1] == 1
      ensures (L'[c.0][c.1] == 1 <==> L'[d.0][d.1] == 1) && L'[c.0][c.1] == L'[d.0][d.1]
    {
      if L[c.0][c.1] == 1 {
        if L'[c.0][c.1] != 1 {
          JoinedNeighbour(L, V, L', V', h, w, seed, id, c, d);
        } else if L'[d.0][d.1] != 1 {
          JoinedNeighbour(L, V, L', V', h, w, seed, id, d, c);
        }
      }
    }
  }

  /** If `bfs` labelled `c`, which was 1, it labelled the unvisited 1-pixel `d`
      next to it too. */
  lemma JoinedNeighbour(L: seq<seq<int>>, V: seq<seq<bool>>, L': seq<seq<int>>, V': seq<seq<bool>>,
                        h: nat, w: nat, seed: Cell, id: int, c: Cell, d: Cell)
    requires BfsOutcome(L, V, L', V', h, w, seed, id) && id != 1
    requires InBounds(h, w, c) && InBounds(h, w, d) && Adjacent8(c, d)
    requires L[c.0][c.1] == 1 && L'[c.0][c.1] != 1
    requires !V[d.0][d.1] && L[d.0][d.1] == 1
    ensures L'[c.0][c.1] == id && L'[d.0][d.1] == id
  {
    var p: seq<Cell>;
    if c == seed {
      p := [seed];
    } else {
      assert Discovered(L, V, V', h, w, seed, c);
      p :| ChainTo(L, V, h, w, seed, c, p);
    }
    var q := p + [d];
    assert ChainTo(L, V, h, w, seed, d, q);
  }

  /** The same call keeps every relabelled pixel rooted, the new ones at `seed`. */
  lemma StepKeepsRooted(orig: seq<seq<int>>, L: seq<seq<int>>, V: seq<seq<bool>>, L': seq<seq<int>>, V': seq<seq<bool>>,
                        h: nat, w: nat, seeds: seq<Cell>, seed: Cell)
    requires BfsOutcome(L, V, L', V', h, w, seed, FirstId + |seeds|)
    requires Labelled(orig, L, V, h, w, seeds) && !V[seed.0][seed.1] && L[seed.0][seed.1] != 0
    ensures Rooted(orig, L', h, w, seeds + [seed])
  {
    var id := FirstId + |seeds|;
    var seeds' := seeds + [seed];
    forall c | InBounds(h, w, c) && L'[c.0][c.1] != orig[c.0][c.1]
      ensures orig[c.0][c.1] != 0 && FirstId <= L'[c.0][c.1] < FirstId + |seeds'| &&
              ReachedFrom(orig, h, w, seeds'[L'[c.0][c.1] - FirstId], c)
    {
      if c == seed {
        assert OrigPath(orig, h, w, seeds'[id - FirstId], c, [seed]);
      } else if Discovered(L, V, V', h, w, seed, c) {
        var p :| ChainTo(L, V, h, w, seed, c, p);
        assert OrigPath(orig, h, w, seeds'[id - FirstId], c, p);
      } else {
        assert seeds'[L[c.0][c.1] - FirstId] == seeds[L[c.0][c.1] - FirstId];
      }
    }
  }

  /** The same call keeps the swept part visited or 0, and adds its seed to it. */
  lemma StepKeepsSwept(L: seq<seq<int>>, V: seq<seq<bool>>, L': seq<seq<int>>, V': seq<seq<bool>>,
                       h: nat, w: nat, i: int, j: int, id: int)
    requires BfsOutcome(L, V, L', V', h, w, (i, j), id)
    requires Swept(L, V, h, w, i, j)
    ensures Swept(L', V', h, w, i, j + 1)
  {
  }

  /** Finishing a row moves the sweep to the start of the next. */
  lemma NextRow(L: seq<seq<int>>, V: seq<seq<bool>>, h: nat, w: nat, i: int)
    requires IsGrid(L, h, w) && IsGrid(V, h, w)
    requires Swept(L, V, h, w, i, w)
    ensures Swept(L, V, h, w, i + 1, 0)
  {
  }

  /** The cells other than `s` that a path of 1-pixels reaches from `s`: the
      8-connected region of `s` that `bfs` is meant to find. */
  ghost function Region(orig: seq<seq<int>>, h: nat, w: nat, s: Cell): set<Cell>
    requires IsGrid(orig, h, w)
  {
    set c | c in AllCells(h, w) && c != s && ReachedFrom(orig, h, w, s, c)
  }

  /** `b` is the box `bfs` returns for the discovered cells `cells`:
      Box(0, 0, 0, 0) when there are none, their bounds otherwise. */
  ghost predicate BoxOf(b: Box, cells: set<Cell>, h: nat, w: nat)
  {
    (cells == {} ==> b == Box(0, 0, 0, 0)) && (cells != {} ==> Spans(b, cells, h, w))
  }

  /** No cell of the region of `s` comes before `s` in the sweep. */
  ghost predicate FirstOfRegion(orig: seq<seq<int>>, h: nat, w: nat, s: Cell)
    requires IsGrid(orig, h, w)
  {
    forall c :: c in Region(orig, h, w, s) ==> !Before(c, s.0, s.1)
  }

  /** What the sweep knows of each `bfs` call so far: its seed was a non-zero
      pixel, and a seed that was 1 is the first cell of its region, whose box is
      the call's. The seeds come in sweep order, before (i, j). */
  ghost predicate Boxed(orig: seq<seq<int>>, h: nat, w: nat, seeds: seq<Cell>, found: seq<Box>, i: int, j: int)
    requires IsGrid(orig, h, w)
  {
    |found| == |seeds| &&
    (forall k :: 0 <= k < |seeds| ==>
       InBounds(h, w, seeds[k]) && orig[seeds[k].0][seeds[k].1] != 0 && Before(seeds[k], i, j) &&
       (orig[seeds[k].0][seeds[k].1] == 1 ==>
          BoxOf(found[k], Region(orig, h, w, seeds[k]), h, w) && FirstOfRegion(orig, h, w, seeds[k]))) &&
    (forall a, b :: 0 <= a < b < |seeds| ==> Before(seeds[a], seeds[b].0, seeds[b].1))
  }

  /** Along a path of 1-pixels from an unvisited 1-pixel every pixel is still 1:
      adjacent 1-pixels are joined, so they were labelled together or not at all. */
  lemma {:induction false} PathStaysOne(orig: seq<seq<int>>, L: seq<seq<int>>, V: seq<seq<bool>>, h: nat, w: nat,
                                        seeds: seq<Cell>, s: Cell, c: Cell, p: seq<Cell>)
    requires Labelled(orig, L, V, h, w, seeds)
    requires InBounds(h, w, s) && orig[s.0][s.1] == 1 && L[s.0][s.1] == 1
    requires OrigPath(orig, h, w, s, c, p)
    ensures L[c.0][c.1] == 1
    decreases |p|
  {
    if |p| > 1 {
      var d := p[|p| - 2];
      assert OrigPath(orig, h, w, s, d, p[..|p| - 1]);
      PathStaysOne(orig, L, V, h, w, seeds, s, d, p[..|p| - 1]);
      assert InBounds(h, w, d) && orig[d.0][d.1] == 1 by {
        if |p| > 2 {
          assert 0 < |p| - 2 < |p|;
        }
      }
      assert Adjacent8(d, c) && InBounds(h, w, c) && orig[c.0][c.1] == 1 by {
        assert 0 < |p| - 1 < |p|;
      }
    }
  }

  /** From an unvisited 1-pixel, the cells a `bfs` call discovers are exactly its
      region. */
  lemma DiscoveredIsRegion(orig: seq<seq<int>>, L: seq<seq<int>>, V: seq<seq<bool>>, L': seq<seq<int>>,
                           V': seq<seq<bool>>, h: nat, w: nat, seeds: seq<Cell>, seed: Cell, id: int)
    requires Labelled(orig, L, V, h, w, seeds)
    requires BfsOutcome(L, V, L', V', h, w, seed, id)
    requires !V[seed.0][seed.1] && orig[seed.0][seed.1] == 1
    ensures DiscoveredSet(L, V, V', h, w, seed) == Region(orig, h, w, seed)
  {
    var D, R := DiscoveredSet(L, V, V', h, w, seed), Region(orig, h, w, seed);
    forall c | c in R ensures c in D {
      var p :| OrigPath(orig, h, w, seed, c, p);
      ReachedIsChain(orig, L, V, h, w, seeds, seed, c, p);
    }
    forall c | c in D ensures c in R {
      var p :| ChainTo(L, V, h, w, seed, c, p);
      assert OrigPath(orig, h, w, seed, c, p);
    }
  }

  /** A path of 1-pixels from an unvisited 1-pixel is a chain `bfs` follows. */
  lemma ReachedIsChain(orig: seq<seq<int>>, L: seq<seq<int>>, V: seq<seq<bool>>, h: nat, w: nat,
                       seeds: seq<Cell>, seed: Cell, c: Cell, p: seq<Cell>)
    requires Labelled(orig, L, V, h, w, seeds)
    requires InBounds(h, w, seed) && !V[seed.0][seed.1] && orig[seed.0][seed.1] == 1
    requires OrigPath(orig, h, w, seed, c, p)
    ensures ChainTo(L, V, h, w, seed, c, p)
  {
    forall k | 0 < k < |p| ensures Fresh(L, V, h, w, p[k]) {
      assert OrigPath(orig, h, w, seed, p[k], p[..k + 1]);
      PathStaysOne(orig, L, V, h, w, seeds, seed, p[k], p[..k + 1]);
    }
  }

  /** The pixel the sweep reaches first in a region is its first cell: an earlier
      cell of the region would be visited, hence labelled, and so would the seed. */
  lemma SeedIsFirst(orig: seq<seq<int>>, L: seq<seq<int>>, V: seq<seq<bool>>, h: nat, w: nat,
                    seeds: seq<Cell>, i: int, j: int)
    requires Labelled(orig, L, V, h, w, seeds) && Swept(L, V, h, w, i, j)
    requires InBounds(h, w, (i, j)) && !V[i][j] && orig[i][j] == 1
    ensures FirstOfRegion(orig, h, w, (i, j))
  {
    forall c | c in Region(orig, h, w, (i, j)) ensures !Before(c, i, j) {
      var p :| OrigPath(orig, h, w, (i, j), c, p);
      PathStaysOne(orig, L, V, h, w, seeds, (i, j), c, p);
    }
  }

  /** A `bfs` call at (i, j) adds its seed and its box to what the sweep knows. */
  lemma BoxedStep(orig: seq<seq<int>>, h: nat, w: nat, seeds: seq<Cell>, found: seq<Box>, i: int, j: int, box: Box)
    requires IsGrid(orig, h, w) && Boxed(orig, h, w, seeds, found, i, j)
    requires InBounds(h, w, (i, j)) && orig[i][j] != 0
    requires orig[i][j] == 1 ==> BoxOf(box, Region(orig, h, w, (i, j)), h, w) && FirstOfRegion(orig, h, w, (i, j))
    ensures Boxed(orig, h, w, seeds + [(i, j)], found + [box], i, j + 1)
  {
    var seeds', found' := seeds + [(i, j)], found + [box];
    forall k | 0 <= k < |seeds'|
      ensures InBounds(h, w, seeds'[k]) && orig[seeds'[k].0][seeds'[k].1] != 0 && Before(seeds'[k], i, j + 1) &&
              (orig[seeds'[k].0][seeds'[k].1] == 1 ==>
                 BoxOf(found'[k], Region(orig, h, w, seeds'[k]), h, w) && FirstOfRegion(orig, h, w, seeds'[k]))
    {
      if k < |seeds| {
        assert seeds'[k] == seeds[k] && found'[k] == found[k];
      }
    }
    forall a, b | 0 <= a < b < |seeds'| ensures Before(seeds'[a], seeds'[b].0, seeds'[b].1) {
      if b < |seeds| {
        assert seeds'[a] == seeds[a] && seeds'[b] == seeds[b];
      } else {
        assert seeds'[a] == seeds[a];
      }
    }
  }

  /** What the sweep knows still holds at any later pixel. */
  lemma BoxedMoves(orig: seq<seq<int>>, h: nat, w: nat, seeds: seq<Cell>, found: seq<Box>, i: int, j: int, i': int, j': int)
    requires IsGrid(orig, h, w) && Boxed(orig, h, w, seeds, found, i, j)
    requires i < i' || (i == i' && j <= j')
    ensures Boxed(orig, h, w, seeds, found, i', j')
  {
  }

  /** One pixel of the sweep. A visited pixel is passed over; an unvisited 0 is
      passed over too, and stays unvisited, since `visited[i,j] == 1` only compares;
      any other pixel seeds `bfs` with the next id, whose box is returned. */
  method Step(ghost orig: seq<seq<int>>, L: seq<seq<int>>, V: seq<seq<bool>>, h: nat, w: nat,
              ghost seeds: seq<Cell>, i: nat, j: nat, id: int)
    returns (L': seq<seq<int>>, V': seq<seq<bool>>, called: bool, box: Box)
    requires Labelled(orig, L, V, h, w, seeds) && id == FirstId + |seeds|
    requires InBounds(h, w, (i, j)) && Swept(L, V, h, w, i, j)
    ensures called <==> !V[i][j] && L[i][j] != 0
    ensures called ==> orig[i][j] != 0
    ensures !called ==> L' == L && V' == V && box == Box(0, 0, 0, 0)
    ensures Labelled(orig, L', V', h, w, if called then seeds + [(i, j)] else seeds)
    ensures called ==> BoxOf(box, DiscoveredSet(L, V, V', h, w, (i, j)), h, w)
    ensures called && orig[i][j] == 1 ==>
              BoxOf(box, Region(orig, h, w, (i, j)), h, w) && FirstOfRegion(orig, h, w, (i, j))
    ensures Swept(L', V', h, w, i, j + 1)
  {
    if V[i][j] || L[i][j] == 0 {
      L', V', called, box := L, V, false, Box(0, 0, 0, 0);
    } else {
      L', V', box := Bfs(i, j, L, V, h, w, id);
      called := true;
      assert BfsOutcome(L, V, L', V', h, w, (i, j), id);
      if orig[i][j] == 1 {
        DiscoveredIsRegion(orig, L, V, L', V', h, w, seeds, (i, j), id);
        SeedIsFirst(orig, L, V, h, w, seeds, i, j);
      }
      StepKeepsFrame(orig, L, V, L', V', h, w, seeds, (i, j));
      StepKeepsJoined(orig, L, V, L', V', h, w, seeds, (i, j));
      StepKeepsRooted(orig, L, V, L', V', h, w, seeds, (i, j));
      StepKeepsSwept(L, V, L', V', h, w, i, j, id);
    }
  }

  /** At the end of the sweep every pixel that was 1 carries an id handed out. */
  lemma SweptAll(orig: seq<seq<int>>, L: seq<seq<int>>, V: seq<seq<bool>>, h: nat, w: nat, seeds: seq<Cell>)
    requires Labelled(orig, L, V, h, w, seeds) && Swept(L, V, h, w, h, 0)
    ensures forall c :: InBounds(h, w, c) && orig[c.0][c.1] == 1 ==>
              FirstId <= L[c.0][c.1] < FirstId + |seeds|
  {
    forall c | InBounds(h, w, c) && orig[c.0][c.1] == 1
      ensures FirstId <= L[c.0][c.1] < FirstId + |seeds|
    {
      assert Before(c, h, 0);
    }
  }

  /** Row `i` of the sweep, pixel by pixel. */
  method SweepRow(ghost orig: seq<seq<int>>, L: seq<seq<int>>, V: seq<seq<bool>>, h: nat, w: nat,
                  ghost seeds: seq<Cell>, ghost found: seq<Box>, kept: seq<Box>, id: int, i: nat)
    returns (L': seq<seq<int>>, V': seq<seq<bool>>, ghost seeds': seq<Cell>, ghost found': seq<Box>, kept': seq<Box>, id': int)
    requires i < h && Labelled(orig, L, V, h, w, seeds) && Swept(L, V, h, w, i, 0)
    requires Boxed(orig, h, w, seeds, found, i, 0) && kept == Keep(found) && id == FirstId + |seeds|
    ensures Labelled(orig, L', V', h, w, seeds') && Swept(L', V', h, w, i + 1, 0)
    ensures Boxed(orig, h, w, seeds', found', i + 1, 0) && kept' == Keep(found') && id' == FirstId + |seeds'|
  {
    L', V', seeds', found', kept', id' := L, V, seeds, found, kept, id;
    var j := 0;
    while j < w
      invariant 0 <= j <= w
      invariant Labelled(orig, L', V', h, w, seeds') && Swept(L', V', h, w, i, j)
      invariant Boxed(orig, h, w, seeds', found', i, j) && kept' == Keep(found') && id' == FirstId + |seeds'|
    {
      var called, box;
      L', V', called, box := Step(orig, L', V', h, w, seeds', i, j, id');
      if called {
        KeepAppend(found', box);
        BoxedStep(orig, h, w, seeds', found', i, j, box);
        seeds', found', id' := seeds' + [(i, j)], found' + [box], id' + 1;
        if Area(box) >= MinArea {
          kept' := kept' + [box];
        }
      } else {
        BoxedMoves(orig, h, w, seeds', found', i, j, i, j + 1);
      }
      j := j + 1;
    }
    NextRow(L', V', h, w, i);
    BoxedMoves(orig, h, w, seeds', found', i, w, i + 1, 0);
  }

  /** Every labelled 1-pixel is the seed of its id or in that seed's region. */
  lemma Covered(orig: seq<seq<int>>, L: seq<seq<int>>, h: nat, w: nat, seeds: seq<Cell>)
    requires IsGrid(orig, h, w) && IsGrid(L, h, w) && Rooted(orig, L, h, w, seeds)
    requires forall c :: InBounds(h, w, c) && orig[c.0][c.1] == 1 ==> FirstId <= L[c.0][c.1] < FirstId + |seeds|
    ensures forall c :: InBounds(h, w, c) && orig[c.0][c.1] == 1 ==>
              exists k :: 0 <= k < |seeds| && (c == seeds[k] || c in Region(orig, h, w, seeds[k]))
  {
    forall c | InBounds(h, w, c) && orig[c.0][c.1] == 1
      ensures exists k :: 0 <= k < |seeds| && (c == seeds[k] || c in Region(orig, h, w, seeds[k]))
    {
      var k := L[c.0][c.1] - FirstId;
      assert ReachedFrom(orig, h, w, seeds[k], c);
      assert c in AllCells(h, w);
      assert c == seeds[k] || c in Region(orig, h, w, seeds[k]);
    }
  }

  /** What the finished sweep has established, in the terms of `RoiId`. */
  lemma SweepDone(arr: seq<seq<int>>, L: seq<seq<int>>, V: seq<seq<bool>>, h: nat, w: nat,
                  seeds: seq<Cell>, found: seq<Box>)
    requires Labelled(arr, L, V, h, w, seeds) && Swept(L, V, h, w, h, 0) && Boxed(arr, h, w, seeds, found, h, 0)
    ensures IsGrid(L, h, w) && |found| == |seeds|
    ensures forall c :: InBounds(h, w, c) && arr[c.0][c.1] == 0 ==> L[c.0][c.1] == 0
    ensures forall c :: InBounds(h, w, c) && arr[c.0][c.1] == 1 ==> FirstId <= L[c.0][c.1] < FirstId + |seeds|
    ensures Joined(arr, L, h, w)
    ensures Rooted(arr, L, h, w, seeds)
    ensures forall k :: 0 <= k < |seeds| ==> InBounds(h, w, seeds[k]) && arr[seeds[k].0][seeds[k].1] != 0
    ensures forall a, b :: 0 <= a < b < |seeds| ==> Before(seeds[a], seeds[b].0, seeds[b].1)
    ensures forall k :: 0 <= k < |seeds| && arr[seeds[k].0][seeds[k].1] == 1 ==>
              BoxOf(found[k], Region(arr, h, w, seeds[k]), h, w) && FirstOfRegion(arr, h, w, seeds[k])
    ensures forall c :: InBounds(h, w, c) && arr[c.0][c.1] == 1 ==>
              exists k :: 0 <= k < |seeds| && (c == seeds[k] || c in Region(arr, h, w, seeds[k]))
  {
    SweptAll(arr, L, V, h, w, seeds);
    Covered(arr, L, h, w, seeds);
  }

  /** The two loops of `roiID`, row by row, keeping the boxes of area at least 500
      in call order. */
  method Sweep(arr: seq<seq<int>>, h: nat, w: nat)
    returns (labels: seq<seq<int>>, visited: seq<seq<bool>>, ghost seeds: seq<Cell>, ghost found: seq<Box>,
             kept: seq<Box>, nextId: int)
    requires IsGrid(arr, h, w)
    ensures Labelled(arr, labels, visited, h, w, seeds) && Swept(labels, visited, h, w, h, 0)
    ensures Boxed(arr, h, w, seeds, found, h, 0) && kept == Keep(found) && nextId == FirstId + |seeds|
  {
    visited := seq(h, _ => seq(w, _ => false));
    labels, nextId, seeds, found := arr, FirstId, [], [];
    kept := [];
    var i := 0;
    while i < h
      invariant 0 <= i <= h
      invariant Labelled(arr, labels, visited, h, w, seeds) && Swept(labels, visited, h, w, i, 0)
      invariant Boxed(arr, h, w, seeds, found, i, 0) && kept == Keep(found) && nextId == FirstId + |seeds|
    {
      labels, visited, seeds, found, kept, nextId := SweepRow(arr, labels, visited, h, w, seeds, found, kept, nextId, i);
      i := i + 1;
    }
  }

  /** On a 0/1 mask, what `roiID` finds: one seed per region of 1-pixels, the
      region's first cell, in sweep order, every 1-pixel being a seed or in a
      seed's region; `found[k]` is the box of the k-th seed's region. */
  ghost predicate SeedsAndBoxes(arr: seq<seq<int>>, h: nat, w: nat, seeds: seq<Cell>, found: seq<Box>)
    requires IsGrid(arr, h, w)
  {
    |found| == |seeds| &&
    (forall k :: 0 <= k < |seeds| ==>
       InBounds(h, w, seeds[k]) && arr[seeds[k].0][seeds[k].1] == 1 && FirstOfRegion(arr, h, w, seeds[k]) &&
       BoxOf(found[k], Region(arr, h, w, seeds[k]), h, w)) &&
    (forall a, b :: 0 <= a < b < |seeds| ==> Before(seeds[a], seeds[b].0, seeds[b].1)) &&
    (forall c :: InBounds(h, w, c) && arr[c.0][c.1] == 1 ==>
       exists k :: 0 <= k < |seeds| && (c == seeds[k] || c in Region(arr, h, w, seeds[k])))
  }

  /** `roiID(arr)` on an array of shape (h, w). Returned with the sorted boxes:
      the relabelled array and the next unused id; the seeds and the boxes of every
      `bfs` call are ghost. 0-pixels stay 0; every 1-pixel ends up with an id;
      8-adjacent 1-pixels share their id; a relabelled pixel is reached from the
      seed of its id. Each seed is a non-zero pixel, the seeds come in sweep order,
      and a seed that is 1 is the first cell of its region, whose bounds are that
      call's box (Box(0, 0, 0, 0) for a region of the seed alone). The result is
      the stable sort by area of the boxes of area at least 500, in call order. */
  method RoiId(arr: seq<seq<int>>, h: nat, w: nat)
    returns (labels: seq<seq<int>>, nextId: int, boxes: seq<Box>, ghost seeds: seq<Cell>, ghost found: seq<Box>)
    requires IsGrid(arr, h, w)
    ensures IsGrid(labels, h, w)
    ensures nextId == FirstId + |seeds| && |found| == |seeds|
    ensures forall c :: InBounds(h, w, c) && arr[c.0][c.1] == 0 ==> labels[c.0][c.1] == 0
    ensures forall c :: InBounds(h, w, c) && arr[c.0][c.1] == 1 ==> FirstId <= labels[c.0][c.1] < nextId
    ensures Joined(arr, labels, h, w)
    ensures Rooted(arr, labels, h, w, seeds)
    ensures forall k :: 0 <= k < |seeds| ==> InBounds(h, w, seeds[k]) && arr[seeds[k].0][seeds[k].1] != 0
    ensures forall a, b :: 0 <= a < b < |seeds| ==> Before(seeds[a], seeds[b].0, seeds[b].1)
    ensures forall k :: 0 <= k < |seeds| && arr[seeds[k].0][seeds[k].1] == 1 ==>
              BoxOf(found[k], Region(arr, h, w, seeds[k]), h, w) && FirstOfRegion(arr, h, w, seeds[k])
    ensures forall c :: InBounds(h, w, c) && arr[c.0][c.1] == 1 ==>
              exists k :: 0 <= k < |seeds| && (c == seeds[k] || c in Region(arr, h, w, seeds[k]))
    ensures boxes == SortByArea(Keep(found))
    ensures SortedByArea(boxes) && forall k :: 0 <= k < |boxes| ==> Area(boxes[k]) >= MinArea
  {
    var visited, kept;
    labels, visited, seeds, found, kept, nextId := Sweep(arr, h, w);
    SweepDone(arr, labels, visited, h, w, seeds, found);
    boxes := SortByArea(kept);
    SortKeepsBoxes(kept);
    assert forall k :: 0 <= k < |boxes| ==> boxes[k] in kept;
  }
}
