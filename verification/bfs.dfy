/** The Python driver's `bfs`, one frontier round at a time. */
module BfsSearch {
  import opened Grids
  import opened RoiBox
  import opened Labelling
  import opened BfsState

  /** The body of `bfs`'s innermost loop for neighbour `c` of frontier cell `f`:
      an unvisited neighbour is marked visited, and claimed (labelled, queued and
      taken into the bounds) when it is 1. */
  method Claim(ghost labels: seq<seq<int>>, ghost visited: seq<seq<bool>>, h: nat, w: nat, seed: Cell, id: int,
               L: seq<seq<int>>, V: seq<seq<bool>>, ghost disc: set<Cell>, b: Box, f: Cell, c: Cell)
    returns (L': seq<seq<int>>, V': seq<seq<bool>>, ghost disc': set<Cell>, b': Box, added: bool)
    requires Progress(labels, visited, h, w, seed, id, L, V, disc) && Spans(b, disc, h, w)
    requires f == seed || f in disc
    requires InBounds(h, w, c) && Adjacent8(c, f)
    ensures Progress(labels, visited, h, w, seed, id, L', V', disc') && Spans(b', disc', h, w)
    ensures V'[c.0][c.1] && Grows(V, V', h, w)
    ensures added ==> c !in disc && disc' == disc + {c}
    ensures !added ==> disc' == disc
  {
    if V[c.0][c.1] {
      L', V', disc', b', added := L, V, disc, b, false;
      GrowsRefl(V, h, w);
    } else if L[c.0][c.1] == 1 {
      ExtendChain(labels, visited, h, w, seed, f, c, disc);
      ClaimKeepsProgress(labels, visited, h, w, seed, id, L, V, disc, f, c);
      WidenKeepsSpans(b, disc, h, w, c);
      L', V', disc', b', added := Set(L, c, id), Set(V, c, true), disc + {c}, Widen(c.0, c.1, b), true;
    } else {
      MarkKeepsProgress(labels, visited, h, w, seed, id, L, V, disc, f, c);
      L', V', disc', b', added := L, Set(V, c, true), disc, b, false;
    }
  }

  /** All neighbours of frontier cell `f`, in `validIndices` order; the claimed ones
      are appended to `next`. */
  method Expand(ghost labels: seq<seq<int>>, ghost visited: seq<seq<bool>>, h: nat, w: nat, seed: Cell, id: int,
                L: seq<seq<int>>, V: seq<seq<bool>>, ghost disc: set<Cell>, b: Box, f: Cell, next: seq<Cell>)
    returns (L': seq<seq<int>>, V': seq<seq<bool>>, ghost disc': set<Cell>, b': Box, next': seq<Cell>)
    requires Progress(labels, visited, h, w, seed, id, L, V, disc) && Spans(b, disc, h, w)
    requires f == seed || f in disc
    ensures Progress(labels, visited, h, w, seed, id, L', V', disc') && Spans(b', disc', h, w)
    ensures Grows(V, V', h, w) && disc <= disc'
    ensures NeighboursVisited(V', h, w, f)
    ensures forall c :: c in next' <==> c in next || c in disc' - disc
  {
    var nb := ValidIndices(f.0, f.1, h, w);
    L', V', disc', b', next' := L, V, disc, b, next;
    var m := 0;
    while m < |nb|
      invariant 0 <= m <= |nb|
      invariant Progress(labels, visited, h, w, seed, id, L', V', disc') && Spans(b', disc', h, w)
      invariant f == seed || f in disc'
      invariant Grows(V, V', h, w) && disc <= disc'
      invariant AllVisited(V', h, w, nb, m)
      invariant forall c :: c in next' <==> c in next || c in disc' - disc
    {
      ghost var V0, d0 := V', disc';
      var c, added := nb[m], false;
      assert c in nb;
      L', V', disc', b', added := Claim(labels, visited, h, w, seed, id, L', V', disc', b', f, c);
      if added {
        QueueClaimed(next', c, next, disc, d0);
        next' := next' + [c];
      }
      GrowsTrans(V, V0, V', h, w);
      VisitedExtend(V0, V', h, w, nb, m);
      m := m + 1;
    }
    NeighboursFromList(V', h, w, f);
  }

  /** One round of `bfs`: every cell of the frontier is expanded; the result is the
      next frontier. */
  method Round(ghost labels: seq<seq<int>>, ghost visited: seq<seq<bool>>, h: nat, w: nat, seed: Cell, id: int,
               L: seq<seq<int>>, V: seq<seq<bool>>, ghost disc: set<Cell>, b: Box, frontier: seq<Cell>)
    returns (L': seq<seq<int>>, V': seq<seq<bool>>, ghost disc': set<Cell>, b': Box, next: seq<Cell>)
    requires Progress(labels, visited, h, w, seed, id, L, V, disc) && Spans(b, disc, h, w)
    requires forall k :: 0 <= k < |frontier| ==> frontier[k] == seed || frontier[k] in disc
    requires Closed(V, h, w, seed, disc, frontier, 0, [])
    ensures Progress(labels, visited, h, w, seed, id, L', V', disc') && Spans(b', disc', h, w)
    ensures disc <= disc'
    ensures forall c :: c in next <==> c in disc' - disc
    ensures Closed(V', h, w, seed, disc', next, 0, [])
  {
    L', V', disc', b', next := L, V, disc, b, [];
    var k := 0;
    while k < |frontier|
      invariant 0 <= k <= |frontier|
      invariant Progress(labels, visited, h, w, seed, id, L', V', disc') && Spans(b', disc', h, w)
      invariant disc <= disc'
      invariant forall c :: c in next <==> c in disc' - disc
      invariant Closed(V', h, w, seed, disc', frontier, k, next)
    {
      ghost var V0, d0, n0 := V', disc', next;
      L', V', disc', b', next := Expand(labels, visited, h, w, seed, id, L', V', disc', b', frontier[k], next);
      ClosedStep(V0, V', h, w, seed, d0, disc', frontier, k, n0, next);
      QueueGrows(n0, next, disc, d0, disc');
      k := k + 1;
    }
    ClosedRestart(V', h, w, seed, disc', frontier, next);
  }

  /** The rounds of `bfs`, with the set of cells they discovered. */
  method Search(i: int, j: int, labels: seq<seq<int>>, visited: seq<seq<bool>>, h: nat, w: nat, id: int)
    returns (labels': seq<seq<int>>, visited': seq<seq<bool>>, box: Box, ghost disc: set<Cell>)
    requires IsGrid(labels, h, w) && IsGrid(visited, h, w) && InBounds(h, w, (i, j))
    ensures Progress(labels, visited, h, w, (i, j), id, labels', visited', disc)
    ensures forall c :: (c == (i, j) || c in disc) ==> NeighboursVisited(visited', h, w, c)
    ensures disc == {} ==> box == Box(0, 0, 0, 0)
    ensures disc != {} ==> Spans(box, disc, h, w)
  {
    var seed := (i, j);
    labels' := Set(labels, seed, id);
    visited' := Set(visited, seed, true);
    var frontier := [seed];
    var bounds := Box(h, 0, 0, w);
    var rounds := 0;
    disc := {};
    ghost var all := AllCells(h, w);
    StartProgress(labels, visited, h, w, seed, id);

    while frontier != []
      invariant Progress(labels, visited, h, w, seed, id, labels', visited', disc) && Spans(bounds, disc, h, w)
      invariant forall k :: 0 <= k < |frontier| ==> frontier[k] == seed || frontier[k] in disc
      invariant Closed(visited', h, w, seed, disc, frontier, 0, [])
      invariant rounds == 0 ==> frontier == [seed] && disc == {}
      invariant rounds >= 1 ==> (disc == {} <==> rounds == 1 && frontier == [])
      decreases |all - disc|, |frontier|
    {
      ghost var disc0 := disc;
      var next;
      labels', visited', disc, bounds, next := Round(labels, visited, h, w, seed, id, labels', visited', disc, bounds, frontier);
      RoundMeasure(all, disc0, disc, next, h, w);
      frontier := next;
      rounds := rounds + 1;
    }
    if rounds == 1 {
      box := Box(0, 0, 0, 0);
    } else {
      box := bounds;
    }
    ClosedRestart(visited', h, w, seed, disc, [], []);
  }

  /** `bfs(i, j, array, visited, componentID)` on an array of shape (h, w).
      The seed is labelled `id` and visited. Afterwards a cell other than the seed
      holds `id` exactly when this call discovered it, that is when it was unvisited
      and 1 and is now visited; that happens to every cell 8-connected to the seed
      through such cells, and only to those; every other cell keeps its value, and
      a cell newly visited lies next to the seed or to a discovered cell. When
      nothing was discovered the box is Box(0, 0, 0, 0); otherwise it spans the
      discovered cells (never the seed), the first index giving e/w and the second
      n/s, with w and n starting from shape[1] and shape[0]. */
  method Bfs(i: int, j: int, labels: seq<seq<int>>, visited: seq<seq<bool>>, h: nat, w: nat, id: int)
    returns (labels': seq<seq<int>>, visited': seq<seq<bool>>, box: Box)
    requires IsGrid(labels, h, w) && IsGrid(visited, h, w) && InBounds(h, w, (i, j))
    ensures IsGrid(labels', h, w) && IsGrid(visited', h, w)
    ensures labels'[i][j] == id && visited'[i][j]
    ensures Grows(visited, visited', h, w)
    ensures forall c :: InBounds(h, w, c) && c != (i, j) ==>
              labels'[c.0][c.1] == (if Discovered(labels, visited, visited', h, w, (i, j), c) then id else labels[c.0][c.1])
    ensures forall c, p :: ChainTo(labels, visited, h, w, (i, j), c, p) ==> visited'[c.0][c.1] && labels'[c.0][c.1] == id
    ensures forall c :: InBounds(h, w, c) && Discovered(labels, visited, visited', h, w, (i, j), c) ==>
              exists p :: ChainTo(labels, visited, h, w, (i, j), c, p)
    ensures forall c :: InBounds(h, w, c) && !visited[c.0][c.1] && visited'[c.0][c.1] && c != (i, j) ==>
              exists d :: InBounds(h, w, d) && Adjacent8(c, d) &&
                (d == (i, j) || Discovered(labels, visited, visited', h, w, (i, j), d))
    ensures DiscoveredSet(labels, visited, visited', h, w, (i, j)) == {} ==> box == Box(0, 0, 0, 0)
    ensures DiscoveredSet(labels, visited, visited', h, w, (i, j)) != {} ==>
              Spans(box, DiscoveredSet(labels, visited, visited', h, w, (i, j)), h, w)
  {
    ghost var disc;
    labels', visited', box, disc := Search(i, j, labels, visited, h, w, id);
    Outcome(labels, visited, labels', visited', h, w, i, j, id, disc);
    DiscIsDiscoveredSet(labels, visited, labels', visited', h, w, (i, j), id, disc);
  }
}
