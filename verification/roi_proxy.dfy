/** `RoIproxy`: one clusterization of every proxy of a region, the counts the
    score update derives from it, the consistency check `CheckClusterization`,
    and the schedule of `ScanRT` over the R and T bins.

    A pass visits the proxies in order and grows a cluster from each one that
    is included and not yet clustered. Afterwards every included proxy is
    clustered, and, when every neighbour list is sorted by distance and
    neighbourhood is mutual (as `PreprocessedIsMutual` shows of the lists
    `Data::Preprocess` builds over radius-sorted points), every two included
    neighbours within the clustering radius share a root. The check then
    passes on the counts the score update computes. */
module RoiProxies {
  import opened Wrappers
  import opened Clusters
  import opened DataProxies
  import Neighbours
  import Points

  // ---------------------------------------------------------------- neighbourhoods

  /** Every list is sorted by distance, and whenever `x` is in `j`'s list at
      some distance, `j` is in `x`'s list at the same distance. */
  ghost predicate Mutual(w: World)
  {
    (forall j :: 0 <= j < |w.neighbours| ==> Neighbours.ByDistance(w.neighbours[j])) &&
    forall j, e :: 0 <= j < |w.neighbours| && 0 <= e < |w.neighbours[j]| && w.neighbours[j][e].1 < |w.neighbours| ==>
      (w.neighbours[j][e].0, j) in w.neighbours[w.neighbours[j][e].1]
  }

  /** The geometry of point `j`: `geo` with the angular window `cut[j]`, which
      `Data::Preprocess` derives from the point's own radius. */
  function PointGeometry(geo: Neighbours.Geometry, cut: seq<(real, real)>, j: nat): (g: Neighbours.Geometry)
    requires j < |cut|
    ensures g.sqrt == geo.sqrt && g.max2R == geo.max2R && g.max2R2 == geo.max2R2
    ensures g.dphi == cut[j].0 && g.dphi2 == cut[j].1
  {
    geo.(dphi := cut[j].0, dphi2 := cut[j].1)
  }

  /** The lists of `w` are those `Data::Preprocess` builds for `data`, point
      `j` with its own angular window `cut[j]`, and no window drops a point
      closer than `max2R`. */
  ghost predicate Preprocessed(w: World, data: seq<Points.Point>, geo: Neighbours.Geometry, cut: seq<(real, real)>)
  {
    |w.neighbours| == |data| && |cut| == |data| &&
    forall j :: 0 <= j < |data| ==>
      w.neighbours[j] == Neighbours.Preprocess(data, PointGeometry(geo, cut, j), j) &&
      Neighbours.CutKeepsNear(data, PointGeometry(geo, cut, j), j)
  }

  /** The lists `Data::Preprocess` builds over points sorted by radius are
      mutual. */
  lemma PreprocessedIsMutual(w: World, data: seq<Points.Point>, geo: Neighbours.Geometry, cut: seq<(real, real)>)
    requires Neighbours.ByRadius(data, geo.sqrt) && Preprocessed(w, data, geo, cut)
    ensures Mutual(w)
  {
    forall j | 0 <= j < |w.neighbours|
      ensures Neighbours.ByDistance(w.neighbours[j])
    {
      Neighbours.PreprocessIsNeighbours(data, PointGeometry(geo, cut, j), j, (0.0, 0));
      Neighbours.SortedByDistance(w.neighbours[j]);
    }
    forall j, e | 0 <= j < |w.neighbours| && 0 <= e < |w.neighbours[j]| && w.neighbours[j][e].1 < |w.neighbours|
      ensures (w.neighbours[j][e].0, j) in w.neighbours[w.neighbours[j][e].1]
    {
      var x := w.neighbours[j][e].1;
      Neighbours.PreprocessMutual(data, PointGeometry(geo, cut, j), PointGeometry(geo, cut, x), j, w.neighbours[j][e]);
    }
  }

  /** On a sorted list every entry within `reach` comes before the stop. */
  lemma WithinReach(ns: seq<Neighbours.Entry>, f: nat, reach: real)
    requires Neighbours.ByDistance(ns) && f < |ns| && ns[f].0 <= reach
    ensures f < Reach(ns, reach)
  {
  }

  /** If `x` is within reach of `j`, then `j` is within reach of `x`. */
  lemma NearBack(w: World, reach: real, j: nat, e: nat) returns (f: nat)
    requires WorldOk(w, |w.neighbours|) && Mutual(w) && j < |w.neighbours| && e < Reach(w.neighbours[j], reach)
    ensures var x := w.neighbours[j][e].1;
            f < Reach(w.neighbours[x], reach) && w.neighbours[x][f].1 == j
  {
    var x := w.neighbours[j][e].1;
    var d := w.neighbours[j][e].0;
    assert (d, j) in w.neighbours[x];
    f :| 0 <= f < |w.neighbours[x]| && w.neighbours[x][f] == (d, j);
    WithinReach(w.neighbours[x], f, reach);
  }

  /** Two proxies that are both clustered and included share a root. */
  ghost predicate Agree(w: World, st: State, j: nat, x: nat)
    requires StateOk(w, st) && j < |st.proxies| && x < |st.proxies|
  {
    st.proxies[j].cluster.Some? && st.proxies[x].cluster.Some? && !st.proxies[j].exclude && !st.proxies[x].exclude ==>
      RootOf(w, st, j) == RootOf(w, st, x)
  }

  /** Every proxy agrees with each neighbour before the stop. */
  ghost predicate Consistent(w: World, reach: real, st: State)
    requires WorldOk(w, |st.proxies|) && StateOk(w, st)
  {
    forall j, e :: 0 <= j < |st.proxies| && 0 <= e < Reach(w.neighbours[j], reach) ==>
      Agree(w, st, j, w.neighbours[j][e].1)
  }

  /** Only included proxies are clustered. */
  predicate ClusteredIncluded(ps: seq<Proxy>)
  {
    forall k :: 0 <= k < |ps| && ps[k].cluster.Some? ==> !ps[k].exclude
  }

  /** Growth keeps consistency: old pairs keep agreeing because roots only
      merge, and a newly clustered proxy is closed, which by mutuality covers
      both directions of each of its pairs. */
  lemma GrowthKeepsConsistent(w: World, reach: real, st: State, st': State)
    requires WorldOk(w, |st.proxies|) && Mutual(w) && StateOk(w, st) && StateOk(w, st')
    requires |st.clusters| <= |st'.clusters| && |st.proxies| == |st'.proxies|
    requires Kept(st, st') && Coarser(Links(st.clusters), Links(st'.clusters)) && Tracks(w, st, st')
    requires FreshClosed(w, reach, st, st', |st.proxies|)
    requires Consistent(w, reach, st)
    ensures Consistent(w, reach, st')
  {
    var l, l' := Links(st.clusters), Links(st'.clusters);
    forall j, e | 0 <= j < |st.proxies| && 0 <= e < Reach(w.neighbours[j], reach)
      ensures Agree(w, st', j, w.neighbours[j][e].1)
    {
      var x := w.neighbours[j][e].1;
      var ps, ps' := st.proxies, st'.proxies;
      if ps'[j].cluster.Some? && ps'[x].cluster.Some? && !ps'[j].exclude && !ps'[x].exclude {
        if ps[j].cluster.Some? && ps[x].cluster.Some? {
          assert Agree(w, st, j, x);
          var kj, kx := ps[j].cluster.value, ps[x].cluster.value;
          assert Root(l', kj) == Root(l', Root(l, kj));
          assert Root(l', kx) == Root(l', Root(l, kx));
        } else if ps[j].cluster.None? {
          assert Closed(w, reach, st', j);
        } else {
          var f := NearBack(w, reach, j, e);
          assert Closed(w, reach, st', x);
          assert w.neighbours[x][f].1 == j;
        }
      }
    }
  }

  // ---------------------------------------------------------------- one pass

  /** Where a pass stands after the first `k` data: a well-formed state
      reached from `st` by growth only, consistency kept, and every included
      point before `k` clustered. */
  ghost predicate PassSoFar(w: World, reach: real, st: State, st': State, k: nat)
  {
    k <= |st.proxies| && WorldOk(w, |st.proxies|) && StateOk(w, st) &&
    StateOk(w, st') && |st'.proxies| == |st.proxies| && |st.clusters| <= |st'.clusters| &&
    Kept(st, st') && Coarser(Links(st.clusters), Links(st'.clusters)) && Tracks(w, st, st') &&
    (forall j :: 0 <= j < k && !st'.proxies[j].exclude ==> st'.proxies[j].cluster.Some?) &&
    (Mutual(w) && Consistent(w, reach, st) ==> Consistent(w, reach, st'))
  }

  /** One `Clusterize` call moves a pass one datum on. */
  lemma PassStep(w: World, reach: real, st: State, mid: State, next: State, k: nat)
    requires WorldOk(w, |st.proxies|) && StateOk(w, st) && k < |st.proxies|
    requires PassSoFar(w, reach, st, mid, k)
    requires StateOk(w, next) && |next.proxies| == |mid.proxies|
    requires mid.proxies[k].cluster.Some? || mid.proxies[k].exclude ==> next == mid
    requires mid.proxies[k].cluster.None? && !mid.proxies[k].exclude ==> RootOf(w, next, k) == Some(|mid.clusters|)
    requires |mid.clusters| <= |next.clusters| && Kept(mid, next)
    requires Coarser(Links(mid.clusters), Links(next.clusters)) && Tracks(w, mid, next)
    requires FreshClosed(w, reach, mid, next, |mid.proxies|)
    ensures PassSoFar(w, reach, st, next, k + 1)
  {
    if Mutual(w) && Consistent(w, reach, mid) {
      GrowthKeepsConsistent(w, reach, mid, next);
    }
    StepsChain(w, st, mid, next);
  }

  /** The loop `for( auto& k : mData ) k.Clusterize( twoR2 , *this )`: every
      included proxy ends up clustered; flags stay, roots only merge, and a
      consistent state stays consistent. */
  method Pass(w: World, reach: real, st: State) returns (st': State)
    requires WorldOk(w, |st.proxies|) && StateOk(w, st)
    ensures StateOk(w, st') && |st'.proxies| == |st.proxies| && |st.clusters| <= |st'.clusters|
    ensures Kept(st, st') && Coarser(Links(st.clusters), Links(st'.clusters)) && Tracks(w, st, st')
    ensures forall k :: 0 <= k < |st'.proxies| && !st'.proxies[k].exclude ==> st'.proxies[k].cluster.Some?
    ensures Mutual(w) && Consistent(w, reach, st) ==> Consistent(w, reach, st')
  {
    CoarserSelf(Links(st.clusters));
    st' := st;
    var k := 0;
    while k < |st.proxies|
      invariant PassSoFar(w, reach, st, st', k)
    {
      var next := Clusterize(w, reach, st', k);
      PassStep(w, reach, st, st', next, k);
      st' := next;
      k := k + 1;
    }
  }

  // ---------------------------------------------------------------- bookkeeping

  /** `mClusters.clear(); for( auto& k : mData ) k.mCluster = NULL;`. */
  function Reset(ps: seq<Proxy>): State
  {
    State([], seq(|ps|, k requires 0 <= k < |ps| => ps[k].(cluster := None)))
  }

  lemma {:induction false} ClusteredNone(ps: seq<Proxy>)
    requires forall k :: 0 <= k < |ps| ==> ps[k].cluster.None?
    ensures Clustered(ps) == 0
  {
    if ps != [] {
      ClusteredNone(ps[..|ps| - 1]);
    }
  }

  /** A reset keeps one proxy per point, none of them in a cluster. */
  lemma ResetClears(ps: seq<Proxy>)
    ensures |Reset(ps).proxies| == |ps| && forall k :: 0 <= k < |ps| ==> Reset(ps).proxies[k].cluster.None?
  {
  }

  /** A reset leaves an empty arena, no proxy clustered and every flag as it
      was: a well-formed, consistent state. */
  lemma ResetIsClean(w: World, reach: real, ps: seq<Proxy>)
    requires WorldOk(w, |ps|)
    ensures var st := Reset(ps);
            StateOk(w, st) && |st.proxies| == |ps| && Consistent(w, reach, st) && ClusteredIncluded(st.proxies) &&
            forall k :: 0 <= k < |ps| ==> st.proxies[k].cluster.None? && st.proxies[k].exclude == ps[k].exclude
  {
    ClusteredNone(Reset(ps).proxies);
  }

  /** The exclusion flags of one step: a point whose score is below the
      threshold is excluded. */
  function Flags(scores: seq<real>, t: real): seq<bool>
  {
    seq(|scores|, k requires 0 <= k < |scores| => scores[k] < t)
  }

  /** The number of scores below the threshold. */
  function Below(scores: seq<real>, t: real): nat
  {
    if scores == [] then 0 else Below(scores[..|scores| - 1], t) + if scores[|scores| - 1] < t then 1 else 0
  }

  /** Setting every proxy's flag. */
  function SetExclude(st: State, flags: seq<bool>): State
    requires |flags| == |st.proxies|
  {
    State(st.clusters, seq(|st.proxies|, k requires 0 <= k < |st.proxies| => st.proxies[k].(exclude := flags[k])))
  }

  lemma {:induction false} ClusteredByClusters(ps: seq<Proxy>, qs: seq<Proxy>)
    requires |ps| == |qs| && forall k :: 0 <= k < |ps| ==> ps[k].cluster == qs[k].cluster
    ensures Clustered(ps) == Clustered(qs)
  {
    if ps != [] {
      ClusteredByClusters(ps[..|ps| - 1], qs[..|qs| - 1]);
    }
  }

  /** New flags keep a state well formed; they keep it consistent when only
      included proxies were clustered, and keep only included proxies
      clustered when no clustered proxy is newly excluded. */
  lemma SetExcludeKeeps(w: World, reach: real, st: State, flags: seq<bool>)
    requires WorldOk(w, |st.proxies|) && StateOk(w, st) && |flags| == |st.proxies|
    ensures var st' := SetExclude(st, flags);
            StateOk(w, st') &&
            (Consistent(w, reach, st) && ClusteredIncluded(st.proxies) ==> Consistent(w, reach, st')) &&
            ((forall k :: 0 <= k < |flags| && st.proxies[k].cluster.Some? ==> !flags[k]) ==>
               ClusteredIncluded(st'.proxies))
  {
    var st' := SetExclude(st, flags);
    ClusteredByClusters(st.proxies, st'.proxies);
    if Consistent(w, reach, st) && ClusteredIncluded(st.proxies) {
      forall j, e | 0 <= j < |st.proxies| && 0 <= e < Reach(w.neighbours[j], reach)
        ensures Agree(w, st', j, w.neighbours[j][e].1)
      {
        assert Agree(w, st, j, w.neighbours[j][e].1);
      }
    }
  }

  /** The number of excluded proxies. */
  function Excluded(ps: seq<Proxy>): (n: nat)
    ensures n <= |ps|
  {
    if ps == [] then 0 else Excluded(ps[..|ps| - 1]) + if ps[|ps| - 1].exclude then 1 else 0
  }

  /** The number of clusters of nonzero size. */
  function NonEmpty(a: seq<Cluster>): nat
  {
    if a == [] then 0 else NonEmpty(a[..|a| - 1]) + if a[|a| - 1].size != 0 then 1 else 0
  }

  /** `mClusterCount`, `mClusteredCount` and `mBackgroundCount`. */
  datatype Counts = Counts(clusterCount: nat, clustered: nat, background: nat)

  /** One past the largest `size_t`: no vector holds this many elements. */
  const SizeLimit: nat := 0x1_0000_0000_0000_0000

  /** `size_t` subtraction, wrapping below zero. */
  function SizeMinus(a: nat, b: nat): (r: nat)
    ensures r < SizeLimit
    ensures b <= a < SizeLimit ==> r == a - b
    ensures a < b <= SizeLimit ==> r == a - b + SizeLimit
  {
    (a - b) % SizeLimit
  }

  /** Every nonempty cluster rescored by `Cluster::UpdateLogScore`. */
  function Rescore(a: seq<Cluster>, score: Cluster -> real): seq<Cluster>
  {
    seq(|a|, k requires 0 <= k < |a| => if a[k].size == 0 then a[k] else UpdateLogScore(a[k], score))
  }

  /** `RoIproxy::UpdateLogScore`, apart from the log-probability sums: with
      no sigma bins it returns at once; otherwise each nonempty cluster is
      rescored, and the counts are the nonempty clusters, their total size,
      and the points left over. */
  function UpdateCounts(st: State, sigmaCount: nat, counts: Counts, score: Cluster -> real): (State, Counts)
  {
    if sigmaCount == 0 then (st, counts)
    else
      (State(Rescore(st.clusters, score), st.proxies),
       Counts(NonEmpty(st.clusters), Total(st.clusters), SizeMinus(|st.proxies|, Total(st.clusters))))
  }

  lemma {:induction false} TotalSameSizesOf(a: seq<Cluster>, b: seq<Cluster>)
    requires |a| == |b| && forall k :: 0 <= k < |a| ==> a[k].size == b[k].size
    ensures Total(a) == Total(b) && NonEmpty(a) == NonEmpty(b)
  {
    if a != [] {
      TotalSameSizesOf(a[..|a| - 1], b[..|b| - 1]);
    }
  }

  /** The update changes scores only: links, sizes and proxies stay, so every
      root stays; the counts are the nonempty clusters, the clustered proxies
      and the unclustered ones. */
  lemma UpdateCountsKeeps(w: World, reach: real, st: State, counts: Counts, score: Cluster -> real)
    requires WorldOk(w, |st.proxies|) && StateOk(w, st) && |st.proxies| < SizeLimit
    ensures var (st', c) := UpdateCounts(st, w.sigmaCount, counts, score);
            StateOk(w, st') && st'.proxies == st.proxies && Links(st'.clusters) == Links(st.clusters) &&
            (Consistent(w, reach, st) ==> Consistent(w, reach, st')) &&
            (w.sigmaCount == 0 ==> c == counts) &&
            (w.sigmaCount > 0 ==> c == Counts(NonEmpty(st.clusters), Clustered(st.proxies), |st.proxies| - Clustered(st.proxies))) &&
            NonEmpty(st'.clusters) == NonEmpty(st.clusters)
  {
    var (st', c) := UpdateCounts(st, w.sigmaCount, counts, score);
    TotalSameSizesOf(st.clusters, st'.clusters);
    assert Links(st'.clusters) == Links(st.clusters);
    if Consistent(w, reach, st) {
      forall j, e | 0 <= j < |st.proxies| && 0 <= e < Reach(w.neighbours[j], reach)
        ensures Agree(w, st', j, w.neighbours[j][e].1)
      {
        assert Agree(w, st, j, w.neighbours[j][e].1);
      }
    }
  }

  // ---------------------------------------------------------------- the check

  /** The root of cluster `k`, as `GetParent` finds it. */
  function Find(a: seq<Cluster>, k: nat): nat
    requires Forest(Links(a)) && k < |a|
  {
    GetParent(a, k).1
  }

  /** The neighbour test of `CheckClusterization` for included proxy `j`: it
      is clustered, and every included neighbour before the stop is clustered
      under the same root. */
  predicate NeighboursAgree(w: World, reach: real, st: State, j: nat)
    requires WorldOk(w, |st.proxies|) && StateOk(w, st) && j < |st.proxies|
  {
    var ps, ns := st.proxies, w.neighbours[j];
    ps[j].cluster.Some? &&
    forall e :: 0 <= e < Reach(ns, reach) && !ps[ns[e].1].exclude ==>
      ps[ns[e].1].cluster.Some? && Find(st.clusters, ps[ns[e].1].cluster.value) == Find(st.clusters, ps[j].cluster.value)
  }

  /** What one step of the neighbour loop of `CheckClusterization` makes of a
      neighbour: nothing, a neighbour not clustered, a wrong neighbour, or the
      null dereference of an unset cluster (undefined behaviour). */
  datatype Verdict = Fine | NotClustered | WrongNeighbour | NullDeref

  /** The neighbour step as written, for a proxy `j` the loop has found
      clustered and its neighbour `k`: the not-clustered test looks at `j`'s own
      cluster, which is set, and then the neighbour's cluster is dereferenced
      whether it is set or not. */
  function NeighbourAsWritten(st: State, j: nat, k: nat): (v: Verdict)
    requires Forest(Links(st.clusters)) && j < |st.proxies| && k < |st.proxies|
    requires forall p :: 0 <= p < |st.proxies| && st.proxies[p].cluster.Some? ==> st.proxies[p].cluster.value < |st.clusters|
  {
    var ps := st.proxies;
    if ps[k].exclude then Fine
    else if ps[j].cluster.None? then NotClustered
    else if ps[k].cluster.None? then NullDeref
    else if Find(st.clusters, ps[k].cluster.value) != Find(st.clusters, ps[j].cluster.value) then WrongNeighbour
    else Fine
  }

  /** The neighbour step as evidently intended: an included neighbour must be
      clustered, and under the root of `j`'s cluster. */
  function NeighbourIntended(st: State, j: nat, k: nat): (v: Verdict)
    requires Forest(Links(st.clusters)) && j < |st.proxies| && k < |st.proxies|
    requires forall p :: 0 <= p < |st.proxies| && st.proxies[p].cluster.Some? ==> st.proxies[p].cluster.value < |st.clusters|
    requires st.proxies[j].cluster.Some?
    ensures v != NullDeref
    ensures v == Fine <==> st.proxies[k].exclude ||
                           (st.proxies[k].cluster.Some? &&
                            Find(st.clusters, st.proxies[k].cluster.value) == Find(st.clusters, st.proxies[j].cluster.value))
  {
    var ps := st.proxies;
    if ps[k].exclude then Fine
    else if ps[k].cluster.None? then NotClustered
    else if Find(st.clusters, ps[k].cluster.value) != Find(st.clusters, ps[j].cluster.value) then WrongNeighbour
    else Fine
  }

  /** As written, the not-clustered count of the neighbour loop never grows
      (the loop only reaches clustered proxies), and an included neighbour
      without a cluster is dereferenced, where the intended step counts it as
      not clustered. Otherwise both steps agree. */
  lemma NeighbourTestAsWritten(st: State, j: nat, k: nat)
    requires Forest(Links(st.clusters)) && j < |st.proxies| && k < |st.proxies|
    requires forall p :: 0 <= p < |st.proxies| && st.proxies[p].cluster.Some? ==> st.proxies[p].cluster.value < |st.clusters|
    requires st.proxies[j].cluster.Some?
    ensures NeighbourAsWritten(st, j, k) != NotClustered
    ensures NeighbourAsWritten(st, j, k) == NullDeref <==> !st.proxies[k].exclude && st.proxies[k].cluster.None?
    ensures NeighbourAsWritten(st, j, k) == NullDeref ==> NeighbourIntended(st, j, k) == NotClustered
    ensures NeighbourAsWritten(st, j, k) != NullDeref ==> NeighbourAsWritten(st, j, k) == NeighbourIntended(st, j, k)
  {
  }

  /** The neighbour test of the check is the intended step over every
      neighbour within reach: a clustered proxy passes it exactly when no
      neighbour step finds fault. */
  lemma NeighboursAgreeIntended(w: World, reach: real, st: State, j: nat)
    requires WorldOk(w, |st.proxies|) && StateOk(w, st) && j < |st.proxies|
    ensures NeighboursAgree(w, reach, st, j) <==>
              st.proxies[j].cluster.Some? &&
              forall e :: 0 <= e < Reach(w.neighbours[j], reach) ==> NeighbourIntended(st, j, w.neighbours[j][e].1) == Fine
  {
  }

  /** `RoIproxy::CheckClusterization(R, T)` with `reach = 4 R^2`: it fails,
      always with "Check failed", when the nonempty clusters are not
      `mClusterCount`, the excluded proxies are not `mBackgroundCount`, the
      cluster sizes and the excluded proxies do not add up to all points, or
      some included proxy fails the neighbour test. The `GetCluster` and
      `GetParent` calls of the check only compress chains, which keeps every
      root, so the model leaves the state as it is. */
  function Check(w: World, reach: real, st: State, counts: Counts): (r: Result<(), string>)
    requires WorldOk(w, |st.proxies|) && StateOk(w, st)
  {
    if NonEmpty(st.clusters) != counts.clusterCount then Err("Check failed")
    else if Excluded(st.proxies) != counts.background then Err("Check failed")
    else if Total(st.clusters) + Excluded(st.proxies) != |st.proxies| then Err("Check failed")
    else if exists j :: 0 <= j < |st.proxies| && !st.proxies[j].exclude && !NeighboursAgree(w, reach, st, j) then
      Err("Check failed")
    else Ok(())
  }

  /** The check passes exactly when the counts agree with the state and every
      included proxy is closed: clustered, with each included neighbour within
      reach under its root. */
  lemma CheckMeans(w: World, reach: real, st: State, counts: Counts)
    requires WorldOk(w, |st.proxies|) && StateOk(w, st)
    ensures Check(w, reach, st, counts).Ok? <==>
              NonEmpty(st.clusters) == counts.clusterCount && Excluded(st.proxies) == counts.background &&
              Clustered(st.proxies) + Excluded(st.proxies) == |st.proxies| &&
              forall j :: 0 <= j < |st.proxies| && !st.proxies[j].exclude ==> Closed(w, reach, st, j)
    ensures Check(w, reach, st, counts).Err? ==> Check(w, reach, st, counts) == Err("Check failed")
  {
    forall j | 0 <= j < |st.proxies| && !st.proxies[j].exclude
      ensures NeighboursAgree(w, reach, st, j) <==> Closed(w, reach, st, j)
    {
      FindIsRoot(w, st);
    }
  }

  lemma FindIsRoot(w: World, st: State)
    requires StateOk(w, st)
    ensures forall k :: 0 <= k < |st.clusters| ==> Find(st.clusters, k) == Root(Links(st.clusters), k)
  {
  }

  /** Every included and only included proxies clustered: the clustered and
      the excluded proxies make up all of them. */
  lemma {:induction false} SplitCounts(ps: seq<Proxy>)
    requires forall k :: 0 <= k < |ps| ==> (ps[k].cluster.Some? <==> !ps[k].exclude)
    ensures Clustered(ps) + Excluded(ps) == |ps|
  {
    if ps != [] {
      SplitCounts(ps[..|ps| - 1]);
    }
  }

  /** After a pass from a consistent state in which only included proxies
      were clustered, over mutual neighbour lists and with sigma bins, the
      check passes on the updated counts. */
  lemma PassPassesCheck(w: World, reach: real, st: State, counts: Counts, score: Cluster -> real)
    requires WorldOk(w, |st.proxies|) && StateOk(w, st) && Mutual(w) && w.sigmaCount > 0 && |st.proxies| < SizeLimit
    requires Consistent(w, reach, st) && ClusteredIncluded(st.proxies)
    requires forall k :: 0 <= k < |st.proxies| && !st.proxies[k].exclude ==> st.proxies[k].cluster.Some?
    ensures var (st', c) := UpdateCounts(st, w.sigmaCount, counts, score);
            StateOk(w, st') && Check(w, reach, st', c) == Ok(()) && c.background == Excluded(st.proxies)
  {
    var (st', c) := UpdateCounts(st, w.sigmaCount, counts, score);
    UpdateCountsKeeps(w, reach, st, counts, score);
    SplitCounts(st.proxies);
    forall j | 0 <= j < |st'.proxies| && !st'.proxies[j].exclude
      ensures Closed(w, reach, st', j)
    {
      forall e | 0 <= e < Reach(w.neighbours[j], reach) && !st'.proxies[w.neighbours[j][e].1].exclude
        ensures RootOf(w, st', w.neighbours[j][e].1) == RootOf(w, st', j)
      {
        assert Agree(w, st', j, w.neighbours[j][e].1);
      }
    }
    CheckMeans(w, reach, st', c);
  }

  /** The excluded proxies are the points whose score is below the threshold. */
  lemma {:induction false} ExcludedBelow(ps: seq<Proxy>, scores: seq<real>, t: real)
    requires |ps| == |scores| && forall k :: 0 <= k < |ps| ==> ps[k].exclude == (scores[k] < t)
    ensures Excluded(ps) == Below(scores, t)
  {
    if ps != [] {
      ExcludedBelow(ps[..|ps| - 1], scores[..|scores| - 1], t);
    }
  }

  // ---------------------------------------------------------------- the scan

  /** `Configuration::tBounds`: the number of bins, the range and the step. */
  datatype Bounds = Bounds(bins: nat, min: real, max: real, spacing: real)

  /** What the callback sees at one step: the bin pair, R and T, and the
      counts. */
  datatype Report = Report(i: nat, j: nat, r: real, t: real, counts: Counts)

  /** The scores of every point in R bin `i`. */
  function Column(scores: seq<seq<real>>, i: nat): seq<real>
    requires forall k :: 0 <= k < |scores| ==> i < |scores[k]|
  {
    seq(|scores|, k requires 0 <= k < |scores| => scores[k][i])
  }

  /** The R bins a proxy visits: from `i` in steps of `stride` while below
      `bins`. */
  function Strided(bins: nat, stride: nat, i: nat): seq<nat>
    requires stride > 0 || i >= bins
    decreases bins - i
  {
    if i >= bins then [] else [i] + Strided(bins, stride, i + stride)
  }

  /** The T steps of R bin `i`, in order. */
  function Row(i: nat, tbins: nat): seq<(nat, nat)>
  {
    seq(tbins, j requires 0 <= j < tbins => (i, j))
  }

  /** Every T step of every R bin in `rs`, R bin by R bin. */
  function Schedule(rs: seq<nat>, tbins: nat): seq<(nat, nat)>
  {
    if rs == [] then [] else Schedule(rs[..|rs| - 1], tbins) + Row(rs[|rs| - 1], tbins)
  }

  function Keys(reports: seq<Report>): seq<(nat, nat)>
  {
    seq(|reports|, k requires 0 <= k < |reports| => (reports[k].i, reports[k].j))
  }

  /** The values a report carries: R and T of its bins, and, when `counted`,
      the points below the threshold as background. */
  ghost predicate Faithful(reports: seq<Report>, scores: seq<seq<real>>, R: Bounds, T: Bounds, counted: bool)
  {
    forall k :: 0 <= k < |reports| ==>
      reports[k].r == RBin(R, reports[k].i) &&
      reports[k].t == TBin(T, reports[k].j) &&
      (counted ==> (forall p :: 0 <= p < |scores| ==> reports[k].i < |scores[p]|) &&
                   reports[k].counts.background == Below(Column(scores, reports[k].i), reports[k].t) &&
                   reports[k].counts.clustered + reports[k].counts.background == |scores|)
  }

  /** When the checks are sure to pass: mutual neighbour lists, sigma bins so
      that the counts are updated, and a threshold that never rises. */
  ghost predicate Sound(w: World, T: Bounds)
  {
    Mutual(w) && w.sigmaCount > 0 && T.spacing >= 0.0
  }

  /** Only included proxies are clustered, and each of them scores at least
      the threshold: new flags exclude none of them. */
  predicate Admits(st: State, scores: seq<real>, t: real)
    requires |scores| == |st.proxies|
  {
    ClusteredIncluded(st.proxies) &&
    forall k :: 0 <= k < |st.proxies| && st.proxies[k].cluster.Some? ==> scores[k] >= t
  }

  /** After a step at `t`, a threshold no higher than `t` is admitted. */
  lemma AdmitsLower(st: State, scores: seq<real>, t: real, t': real)
    requires |scores| == |st.proxies| && ClusteredIncluded(st.proxies) && t' <= t
    requires forall k :: 0 <= k < |st.proxies| ==> st.proxies[k].exclude == (scores[k] < t)
    ensures Admits(st, scores, t')
  {
  }

  /** One step of the scan's inner loop: flags from the threshold, a pass,
      the score update. */
  method Step(w: World, reach: real, scores: seq<real>, t: real, st: State, counts: Counts, score: Cluster -> real)
    returns (st': State, counts': Counts)
    requires WorldOk(w, |st.proxies|) && StateOk(w, st) && |scores| == |st.proxies| && |st.proxies| < SizeLimit
    ensures StateOk(w, st') && |st'.proxies| == |st.proxies|
    ensures forall k :: 0 <= k < |st'.proxies| ==> st'.proxies[k].exclude == (scores[k] < t)
    ensures forall k :: 0 <= k < |st'.proxies| && !st'.proxies[k].exclude ==> st'.proxies[k].cluster.Some?
    ensures Admits(st, scores, t) ==> ClusteredIncluded(st'.proxies)
    ensures Mutual(w) && Consistent(w, reach, st) && Admits(st, scores, t) ==> Consistent(w, reach, st')
    ensures Mutual(w) && w.sigmaCount > 0 && Consistent(w, reach, st) && Admits(st, scores, t) ==>
              Check(w, reach, st', counts') == Ok(()) && counts'.background == Below(scores, t) &&
              counts'.clustered + counts'.background == |scores|
  {
    var flags := Flags(scores, t);
    SetExcludeKeeps(w, reach, st, flags);
    var s1 := SetExclude(st, flags);
    var s2 := Pass(w, reach, s1);
    if Admits(st, scores, t) {
      assert ClusteredIncluded(s2.proxies);
      if Mutual(w) && Consistent(w, reach, st) && w.sigmaCount > 0 {
        PassPassesCheck(w, reach, s2, counts, score);
        ExcludedBelow(s2.proxies, scores, t);
      }
    }
    UpdateCountsKeeps(w, reach, s2, counts, score);
    st', counts' := UpdateCounts(s2, w.sigmaCount, counts, score).0, UpdateCounts(s2, w.sigmaCount, counts, score).1;
  }

  /** The threshold of T bin `j`: `T.max - j * T.spacing`. */
  function TBin(T: Bounds, j: nat): real
  {
    T.max - j as real * T.spacing
  }

  /** `lT -= T.spacing` moves from one T bin to the next. */
  lemma NextBin(T: Bounds, j: nat)
    ensures TBin(T, j) - T.spacing == TBin(T, j + 1)
  {
  }

  /** The first `j` reports of R bin `i`: one per T bin in order, at radius
      `lR` and threshold `T.max - j * T.spacing`, and, when `counted`, with
      the background of that threshold. */
  ghost predicate RowSoFar(reports: seq<Report>, col: seq<real>, i: nat, lR: real, T: Bounds, j: nat, counted: bool)
  {
    |reports| == j &&
    forall k :: 0 <= k < j ==>
      reports[k].i == i && reports[k].j == k && reports[k].r == lR && reports[k].t == TBin(T, k) &&
      (counted ==> reports[k].counts.background == Below(col, reports[k].t) &&
                   reports[k].counts.clustered + reports[k].counts.background == |col|)
  }

  lemma RowExtends(reports: seq<Report>, col: seq<real>, i: nat, lR: real, T: Bounds, j: nat, counted: bool, c: Counts)
    requires RowSoFar(reports, col, i, lR, T, j, counted)
    requires counted ==> c.background == Below(col, TBin(T, j)) && c.clustered + c.background == |col|
    ensures RowSoFar(reports + [Report(i, j, lR, TBin(T, j), c)], col, i, lR, T, j + 1, counted)
  {
  }

  /** The T loop of `ScanRT` for R bin `i` at radius `lR`: the clusters are
      cleared, then for each T bin from `T.max` down: a step, the check when
      validating, and the report. */
  method ScanT(w: World, scores: seq<seq<real>>, i: nat, lR: real, T: Bounds, validate: bool,
               score: Cluster -> real, ps: seq<Proxy>, counts: Counts)
    returns (r: Result<seq<Report>, string>, ps': seq<Proxy>, counts': Counts)
    requires WorldOk(w, |ps|) && |scores| == |ps| && |ps| < SizeLimit
    requires forall k :: 0 <= k < |scores| ==> i < |scores[k]|
    ensures |ps'| == |ps|
    ensures !validate || Sound(w, T) ==> r.Ok?
    ensures r.Ok? ==> RowSoFar(r.value, Column(scores, i), i, lR, T, T.bins, Sound(w, T))
  {
    var reach := 4.0 * lR * lR;
    var col := Column(scores, i);
    ResetIsClean(w, reach, ps);
    var st := Reset(ps);
    var lT := T.max;
    var reports: seq<Report> := [];
    counts' := counts;
    var j := 0;
    while j != T.bins
      invariant j <= T.bins && lT == TBin(T, j)
      invariant StateOk(w, st) && |st.proxies| == |ps|
      invariant RowSoFar(reports, col, i, lR, T, j, Sound(w, T))
      invariant Sound(w, T) ==> Consistent(w, reach, st) && Admits(st, col, lT)
    {
      st, counts' := Step(w, reach, col, lT, st, counts', score);
      if Sound(w, T) {
        AdmitsLower(st, col, lT, lT - T.spacing);
      }
      if validate {
        var c := Check(w, reach, st, counts');
        if c.Err? {
          return Err(c.error), st.proxies, counts';
        }
      }
      RowExtends(reports, col, i, lR, T, j, Sound(w, T), counts');
      reports := reports + [Report(i, j, lR, lT, counts')];
      NextBin(T, j);
      lT := lT - T.spacing;
      j := j + 1;
    }
    return Ok(reports), st.proxies, counts';
  }

  /** The radius of R bin `i`: `R.min + i * R.spacing`. */
  function RBin(R: Bounds, i: nat): real
  {
    R.min + i as real * R.spacing
  }

  /** `lR += dR` with `dR = P * R.spacing` moves from R bin `i` to bin `i + P`. */
  lemma Stride(R: Bounds, i: nat, p: nat)
    ensures RBin(R, i) + p as real * R.spacing == RBin(R, i + p)
  {
  }

  /** One more R bin's reports extend the schedule by its row. */
  lemma ScheduleGrows(done: seq<nat>, i: nat, tbins: nat)
    ensures Schedule(done + [i], tbins) == Schedule(done, tbins) + Row(i, tbins)
  {
    assert (done + [i])[..|done|] == done;
  }

  lemma KeysAppend(a: seq<Report>, b: seq<Report>)
    ensures Keys(a + b) == Keys(a) + Keys(b)
  {
  }

  /** The reports of R bin `i`, appended, keep every report faithful and
      extend the keys by the bin's row. */
  lemma RowAppended(reports: seq<Report>, more: seq<Report>, scores: seq<seq<real>>, R: Bounds, T: Bounds,
                    i: nat, counted: bool)
    requires Faithful(reports, scores, R, T, counted)
    requires i < R.bins && forall p :: 0 <= p < |scores| ==> R.bins <= |scores[p]|
    requires RowSoFar(more, Column(scores, i), i, RBin(R, i), T, T.bins, counted)
    ensures Faithful(reports + more, scores, R, T, counted)
    ensures Keys(reports + more) == Keys(reports) + Row(i, T.bins)
  {
    assert Keys(more) == Row(i, T.bins);
    KeysAppend(reports, more);
  }

  /** One R bin of `ScanRT`: its reports extend the schedule by the bin's row
      and keep every report faithful. */
  lemma ScanRTStep(w: World, scores: seq<seq<real>>, R: Bounds, T: Bounds, i: nat,
                   done: seq<nat>, reports: seq<Report>, more: seq<Report>)
    requires i < R.bins && forall k :: 0 <= k < |scores| ==> R.bins <= |scores[k]|
    requires Keys(reports) == Schedule(done, T.bins) && Faithful(reports, scores, R, T, Sound(w, T))
    requires RowSoFar(more, Column(scores, i), i, RBin(R, i), T, T.bins, Sound(w, T))
    ensures Keys(reports + more) == Schedule(done + [i], T.bins)
    ensures Faithful(reports + more, scores, R, T, Sound(w, T))
  {
    RowAppended(reports, more, scores, R, T, i, Sound(w, T));
    ScheduleGrows(done, i, T.bins);
  }

  /** The bin `i` leaves the front of the strided sequence. */
  lemma StridedStep(bins: nat, P: nat, offset: nat, i: nat, done: seq<nat>)
    requires P > 0 && i < bins && Strided(bins, P, offset) == done + Strided(bins, P, i)
    ensures Strided(bins, P, offset) == (done + [i]) + Strided(bins, P, i + P)
  {
    var rest := Strided(bins, P, i + P);
    assert Strided(bins, P, i) == [i] + rest;
    ConcatAssoc(done, [i], rest);
  }

  lemma ConcatAssoc<A>(a: seq<A>, b: seq<A>, c: seq<A>)
    ensures a + (b + c) == (a + b) + c
  {
  }

  /** `RoIproxy::ScanRT` with stride `P` from bin `offset`: R bins `offset`,
      `offset + P`, ... below `R.bins`, at radius `R.min + i * R.spacing`,
      each scanned over all T bins from a cleared state; the clusters are
      cleared at the end. A failed check ends the scan with its error. The
      reports follow the schedule, carry the R and T of their bins, and, over
      mutual neighbour lists with sigma bins and a threshold that never rises,
      every check passes and the background of each step is the number of
      points scoring below its threshold. A stride of 0 ends the loop only
      when the offset is already past the last bin; otherwise `i` never moves
      and the scan does not return. */
  method ScanRT(w: World, scores: seq<seq<real>>, R: Bounds, T: Bounds, P: nat, offset: nat, validate: bool,
                score: Cluster -> real, ps: seq<Proxy>, counts: Counts)
    returns (r: Result<seq<Report>, string>, ps': seq<Proxy>)
    requires P > 0 || offset >= R.bins
    requires WorldOk(w, |ps|) && |scores| == |ps| && |ps| < SizeLimit
    requires forall k :: 0 <= k < |scores| ==> R.bins <= |scores[k]|
    ensures !validate || Sound(w, T) ==> r.Ok?
    ensures r.Ok? ==> Keys(r.value) == Schedule(Strided(R.bins, P, offset), T.bins)
    ensures r.Ok? ==> Faithful(r.value, scores, R, T, Sound(w, T))
    ensures r.Ok? ==> |ps'| == |ps| && forall k :: 0 <= k < |ps'| ==> ps'[k].cluster.None?
  {
    var dR := P as real * R.spacing;
    var lR := RBin(R, offset);
    var i := offset;
    ghost var done: seq<nat> := [];
    var reports: seq<Report> := [];
    var cur, cnt := ps, counts;
    while i < R.bins
      invariant P > 0 || i >= R.bins
      invariant Strided(R.bins, P, offset) == done + Strided(R.bins, P, i)
      invariant lR == RBin(R, i)
      invariant |cur| == |ps|
      invariant Keys(reports) == Schedule(done, T.bins)
      invariant Faithful(reports, scores, R, T, Sound(w, T))
      decreases R.bins - i
    {
      assert P > 0;
      var res, cur', cnt' := ScanT(w, scores, i, lR, T, validate, score, cur, cnt);
      if res.Err? {
        return Err(res.error), cur';
      }
      ScanRTStep(w, scores, R, T, i, done, reports, res.value);
      StridedStep(R.bins, P, offset, i, done);
      Stride(R, i, P);
      reports := reports + res.value;
      done := done + [i];
      lR := lR + dR;
      i := i + P;
      cur, cnt := cur', cnt';
    }
    assert done + Strided(R.bins, P, i) == done;
    ResetClears(cur);
    return Ok(reports), Reset(cur).proxies;
  }

  /** `RoIproxy::Clusterize(R, T)`: a cleared state, every point excluded
      whose localisation score at `R` is below `T`, one pass at `4 R^2`, and
      the score update. Exactly the points scoring at least `T` end up
      clustered; over mutual neighbour lists with sigma bins the check
      passes, and the background is the number of points scoring below `T`. */
  method ClusterizeAt(w: World, R: real, T: real, localScores: seq<real>, ps: seq<Proxy>, counts: Counts,
                      score: Cluster -> real)
    returns (st: State, counts': Counts)
    requires WorldOk(w, |ps|) && |localScores| == |ps| && |ps| < SizeLimit
    ensures StateOk(w, st) && |st.proxies| == |ps|
    ensures forall k :: 0 <= k < |ps| ==> (st.proxies[k].cluster.Some? <==> localScores[k] >= T)
    ensures Mutual(w) && w.sigmaCount > 0 ==>
              Check(w, 4.0 * R * R, st, counts') == Ok(()) && counts'.background == Below(localScores, T) &&
              counts'.clustered == |ps| - Below(localScores, T)
  {
    var reach := 4.0 * R * R;
    ResetIsClean(w, reach, ps);
    var s0 := Reset(ps);
    st, counts' := Step(w, reach, localScores, T, s0, counts, score);
  }
}
