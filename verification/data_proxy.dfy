/** `DataProxy`: a data point's view during one clusterization, holding its
    cluster (an arena index, or none) and its exclusion flag, and the
    depth-first growth of `DataProxy.cpp`. Proxy k stands for data point k,
    whose one-point cluster and neighbour list are given by a `World`.

    The growth keeps four facts, proved here: the arena stays a forest whose
    links point to newer clusters; the sizes of all clusters add up to the
    number of clustered proxies; roots only ever merge (a proxy's root after a
    step is the new root of its old root); and a proxy that the step clusters
    shares its root with every included neighbour before the first one beyond
    the clustering radius. */
module DataProxies {
  import opened Wrappers
  import opened Clusters
  import Neighbours

  /** `DataProxy`: its cluster and whether it is excluded. */
  datatype Proxy = Proxy(cluster: Option<nat>, exclude: bool)

  /** `DataProxy(Data&)`: no cluster. `mExclude` is not initialised there, so
      the flag is whatever the caller gives. */
  function NewProxy(exclude: bool): Proxy
  {
    Proxy(None, exclude)
  }

  /** `DataProxy::GetCluster`: no cluster for an unclustered proxy; otherwise
      the root of its cluster, with the chain compressed and the proxy pointed
      at the root. */
  function GetCluster(a: seq<Cluster>, p: Proxy): (seq<Cluster>, Proxy, Option<nat>)
    requires Forest(Links(a)) && (p.cluster.Some? ==> p.cluster.value < |a|)
  {
    match p.cluster
    case None => (a, p, None)
    case Some(c) =>
      var (a', r) := GetParent(a, c);
      (a', p.(cluster := Some(r)), Some(r))
  }

  /** `GetCluster` answers none exactly for an unclustered proxy and otherwise
      the root; it changes only the proxy's cluster, which becomes the answer,
      and a second call gives the same answer and changes nothing. */
  lemma GetClusterIsRoot(a: seq<Cluster>, p: Proxy)
    requires Forest(Links(a)) && (p.cluster.Some? ==> p.cluster.value < |a|)
    ensures var (a', p', r) := GetCluster(a, p);
            (r.None? <==> p.cluster.None?) &&
            (p.cluster.Some? ==> r == Some(Root(Links(a), p.cluster.value))) &&
            p'.exclude == p.exclude && p'.cluster == r &&
            Forest(Links(a')) && GetCluster(a', p') == (a', p', r)
  {
    if p.cluster.Some? {
      var c := p.cluster.value;
      GetParentIdempotent(a, c);
      var (a', r) := GetParent(a, c);
      GetParentKeepsRoots(a, c, r);
      assert a'[r].parent == None by {
        assert Root(Links(a'), r) == r;
      }
    }
  }

  // ---------------------------------------------------------------- counting

  /** The sum of the cluster sizes. */
  function Total(a: seq<Cluster>): nat
  {
    if a == [] then 0 else Total(a[..|a| - 1]) + a[|a| - 1].size
  }

  /** The number of proxies with a cluster. */
  function Clustered(ps: seq<Proxy>): (n: nat)
    ensures n <= |ps|
  {
    if ps == [] then 0 else Clustered(ps[..|ps| - 1]) + if ps[|ps| - 1].cluster.Some? then 1 else 0
  }

  function Unclustered(ps: seq<Proxy>): nat
  {
    |ps| - Clustered(ps)
  }

  lemma {:induction false} TotalUpdate(a: seq<Cluster>, k: nat, x: Cluster)
    requires k < |a|
    ensures Total(a[k := x]) == Total(a) - a[k].size + x.size
  {
    if k < |a| - 1 {
      assert a[k := x][..|a| - 1] == a[..|a| - 1][k := x];
      TotalUpdate(a[..|a| - 1], k, x);
    } else {
      assert a[k := x][..|a| - 1] == a[..|a| - 1];
    }
  }

  lemma TotalAppend(a: seq<Cluster>, x: Cluster)
    ensures Total(a + [x]) == Total(a) + x.size
  {
    assert (a + [x])[..|a|] == a;
  }

  lemma {:induction false} TotalSameSizes(a: seq<Cluster>, b: seq<Cluster>)
    requires |a| == |b| && forall k :: 0 <= k < |a| ==> a[k].size == b[k].size
    ensures Total(a) == Total(b)
  {
    if a != [] {
      TotalSameSizes(a[..|a| - 1], b[..|b| - 1]);
    }
  }

  lemma {:induction false} ClusteredUpdate(ps: seq<Proxy>, k: nat, q: Proxy)
    requires k < |ps|
    ensures Clustered(ps[k := q]) ==
            Clustered(ps) - (if ps[k].cluster.Some? then 1 else 0) + (if q.cluster.Some? then 1 else 0)
  {
    if k < |ps| - 1 {
      assert ps[k := q][..|ps| - 1] == ps[..|ps| - 1][k := q];
      ClusteredUpdate(ps[..|ps| - 1], k, q);
    } else {
      assert ps[k := q][..|ps| - 1] == ps[..|ps| - 1];
    }
  }

  // ---------------------------------------------------------------- state

  /** The arena of clusters and the proxies. */
  datatype State = State(clusters: seq<Cluster>, proxies: seq<Proxy>)

  /** What the growth reads: each point's one-point cluster and neighbour list
      (squared distance and index), and the number of sigma hypotheses. */
  datatype World = World(protos: seq<Cluster>, neighbours: seq<seq<Neighbours.Entry>>, sigmaCount: nat)

  ghost predicate WorldOk(w: World, n: nat)
  {
    |w.protos| == n && |w.neighbours| == n &&
    (forall k :: 0 <= k < n ==> |w.protos[k].params| == w.sigmaCount && w.protos[k].size == 1) &&
    (forall k, e :: 0 <= k < n && 0 <= e < |w.neighbours[k]| ==> w.neighbours[k][e].1 < n)
  }

  ghost predicate StateOk(w: World, st: State)
  {
    Forest(Links(st.clusters)) &&
    (forall k :: 0 <= k < |st.proxies| && st.proxies[k].cluster.Some? ==> st.proxies[k].cluster.value < |st.clusters|) &&
    (forall k :: 0 <= k < |st.clusters| ==> |st.clusters[k].params| == w.sigmaCount) &&
    Total(st.clusters) == Clustered(st.proxies)
  }

  /** `c` is the cluster being grown: the newest, and a root. */
  predicate Newest(st: State, c: nat)
  {
    c + 1 == |st.clusters| && st.clusters[c].parent.None?
  }

  /** The root of a proxy's cluster. */
  ghost function RootOf(w: World, st: State, j: nat): Option<nat>
    requires StateOk(w, st) && j < |st.proxies|
  {
    match st.proxies[j].cluster
    case None => None
    case Some(k) => Some(Root(Links(st.clusters), k))
  }

  /** Flags stay; clustered proxies stay clustered; excluded unclustered ones
      stay unclustered. */
  ghost predicate Kept(st: State, st': State)
  {
    |st'.proxies| == |st.proxies| &&
    forall j :: 0 <= j < |st.proxies| ==>
      st'.proxies[j].exclude == st.proxies[j].exclude &&
      (st.proxies[j].cluster.Some? ==> st'.proxies[j].cluster.Some?) &&
      (st.proxies[j].cluster.None? && st.proxies[j].exclude ==> st'.proxies[j].cluster.None?)
  }

  /** Roots only merge: the new root of every old cluster is the new root of
      its old root. */
  ghost predicate Coarser(l1: seq<Option<nat>>, l2: seq<Option<nat>>)
  {
    Forest(l1) && Forest(l2) && |l1| <= |l2| &&
    forall x :: 0 <= x < |l1| ==> Root(l2, x) == Root(l2, Root(l1, x))
  }

  /** Every clustered proxy's new root is the new root of its old cluster. */
  ghost predicate Tracks(w: World, st: State, st': State)
    requires StateOk(w, st) && StateOk(w, st') && |st.clusters| <= |st'.clusters| && |st.proxies| == |st'.proxies|
  {
    forall j :: 0 <= j < |st.proxies| && st.proxies[j].cluster.Some? ==>
      RootOf(w, st', j) == Some(Root(Links(st'.clusters), st.proxies[j].cluster.value))
  }

  /** The number of neighbours before the first one beyond `reach`: the
      neighbour loops stop there. */
  function Reach(ns: seq<Neighbours.Entry>, reach: real): (m: nat)
    ensures m <= |ns| && (m < |ns| ==> ns[m].0 > reach)
    ensures forall e :: 0 <= e < m ==> ns[e].0 <= reach
  {
    if ns == [] || ns[0].0 > reach then 0 else 1 + Reach(ns[1..], reach)
  }

  /** A clustered proxy sharing its root with every included neighbour within
      reach. */
  ghost predicate Closed(w: World, reach: real, st: State, j: nat)
    requires WorldOk(w, |st.proxies|) && StateOk(w, st) && j < |st.proxies|
  {
    st.proxies[j].cluster.Some? &&
    forall e :: 0 <= e < Reach(w.neighbours[j], reach) && !st.proxies[w.neighbours[j][e].1].exclude ==>
      RootOf(w, st, w.neighbours[j][e].1) == RootOf(w, st, j)
  }

  // ---------------------------------------------------------------- step lemmas

  lemma RootIsFixed(ls: seq<Option<nat>>, x: nat)
    requires Forest(ls) && x < |ls|
    ensures Root(ls, Root(ls, x)) == Root(ls, x)
  {
  }

  lemma CoarserSelf(l: seq<Option<nat>>)
    requires Forest(l)
    ensures Coarser(l, l)
  {
    forall x | 0 <= x < |l|
      ensures Root(l, x) == Root(l, Root(l, x))
    {
      RootIsFixed(l, x);
    }
  }

  lemma CoarserChain(l1: seq<Option<nat>>, l2: seq<Option<nat>>, l3: seq<Option<nat>>)
    requires Coarser(l1, l2) && Coarser(l2, l3)
    ensures Coarser(l1, l3)
  {
    forall x | 0 <= x < |l1|
      ensures Root(l3, x) == Root(l3, Root(l1, x))
    {
      var y := Root(l1, x);
      assert Root(l3, x) == Root(l3, Root(l2, x));
      assert Root(l3, y) == Root(l3, Root(l2, y));
      assert Root(l2, x) == Root(l2, y);
    }
  }

  /** Composing two steps. */
  lemma StepsChain(w: World, s1: State, s2: State, s3: State)
    requires StateOk(w, s1) && StateOk(w, s2) && StateOk(w, s3)
    requires |s1.proxies| == |s2.proxies| == |s3.proxies|
    requires Kept(s1, s2) && Kept(s2, s3)
    requires Coarser(Links(s1.clusters), Links(s2.clusters)) && Coarser(Links(s2.clusters), Links(s3.clusters))
    requires Tracks(w, s1, s2) && Tracks(w, s2, s3)
    ensures Kept(s1, s3) && Coarser(Links(s1.clusters), Links(s3.clusters)) && Tracks(w, s1, s3)
  {
    var l1, l2, l3 := Links(s1.clusters), Links(s2.clusters), Links(s3.clusters);
    CoarserChain(l1, l2, l3);
    forall j | 0 <= j < |s1.proxies| && s1.proxies[j].cluster.Some?
      ensures RootOf(w, s3, j) == Some(Root(l3, s1.proxies[j].cluster.value))
    {
      var k1, k2 := s1.proxies[j].cluster.value, s2.proxies[j].cluster.value;
      assert Root(l2, k2) == Root(l2, k1);
      assert Root(l3, k2) == Root(l3, Root(l2, k2));
      assert Root(l3, k1) == Root(l3, Root(l2, k1));
    }
  }

  /** A closed proxy stays closed through a step that only merges roots. */
  lemma ClosedKept(w: World, reach: real, s1: State, s2: State, j: nat)
    requires WorldOk(w, |s1.proxies|) && StateOk(w, s1) && StateOk(w, s2) && j < |s1.proxies|
    requires |s1.clusters| <= |s2.clusters| && |s1.proxies| == |s2.proxies|
    requires Kept(s1, s2) && Coarser(Links(s1.clusters), Links(s2.clusters)) && Tracks(w, s1, s2)
    requires Closed(w, reach, s1, j)
    ensures Closed(w, reach, s2, j)
  {
    var l1, l2 := Links(s1.clusters), Links(s2.clusters);
    var ns := w.neighbours[j];
    forall e | 0 <= e < Reach(ns, reach) && !s2.proxies[ns[e].1].exclude
      ensures RootOf(w, s2, ns[e].1) == RootOf(w, s2, j)
    {
      var x := ns[e].1;
      var kx, kj := s1.proxies[x].cluster.value, s1.proxies[j].cluster.value;
      assert Root(l2, kx) == Root(l2, Root(l1, kx));
      assert Root(l2, kj) == Root(l2, Root(l1, kj));
    }
  }

  /** Compression keeps every root: the links only get shorter. */
  lemma CompressLinks(a: seq<Cluster>, k: nat, c: nat)
    requires Forest(Links(a)) && k < |a| && c < |a| && a[c].parent.None?
    ensures var (a', r) := GetParent(a, k);
            Forest(Links(a')) && Coarser(Links(a), Links(a')) && a'[r].parent.None? && a'[c].parent.None? &&
            forall x :: 0 <= x < |a| ==> Root(Links(a'), x) == Root(Links(a), x)
  {
    var (a', r) := GetParent(a, k);
    var l, la := Links(a), Links(a');
    GetParentKeepsRoots(a, k, k);
    forall x | 0 <= x < |a|
      ensures Root(la, x) == Root(l, x)
    {
      GetParentKeepsRoots(a, k, x);
    }
    assert Root(la, c) == c;
    assert Root(la, r) == r;
    forall x | 0 <= x < |l|
      ensures Root(la, x) == Root(la, Root(l, x))
    {
      RootIsFixed(l, x);
    }
  }

  /** Compression keeps every cluster's statistics, hence the total size. */
  lemma CompressSizes(a: seq<Cluster>, k: nat)
    requires Forest(Links(a)) && k < |a|
    ensures var a' := GetParent(a, k).0;
            Total(a') == Total(a) && forall x :: 0 <= x < |a| ==> a'[x].params == a[x].params
  {
    var a' := GetParent(a, k).0;
    forall x | 0 <= x < |a|
      ensures a'[x] == a[x].(parent := a'[x].parent)
    {
      GetParentKeepsStatistics(a, k, x);
    }
    TotalSameSizes(a, a');
  }

  /** Following a proxy's chain (the first half of a merge or of a revisit):
      roots, sizes and counts are unchanged, and the proxy points at its root. */
  lemma CompressStep(w: World, st: State, idx: nat, c: nat)
    requires StateOk(w, st) && Newest(st, c) && idx < |st.proxies| && st.proxies[idx].cluster.Some?
    ensures var (a, r) := GetParent(st.clusters, st.proxies[idx].cluster.value);
            var s1 := State(a, st.proxies[idx := st.proxies[idx].(cluster := Some(r))]);
            StateOk(w, s1) && Newest(s1, c) && Kept(st, s1) && Tracks(w, st, s1) &&
            Coarser(Links(st.clusters), Links(a)) && Unclustered(s1.proxies) == Unclustered(st.proxies) &&
            a[r].parent.None? && RootOf(w, s1, idx) == Some(r)
  {
    var k := st.proxies[idx].cluster.value;
    var (a, r) := GetParent(st.clusters, k);
    var p' := st.proxies[idx].(cluster := Some(r));
    CompressLinks(st.clusters, k, c);
    CompressSizes(st.clusters, k);
    ClusteredUpdate(st.proxies, idx, p');
    assert forall j :: 0 <= j < |st.proxies| && j != idx ==> st.proxies[idx := p'][j] == st.proxies[j];
  }

  /** Attaching root `r` under root `c`: every cluster whose root was `r` now
      has root `c`, and no other root changes. */
  lemma {:induction false} Attach(ls: seq<Option<nat>>, r: nat, c: nat, x: nat)
    requires Forest(ls) && r < c < |ls| && x < |ls| && ls[r].None? && ls[c].None?
    ensures Forest(ls[r := Some(c)])
    ensures Root(ls[r := Some(c)], x) == if Root(ls, x) == r then c else Root(ls, x)
    decreases |ls| - x
  {
    var ls' := ls[r := Some(c)];
    assert Forest(ls');
    if x == r {
      assert Root(ls', c) == c;
    } else if ls[x].Some? {
      Attach(ls, r, c, ls[x].value);
    }
  }

  /** Attaching root `r` under the newest root `c` keeps a forest and only
      merges roots: `r` now ends at `c`. */
  lemma MergeLinks(l: seq<Option<nat>>, r: nat, c: nat)
    requires Forest(l) && r < c && c + 1 == |l| && l[r].None? && l[c].None?
    ensures Forest(l[r := Some(c)]) && Coarser(l, l[r := Some(c)])
    ensures Root(l[r := Some(c)], r) == c && Root(l[r := Some(c)], c) == c
  {
    var l3 := l[r := Some(c)];
    Attach(l, r, c, r);
    forall x | 0 <= x < |l|
      ensures Root(l3, x) == Root(l3, Root(l, x))
    {
      Attach(l, r, c, x);
      Attach(l, r, c, Root(l, x));
    }
  }

  /** Merging `r` into `c` moves its size to `c`: the total stays. */
  lemma MergeCounts(a: seq<Cluster>, r: nat, c: nat)
    requires r < |a| && c < |a| && r != c && |a[r].params| == |a[c].params|
    ensures var merged := a[c := AddCluster(a[c], a[r])];
            var a3 := merged[r := merged[r].(parent := Some(c), size := 0)];
            Total(a3) == Total(a) && Links(a3) == Links(a)[r := Some(c)] &&
            forall x :: 0 <= x < |a| ==> |a3[x].params| == |a[x].params|
  {
    var merged := a[c := AddCluster(a[c], a[r])];
    TotalUpdate(a, c, AddCluster(a[c], a[r]));
    TotalUpdate(merged, r, merged[r].(parent := Some(c), size := 0));
  }

  /** The second half of a merge: root `r` adds its statistics to `c`, takes
      `c` as parent, and drops to size 0; the proxy points at `c`. */
  lemma MergeStep(w: World, s1: State, idx: nat, r: nat, c: nat)
    requires StateOk(w, s1) && Newest(s1, c) && idx < |s1.proxies|
    requires r < |s1.clusters| && r != c && s1.clusters[r].parent.None? && s1.proxies[idx].cluster == Some(r)
    ensures var a := s1.clusters;
            var merged := a[c := AddCluster(a[c], a[r])];
            var a3 := merged[r := merged[r].(parent := Some(c), size := 0)];
            var s3 := State(a3, s1.proxies[idx := s1.proxies[idx].(cluster := Some(c))]);
            StateOk(w, s3) && Newest(s3, c) && Kept(s1, s3) && Tracks(w, s1, s3) &&
            Coarser(Links(a), Links(a3)) && Unclustered(s3.proxies) == Unclustered(s1.proxies) &&
            RootOf(w, s3, idx) == Some(c)
  {
    var a := s1.clusters;
    var p' := s1.proxies[idx].(cluster := Some(c));
    MergeCounts(a, r, c);
    MergeLinks(Links(a), r, c);
    ClusteredUpdate(s1.proxies, idx, p');
    assert forall j :: 0 <= j < |s1.proxies| && j != idx ==> s1.proxies[idx := p'][j] == s1.proxies[j];
  }

  /** Joining an unclustered, included proxy: its one-point cluster is added
      to `c` and it points at `c`. */
  lemma JoinStep(w: World, st: State, idx: nat, c: nat)
    requires WorldOk(w, |st.proxies|) && StateOk(w, st) && Newest(st, c) && idx < |st.proxies|
    requires st.proxies[idx].cluster.None? && !st.proxies[idx].exclude
    ensures var a := st.clusters[c := AddCluster(st.clusters[c], w.protos[idx])];
            var s1 := State(a, st.proxies[idx := st.proxies[idx].(cluster := Some(c))]);
            StateOk(w, s1) && Newest(s1, c) && Kept(st, s1) && Tracks(w, st, s1) &&
            Coarser(Links(st.clusters), Links(a)) && Unclustered(s1.proxies) < Unclustered(st.proxies) &&
            RootOf(w, s1, idx) == Some(c)
  {
    var a := st.clusters[c := AddCluster(st.clusters[c], w.protos[idx])];
    var p' := st.proxies[idx].(cluster := Some(c));
    assert Links(a) == Links(st.clusters);
    TotalUpdate(st.clusters, c, AddCluster(st.clusters[c], w.protos[idx]));
    ClusteredUpdate(st.proxies, idx, p');
    CoarserSelf(Links(a));
    assert forall j :: 0 <= j < |st.proxies| && j != idx ==> st.proxies[idx := p'][j] == st.proxies[j];
    assert Root(Links(a), c) == c;
  }

  // ---------------------------------------------------------------- growth

  /** Every proxy other than `idx` that was unclustered in `st` and is
      clustered in `cur` is closed in `cur`. */
  ghost predicate FreshClosed(w: World, reach: real, st: State, cur: State, idx: nat)
    requires WorldOk(w, |cur.proxies|) && StateOk(w, cur) && |st.proxies| == |cur.proxies|
  {
    forall j :: 0 <= j < |st.proxies| && j != idx && st.proxies[j].cluster.None? && cur.proxies[j].cluster.Some? ==>
      Closed(w, reach, cur, j)
  }

  /** What one call of the recursive growth guarantees. */
  ghost predicate Grown(w: World, reach: real, st: State, st': State, c: nat)
    requires WorldOk(w, |st.proxies|) && StateOk(w, st)
  {
    StateOk(w, st') && Newest(st', c) && |st'.clusters| == |st.clusters| &&
    Kept(st, st') && Coarser(Links(st.clusters), Links(st'.clusters)) && Tracks(w, st, st') &&
    Unclustered(st'.proxies) <= Unclustered(st.proxies) &&
    forall j :: 0 <= j < |st.proxies| && st.proxies[j].cluster.None? && st'.proxies[j].cluster.Some? ==>
      Closed(w, reach, st', j)
  }

  /** Revisiting a clustered proxy: its chain is compressed, and a root other
      than `c` takes `c` as parent, handing over its statistics and its size. */
  function Rejoin(st: State, idx: nat, c: nat): State
    requires Forest(Links(st.clusters)) && idx < |st.proxies| && c < |st.clusters|
    requires st.proxies[idx].cluster.Some? && st.proxies[idx].cluster.value < |st.clusters|
    requires forall k :: 0 <= k < |st.clusters| ==> |st.clusters[k].params| == |st.clusters[c].params|
  {
    var p := st.proxies[idx];
    var (a, r) := GetParent(st.clusters, p.cluster.value);
    GetParentKeepsStatistics(st.clusters, p.cluster.value, r);
    GetParentKeepsStatistics(st.clusters, p.cluster.value, c);
    if r == c then State(a, st.proxies[idx := p.(cluster := Some(r))])
    else
      var merged := a[c := AddCluster(a[c], a[r])];
      State(merged[r := merged[r].(parent := Some(c), size := 0)], st.proxies[idx := p.(cluster := Some(c))])
  }

  /** A revisit puts the proxy under `c`, keeps the total size and clusters
      no one new. */
  lemma RejoinGrown(w: World, reach: real, st: State, idx: nat, c: nat)
    requires WorldOk(w, |st.proxies|) && StateOk(w, st) && Newest(st, c) && idx < |st.proxies|
    requires st.proxies[idx].cluster.Some?
    ensures Grown(w, reach, st, Rejoin(st, idx, c), c)
    ensures RootOf(w, Rejoin(st, idx, c), idx) == Some(c)
    ensures Total(Rejoin(st, idx, c).clusters) == Total(st.clusters)
  {
    var p := st.proxies[idx];
    CompressStep(w, st, idx, c);
    var (a, r) := GetParent(st.clusters, p.cluster.value);
    var s1 := State(a, st.proxies[idx := p.(cluster := Some(r))]);
    var st' := Rejoin(st, idx, c);
    if r == c {
      assert st' == s1;
    } else {
      MergeStep(w, s1, idx, r, c);
      var merged := a[c := AddCluster(a[c], a[r])];
      var ps := s1.proxies[idx := s1.proxies[idx].(cluster := Some(c))];
      assert ps == st.proxies[idx := p.(cluster := Some(c))];
      assert st' == State(merged[r := merged[r].(parent := Some(c), size := 0)], ps);
      StepsChain(w, st, s1, st');
    }
    assert forall j :: 0 <= j < |st.proxies| && j != idx ==> st'.proxies[j] == st.proxies[j];
  }

  /** Leaving the state alone is a growth step. */
  lemma StayGrown(w: World, reach: real, st: State, c: nat)
    requires WorldOk(w, |st.proxies|) && StateOk(w, st) && Newest(st, c)
    ensures Grown(w, reach, st, st, c)
  {
    CoarserSelf(Links(st.clusters));
  }

  /** The recursive `DataProxy::Clusterize`, growing cluster `c`:
      - a clustered proxy already under `c` only has its chain compressed;
      - a clustered proxy under another root merges that root into `c`, with
        no recursion;
      - an unclustered, excluded proxy is left alone;
      - an unclustered, included proxy joins `c`, then its neighbours are
        visited in list order up to the first one beyond `reach`.
      Afterwards the proxy is under `c` unless it was left alone. */
  method Visit(w: World, reach: real, st: State, idx: nat, c: nat) returns (st': State)
    requires WorldOk(w, |st.proxies|) && StateOk(w, st) && Newest(st, c) && idx < |st.proxies|
    ensures Grown(w, reach, st, st', c)
    ensures st.proxies[idx].cluster.None? && st.proxies[idx].exclude ==> st' == st
    ensures st.proxies[idx].cluster.Some? || !st.proxies[idx].exclude ==> RootOf(w, st', idx) == Some(c)
    ensures st.proxies[idx].cluster.Some? ==> Total(st'.clusters) == Total(st.clusters)
    decreases Unclustered(st.proxies), 1
  {
    if st.proxies[idx].cluster.Some? {
      RejoinGrown(w, reach, st, idx, c);
      st' := Rejoin(st, idx, c);
    } else if st.proxies[idx].exclude {
      StayGrown(w, reach, st, c);
      st' := st;
    } else {
      st' := Grow(w, reach, st, idx, c);
    }
  }

  /** The neighbour loop's invariant after `e` neighbours of `idx`: the state
      is a growth of `st` that has clustered `idx` under `c`, every included
      neighbour visited so far is under `c`, and every other proxy it
      clustered is closed. */
  ghost predicate Progress(w: World, reach: real, st: State, cur: State, idx: nat, c: nat, e: nat)
    requires WorldOk(w, |st.proxies|) && StateOk(w, st) && idx < |st.proxies|
  {
    var ns := w.neighbours[idx];
    StateOk(w, cur) && Newest(cur, c) && |cur.proxies| == |st.proxies| && |cur.clusters| == |st.clusters| &&
    Kept(st, cur) && Coarser(Links(st.clusters), Links(cur.clusters)) && Tracks(w, st, cur) &&
    Unclustered(cur.proxies) < Unclustered(st.proxies) && RootOf(w, cur, idx) == Some(c) &&
    (forall f :: 0 <= f < e && f < |ns| && !cur.proxies[ns[f].1].exclude ==> RootOf(w, cur, ns[f].1) == Some(c)) &&
    FreshClosed(w, reach, st, cur, idx)
  }

  /** Joining `idx` starts the loop. */
  lemma GrowStart(w: World, reach: real, st: State, idx: nat, c: nat)
    requires WorldOk(w, |st.proxies|) && StateOk(w, st) && Newest(st, c) && idx < |st.proxies|
    requires st.proxies[idx].cluster.None? && !st.proxies[idx].exclude
    ensures Progress(w, reach, st, State(st.clusters[c := AddCluster(st.clusters[c], w.protos[idx])],
                                         st.proxies[idx := st.proxies[idx].(cluster := Some(c))]), idx, c, 0)
  {
    JoinStep(w, st, idx, c);
    var cur := State(st.clusters[c := AddCluster(st.clusters[c], w.protos[idx])],
                     st.proxies[idx := st.proxies[idx].(cluster := Some(c))]);
    assert forall j :: 0 <= j < |st.proxies| && j != idx ==> cur.proxies[j] == st.proxies[j];
  }

  /** With every neighbour within reach visited, the growth is complete and
      `idx` itself is closed. */
  lemma GrowEnd(w: World, reach: real, st: State, cur: State, idx: nat, c: nat)
    requires WorldOk(w, |st.proxies|) && StateOk(w, st) && idx < |st.proxies|
    requires Progress(w, reach, st, cur, idx, c, Reach(w.neighbours[idx], reach))
    ensures Grown(w, reach, st, cur, c) && RootOf(w, cur, idx) == Some(c)
  {
    assert Closed(w, reach, cur, idx);
  }

  /** An unclustered, included proxy joins `c`; then each neighbour in list
      order is visited, up to the first one beyond `reach`. */
  method Grow(w: World, reach: real, st: State, idx: nat, c: nat) returns (st': State)
    requires WorldOk(w, |st.proxies|) && StateOk(w, st) && Newest(st, c) && idx < |st.proxies|
    requires st.proxies[idx].cluster.None? && !st.proxies[idx].exclude
    ensures Grown(w, reach, st, st', c) && RootOf(w, st', idx) == Some(c)
    decreases Unclustered(st.proxies), 0
  {
    GrowStart(w, reach, st, idx, c);
    var cur := State(st.clusters[c := AddCluster(st.clusters[c], w.protos[idx])],
                     st.proxies[idx := st.proxies[idx].(cluster := Some(c))]);
    var ns := w.neighbours[idx];
    var e := 0;
    while e < |ns| && ns[e].0 <= reach
      invariant e <= Reach(ns, reach)
      invariant Progress(w, reach, st, cur, idx, c, e)
      decreases |ns| - e
    {
      var next := Visit(w, reach, cur, ns[e].1, c);
      LoopStep(w, reach, st, cur, next, idx, c, e);
      cur := next;
      e := e + 1;
    }
    GrowEnd(w, reach, st, cur, idx, c);
    st' := cur;
  }

  /** The neighbour loop's invariant survives one recursive visit. */
  lemma LoopStep(w: World, reach: real, st: State, cur: State, next: State, idx: nat, c: nat, e: nat)
    requires WorldOk(w, |st.proxies|) && StateOk(w, st) && idx < |st.proxies|
    requires e < Reach(w.neighbours[idx], reach)
    requires Progress(w, reach, st, cur, idx, c, e)
    requires Grown(w, reach, cur, next, c)
    requires var x := w.neighbours[idx][e].1;
             cur.proxies[x].cluster.Some? || !cur.proxies[x].exclude ==> RootOf(w, next, x) == Some(c)
    ensures Progress(w, reach, st, next, idx, c, e + 1)
  {
    var ns := w.neighbours[idx];
    var l, l' := Links(cur.clusters), Links(next.clusters);
    StepsChain(w, st, cur, next);
    assert Root(l', c) == c;
    forall x | 0 <= x < |cur.proxies| && RootOf(w, cur, x) == Some(c)
      ensures RootOf(w, next, x) == Some(c)
    {
      var k := cur.proxies[x].cluster.value;
      assert Root(l', k) == Root(l', Root(l, k));
    }
    forall j | 0 <= j < |st.proxies| && j != idx && st.proxies[j].cluster.None? && next.proxies[j].cluster.Some?
      ensures Closed(w, reach, next, j)
    {
      if cur.proxies[j].cluster.Some? {
        ClosedKept(w, reach, cur, next, j);
      }
    }
  }

  /** The top-level `DataProxy::Clusterize`: nothing for a clustered or
      excluded proxy; otherwise one new empty cluster is appended and grown
      from this proxy. */
  method Clusterize(w: World, reach: real, st: State, idx: nat) returns (st': State)
    requires WorldOk(w, |st.proxies|) && StateOk(w, st) && idx < |st.proxies|
    ensures StateOk(w, st') && |st'.proxies| == |st.proxies|
    ensures st.proxies[idx].cluster.Some? || st.proxies[idx].exclude ==> st' == st
    ensures st.proxies[idx].cluster.None? && !st.proxies[idx].exclude ==>
              |st'.clusters| == |st.clusters| + 1 && RootOf(w, st', idx) == Some(|st.clusters|)
    ensures |st.clusters| <= |st'.clusters| && Kept(st, st')
    ensures Coarser(Links(st.clusters), Links(st'.clusters)) && Tracks(w, st, st')
    ensures FreshClosed(w, reach, st, st', |st.proxies|)
  {
    var p := st.proxies[idx];
    if p.cluster.Some? || p.exclude {
      CoarserSelf(Links(st.clusters));
      return st;
    }
    var c := |st.clusters|;
    var s1 := State(st.clusters + [EmptyCluster(w.sigmaCount)], st.proxies);
    AppendStep(w, st, EmptyCluster(w.sigmaCount));
    st' := Grow(w, reach, s1, idx, c);
    StepsChain(w, st, s1, st');
  }

  /** Appending a new root leaves every old root where it was. */
  lemma {:induction false} AppendKeepsRoot(ls: seq<Option<nat>>, x: nat)
    requires Forest(ls) && x < |ls|
    ensures Forest(ls + [None]) && Root(ls + [None], x) == Root(ls, x)
    decreases |ls| - x
  {
    if ls[x].Some? {
      AppendKeepsRoot(ls, ls[x].value);
    }
  }

  lemma AppendStep(w: World, st: State, x: Cluster)
    requires StateOk(w, st) && x == EmptyCluster(w.sigmaCount)
    ensures var s1 := State(st.clusters + [x], st.proxies);
            StateOk(w, s1) && Newest(s1, |st.clusters|) && Kept(st, s1) && Tracks(w, st, s1) &&
            Coarser(Links(st.clusters), Links(s1.clusters))
  {
    var l := Links(st.clusters);
    assert Links(st.clusters + [x]) == l + [None];
    TotalAppend(st.clusters, x);
    assert Forest(l + [None]);
    forall y | 0 <= y < |l|
      ensures Root(l + [None], y) == Root(l + [None], Root(l, y))
    {
      AppendKeepsRoot(l, y);
      AppendKeepsRoot(l, Root(l, y));
    }
  }
}
