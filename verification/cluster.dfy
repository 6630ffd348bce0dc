/** `Cluster.cpp`: the per-sigma sufficient statistics of a cluster
    (`Parameter`), the cluster of one data point, merging, the caching guard
    of the score update, and the parent chain with path compression. The
    clusters of a proxy live in one vector, so a parent pointer is modelled as
    an index into the arena of clusters, and the score formulas (logarithms,
    normal integrals) are left to a parameter. */
module Clusters {
  import opened Wrappers
  import opened Points

  /** `Cluster::Parameter`. */
  datatype Parameter = Parameter(A: real, Bx: real, By: real, C: real, logF: real, S2: real)

  /** `Parameter()`: every statistic 0. */
  function ZeroParameter(): Parameter
  {
    Parameter(0.0, 0.0, 0.0, 0.0, 0.0, 0.0)
  }

  /** `Parameter::operator+=`: the five sums add up; `S2` stays. */
  function AddParameter(p: Parameter, q: Parameter): Parameter
  {
    Parameter(p.A + q.A, p.Bx + q.Bx, p.By + q.By, p.C + q.C, p.logF + q.logF, p.S2)
  }

  /** Adding zero changes nothing, sums group either way, and apart from `S2`
      (kept from the left) the order of the two does not matter. */
  lemma AddParameterLaws(p: Parameter, q: Parameter, r: Parameter)
    ensures AddParameter(p, ZeroParameter()) == p
    ensures AddParameter(AddParameter(p, q), r) == AddParameter(p, AddParameter(q, r))
    ensures AddParameter(p, q).(S2 := 0.0) == AddParameter(q, p).(S2 := 0.0)
    ensures AddParameter(AddParameter(p, q), r) == AddParameter(AddParameter(p, r), q)
  {
  }

  /** `Cluster`: one parameter per sigma hypothesis, the current and last
      evaluated sizes, the score, and the parent (an arena index). */
  datatype Cluster = Cluster(params: seq<Parameter>, size: nat, lastSize: nat, score: real, parent: Option<nat>)

  /** `Cluster()`: `sigmaCount` zero parameters, size 0, no parent. */
  function EmptyCluster(sigmaCount: nat): Cluster
  {
    Cluster(seq(sigmaCount, _ => ZeroParameter()), 0, 0, 0.0, None)
  }

  /** `w = 1 / (s^2 + sigma^2)`. */
  function Weight(p: Point, sigma2: real): real
    requires p.s * p.s + sigma2 != 0.0
  {
    1.0 / (p.s * p.s + sigma2)
  }

  /** One sigma hypothesis of a one-point cluster: `A = w`, `Bx = w x`,
      `By = w y`, `C = w r^2`, `logF = log w`. */
  function ProtoParameter(p: Point, sigma2: real, log: real -> real): Parameter
    requires p.s * p.s + sigma2 != 0.0
  {
    var w := Weight(p, sigma2);
    Parameter(w, w * p.x, w * p.y, w * R2(p), log(w), 0.0)
  }

  /** `Cluster(const Data&)`: size 1, last size 0, no parent, and one
      parameter per squared sigma bin. */
  function ProtoCluster(p: Point, sigmas2: seq<real>, log: real -> real): (c: Cluster)
    requires forall i :: 0 <= i < |sigmas2| ==> p.s * p.s + sigmas2[i] != 0.0
  {
    Cluster(seq(|sigmas2|, i requires 0 <= i < |sigmas2| => ProtoParameter(p, sigmas2[i], log)), 1, 0, 0.0, None)
  }

  /** A one-point cluster's statistics place it at its point: for every sigma
      hypothesis the weighted centre `Bx / A, By / A` is (x, y), and `C / A`
      is the squared radius. */
  lemma ProtoCentre(p: Point, sigmas2: seq<real>, log: real -> real, i: nat)
    requires forall i :: 0 <= i < |sigmas2| ==> p.s * p.s + sigmas2[i] != 0.0
    requires i < |sigmas2|
    ensures var c := ProtoCluster(p, sigmas2, log);
            |c.params| == |sigmas2| && c.size == 1 && c.parent == None &&
            c.params[i].A != 0.0 && c.params[i].Bx / c.params[i].A == p.x &&
            c.params[i].By / c.params[i].A == p.y && c.params[i].C / c.params[i].A == R2(p)
  {
    var w := Weight(p, sigmas2[i]);
    assert w != 0.0;
    assert (w * p.x) / w == p.x && (w * p.y) / w == p.y && (w * R2(p)) / w == R2(p);
  }

  /** `Cluster::operator+=`: the parameters add index by index and the sizes
      add; parent, last size and score stay. */
  function AddCluster(c: Cluster, o: Cluster): Cluster
    requires |o.params| == |c.params|
  {
    c.(params := seq(|c.params|, i requires 0 <= i < |c.params| => AddParameter(c.params[i], o.params[i])),
       size := c.size + o.size)
  }

  /** Merging is insensitive to the order in which two clusters are taken in:
      the depth-first growth of a cluster ends with the same statistics
      whichever neighbour comes first. */
  lemma AddClusterCommutes(c: Cluster, o1: Cluster, o2: Cluster)
    requires |o1.params| == |c.params| && |o2.params| == |c.params|
    ensures AddCluster(AddCluster(c, o1), o2) == AddCluster(AddCluster(c, o2), o1)
  {
    var l, r := AddCluster(AddCluster(c, o1), o2), AddCluster(AddCluster(c, o2), o1);
    forall i | 0 <= i < |c.params|
      ensures l.params[i] == r.params[i]
    {
      AddParameterLaws(c.params[i], o1.params[i], o2.params[i]);
    }
  }

  /** `Cluster::UpdateLogScore`: evaluated (by `score`) only when the cluster
      grew since it was last evaluated, and then remembering its size. */
  function UpdateLogScore(c: Cluster, score: Cluster -> real): Cluster
  {
    if c.size <= c.lastSize then c else c.(lastSize := c.size, score := score(c))
  }

  /** The update runs exactly when the cluster grew; afterwards the last size
      is the size, so an immediate second update does nothing. */
  lemma UpdateLogScoreCaches(c: Cluster, score: Cluster -> real)
    ensures UpdateLogScore(c, score) == c <==> c.size <= c.lastSize || (c.lastSize == c.size && c.score == score(c))
    ensures c.size > c.lastSize ==> UpdateLogScore(c, score).score == score(c)
    ensures UpdateLogScore(c, score).lastSize == if c.size > c.lastSize then c.size else c.lastSize
    ensures UpdateLogScore(UpdateLogScore(c, score), score) == UpdateLogScore(c, score)
    ensures UpdateLogScore(c, score).(lastSize := c.lastSize, score := c.score) == c
  {
  }

  // ---------------------------------------------------------------- parent chains

  /** The parent links of an arena. */
  function Links(a: seq<Cluster>): (ls: seq<Option<nat>>)
    ensures |ls| == |a| && forall k :: 0 <= k < |a| ==> ls[k] == a[k].parent
  {
    seq(|a|, k requires 0 <= k < |a| => a[k].parent)
  }

  /** Every link points to a later cluster of the arena: clusters are only ever
      attached to the cluster being grown, which is the newest. */
  predicate Forest(ls: seq<Option<nat>>)
  {
    forall k :: 0 <= k < |ls| && ls[k].Some? ==> k < ls[k].value < |ls|
  }

  /** The end of the parent chain from `k`. */
  ghost function Root(ls: seq<Option<nat>>, k: nat): (r: nat)
    requires Forest(ls) && k < |ls|
    ensures k <= r < |ls| && ls[r].None?
    decreases |ls| - k
  {
    match ls[k]
    case None => k
    case Some(p) => Root(ls, p)
  }

  /** Whether `j` lies on the parent chain from `k`. */
  ghost predicate OnPath(ls: seq<Option<nat>>, k: nat, j: nat)
    requires Forest(ls) && k < |ls|
    decreases |ls| - k
  {
    j == k || (ls[k].Some? && OnPath(ls, ls[k].value, j))
  }

  /** A chain only climbs. */
  lemma {:induction false} OnPathAbove(ls: seq<Option<nat>>, k: nat, j: nat)
    requires Forest(ls) && k < |ls|
    ensures OnPath(ls, k, j) ==> k <= j
    decreases |ls| - k
  {
    if ls[k].Some? {
      OnPathAbove(ls, ls[k].value, j);
    }
  }

  /** `Cluster::GetParent`: the root of the chain from `k`, and the arena
      with every link on the chain pointed straight at it. */
  function GetParent(a: seq<Cluster>, k: nat): (res: (seq<Cluster>, nat))
    requires Forest(Links(a)) && k < |a|
    ensures |res.0| == |a| && res.1 == Root(Links(a), k)
    decreases |a| - k
  {
    match a[k].parent
    case None => (a, k)
    case Some(p) =>
      var (a', r) := GetParent(a, p);
      (a'[k := a'[k].(parent := Some(r))], r)
  }

  /** Pointing a node at its own root leaves a forest with the same roots. */
  lemma {:induction false} Redirect(ls: seq<Option<nat>>, k: nat, j: nat)
    requires Forest(ls) && k < |ls| && j < |ls|
    requires ls[k].Some?
    ensures var ls' := ls[k := Some(Root(ls, k))];
            Forest(ls') && Root(ls', j) == Root(ls, j)
    decreases |ls| - j
  {
    var r := Root(ls, k);
    var ls' := ls[k := Some(r)];
    assert Forest(ls');
    if j == k {
      assert Root(ls', r) == r;
    } else if ls[j].Some? {
      Redirect(ls, k, ls[j].value);
    }
  }

  /** Compression changes links only: every cluster keeps its statistics. */
  lemma {:induction false} GetParentKeepsStatistics(a: seq<Cluster>, k: nat, j: nat)
    requires Forest(Links(a)) && k < |a| && j < |a|
    ensures GetParent(a, k).0[j] == a[j].(parent := GetParent(a, k).0[j].parent)
    decreases |a| - k
  {
    if a[k].parent.Some? {
      GetParentKeepsStatistics(a, a[k].parent.value, j);
    }
  }

  /** After compression the arena is a forest with the same root for every
      cluster. */
  lemma {:induction false} GetParentKeepsRoots(a: seq<Cluster>, k: nat, j: nat)
    requires Forest(Links(a)) && k < |a| && j < |a|
    ensures Forest(Links(GetParent(a, k).0))
    ensures Root(Links(GetParent(a, k).0), j) == Root(Links(a), j)
    decreases |a| - k
  {
    if a[k].parent.Some? {
      var p := a[k].parent.value;
      var (a', r) := GetParent(a, p);
      GetParentKeepsRoots(a, p, j);
      GetParentKeepsRoots(a, p, k);
      var ls' := Links(a');
      assert Links(a'[k := a'[k].(parent := Some(r))]) == ls'[k := Some(r)];
      OnPathAbove(Links(a), p, k);
      GetParentCompresses(a, p, k);
      Redirect(ls', k, j);
    }
  }

  /** Every cluster on the chain from `k` ends up linked straight to the root,
      and every other cluster keeps its link. */
  lemma {:induction false} GetParentCompresses(a: seq<Cluster>, k: nat, j: nat)
    requires Forest(Links(a)) && k < |a| && j < |a|
    ensures var (a', r) := GetParent(a, k);
            (OnPath(Links(a), k, j) && j != r ==> a'[j].parent == Some(r)) &&
            (!OnPath(Links(a), k, j) ==> a'[j].parent == a[j].parent)
    decreases |a| - k
  {
    if a[k].parent.Some? {
      GetParentCompresses(a, a[k].parent.value, j);
    }
  }

  /** A second call finds the chain already compressed: same root, same arena. */
  lemma GetParentIdempotent(a: seq<Cluster>, k: nat)
    requires Forest(Links(a)) && k < |a|
    ensures Forest(Links(GetParent(a, k).0))
    ensures GetParent(GetParent(a, k).0, k) == GetParent(a, k)
  {
    GetParentKeepsRoots(a, k, k);
    var (a', r) := GetParent(a, k);
    GetParentCompresses(a, k, k);
    if k != r {
      GetParentCompresses(a, k, r);
      assert a'[r].parent == None by {
        assert Root(Links(a'), r) == Root(Links(a), r);
      }
      assert a'[k := a'[k].(parent := Some(r))] == a';
    }
  }
}
