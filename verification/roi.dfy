/** `RoI.cpp`: a region of interest built from a dataset, the argument checks
    of a single clusterization, and the division of the R/T scan among
    proxies. The constructor converts every recorded point into algorithm
    units (the conversions of `Cluster_GlobalVars.hpp`), keeps the ones inside
    the unit window and sorts them by distance from the origin. Preprocessing
    (the neighbour lists and localisation scores) is given to the scan as its
    world and score table. */
module Rois {
  import opened Wrappers
  import opened Points
  import GlobalVars
  import opened Clusters
  import opened DataProxies
  import opened RoiProxies
  import Neighbours

  /** The dataset walked by the constructor's three nested loops. */
  type Dataset = seq<seq<seq<Point>>>

  /** A list of lists, joined in order. */
  function Join(s: seq<seq<Point>>): seq<Point>
  {
    if s == [] then [] else Join(s[..|s| - 1]) + s[|s| - 1]
  }

  /** Every recorded point of the dataset, in loop order. */
  function Recorded(d: Dataset): seq<Point>
  {
    if d == [] then [] else Recorded(d[..|d| - 1]) + Join(d[|d| - 1])
  }

  /** A recorded point in algorithm units: x and y about the centre, the
      uncertainty scaled. */
  function ToAlgorithm(g: GlobalVars.Vars, k: Point): Point
  {
    Point(GlobalVars.ToAlgorithmX(g, k.x), GlobalVars.ToAlgorithmY(g, k.y), GlobalVars.ToAlgorithmUnits(g, k.s))
  }

  /** `fabs(x) < 1 and fabs(y) < 1`. */
  predicate Inside(p: Point)
  {
    Abs(p.x) < 1.0 && Abs(p.y) < 1.0
  }

  /** The constructor's loop: the converted points that fall inside the
      window, in the order they were recorded. */
  function Window(g: GlobalVars.Vars, ks: seq<Point>): seq<Point>
  {
    if ks == [] then []
    else
      var p := ToAlgorithm(g, ks[|ks| - 1]);
      Window(g, ks[..|ks| - 1]) + (if Inside(p) then [p] else [])
  }

  /** A point is kept exactly when it is inside the window and is the
      conversion of some recorded point; no kept point lies outside. */
  lemma {:induction false} WindowIsFilter(g: GlobalVars.Vars, ks: seq<Point>, p: Point)
    ensures p in Window(g, ks) <==> Inside(p) && exists i :: 0 <= i < |ks| && ToAlgorithm(g, ks[i]) == p
    ensures |Window(g, ks)| <= |ks|
  {
    if ks != [] {
      var ks' := ks[..|ks| - 1];
      WindowIsFilter(g, ks', p);
      if p in Window(g, ks') {
        var i :| 0 <= i < |ks'| && ToAlgorithm(g, ks'[i]) == p;
        assert ks[i] == ks'[i];
      }
      if Inside(p) && exists i :: 0 <= i < |ks| && ToAlgorithm(g, ks[i]) == p {
        var i :| 0 <= i < |ks| && ToAlgorithm(g, ks[i]) == p;
        if i < |ks'| {
          assert ks'[i] == ks[i];
        }
      }
    }
  }

  /** With a non-zero scale every kept point converts back to the position of
      a recorded point. */
  lemma {:induction false} WindowConvertsBack(g: GlobalVars.Vars, ks: seq<Point>, p: Point)
    requires g.scale != 0.0 && p in Window(g, ks)
    ensures exists i :: 0 <= i < |ks| && GlobalVars.ToPhysicalX(g, p.x) == ks[i].x && GlobalVars.ToPhysicalY(g, p.y) == ks[i].y
  {
    WindowIsFilter(g, ks, p);
    var i :| 0 <= i < |ks| && ToAlgorithm(g, ks[i]) == p;
    GlobalVars.XRoundTrip(g, ks[i].x, p.x);
    GlobalVars.YRoundTrip(g, ks[i].y, p.y);
  }

  // ---------------------------------------------------------------- the sort

  /** Squared radii never decrease along `ps`. */
  predicate ByR2(ps: seq<Point>)
  {
    forall p, q :: 0 <= p < q < |ps| ==> R2(ps[p]) <= R2(ps[q])
  }

  /** Places `x` before the first point not closer to the origin. */
  function Insert(x: Point, ps: seq<Point>): (r: seq<Point>)
    requires ByR2(ps)
    ensures ByR2(r)
    ensures multiset(r) == multiset(ps) + multiset{x}
  {
    if ps == [] then [x]
    else if R2(x) <= R2(ps[0]) then [x] + ps
    else
      var t := Insert(x, ps[1..]);
      assert ps == [ps[0]] + ps[1..];
      InsertBound(x, ps, t);
      [ps[0]] + t
  }

  /** Everything in the insertion into the tail of `ps` is at least as far out
      as the head of `ps`. */
  lemma InsertBound(x: Point, ps: seq<Point>, t: seq<Point>)
    requires ByR2(ps) && ps != [] && R2(ps[0]) < R2(x)
    requires multiset(t) == multiset(ps[1..]) + multiset{x}
    ensures forall q :: 0 <= q < |t| ==> R2(ps[0]) <= R2(t[q])
  {
    forall q | 0 <= q < |t| ensures R2(ps[0]) <= R2(t[q]) {
      var b := t[q];
      assert b in multiset(t);
      if b != x {
        assert b in multiset(ps[1..]);
        var k :| 0 <= k < |ps[1..]| && ps[1..][k] == b;
        assert ps[k + 1] == b;
      }
    }
  }

  /** `std::sort( mData )` under `operator<`, which compares radii. */
  function Sort(ps: seq<Point>): (r: seq<Point>)
    ensures ByR2(r)
    ensures multiset(r) == multiset(ps)
  {
    if ps == [] then []
    else
      assert ps == ps[..|ps| - 1] + [ps[|ps| - 1]];
      Insert(ps[|ps| - 1], Sort(ps[..|ps| - 1]))
  }

  /** `RoI( aDataset )`: the points of the window, sorted. */
  function NewRoi(g: GlobalVars.Vars, d: Dataset): seq<Point>
  {
    Sort(Window(g, Recorded(d)))
  }

  /** The region holds exactly the converted recorded points inside the
      window, each as often as the loop met it, ordered by radius: the order
      the neighbour search relies on. */
  lemma RoiIsSortedWindow(g: GlobalVars.Vars, d: Dataset, sqrt: real -> real, p: Point)
    requires IsSqrt(sqrt)
    ensures multiset(NewRoi(g, d)) == multiset(Window(g, Recorded(d)))
    ensures p in NewRoi(g, d) <==> Inside(p) && exists i :: 0 <= i < |Recorded(d)| && ToAlgorithm(g, Recorded(d)[i]) == p
    ensures forall a, b :: 0 <= a < b < |NewRoi(g, d)| ==> !Less(NewRoi(g, d)[b], NewRoi(g, d)[a], sqrt)
  {
    var ps := NewRoi(g, d);
    WindowIsFilter(g, Recorded(d), p);
    assert p in ps <==> p in multiset(ps);
    forall a, b | 0 <= a < b < |ps|
      ensures !Less(ps[b], ps[a], sqrt)
    {
      LessIsByR2(ps[b], ps[a], sqrt);
    }
  }

  /** A region's points come sorted by radius, so the neighbour lists
      `Data::Preprocess` builds over them are mutual. */
  lemma RoiListsMutual(g: GlobalVars.Vars, d: Dataset, w: World, geo: Neighbours.Geometry, cut: seq<(real, real)>)
    requires IsSqrt(geo.sqrt) && Preprocessed(w, NewRoi(g, d), geo, cut)
    ensures Mutual(w)
  {
    var ps := NewRoi(g, d);
    forall p, q | 0 <= p < q < |ps|
      ensures Radius(ps[p], geo.sqrt) <= Radius(ps[q], geo.sqrt)
    {
      LessIsByR2(ps[q], ps[p], geo.sqrt);
    }
    assert Neighbours.ByRadius(ps, geo.sqrt);
    PreprocessedIsMutual(w, ps, geo, cut);
  }

  // ---------------------------------------------------------------- clusterize

  /** `RoI::Clusterize`: a negative R is refused first, then a negative T;
      only then does `run` (preprocessing and the proxy's clusterization)
      happen. */
  function Clusterize<X>(R: real, T: real, run: (real, real) -> X): (r: Result<X, string>)
  {
    if R < 0.0 then Err("R must be specified and non-negative")
    else if T < 0.0 then Err("T must be specified and non-negative")
    else Ok(run(R, T))
  }

  /** The checks in order: R's failure wins over T's, and a run happens
      exactly when both are non-negative. */
  lemma ClusterizeChecks<X>(R: real, T: real, run: (real, real) -> X)
    ensures Clusterize(R, T, run).Ok? <==> R >= 0.0 && T >= 0.0
    ensures Clusterize(R, T, run).Ok? ==> Clusterize(R, T, run).value == run(R, T)
    ensures R < 0.0 ==> Clusterize(R, T, run) == Err("R must be specified and non-negative")
    ensures R >= 0.0 && T < 0.0 ==> Clusterize(R, T, run) == Err("T must be specified and non-negative")
  {
  }

  // ---------------------------------------------------------------- the scan

  /** The R bins of the first `n` proxies, proxy by proxy. */
  function Offsets(bins: nat, threads: nat, n: nat): seq<nat>
    requires threads > 0
  {
    if n == 0 then [] else Offsets(bins, threads, n - 1) + Strided(bins, threads, n - 1)
  }

  lemma MulGap(a: int, b: int, P: nat)
    requires a < b
    ensures a * P + P <= b * P
  {
    assert b * P - a * P == (b - a - 1) * P + P;
    assert (b - a - 1) * P >= 0;
  }

  /** A quotient and remainder in range are the Euclidean ones. */
  lemma DivMod(i: int, P: nat, q: int, r: int)
    requires 0 <= r < P && i == q * P + r
    ensures i % P == r
  {
    var q', r' := i / P, i % P;
    if q < q' {
      MulGap(q, q', P);
    } else if q' < q {
      MulGap(q', q, P);
    }
  }

  /** Proxy `o` visits `i` when `i` lies `o` past a multiple of the stride. */
  lemma ModOffset(i: nat, o: nat, P: nat)
    requires o < P
    ensures (o <= i && (i - o) % P == 0) <==> i % P == o
  {
    if o <= i && (i - o) % P == 0 {
      DivMod(i, P, (i - o) / P, o);
    }
    if i % P == o {
      if i / P < 0 {
        MulGap(i / P, 0, P);
      }
      DivMod(i - o, P, i / P, 0);
    }
  }

  /** Above `o`, being a whole number of strides past `o` is being one past
      `o + P`. */
  lemma ModStep(i: int, o: int, P: nat)
    requires o < i && P > 0
    ensures (i - o) % P == 0 <==> o + P <= i && (i - o - P) % P == 0
  {
    if i < o + P {
      DivMod(i - o, P, 0, i - o);
    } else {
      var x := i - o - P;
      assert (x / P + 1) * P == x / P * P + P;
      DivMod(i - o, P, x / P + 1, x % P);
    }
  }

  /** Proxy `o` visits each R bin at most once: those `o` past a multiple of
      the stride. */
  lemma {:induction false} StridedCount(bins: nat, P: nat, o: nat, i: nat)
    requires P > 0
    ensures multiset(Strided(bins, P, o))[i] == if o <= i < bins && (i - o) % P == 0 then 1 else 0
    decreases bins - o
  {
    if o < bins {
      var o': nat := o + P;
      var rest := multiset(Strided(bins, P, o'))[i];
      StridedCount(bins, P, o', i);
      assert Strided(bins, P, o) == [o] + Strided(bins, P, o');
      assert multiset(Strided(bins, P, o))[i] == (if i == o then 1 else 0) + rest;
      if i == o {
        DivMod(0, P, 0, 0);
        assert rest == 0;
      } else if o < i {
        ModStep(i, o, P);
      }
    } else {
      assert Strided(bins, P, o) == [];
    }
  }

  /** Proxy `o`, below the stride, visits the R bins whose remainder is `o`. */
  lemma StridedHit(bins: nat, P: nat, o: nat, i: nat)
    requires o < P
    ensures multiset(Strided(bins, P, o))[i] == if i < bins && i % P == o then 1 else 0
  {
    StridedCount(bins, P, o, i);
    ModOffset(i, o, P);
  }

  /** The count bookkeeping of one more proxy, with the arithmetic already
      done. */
  lemma CountSplit(ma: nat, mb: nat, inBins: bool, rem: nat, n: nat, hit: bool)
    requires n > 0
    requires ma == if inBins && rem < n - 1 then 1 else 0
    requires mb == if inBins && hit then 1 else 0
    requires hit <==> rem == n - 1
    ensures ma + mb == if inBins && rem < n then 1 else 0
  {
  }

  /** The first `n` proxies visit each R bin whose remainder is below `n`
      once, and no other. */
  lemma {:induction false} OffsetsCount(bins: nat, P: nat, n: nat, i: nat)
    requires 0 < P && n <= P
    ensures multiset(Offsets(bins, P, n))[i] == if i < bins && i % P < n then 1 else 0
  {
    if n > 0 {
      var o: nat := n - 1;
      OffsetsCount(bins, P, o, i);
      OffsetsStep(bins, P, o, i);
      StridedHit(bins, P, o, i);
      CountSplit(multiset(Offsets(bins, P, o))[i], multiset(Strided(bins, P, o))[i], i < bins, i % P, n, i % P == o);
    } else {
      assert Offsets(bins, P, 0) == [];
    }
  }

  /** One more proxy adds its own visits to the count. */
  lemma OffsetsStep(bins: nat, P: nat, o: nat, i: nat)
    requires 0 < P
    ensures multiset(Offsets(bins, P, o + 1))[i] == multiset(Offsets(bins, P, o))[i] + multiset(Strided(bins, P, o))[i]
  {
    var a: seq<nat>, b: seq<nat> := Offsets(bins, P, o), Strided(bins, P, o);
    assert Offsets(bins, P, o + 1) == a + b;
    assert multiset(a + b)[i] == multiset(a)[i] + multiset(b)[i];
  }

  /** The steps of R bins `rs`, however they were gathered. */
  lemma {:induction false} ScheduleConcat(a: seq<nat>, b: seq<nat>, tbins: nat)
    ensures Schedule(a + b, tbins) == Schedule(a, tbins) + Schedule(b, tbins)
    decreases |b|
  {
    if b != [] {
      var b' := b[..|b| - 1];
      assert (a + b)[..|a + b| - 1] == a + b';
      assert (a + b)[|a + b| - 1] == b[|b| - 1];
      ScheduleConcat(a, b', tbins);
      assert Schedule(a + b, tbins) == Schedule(a + b', tbins) + Row(b[|b| - 1], tbins);
      assert Schedule(b, tbins) == Schedule(b', tbins) + Row(b[|b| - 1], tbins);
    } else {
      assert a + b == a;
    }
  }

  lemma {:induction false} RowCount(i: nat, tbins: nat, key: (nat, nat))
    ensures multiset(Row(i, tbins))[key] == if key.0 == i && key.1 < tbins then 1 else 0
  {
    if tbins > 0 {
      RowCount(i, tbins - 1, key);
      assert Row(i, tbins) == Row(i, tbins - 1) + [(i, tbins - 1)];
    }
  }

  /** Each step of the schedule occurs as often as its R bin does. */
  lemma {:induction false} ScheduleCount(rs: seq<nat>, tbins: nat, key: (nat, nat))
    ensures multiset(Schedule(rs, tbins))[key] == if key.1 < tbins then multiset(rs)[key.0] else 0
  {
    if rs != [] {
      var rs' := rs[..|rs| - 1];
      ScheduleCount(rs', tbins, key);
      RowCount(rs[|rs| - 1], tbins, key);
      assert rs == rs' + [rs[|rs| - 1]];
    }
  }

  /** Reports of two scans, together, stay faithful. */
  lemma FaithfulAppend(a: seq<Report>, b: seq<Report>, scores: seq<seq<real>>, R: Bounds, T: Bounds, counted: bool)
    requires Faithful(a, scores, R, T, counted) && Faithful(b, scores, R, T, counted)
    ensures Faithful(a + b, scores, R, T, counted)
  {
    forall k | 0 <= k < |a + b|
      ensures var x := (a + b)[k]; x == (if k < |a| then a[k] else b[k - |a|])
    {
    }
  }

  /** The reports of proxy `o`, appended, extend the schedule by its R bins
      and keep every report faithful. */
  lemma ProxyAppended(reports: seq<Report>, more: seq<Report>, scores: seq<seq<real>>, R: Bounds, T: Bounds,
                      threads: nat, o: nat, counted: bool)
    requires threads > 0
    requires Keys(reports) == Schedule(Offsets(R.bins, threads, o), T.bins) && Faithful(reports, scores, R, T, counted)
    requires Keys(more) == Schedule(Strided(R.bins, threads, o), T.bins) && Faithful(more, scores, R, T, counted)
    ensures Keys(reports + more) == Schedule(Offsets(R.bins, threads, o + 1), T.bins)
    ensures Faithful(reports + more, scores, R, T, counted)
  {
    KeysAppend(reports, more);
    ScheduleConcat(Offsets(R.bins, threads, o), Strided(R.bins, threads, o), T.bins);
    FaithfulAppend(reports, more, scores, R, T, counted);
  }

  /** Between them, `threads` proxies schedule every (R, T) step once. */
  lemma EveryStepOnce(rbins: nat, tbins: nat, threads: nat)
    requires threads > 0
    ensures forall i: nat, j: nat :: multiset(Schedule(Offsets(rbins, threads, threads), tbins))[(i, j)] ==
              if i < rbins && j < tbins then 1 else 0
  {
    forall i: nat, j: nat
      ensures multiset(Schedule(Offsets(rbins, threads, threads), tbins))[(i, j)] == if i < rbins && j < tbins then 1 else 0
    {
      ScheduleCount(Offsets(rbins, threads, threads), tbins, (i, j));
      OffsetsCount(rbins, threads, threads, i);
      assert i % threads < threads;
    }
  }

  /** `RoI::ScanRT` as intended, with the stride and the offset kept at the
      width of `Nthreads`: one fresh proxy per thread, proxy `o` scanning R
      bins `o, o + threads, …`; the threads run one after another here.
      Between them the proxies run every (R, T) step exactly once. */
  method ScanRT(w: World, scores: seq<seq<real>>, R: Bounds, T: Bounds, threads: nat, validate: bool,
                score: Cluster -> real, ps: seq<Proxy>, counts: Counts)
    returns (r: Result<seq<Report>, string>)
    requires WorldOk(w, |ps|) && |scores| == |ps| && |ps| < SizeLimit
    requires forall k :: 0 <= k < |scores| ==> R.bins <= |scores[k]|
    ensures !validate || Sound(w, T) ==> r.Ok?
    ensures r.Ok? ==> Faithful(r.value, scores, R, T, Sound(w, T))
    ensures r.Ok? ==> forall i: nat, j: nat :: multiset(Keys(r.value))[(i, j)] ==
                        if threads > 0 && i < R.bins && j < T.bins then 1 else 0
  {
    if threads == 0 {
      return Ok([]);
    }
    var reports: seq<Report> := [];
    var o := 0;
    while o != threads
      invariant o <= threads
      invariant Keys(reports) == Schedule(Offsets(R.bins, threads, o), T.bins)
      invariant Faithful(reports, scores, R, T, Sound(w, T))
    {
      var res, _ := RoiProxies.ScanRT(w, scores, R, T, threads, o, validate, score, ps, counts);
      if res.Err? {
        return Err(res.error);
      }
      ProxyAppended(reports, res.value, scores, R, T, threads, o, Sound(w, T));
      reports := reports + res.value;
      o := o + 1;
    }
    EveryStepOnce(R.bins, T.bins, threads);
    return Ok(reports);
  }

  /** A `uint8_t` parameter holds its argument modulo 256. */
  function Narrow(n: nat): (b: nat)
    ensures b < 256 && (n < 256 ==> b == n)
  {
    n % 256
  }

  /** The R bins of the first `n` proxies, proxy by proxy, when the stride
      and each proxy's offset pass through `uint8_t`. */
  function NarrowOffsets(bins: nat, threads: nat, n: nat): seq<nat>
    requires Narrow(threads) > 0 || bins == 0
  {
    if n == 0 then [] else NarrowOffsets(bins, threads, n - 1) + Strided(bins, Narrow(threads), Narrow(n - 1))
  }

  /** `RoI::ScanRT` as written: `Nthreads` and the proxy index are
      `std::size_t`, but `RoIproxy::ScanRT` takes both as `const uint8_t&`,
      so proxy `o` scans with stride `threads % 256` from bin `o % 256`. The
      scan returns only when that stride is non-zero or there are no R bins;
      the reports then follow the narrowed schedule. */
  method ScanRTAsWritten(w: World, scores: seq<seq<real>>, R: Bounds, T: Bounds, threads: nat, validate: bool,
                         score: Cluster -> real, ps: seq<Proxy>, counts: Counts)
    returns (r: Result<seq<Report>, string>)
    requires Narrow(threads) > 0 || R.bins == 0
    requires WorldOk(w, |ps|) && |scores| == |ps| && |ps| < SizeLimit
    requires forall k :: 0 <= k < |scores| ==> R.bins <= |scores[k]|
    ensures !validate || Sound(w, T) ==> r.Ok?
    ensures r.Ok? ==> Faithful(r.value, scores, R, T, Sound(w, T))
    ensures r.Ok? ==> Keys(r.value) == Schedule(NarrowOffsets(R.bins, threads, threads), T.bins)
  {
    var reports: seq<Report> := [];
    var o := 0;
    while o != threads
      invariant o <= threads
      invariant Keys(reports) == Schedule(NarrowOffsets(R.bins, threads, o), T.bins)
      invariant Faithful(reports, scores, R, T, Sound(w, T))
    {
      var res, _ := RoiProxies.ScanRT(w, scores, R, T, Narrow(threads), Narrow(o), validate, score, ps, counts);
      if res.Err? {
        return Err(res.error);
      }
      KeysAppend(reports, res.value);
      ScheduleConcat(NarrowOffsets(R.bins, threads, o), Strided(R.bins, Narrow(threads), Narrow(o)), T.bins);
      FaithfulAppend(reports, res.value, scores, R, T, Sound(w, T));
      reports := reports + res.value;
      o := o + 1;
    }
    return Ok(reports);
  }

  /** As written, a thread count that is a multiple of 256 narrows to stride
      0: proxy 0 starts at bin 0 and is still there after any number `k` of
      steps `i += aParallelization`, below every positive `R.bins`, so its
      loop never ends and the proxy's scan is outside the inputs it returns on. */
  lemma StrideVanishes(threads: nat, bins: nat, k: nat)
    requires threads % 256 == 0 && bins > 0
    ensures Narrow(threads) == 0 && Narrow(0) + k * Narrow(threads) == 0 < bins
    ensures !(Narrow(threads) > 0 || Narrow(0) >= bins)
  {
  }

  /** With 257 threads and the narrowing, the offsets 0 and 256 both become
      0 and the stride becomes 1, so bin 0 is in the R bins of exactly two of
      the first `n` proxies once proxy 256 is among them. */
  lemma {:induction false} WrapCount(bins: nat, n: nat)
    requires 0 < bins && n <= 257
    ensures multiset(NarrowOffsets(bins, 257, n))[0] == (if n > 0 then 1 else 0) + (if n == 257 then 1 else 0)
  {
    if n > 0 {
      var o: nat := n - 1;
      var a, b := NarrowOffsets(bins, 257, o), Strided(bins, Narrow(257), Narrow(o));
      WrapCount(bins, o);
      assert NarrowOffsets(bins, 257, n) == a + b;
      assert multiset(a + b)[0] == multiset(a)[0] + multiset(b)[0];
      assert multiset(b)[0] == if o == 0 || o == 256 then 1 else 0 by {
        StartsAtZero(bins, Narrow(257), Narrow(o));
        NarrowZero(o);
      }
    }
  }

  /** A proxy visits bin 0 exactly when it starts there. */
  lemma StartsAtZero(bins: nat, P: nat, o: nat)
    requires 0 < bins && 0 < P
    ensures multiset(Strided(bins, P, o))[0] == if o == 0 then 1 else 0
  {
    StridedCount(bins, P, o, 0);
    if o == 0 {
      DivMod(0, P, 0, 0);
    }
  }

  /** Up to 256, only 0 and 256 narrow to 0. */
  lemma NarrowZero(o: nat)
    requires o <= 256
    ensures Narrow(o) == 0 <==> o == 0 || o == 256
  {
  }

  /** As written, 257 threads scan every step (0, j) twice, where the
      intended `ScanRT` scans it once. */
  lemma OffsetWrapRepeats(bins: nat, tbins: nat, j: nat)
    requires bins > 0 && j < tbins
    ensures multiset(Schedule(NarrowOffsets(bins, 257, 257), tbins))[(0, j)] == 2
  {
    WrapCount(bins, 257);
    ScheduleCount(NarrowOffsets(bins, 257, 257), tbins, (0, j));
  }
}
