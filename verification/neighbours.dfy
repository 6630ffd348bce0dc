/** `Data::Preprocess` and the localisation scores: each point collects the
    points within `max2R` of it as (squared distance, index) pairs, sorted, and
    counts, for every R bin, the neighbours within R. The scan over `aData`
    assumes the points are sorted by their distance from the origin. */
module Neighbours {
  import opened Points

  /** An entry of `mNeighbours`: squared distance and index into the points. */
  type Entry = (real, nat)

  /** `std::pair`'s `operator<`: by distance, then by index. */
  predicate EntryLess(a: Entry, b: Entry)
  {
    a.0 < b.0 || (a.0 == b.0 && a.1 < b.1)
  }

  predicate SortedEntries(s: seq<Entry>)
  {
    forall p, q :: 0 <= p < q < |s| ==> !EntryLess(s[q], s[p])
  }

  /** What the scan is given besides the points: the square root and arctangent
      of the platform, the angular window `dphi`, `2*pi - dphi` (computed with
      `asin`, which is not modelled), and the configuration's `max2R` and
      `max2R2`. */
  datatype Geometry = Geometry(sqrt: real -> real, atan2: (real, real) -> real,
                               dphi: real, dphi2: real, max2R: real, max2R2: real)

  /** The angular cut: `lPhi > dphi and lPhi < dphi2` skips the point. */
  predicate Skipped(geo: Geometry, me: Point, other: Point)
  {
    DPhi(me, other, geo.atan2) > geo.dphi && DPhi(me, other, geo.atan2) < geo.dphi2
  }

  /** How far `other` lies radially beyond `me`. */
  function Outward(geo: Geometry, me: Point, other: Point): real
  {
    Radius(other, geo.sqrt) - Radius(me, geo.sqrt)
  }

  /** The entry a candidate contributes: none when it is skipped or too far. */
  function Candidate(data: seq<Point>, geo: Geometry, idx: nat, i: nat): seq<Entry>
    requires idx < |data| && i < |data|
  {
    if Skipped(geo, data[idx], data[i]) then []
    else if DR2(data[idx], data[i]) < geo.max2R2 then [(DR2(data[idx], data[i]), i)]
    else []
  }

  /** The forward loop from index `i`: it stops at the first point more than
      `max2R` further out than point `idx`. */
  function Forward(data: seq<Point>, geo: Geometry, idx: nat, i: nat): seq<Entry>
    requires idx < |data| && i <= |data|
    decreases |data| - i
  {
    if i == |data| || Outward(geo, data[idx], data[i]) > geo.max2R then []
    else Candidate(data, geo, idx, i) + Forward(data, geo, idx, i + 1)
  }

  /** The backward loop from index `i` down to 0: it stops at the first point
      more than `max2R` further in than point `idx`. */
  function Backward(data: seq<Point>, geo: Geometry, idx: nat, i: int): seq<Entry>
    requires idx < |data| && i < |data|
    decreases i + 1
  {
    if i < 0 || -Outward(geo, data[idx], data[i]) > geo.max2R then []
    else Candidate(data, geo, idx, i) + Backward(data, geo, idx, i - 1)
  }

  /** Point `j` is reached by the loop that walks toward it: no point between
      `idx` and `j`, `j` included, is beyond the radial window. */
  ghost predicate Reached(data: seq<Point>, geo: Geometry, idx: nat, j: nat)
    requires idx < |data| && j < |data|
  {
    (idx < j && forall k :: idx < k <= j ==> Outward(geo, data[idx], data[k]) <= geo.max2R) ||
    (j < idx && forall k :: j <= k < idx ==> -Outward(geo, data[idx], data[k]) <= geo.max2R)
  }

  /** Point `j` is a neighbour of point `idx`: reached, not cut by angle, and
      closer than `max2R`. */
  ghost predicate IsNeighbour(data: seq<Point>, geo: Geometry, idx: nat, e: Entry)
    requires idx < |data|
  {
    e.1 < |data| && Reached(data, geo, idx, e.1) && !Skipped(geo, data[idx], data[e.1]) &&
    e.0 == DR2(data[idx], data[e.1]) && e.0 < geo.max2R2
  }

  /** The forward loop collects exactly the neighbours above `idx` from `i` on. */
  lemma {:induction false} ForwardIsNeighbours(data: seq<Point>, geo: Geometry, idx: nat, i: nat, e: Entry)
    requires idx < i <= |data|
    requires forall k :: idx < k < i ==> Outward(geo, data[idx], data[k]) <= geo.max2R
    ensures e in Forward(data, geo, idx, i) <==> i <= e.1 && IsNeighbour(data, geo, idx, e)
    decreases |data| - i
  {
    if i == |data| {
    } else if Outward(geo, data[idx], data[i]) > geo.max2R {
    } else {
      ForwardIsNeighbours(data, geo, idx, i + 1, e);
    }
  }

  /** The backward loop collects exactly the neighbours below `idx` from `i` down. */
  lemma {:induction false} BackwardIsNeighbours(data: seq<Point>, geo: Geometry, idx: nat, i: int, e: Entry)
    requires idx < |data| && -1 <= i < idx
    requires forall k :: i < k < idx ==> -Outward(geo, data[idx], data[k]) <= geo.max2R
    ensures e in Backward(data, geo, idx, i) <==> e.1 <= i && IsNeighbour(data, geo, idx, e)
    decreases i + 1
  {
    if i < 0 {
    } else if -Outward(geo, data[idx], data[i]) > geo.max2R {
    } else {
      BackwardIsNeighbours(data, geo, idx, i - 1, e);
    }
  }

  /** Places `x` before the first entry not below it. */
  function Insert(x: Entry, s: seq<Entry>): (r: seq<Entry>)
    requires SortedEntries(s)
    ensures SortedEntries(r)
    ensures multiset(r) == multiset(s) + multiset{x}
  {
    if s == [] then [x]
    else if !EntryLess(s[0], x) then [x] + s
    else
      var t := Insert(x, s[1..]);
      assert s == [s[0]] + s[1..];
      assert forall q :: 0 <= q < |t| ==> !EntryLess(t[q], s[0]) by {
        forall q | 0 <= q < |t| ensures !EntryLess(t[q], s[0]) {
          assert t[q] in multiset(t);
          if t[q] != x {
            assert t[q] in multiset(s[1..]);
          }
        }
      }
      [s[0]] + t
  }

  /** `std::sort( mNeighbours )`. */
  function Sort(s: seq<Entry>): (r: seq<Entry>)
    ensures SortedEntries(r)
    ensures multiset(r) == multiset(s)
  {
    if s == [] then []
    else
      assert s == s[..|s| - 1] + [s[|s| - 1]];
      Insert(s[|s| - 1], Sort(s[..|s| - 1]))
  }

  /** `Preprocess(aData, aIndex)`: both loops, then the sort. */
  function Preprocess(data: seq<Point>, geo: Geometry, idx: nat): seq<Entry>
    requires idx < |data|
  {
    Sort(Forward(data, geo, idx, idx + 1) + Backward(data, geo, idx, idx - 1))
  }

  /** The neighbour list is sorted, and holds exactly the entries of the points
      the two loops reach that pass the angular cut and lie within `max2R`:
      never the point itself, each with its squared distance. */
  lemma PreprocessIsNeighbours(data: seq<Point>, geo: Geometry, idx: nat, e: Entry)
    requires idx < |data|
    ensures SortedEntries(Preprocess(data, geo, idx))
    ensures e in Preprocess(data, geo, idx) <==> IsNeighbour(data, geo, idx, e)
    ensures e in Preprocess(data, geo, idx) ==> e.1 != idx && e.0 == DR2(data[idx], data[e.1]) && e.0 < geo.max2R2
  {
    var f := Forward(data, geo, idx, idx + 1);
    var b := Backward(data, geo, idx, idx - 1);
    assert e in Preprocess(data, geo, idx) <==> e in f || e in b by {
      var s := Sort(f + b);
      assert e in s <==> e in multiset(s);
      assert e in f + b <==> e in multiset(f + b);
    }
    ForwardIsNeighbours(data, geo, idx, idx + 1, e);
    BackwardIsNeighbours(data, geo, idx, idx - 1, e);
    assert IsNeighbour(data, geo, idx, e) ==> e.1 != idx;
  }

  /** Radii never decrease along `data`: the order `RoI` sorts its points into. */
  ghost predicate ByRadius(data: seq<Point>, sqrt: real -> real)
  {
    forall p, q :: 0 <= p < q < |data| ==> Radius(data[p], sqrt) <= Radius(data[q], sqrt)
  }

  /** On points sorted by radius the early exits lose nothing: a point is
      reached exactly when its own radius is within `max2R` of point `idx`'s. */
  lemma ReachedByRadius(data: seq<Point>, geo: Geometry, idx: nat, j: nat)
    requires idx < |data| && j < |data| && j != idx && ByRadius(data, geo.sqrt)
    ensures Reached(data, geo, idx, j) <==>
              -geo.max2R <= Outward(geo, data[idx], data[j]) <= geo.max2R
  {
    if idx < j {
      assert Radius(data[idx], geo.sqrt) <= Radius(data[j], geo.sqrt);
    } else {
      assert Radius(data[j], geo.sqrt) <= Radius(data[idx], geo.sqrt);
    }
  }

  /** The angular cut of `geo` at point `idx` drops no point closer than
      `max2R`. With the exact `asin` and `atan2` this always holds: a point
      within distance `d` of one at radius `r` lies within `asin(d / r)` of its
      angle, so the cut only saves work. Both are parameters here, so it is
      stated as a property of them. */
  ghost predicate CutKeepsNear(data: seq<Point>, geo: Geometry, idx: nat)
    requires idx < |data|
  {
    forall k :: 0 <= k < |data| && DR2(data[idx], data[k]) < geo.max2R2 ==> !Skipped(geo, data[idx], data[k])
  }

  /** On points sorted by radius neighbourhood is mutual: when `Preprocess`
      lists point `e.1` for point `idx`, it lists `idx` for point `e.1` at the
      same squared distance, whatever angular window each point has, as long
      as the window at `e.1` keeps near points. Both loops reach across the same
      radial gap, and the distance is symmetric. */
  lemma PreprocessMutual(data: seq<Point>, geo: Geometry, geo': Geometry, idx: nat, e: Entry)
    requires idx < |data| && ByRadius(data, geo.sqrt) && e in Preprocess(data, geo, idx)
    requires geo'.sqrt == geo.sqrt && geo'.max2R == geo.max2R && geo'.max2R2 == geo.max2R2
    requires e.1 < |data| && CutKeepsNear(data, geo', e.1)
    ensures (e.0, idx) in Preprocess(data, geo', e.1)
  {
    PreprocessIsNeighbours(data, geo, idx, e);
    var x := e.1;
    ReachedByRadius(data, geo, idx, x);
    ReachedByRadius(data, geo', x, idx);
    DR2Symmetric(data[idx], data[x]);
    PreprocessIsNeighbours(data, geo', x, (e.0, idx));
  }

  /** The iterator `lNeighbourit` moved on from position `p` past every entry
      no further than `t`. */
  function Advance(ns: seq<Entry>, p: nat, t: real): (q: nat)
    requires p <= |ns|
    ensures p <= q <= |ns|
    ensures forall k :: p <= k < q ==> ns[k].0 <= t
    ensures q < |ns| ==> ns[q].0 > t
    decreases |ns| - p
  {
    if p == |ns| || ns[p].0 > t then p else Advance(ns, p + 1, t)
  }

  /** How many entries lie no further than `t`. */
  function CountWithin(ns: seq<Entry>, t: real): nat
  {
    if ns == [] then 0
    else CountWithin(ns[..|ns| - 1], t) + (if ns[|ns| - 1].0 <= t then 1 else 0)
  }

  /** Distances never decrease along `ns`. */
  predicate ByDistance(ns: seq<Entry>)
  {
    forall p, q :: 0 <= p < q < |ns| ==> ns[p].0 <= ns[q].0
  }

  lemma SortedByDistance(ns: seq<Entry>)
    requires SortedEntries(ns)
    ensures ByDistance(ns)
  {
  }

  /** An entry beyond `t` and all after it are beyond `t` too. */
  lemma {:induction false} NoneWithinAfter(ns: seq<Entry>, q: nat, t: real)
    requires ByDistance(ns) && q <= |ns| && (q < |ns| ==> ns[q].0 > t)
    ensures CountWithin(ns, t) == CountWithin(ns[..q], t)
    decreases |ns| - q
  {
    if q < |ns| {
      var ns' := ns[..|ns| - 1];
      assert ns'[..q] == ns[..q];
      NoneWithinAfter(ns', q, t);
      assert ns[|ns| - 1].0 >= ns[q].0;
    } else {
      assert ns[..q] == ns;
    }
  }

  /** A prefix whose entries are all within `t` counts them all. */
  lemma {:induction false} AllWithin(ns: seq<Entry>, q: nat, t: real)
    requires q <= |ns| && forall k :: 0 <= k < q ==> ns[k].0 <= t
    ensures CountWithin(ns[..q], t) == q
  {
    if q > 0 {
      assert ns[..q][..q - 1] == ns[..q - 1];
      AllWithin(ns, q - 1, t);
    }
  }

  /** On a list sorted by distance, the iterator stops after exactly the entries
      within `t`, wherever it starts among them. */
  lemma AdvanceCounts(ns: seq<Entry>, p: nat, t: real)
    requires ByDistance(ns) && p <= |ns| && forall k :: 0 <= k < p ==> ns[k].0 <= t
    ensures Advance(ns, p, t) == CountWithin(ns, t)
  {
    var q := Advance(ns, p, t);
    NoneWithinAfter(ns, q, t);
    AllWithin(ns, q, t);
  }

  /** `CalculateLocalizationScore`: `sqrt(constant * count)` over the sorted
      prefix within R; `constant` is `area / (pi * (N - 1))`. */
  function LocalizationScore(ns: seq<Entry>, r: real, constant: real, sqrt: real -> real): real
  {
    Root(constant, Advance(ns, 0, Sq(r)), sqrt)
  }

  /** `sqrt( lLocalizationConstant * lLocalizationSum )`. */
  function Root(constant: real, count: nat, sqrt: real -> real): real
  {
    sqrt(constant * count as real)
  }

  /** On a sorted neighbour list the score counts exactly the neighbours within R. */
  lemma LocalizationScoreCounts(ns: seq<Entry>, r: real, constant: real, sqrt: real -> real)
    requires ByDistance(ns)
    ensures LocalizationScore(ns, r, constant, sqrt) == Root(constant, CountWithin(ns, Sq(r)), sqrt)
  {
    AdvanceCounts(ns, 0, Sq(r));
  }

  /** `R * R`. */
  function Sq(r: real): real
  {
    r * r
  }

  /** The radius of R bin `i`: `minScanR + i * dR`. */
  function BinRadius(minR: real, dR: real, i: nat): real
  {
    minR + i as real * dR
  }

  /** Consecutive bins are `dR` apart (the loop's `R += dR`). */
  lemma BinStep(minR: real, dR: real, i: nat)
    ensures BinRadius(minR, dR, i + 1) == BinRadius(minR, dR, i) + dR
  {
    assert (i + 1) as real * dR == i as real * dR + dR;
  }

  /** The inner loop over `lNeighbourit`. */
  method AdvanceLoop(ns: seq<Entry>, p: nat, t: real) returns (q: nat)
    requires p <= |ns|
    ensures q == Advance(ns, p, t)
  {
    q := p;
    while q != |ns| && ns[q].0 <= t
      invariant p <= q <= |ns|
      invariant Advance(ns, q, t) == Advance(ns, p, t)
      decreases |ns| - q
    {
      q := q + 1;
    }
  }

  /** Where the iterator stands after R bin `i`. */
  function CountAt(ns: seq<Entry>, minR: real, dR: real, i: nat): (c: nat)
    ensures c <= |ns|
  {
    var r := BinRadius(minR, dR, i);
    Advance(ns, if i == 0 then 0 else CountAt(ns, minR, dR, i - 1), Sq(r))
  }

  /** One step of the iterator from where the previous bin left it. */
  lemma CountAtStep(ns: seq<Entry>, minR: real, dR: real, i: nat, p: nat)
    requires p == if i == 0 then 0 else CountAt(ns, minR, dR, i - 1)
    ensures Advance(ns, p, Sq(BinRadius(minR, dR, i))) == CountAt(ns, minR, dR, i)
  {
  }

  /** The running count never decreases from one bin to the next. */
  lemma CountGrows(ns: seq<Entry>, minR: real, dR: real, i: nat)
    ensures CountAt(ns, minR, dR, i) <= CountAt(ns, minR, dR, i + 1)
  {
  }

  /** The score reported for a count: 0 until something is counted. */
  function ScoreFor(count: nat, constant: real, sqrt: real -> real): real
  {
    if count == 0 then 0.0 else Root(constant, count, sqrt)
  }

  /** `PreprocessLocalizationScores`: one score per R bin; the iterator is never
      reset, and the root is taken again only when the count has changed. */
  method LocalizationScores(ns: seq<Entry>, rbins: nat, minR: real, dR: real, constant: real, sqrt: real -> real)
    returns (scores: seq<real>)
    ensures |scores| == rbins
    ensures forall i :: 0 <= i < rbins ==> scores[i] == ScoreFor(CountAt(ns, minR, dR, i), constant, sqrt)
  {
    var it, sum, last, score := 0, 0, 0, 0.0;
    var r := minR;
    scores := [];
    var i := 0;
    while i != rbins
      invariant 0 <= i <= rbins && |scores| == i
      invariant r == BinRadius(minR, dR, i)
      invariant it <= |ns| && sum == it && last == sum
      invariant i > 0 ==> it == CountAt(ns, minR, dR, i - 1)
      invariant i == 0 ==> it == 0
      invariant score == ScoreFor(last, constant, sqrt)
      invariant scores == ScoresUpTo(ns, minR, dR, constant, sqrt, i)
    {
      ghost var p := it;
      it := AdvanceLoop(ns, it, Sq(r));
      CountAtStep(ns, minR, dR, i, p);
      sum := it;
      if last != sum {
        score := Root(constant, sum, sqrt);
        last := sum;
      }
      assert score == ScoreFor(CountAt(ns, minR, dR, i), constant, sqrt);
      scores := scores + [score];
      BinStep(minR, dR, i);
      i, r := i + 1, r + dR;
    }
    ScoresUpToAt(ns, minR, dR, constant, sqrt, rbins);
  }

  /** The scores of the first `n` bins, each for its bin's count. */
  function ScoresUpTo(ns: seq<Entry>, minR: real, dR: real, constant: real, sqrt: real -> real, n: nat): seq<real>
  {
    if n == 0 then [] else ScoresUpTo(ns, minR, dR, constant, sqrt, n - 1) + [ScoreFor(CountAt(ns, minR, dR, n - 1), constant, sqrt)]
  }

  lemma {:induction false} ScoresUpToAt(ns: seq<Entry>, minR: real, dR: real, constant: real, sqrt: real -> real, n: nat)
    ensures |ScoresUpTo(ns, minR, dR, constant, sqrt, n)| == n
    ensures forall i :: 0 <= i < n ==> ScoresUpTo(ns, minR, dR, constant, sqrt, n)[i] == ScoreFor(CountAt(ns, minR, dR, i), constant, sqrt)
  {
    if n > 0 {
      ScoresUpToAt(ns, minR, dR, constant, sqrt, n - 1);
    }
  }

  /** Squares of non-negative radii keep their order. */
  lemma SquareMono(a: real, b: real)
    requires 0.0 <= a <= b
    ensures Sq(a) <= Sq(b)
  {
    if a < b {
      MulLess(a, b, a);
    }
  }

  /** With `minScanR` and `dR` non-negative, the count at R bin `i` is the number
      of neighbours within that bin's radius. */
  lemma {:induction false} CountAtIsWithin(ns: seq<Entry>, minR: real, dR: real, i: nat)
    requires ByDistance(ns) && minR >= 0.0 && dR >= 0.0
    ensures CountAt(ns, minR, dR, i) == CountWithin(ns, Sq(BinRadius(minR, dR, i)))
  {
    var r := BinRadius(minR, dR, i);
    if i == 0 {
      AdvanceCounts(ns, 0, Sq(r));
    } else {
      var r' := BinRadius(minR, dR, i - 1);
      var p := CountAt(ns, minR, dR, i - 1);
      CountAtIsWithin(ns, minR, dR, i - 1);
      assert Sq(r') <= Sq(r) by {
        BinStep(minR, dR, i - 1);
        NonNegative(minR, dR, i - 1);
        SquareMono(r', r);
      }
      assert forall k :: 0 <= k < p ==> ns[k].0 <= Sq(r) by {
        forall k | 0 <= k < p ensures ns[k].0 <= Sq(r) {
          WithinBefore(ns, k, p, Sq(r'));
        }
      }
      AdvanceCounts(ns, p, Sq(r));
    }
  }

  /** Bin radii are non-negative when the first radius and the spacing are. */
  lemma NonNegative(minR: real, dR: real, i: nat)
    requires minR >= 0.0 && dR >= 0.0
    ensures BinRadius(minR, dR, i) >= 0.0
  {
    assert i as real * dR >= 0.0 by {
      if i > 0 && dR > 0.0 {
        Points.PosMul(i as real, dR);
      }
    }
  }

  /** Every entry before the number counted within `t` is within `t`. */
  lemma WithinBefore(ns: seq<Entry>, k: nat, p: nat, t: real)
    requires ByDistance(ns) && k < p == CountWithin(ns, t) && p <= |ns|
    ensures ns[k].0 <= t
  {
    var q := Advance(ns, 0, t);
    AdvanceCounts(ns, 0, t);
  }
}
