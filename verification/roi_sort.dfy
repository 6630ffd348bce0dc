/** `sorted(boxes)` in the Python driver: a stable sort that compares boxes by
    `Box.__lt__`, that is by area alone. */
module AreaSort {
  import opened RoiBox

  /** Areas never decrease along `s`. */
  predicate SortedByArea(s: seq<Box>)
  {
    forall p, q :: 0 <= p < q < |s| ==> Area(s[p]) <= Area(s[q])
  }

  /** The boxes of `s` whose area is `a`, in the order they appear. */
  function WithArea(s: seq<Box>, a: nat): seq<Box>
  {
    if s == [] then []
    else WithArea(s[..|s| - 1], a) + (if Area(s[|s| - 1]) == a then [s[|s| - 1]] else [])
  }

  /** Places `x` after every box of `s` whose area is at most its own. */
  function Insert(x: Box, s: seq<Box>): (r: seq<Box>)
    requires SortedByArea(s)
    ensures SortedByArea(r)
    ensures multiset(r) == multiset(s) + multiset{x}
  {
    if s == [] then [x]
    else if Area(x) < Area(s[0]) then [x] + s
    else
      var t := Insert(x, s[1..]);
      assert multiset(s) == multiset{s[0]} + multiset(s[1..]) by { assert s == [s[0]] + s[1..]; }
      InsertBound(x, s, t);
      [s[0]] + t
  }

  /** Everything in the insertion into the tail of `s` is at least as large
      as the head of `s`. */
  lemma InsertBound(x: Box, s: seq<Box>, t: seq<Box>)
    requires SortedByArea(s) && s != [] && Area(s[0]) <= Area(x)
    requires multiset(t) == multiset(s[1..]) + multiset{x}
    ensures forall q :: 0 <= q < |t| ==> Area(s[0]) <= Area(t[q])
  {
    forall q | 0 <= q < |t| ensures Area(s[0]) <= Area(t[q]) {
      var b := t[q];
      assert b in multiset(t);
      if b != x {
        assert b in multiset(s[1..]);
        var k :| 0 <= k < |s[1..]| && s[1..][k] == b;
        assert s[k + 1] == b;
      }
    }
  }

  /** `sorted(s)`: the boxes of `s` inserted one after the other. */
  function SortByArea(s: seq<Box>): (r: seq<Box>)
    ensures SortedByArea(r)
    ensures multiset(r) == multiset(s)
  {
    if s == [] then []
    else
      assert s == s[..|s| - 1] + [s[|s| - 1]];
      Insert(s[|s| - 1], SortByArea(s[..|s| - 1]))
  }

  /** Sorting keeps exactly the boxes it was given. */
  lemma SortKeepsBoxes(s: seq<Box>)
    ensures forall b :: b in SortByArea(s) <==> b in s
  {
    var r := SortByArea(s);
    forall b ensures b in r <==> b in s {
      assert b in r <==> b in multiset(r);
      assert b in s <==> b in multiset(s);
    }
  }

  lemma {:induction false} WithAreaAppend(u: seq<Box>, v: seq<Box>, a: nat)
    ensures WithArea(u + v, a) == WithArea(u, a) + WithArea(v, a)
    decreases |v|
  {
    if v == [] {
      assert u + v == u;
    } else {
      var v' := v[..|v| - 1];
      assert (u + v)[..|u + v| - 1] == u + v';
      WithAreaAppend(u, v', a);
    }
  }

  lemma WithAreaSingle(x: Box, a: nat)
    ensures WithArea([x], a) == if Area(x) == a then [x] else []
  {
    assert [x][..0] == [];
  }

  /** Inserting `x` into a sorted sequence appends it to the boxes of its area. */
  lemma {:induction false} InsertStable(x: Box, s: seq<Box>, a: nat)
    requires SortedByArea(s)
    ensures WithArea(Insert(x, s), a) == WithArea(s, a) + (if Area(x) == a then [x] else [])
  {
    if s == [] {
      WithAreaSingle(x, a);
    } else if Area(x) < Area(s[0]) {
      InsertFront(x, s, a);
    } else {
      InsertStable(x, s[1..], a);
      ConsFilter(s[0], Insert(x, s[1..]), s[1..], if Area(x) == a then [x] else [], a);
      assert Insert(x, s) == [s[0]] + Insert(x, s[1..]);
      assert s == [s[0]] + s[1..];
    }
  }

  /** Putting the same box in front of two sequences keeps a relation between
      their boxes of area `a`. */
  lemma ConsFilter(b: Box, t: seq<Box>, u: seq<Box>, e: seq<Box>, a: nat)
    requires WithArea(t, a) == WithArea(u, a) + e
    ensures WithArea([b] + t, a) == WithArea([b] + u, a) + e
  {
    var h := WithArea([b], a);
    WithAreaAppend([b], t, a);
    WithAreaAppend([b], u, a);
    assert h + (WithArea(u, a) + e) == (h + WithArea(u, a)) + e;
  }

  /** `x` smaller than every box of `s` goes in front, and still comes last among
      the boxes of its area, since there are no others. */
  lemma InsertFront(x: Box, s: seq<Box>, a: nat)
    requires SortedByArea(s) && s != [] && Area(x) < Area(s[0])
    ensures WithArea(Insert(x, s), a) == WithArea(s, a) + (if Area(x) == a then [x] else [])
  {
    assert Insert(x, s) == [x] + s;
    WithAreaSingle(x, a);
    WithAreaAppend([x], s, a);
    if Area(x) == a {
      NoneWithArea(s, a);
    }
  }

  /** No box of a sorted sequence is smaller than its head. */
  lemma {:induction false} NoneWithArea(s: seq<Box>, a: nat)
    requires SortedByArea(s) && s != [] && a < Area(s[0])
    ensures WithArea(s, a) == []
    decreases |s|
  {
    var s' := s[..|s| - 1];
    if s' != [] {
      NoneWithArea(s', a);
    }
    assert Area(s[|s| - 1]) >= Area(s[0]);
  }

  /** Stability: for every area, the boxes of that area keep their input order. */
  lemma {:induction false} SortIsStable(s: seq<Box>, a: nat)
    ensures WithArea(SortByArea(s), a) == WithArea(s, a)
  {
    if s != [] {
      var s' := s[..|s| - 1];
      SortIsStable(s', a);
      InsertStable(s[|s| - 1], SortByArea(s'), a);
    }
  }
}
