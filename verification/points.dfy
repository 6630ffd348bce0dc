/** The data-point of the C++ engine (`Data`): a position and a localisation
    uncertainty. The constructor's derived fields are functions here: `r2` is
    exact, while `r = sqrt(r2)` and `phi = atan2(y, x)` go through the square
    root and arctangent the caller supplies. */
module Points {

  /** `Data(x, y, s)`. */
  datatype Point = Point(x: real, y: real, s: real)

  function Abs(v: real): (a: real)
    ensures a >= 0.0 && (a == v || a == -v)
  {
    if v < 0.0 then -v else v
  }

  /** A square is never negative. */
  lemma Square(u: real)
    ensures u * u >= 0.0
  {
    if u < 0.0 {
      PosMul(-u, -u);
      assert u * u == (-u) * (-u);
    } else if u > 0.0 {
      PosMul(u, u);
    }
  }

  lemma PosMul(a: real, b: real)
    requires a > 0.0 && b > 0.0
    ensures a * b > 0.0
  {
  }

  /** `r2 = x*x + y*y`: the squared distance from the origin. */
  function R2(p: Point): (d: real)
    ensures d >= 0.0
    ensures p.x == 0.0 && p.y == 0.0 ==> d == 0.0
  {
    Square(p.x);
    Square(p.y);
    p.x * p.x + p.y * p.y
  }

  /** `sqrt` returns the non-negative root of every non-negative argument. */
  ghost predicate IsSqrt(sqrt: real -> real)
  {
    forall v :: v >= 0.0 ==> sqrt(v) >= 0.0 && sqrt(v) * sqrt(v) == v
  }

  /** `r = sqrt(r2)`. */
  function Radius(p: Point, sqrt: real -> real): real
  {
    sqrt(R2(p))
  }

  /** `operator<`: closer to the origin, by `r`. */
  predicate Less(a: Point, b: Point, sqrt: real -> real)
  {
    Radius(a, sqrt) < Radius(b, sqrt)
  }

  /** Square roots of non-negative numbers keep their order. */
  lemma RootOrder(u: real, v: real, ru: real, rv: real)
    requires u >= 0.0 && v >= 0.0 && ru >= 0.0 && rv >= 0.0 && ru * ru == u && rv * rv == v
    ensures ru < rv <==> u < v
  {
    if ru < rv {
      MulLess(ru, rv, ru);
      MulLess(ru, rv, rv);
    } else if rv < ru {
      MulLess(rv, ru, rv);
      MulLess(rv, ru, ru);
    }
  }

  lemma MulLess(a: real, b: real, c: real)
    requires 0.0 <= a < b && c >= 0.0
    ensures a * c <= b * c && (c > 0.0 ==> a * c < b * c) && a * a < b * b
  {
    assert b * c - a * c == (b - a) * c;
    assert b * b - a * a == (b - a) * (b + a);
    PosMul(b - a, b + a);
    if c > 0.0 {
      PosMul(b - a, c);
    }
  }

  /** Comparing `r` is comparing `r2`: sorting by `operator<` needs no root. */
  lemma LessIsByR2(a: Point, b: Point, sqrt: real -> real)
    requires IsSqrt(sqrt)
    ensures Less(a, b, sqrt) <==> R2(a) < R2(b)
  {
    RootOrder(R2(a), R2(b), sqrt(R2(a)), sqrt(R2(b)));
  }

  /** `dR2`: the squared distance between two points; zero between a point
      and itself. */
  function DR2(a: Point, b: Point): (d: real)
    ensures d >= 0.0
    ensures a.x == b.x && a.y == b.y ==> d == 0.0
  {
    Square(a.x - b.x);
    Square(a.y - b.y);
    (a.x - b.x) * (a.x - b.x) + (a.y - b.y) * (a.y - b.y)
  }

  /** `dR2` is symmetric. */
  lemma DR2Symmetric(a: Point, b: Point)
    ensures DR2(a, b) == DR2(b, a)
  {
    assert (a.x - b.x) * (a.x - b.x) == (b.x - a.x) * (b.x - a.x);
    assert (a.y - b.y) * (a.y - b.y) == (b.y - a.y) * (b.y - a.y);
  }

  /** `dR = sqrt(dR2)`. */
  function DR(a: Point, b: Point, sqrt: real -> real): real
  {
    sqrt(DR2(a, b))
  }

  /** `dR` is a distance: non-negative, symmetric, and squaring to `dR2`. */
  lemma DRIsDistance(a: Point, b: Point, sqrt: real -> real)
    requires IsSqrt(sqrt)
    ensures DR(a, b, sqrt) >= 0.0 && DR(a, b, sqrt) * DR(a, b, sqrt) == DR2(a, b)
    ensures DR(a, b, sqrt) == DR(b, a, sqrt)
  {
    DR2Symmetric(a, b);
  }

  /** `phi = atan2(y, x)`. */
  function Phi(p: Point, atan2: (real, real) -> real): real
  {
    atan2(p.y, p.x)
  }

  /** `dPhi = fabs(phi - phi')`: non-negative, symmetric, zero on a point
      itself. */
  function DPhi(a: Point, b: Point, atan2: (real, real) -> real): (d: real)
    ensures d >= 0.0
    ensures d == DPhiOf(Phi(b, atan2), Phi(a, atan2))
    ensures a == b ==> d == 0.0
  {
    Abs(Phi(a, atan2) - Phi(b, atan2))
  }

  /** The angular separation of two angles. */
  function DPhiOf(u: real, v: real): real
  {
    Abs(u - v)
  }
}
