/** The bounding box of a labelled component in the Python driver (class `Box`),
    its ordering and its conversion to a scan centre and zoom. */
module RoiBox {

  /** Bounds in grid cells: `n`/`s` bound the second index, `e`/`w` the first. */
  datatype Box = Box(n: int, e: int, s: int, w: int)

  function Abs(x: int): nat
  {
    if x < 0 then -x else x
  }

  /** `abs(n - s) * abs(e - w)`. */
  function Area(b: Box): (a: nat)
    ensures a == 0 <==> b.n == b.s || b.e == b.w
  {
    Abs(b.n - b.s) * Abs(b.e - b.w)
  }

  /** `Box.__lt__`: boxes are compared by area only. */
  predicate Less(a: Box, b: Box)
  {
    Area(a) < Area(b)
  }

  /** `Less` is a strict weak order: irreflexive, transitive, and boxes of equal
      area are interchangeable. */
  lemma LessIsStrictWeakOrder(a: Box, b: Box, c: Box)
    ensures !Less(a, a)
    ensures Less(a, b) && Less(b, c) ==> Less(a, c)
    ensures !Less(a, b) && !Less(b, a) ==> Area(a) == Area(b)
    ensures Area(a) == Area(b) ==> (Less(a, c) <==> Less(b, c)) && (Less(c, a) <==> Less(c, b))
  {
  }

  /** `Box.centre`: ((w + e - 2) / 8, (s + n - 2) / 8). */
  function Centre(b: Box): (c: (real, real))
    ensures 8.0 * c.0 + 2.0 == (b.w + b.e) as real
    ensures 8.0 * c.1 + 2.0 == (b.s + b.n) as real
  {
    (((b.w + b.e - 2) as real) / 8.0, ((b.s + b.n - 2) as real) / 8.0)
  }

  /** `Box.zoom`: a quarter of the larger of the two spans. */
  function Zoom(b: Box): (z: real)
    ensures z >= 0.0
    ensures 4.0 * z >= Abs(b.s - b.n) as real && 4.0 * z >= Abs(b.w - b.e) as real
    ensures 4.0 * z == Abs(b.s - b.n) as real || 4.0 * z == Abs(b.w - b.e) as real
  {
    var ns := Abs(b.s - b.n);
    var we := Abs(b.w - b.e);
    (if ns >= we then ns else we) as real / 4.0
  }

  /** The box with north 10, east 20, south 2 and west 4 has centre
      (2.75, 1.25), zoom 4 and area 128. */
  lemma CentreZoomExample()
    ensures Centre(Box(10, 20, 2, 4)) == (2.75, 1.25)
    ensures Zoom(Box(10, 20, 2, 4)) == 4.0
    ensures Area(Box(10, 20, 2, 4)) == 128
  {
  }
}
