/** The Python driver's `blurAndThresh`: a box blur of radius `rounds` made of
    wrap-around shifts (`np.roll`) of a zero-padded copy, normalised by its maximum
    and thresholded to a 0/1 mask, with the padding cut off again. */
module Blur {
  import opened Grids
  import opened Wrappers

  /** The grid `a` extended by zeros in every direction. */
  function Ext(a: seq<seq<real>>, h: nat, w: nat, x: int, y: int): real
    requires IsGrid(a, h, w)
  {
    if 0 <= x < h && 0 <= y < w then a[x][y] else 0.0
  }

  /** `pad_arr` with `arr` written into its middle: `r` zero rows and columns on
      every side. */
  function Pad(a: seq<seq<real>>, h: nat, w: nat, r: nat): (p: seq<seq<real>>)
    requires IsGrid(a, h, w)
    ensures IsGrid(p, h + 2 * r, w + 2 * r)
    ensures forall x, y :: 0 <= x < h && 0 <= y < w ==> p[x + r][y + r] == a[x][y]
    ensures forall x, y :: 0 <= x < h + 2 * r && 0 <= y < w + 2 * r && !(r <= x < h + r && r <= y < w + r) ==>
              p[x][y] == 0.0
  {
    var p := seq(h + 2 * r, x => seq(w + 2 * r, y => Ext(a, h, w, x - r, y - r)));
    assert forall x, y :: 0 <= x < h + 2 * r && 0 <= y < w + 2 * r ==> p[x][y] == Ext(a, h, w, x - r, y - r);
    p
  }

  /** The columns j' = -r .. j of the window at (x, y) over a grid of width W,
      columns taken mod W as `np.roll(_, j', 1)` does. */
  function WrapRow(g: seq<seq<real>>, H: nat, W: nat, x: int, y: int, r: nat, j: int): real
    requires IsGrid(g, H, W) && 0 <= x < H && W > 0 && 0 <= j + r + 1 && j <= r
    decreases j + r + 1
  {
    if j + r < 0 then 0.0 else WrapRow(g, H, W, x, y, r, j - 1) + g[x][(y - j) % W]
  }

  /** Rows i' = -r .. i of the window: the accumulated `np.roll(np.roll(g, i', 0), j', 1)`
      at (x, y), rows taken mod H. */
  function WrapWindow(g: seq<seq<real>>, H: nat, W: nat, x: int, y: int, r: nat, i: int): real
    requires IsGrid(g, H, W) && H > 0 && W > 0 && 0 <= i + r + 1 && i <= r
    decreases i + r + 1
  {
    if i + r < 0 then 0.0 else WrapWindow(g, H, W, x, y, r, i - 1) + WrapRow(g, H, W, (x - i) % H, y, r, r)
  }

  /** The same window over the zero-extended grid, with no wrap-around. */
  function PlainRow(a: seq<seq<real>>, h: nat, w: nat, x: int, y: int, r: nat, j: int): real
    requires IsGrid(a, h, w) && 0 <= j + r + 1 && j <= r
    decreases j + r + 1
  {
    if j + r < 0 then 0.0 else PlainRow(a, h, w, x, y, r, j - 1) + Ext(a, h, w, x, y - j)
  }

  function PlainWindow(a: seq<seq<real>>, h: nat, w: nat, x: int, y: int, r: nat, i: int): real
    requires IsGrid(a, h, w) && 0 <= i + r + 1 && i <= r
    decreases i + r + 1
  {
    if i + r < 0 then 0.0 else PlainWindow(a, h, w, x, y, r, i - 1) + PlainRow(a, h, w, x - i, y, r, r)
  }

  /** The largest entry of a non-empty row. */
  function RowMax(row: seq<real>): (m: real)
    requires |row| > 0
    ensures forall k :: 0 <= k < |row| ==> row[k] <= m
    ensures exists k :: 0 <= k < |row| && row[k] == m
  {
    if |row| == 1 then row[0]
    else
      var m' := RowMax(row[1..]);
      assert forall k :: 1 <= k < |row| ==> row[k] == row[1..][k - 1];
      if row[0] >= m' then row[0] else m'
  }

  /** `g.max()` for a non-empty grid. */
  function GridMax(g: seq<seq<real>>, H: nat, W: nat): (m: real)
    requires IsGrid(g, H, W) && H > 0 && W > 0
    ensures IsMax(g, H, W, m)
  {
    if H == 1 then RowMax(g[0])
    else
      var m' := GridMax(g[1..], H - 1, W);
      assert forall x :: 1 <= x < H ==> g[x] == g[1..][x - 1];
      var m0 := RowMax(g[0]);
      if m0 >= m' then m0 else m'
  }

  /** `np.where(v / m > t, 1, 0)`; a zero maximum makes every quotient NaN or
      -inf, and neither exceeds `t`. */
  function Threshold(v: real, m: real, t: real): (b: int)
    ensures b == 0 || b == 1
    ensures b == 1 <==> m != 0.0 && v / m > t
  {
    if m != 0.0 && v / m > t then 1 else 0
  }

  /** Lines 129-131: a grid whose maximum exceeds 1 is divided by it, which
      rescales it to maximum 1. */
  function Normalise(a: seq<seq<real>>, h: nat, w: nat): (n: seq<seq<real>>)
    requires IsGrid(a, h, w) && h > 0 && w > 0
    ensures IsGrid(n, h, w)
    ensures GridMax(a, h, w) <= 1.0 ==> n == a
    ensures GridMax(a, h, w) > 1.0 ==> IsMax(n, h, w, 1.0) && exists c :: 0.0 < c && n == Scale(a, h, w, c)
  {
    var m := GridMax(a, h, w);
    if m > 1.0 then
      DividedByMax(a, h, w, m);
      Scale(a, h, w, 1.0 / m)
    else a
  }

  /** Dividing a grid by its positive maximum leaves maximum 1. */
  lemma DividedByMax(g: seq<seq<real>>, H: nat, W: nat, m: real)
    requires IsGrid(g, H, W) && IsMax(g, H, W, m) && m > 0.0
    ensures IsMax(Scale(g, H, W, 1.0 / m), H, W, 1.0)
  {
    ScaledIsMax(g, H, W, 1.0 / m, m);
    InvMul(m);
  }

  /** An entry of a grid divided by `m`, multiplied back by `m`. */
  lemma ScaleBack(g: seq<seq<real>>, H: nat, W: nat, m: real, x: int, y: int)
    requires IsGrid(g, H, W) && m != 0.0 && 0 <= x < H && 0 <= y < W
    ensures Scale(g, H, W, 1.0 / m)[x][y] * m == g[x][y]
  {
    DivMul(g[x][y], m);
  }

  lemma InvMul(m: real)
    requires m != 0.0
    ensures (1.0 / m) * m == 1.0
  {
  }

  lemma DivMul(v: real, m: real)
    requires m != 0.0
    ensures (1.0 / m * v) * m == v
  {
    calc {
      (1.0 / m * v) * m;
      (1.0 / m * m) * v;
      { InvMul(m); }
      v;
    }
  }

  lemma MulMono(c: real, u: real, v: real)
    requires c > 0.0 && u <= v
    ensures c * u <= c * v
  {
  }

  /** `m` is the largest entry of the grid. */
  ghost predicate IsMax(g: seq<seq<real>>, H: nat, W: nat, m: real)
    requires IsGrid(g, H, W)
  {
    (forall x, y :: 0 <= x < H && 0 <= y < W ==> g[x][y] <= m) &&
    (exists x, y :: 0 <= x < H && 0 <= y < W && g[x][y] == m)
  }

  /** A grid has one maximum. */
  lemma MaxUnique(g: seq<seq<real>>, H: nat, W: nat, m: real, m': real)
    requires IsGrid(g, H, W) && IsMax(g, H, W, m) && IsMax(g, H, W, m')
    ensures m == m'
  {
    var x0, y0 :| 0 <= x0 < H && 0 <= y0 < W && g[x0][y0] == m;
    var x1, y1 :| 0 <= x1 < H && 0 <= y1 < W && g[x1][y1] == m';
  }

  /** Scaling by a positive factor scales the maximum. */
  lemma ScaledIsMax(g: seq<seq<real>>, H: nat, W: nat, c: real, m: real)
    requires IsGrid(g, H, W) && c > 0.0 && IsMax(g, H, W, m)
    ensures IsMax(Scale(g, H, W, c), H, W, c * m)
  {
    var s := Scale(g, H, W, c);
    var x0, y0 :| 0 <= x0 < H && 0 <= y0 < W && g[x0][y0] == m;
    assert s[x0][y0] == c * m;
    forall x, y | 0 <= x < H && 0 <= y < W ensures s[x][y] <= c * m {
      MulMono(c, g[x][y], m);
    }
  }

  /** Every entry multiplied by `c`. */
  function Scale(a: seq<seq<real>>, h: nat, w: nat, c: real): (s: seq<seq<real>>)
    requires IsGrid(a, h, w)
    ensures IsGrid(s, h, w)
    ensures forall x, y :: 0 <= x < h && 0 <= y < w ==> s[x][y] == c * a[x][y]
  {
    seq(h, x requires 0 <= x < h => seq(w, y requires 0 <= y < w => c * a[x][y]))
  }

  /** The blurred, padded accumulator `arr_empty` before normalisation. */
  function Accumulate(p: seq<seq<real>>, H: nat, W: nat, r: nat): (s: seq<seq<real>>)
    requires IsGrid(p, H, W) && H > 0 && W > 0
    ensures IsGrid(s, H, W)
    ensures forall x, y :: 0 <= x < H && 0 <= y < W ==> s[x][y] == WrapWindow(p, H, W, x, y, r, r)
  {
    seq(H, x requires 0 <= x < H => seq(W, y requires 0 <= y < W => WrapWindow(p, H, W, x, y, r, r)))
  }

  /** The mask over the whole padded grid. */
  function Mask(s: seq<seq<real>>, H: nat, W: nat, m: real, t: real): (k: seq<seq<int>>)
    requires IsGrid(s, H, W)
    ensures IsGrid(k, H, W)
    ensures forall x, y :: 0 <= x < H && 0 <= y < W ==> (k[x][y] == 1 <==> m != 0.0 && s[x][y] / m > t)
    ensures forall x, y :: 0 <= x < H && 0 <= y < W ==> k[x][y] == 0 || k[x][y] == 1
  {
    seq(H, x requires 0 <= x < H => seq(W, y requires 0 <= y < W => Threshold(s[x][y], m, t)))
  }

  /** `k[r:r+h, r:r+w]`: the padding cut off by explicit bounds. */
  function Strip(k: seq<seq<int>>, h: nat, w: nat, r: nat): (o: seq<seq<int>>)
    requires IsGrid(k, h + 2 * r, w + 2 * r)
    ensures IsGrid(o, h, w)
    ensures forall x, y :: 0 <= x < h && 0 <= y < w ==> o[x][y] == k[x + r][y + r]
  {
    seq(h, x requires 0 <= x < h => k[x + r][r .. r + w])
  }

  /** `k[r:-r, r:-r]` as line 152 writes it: with r = 0 the stop index `-0` is 0,
      so the slice is empty. */
  function StripAsWritten(k: seq<seq<int>>, h: nat, w: nat, r: nat): (o: seq<seq<int>>)
    requires IsGrid(k, h + 2 * r, w + 2 * r)
    ensures r == 0 ==> o == []
    ensures r > 0 ==> o == Strip(k, h, w, r)
  {
    if r == 0 then [] else Strip(k, h, w, r)
  }

  /** The padded, blurred and thresholded grid, before the padding is cut off. */
  function PaddedMask(arr: seq<seq<real>>, h: nat, w: nat, rounds: nat, t: real): (k: seq<seq<int>>)
    requires IsGrid(arr, h, w) && h > 0 && w > 0
    ensures IsGrid(k, h + 2 * rounds, w + 2 * rounds)
  {
    var H, W := h + 2 * rounds, w + 2 * rounds;
    var s := Accumulate(Pad(Normalise(arr, h, w), h, w, rounds), H, W, rounds);
    Mask(s, H, W, GridMax(s, H, W), t)
  }

  /** Whether line 135 can write an h×w array into `pad_arr[r:-r, r:-r]`: for
      r > 0 the slice has the array's shape; for r = 0 it is `[0:0, 0:0]`, of shape
      (0, 0), into which numpy broadcasts only a 1×1 array. */
  predicate Broadcasts(h: nat, w: nat, r: nat)
  {
    r > 0 || (h == 1 && w == 1)
  }

  /** `blurAndThresh(arr, rounds, threshold)` as written: with `rounds = 0` the
      assignment of line 135 raises for every input other than 1×1, and a 1×1
      input comes back as the empty array `[0:-0, 0:-0]` of line 152. */
  function BlurAndThreshAsWritten(arr: seq<seq<real>>, h: nat, w: nat, rounds: nat, t: real): (o: Result<seq<seq<int>>, string>)
    requires IsGrid(arr, h, w) && h > 0 && w > 0
    ensures o.Err? <==> rounds == 0 && (h != 1 || w != 1)
    ensures o.Ok? && rounds == 0 ==> o.value == []
    ensures rounds > 0 ==> o == Ok(BlurAndThresh(arr, h, w, rounds, t))
  {
    if !Broadcasts(h, w, rounds) then Err("could not broadcast input array into shape (0,0)")
    else Ok(StripAsWritten(PaddedMask(arr, h, w, rounds, t), h, w, rounds))
  }

  /** `blurAndThresh` with the padding cut off by explicit bounds, so that every
      radius, 0 included, gives a mask of the input's shape. */
  function BlurAndThresh(arr: seq<seq<real>>, h: nat, w: nat, rounds: nat, t: real): (o: seq<seq<int>>)
    requires IsGrid(arr, h, w) && h > 0 && w > 0
    ensures IsGrid(o, h, w)
    ensures forall x, y :: 0 <= x < h && 0 <= y < w ==> o[x][y] == 0 || o[x][y] == 1
  {
    Strip(PaddedMask(arr, h, w, rounds, t), h, w, rounds)
  }

  /** The window sums of the zero-extended grid at every cell of the padded grid,
      (X, Y) standing for (X - r, Y - r) of the original. */
  function PlainField(a: seq<seq<real>>, h: nat, w: nat, r: nat): (f: seq<seq<real>>)
    requires IsGrid(a, h, w)
    ensures IsGrid(f, h + 2 * r, w + 2 * r)
    ensures forall x, y :: 0 <= x < h + 2 * r && 0 <= y < w + 2 * r ==> f[x][y] == PlainWindow(a, h, w, x - r, y - r, r, r)
  {
    seq(h + 2 * r, x requires 0 <= x < h + 2 * r => seq(w + 2 * r, y => PlainWindow(a, h, w, x - r, y - r, r, r)))
  }

  /** Python's `%` by a positive modulus on the range the shifts reach. */
  lemma ModCases(v: int, m: int)
    requires m > 0 && -m <= v < 2 * m
    ensures v % m == if v < 0 then v + m else if v >= m then v - m else v
  {
    var q, k := v / m, v % m;
    assert v == m * q + k && 0 <= k < m;
    if q <= -2 {
      MulLe(m, q, -2);
    } else if q >= 2 {
      MulLe(m, 2, q);
    } else if q == 1 {
      assert m * q == m;
    } else if q == -1 {
      assert m * q == -m;
    }
  }

  lemma MulLe(m: int, a: int, b: int)
    requires m > 0 && a <= b
    ensures m * a <= m * b
  {
  }

  /** A padded row read with wrap-around columns gives the zero-extended row:
      a column shifted past either edge lands in the padding, where the extended
      grid is 0 too. Row `xp` of the padded grid shows row `x` of the original,
      or both are outside it. */
  lemma {:induction false} WrapRowIsPlain(a: seq<seq<real>>, h: nat, w: nat, r: nat, xp: int, x: int, y: int, j: int)
    requires IsGrid(a, h, w) && 0 <= xp < h + 2 * r && 0 <= y < w + 2 * r && 0 <= j + r + 1 && j <= r
    requires xp - r == x || (!(0 <= x < h) && !(r <= xp < h + r))
    ensures WrapRow(Pad(a, h, w, r), h + 2 * r, w + 2 * r, xp, y, r, j) == PlainRow(a, h, w, x, y - r, r, j)
    decreases j + r + 1
  {
    if j + r >= 0 {
      WrapRowIsPlain(a, h, w, r, xp, x, y, j - 1);
      var W := w + 2 * r;
      ModCases(y - j, W);
    }
  }

  /** The same for whole windows: rows shifted past either edge land in the
      padding too. */
  lemma {:induction false} WrapWindowIsPlain(a: seq<seq<real>>, h: nat, w: nat, r: nat, x: int, y: int, i: int)
    requires IsGrid(a, h, w) && 0 <= x < h + 2 * r && 0 <= y < w + 2 * r && 0 <= i + r + 1 && i <= r
    ensures WrapWindow(Pad(a, h, w, r), h + 2 * r, w + 2 * r, x, y, r, i) == PlainWindow(a, h, w, x - r, y - r, r, i)
    decreases i + r + 1
  {
    if i + r >= 0 {
      WrapWindowIsPlain(a, h, w, r, x, y, i - 1);
      var H := h + 2 * r;
      ModCases(x - i, H);
      WrapRowIsPlain(a, h, w, r, (x - i) % H, x - r - i, y, r);
    }
  }

  /** Thanks to the padding, the wrap-around accumulator is exactly the table of
      plain window sums. */
  lemma AccumulateIsPlain(a: seq<seq<real>>, h: nat, w: nat, r: nat)
    requires IsGrid(a, h, w) && h > 0 && w > 0
    ensures Accumulate(Pad(a, h, w, r), h + 2 * r, w + 2 * r, r) == PlainField(a, h, w, r)
  {
    var H, W := h + 2 * r, w + 2 * r;
    var s, f := Accumulate(Pad(a, h, w, r), H, W, r), PlainField(a, h, w, r);
    forall x | 0 <= x < H ensures s[x] == f[x] {
      forall y | 0 <= y < W ensures s[x][y] == f[x][y] {
        WrapWindowIsPlain(a, h, w, r, x, y, r);
      }
    }
  }

  /** `blurAndThresh` with the padding cut off by explicit bounds: a cell is 1
      exactly when the (2r+1)-square window sum around it, over the normalised grid
      extended by zeros, exceeds `t` times the largest such sum over the padded
      grid; all sums 0 give the all-zero mask. */
  lemma BlurIsWindowThreshold(arr: seq<seq<real>>, h: nat, w: nat, rounds: nat, t: real, x: int, y: int)
    requires IsGrid(arr, h, w) && h > 0 && w > 0 && 0 <= x < h && 0 <= y < w
    ensures var n := Normalise(arr, h, w);
            var f := PlainField(n, h, w, rounds);
            var m := GridMax(f, h + 2 * rounds, w + 2 * rounds);
            BlurAndThresh(arr, h, w, rounds, t)[x][y] == 1 <==> m != 0.0 && PlainWindow(n, h, w, x, y, rounds, rounds) / m > t
  {
    var n := Normalise(arr, h, w);
    AccumulateIsPlain(n, h, w, rounds);
  }

  /** With `rounds = 0` the code as written never yields a mask of the input's
      shape: a 2×2 image raises at the padding step, and a 1×1 image comes back
      empty, where the corrected function gives one row per input row. */
  lemma AsWrittenLosesMaskAtZero(arr: seq<seq<real>>, h: nat, w: nat, t: real)
    requires IsGrid(arr, h, w) && h > 0 && w > 0
    ensures h == 2 && w == 2 ==> BlurAndThreshAsWritten(arr, h, w, 0, t).Err?
    ensures h == 1 && w == 1 ==> BlurAndThreshAsWritten(arr, h, w, 0, t) == Ok([])
    ensures |BlurAndThresh(arr, h, w, 0, t)| == h > 0
  {
  }
}
