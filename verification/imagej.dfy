/** `DecodeBinaryRoI` of `ImageJ_RoI.cpp`: the binary region-of-interest
    format of ImageJ (as read by its `RoiDecoder`), restricted to polygons of
    version 0xE4. The header is checked in a fixed order, each failure with
    its own message; then the polygon's points are read from two arrays of
    big-endian 16-bit coordinates, each offset by the header's left or top
    and stored as an unsigned 16-bit value. */
module ImageJ {
  import opened Wrappers

  type Byte = b: int | 0 <= b < 256

  /** "Iout". */
  const Magic: seq<Byte> := [0x49, 0x6F, 0x75, 0x74]
  const Version: nat := 0xE4

  /** Offsets of the header fields and of the coordinate arrays. */
  const VersionAt: nat := 4
  const TypeAt: nat := 6
  const TopAt: nat := 8
  const LeftAt: nat := 10
  const CountAt: nat := 16
  const HeaderSize: nat := 64

  /** `GetShort`: the big-endian 16-bit value at `i`. */
  function GetShort(d: seq<Byte>, i: nat): (v: nat)
    requires i + 1 < |d|
    ensures v < 0x1_0000
  {
    d[i] as int * 256 + d[i + 1] as int
  }

  /** A value's two bytes, most significant first. */
  function PutShort(v: nat): (b: seq<Byte>)
    requires v < 0x1_0000
  {
    [v / 256, v % 256]
  }

  /** Reading back the bytes of a value gives the value, and the bytes of a
      read value are the bytes read. */
  lemma ShortRoundTrip(v: nat, d: seq<Byte>, i: nat)
    requires v < 0x1_0000 && i + 1 < |d|
    ensures GetShort(PutShort(v), 0) == v
    ensures PutShort(GetShort(d, i)) == d[i..i + 2]
  {
  }

  /** The conversion to `uint16_t`. */
  function U16(v: int): (r: nat)
    ensures r < 0x1_0000
    ensures 0 <= v < 0x1_0000 ==> r == v
    ensures (r - v) % 0x1_0000 == 0
  {
    v % 0x1_0000
  }

  /** The bytes the decoder reads exist: the magic; the type and version once
      the magic matched; the header and both coordinate arrays once it is a
      version 0xE4 polygon. */
  predicate Readable(d: seq<Byte>)
  {
    |d| >= 4 &&
    (d[..4] == Magic ==>
       |d| >= 8 &&
       (GetShort(d, TypeAt) == 0 && GetShort(d, VersionAt) == Version ==>
          |d| >= 18 && (GetShort(d, CountAt) == 0 || |d| >= HeaderSize + 4 * GetShort(d, CountAt))))
  }

  type RoiPoint = (nat, nat)

  /** Point `i` of a polygon with `count` points: its x from the first array
      plus left, its y from the second plus top. */
  function PointAt(d: seq<Byte>, top: nat, left: nat, count: nat, i: nat): (p: RoiPoint)
    requires i < count && |d| >= HeaderSize + 4 * count
  {
    (U16(GetShort(d, HeaderSize + 2 * i) + left), U16(GetShort(d, HeaderSize + 2 * count + 2 * i) + top))
  }

  /** The decoded polygon, or the first header check that fails. */
  function Decode(d: seq<Byte>): (r: Result<seq<RoiPoint>, string>)
    requires Readable(d)
  {
    if d[..4] != Magic then Err("Not an ImageJ RoI file")
    else if GetShort(d, TypeAt) != 0 then Err("Only polygon data-type supported")
    else if GetShort(d, VersionAt) != Version then Err("Only tested on version 0xE4")
    else
      var count := GetShort(d, CountAt);
      Ok(seq(count, i requires 0 <= i < count => PointAt(d, GetShort(d, TopAt), GetShort(d, LeftAt), count, i)))
  }

  /** `DecodeBinaryRoI`: the checks in order, then the points appended one by
      one, `i0` and `i1` walking the two coordinate arrays. */
  method DecodeBinaryRoI(d: seq<Byte>) returns (r: Result<seq<RoiPoint>, string>)
    requires Readable(d)
    ensures r.Err? <==> d[..4] != Magic || GetShort(d, TypeAt) != 0 || GetShort(d, VersionAt) != Version
    ensures d[..4] != Magic ==> r == Err("Not an ImageJ RoI file")
    ensures d[..4] == Magic && GetShort(d, TypeAt) != 0 ==> r == Err("Only polygon data-type supported")
    ensures d[..4] == Magic && GetShort(d, TypeAt) == 0 && GetShort(d, VersionAt) != Version ==>
              r == Err("Only tested on version 0xE4")
    ensures r.Ok? ==> |r.value| == GetShort(d, CountAt)
    ensures r.Ok? ==> forall i :: 0 <= i < |r.value| ==>
              r.value[i] == PointAt(d, GetShort(d, TopAt), GetShort(d, LeftAt), GetShort(d, CountAt), i)
  {
    if d[..4] != Magic {
      return Err("Not an ImageJ RoI file");
    }
    if GetShort(d, TypeAt) != 0 {
      return Err("Only polygon data-type supported");
    }
    if GetShort(d, VersionAt) != Version {
      return Err("Only tested on version 0xE4");
    }
    var top, left, count := GetShort(d, TopAt), GetShort(d, LeftAt), GetShort(d, CountAt);
    var ring: seq<RoiPoint> := [];
    var i, i0, i1 := 0, HeaderSize, HeaderSize + 2 * count;
    while i != count
      invariant i <= count && i0 == HeaderSize + 2 * i && i1 == HeaderSize + 2 * count + 2 * i
      invariant |ring| == i && forall k :: 0 <= k < i ==> ring[k] == PointAt(d, top, left, count, k)
    {
      ring := ring + [(U16(GetShort(d, i0) + left), U16(GetShort(d, i1) + top))];
      i, i0, i1 := i + 1, i0 + 2, i1 + 2;
    }
    return Ok(ring);
  }

  // ---------------------------------------------------------------- encoding

  /** Big-endian bytes of a run of 16-bit values. */
  function Shorts(vs: seq<nat>): (b: seq<Byte>)
    requires forall k :: 0 <= k < |vs| ==> vs[k] < 0x1_0000
  {
    seq(2 * |vs|, j requires 0 <= j < 2 * |vs| => if j % 2 == 0 then vs[j / 2] / 256 else vs[j / 2] % 256)
  }

  lemma ShortsAt(pre: seq<Byte>, vs: seq<nat>, post: seq<Byte>, k: nat)
    requires forall k :: 0 <= k < |vs| ==> vs[k] < 0x1_0000
    requires k < |vs|
    ensures GetShort(pre + Shorts(vs) + post, |pre| + 2 * k) == vs[k]
  {
    var d := pre + Shorts(vs) + post;
    assert d[|pre| + 2 * k] == Shorts(vs)[2 * k];
    assert d[|pre| + 2 * k + 1] == Shorts(vs)[2 * k + 1];
  }

  /** A coordinate stored relative to an offset, as the decoder adds it back. */
  function Less(v: nat, offset: nat): nat
  {
    U16(v - offset)
  }

  /** The file that holds a polygon: a version 0xE4 polygon header with the
      given top, left and point count, then the x array and the y array. */
  function Encode(pts: seq<RoiPoint>, top: nat, left: nat): (d: seq<Byte>)
    requires |pts| < 0x1_0000 && top < 0x1_0000 && left < 0x1_0000
  {
    var head: seq<Byte> := Magic + PutShort(Version) + PutShort(0) + PutShort(top) + PutShort(left) +
                           [0, 0, 0, 0] + PutShort(|pts|) + seq(46, _ => 0);
    head + Shorts(seq(|pts|, i requires 0 <= i < |pts| => Less(pts[i].0, left)))
         + Shorts(seq(|pts|, i requires 0 <= i < |pts| => Less(pts[i].1, top)))
  }

  /** An offset added back in 16 bits restores a 16-bit coordinate. */
  lemma OffsetRoundTrip(v: nat, offset: nat)
    requires v < 0x1_0000 && offset < 0x1_0000
    ensures U16(Less(v, offset) + offset) == v
  {
    var w := Less(v, offset);
    assert w == v - offset || w == v - offset + 0x1_0000;
  }

  /** Decoding an encoded polygon gives it back, whatever the offsets. */
  lemma DecodeEncode(pts: seq<RoiPoint>, top: nat, left: nat)
    requires |pts| < 0x1_0000 && top < 0x1_0000 && left < 0x1_0000
    requires forall i :: 0 <= i < |pts| ==> pts[i].0 < 0x1_0000 && pts[i].1 < 0x1_0000
    ensures Readable(Encode(pts, top, left)) && Decode(Encode(pts, top, left)) == Ok(pts)
  {
    var d := Encode(pts, top, left);
    var n := |pts|;
    var xs := seq(n, i requires 0 <= i < n => Less(pts[i].0, left));
    var ys := seq(n, i requires 0 <= i < n => Less(pts[i].1, top));
    var head: seq<Byte> := Magic + PutShort(Version) + PutShort(0) + PutShort(top) + PutShort(left) +
                           [0, 0, 0, 0] + PutShort(n) + seq(46, _ => 0);
    assert d == head + Shorts(xs) + Shorts(ys);
    assert |head| == HeaderSize;
    assert d[..4] == Magic;
    assert GetShort(d, TypeAt) == 0 && GetShort(d, VersionAt) == Version;
    assert GetShort(d, TopAt) == top && GetShort(d, LeftAt) == left && GetShort(d, CountAt) == n;
    forall i | 0 <= i < n
      ensures PointAt(d, top, left, n, i) == pts[i]
    {
      ShortsAt(head, xs, Shorts(ys), i);
      ShortsAt(head + Shorts(xs), ys, [], i);
      assert head + Shorts(xs) + Shorts(ys) + [] == d;
      OffsetRoundTrip(pts[i].0, left);
      OffsetRoundTrip(pts[i].1, top);
    }
    assert seq(n, i requires 0 <= i < n => PointAt(d, top, left, n, i)) == pts;
  }
}
