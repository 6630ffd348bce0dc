/** The Python driver's `reader`: a localisation CSV becomes a 520 x 520 density
    grid, binned by floor(coordinate / 250) and normalised by its maximum. The
    file is a sequence of lines as `readline` returns them; turning a field into
    a float is a parameter. */
module CsvReader {
  import opened Wrappers
  import opened Grids
  import opened Blur

  /** `xShape, yShape = 520, 520`. */
  const Shape := 520
  /** Line 53 overwrites the `scaleFactor` argument with 250. */
  const ScaleFactor := 250

  /** A row or column index of the density grid. */
  type Index = k: int | 0 <= k < Shape

  /** The exceptions `reader` lets escape: a missing x or y field (`str.index`),
      a field `float` rejects, and a bin outside the array (`IndexError`). */
  datatype ReadError = NoXField | NoYField | NotANumber | BinOutOfRange

  /** What `reader` returns: the normalised grid, or a grid of NaN when nothing
      was counted (0 / 0); or the exception it raises. */
  datatype Density = Normalised(grid: seq<seq<real>>) | AllNaN

  /** One line after the header: the end of the read, a record's bin, or an
      exception. */
  datatype LineOutcome = Stop | Record(x: Index, y: Index) | Fail(error: ReadError)

  /** `s.index(c)`, or None where Python raises. */
  function IndexOf(s: string, c: char): (r: Option<nat>)
    ensures r.None? <==> c !in s
    ensures r.Some? ==> r.value < |s| && s[r.value] == c && forall k :: 0 <= k < r.value ==> s[k] != c
  {
    if s == [] then None
    else if s[0] == c then Some(0)
    else
      match IndexOf(s[1..], c)
      case None => None
      case Some(k) => Some(k + 1)
  }

  /** `s[s.index(c) + 1:]`. */
  function After(s: string, c: char): (r: Option<string>)
    ensures r.None? <==> c !in s
    ensures r.Some? ==> |r.value| < |s| && r.value == s[|s| - |r.value|..] && s[|s| - |r.value| - 1] == c
  {
    match IndexOf(s, c)
    case None => None
    case Some(i) => Some(s[i + 1..])
  }

  /** `int(v // 250)` used as a numpy index into 520 rows: a negative index counts
      from the end, anything outside [-520, 520) raises. */
  function Bin(v: real): (b: Option<Index>)
    ensures b.Some? <==> -Shape <= (v / ScaleFactor as real).Floor < Shape
    ensures b.Some? ==> b.value < Shape && (b.value == (v / ScaleFactor as real).Floor || b.value == (v / ScaleFactor as real).Floor + Shape)
  {
    var k := (v / ScaleFactor as real).Floor;
    if -Shape <= k < 0 then Some(k + Shape)
    else if 0 <= k < Shape then Some(k)
    else None
  }

  /** The body of `reader`'s loop for one line: two commas must be found inside the
      `try` (otherwise the loop breaks); x is the text up to the third comma and y
      the text up to the fourth. */
  function ParseLine(line: string, parse: string -> Option<real>): (o: LineOutcome)
  {
    match After(line, ',')
    case None => Stop
    case Some(l1) =>
      match After(l1, ',')
      case None => Stop
      case Some(l2) => ParseFields(l2, parse)
  }

  /** The x and y fields after the second comma, each ended by a comma. */
  function ParseFields(l2: string, parse: string -> Option<real>): (o: LineOutcome)
    ensures !o.Stop?
  {
    match IndexOf(l2, ',')
    case None => Fail(NoXField)
    case Some(i) =>
      match parse(l2[..i])
      case None => Fail(NotANumber)
      case Some(x) =>
        var l3 := l2[i + 1..];
        match IndexOf(l3, ',')
        case None => Fail(NoYField)
        case Some(j) =>
          match parse(l3[..j])
          case None => Fail(NotANumber)
          case Some(y) =>
            if Bin(x).Some? && Bin(y).Some? then Record(Bin(x).value, Bin(y).value)
            else Fail(BinOutOfRange)
  }

  /** What the loop body makes of each line. */
  function Outcomes(lines: seq<string>, parse: string -> Option<real>): (os: seq<LineOutcome>)
    ensures |os| == |lines|
    ensures forall k :: 0 <= k < |lines| ==> os[k] == ParseLine(lines[k], parse)
  {
    if lines == [] then [] else [ParseLine(lines[0], parse)] + Outcomes(lines[1..], parse)
  }

  /** The bins of the records from outcome `k` on, up to the first line that ends
      the read (or the end of the file, where `readline` returns ""); the first
      exception wins. A result is exactly the run of records that starts at `k`
      when a stop or the end follows it, and the error of the first failing
      line when that line follows it instead. */
  function Collect(os: seq<LineOutcome>, k: nat): (r: Result<seq<Cell>, ReadError>)
    requires k <= |os|
    ensures r.Ok? ==> forall n :: 0 <= n < |r.value| ==> InBounds(Shape, Shape, r.value[n])
    ensures r.Ok? ==> k + |r.value| <= |os| &&
                      (forall n :: k <= n < k + |r.value| ==> os[n].Record? && r.value[n - k] == (os[n].x as int, os[n].y as int)) &&
                      (k + |r.value| == |os| || os[k + |r.value|].Stop?)
    ensures r.Err? ==> exists n :: k <= n < |os| && os[n] == Fail(r.error) && forall m :: k <= m < n ==> os[m].Record?
    decreases |os| - k
  {
    if k == |os| then Ok([])
    else
      match os[k]
      case Stop => Ok([])
      case Fail(e) => Err(e)
      case Record(x, y) =>
        match Collect(os, k + 1)
        case Err(e) => Err(e)
        case Ok(rest) =>
          var cells := [(x as int, y as int)] + rest;
          assert forall i :: 1 <= i < |cells| ==> cells[i] == rest[i - 1];
          Ok(cells)
  }

  /** The records after the header: the bins of the lines after it up to the
      first line with fewer than two commas or the end of the file, or the
      error of the first line that fails before that. */
  function Records(lines: seq<string>, parse: string -> Option<real>): (r: Result<seq<Cell>, ReadError>)
    requires |lines| > 0
    ensures r.Ok? ==> forall n :: 0 <= n < |r.value| ==> InBounds(Shape, Shape, r.value[n])
    ensures r.Ok? ==> 1 + |r.value| <= |lines| &&
                      (forall n :: 1 <= n <= |r.value| ==>
                         ParseLine(lines[n], parse).Record? &&
                         r.value[n - 1] == (ParseLine(lines[n], parse).x as int, ParseLine(lines[n], parse).y as int)) &&
                      (1 + |r.value| == |lines| || ParseLine(lines[1 + |r.value|], parse).Stop?)
    ensures r.Err? ==> exists n :: 1 <= n < |lines| && ParseLine(lines[n], parse) == Fail(r.error) &&
                                   forall m :: 1 <= m < n ==> ParseLine(lines[m], parse).Record?
  {
    CollectLines(lines, parse);
    Collect(Outcomes(lines[1..], parse), 0)
  }

  /** What `Collect` says of the outcomes, said of the lines after the
      header. */
  lemma CollectLines(lines: seq<string>, parse: string -> Option<real>)
    requires |lines| > 0
    ensures var r := Collect(Outcomes(lines[1..], parse), 0);
            (r.Ok? ==> 1 + |r.value| <= |lines| &&
                       (forall n :: 1 <= n <= |r.value| ==>
                          ParseLine(lines[n], parse).Record? &&
                          r.value[n - 1] == (ParseLine(lines[n], parse).x as int, ParseLine(lines[n], parse).y as int)) &&
                       (1 + |r.value| == |lines| || ParseLine(lines[1 + |r.value|], parse).Stop?)) &&
            (r.Err? ==> exists n :: 1 <= n < |lines| && ParseLine(lines[n], parse) == Fail(r.error) &&
                                    forall m :: 1 <= m < n ==> ParseLine(lines[m], parse).Record?)
  {
    var os := Outcomes(lines[1..], parse);
    var r := Collect(os, 0);
    if r.Ok? {
      CollectedLines(lines, parse, os, r.value);
    } else {
      FailedLine(lines, parse, os, r.error);
    }
  }

  lemma CollectedLines(lines: seq<string>, parse: string -> Option<real>, os: seq<LineOutcome>, cells: seq<Cell>)
    requires |lines| > 0 && os == Outcomes(lines[1..], parse)
    requires |cells| <= |os| && forall n :: 0 <= n < |cells| ==> os[n].Record? && cells[n] == (os[n].x as int, os[n].y as int)
    requires |cells| == |os| || os[|cells|].Stop?
    ensures 1 + |cells| <= |lines|
    ensures forall n :: 1 <= n <= |cells| ==>
              ParseLine(lines[n], parse).Record? &&
              cells[n - 1] == (ParseLine(lines[n], parse).x as int, ParseLine(lines[n], parse).y as int)
    ensures 1 + |cells| == |lines| || ParseLine(lines[1 + |cells|], parse).Stop?
  {
    forall n | 1 <= n <= |cells|
      ensures ParseLine(lines[n], parse) == os[n - 1]
    {
      assert lines[1..][n - 1] == lines[n];
    }
    if |cells| < |os| {
      assert lines[1..][|cells|] == lines[1 + |cells|];
    }
  }

  lemma FailedLine(lines: seq<string>, parse: string -> Option<real>, os: seq<LineOutcome>, e: ReadError)
    requires |lines| > 0 && os == Outcomes(lines[1..], parse)
    requires exists n :: 0 <= n < |os| && os[n] == Fail(e) && forall m :: 0 <= m < n ==> os[m].Record?
    ensures exists n :: 1 <= n < |lines| && ParseLine(lines[n], parse) == Fail(e) &&
                        forall m :: 1 <= m < n ==> ParseLine(lines[m], parse).Record?
  {
    var n :| 0 <= n < |os| && os[n] == Fail(e) && forall m :: 0 <= m < n ==> os[m].Record?;
    forall m | 1 <= m < n + 2
      ensures ParseLine(lines[m], parse) == os[m - 1]
    {
      assert lines[1..][m - 1] == lines[m];
    }
    assert ParseLine(lines[n + 1], parse) == Fail(e);
  }

  /** The grid `g` with one count added per cell of `cells`. */
  function Tally(cells: seq<Cell>, g: seq<seq<real>>): (g': seq<seq<real>>)
    requires IsGrid(g, Shape, Shape)
    requires forall n :: 0 <= n < |cells| ==> InBounds(Shape, Shape, cells[n])
    ensures IsGrid(g', Shape, Shape)
  {
    if cells == [] then g
    else
      var c := cells[0];
      assert InBounds(Shape, Shape, c) && |g[c.0]| == Shape;
      Tally(cells[1..], Set(g, c, g[c.0][c.1] + 1.0))
  }

  /** `np.zeros((520, 520))`. */
  function Zeros(): (z: seq<seq<real>>)
    ensures IsGrid(z, Shape, Shape)
    ensures forall x, y :: 0 <= x < Shape && 0 <= y < Shape ==> z[x][y] == 0.0
  {
    seq(Shape, _ => seq(Shape, _ => 0.0))
  }

  /** The counts before normalisation. */
  function Counts(cells: seq<Cell>): (g: seq<seq<real>>)
    requires forall n :: 0 <= n < |cells| ==> InBounds(Shape, Shape, cells[n])
    ensures IsGrid(g, Shape, Shape)
  {
    Tally(cells, Zeros())
  }

  /** `reader(fName, scaleFactor)`. The first line is the header; an empty file
      (header "") skips the loop. The result is the grid divided by its maximum,
      NaN everywhere when the maximum is 0. */
  function Reader(lines: seq<string>, scaleFactor: real, parse: string -> Option<real>): (r: Result<Density, ReadError>)
    ensures r.Ok? && r.value.Normalised? ==> IsGrid(r.value.grid, Shape, Shape) && IsMax(r.value.grid, Shape, Shape, 1.0)
  {
    if |lines| == 0 || lines[0] == "" then Ok(AllNaN)
    else
      match Records(lines, parse)
      case Err(e) => Err(e)
      case Ok(cells) =>
        var g := Counts(cells);
        var m := GridMax(g, Shape, Shape);
        if m == 0.0 then Ok(AllNaN)
        else
          assert m > 0.0 by {
            CountsNonNegative(cells);
            assert g[0][0] >= 0.0 && g[0][0] <= m;
          }
          DividedByMax(g, Shape, Shape, m);
          Ok(Normalised(Scale(g, Shape, Shape, 1.0 / m)))
  }

  /** Every cell of the tally holds its start value plus the number of records
      binned to it. */
  lemma {:induction false} TallyCounts(cells: seq<Cell>, g: seq<seq<real>>, c: Cell)
    requires IsGrid(g, Shape, Shape) && InBounds(Shape, Shape, c)
    requires forall n :: 0 <= n < |cells| ==> InBounds(Shape, Shape, cells[n])
    ensures Tally(cells, g)[c.0][c.1] == g[c.0][c.1] + multiset(cells)[c] as real
  {
    if cells != [] {
      var d := cells[0];
      var g' := Set(g, d, g[d.0][d.1] + 1.0);
      TallyCounts(cells[1..], g', c);
      assert cells == [d] + cells[1..];
      assert multiset(cells)[c] == multiset{d}[c] + multiset(cells[1..])[c];
      assert g'[c.0][c.1] == g[c.0][c.1] + multiset{d}[c] as real;
    }
  }

  /** Counts are never negative. */
  lemma CountsNonNegative(cells: seq<Cell>)
    requires forall n :: 0 <= n < |cells| ==> InBounds(Shape, Shape, cells[n])
    ensures forall x, y :: 0 <= x < Shape && 0 <= y < Shape ==> Counts(cells)[x][y] >= 0.0
  {
    forall x, y | 0 <= x < Shape && 0 <= y < Shape ensures Counts(cells)[x][y] >= 0.0 {
      TallyCounts(cells, Zeros(), (x, y));
    }
  }

  /** The read stops at the first line that lacks two commas: nothing after it
      matters. */
  lemma {:induction false} StopIgnoresRest(os: seq<LineOutcome>, more: seq<LineOutcome>, k: nat, s: nat)
    requires k <= s < |os| && os[s].Stop?
    ensures Collect(os + more, k) == Collect(os, k)
    decreases s - k
  {
    assert (os + more)[k] == os[k];
    if k < s {
      StopIgnoresRest(os, more, k + 1, s);
    }
  }
}
