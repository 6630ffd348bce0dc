/** What `reader` promises about whole files. */
module CsvReaderLaws {
  import opened Wrappers
  import opened Grids
  import opened Blur
  import opened CsvReader

  /** The number of commas on a line. */
  function Commas(s: string): nat
  {
    multiset(s)[',']
  }

  /** Cutting a line after its first comma removes exactly that comma. */
  lemma AfterComma(s: string)
    ensures After(s, ',').None? <==> Commas(s) == 0
    ensures After(s, ',').Some? ==> Commas(s) == Commas(After(s, ',').value) + 1
  {
    match IndexOf(s, ',')
    case None =>
    case Some(i) =>
      assert s == s[..i] + [','] + s[i + 1..];
      assert ',' !in s[..i];
      assert multiset(s) == multiset(s[..i]) + multiset{','} + multiset(s[i + 1..]);
  }

  /** The read stops at a line exactly when the line has fewer than two commas. */
  lemma StopsIffFewerThanTwoCommas(line: string, parse: string -> Option<real>)
    ensures ParseLine(line, parse).Stop? <==> Commas(line) < 2
  {
    AfterComma(line);
    if After(line, ',').Some? {
      AfterComma(After(line, ',').value);
    }
  }

  /** So `reader` gives the same result whatever follows such a line. */
  lemma ReaderIgnoresRest(lines: seq<string>, more: seq<string>, s: nat, scaleFactor: real, parse: string -> Option<real>)
    requires 1 <= s < |lines| && ParseLine(lines[s], parse).Stop?
    ensures Reader(lines + more, scaleFactor, parse) == Reader(lines, scaleFactor, parse)
  {
    RecordsIgnoreRest(lines, more, s, parse);
    assert (lines + more)[0] == lines[0];
  }

  lemma RecordsIgnoreRest(lines: seq<string>, more: seq<string>, s: nat, parse: string -> Option<real>)
    requires 1 <= s < |lines| && ParseLine(lines[s], parse).Stop?
    ensures Records(lines + more, parse) == Records(lines, parse)
  {
    RecordsAppend(lines, more, parse);
    StopOutcome(lines, s, parse);
    StopIgnoresRest(Outcomes(lines[1..], parse), Outcomes(more, parse), 0, s - 1);
  }

  lemma StopOutcome(lines: seq<string>, s: nat, parse: string -> Option<real>)
    requires 1 <= s < |lines| && ParseLine(lines[s], parse).Stop?
    ensures Outcomes(lines[1..], parse)[s - 1].Stop?
  {
  }

  lemma RecordsAppend(lines: seq<string>, more: seq<string>, parse: string -> Option<real>)
    requires |lines| > 0
    ensures Records(lines + more, parse) == Collect(Outcomes(lines[1..], parse) + Outcomes(more, parse), 0)
  {
    OutcomesAppend(lines, more, parse);
  }

  lemma OutcomesAppend(lines: seq<string>, more: seq<string>, parse: string -> Option<real>)
    requires |lines| > 0
    ensures Outcomes((lines + more)[1..], parse) == Outcomes(lines[1..], parse) + Outcomes(more, parse)
  {
    assert (lines + more)[1..] == lines[1..] + more;
  }

  /** The header's content and the `scaleFactor` argument play no part. */
  lemma HeaderAndScaleIgnored(h1: string, h2: string, rest: seq<string>, f1: real, f2: real, parse: string -> Option<real>)
    requires h1 != "" && h2 != ""
    ensures Reader([h1] + rest, f1, parse) == Reader([h2] + rest, f2, parse)
  {
    assert ([h1] + rest)[1..] == rest == ([h2] + rest)[1..];
  }

  /** A normalised read is the tally of its records scaled by the inverse of its
      largest count. */
  lemma ReaderIsScaledCounts(lines: seq<string>, scaleFactor: real, parse: string -> Option<real>)
    requires Reader(lines, scaleFactor, parse).Ok? && Reader(lines, scaleFactor, parse).value.Normalised?
    ensures |lines| > 0 && Records(lines, parse).Ok?
    ensures var g := Counts(Records(lines, parse).value);
            var m := GridMax(g, Shape, Shape);
            m > 0.0 && Reader(lines, scaleFactor, parse).value.grid == Scale(g, Shape, Shape, 1.0 / m)
  {
    var g := Counts(Records(lines, parse).value);
    CountsNonNegative(Records(lines, parse).value);
    assert g[0][0] >= 0.0 && g[0][0] <= GridMax(g, Shape, Shape);
  }

  /** Each cell of the tally scaled by the inverse of a nonzero `m`, times `m`, is
      the number of records binned to that cell. */
  lemma ScaledCounts(cells: seq<Cell>, m: real, c: Cell)
    requires forall n :: 0 <= n < |cells| ==> InBounds(Shape, Shape, cells[n])
    requires InBounds(Shape, Shape, c) && m != 0.0
    ensures Scale(Counts(cells), Shape, Shape, 1.0 / m)[c.0][c.1] * m == multiset(cells)[c] as real
  {
    TallyCounts(cells, Zeros(), c);
    ScaleBack(Counts(cells), Shape, Shape, m, c.0, c.1);
  }
}
