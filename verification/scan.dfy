/** The scan driver of `Scan.cxx`: `JsonCallback`, which records one result
    line, the score grid and the running best score per (R, T) step, and the
    output dispatch of `main` on the input and output file names. Printing a
    double is left to a `render` parameter: the model keeps each line as the
    values it prints. */
module Scan {
  import opened Wrappers

  /** One `  { R:…, T:…, Score:…, NumClusteredPts:…, NumBackgroundPts:…}`
      line. */
  datatype Line = Line(r: real, t: real, score: real, clustered: nat, background: nat)

  /** A callback's arguments: the (R, T) step, its R and T, and what the
      proxy holds: the score and the two counts. */
  datatype Call = Call(i: nat, j: nat, r: real, t: real, score: real, clustered: nat, background: nat)

  /** What the callbacks share: the output lines, the score grid, and the best
      score with its step. */
  datatype Tracker = Tracker(lines: seq<Line>, scores: seq<seq<real>>, best: (nat, nat), bestScore: real)

  /** `lMaxRTScore = -9E99`. */
  const Floor: real := -9000000000000000000000000000000000000000000000000000000000000000000000000000000000000000000000000000.0

  /** The grid holds a score per step. */
  predicate Fits(scores: seq<seq<real>>, i: int, j: int)
  {
    0 <= i < |scores| && 0 <= j < |scores[i]|
  }

  /** The state before the first callback: an `rbins` by `tbins` grid of
      zeroes, the best step (0, 0) and the floor score. */
  function Start(rbins: nat, tbins: nat): (s: Tracker)
    ensures |s.scores| == rbins && forall i :: 0 <= i < rbins ==> |s.scores[i]| == tbins
  {
    Tracker([], seq(rbins, _ => seq(tbins, _ => 0.0)), (0, 0), Floor)
  }

  /** `JsonCallback`: appends the call's line; a strictly greater score
      becomes the best with its step; the score is stored at its step. */
  function Callback(s: Tracker, c: Call): (s': Tracker)
    requires Fits(s.scores, c.i, c.j)
    ensures s'.lines == s.lines + [Line(c.r, c.t, c.score, c.clustered, c.background)]
    ensures c.score > s.bestScore ==> s'.best == (c.i, c.j) && s'.bestScore == c.score
    ensures c.score <= s.bestScore ==> s'.best == s.best && s'.bestScore == s.bestScore
    ensures |s'.scores| == |s.scores| && forall i :: 0 <= i < |s.scores| ==> |s'.scores[i]| == |s.scores[i]|
    ensures s'.scores[c.i][c.j] == c.score
    ensures forall i, j :: Fits(s.scores, i, j) && (i != c.i || j != c.j) ==> s'.scores[i][j] == s.scores[i][j]
  {
    var line := Line(c.r, c.t, c.score, c.clustered, c.background);
    var best := if c.score > s.bestScore then ((c.i, c.j), c.score) else (s.best, s.bestScore);
    Tracker(s.lines + [line], s.scores[c.i := s.scores[c.i][c.j := c.score]], best.0, best.1)
  }

  predicate AllFit(scores: seq<seq<real>>, calls: seq<Call>)
  {
    forall k :: 0 <= k < |calls| ==> Fits(scores, calls[k].i, calls[k].j)
  }

  /** The callbacks in the order they ran. */
  function Run(s: Tracker, calls: seq<Call>): (s': Tracker)
    requires AllFit(s.scores, calls)
    ensures |s'.scores| == |s.scores| && forall i :: 0 <= i < |s.scores| ==> |s'.scores[i]| == |s.scores[i]|
  {
    if calls == [] then s
    else
      var s0 := Run(s, calls[..|calls| - 1]);
      assert Fits(s0.scores, calls[|calls| - 1].i, calls[|calls| - 1].j);
      Callback(s0, calls[|calls| - 1])
  }

  /** The highest score among the calls, or the floor. */
  function Highest(floor: real, calls: seq<Call>): real
  {
    if calls == [] then floor
    else
      var h := Highest(floor, calls[..|calls| - 1]);
      if calls[|calls| - 1].score > h then calls[|calls| - 1].score else h
  }

  /** The first call reaching the highest score above the floor. */
  ghost predicate FirstBest(floor: real, calls: seq<Call>, k: int)
  {
    0 <= k < |calls| && calls[k].score == Highest(floor, calls) && calls[k].score > floor &&
    forall e :: 0 <= e < k ==> calls[e].score < calls[k].score
  }

  lemma {:induction false} HighestBounds(floor: real, calls: seq<Call>)
    ensures Highest(floor, calls) >= floor
    ensures forall e :: 0 <= e < |calls| ==> calls[e].score <= Highest(floor, calls)
  {
    if calls != [] {
      HighestBounds(floor, calls[..|calls| - 1]);
    }
  }

  /** Each call appends its own line, in call order. */
  lemma {:induction false} RunLines(s: Tracker, calls: seq<Call>)
    requires AllFit(s.scores, calls)
    ensures |Run(s, calls).lines| == |s.lines| + |calls|
    ensures Run(s, calls).lines[..|s.lines|] == s.lines
    ensures forall k :: 0 <= k < |calls| ==>
              Run(s, calls).lines[|s.lines| + k] == Line(calls[k].r, calls[k].t, calls[k].score, calls[k].clustered, calls[k].background)
  {
    if calls != [] {
      var calls' := calls[..|calls| - 1];
      assert AllFit(s.scores, calls');
      RunLines(s, calls');
    }
  }

  /** From the floor and step (0, 0), the best score is the highest one and
      the best step that of the first call reaching it. */
  lemma {:induction false} RunBest(s: Tracker, calls: seq<Call>)
    requires AllFit(s.scores, calls) && s.best == (0, 0) && s.bestScore == Floor
    ensures Run(s, calls).bestScore == Highest(Floor, calls)
    ensures Highest(Floor, calls) == Floor ==> Run(s, calls).best == (0, 0)
    ensures Highest(Floor, calls) > Floor ==>
              exists k :: FirstBest(Floor, calls, k) && Run(s, calls).best == (calls[k].i, calls[k].j)
  {
    if calls != [] {
      var calls' := calls[..|calls| - 1];
      var c := calls[|calls| - 1];
      assert AllFit(s.scores, calls');
      RunBest(s, calls');
      HighestBounds(Floor, calls');
      var s0 := Run(s, calls');
      assert calls[..|calls| - 1] == calls';
      if Highest(Floor, calls') > Floor {
        var k :| FirstBest(Floor, calls', k) && s0.best == (calls'[k].i, calls'[k].j);
        if c.score <= Highest(Floor, calls') {
          assert FirstBest(Floor, calls, k);
        } else {
          assert FirstBest(Floor, calls, |calls| - 1);
        }
      } else if c.score > Floor {
        assert FirstBest(Floor, calls, |calls| - 1);
      }
    }
  }

  /** One line per call, in call order; the best score is the highest one,
      and the best step is that of the first call reaching it, or (0, 0) when
      no score beats the floor: ties keep the earliest. */
  lemma RunTracksBest(rbins: nat, tbins: nat, calls: seq<Call>)
    requires AllFit(Start(rbins, tbins).scores, calls)
    ensures var s := Run(Start(rbins, tbins), calls);
            |s.lines| == |calls| &&
            (forall k :: 0 <= k < |calls| ==> s.lines[k].score == calls[k].score && s.lines[k].r == calls[k].r &&
                                              s.lines[k].t == calls[k].t) &&
            s.bestScore == Highest(Floor, calls) &&
            (Highest(Floor, calls) == Floor ==> s.best == (0, 0)) &&
            (Highest(Floor, calls) > Floor ==>
               exists k :: FirstBest(Floor, calls, k) && s.best == (calls[k].i, calls[k].j))
  {
    var s0 := Start(rbins, tbins);
    assert s0.lines == [] && s0.best == (0, 0) && s0.bestScore == Floor;
    RunLines(s0, calls);
    RunBest(s0, calls);
    var s := Run(s0, calls);
    forall k | 0 <= k < |calls|
      ensures s.lines[k].score == calls[k].score && s.lines[k].r == calls[k].r && s.lines[k].t == calls[k].t
    {
      assert s.lines[|s0.lines| + k] == s.lines[k];
    }
  }

  /** A step's grid cell holds the score of the last call for that step; a
      step never called keeps its initial value. */
  lemma {:induction false} RunStoresScores(s: Tracker, calls: seq<Call>, i: nat, j: nat)
    requires AllFit(s.scores, calls) && Fits(s.scores, i, j)
    ensures var s' := Run(s, calls);
            (forall k :: 0 <= k < |calls| ==> (calls[k].i, calls[k].j) != (i, j)) ==> s'.scores[i][j] == s.scores[i][j]
    ensures forall k :: 0 <= k < |calls| && (calls[k].i, calls[k].j) == (i, j) &&
                        (forall e :: k < e < |calls| ==> (calls[e].i, calls[e].j) != (i, j)) ==>
              Run(s, calls).scores[i][j] == calls[k].score
  {
    if calls != [] {
      var calls' := calls[..|calls| - 1];
      assert AllFit(s.scores, calls');
      RunStoresScores(s, calls', i, j);
      forall k | 0 <= k < |calls'| ensures calls[k] == calls'[k] { }
    }
  }

  // ---------------------------------------------------------------- dispatch

  /** How `main` treats a region: scan with no callback and write nothing,
      or scan with `JsonCallback` and write the JSON file. */
  datatype Output = Silent | Json(name: string)

  predicate EndsWith(s: string, suffix: string)
  {
    |suffix| <= |s| && s[|s| - |suffix|..] == suffix
  }

  /** The file name checks of `main`: an empty input name fails first; an
      empty output name scans silently; a name longer than five characters
      ending in ".json" is written as JSON; any other name fails. */
  function Dispatch(input: string, output: string): (r: Result<Output, string>)
  {
    if |input| == 0 then Err("No input file specified")
    else if |output| == 0 then Ok(Silent)
    else if |output| > 5 && EndsWith(output, ".json") then Ok(Json(output))
    else Err("No handler for specified output-file")
  }

  /** Each outcome of the dispatch, with its condition. */
  lemma DispatchCases(input: string, output: string)
    ensures Dispatch(input, output) == Err("No input file specified") <==> input == []
    ensures Dispatch(input, output) == Ok(Silent) <==> input != [] && output == []
    ensures Dispatch(input, output).Ok? && Dispatch(input, output).value.Json? <==>
              input != [] && |output| > 5 && output[|output| - 5..] == ".json"
    ensures Dispatch(input, output) == Err("No handler for specified output-file") <==>
              input != [] && output != [] && !(|output| > 5 && output[|output| - 5..] == ".json")
  {
  }

  /** The name ".json" alone is not accepted. */
  lemma BareSuffixRejected(input: string)
    requires input != []
    ensures Dispatch(input, ".json") == Err("No handler for specified output-file")
  {
  }

  /** Lines joined in order. */
  function Concat(ls: seq<string>): string
  {
    if ls == [] then [] else Concat(ls[..|ls| - 1]) + ls[|ls| - 1]
  }

  const Header: string := "{\nResults:[\n"
  const Footer: string := "]\n}"

  /** The JSON file: the header, the rendered lines in order, the footer. */
  function JsonFile(lines: seq<Line>, render: Line -> string): (f: string)
  {
    Header + Concat(seq(|lines|, k requires 0 <= k < |lines| => render(lines[k]))) + Footer
  }

  /** The file begins with the header and ends with the footer, and one more
      callback only inserts its line before the footer. */
  lemma JsonFileGrows(lines: seq<Line>, l: Line, render: Line -> string)
    ensures JsonFile(lines, render)[..|Header|] == Header
    ensures var f := JsonFile(lines, render); f[|f| - |Footer|..] == Footer
    ensures var f, g := JsonFile(lines, render), JsonFile(lines + [l], render);
            g == f[..|f| - |Footer|] + render(l) + Footer
  {
    var rs := seq(|lines|, k requires 0 <= k < |lines| => render(lines[k]));
    var rs' := seq(|lines| + 1, k requires 0 <= k < |lines| + 1 => render((lines + [l])[k]));
    assert rs'[..|lines|] == rs;
    assert Concat(rs') == Concat(rs) + render(l);
  }
}
