# BayesianClusters: region-of-interest extraction and cluster bookkeeping

This project models the deterministic core of BayesianClusters, a tool that
looks for clusters in single-molecule localisation microscopy data. It covers
two layers.

- **The Python driver** (`drivingScript.py`):
  - reads a ThunderSTORM CSV file into a 520×520 density image;
  - blurs the image with a wrap-around window sum and thresholds it;
  - labels the 8-connected regions by breadth-first search and keeps the boxes of area at least 500, sorted by area;
  - rewrites a configuration file per box;
  - starts one scan per box for at most ten boxes, stopping when the user interrupts.
- **The C++ engine**:
  - automatic region-of-interest extraction: a 512×512 histogram, a 0/−1 threshold mask, a recursive 4-connected flood fill, hole filling by four rays, culling of records smaller than 500 cells, and recentring;
  - the manual and "from configuration" extractions;
  - the ImageJ binary RoI decoder;
  - the `Cluster` union-find with path compression;
  - depth-first clusterisation over sorted neighbour lists;
  - the R/T scan schedule and the counts that `CheckClusterization` enforces;
  - the localisation-score counts;
  - the output dispatch and running best score of `Scan.cxx`;
  - unit, binning and configuration arithmetic;
  - `range`/map and the bitonic sorting network.

Conventions:
- Grids are `seq<seq<int>>` and `seq<seq<bool>>`.
- Clusters live in an arena `seq<Cluster>`, with `parent: Option<nat>` standing for the C++ pointer.
- Coordinates are exact `real`s.
- Errors the source throws become `Result` values carrying the source's message.

These are function parameters, supplied by the caller:
- floating-point formulas the model does not reproduce: `sqrt`, `atan2`, the Gaussian blur, the cluster score and the sigma interpolator;
- the reading of files;
- the fate of each child process.

Where the prose description of the system and the code disagree, the model
follows the code:
- drivingScript.py:163 writes `visited[i,j] == 1`, a comparison rather than an assignment. A background cell met by the sweep is therefore never marked visited (`RoiSweep.Step`). It is not true that every cell is visited after the sweep.
- A density image whose maximum is 0 is divided 0/0 by numpy at drivingScript.py:81. The result is an all-NaN grid, not an error (`CsvReader.Reader` returns `AllNaN`). NaN compares false with the threshold, so the batch then finds no boxes.
- The child command always reads `{PATH}/1_un_red.csv` (drivingScript.py:218), whatever CSV was given on the command line (`Batch.CommandIgnoresDataFile`).
- API.cpp:108 computes the y offset from `k.x`. The model reproduces this; see Findings.

## Model

| member | source | states |
|---|---|---|
| RoiBox.Area | drivingScript.py:23 | the area is never negative, and it is 0 exactly when the box is flat in one direction (n = s or e = w) |
| RoiBox.LessIsStrictWeakOrder | drivingScript.py:31-32 | `<` compares areas only. It is irreflexive and transitive, and two boxes of equal area are interchangeable on either side, so sorting by it is well defined |
| RoiBox.Centre | drivingScript.py:34-35 | the centre satisfies 8·cx + 2 = w + e and 8·cy + 2 = s + n |
| RoiBox.Zoom | drivingScript.py:37-38 | 4·zoom is at least each side length and equals one of them: it is the larger side over 4 |
| RoiBox.CentreZoomExample | drivingScript.py:23-38 | Box(10, 20, 2, 4) has centre (2.75, 1.25), zoom 4 and area 128 |
| Labelling.RowOf | drivingScript.py:87-90 | one row of the neighbourhood is exactly the in-bounds cells of that row within one column of (i, j), excluding (i, j), in column order, at most 3 |
| Labelling.ValidIndices | drivingScript.py:84-90 | the generator yields exactly the in-bounds cells at Chebyshev distance 1 from (i, j), never (i, j) itself. They come in row-major order, at most 8 |
| Labelling.Widen | drivingScript.py:92-97 | each bound moves to the new point exactly when the point lies beyond it, otherwise it keeps its value |
| BfsSearch.Claim | drivingScript.py:113-121 | examining a neighbour always marks it visited and never unmarks any cell. It is claimed (and added to the discovered set) only if it was unvisited and 1, and the box then spans the discovered cells |
| BfsSearch.Expand | drivingScript.py:110-121 | after all neighbours of one frontier cell are examined they are all visited, and the next frontier has gained exactly the newly discovered cells |
| BfsSearch.Round | drivingScript.py:107-122 | one pass over a frontier keeps the search invariant, and the next frontier is exactly the set of cells discovered in that pass |
| BfsSearch.Search | drivingScript.py:99-126 | the whole search: every discovered cell and the seed have all neighbours visited. The box is Box(0,0,0,0) when nothing was discovered, and otherwise spans the discovered cells only (the seed is not included) |
| BfsSearch.Bfs | drivingScript.py:99-126 | the seed gets the id and is visited; visited marks only grow. A cell other than the seed changes label exactly when it was discovered, and every cell on a chain of unvisited 1-cells from the seed is discovered. Every discovered cell lies on such a chain, and every newly visited cell neighbours the seed or a discovered cell. The box is as in Search |
| AreaSort.Insert | drivingScript.py:170 | inserting into an area-sorted list keeps it sorted and adds exactly the one box |
| AreaSort.SortByArea | drivingScript.py:170 | `sorted(boxes)` is ascending by area and a permutation of its input |
| AreaSort.SortKeepsBoxes | drivingScript.py:170 | a box is in the sorted list exactly when it is in the input |
| AreaSort.InsertStable | drivingScript.py:170 | insertion places a box after every box of equal area already present |
| AreaSort.SortIsStable | drivingScript.py:170 | the sort is stable: the boxes of each area appear in their input order |
| RoiSweep.Keep | drivingScript.py:168-169 | the kept boxes are exactly the found boxes with area at least 500, in order |
| RoiSweep.KeepAppend | drivingScript.py:166-169 | each new box is appended to the kept list exactly when its area is at least 500 |
| RoiSweep.StepKeepsJoined | drivingScript.py:166-167 | after a `bfs` call, any two 8-adjacent pixels that were 1 carry the same label |
| RoiSweep.StepKeepsRooted | drivingScript.py:166-167 | after a `bfs` call, every relabelled pixel carries an id already handed out and is reached from that id's seed through 1-pixels |
| RoiSweep.Step | drivingScript.py:160-169 | `bfs` is called exactly at unvisited non-zero pixels; otherwise neither grid changes (the `==` at line 163 writes nothing) and the box is Box(0, 0, 0, 0). A call's box bounds the cells it discovered; from a 1-pixel those are exactly the pixel's 8-connected region of 1-pixels, and no cell of that region comes earlier in the sweep. The labelling invariant is kept with the pixel as the new seed |
| RoiSweep.SweptAll | drivingScript.py:159-169 | after the sweep every pixel that was 1 carries an id from 2 up to the next unused id |
| RoiSweep.DiscoveredIsRegion | drivingScript.py:99-126 | a `bfs` call from an unvisited 1-pixel during the sweep discovers exactly the pixel's 8-connected region of 1-pixels, both directions: labels of earlier calls never cut a region |
| RoiSweep.SeedIsFirst | drivingScript.py:159-167 | the pixel at which the sweep calls `bfs` comes first in sweep order among the cells of its region |
| RoiSweep.SweepRow | drivingScript.py:160-169 | one row keeps the labelling; the seeds stay in sweep order, each 1-seed first in its region with the region's box; the kept list is the filter of the found boxes, and the next id is 2 plus the number of `bfs` calls |
| RoiSweep.RoiId | drivingScript.py:154-170 | background pixels stay 0; each 1-pixel gets an id from 2 upward, which advances once per `bfs` call even for a dropped box. 8-adjacent 1-pixels share an id, and each id's pixels are reached from its seed. The seeds are non-zero pixels in sweep order; every 1-pixel is a seed or in a seed's region; a 1-seed is its region's first cell and its box bounds that region (Box(0, 0, 0, 0) for a lone pixel). The result is the boxes of area ≥ 500, stably sorted by area |
| Blur.Pad | drivingScript.py:133-136 | the padded grid has `rounds` zero cells on every side and the input in the middle |
| Blur.RowMax | drivingScript.py:146 | the value returned is at least every entry of the row and equals one of them |
| Blur.GridMax | drivingScript.py:129-131 | the value returned is the grid's maximum: an upper bound that is attained |
| Blur.Threshold | drivingScript.py:149 | a cell becomes 1 exactly when the maximum is non-zero and the normalised value exceeds the threshold, and 0 otherwise (NaN compares false) |
| Blur.Normalise | drivingScript.py:129-131 | a grid whose maximum is at most 1 is unchanged. Otherwise the result is a positive multiple of the input whose maximum is 1 |
| Blur.MaxUnique | drivingScript.py:129-131 | a grid has only one maximum |
| Blur.ScaledIsMax | drivingScript.py:146 | scaling by a positive factor scales the maximum by the same factor |
| Blur.DividedByMax | drivingScript.py:146 | dividing by a positive maximum gives a grid whose maximum is 1 |
| Blur.Scale | drivingScript.py:131 | scaling multiplies every cell by the factor |
| Blur.Accumulate | drivingScript.py:140-144 | each cell of the sum is the wrap-around (`np.roll`) window sum of side 2·rounds+1 around it |
| Blur.Mask | drivingScript.py:146-149 | each cell of the mask is 0 or 1, and 1 exactly when its value over the maximum exceeds the threshold |
| Blur.Strip | drivingScript.py:152 | stripping `rounds ≥ 1` cells of padding gives the input's shape, cell (x, y) taken from (x+r, y+r) |
| Blur.StripAsWritten | drivingScript.py:152 | the slice `[r:-r]` gives an empty result when r = 0 and the proper strip otherwise |
| Blur.BlurAndThreshAsWritten | drivingScript.py:128-152 | the function as written fails exactly when rounds = 0 and the input is not 1×1 (the padding assignment cannot broadcast); a 1×1 input with rounds = 0 gives the empty array; for rounds > 0 it agrees with the corrected one |
| Blur.BlurAndThresh | drivingScript.py:128-152 | the output has the input's shape and every cell is 0 or 1 |
| Blur.PlainField | drivingScript.py:133-144 | the reference window sum over the zero-extended input, with no padding and no wrap-around, for the padded shape |
| Blur.WrapWindowIsPlain | drivingScript.py:140-144 | inside the padding a wrapped window sum over the padded grid equals the plain window sum over the unpadded input |
| Blur.AccumulateIsPlain | drivingScript.py:133-144 | the wrap-around accumulation over the zero-padded grid equals the plain reference field |
| Blur.BlurIsWindowThreshold | drivingScript.py:128-152 | output cell (x, y) is 1 exactly when the (2·rounds+1)² window sum of the max-normalised input around it, divided by the largest such sum, exceeds the threshold |
| Blur.AsWrittenLosesMaskAtZero | drivingScript.py:135-152 | with rounds = 0 the function as written raises on a 2×2 input and returns an empty array for a 1×1 input, although the corrected mask has h > 0 rows |
| CsvReader.IndexOf | drivingScript.py:65 | `str.index` finds the first occurrence of the character, or fails exactly when it is absent |
| CsvReader.After | drivingScript.py:65-66 | the text after the first comma is a proper suffix that follows that comma, or there is none exactly when there is no comma |
| CsvReader.Bin | drivingScript.py:78 | `int(x//250)` indexes the 520-row array when it lies in −520..519, with a negative index counting from the end (numpy wrap). Otherwise there is no cell (an IndexError) |
| CsvReader.ParseFields | drivingScript.py:71-78 | a line that has passed the two comma skips never ends the read |
| CsvReader.Outcomes | drivingScript.py:62-78 | each line's outcome is that line's parse, one per line |
| CsvReader.Collect | drivingScript.py:62-78 | an Ok result is exactly the cells of the run of records from the start, which a stop or the end of the lines follows, all inside the 520×520 grid. An error is the error of a failing line that only records precede |
| CsvReader.Records | drivingScript.py:60-78 | an Ok result is exactly the cells of the lines after the header, up to the first line with fewer than two commas or the end of the file. An error is the error of the first failing line, which only records precede |
| CsvReader.CollectLines | drivingScript.py:60-78 | the outcome-level description of `Collect` carries over to the lines of the file, shifted past the header |
| CsvReader.Tally | drivingScript.py:78 | the tallied grid keeps the 520×520 shape |
| CsvReader.TallyCounts | drivingScript.py:78 | each cell is increased by exactly the number of records that fall in it |
| CsvReader.Counts | drivingScript.py:58 | the count grid starts from zeros with shape 520×520 |
| CsvReader.CountsNonNegative | drivingScript.py:58-78 | no count is negative |
| CsvReader.Zeros | drivingScript.py:58 | `np.zeros((520, 520))` |
| CsvReader.Reader | drivingScript.py:52-82 | a normalised result is a 520×520 grid whose maximum is 1 |
| CsvReader.StopIgnoresRest | drivingScript.py:64-69 | once a line stops the read, the lines after it make no difference |
| CsvReaderLaws.AfterComma | drivingScript.py:65-66 | skipping to after the first comma removes exactly one comma, and fails exactly when there are none |
| CsvReaderLaws.StopsIffFewerThanTwoCommas | drivingScript.py:64-69 | a line ends the read exactly when it has fewer than two commas |
| CsvReaderLaws.ReaderIgnoresRest | drivingScript.py:62-69 | the density read is the same whatever follows the first stopping line |
| CsvReaderLaws.RecordsIgnoreRest | drivingScript.py:62-69 | the records read are the same whatever follows the first stopping line |
| CsvReaderLaws.HeaderAndScaleIgnored | drivingScript.py:52-53 | the first line and the `scaleFactor` argument do not affect the result (line 53 overwrites it with 250) |
| CsvReaderLaws.ReaderIsScaledCounts | drivingScript.py:78-81 | a normalised result is the per-cell record count divided by the largest count, which is positive |
| CsvReaderLaws.ScaledCounts | drivingScript.py:78-81 | multiplying a normalised cell back by the maximum gives the number of records in that cell |
| ConfigRewrite.RoundHalfEven | drivingScript.py:45 | `.1f` rounds to the nearest integer (in tenths), ties to even |
| ConfigRewrite.RoundHalfEvenUnique | drivingScript.py:45 | the rounding is the only integer with those two properties |
| ConfigRewrite.NatString | drivingScript.py:45 | the decimal numeral is non-empty, all digits, and has no leading zero |
| ConfigRewrite.NatStringValue | drivingScript.py:45 | reading the numeral back gives the number |
| ConfigRewrite.Tenths | drivingScript.py:45 | the count of tenths is the magnitude times ten, rounded half to even |
| ConfigRewrite.Fixed1 | drivingScript.py:45-48 | the `.1f` text ends in '.' and one digit |
| ConfigRewrite.Fixed1Value | drivingScript.py:45-48 | the `.1f` text reads back as the value rounded to tenths, with its sign |
| ConfigRewrite.OccursIsContains | drivingScript.py:44-46 | the substring test `in` is true exactly when the word occurs at some position of the line |
| ConfigRewrite.WriteLine | drivingScript.py:42-49 | the rewritten file has one line per input line, each rewritten on its own |
| ConfigRewrite.RewriteCases | drivingScript.py:44-48 | a line containing 'zoom' becomes the zoom line, even when it also contains 'centre'. Otherwise a line containing 'centre' becomes the centre line, and any other line is unchanged |
| ConfigRewrite.FormatExample | drivingScript.py:45-48 | 4.0 prints as "4.0", 2.75 as "2.8", 1.25 as "1.2" (ties to even) and −0.125 as "-0.1" |
| Batch.LastEndingIn | drivingScript.py:178-182 | the argument picked ends in the suffix and no later argument does; there is none exactly when no argument ends in it |
| Batch.Classify | drivingScript.py:174-185 | the arguments are accepted exactly when some end in 'csv' and some in 'txt', and the last of each wins |
| Batch.LastArgumentWins | drivingScript.py:178-182 | appending another CSV argument replaces the data file and keeps the config file |
| Batch.Trunc | drivingScript.py:209 | `int()` truncates toward zero |
| Batch.IntString | drivingScript.py:209 | the integer text is an optional '-' followed by digits |
| Batch.IntStringValue | drivingScript.py:209 | the integer text reads back as the integer |
| Batch.Scan | drivingScript.py:202-233 | at most the first 10 boxes are scanned, in order, each with its own job: its output file, the template rewritten by `writeLine` for the box, and the command line. Every job but the last completed, and the loop stops early only after an interrupted job |
| Batch.Started | drivingScript.py:202-233 | the count of started jobs stops exactly after the first interrupted job |
| Batch.RunScript | drivingScript.py:172-234 | usage is printed exactly when the arguments are rejected, and a read error ends the run. An all-NaN image gives no boxes. Otherwise the boxes are those of the 8-connected regions of the blurred mask (one per region, in sweep order), kept at area ≥ 500 and sorted by area. The jobs follow the scan loop's fate rule over the first ≤ 10 boxes, each with the configuration template rewritten for its box |
| Batch.ScanFile | drivingScript.py:186-234 | once the arguments are accepted: a read error ends the run with that error, an all-NaN image gives no boxes and no jobs, and a normalised image gives the area-sorted boxes (area ≥ 500) of its mask's regions with jobs that follow the scan loop's fate rule |
| Batch.ScanImage | drivingScript.py:187-233 | from a normalised image, the boxes are those of the regions of `blurAndThresh(image)`, kept at area ≥ 500 and sorted by area, and the jobs follow the scan loop's fate rule over the first ≤ 10 boxes |
| Batch.FindBoxes | drivingScript.py:154-170 | on a 0/1 mask there is one seed per region of 1-pixels, its first cell in sweep order, every 1-pixel lies in a seed's region, and the result is the area-sorted boxes of area ≥ 500 of those regions |
| Batch.CommandIgnoresDataFile | drivingScript.py:218 | the command is exactly `{PATH}/Cluster.exe -i {PATH}/1_un_red.csv --cfg {PATH}/tempconfig.txt -o` and the box's output file: it never names the CSV given on the command line |
| Batch.OutFileExample | drivingScript.py:209 | Box(10, 20, 2, 4) writes to `/results_SA_2_1_Z_4.json` |
| FloodFill.RowPeak | src/BayesianClustering/LocalizationFile.cpp:154-163 | the value returned is the largest entry of the row and is attained |
| FloodFill.Peak | src/BayesianClustering/LocalizationFile.cpp:154-163 | `Max` is the largest cell of the blurred histogram and is attained |
| FloodFill.Cut | src/BayesianClustering/LocalizationFile.cpp:166 | `int(0.2 * Max)` truncates Max/5 toward zero |
| FloodFill.Threshold | src/BayesianClustering/LocalizationFile.cpp:166-169 | every cell becomes −1 or 0, and −1 exactly when its blurred value exceeds the cut |
| FloodFill.PeakSurvives | src/BayesianClustering/LocalizationFile.cpp:166-169 | for a histogram with a positive peak, some cell survives the threshold |
| FloodFill.Neighbour | src/BayesianClustering/LocalizationFile.cpp:113-116 | each of the four probes is 4-adjacent and stays inside the 512×512 grid when its edge guard allows it |
| FloodFill.FillStarts | src/BayesianClustering/LocalizationFile.cpp:111 | writing the id at the start cell begins a fill from that cell |
| FloodFill.FillExtends | src/BayesianClustering/LocalizationFile.cpp:113-116 | a recursive call from a negative neighbour extends the fill |
| FloodFill.FillCloses | src/BayesianClustering/LocalizationFile.cpp:109-117 | once all four probes are done, no filled cell has a negative 4-neighbour left |
| FloodFill.Visit | src/BayesianClustering/LocalizationFile.cpp:113-116 | after probe k the fill holds and the first k+1 neighbours are settled |
| FloodFill.Search | src/BayesianClustering/LocalizationFile.cpp:109-117 | `__RecursiveSearch__` writes the id to the start cell and only to negative cells linked to it, and leaves no filled cell with a negative neighbour |
| FloodFill.FillReachesRegion | src/BayesianClustering/LocalizationFile.cpp:109-117 | every cell at the end of a 4-connected path of negative cells from the start carries the id |
| FloodFill.FillIsRegion | src/BayesianClustering/LocalizationFile.cpp:109-117 | a cell changes exactly when it is 4-connected to the start through negative cells; cells that were ≥ 0 are untouched |
| RegionSweep.FillKeepsLabelled | src/BayesianClustering/LocalizationFile.cpp:172-175 | a fill from the next negative cell with `++lRoIid` keeps the labelling, with that cell as the new seed |
| RegionSweep.FillJoins | src/BayesianClustering/LocalizationFile.cpp:172-175 | after each fill, 4-adjacent cells of the mask that were −1 hold the same value |
| RegionSweep.Step | src/BayesianClustering/LocalizationFile.cpp:173-174 | a cell starts a fill exactly when it is still negative, and the id counter equals the number of fills |
| RegionSweep.SweepRow | src/BayesianClustering/LocalizationFile.cpp:173-174 | one row keeps the labelling and the counter |
| RegionSweep.Label | src/BayesianClustering/LocalizationFile.cpp:171-175 | after the sweep no cell is negative. Every −1 cell has an id from 1 to the count, and the seeds are in row-major order |
| RegionSweep.PathKeepsLabel | src/BayesianClustering/LocalizationFile.cpp:172-175 | along a 4-connected path of −1 cells, every cell carries the first cell's label |
| RegionSweep.IdsAreRegions | src/BayesianClustering/LocalizationFile.cpp:172-175 | id k+1 marks exactly the cells 4-connected through the mask to the k-th seed: the ids are the maximal regions, numbered in row-major order of their first cell |
| RegionSweep.RegionCarriesId | src/BayesianClustering/LocalizationFile.cpp:172-175 | every cell of the k-th seed's region carries id k+1 |
| HoleFill.ScanIsNearest | src/BayesianClustering/LocalizationFile.cpp:195-207 | each ray returns the value of the nearest non-zero cell in its direction, or 0 exactly when every cell on the ray is 0 |
| HoleFill.ScanHits | src/BayesianClustering/LocalizationFile.cpp:197-207 | a non-zero ray result is the value of some cell on the ray with only zeros before it |
| HoleFill.ScanClear | src/BayesianClustering/LocalizationFile.cpp:197-207 | a ray returns 0 exactly when its cells are all 0 |
| HoleFill.Visit | src/BayesianClustering/LocalizationFile.cpp:189-210 | only the visited cell can change. A labelled cell keeps its label and adds 1 to its record. A 0 cell whose four rays agree takes their common value and adds 1 to that record (record 0 when all rays find nothing). A 0 cell whose rays disagree stays 0 and no record changes |
| HoleFill.CellsWithFrame | src/BayesianClustering/LocalizationFile.cpp:189-210 | the count of cells with a label over the first n cells depends only on those cells |
| HoleFill.VisitSizes | src/BayesianClustering/LocalizationFile.cpp:189-210 | after each cell, every record's size counts the cells visited so far that carry its label |
| HoleFill.NoSizes | src/BayesianClustering/LocalizationFile.cpp:186 | there are count+1 records, all of size 0 |
| HoleFill.PassUnique | src/BayesianClustering/LocalizationFile.cpp:189-210 | the pass is determined by where it starts: two traces of visits from the same grid and sizes are the same, so the filled grid is a function of the labels |
| HoleFill.PassAgree | src/BayesianClustering/LocalizationFile.cpp:189-210 | two traces from the same start agree at every stage up to n |
| HoleFill.PassFrame | src/BayesianClustering/LocalizationFile.cpp:189 | the first n visits of the row-major pass leave every cell from position n on as it was |
| HoleFill.PassKept | src/BayesianClustering/LocalizationFile.cpp:189-210 | once the cell at position m is visited, no later visit changes it |
| HoleFill.PassVisits | src/BayesianClustering/LocalizationFile.cpp:189-210 | the pass reaches the cell at position m with its input value and writes there what the four-ray rule makes of it in the grid as the first m visits left it |
| HoleFill.FillStep | src/BayesianClustering/LocalizationFile.cpp:190-209 | a visit writes at its cell: the label if there is one, else the common value of the four rays when they agree (0 when all find nothing), else 0 |
| HoleFill.FillRule | src/BayesianClustering/LocalizationFile.cpp:189-210 | when the pass reaches cell m it is still as in the input, and from then on it holds what the four-ray rule makes of it in the grid as the first m visits left it: later visits never change it |
| HoleFill.PassSized | src/BayesianClustering/LocalizationFile.cpp:189-193 | after the first n visits every label of the input is kept and each record's size counts the visited cells carrying its id |
| HoleFill.PassFills | src/BayesianClustering/LocalizationFile.cpp:189-210 | after the whole pass, each cell holds what the four-ray rule makes of it in the grid as updated up to that cell, so a 0 cell joins region k exactly when its four rays, in that grid, all meet k first |
| HoleFill.FillHoles | src/BayesianClustering/LocalizationFile.cpp:188-210 | the loop runs the row-major pass of visits over all 512×512 cells from zeroed sizes and ends at its last stage; labelled cells keep their labels, every cell holds a record index, and each record's size is the number of cells carrying its label in the filled grid |
| RoiTally.LoadAppend | src/BayesianClustering/LocalizationFile.cpp:43-61 | loading two chunks of records gives the concatenation of their points |
| RoiTally.LoadKeeps | src/BayesianClustering/LocalizationFile.cpp:48-60 | a point is loaded exactly when some record with 100 ≤ sigma ≤ 300 produces it, with x, y and the uncertainty scaled by a nanometre |
| RoiTally.WidenBounds | src/BayesianClustering/LocalizationFile.cpp:125-128 | a bound pair widened by a value has lo = min(lo, v) and hi = max(hi, v) |
| RoiTally.ExtentBounds | src/BayesianClustering/LocalizationFile.cpp:122-129 | the bounds bracket every coordinate, start from (9e99, −9e99), and are attained unless no point moved them |
| RoiTally.ExtentIsAttained | src/BayesianClustering/LocalizationFile.cpp:122-129 | for a non-empty dataset both bounds are coordinates of some point |
| RoiTally.ScaleSpansGrid | src/BayesianClustering/LocalizationFile.cpp:131-132 | the scale is positive and maps the bound span onto 512 bins |
| RoiTally.TopPointOverflows | src/BayesianClustering/LocalizationFile.cpp:131-141 | as written, the point at the upper bound of a proper span gets bin 512, one past the last row of the array |
| RoiTally.BinAsWritten | src/BayesianClustering/LocalizationFile.cpp:131-140 | as written there is no bin exactly when the span has zero width: the scale is 512/0 and the offset times it is not a number |
| RoiTally.Bin | src/BayesianClustering/LocalizationFile.cpp:131-140 | every bin is in 0..511. Below the upper bound of a proper span it is the truncated scaled offset as written. The upper bound gets the last bin, and every value of a zero-width span gets bin 0 |
| RoiTally.BinMonotone | src/BayesianClustering/LocalizationFile.cpp:139-140 | binning preserves order |
| RoiTally.CellOf | src/BayesianClustering/LocalizationFile.cpp:139-141 | every point falls in a cell of the 512×512 histogram |
| RoiTally.BoundsFit | src/BayesianClustering/LocalizationFile.cpp:122-141 | every point of any dataset, empty or with equal coordinates included, lies within the bounds computed from it |
| RoiTally.OnePointHasNoBin | src/BayesianClustering/LocalizationFile.cpp:122-141 | a dataset of one point has zero-width bounds, so as written it has no bin on either axis; the corrected bins put it in cell (0, 0) |
| RoiTally.Zeroes | src/BayesianClustering/LocalizationFile.cpp:136 | the histogram starts all zero |
| RoiTally.Histogram | src/BayesianClustering/LocalizationFile.cpp:135-142 | each cell counts exactly the points that bin to it, for any bounds holding every point |
| RoiTally.Fresh | src/BayesianClustering/LocalizationFile.cpp:186 | one empty record per size, with unset bounds |
| RoiTally.LabelsBounded | src/BayesianClustering/LocalizationFile.cpp:217-220 | every label read is a valid record index |
| RoiTally.Gather | src/BayesianClustering/LocalizationFile.cpp:224-229 | gathering member indices gives the indexed points, one per index, in order |
| RoiTally.Join | src/BayesianClustering/LocalizationFile.cpp:213-230 | joining the points keeps one record per label |
| RoiTally.RecordSnoc | src/BayesianClustering/LocalizationFile.cpp:224-229 | adding one point to a record extends its members and widens both bounds by that point |
| RoiTally.GatherSnoc | src/BayesianClustering/LocalizationFile.cpp:225-229 | the bounds of the gathered members after one more point are the old bounds widened by it |
| RoiTally.JoinPointCollects | src/BayesianClustering/LocalizationFile.cpp:213-230 | after each point, a record holds exactly the earlier points with its label when its size is at least 500, and its bounds are theirs |
| RoiTally.JoinCollects | src/BayesianClustering/LocalizationFile.cpp:213-230 | after all points, each record of size ≥ 500 holds exactly the points binned to its cells, in order, with their min/max bounds. Smaller records and record 0 hold none |
| RoiExtract.ShiftAll | src/BayesianClustering/LocalizationFile.cpp:246-250 | recentring subtracts the centre from every point, keeping order and the uncertainty |
| RoiExtract.ExpectedIsFaithful | src/BayesianClustering/LocalizationFile.cpp:213-230 | the joined record lists real point indices and its bounds are their extent |
| RoiExtract.RegionIsFramed | src/BayesianClustering/LocalizationFile.cpp:241-254 | an emitted region has one point per member, centred on its bounds' midpoint, with width equal to the bound span |
| RoiExtract.InsertBySize | src/BayesianClustering/LocalizationFile.cpp:232 | insertion keeps the records ordered by point count and adds the one record |
| RoiExtract.SortBySize | src/BayesianClustering/LocalizationFile.cpp:232 | the records end up in ascending order of point count, as a permutation |
| RoiExtract.SortKeepsFaithful | src/BayesianClustering/LocalizationFile.cpp:232 | sorting keeps every record faithful to the points |
| RoiExtract.EmitFromRecord | src/BayesianClustering/LocalizationFile.cpp:234-256 | every emitted region comes from a record with points |
| RoiExtract.RecordIsEmitted | src/BayesianClustering/LocalizationFile.cpp:234-256 | every record with points is emitted |
| RoiExtract.EmitKeepsOrder | src/BayesianClustering/LocalizationFile.cpp:232-256 | regions come out in ascending order of point count |
| RoiExtract.EmitFramed | src/BayesianClustering/LocalizationFile.cpp:241-254 | every emitted region is centred on its bounds' midpoint with the bound span as width |
| RoiExtract.LabelledIsIndexed | src/BayesianClustering/LocalizationFile.cpp:172-186 | after labelling, every cell is a valid index into the count+1 records |
| RoiExtract.Records | src/BayesianClustering/LocalizationFile.cpp:186-230 | there is one record per label, and each is exactly the `Expected` record of its label after all the data: a kept region holds every point binned to its cells, in data order, with their bounds; any other record holds none. Each keeps its hole-filled size |
| RoiExtract.HistogramIsTallied | src/BayesianClustering/LocalizationFile.cpp:135-142 | the histogram the fill loop produces is the histogram of the data over its own bounds |
| RoiExtract.RegionedEnds | src/BayesianClustering/LocalizationFile.cpp:186-210 | the regions' grid and sizes are the last stage of the one hole-filling pass from the labels, so the fill rule (`HoleFill.PassFills`) and the size count (`HoleFill.PassSized`) hold of them |
| RoiExtract.Regions | src/BayesianClustering/LocalizationFile.cpp:122-210 | for any dataset, the labels come from sweeping the thresholded blurred histogram of the data, and the grid and sizes are exactly the hole-filling pass over those labels: labelled cells are kept, each 0 cell is filled by the four-ray rule, and there is one size per region plus the background, each the region's cell count in the grid |
| RoiExtract.ExtractSorted | src/BayesianClustering/LocalizationFile.cpp:119-265 | the regions are exactly the emission of the join's records for the data, over the hole-filled grid of `Regions` (so a point in a filled hole joins the region whose id its cell's four rays agree on), sorted by point count: ascending in point count, each non-empty and centred on its bounds' midpoint with the span as width. No points give no regions |
| RoiExtract.PlaceAllIsEmit | src/BayesianClustering/API.cpp:254-275 | the API variant emits the same regions in record-id order, each with the current configuration recentred on that region's centre |
| RoiExtract.EmitByIdOutcome | src/BayesianClustering/API.cpp:254-275 | it fails with "Current configuration not set" exactly when some record has points and no configuration is set. Each RoI's configuration differs from the current one only in the centre, and no records with points means no RoIs |
| RoiExtract.ExtractById | src/BayesianClustering/API.cpp:132-277 | the result is exactly the id-order emission of the join's records for the data, over the hole-filled grid of `Regions`. It fails, with "Current configuration not set", exactly when some record has points and no configuration is set. Every RoI has points, and its configuration is the current one recentred. No points give no RoIs |
| RoiExtract.ManualKeeps | src/BayesianClustering/LocalizationFile.cpp:268-285 | the manual RoI holds exactly the points with \|x−cx\| < w/2 and \|y−cy\| < h/2, recentred on (cx, cy) |
| RoiExtract.ManualFramed | src/BayesianClustering/LocalizationFile.cpp:280-282 | the manual RoI is centred on (cx, cy) with the given width and height |
| RoiExtract.FromConfigKeeps | src/BayesianClustering/API.cpp:100-114 | it fails exactly when no configuration is set. Otherwise there is one RoI, with the current configuration, holding exactly the shifted points with both offsets below 1 in magnitude |
| RoiExtract.NearCentreKeeps | src/BayesianClustering/API.cpp:105-110 | a shifted point is kept exactly when both its offsets are below 1 in magnitude |
| RoiExtract.FromConfigIgnoresY | src/BayesianClustering/API.cpp:107-109 | as written, the result depends only on the x coordinates: datasets that differ only in y give the same RoI |
| RoiExtract.NearCentreIgnoresY | src/BayesianClustering/API.cpp:107-109 | as written, the kept points do not depend on y at all |
| RoiExtract.CentredPointDropped | src/BayesianClustering/API.cpp:107-109 | the point (0, 5) at centre (0, 5) is dropped as written and kept at (0, 0) by the intended code |
| RoiExtract.IntendedKeepsNearPoints | src/BayesianClustering/API.cpp:105-110 | with the y offset taken from y, the RoI holds exactly the points within 1 of the centre in both axes, recentred |
| ImageJ.GetShort | src/BayesianClustering/ImageJ_RoI.cpp:16 | a big-endian 16-bit read is below 65536 |
| ImageJ.ShortRoundTrip | src/BayesianClustering/ImageJ_RoI.cpp:16 | reading back two written bytes gives the value, and writing a read value gives back the two bytes |
| ImageJ.U16 | src/BayesianClustering/ImageJ_RoI.cpp:22-23 | storing in a `uint16_t` reduces modulo 65536 and leaves 16-bit values unchanged |
| ImageJ.DecodeBinaryRoI | src/BayesianClustering/ImageJ_RoI.cpp:14-25 | it fails exactly when the magic, type or version check fails, in that order, each with its own message. Otherwise it returns GetShort(16) points in index order, point i being (x_i + Left, y_i + Top) reduced to 16 bits |
| ImageJ.ShortsAt | src/BayesianClustering/ImageJ_RoI.cpp:23 | the k-th 16-bit field of a block reads back as the k-th value |
| ImageJ.OffsetRoundTrip | src/BayesianClustering/ImageJ_RoI.cpp:23 | removing the offset and adding it back modulo 65536 gives the coordinate |
| ImageJ.DecodeEncode | src/BayesianClustering/ImageJ_RoI.cpp:14-25 | decoding an encoded polygon gives the polygon back |
| Clusters.AddParameterLaws | src/BayesianClustering/Cluster.cpp:15-28 | `Parameter()` is the identity of `+=`. The sum is associative and commutative in A, Bx, By, C and logF, S2 stays as in the left operand, and the order of adding two parameters does not matter |
| Clusters.ProtoCentre | src/BayesianClustering/Cluster.cpp:90-108 | a proto-cluster has size 1 and no parent, with one parameter per sigma bin. In each bin the weight A is non-zero, and Bx/A, By/A and C/A are x, y and r² of the point |
| Clusters.AddClusterCommutes | src/BayesianClustering/Cluster.cpp:139-147 | merging two clusters into a third gives the same result in either order |
| Clusters.UpdateLogScoreCaches | src/BayesianClustering/Cluster.cpp:110-137 | the score is recomputed only when the size grew past the last scored size, and that size is then recorded. Calling twice is the same as once, and nothing else changes |
| Clusters.Root | src/BayesianClustering/Cluster.cpp:149-153 | following parents ends at a cluster without a parent, at or after the start |
| Clusters.GetParent | src/BayesianClustering/Cluster.cpp:149-153 | `GetParent` returns the root of the parent chain and keeps the arena's size |
| Clusters.Redirect | src/BayesianClustering/Cluster.cpp:151-152 | pointing a cluster straight at its root keeps the forest and every root |
| Clusters.GetParentKeepsStatistics | src/BayesianClustering/Cluster.cpp:149-153 | path compression changes parent links only, never sizes or parameters |
| Clusters.GetParentKeepsRoots | src/BayesianClustering/Cluster.cpp:149-153 | after path compression the links still form a forest and every cluster has its old root |
| Clusters.GetParentCompresses | src/BayesianClustering/Cluster.cpp:151-152 | every cluster on the searched path, other than the root, now points straight at the root, and clusters off the path keep their parent |
| Clusters.GetParentIdempotent | src/BayesianClustering/Cluster.cpp:149-153 | a second `GetParent` from the same cluster changes nothing and returns the same root |
| DataProxies.GetClusterIsRoot | include/BayesianClustering/DataProxy.hpp:53-57 | `GetCluster` returns null exactly when the point has no cluster, and otherwise the root of its chain. It stores that root, so a second call returns the same and changes nothing, and the exclusion flag is untouched |
| DataProxies.TotalUpdate | src/BayesianClustering/DataProxy.cpp:28-31 | replacing one cluster changes the size total by the difference of the two sizes |
| DataProxies.TotalAppend | src/BayesianClustering/DataProxy.cpp:17-18 | appending a cluster adds its size to the total |
| DataProxies.Clustered | src/BayesianClustering/RoIproxy.cpp:49-57 | at most all points are clustered |
| DataProxies.ClusteredUpdate | src/BayesianClustering/DataProxy.cpp:25-40 | changing one point's cluster changes the clustered count by that point only |
| DataProxies.Reach | src/BayesianClustering/DataProxy.cpp:40-43 | the neighbour loop visits exactly the prefix of the sorted list within the reach, stopping at the first entry beyond it |
| DataProxies.CompressStep | src/BayesianClustering/DataProxy.cpp:25-27 | looking up a clustered point's root keeps every invariant and every root, and points the proxy at its root |
| DataProxies.MergeStep | src/BayesianClustering/DataProxy.cpp:28-31 | merging a foreign root into the current cluster adds its statistics, re-parents it and zeroes its size. The size total is kept and the point now belongs to the current cluster |
| DataProxies.JoinStep | src/BayesianClustering/DataProxy.cpp:37-39 | an unclustered included point adds its proto-cluster to the current cluster and joins it, and the number of unclustered points drops |
| DataProxies.RejoinGrown | src/BayesianClustering/DataProxy.cpp:25-32 | the merge branch keeps the growth invariant, leaves the point in the current cluster and keeps the size total, with no recursion |
| DataProxies.Visit | src/BayesianClustering/DataProxy.cpp:23-46 | the recursive call does nothing for an unclustered excluded point. Otherwise the point ends in the current cluster, and for an already-clustered point the size total is unchanged |
| DataProxies.Grow | src/BayesianClustering/DataProxy.cpp:37-44 | growing from a point leaves it and its whole in-reach, included, connected neighbourhood in the current cluster |
| DataProxies.LoopStep | src/BayesianClustering/DataProxy.cpp:40-43 | one neighbour visit extends the loop invariant by one entry |
| DataProxies.Clusterize | src/BayesianClustering/DataProxy.cpp:15-21 | the top level does nothing for a clustered or excluded point. Otherwise it appends exactly one new cluster, which becomes the point's root, and every included point within reach of a grown point is clustered |
| DataProxies.AppendKeepsRoot | src/BayesianClustering/DataProxy.cpp:17-18 | appending a parentless cluster keeps the forest and every existing root |
| DataProxies.AppendStep | src/BayesianClustering/DataProxy.cpp:17-18 | appending the new empty cluster keeps every invariant |
| RoiProxies.NearBack | src/BayesianClustering/Data.cpp:38-60 | on mutual, distance-sorted lists (as `RoiProxies.PreprocessedIsMutual` shows the preprocessed lists are), if x is within reach of j then j is within reach of x, at the same distance |
| RoiProxies.PointGeometry | src/BayesianClustering/Data.cpp:27-31 | a point's scan shares the root, max2R and max2R² with every other point and has its own angular window |
| RoiProxies.PreprocessedIsMutual | src/BayesianClustering/Data.cpp:23-60 | when every list is the one `Preprocess` builds over radius-sorted points and no angular window drops a point within max2R, the lists are distance-sorted and mutual |
| RoiProxies.GrowthKeepsConsistent | src/BayesianClustering/RoIproxy.cpp:114 | clusterising more points keeps every pair of included neighbours within reach in the same cluster |
| RoiProxies.Pass | src/BayesianClustering/RoIproxy.cpp:114 | after `Clusterize` on every point, all included points are clustered and neighbouring included points share a root |
| RoiProxies.ResetIsClean | src/BayesianClustering/RoIproxy.cpp:106-107 | after the reset no point has a cluster and the exclusion flags are kept |
| RoiProxies.SetExcludeKeeps | src/BayesianClustering/RoIproxy.cpp:113 | setting the exclusion flags keeps consistency, provided no clustered point becomes excluded |
| RoiProxies.Excluded | src/BayesianClustering/RoIproxy.cpp:49-54 | the background count is at most the number of points |
| RoiProxies.SizeMinus | src/BayesianClustering/RoIproxy.cpp:237 | `size_t` subtraction: the exact difference when it is non-negative, wrapped by 2^64 when it is negative |
| RoiProxies.UpdateCountsKeeps | src/BayesianClustering/RoIproxy.cpp:219-245 | with no sigma bins the counts are unchanged. Otherwise cluster count = non-empty clusters, clustered = sum of their sizes, and background = points − clustered. Points and links are untouched |
| RoiProxies.CheckMeans | src/BayesianClustering/RoIproxy.cpp:24-93 | the check passes exactly when four things hold: the non-empty cluster count matches, the excluded count equals the background, sizes plus excluded equal the point count, and each included point shares its root with every included neighbour within 4R². Otherwise it fails with "Check failed" |
| RoiProxies.NeighbourTestAsWritten | src/BayesianClustering/RoIproxy.cpp:61-70 | as written the not-clustered test at line 65 never fires for a clustered proxy, and an included neighbour without a cluster reaches the null dereference at line 66, where the intended step counts it as not clustered; otherwise the two steps agree |
| RoiProxies.NeighbourIntended | src/BayesianClustering/RoIproxy.cpp:61-70 | the intended step never dereferences, and passes exactly when the neighbour is excluded or clustered under the same root |
| RoiProxies.NeighboursAgreeIntended | src/BayesianClustering/RoIproxy.cpp:57-70 | the neighbour test of the check is the intended step passing for every neighbour within reach of a clustered proxy |
| RoiProxies.FindIsRoot | src/BayesianClustering/RoIproxy.cpp:66 | the root lookup used by the check is the union-find root |
| RoiProxies.SplitCounts | src/BayesianClustering/RoIproxy.cpp:49-57 | when every included point is clustered, clustered plus excluded is the number of points |
| RoiProxies.PassPassesCheck | src/BayesianClustering/RoIproxy.cpp:113-119 | after a full pass and count update, `CheckClusterization` passes and the background is the excluded count |
| RoiProxies.ExcludedBelow | src/BayesianClustering/RoIproxy.cpp:113 | the excluded count is the number of points whose score for the bin is below T |
| RoiProxies.AdmitsLower | src/BayesianClustering/RoIproxy.cpp:111-113 | lowering T never excludes a point that was clustered, so no reset is needed between T steps |
| RoiProxies.Step | src/BayesianClustering/RoIproxy.cpp:113-119 | a point is excluded exactly when its score is below T, and every included point is clustered. When the clustered points were all admitted the check passes, with background = points below T and clustered + background = points |
| RoiProxies.NextBin | src/BayesianClustering/RoIproxy.cpp:111 | T steps down by the spacing: T_j = T.max − j·T.spacing |
| RoiProxies.RowExtends | src/BayesianClustering/RoIproxy.cpp:121-125 | each callback appends exactly one report for (i, j) |
| RoiProxies.ScanT | src/BayesianClustering/RoIproxy.cpp:104-126 | one R bin runs T.bins steps from T.max downward, one report each, and fails only when validation is on and unsound |
| RoiProxies.ScheduleGrows | src/BayesianClustering/RoIproxy.cpp:101-126 | each R bin contributes its row of (i, j) keys in order |
| RoiProxies.RowAppended | src/BayesianClustering/RoIproxy.cpp:101-126 | appending a finished row keeps the reports faithful and extends the keys by that row |
| RoiProxies.ScanRTStep | src/BayesianClustering/RoIproxy.cpp:101-126 | the reports of one more R bin extend the keys by that bin's row and keep every report faithful |
| RoiProxies.StridedStep | src/BayesianClustering/RoIproxy.cpp:101 | `i += aParallelization` moves bin i from the bins still to scan to the bins done, in order |
| RoiProxies.Stride | src/BayesianClustering/RoIproxy.cpp:98-101 | `lR += dR` with dR = P·R.spacing moves from the radius of bin i to that of bin i + P |
| RoiProxies.ResetClears | src/BayesianClustering/RoIproxy.cpp:129-130 | after the final clear every point is still there and none has a cluster |
| RoiProxies.ScanRT | src/BayesianClustering/RoIproxy.cpp:96-131 | for every stride and offset on which the loop ends (a non-zero stride, or an offset already past the last bin), the callback runs exactly for (i, j) with i = offset, offset+P, … < R.bins and j < T.bins, in order. Each report has lR = R.min + i·R.spacing and lT = T.max − j·T.spacing, and every point's cluster is null on return |
| RoiProxies.ClusterizeAt | src/BayesianClustering/RoIproxy.cpp:134-153 | after the reset, a point is clustered exactly when its localisation score is at least T; the check at 4R² then passes with the counts |
| Neighbours.ForwardIsNeighbours | src/BayesianClustering/Data.cpp:38-45 | the forward scan collects exactly the neighbours at or after its start |
| Neighbours.BackwardIsNeighbours | src/BayesianClustering/Data.cpp:51-58 | the backward scan collects exactly the neighbours at or before its start |
| Neighbours.Insert | src/BayesianClustering/Data.cpp:60 | insertion keeps the list sorted by squared distance |
| Neighbours.Sort | src/BayesianClustering/Data.cpp:60 | the neighbour list is sorted ascending by squared distance and is a permutation |
| Neighbours.PreprocessIsNeighbours | src/BayesianClustering/Data.cpp:27-67 | `mNeighbours` is sorted by squared distance and holds exactly the neighbours: other points, reached before the scan stops, with squared distance below max2R² |
| Neighbours.ReachedByRadius | src/BayesianClustering/Data.cpp:40-53 | on r-sorted data, a point is reached by the scans exactly when its r differs from this point's r by at most max2R |
| Neighbours.PreprocessMutual | src/BayesianClustering/Data.cpp:38-60 | on radius-sorted points, if point idx lists e.1 at squared distance d then e.1 lists idx at d, when the window at e.1 keeps near points |
| Neighbours.Advance | src/BayesianClustering/Data.cpp:84-89 | the iterator only advances, over entries within the radius, and stops at the first entry beyond it |
| Neighbours.AdvanceCounts | src/BayesianClustering/Data.cpp:84-89 | on a sorted list the advanced position is the number of entries within the radius |
| Neighbours.LocalizationScoreCounts | src/BayesianClustering/Data.cpp:102-118 | the score is sqrt(constant · count), count being the neighbours within R |
| Neighbours.AdvanceLoop | src/BayesianClustering/Data.cpp:84-89 | the loop computes the advance |
| Neighbours.CountAt | src/BayesianClustering/Data.cpp:80-89 | a bin's count is at most the list length |
| Neighbours.CountAtStep | src/BayesianClustering/Data.cpp:80-89 | continuing from any earlier position gives the bin's count |
| Neighbours.CountGrows | src/BayesianClustering/Data.cpp:80-89 | the running count never decreases from bin to bin |
| Neighbours.LocalizationScores | src/BayesianClustering/Data.cpp:71-99 | exactly Rbins scores are appended. Score i is 0 while no neighbour is counted and otherwise sqrt(constant · count_i), count_i being the neighbours within minScanR + i·dR |
| Neighbours.ScoresUpToAt | src/BayesianClustering/Data.cpp:78-98 | the first n scores are those of the first n bins |
| Neighbours.CountAtIsWithin | src/BayesianClustering/Data.cpp:80-89 | a bin's count equals the number of neighbours with squared distance ≤ (minScanR + i·dR)² |
| Points.Abs | include/BayesianClustering/Data.hpp:68-71 | the magnitude is non-negative and is ±v |
| Points.R2 | src/BayesianClustering/Data.cpp:13-16 | r² = x² + y² is non-negative and 0 at the origin |
| Points.LessIsByR2 | include/BayesianClustering/Data.hpp:43-46 | `<` on r agrees with `<` on r², so it orders by distance from the origin only |
| Points.DR2 | include/BayesianClustering/Data.hpp:51-55 | the squared distance is non-negative and 0 for coincident points |
| Points.DR2Symmetric | include/BayesianClustering/Data.hpp:51-55 | the squared distance is symmetric |
| Points.DRIsDistance | include/BayesianClustering/Data.hpp:60-63 | dR is non-negative, squares to dR2, and is symmetric |
| Points.DPhi | include/BayesianClustering/Data.hpp:68-71 | dPhi = \|phi − phi'\| is non-negative and 0 for a point with itself |
| Rois.WindowIsFilter | src/BayesianClustering/RoI.cpp:19-27 | the constructor keeps exactly the points whose algorithm-unit \|x\| < 1 and \|y\| < 1 |
| Rois.WindowConvertsBack | src/BayesianClustering/RoI.cpp:19-27 | every kept point converts back to the physical coordinates of an input point |
| Rois.Insert | src/BayesianClustering/RoI.cpp:29 | insertion keeps points ordered by r² |
| Rois.Sort | src/BayesianClustering/RoI.cpp:29 | `mData` is sorted ascending by r² and is a permutation |
| Rois.RoiIsSortedWindow | src/BayesianClustering/RoI.cpp:16-32 | the RoI's data is a permutation of the windowed points and holds exactly them, in `<` order |
| Rois.RoiListsMutual | src/BayesianClustering/RoI.cpp:16-32 | a RoI's points come sorted by radius, so the neighbour lists preprocessed over them are mutual (given the angular cut keeps near points) |
| Rois.ClusterizeChecks | src/BayesianClustering/RoI.cpp:57-66 | it throws on R < 0, then on T < 0, with the source's messages, and otherwise runs the clusterisation |
| Rois.StridedCount | src/BayesianClustering/RoIproxy.cpp:101 | offset o with stride P visits bin i once exactly when o ≤ i < bins and P divides i − o |
| Rois.OffsetsCount | src/BayesianClustering/RoI.cpp:50-54 | offsets 0..n−1 with stride P together visit bin i once exactly when i % P < n |
| Rois.ScheduleConcat | src/BayesianClustering/RoI.cpp:50-54 | the reports of several proxies are the concatenation of their schedules |
| Rois.RowCount | src/BayesianClustering/RoIproxy.cpp:111-126 | a row holds key (i, j) once for each j < T.bins |
| Rois.ScheduleCount | src/BayesianClustering/RoI.cpp:50-54 | a schedule holds (i, j) as often as it visits i, when j < T.bins |
| Rois.FaithfulAppend | src/BayesianClustering/RoI.cpp:50-54 | concatenating faithful report lists is faithful |
| Rois.ProxyAppended | src/BayesianClustering/RoI.cpp:50-54 | the reports of one more proxy extend the schedule by its strided R bins and keep every report faithful |
| Rois.StridedHit | src/BayesianClustering/RoIproxy.cpp:101 | a proxy whose offset is below the stride visits exactly the R bins with that remainder |
| Rois.OffsetsStep | src/BayesianClustering/RoI.cpp:54 | one more proxy adds its own visits to each bin's count |
| Rois.EveryStepOnce | src/BayesianClustering/RoI.cpp:50-54 | with any positive number of proxies, stride and offsets at full width, every (i, j) with i < R.bins and j < T.bins is scheduled exactly once and nothing else is |
| Rois.ScanRT | src/BayesianClustering/RoI.cpp:41-55 | as intended, with stride and offset at the width of `Nthreads`: for every Nthreads > 0, every (i, j) with i < R.bins and j < T.bins is reported exactly once, and each report is faithful |
| Rois.Narrow | src/BayesianClustering/RoIproxy.cpp:96 | a `uint8_t` parameter is below 256 and equals its argument when that is below 256 |
| Rois.ScanRTAsWritten | src/BayesianClustering/RoI.cpp:50-54 | as written, proxy o scans with stride Nthreads % 256 from bin o % 256; whenever that returns (non-zero narrowed stride, or no R bins), the reports are faithful and follow the narrowed schedule |
| Rois.StrideVanishes | src/BayesianClustering/RoIproxy.cpp:96-101 | a thread count that is a multiple of 256 narrows to stride 0: proxy 0 stays at bin 0 after any number of steps, below every positive R.bins, so its loop never ends |
| Rois.NarrowZero | src/BayesianClustering/RoI.cpp:54 | of the offsets 0..256, exactly 0 and 256 narrow to 0 |
| Rois.StartsAtZero | src/BayesianClustering/RoIproxy.cpp:101 | a proxy visits bin 0 exactly when it starts there |
| Rois.WrapCount | src/BayesianClustering/RoI.cpp:54 | with 257 threads, bin 0 is among the narrowed R bins of one of the first n proxies, and of two once proxy 256 is included |
| Rois.OffsetWrapRepeats | src/BayesianClustering/RoI.cpp:50-54 | as written, 257 threads schedule each step (0, j) twice |
| Scan.Start | src/Scan.cxx:126-128 | the score table has Rbins rows of Tbins entries |
| Scan.Callback | src/Scan.cxx:50-79 | `JsonCallback` appends exactly one line and stores the score at [i][j], changing no other entry. The best score and position are replaced only on a strictly greater score |
| Scan.Run | src/Scan.cxx:126 | a run of callbacks keeps the table's shape |
| Scan.HighestBounds | src/Scan.cxx:67-72 | the running best is at least the floor and at least every score |
| Scan.RunLines | src/Scan.cxx:58-63 | each call appends its own line after the existing ones, in call order |
| Scan.RunBest | src/Scan.cxx:67-72 | starting from the floor and step (0, 0), the best score is the highest one and the best step is that of the first call reaching it |
| Scan.RunTracksBest | src/Scan.cxx:50-79 | after the calls there is one line per call and the best score is the highest. Its position is the earliest call attaining it, or the value-initialised (0, 0) if none beat −9e99 |
| Scan.RunStoresScores | src/Scan.cxx:74-75 | each entry holds the last score stored there, or is unchanged if no call named it |
| Scan.DispatchCases | src/Scan.cxx:117-156 | an empty input name fails "No input file specified", and an empty output name runs silently. A name longer than 5 characters ending in ".json" gets JSON, and any other name fails "No handler for specified output-file" |
| Scan.BareSuffixRejected | src/Scan.cxx:146-156 | the bare name ".json" is rejected |
| Scan.JsonFileGrows | src/Scan.cxx:151 | the file is `{\nResults:[\n`, the lines and `]\n}`; one more line is inserted before the footer |
| Units.Factor | src/Utilities/Units.cpp:9 | `UnitMap` has exactly nm, um, mm and m, with factors 1e-9, 1e-6, 1e-3 and 1, all positive |
| Units.Run | src/Utilities/Units.cpp:14-18 | a token run is maximal: all its characters belong to the class and the next does not |
| Units.ReadExponent | src/Utilities/Units.cpp:14-17 | without an `e`/`E` mark the exponent is 0 and nothing is read. After a mark, the optional sign and digits are read, and the read fails exactly when there are no digits |
| Units.ReadNumber | src/Utilities/Units.cpp:14-17 | a number read has at least one whole or fraction digit, carries the sign read, consumes at least one character and is not followed by a digit |
| Units.ReadWord | src/Utilities/Units.cpp:17-18 | the unit token has no whitespace |
| Units.TokensExtend | src/Utilities/Units.cpp:14-18 | text after the two tokens does not change what is read |
| Units.OnlyTwoTokens | src/Utilities/Units.cpp:14-19 | only the first two whitespace-separated tokens are read |
| Units.StrToDistWritten | src/Utilities/Units.cpp:12-20 | "digits unit" converts to the number times the unit's factor |
| Units.StrToDistOf | src/Utilities/Units.cpp:12-20 | `StrToDist` is the value of the number read, exponent included, times the factor of the unit read |
| Units.ExponentRead | src/Utilities/Units.cpp:12-20 | "1e3 nm" is a thousand nanometres |
| Units.DanglingExponentFails | src/Utilities/Units.cpp:12-20 | "1e nm" fails to read a number, so the empty unit throws |
| Units.ExponentExtend | src/Utilities/Units.cpp:14-17 | an exponent that ends inside a string is read the same with text appended |
| Units.WrittenTokens | src/Utilities/Units.cpp:14-18 | "digits unit" tokenises to that number and unit |
| Units.NanometersAgree | include/Utilities/Units.hpp:22-49 | `StrToDist("n nm")` equals the `_nanometer` literal for n |
| Units.MicrometersAgree | include/Utilities/Units.hpp:22-49 | `StrToDist("n um")` equals the `_micrometer` literal for n |
| Configurations.Divide | src/BayesianClustering/Configuration.cpp:65-88 | the spacing is finite exactly when there are bins, and then spacing × bins = range |
| Configurations.Default | src/BayesianClustering/Configuration.cpp:20-35 | the default has centre (0, 0), widths and area 0, the unset markers, empty bins, validate false and empty file names |
| Configurations.SetCentre | src/BayesianClustering/Configuration.cpp:38-43 | both coordinates are stored and nothing else changes |
| Configurations.SetWidth | src/BayesianClustering/Configuration.cpp:45-51 | both widths are stored, area = widthX · widthY, and nothing else changes |
| Configurations.SetSigmaParameters | src/BayesianClustering/Configuration.cpp:53-63 | count bins, spacing (max − min)/count, bin i = min + i·spacing, bins2 the squares and probabilities interpolated at the bins; nothing else changes |
| Configurations.SigmaBinsSpan | src/BayesianClustering/Configuration.cpp:53-63 | the bins start at min, step by the spacing, and one more step reaches max |
| Configurations.StepsCover | src/BayesianClustering/Configuration.cpp:53-63 | count steps of the spacing go from min to max |
| Configurations.SetRBins | src/BayesianClustering/Configuration.cpp:65-78 | dR = range/bins, maxR = maxScanR, maxR2 = maxR², max2R = 2·maxR, max2R2 = max2R²; nothing else changes |
| Configurations.RadiiAgree | src/BayesianClustering/Configuration.cpp:65-78 | max2R2 = 4·maxR2 |
| Configurations.SetTBins | src/BayesianClustering/Configuration.cpp:80-88 | dT = range/bins and nothing else changes |
| Configurations.ApplyBinning | src/BayesianClustering/Configuration.cpp:204-211 | R, T and sigma binning are applied only when their bin count is non-zero, and the centre and area are untouched |
| Configurations.CurrentConfiguration | include/BayesianClustering/Configuration.hpp:366-375 | fails with "Current configuration not set" exactly when none is set |
| Configurations.SetCurrentConfiguration | include/BayesianClustering/Configuration.hpp:366-375 | afterwards a configuration is set |
| Configurations.CurrentIsLastSet | include/BayesianClustering/Configuration.hpp:366-375 | nothing is current at the start, and afterwards the current configuration is the last one set |
| GlobalVars.UnitsRoundTrip | include/Cluster_GlobalVars.hpp:133-141 | toAlgorithmUnits and toPhysicalUnits are mutual inverses for a non-zero scale |
| GlobalVars.XRoundTrip | include/Cluster_GlobalVars.hpp:144-152 | toAlgorithmX and toPhysicalX are mutual inverses, and the centre maps to 0 |
| GlobalVars.YRoundTrip | include/Cluster_GlobalVars.hpp:154-162 | toAlgorithmY and toPhysicalY are mutual inverses, and the centre maps to 0 |
| GlobalVars.SetZoom | src/Cluster_GlobalVars.cpp:8-12 | scale · zoom = 2 and scale2 = scale², nothing else changes |
| GlobalVars.ZoomHalfIsUnit | src/Cluster_GlobalVars.cpp:8-12 | half the zoom is one algorithm unit |
| GlobalVars.SetMaxR | src/Cluster_GlobalVars.cpp:34-40 | maxR is the radius in algorithm units, with its square, double and double's square; nothing else changes |
| GlobalVars.MaxRIsRadius | src/Cluster_GlobalVars.cpp:34-40 | maxR converts back to the radius, and max2R2 = 4·maxR2 |
| GlobalVars.SetBins | src/Cluster_GlobalVars.cpp:42-57 | a negative maxScanR defaults to maxR and a negative maxScanT to 2.5·maxR; dR and dT are range/bins; nothing else changes |
| GlobalVars.SetSigmaParameters | src/Cluster_GlobalVars.cpp:20-32 | the stored bins are min + i·spacing in algorithm units, bins2 their squares, and the probabilities are taken at the unscaled bins |
| GlobalVars.SigmaProbabilityAtBin | src/Cluster_GlobalVars.cpp:20-32 | each probability is the interpolator at the stored bin converted back to physical units |
| ListComprehension.Range | include/Utilities/ListComprehension.hpp:65-70 | `range(N)` has length N and element i is i |
| ListComprehension.Map | include/Utilities/ListComprehension.hpp:15-24 | `f \| c` has c's length and element k is f(c[k]) |
| ListComprehension.MapFusion | include/Utilities/ListComprehension.hpp:15-24 | mapping twice is mapping the composition |
| ListComprehension.MapAppend | include/Utilities/ListComprehension.hpp:15-24 | mapping distributes over concatenation |
| ListComprehension.MapRange | include/Utilities/ListComprehension.hpp:15-24 | mapping over `range(n)` tabulates the function |
| Bitonic.Ceil2 | include/BitonicSort.hpp:35-36 | the loop finds the least power of two that is at least the size |
| Bitonic.ExchangeOrders | include/BitonicSort.hpp:41-43 | a compare-swap orders the pair in the direction, swaps iff (second < first) == (dir == up), and moves nothing else |
| Bitonic.Sweep | include/BitonicSort.hpp:40-44 | the sweep is a permutation that orders every pair k, k+m, leaving the untouched middle in place |
| Bitonic.Merge | include/BitonicSort.hpp:31-48 | merging is a permutation; ranges of length ≤ 1 are unchanged and a pair ends ordered |
| Bitonic.Sort | include/BitonicSort.hpp:15-29 | sorting is a permutation; ranges of length ≤ 1 are unchanged and a pair ends ordered |

## Left out

- File reading and CSV tokenising: `fopen`, `fgetc`, `strtod`, byte-offset chunking and Python's `float()`. The lines and the float parser are parameters, and `LoadCSV` starts from parsed rows.
- Concurrency: the thread pool, the mutex in `Scan.cxx` and running `ScanRT` on worker threads. Only the stride arithmetic that divides the R bins between proxies is kept.
- The Gaussian blur kernel (LocalizationFile.cpp:144-163) is the `blur` parameter. It uses `exp` and truncates to `int`, neither of which is modelled.
- `log_score`, `alt_log_score`, the GSL integral in `Cluster::UpdateLogScore`, `ValidateLogScore`, the `lgamma` terms and the logP sum: floating-point formulas. The cluster score is the `score` parameter; only its caching guard and the counts are modelled.
- `SetPb`, `SetAlpha` and `SetPbAlpha`: they only store floating-point constants for the score formulas above.
- The `asin`/`atan2` angular pruning in `Data::Preprocess` is a parameter (`Skipped`).
- boost `program_options` parsing in `FromVector` and `config_file`: only the binning guards at Configuration.cpp:204-211 are modelled.
- `OpenRoiZipfile`: it is libzip I/O. Its decoding step is `DecodeBinaryRoI`.
- The driver's `subprocess.Popen`, `process.kill`, `shutil.copyfile` and in-place `fileinput`: each child's outcome is the `fate` parameter, and the config rewrite is a pure function on lines.
- Plotting, console output and the Python bindings: they do not affect results.
- RoiExtract.SortBySize: `std::sort` is not stable, so records with equal point counts may come out in any order. The model is a stable insertion sort, and its contract states only ascending order and permutation.
- Rois.Sort: `std::sort` is not stable, so points with equal r² may come out in any order. The model is a stable insertion sort, and its contract states only ascending r² and permutation.
- Neighbours.Sort: `std::sort` is not stable, but two neighbour pairs that neither precede the other under `std::pair`'s `operator<` are equal, so any sorted permutation is the same list. The model is an insertion sort, and its contract states ascending order and permutation.
- FloodFill.Search: `__RecursiveSearch__` recurses once per filled cell, up to 512 × 512 = 262144 frames deep for one region, which can overflow the call stack. The model has no stack and does not represent that failure.
- Units.ReadNumber: numbers are exact reals, so an exponent too large or too small for a `double`, which makes the stream fail, is read as its exact value. A `double`'s rounding of long digit strings is not modelled either.
- GlobalVars.SetZoom: the model requires a non-zero zoom. For zoom 0 the source computes `2.0 / 0.0`, an infinite scale, and exact reals have no infinity.
- The `DataProxy` constructor leaves `mExclude` uninitialised, so the exclusion flag is given as input.
- Bitonic.Sort: its contract states permutation, unchanged short ranges and an ordered pair only, not that longer inputs end up fully sorted. Full sortedness of a bitonic network is proved through the 0-1 principle, a statement over every monotone map of the whole network's comparisons, which the model does not carry.
- Bitonic.Merge: its contract states permutation, unchanged short ranges and an ordered pair only, not full sortedness of a bitonic input. That a half-cleaner leaves two bitonic halves, one wholly below the other, is again an argument over all 0-1 inputs of the network, which is not modelled.
- Rois.ScanRT: the corrected scan takes the stride and the offsets at full width. With Nthreads = 0 it returns no reports; in the source `Nthreads - 1` wraps at include/Utilities/Vectorize.hpp:97, which is undefined behaviour.
- Rois.ScanRTAsWritten: it requires a non-zero narrowed stride or no R bins, the only inputs on which every proxy's loop ends; a multiple of 256 threads with R bins never returns (`StrideVanishes`).
- RoiProxies.PreprocessedIsMutual: takes as a hypothesis (`Neighbours.CutKeepsNear`) that no point's angular window drops a point closer than max2R. With exact arithmetic this holds: a point within distance d of one at radius r lies within asin(d/r) of its angle, and `dphi = asin(max2R / r)` at Data.cpp:30. The model cannot derive it because `asin` and `atan2` are parameters. Rounding at the window's edge is not modelled.
- Configurations.SetCurrentConfiguration: the registry stores a copy of the configuration, while Configuration.hpp:366-375 stores a pointer to the caller's object. A later change to that object would show through in the source but not in the model. Nothing in the modelled core changes a configuration after setting it.
- RoiProxies.ScanRT: a zero stride with an offset below `R.bins` is excluded, because `i += aParallelization` then never moves and the loop at RoIproxy.cpp:101 does not end.
- Fixed-width integers are unbounded except in four places: `ImageJ.U16` (`uint16_t`), `RoiProxies.SizeMinus` (`size_t`), `Rois.Narrow` (the `uint8_t` stride and offset of `ScanRTAsWritten`) and `Batch.Trunc` (`int()`).
- The 9e99/−9e99 bounds, the 512 and 520 grid sides, the 500-cell cull and the 0.2 threshold are kept as constants. The histogram's `int` overflow on very large counts is not modelled.

## Findings

| source | as written | input that shows it | evidently intended | confidence | as-written member | corrected member |
|---|---|---|---|---|---|---|
| src/BayesianClustering/LocalizationFile.cpp:131-141 | the bin of a point is `(v − min)·512/(max − min)`, so the point at the maximum gets index 512 and writes one past the last row of the 512×512 array | the two points x = 0 and x = 1 (any y): the point at x = 1 gets bin 1·512/1 = 512. In doubles the same happens for most spans but not every one: for a span of 49 the rounded product is just below 512 and the bin is 511 | the extreme point falls in the last bin, 511 | not executed | RoiTally.TopPointOverflows | RoiTally.Bin |
| src/BayesianClustering/LocalizationFile.cpp:131-140 | when every point has the same x (or y), the scale is `512.0 / 0.0`, infinite; each offset is 0, and `0 · inf` is not a number, whose conversion to `std::size_t` is undefined | a dataset of a single point | every point gets a bin of the histogram; the corrected bins put every value of a zero-width axis in bin 0 | not executed | RoiTally.OnePointHasNoBin | RoiTally.Bin |
| drivingScript.py:135-152 | the slices `[r:-r]` of lines 135 and 152 are `[0:0]` for `rounds = 0`: line 135 cannot broadcast the input into a (0, 0) slice, and line 152 strips to an empty array | `blurAndThresh(arr, rounds=0)` raises for a 2×2 `arr` and returns an empty array for a 1×1 `arr` (the driver itself always passes the default 15) | the thresholded image with the input's shape | not executed | Blur.AsWrittenLosesMaskAtZero | Blur.BlurIsWindowThreshold |
| src/BayesianClustering/API.cpp:107-109 | the y offset is `k.x − centreY`, so the kept points depend on x only | the point (0, 5) with the configuration centred at (0, 5): the offset is (0, −5) and the point is dropped | `k.y − centreY`, keeping the points within 1 of the centre | not executed | RoiExtract.CentredPointDropped | RoiExtract.IntendedKeepsNearPoints |
| src/BayesianClustering/RoIproxy.cpp:65-66 | the not-clustered test of the neighbour loop reads `i.mCluster`, the proxy's own cluster, which line 57 already found set; line 66 then dereferences the neighbour's cluster without a test | an included proxy with an included neighbour within reach that has no cluster: line 65 does not count it, and line 66 dereferences a null pointer | `! lNeighbour.mCluster`, counting the neighbour as not clustered | not executed | RoiProxies.NeighbourTestAsWritten | RoiProxies.NeighboursAgreeIntended |
| src/BayesianClustering/RoIproxy.cpp:96-101 | `Nthreads` is a `std::size_t`, but `ScanRT` takes the stride and each proxy's index as `const uint8_t&`, so both are taken modulo 256 | 256 threads: the stride is 0, so proxy 0 never leaves bin 0 and the scan does not end; 257 threads: the stride is 1 and offsets 0 and 256 are both 0, so each step (0, j) is scanned twice | stride and offset at the width of `Nthreads`, each step scanned once | not executed | Rois.OffsetWrapRepeats | Rois.ScanRT |
