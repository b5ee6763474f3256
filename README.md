# Garment augmentation: segment extraction and fold-patch areas

This project models two parts of a garment-augmentation program in Dafny and proves
properties of the model.

- **Segment extractor** (`ransac_lines.dfy`, module `RansacLines`). It repeatedly finds
  near-vertical 3D line segments in a point cloud with a RANSAC estimator, which has
  three callbacks:
  - the fit callback packs the two sampled point indices into a 2x1 model;
  - the scoring callback rejects lines that are not near-vertical, collects the points
    strictly within the distance threshold, sorts them by y, and keeps one gap-free run;
  - the driver loop turns each accepted round into an (inlier count, segment) pair,
    higher endpoint first, and removes that round's inlier columns from the remaining
    points.
- **Fold tracker** (`fold_tracker.dfy`, module `FoldTracker`). It works on a rectangular
  region of interest over a garment mesh, seen through a 2-D grid view `view[col][row]`
  of vertex indices, with -1 for a hole.
  - `InsideMesh` is the four-corner test.
  - `GetPoints` and `SetColor` extract points from, and recolour, the mesh along the
    region's middle column.
  - `ComputeGaussianDist` fills the shared 100-entry Gaussian weight table.
  - `ComputeAreas` walks every cell of the region. It splits each cell into two
    triangles, uses a skip cache keyed on the last A index, and adds up the weighted
    measured and unfolded areas.
- `common.dfy` (module `Common`) holds the point type and the `Result` type. A `Result`
  is either `Ok(value)` or `AssertionFailed`, which stands for a run-time assertion that
  throws.

## How the code is modelled

- **Imperative code.** Loops in the source are `while` loops here, each proved against a
  specification function:
  - the inlier loop, against `RawInliers`;
  - the gap scan, against the relational `IsRunSelection`;
  - the push loop, against `Indices`;
  - the driver loop, against the recursive `Detected`;
  - the row loops of the point extraction, the colouring and the area sweep, against
    `PresentIds` and `SweepCells`.
- **Sorting.** The y-sort of the inliers works in place on an `array` (an insertion
  sort). It is proved to give a y-sorted permutation, and nothing more is claimed,
  because `std::sort` is not stable.
- **Classes.** The mesh, the garment, the weight table and the tracker are classes whose
  methods change their fields:
  - `SetColor` modifies exactly the mesh's colours;
  - `ComputeAreas` modifies only the two area fields;
  - `ComputeGaussianDist` rewrites the table.
- **Callbacks and foreign libraries become parameters.** These are passed in as
  function-typed parameters:
  - the RANSAC engine itself;
  - the point-to-line distance, the degeneracy test and the director vector of a line;
  - the principal-component fit;
  - the Gaussian density;
  - the cross-product length and the normalised horizontal offset.

  The code around them is modelled as written: indices, sentinels, comparisons, caches,
  truncations and gates.
- **Where the code and the design description disagree, the model follows the code:**
  - A line that fails the verticality gate leaves the inlier list untouched. The source
    returns before writing it (`src/ransac_lines.cpp:57-58`). It does not score the line
    as having zero inliers.
  - The driver removes `this_best_inliers`, which is the kept run the scoring callback
    produced, not every inlier of the accepted model (`src/ransac_lines.cpp:191`).
  - The kept run's recorded size is "last − first" of its group, one less than the
    group's length. So with at least three inliers and no gap, the highest one is dropped.
    With at most two inliers, the run is only the lowest one.
  - A later group replaces the current best only when it is strictly longer, so the
    earliest of the longest groups wins.
  - The unfolded area per triangle divides the corners' cross sum by 4 (w − 1)(h − 1),
    that is, by the triangles of the (w − 1)(h − 1) unit cells between the corners
    (`src/foldTracker.cpp:48`). The loops, however, visit w·h cells, because the bottom-right
    corner is (x + w, y + h) (`src/foldTracker.cpp:60-61`). So on a flat, evenly gridded
    region the weighted measured sum is (w − 1)(h − 1) / (w·h) of the weighted unfolded
    sum, not equal to it: a quarter for a 2 × 2 region (`FlatRegionRatio`).

## Model

| member | source | states |
|---|---|---|
| RansacLines.Fit | src/ransac_lines.cpp:10-27 | the fit succeeds exactly when two indices were sampled (otherwise the size assertion fails), and then yields exactly one model of shape 2x1 |
| RansacLines.FitRoundTrip | src/ransac_lines.cpp:15-20 | the model's cells (0,0) and (1,0), as the scoring callback reads them, are the first and second sampled index |
| RansacLines.CollectInliers | src/ransac_lines.cpp:60-71 | the loop over all N points returns exactly the raw inlier list |
| RansacLines.RawInliersInRange | src/ransac_lines.cpp:64-70 | every raw inlier names a point below N and carries that point's y |
| RansacLines.RawInliersIncreasing | src/ransac_lines.cpp:64-70 | raw inliers are listed in strictly increasing point index |
| RansacLines.RawInliersListed | src/ransac_lines.cpp:67-69 | a point is listed if and only if its distance to the line is strictly below the threshold |
| RansacLines.RawInliersExact | src/ransac_lines.cpp:60-71 | the three facts together: in range with the point's y, increasing, and listed iff strictly within the threshold |
| RansacLines.SortByY | src/ransac_lines.cpp:75 | after sorting, the inliers are in ascending y and are a permutation (same multiset) of the inliers before |
| RansacLines.NextBreak | src/ransac_lines.cpp:80-88 | the next gap position (a y step above 0.1) at or after j, or the end; no gap lies before it |
| RansacLines.SelectRun | src/ransac_lines.cpp:78-92 | the scan returns the run selection: a group start, size ≥ 1, size = group length − 1 when above 1, no group exceeds it, and every earlier group is strictly shorter |
| RansacLines.RunSelectionUnique | src/ransac_lines.cpp:78-92 | the run selection is determined by the sorted y values: two selections are equal |
| RansacLines.RunIsContiguousSlice | src/ransac_lines.cpp:94-98 | the kept run is an in-bounds slice of at least one inlier, ends one before its group's last element when longer than one, and has no inner step above 0.1 |
| RansacLines.NoGapKeepsAllButLast | src/ransac_lines.cpp:89-92 | with at least three inliers and no gap, the run is positions 0 .. n−2 (the highest inlier is dropped) |
| RansacLines.TwoOrFewerKeepsFirst | src/ransac_lines.cpp:78 | with one or two inliers the run is only position 0 |
| RansacLines.EarliestLongestGroupWins | src/ransac_lines.cpp:82-84 | of two equally long longest groups, the later one is never chosen |
| RansacLines.KeepRun | src/ransac_lines.cpp:74-98 | sorts a copy of the raw inliers, selects the run, and returns the run's indices in sorted order |
| RansacLines.Distance | src/ransac_lines.cpp:32-100 | the assertion fails unless there is exactly one 2x1 model. Otherwise the best index is 0 and the output list is: cleared when the line cannot be built; left untouched when the line is not near-vertical (abs(cos) < 0.9) or there are at most minInliers raw inliers; else the kept run of a y-sorted permutation of the raw inliers |
| RansacLines.PermutedInliersQualify | src/ransac_lines.cpp:68-69 | every entry of a permutation of the raw inliers is a point strictly within the threshold, with that point's y |
| RansacLines.PermutedInliersDistinct | src/ransac_lines.cpp:64-75 | a permutation of the raw inliers names no point twice |
| RansacLines.KeptRunProperties | src/ransac_lines.cpp:94-98 | the reported inliers number size ≥ 1, are distinct points strictly within the threshold, and rise in y with no step above 0.1 |
| RansacLines.RemoveSubsetLength | src/ransac_lines.cpp:191 | removing k distinct columns leaves exactly k points fewer |
| RansacLines.OrderEndpoints | src/ransac_lines.cpp:180-183 | the stored segment has the higher y first, holds exactly the two fitted endpoints, and keeps (a, b) when a.y ≥ b.y |
| RansacLines.RoundConsumes | src/ransac_lines.cpp:121-196 | an accepted round reports at least minInliers inliers, lists the higher endpoint first, and removes as many points as it reports |
| RansacLines.DetectedStep | src/ransac_lines.cpp:139-192 | an accepted round's detection comes first, followed by those found on the shrunken remainder |
| RansacLines.DetectedAccepts | src/ransac_lines.cpp:140-191 | appending an accepted round's ordered detection keeps the driver's account of the whole cloud |
| RansacLines.DetectedOrdered | src/ransac_lines.cpp:140-183 | every output pair has count ≥ minInliers and its higher endpoint first |
| RansacLines.DetectedTotalCount | src/ransac_lines.cpp:140-191 | the reported counts add up to at most the number of input points |
| RansacLines.DetectedWellFormed | src/ransac_lines.cpp:102-198 | the three facts together, and (number of segments) × minInliers ≤ number of points, which bounds the rounds |
| RansacLines.DetectedStopsEarly | src/ransac_lines.cpp:121-196 | fewer than two points, or a first round below minInliers, gives no segment |
| RansacLines.ZeroMinimumStalls | src/ransac_lines.cpp:133-191 | with a minimum of 0 and an estimator that finds nothing, the empty round is accepted (line 140) and, in the model, continues with the very same points; the source instead indexes an empty projection list at line 166 (undefined behaviour) before it would remove any column |
| RansacLines.Detect | src/ransac_lines.cpp:102-198 | the driver loop's output equals the round-by-round extraction; an empty cloud gives an empty list |
| FoldTracker.TruncateToInt | src/foldTracker.cpp:11 | float-to-int conversion truncates toward zero |
| FoldTracker.MiddleColumn | src/foldTracker.cpp:11 | for x ≥ 0 and width ≥ 1 the column is x + (width − 1) / 2 and lies in [x, x + width) |
| FoldTracker.PresentIdsExact | src/foldTracker.cpp:12-18 | the collected ids are exactly the non-hole values of rows [y, y + h) of the column, at most one per row |
| FoldTracker.PresentIdsAreVertices | src/foldTracker.cpp:14-15 | in a well-formed view each collected id is a vertex index |
| FoldTracker.Tracker.GetPoints | src/foldTracker.cpp:6-21 | returns the positions of the vertices named by the non-hole cells of the middle column, rows [y, y + h), in row order |
| FoldTracker.Mesh.SetColor | src/foldTracker.cpp:30 | recolours one vertex and nothing else |
| FoldTracker.Tracker.SetColor | src/foldTracker.cpp:23-34 | exactly the vertices named in the middle column's rows [y, y + h) get the colour; all other colours and all positions are unchanged |
| FoldTracker.SamplePositionsSpan | src/foldTracker.cpp:101-103 | table entry i samples 3i/99: 0 at entry 0, 3 at entry 99, strictly increasing |
| FoldTracker.GaussianTable.ComputeGaussianDist | src/foldTracker.cpp:96-105 | an empty table becomes 100 entries, a non-empty one keeps its size; entry i is the density for sigma at 3i/99 |
| FoldTracker.WeightIndex | src/foldTracker.cpp:76 | 99·min(abs(p), 1), truncated, is always a slot in [0, 99]; it is 99 iff abs(p) ≥ 1 and 0 iff abs(p) < 1/99 |
| FoldTracker.Tracker.InsideMesh | src/foldTracker.cpp:107-114 | true if and only if none of the four region corners is a hole |
| FoldTracker.AreaContextOf | src/foldTracker.cpp:40-54 | the area computation reads the garment's own view, vertices and the shared table; per-triangle unfolded area, horizontal axis and middle come from the four corners |
| FoldTracker.RepeatedASkipped | src/foldTracker.cpp:62 | a cell whose A index equals the last processed one changes nothing, not even the cached positions |
| FoldTracker.MissingCornersAddNothing | src/foldTracker.cpp:74-89 | a cell whose B or D is a hole, or whose A and C are both holes, adds nothing to either sum |
| FoldTracker.HoleColumnsLeaveSweep | src/foldTracker.cpp:58-66 | from a state whose last A is -1 (as at the start), a sweep over cells whose A is a hole changes nothing |
| FoldTracker.SweepNeverDecreases | src/foldTracker.cpp:79-88 | with non-negative weights, cross lengths and unfolded area, neither sum ever decreases |
| FoldTracker.VisitNeverDecreases | src/foldTracker.cpp:62-90 | one cell adds non-negative amounts to both sums |
| FoldTracker.UnfoldedAreaShare | src/foldTracker.cpp:44-48 | the per-triangle unfolded area times 4 (w − 1)(h − 1) is the corners' cross sum ‖(TL − BL) × (TR − BL)‖ + ‖(BL − TR) × (BR − TR)‖ |
| FoldTracker.VisitKeepsRatio | src/foldTracker.cpp:74-88 | if each triangle a visit adds measures 2t and t·m = u·n for the unfolded area u, the two sums stay in the proportion area·m = unfoldedArea·n |
| FoldTracker.SweepKeepsRatio | src/foldTracker.cpp:60-91 | the same proportion holds after a sweep over any cells whose triangles all measure 2t |
| FoldTracker.FlatSweepRatio | src/foldTracker.cpp:48-91 | from the zero start, when 4·m·t and 4·n·u are both the cross sum, the swept sums satisfy area·m = unfoldedArea·n |
| FoldTracker.FlatRegionRatio | src/foldTracker.cpp:48-91 | on a flat region whose w·h cells each split into two triangles of area t with 4·w·h·t the cross sum, the final sums satisfy area·w·h = unfoldedArea·(w − 1)(h − 1): the measured sum is strictly smaller whenever the unfolded one is positive, and a quarter of it on a 2 × 2 region |
| FoldTracker.SweepStep | src/foldTracker.cpp:60-61 | the sweep over one more cell is one more visit |
| FoldTracker.ProcessCell | src/foldTracker.cpp:62-90 | the loop body for one cell computes exactly the specified visit: skip, refresh of the cached positions, and the two triangle contributions |
| FoldTracker.RowsCellsInRoi | src/foldTracker.cpp:60-61 | every visited cell lies in columns [x, x + w) and rows [y, y + h) |
| FoldTracker.RoiCellsReadable | src/foldTracker.cpp:67-71 | in a region in the grid, each visited cell's neighbours col + 1 and row + 1 exist, up to the bottom-right corner |
| FoldTracker.SweptUpToIsSweepCells | src/foldTracker.cpp:60-92 | the loop-shaped state after n rows and j cells is the sweep over exactly those cells, in row-major order |
| FoldTracker.SweptUpToAll | src/foldTracker.cpp:60-92 | after the last row the loops have swept every cell of the region |
| FoldTracker.Tracker.SweepRow | src/foldTracker.cpp:61-91 | one row, left to right, advances the sweep by that row and keeps the fields equal to its sums |
| FoldTracker.Tracker.SweepRegion | src/foldTracker.cpp:58-92 | starting from zero sums, the nested loops leave the fields equal to the sweep over all region cells |
| FoldTracker.Tracker.ComputeAreas | src/foldTracker.cpp:36-93 | resets both sums, then leaves area and unfoldedArea equal to the weighted sweep of all region cells from the initial state (last A = -1, cached positions at the origin) |

## Left out

- The RANSAC engine (`mrpt::math::RANSAC::execute`) is not part of this model. It is an `Estimator` parameter, assumed to return distinct columns of the points it was given. How it samples models, calls the scoring callback and chooses its best model is not modelled, so no link between `Distance` and the estimator's result is proved.
- The degeneracy callback is an MRPT callback not shown in the source and is not modelled.
- `TLine3D` construction, the point-to-line distance and the unit director vector are parameters (`lineFails`, `distance`, `directorY`). A `std::logic_error` from the line constructor is modelled as `lineFails` being true.
- The principal-component fit (covariance, eigen-solver, projections and their sort, `src/ransac_lines.cpp:151-171`) is one `SegmentFit` parameter mapping the inlier points to the two endpoints.
- Floating point is modelled as exact reals. The inlier y is stored as `float` (`src/ransac_lines.cpp:69`) and table positions use single precision; that rounding is not modelled. NaN offsets are not modelled either: `WeightIndex` assumes an ordinary number.
- `ComparePoints` is not shown in the source. The model assumes it orders by ascending y. `std::sort`'s order among equal y values is unspecified, so `Distance` promises only some y-sorted permutation, and the insertion sort is one such order.
- `Fit` does not model the `std::exception` handler (`src/ransac_lines.cpp:22-26`). Allocation of a 2x1 matrix cannot fail in a model without memory limits.
- Each MRPT `ASSERT_` failure becomes the `AssertionFailed` result rather than an exception.
- The global `k_min_inliers_for_valid_line` (`src/ransac_lines.cpp:29-31`) is passed to `Distance` as its `minInliers` argument, because the driver sets it before running the estimator (`src/ransac_lines.cpp:110`).
- Detect: requires minInliers ≥ 1. A minimum of 0 accepts an empty round, on which the source indexes an empty projection list (`src/ransac_lines.cpp:166`, undefined behaviour); in the model such a round would keep the points unchanged (`ZeroMinimumStalls`), so the driver would not terminate.
- Copying the point cloud into the 3xN matrix (`src/ransac_lines.cpp:113-118`) is a plain sequence assignment. MRPT's `removeColumns` is modelled as removing the listed columns and keeping the order of the others.
- `ofRectangle` is not part of this model. The region has integer x, y, width and height, with top-left (x, y) and bottom-right (x + width, y + height); negative extents are not modelled.
- Grid and mesh bounds are preconditions wherever the source reads out of range. Those reads are undefined behaviour in C++: in `getPoints`/`setColor` the middle column and its rows, and in `computeAreas` every cell up to the bottom-right corner and the mesh's vertex indices.
- Tracker.ComputeAreas: requires width and height of at least 2 (the source divides by (width − 1)(height − 1)). It also requires `InsideMesh`, because the four corners are used as vertex indices without a check.
- Tracker.ComputeAreas: the cross-product length and the normalised horizontal offset (the dot product with the normalised axis divided by half its length) are `Geometry` parameters. The Gaussian density in `ComputeGaussianDist` is a parameter too, so no `exp`, `sqrt` or π is modelled.
- In `ComputeAreas` the source updates the two fields inside one nested loop. Here the inner loop is the `SweepRow` method and the nested loops are `SweepRegion`; both update the same fields cell by cell.
- `ComputeGaussianDist` works on the static table shared by all trackers. The model keeps it as one `GaussianTable` object that each `Tracker` refers to.
- The optional headers `lscm.h`, `ofApp.h` and `simple3dBlob.h` and the bundled third-party code are not part of this model.
