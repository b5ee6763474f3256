/**
 * The vertical-segment extractor: the model-fit and scoring callbacks handed to a
 * RANSAC estimator, the gap filter that keeps one contiguous run of y-sorted inliers,
 * and the driver that repeatedly extracts a segment and removes its points.
 *
 * Geometry that the source delegates to a library (the line through two points,
 * its unit direction, point-to-line distance, the RANSAC sampler itself and the
 * principal-component fit of a segment) enters as function-typed parameters.
 */
module RansacLines {
  import opened Common

  /** Largest vertical gap, in length units, allowed between neighbours of one run. */
  const GapThreshold: real := 0.1

  /** A candidate line is scored only if |cos| of its angle with the y axis reaches this. */
  const VerticalCosine: real := 0.9

  // ---------------------------------------------------------------------------
  // Model matrices
  // ---------------------------------------------------------------------------

  /** A model matrix, stored row by row; its entries hold point indices. */
  type Matrix = seq<seq<nat>>

  predicate HasShape(m: Matrix, rows: nat, cols: nat)
  {
    |m| == rows && forall r :: 0 <= r < |m| ==> |m[r]| == cols
  }

  /** The two point indices a 2x1 model holds, as the scoring callback reads them. */
  function ModelIndices(m: Matrix): (nat, nat)
    requires HasShape(m, 2, 1)
  {
    (m[0][0], m[1][0])
  }

  /**
   * The fit callback: asserts that exactly two indices were sampled and packs them,
   * in order, into the single 2x1 model it produces.
   */
  function Fit(useIndices: seq<nat>): (r: Result<seq<Matrix>>)
    ensures r.Ok? <==> |useIndices| == 2
    ensures r.Ok? ==> |r.value| == 1 && HasShape(r.value[0], 2, 1)
  {
    if |useIndices| != 2 then AssertionFailed
    else Ok([[[useIndices[0]], [useIndices[1]]]])
  }

  /** What the fit callback packs is exactly what the scoring callback reads back. */
  lemma FitRoundTrip(useIndices: seq<nat>)
    requires |useIndices| == 2
    ensures Fit(useIndices).Ok?
    ensures ModelIndices(Fit(useIndices).value[0]) == (useIndices[0], useIndices[1])
  {
  }

  // ---------------------------------------------------------------------------
  // Inlier collection
  // ---------------------------------------------------------------------------

  /** An inlier: its column index in the point set and its y coordinate. */
  datatype Inlier = Inlier(index: nat, y: real)

  /**
   * The inliers among the first n points, in increasing index order: those whose
   * distance to the line through p and q is strictly below the threshold.
   */
  function RawInliers(points: seq<Point>, n: nat, p: Point, q: Point,
                      distance: (Point, Point, Point) -> real, threshold: real): seq<Inlier>
    requires n <= |points|
  {
    if n == 0 then []
    else RawInliers(points, n - 1, p, q, distance, threshold) +
         (if distance(p, q, points[n - 1]) < threshold then [Inlier(n - 1, points[n - 1].y)] else [])
  }

  /** The index of some inlier of s is i. */
  predicate ListsIndex(s: seq<Inlier>, i: nat)
  {
    exists k :: 0 <= k < |s| && s[k].index == i
  }

  /** Each raw inlier names a point below n and carries that point's y. */
  lemma {:induction false} RawInliersInRange(points: seq<Point>, n: nat, p: Point, q: Point,
                                             distance: (Point, Point, Point) -> real, threshold: real)
    requires n <= |points|
    ensures forall k :: 0 <= k < |RawInliers(points, n, p, q, distance, threshold)| ==>
      var e := RawInliers(points, n, p, q, distance, threshold)[k];
      e.index < n && e.y == points[e.index].y
  {
    if n > 0 {
      RawInliersInRange(points, n - 1, p, q, distance, threshold);
      var t := RawInliers(points, n - 1, p, q, distance, threshold);
      var s := RawInliers(points, n, p, q, distance, threshold);
      forall k | 0 <= k < |s|
        ensures s[k].index < n && s[k].y == points[s[k].index].y
      {
        if k < |t| {
          assert s[k] == t[k];
        } else {
          assert s[k] == Inlier(n - 1, points[n - 1].y);
        }
      }
    }
  }

  /** The raw inliers are listed in strictly increasing index order. */
  lemma {:induction false} RawInliersIncreasing(points: seq<Point>, n: nat, p: Point, q: Point,
                                                distance: (Point, Point, Point) -> real, threshold: real)
    requires n <= |points|
    ensures forall k, l :: 0 <= k < l < |RawInliers(points, n, p, q, distance, threshold)| ==>
      RawInliers(points, n, p, q, distance, threshold)[k].index <
      RawInliers(points, n, p, q, distance, threshold)[l].index
  {
    if n > 0 {
      RawInliersIncreasing(points, n - 1, p, q, distance, threshold);
      RawInliersInRange(points, n - 1, p, q, distance, threshold);
      var t := RawInliers(points, n - 1, p, q, distance, threshold);
      var s := RawInliers(points, n, p, q, distance, threshold);
      forall k, l | 0 <= k < l < |s|
        ensures s[k].index < s[l].index
      {
        assert s[k] == t[k];
        if l < |t| {
          assert s[l] == t[l];
        } else {
          assert s[l].index == n - 1;
        }
      }
    }
  }

  /** An index below n is listed exactly when its point is strictly within the threshold. */
  lemma {:induction false} RawInliersListed(points: seq<Point>, n: nat, p: Point, q: Point,
                                            distance: (Point, Point, Point) -> real, threshold: real)
    requires n <= |points|
    ensures var s := RawInliers(points, n, p, q, distance, threshold);
      forall i :: 0 <= i < n ==> (ListsIndex(s, i) <==> distance(p, q, points[i]) < threshold)
  {
    if n > 0 {
      RawInliersListed(points, n - 1, p, q, distance, threshold);
      RawInliersInRange(points, n - 1, p, q, distance, threshold);
      var t := RawInliers(points, n - 1, p, q, distance, threshold);
      var s := RawInliers(points, n, p, q, distance, threshold);
      assert s[..|t|] == t;
      forall i | 0 <= i < n
        ensures ListsIndex(s, i) <==> distance(p, q, points[i]) < threshold
      {
        if i < n - 1 {
          if ListsIndex(s, i) {
            var k :| 0 <= k < |s| && s[k].index == i;
            assert k < |t| && t[k].index == i;
          }
          if ListsIndex(t, i) {
            var k :| 0 <= k < |t| && t[k].index == i;
            assert s[k].index == i;
          }
        } else if distance(p, q, points[i]) < threshold {
          assert s[|t|].index == i;
        }
      }
    }
  }

  /**
   * The raw inlier list holds exactly the indices below n whose distance is strictly
   * below the threshold, each once, in increasing order, with that point's y.
   */
  lemma RawInliersExact(points: seq<Point>, n: nat, p: Point, q: Point,
                        distance: (Point, Point, Point) -> real, threshold: real)
    requires n <= |points|
    ensures var s := RawInliers(points, n, p, q, distance, threshold);
      (forall k :: 0 <= k < |s| ==> s[k].index < n && s[k].y == points[s[k].index].y) &&
      (forall k, l :: 0 <= k < l < |s| ==> s[k].index < s[l].index) &&
      (forall i :: 0 <= i < n ==> (ListsIndex(s, i) <==> distance(p, q, points[i]) < threshold))
  {
    RawInliersInRange(points, n, p, q, distance, threshold);
    RawInliersIncreasing(points, n, p, q, distance, threshold);
    RawInliersListed(points, n, p, q, distance, threshold);
  }

  /** The push_back loop over all N columns that builds the raw inlier list. */
  method CollectInliers(points: seq<Point>, p: Point, q: Point,
                        distance: (Point, Point, Point) -> real, threshold: real)
    returns (inliers: seq<Inlier>)
    ensures inliers == RawInliers(points, |points|, p, q, distance, threshold)
  {
    inliers := [];
    var i := 0;
    while i < |points|
      invariant 0 <= i <= |points|
      invariant inliers == RawInliers(points, i, p, q, distance, threshold)
    {
      var candidate := points[i];
      var d := distance(p, q, candidate);
      if d < threshold {
        inliers := inliers + [Inlier(i, candidate.y)];
      }
      i := i + 1;
    }
  }

  // ---------------------------------------------------------------------------
  // Sorting by y
  // ---------------------------------------------------------------------------

  /** Ascending by y: the order the comparator passed to the sort is taken to define. */
  predicate SortedByY(s: seq<Inlier>)
  {
    forall k, l :: 0 <= k < l < |s| ==> s[k].y <= s[l].y
  }

  /** The y coordinates of the inliers, in order. */
  function Ys(s: seq<Inlier>): (r: seq<real>)
    ensures |r| == |s|
    ensures forall k :: 0 <= k < |s| ==> r[k] == s[k].y
  {
    seq(|s|, k requires 0 <= k < |s| => s[k].y)
  }

  /** The point indices of the inliers, in order. */
  function Indices(s: seq<Inlier>): (r: seq<nat>)
    ensures |r| == |s|
    ensures forall k :: 0 <= k < |s| ==> r[k] == s[k].index
  {
    seq(|s|, k requires 0 <= k < |s| => s[k].index)
  }

  /** Exchanges the neighbours a[j - 1] and a[j]; nothing else changes. */
  method SwapAdjacent(a: array<Inlier>, j: nat)
    requires 0 < j < a.Length
    modifies a
    ensures a[j - 1] == old(a[j]) && a[j] == old(a[j - 1])
    ensures forall k :: 0 <= k < a.Length && k != j - 1 && k != j ==> a[k] == old(a[k])
    ensures multiset(a[..]) == old(multiset(a[..]))
  {
    a[j - 1], a[j] := a[j], a[j - 1];
  }

  /** Sinks a[i] into the y-sorted prefix a[..i], leaving a[i + 1..] alone. */
  method Insert(a: array<Inlier>, i: nat)
    requires i < a.Length
    requires forall k, l :: 0 <= k < l < i ==> a[k].y <= a[l].y
    modifies a
    ensures forall k, l :: 0 <= k < l <= i ==> a[k].y <= a[l].y
    ensures forall k :: i < k < a.Length ==> a[k] == old(a[k])
    ensures multiset(a[..]) == old(multiset(a[..]))
  {
    var j := i;
    while j > 0 && a[j - 1].y > a[j].y
      invariant 0 <= j <= i
      invariant forall k, l :: 0 <= k < l <= i && k != j && l != j ==> a[k].y <= a[l].y
      invariant forall l :: j < l <= i ==> a[j].y <= a[l].y
      invariant forall k :: i < k < a.Length ==> a[k] == old(a[k])
      invariant multiset(a[..]) == old(multiset(a[..]))
    {
      SwapAdjacent(a, j);
      j := j - 1;
    }
  }

  /** The in-place sort of the inliers by y (an insertion sort). */
  method SortByY(a: array<Inlier>)
    modifies a
    ensures SortedByY(a[..])
    ensures multiset(a[..]) == old(multiset(a[..]))
  {
    var i := 0;
    while i < a.Length
      invariant 0 <= i <= a.Length
      invariant forall k, l :: 0 <= k < l < i ==> a[k].y <= a[l].y
      invariant multiset(a[..]) == old(multiset(a[..]))
    {
      Insert(a, i);
      i := i + 1;
    }
  }

  // ---------------------------------------------------------------------------
  // Gap filter: choosing one contiguous run of the y-sorted inliers
  // ---------------------------------------------------------------------------

  /** The vertical step into position i exceeds the gap threshold. */
  predicate GapAt(ys: seq<real>, i: int)
    requires 0 < i < |ys|
  {
    ys[i] - ys[i - 1] > GapThreshold
  }

  /** A group (a maximal run without gaps) begins at s. */
  predicate IsGroupStart(ys: seq<real>, s: int)
  {
    0 <= s < |ys| && (s == 0 || GapAt(ys, s))
  }

  /** The first gap position at or after j, or |ys| when there is none. */
  function NextBreak(ys: seq<real>, j: nat): (e: nat)
    requires 1 <= j <= |ys|
    ensures j <= e <= |ys|
    ensures forall k :: j <= k < e ==> !GapAt(ys, k)
    ensures e < |ys| ==> GapAt(ys, e)
    decreases |ys| - j
  {
    if j == |ys| || GapAt(ys, j) then j else NextBreak(ys, j + 1)
  }

  /** One past the last position of the group that begins at s. */
  function GroupEnd(ys: seq<real>, s: nat): nat
    requires s < |ys|
  {
    NextBreak(ys, s + 1)
  }

  /** A stretch without gaps that stops at a gap or at the end is where a group stops. */
  lemma GroupEndAt(ys: seq<real>, s: nat, e: nat)
    requires s < e <= |ys|
    requires forall k :: s < k < e ==> !GapAt(ys, k)
    requires e < |ys| ==> GapAt(ys, e)
    ensures GroupEnd(ys, s) == e
  {
  }

  /**
   * The run the gap filter keeps: it starts at a group start, its size
   * is one less than that group's length (the recorded size is last - first), and
   * it is 1 at position 0 when no group is longer than two. No group's
   * "length - 1" exceeds the size, and every group starting earlier has a
   * strictly smaller one, so the earliest of the longest groups wins.
   */
  ghost predicate IsRunSelection(ys: seq<real>, begin: int, size: int)
  {
    |ys| >= 1 && IsGroupStart(ys, begin) && size >= 1 &&
    (size == 1 ==> begin == 0) &&
    (size > 1 ==> size == GroupEnd(ys, begin) - 1 - begin) &&
    (forall s :: IsGroupStart(ys, s) ==> GroupEnd(ys, s) - 1 - s <= size) &&
    (forall s :: IsGroupStart(ys, s) && s < begin ==> GroupEnd(ys, s) - 1 - s < size)
  }

  /** The scan over the y-sorted inliers that records the biggest group. */
  method SelectRun(ys: seq<real>) returns (begin: nat, size: nat)
    requires |ys| >= 1
    ensures IsRunSelection(ys, begin, size)
  {
    var maxGroupBegin, maxGroupSize := 0, 1;
    var tempGroupBegin := 0;
    var i := 1;
    while i < |ys|
      invariant 1 <= i <= |ys|
      invariant IsGroupStart(ys, tempGroupBegin) && tempGroupBegin < i
      invariant forall k :: tempGroupBegin < k < i ==> !GapAt(ys, k)
      invariant IsGroupStart(ys, maxGroupBegin) && maxGroupBegin <= tempGroupBegin
      invariant maxGroupSize >= 1 && (maxGroupSize == 1 ==> maxGroupBegin == 0)
      invariant maxGroupSize > 1 ==>
        maxGroupBegin < tempGroupBegin && maxGroupSize == GroupEnd(ys, maxGroupBegin) - 1 - maxGroupBegin
      invariant forall s :: IsGroupStart(ys, s) && s < tempGroupBegin ==> GroupEnd(ys, s) - 1 - s <= maxGroupSize
      invariant forall s :: IsGroupStart(ys, s) && s < maxGroupBegin ==> GroupEnd(ys, s) - 1 - s < maxGroupSize
    {
      if ys[i] - ys[i - 1] > 0.1 {
        GroupEndAt(ys, tempGroupBegin, i);
        if (i - 1) - tempGroupBegin > maxGroupSize {
          maxGroupBegin := tempGroupBegin;
          maxGroupSize := (i - 1) - tempGroupBegin;
        }
        tempGroupBegin := i;
      }
      i := i + 1;
    }
    GroupEndAt(ys, tempGroupBegin, |ys|);
    if (|ys| - 1) - tempGroupBegin > maxGroupSize {
      maxGroupBegin := tempGroupBegin;
      maxGroupSize := (|ys| - 1) - tempGroupBegin;
    }
    begin, size := maxGroupBegin, maxGroupSize;
  }

  /** The run selection is unique: the scan's contract determines its result. */
  lemma RunSelectionUnique(ys: seq<real>, b1: int, s1: int, b2: int, s2: int)
    requires IsRunSelection(ys, b1, s1) && IsRunSelection(ys, b2, s2)
    ensures b1 == b2 && s1 == s2
  {
  }

  /**
   * The kept run is an in-bounds slice [begin, begin + size) of at least one inlier;
   * when longer than one it stops just before its group's last element, and no step
   * inside it exceeds the gap threshold.
   */
  lemma RunIsContiguousSlice(ys: seq<real>, begin: int, size: int)
    requires IsRunSelection(ys, begin, size)
    ensures 0 <= begin && 1 <= size && begin + size <= |ys|
    ensures size > 1 ==> begin + size == GroupEnd(ys, begin) - 1
    ensures forall k :: begin < k < begin + size ==> ys[k] - ys[k - 1] <= GapThreshold
  {
    if size == 1 {
      assert begin == 0;
    } else {
      assert begin + size < GroupEnd(ys, begin);
      forall k | begin < k < begin + size
        ensures ys[k] - ys[k - 1] <= GapThreshold
      {
        assert !GapAt(ys, k);
      }
    }
  }

  /** With no gap and at least three inliers, the kept run is all but the highest one. */
  lemma NoGapKeepsAllButLast(ys: seq<real>, begin: int, size: int)
    requires |ys| >= 3
    requires forall k :: 0 < k < |ys| ==> ys[k] - ys[k - 1] <= GapThreshold
    requires IsRunSelection(ys, begin, size)
    ensures begin == 0 && size == |ys| - 1
  {
    assert IsGroupStart(ys, 0);
    GroupEndAt(ys, 0, |ys|);
  }

  /** With at most two inliers, the kept run is only the lowest one. */
  lemma TwoOrFewerKeepsFirst(ys: seq<real>, begin: int, size: int)
    requires |ys| <= 2
    requires IsRunSelection(ys, begin, size)
    ensures begin == 0 && size == 1
  {
  }

  /** Two equally long groups: the earlier one is kept (replacement needs a strict >). */
  lemma EarliestLongestGroupWins(ys: seq<real>, s1: nat, s2: nat, begin: int, size: int)
    requires IsGroupStart(ys, s1) && IsGroupStart(ys, s2) && s1 < s2
    requires GroupEnd(ys, s1) - s1 == GroupEnd(ys, s2) - s2
    requires forall s :: IsGroupStart(ys, s) ==> GroupEnd(ys, s) - s <= GroupEnd(ys, s1) - s1
    requires IsRunSelection(ys, begin, size)
    ensures begin <= s1 && begin != s2
  {
  }

  // ---------------------------------------------------------------------------
  // The scoring callback
  // ---------------------------------------------------------------------------

  /** What the scoring callback leaves in its two output arguments. */
  datatype Scoring = Scoring(bestModelIndex: nat, inlierIndices: seq<nat>)

  /** Every well-shaped model among the candidates names columns of the point set. */
  predicate ModelsInRange(testModels: seq<Matrix>, n: nat)
  {
    forall m :: m in testModels && HasShape(m, 2, 1) ==> m[0][0] < n && m[1][0] < n
  }

  /** The verticality gate: the y component of the unit direction is at least 0.9 in size. */
  predicate PassesVerticalGate(directorY: real)
  {
    !(directorY < VerticalCosine && directorY > -VerticalCosine)
  }

  /**
   * What the scoring callback leaves behind, given the y-sorted permutation of the raw
   * inliers and the run kept from it: after a failed line construction an empty list; for a
   * line that fails the gate, or has no more than minInliers raw inliers, the previous
   * list; otherwise the indices of the kept run.
   */
  ghost predicate ScoringOutcome(points: seq<Point>, p: Point, q: Point, threshold: real, minInliers: nat,
                                 lineFails: (Point, Point) -> bool, directorY: (Point, Point) -> real,
                                 distance: (Point, Point, Point) -> real, previous: seq<nat>,
                                 out: seq<nat>, sorted: seq<Inlier>, begin: nat, size: nat)
  {
    var raw := RawInliers(points, |points|, p, q, distance, threshold);
    if lineFails(p, q) then out == []
    else if !PassesVerticalGate(directorY(p, q)) then out == previous
    else if |raw| <= minInliers then out == previous
    else
      IsKeptRun(raw, out, sorted, begin, size)
  }

  /**
   * out lists, in order, the indices of the selected run of sorted, a y-ordered
   * permutation of raw.
   */
  ghost predicate IsKeptRun(raw: seq<Inlier>, out: seq<nat>, sorted: seq<Inlier>, begin: nat, size: nat)
  {
    SortedByY(sorted) && multiset(sorted) == multiset(raw) &&
    IsRunSelection(Ys(sorted), begin, size) && begin + size <= |sorted| &&
    out == Indices(sorted[begin..begin + size])
  }

  /**
   * Sorts a copy of the raw inliers by y, scans it for the gap-delimited run to keep and
   * pushes that run's indices, in sorted order, onto a fresh list.
   */
  method KeepRun(inliers: seq<Inlier>) returns (out: seq<nat>, sorted: seq<Inlier>, begin: nat, size: nat)
    requires |inliers| >= 1
    ensures IsKeptRun(inliers, out, sorted, begin, size)
  {
    var a := new Inlier[|inliers|](k requires 0 <= k < |inliers| => inliers[k]);
    assert a[..] == inliers;
    SortByY(a);
    var ordered := a[..];
    sorted := ordered;
    var maxGroupBegin, maxGroupSize := SelectRun(Ys(ordered));
    RunIsContiguousSlice(Ys(ordered), maxGroupBegin, maxGroupSize);
    begin, size := maxGroupBegin, maxGroupSize;
    out := [];
    var i := maxGroupBegin;
    while i < maxGroupBegin + maxGroupSize
      invariant maxGroupBegin <= i <= maxGroupBegin + maxGroupSize
      invariant out == Indices(ordered[maxGroupBegin..i])
    {
      out := out + [a[i].index];
      i := i + 1;
    }
  }

  /**
   * The scoring callback. It asserts one 2x1 model, builds the line through the two points
   * it names, returns early (list untouched) when the line is not near-vertical, collects the
   * raw inliers and, only when there are more than minInliers of them, replaces the list with
   * the kept run of the y-sorted inliers. minInliers is the minimum the driver sets before
   * running the estimator.
   */
  method Distance(points: seq<Point>, testModels: seq<Matrix>, threshold: real, minInliers: nat,
                  lineFails: (Point, Point) -> bool, directorY: (Point, Point) -> real,
                  distance: (Point, Point, Point) -> real, inlierIndices: seq<nat>)
    returns (r: Result<Scoring>, ghost sorted: seq<Inlier>, ghost begin: nat, ghost size: nat)
    requires ModelsInRange(testModels, |points|)
    ensures r.Ok? <==> |testModels| == 1 && HasShape(testModels[0], 2, 1)
    ensures r.Ok? ==> r.value.bestModelIndex == 0
    ensures r.Ok? ==>
      var (i0, i1) := ModelIndices(testModels[0]);
      ScoringOutcome(points, points[i0], points[i1], threshold, minInliers, lineFails, directorY,
                     distance, inlierIndices, r.value.inlierIndices, sorted, begin, size)
  {
    sorted, begin, size := [], 0, 0;
    if |testModels| != 1 {
      return AssertionFailed, sorted, begin, size;
    }
    var m := testModels[0];
    if !HasShape(m, 2, 1) {
      return AssertionFailed, sorted, begin, size;
    }
    var p, q := points[m[0][0]], points[m[1][0]];
    if lineFails(p, q) {
      return Ok(Scoring(0, [])), sorted, begin, size;
    }
    var angleCos := directorY(p, q);
    if angleCos < 0.9 && angleCos > -0.9 {
      return Ok(Scoring(0, inlierIndices)), sorted, begin, size;
    }
    var inliers := CollectInliers(points, p, q, distance, threshold);
    var out := inlierIndices;
    if |inliers| > minInliers {
      out, sorted, begin, size := KeepRun(inliers);
    }
    r := Ok(Scoring(0, out));
  }

  /** Strictly increasing indices make every inlier occur at most once. */
  lemma {:induction false} IncreasingIndicesOccurOnce(s: seq<Inlier>, x: Inlier)
    requires forall k, l :: 0 <= k < l < |s| ==> s[k].index < s[l].index
    ensures multiset(s)[x] <= 1
  {
    if |s| > 0 {
      var t := s[..|s| - 1];
      assert s == t + [s[|s| - 1]];
      IncreasingIndicesOccurOnce(t, x);
    }
  }

  /** An element found at two different positions occurs at least twice. */
  lemma OccursTwice(s: seq<Inlier>, j1: nat, j2: nat)
    requires j1 < j2 < |s| && s[j1] == s[j2]
    ensures multiset(s)[s[j1]] >= 2
  {
    assert s == s[..j2] + s[j2..];
    assert s[j1] in s[..j2];
    assert s[j1] in s[j2..];
    assert multiset(s) == multiset(s[..j2]) + multiset(s[j2..]);
  }

  /** Each entry of a permutation of the raw inliers is a point strictly within the threshold. */
  lemma PermutedInliersQualify(points: seq<Point>, p: Point, q: Point,
                               distance: (Point, Point, Point) -> real, threshold: real,
                               sorted: seq<Inlier>)
    requires multiset(sorted) == multiset(RawInliers(points, |points|, p, q, distance, threshold))
    ensures forall j :: 0 <= j < |sorted| ==>
      sorted[j].index < |points| && sorted[j].y == points[sorted[j].index].y &&
      distance(p, q, points[sorted[j].index]) < threshold
  {
    var raw := RawInliers(points, |points|, p, q, distance, threshold);
    RawInliersExact(points, |points|, p, q, distance, threshold);
    forall j | 0 <= j < |sorted|
      ensures sorted[j].index < |points| && sorted[j].y == points[sorted[j].index].y
      ensures distance(p, q, points[sorted[j].index]) < threshold
    {
      assert sorted[j] in multiset(raw);
      var k :| 0 <= k < |raw| && raw[k] == sorted[j];
      assert ListsIndex(raw, raw[k].index);
    }
  }

  /** A permutation of the raw inliers names no point twice. */
  lemma PermutedInliersDistinct(points: seq<Point>, p: Point, q: Point,
                                distance: (Point, Point, Point) -> real, threshold: real,
                                sorted: seq<Inlier>)
    requires multiset(sorted) == multiset(RawInliers(points, |points|, p, q, distance, threshold))
    ensures forall j1, j2 :: 0 <= j1 < j2 < |sorted| ==> sorted[j1].index != sorted[j2].index
  {
    var raw := RawInliers(points, |points|, p, q, distance, threshold);
    PermutedInliersQualify(points, p, q, distance, threshold, sorted);
    RawInliersExact(points, |points|, p, q, distance, threshold);
    forall j1, j2 | 0 <= j1 < j2 < |sorted|
      ensures sorted[j1].index != sorted[j2].index
    {
      if sorted[j1].index == sorted[j2].index {
        assert sorted[j1] == sorted[j2];
        OccursTwice(sorted, j1, j2);
        IncreasingIndicesOccurOnce(raw, sorted[j1]);
      }
    }
  }

  /**
   * The kept run of a y-sorted permutation of the raw inliers names at least one point,
   * only points strictly within the threshold, none twice, in ascending y order with no
   * step above the gap threshold.
   */
  lemma KeptRunProperties(points: seq<Point>, p: Point, q: Point,
                          distance: (Point, Point, Point) -> real, threshold: real,
                          sorted: seq<Inlier>, begin: nat, size: nat)
    requires SortedByY(sorted)
    requires multiset(sorted) == multiset(RawInliers(points, |points|, p, q, distance, threshold))
    requires IsRunSelection(Ys(sorted), begin, size)
    ensures begin + size <= |sorted|
    ensures var out := Indices(sorted[begin..begin + size]);
      |out| == size >= 1 &&
      (forall k :: 0 <= k < |out| ==> out[k] < |points| && distance(p, q, points[out[k]]) < threshold) &&
      (forall k, l :: 0 <= k < l < |out| ==> out[k] != out[l]) &&
      (forall k :: 0 < k < |out| ==>
         0.0 <= points[out[k]].y - points[out[k - 1]].y <= GapThreshold)
  {
    RunIsContiguousSlice(Ys(sorted), begin, size);
    PermutedInliersQualify(points, p, q, distance, threshold, sorted);
    PermutedInliersDistinct(points, p, q, distance, threshold, sorted);
    var out := Indices(sorted[begin..begin + size]);
    assert forall k :: 0 <= k < |out| ==> out[k] == sorted[begin + k].index;
  }

  // ---------------------------------------------------------------------------
  // The driver: extract segments until none is good enough
  // ---------------------------------------------------------------------------

  /** A segment, listed high point first. */
  datatype Segment = Segment(first: Point, second: Point)

  /** One extracted segment with the number of inliers that support it. */
  datatype Detection = Detection(count: nat, segment: Segment)

  /**
   * The robust estimator, run on the remaining points with a distance threshold and the
   * minimum that the scoring callback consults; it yields the inlier columns of its best model.
   */
  type Estimator = (seq<Point>, real, nat) -> seq<nat>

  /** The principal-component fit of a set of points: the two extreme projections on its axis. */
  type SegmentFit = seq<Point> -> (Point, Point)

  /** Distinct column indices of a set of n points. */
  predicate IsColumnSubset(s: seq<nat>, n: nat)
  {
    (forall k :: 0 <= k < |s| ==> s[k] < n) &&
    (forall k, l :: 0 <= k < l < |s| ==> s[k] != s[l])
  }

  /** The estimator only ever reports distinct columns of the points it was given. */
  ghost predicate YieldsColumnSubsets(ransac: Estimator)
  {
    forall points, threshold, minInliers :: IsColumnSubset(ransac(points, threshold, minInliers), |points|)
  }

  /** The points at the given columns, in that order. */
  function Columns(points: seq<Point>, columns: seq<nat>): (r: seq<Point>)
    requires forall k :: 0 <= k < |columns| ==> columns[k] < |points|
    ensures |r| == |columns|
    ensures forall k :: 0 <= k < |columns| ==> r[k] == points[columns[k]]
  {
    seq(|columns|, k requires 0 <= k < |columns| => points[columns[k]])
  }

  /** The points whose column is not dropped, in their original order. */
  function RemoveColumns(points: seq<Point>, drop: seq<nat>): seq<Point>
  {
    if points == [] then []
    else RemoveColumns(points[..|points| - 1], drop) +
         (if |points| - 1 in drop then [] else [points[|points| - 1]])
  }

  /** How many of the columns below n are dropped. */
  function CountBelow(drop: seq<nat>, n: nat): nat
  {
    if n == 0 then 0 else CountBelow(drop, n - 1) + (if n - 1 in drop then 1 else 0)
  }

  lemma {:induction false} RemoveColumnsLength(points: seq<Point>, drop: seq<nat>)
    ensures |RemoveColumns(points, drop)| + CountBelow(drop, |points|) == |points|
  {
    if points != [] {
      RemoveColumnsLength(points[..|points| - 1], drop);
    }
  }

  lemma {:induction false} CountBelowAppend(d: seq<nat>, x: nat, n: nat)
    requires x !in d
    ensures CountBelow(d + [x], n) == CountBelow(d, n) + (if x < n then 1 else 0)
  {
    if n > 0 {
      CountBelowAppend(d, x, n - 1);
      assert (n - 1 in d + [x]) <==> (n - 1 in d || n - 1 == x);
    }
  }

  lemma {:induction false} CountBelowSubset(drop: seq<nat>, n: nat)
    requires IsColumnSubset(drop, n)
    ensures CountBelow(drop, n) == |drop|
  {
    if drop == [] {
      CountBelowEmpty(n);
    } else {
      var d, x := drop[..|drop| - 1], drop[|drop| - 1];
      assert drop == d + [x];
      assert IsColumnSubset(d, n);
      CountBelowSubset(d, n);
      CountBelowAppend(d, x, n);
    }
  }

  lemma {:induction false} CountBelowEmpty(n: nat)
    ensures CountBelow([], n) == 0
  {
    if n > 0 {
      CountBelowEmpty(n - 1);
    }
  }

  /** Removing a set of k distinct columns leaves exactly k points fewer. */
  lemma RemoveSubsetLength(points: seq<Point>, drop: seq<nat>)
    requires IsColumnSubset(drop, |points|)
    ensures |RemoveColumns(points, drop)| == |points| - |drop|
  {
    RemoveColumnsLength(points, drop);
    CountBelowSubset(drop, |points|);
  }

  /** The canonical endpoint order: the endpoint with the larger y first, keeping (a, b) on ties. */
  function OrderEndpoints(a: Point, b: Point): (s: Segment)
    ensures s.first.y >= s.second.y
    ensures (s.first == a && s.second == b) || (s.first == b && s.second == a)
    ensures a.y >= b.y ==> s == Segment(a, b)
  {
    if a.y < b.y then Segment(b, a) else Segment(a, b)
  }

  /** What one round of the driver does. */
  datatype RoundOutcome = Stop | Continue(detection: Detection, remaining: seq<Point>)

  /**
   * One round: with fewer than two points, stop; otherwise run the estimator and stop
   * unless it found at least minInliers inliers, in which case record their count and
   * fitted segment and drop their columns.
   */
  function Round(remaining: seq<Point>, threshold: real, minInliers: nat,
                 ransac: Estimator, fit: SegmentFit): RoundOutcome
    requires YieldsColumnSubsets(ransac)
  {
    if |remaining| < 2 then Stop
    else
      var best := ransac(remaining, threshold, minInliers);
      if |best| >= minInliers then
        var (a, b) := fit(Columns(remaining, best));
        Continue(Detection(|best|, OrderEndpoints(a, b)), RemoveColumns(remaining, best))
      else Stop
  }

  /** A round that continues consumes as many points as it reports, at least minInliers. */
  lemma RoundConsumes(remaining: seq<Point>, threshold: real, minInliers: nat,
                      ransac: Estimator, fit: SegmentFit)
    requires YieldsColumnSubsets(ransac)
    ensures var r := Round(remaining, threshold, minInliers, ransac, fit);
      r.Continue? ==>
        r.detection.count >= minInliers &&
        r.detection.segment.first.y >= r.detection.segment.second.y &&
        |r.remaining| + r.detection.count == |remaining|
  {
    if |remaining| >= 2 {
      RemoveSubsetLength(remaining, ransac(remaining, threshold, minInliers));
    }
  }

  /** The segments extracted from the remaining points, in extraction order. */
  function Detected(remaining: seq<Point>, threshold: real, minInliers: nat,
                    ransac: Estimator, fit: SegmentFit): seq<Detection>
    requires minInliers >= 1 && YieldsColumnSubsets(ransac)
    decreases |remaining|
  {
    var r := Round(remaining, threshold, minInliers, ransac, fit);
    if r.Stop? then []
    else
      RoundConsumes(remaining, threshold, minInliers, ransac, fit);
      [r.detection] + Detected(r.remaining, threshold, minInliers, ransac, fit)
  }

  /** The total inlier count of a list of detections. */
  function TotalCount(ds: seq<Detection>): nat
  {
    if ds == [] then 0 else ds[0].count + TotalCount(ds[1..])
  }

  /** A round that continues contributes its detection ahead of those of the rest. */
  lemma DetectedStep(remaining: seq<Point>, threshold: real, minInliers: nat,
                     ransac: Estimator, fit: SegmentFit)
    requires minInliers >= 1 && YieldsColumnSubsets(ransac)
    requires Round(remaining, threshold, minInliers, ransac, fit).Continue?
    ensures var r := Round(remaining, threshold, minInliers, ransac, fit);
      |r.remaining| < |remaining| &&
      Detected(remaining, threshold, minInliers, ransac, fit)
        == [r.detection] + Detected(r.remaining, threshold, minInliers, ransac, fit)
  {
    RoundConsumes(remaining, threshold, minInliers, ransac, fit);
  }

  /**
   * An accepted round puts its count and ordered endpoints ahead of the later detections,
   * so appending it to those found so far keeps the driver's account of the cloud.
   */
  lemma DetectedAccepts(pointCloud: seq<Point>, detected: seq<Detection>, remaining: seq<Point>,
                        threshold: real, minInliers: nat,
                        ransac: Estimator, fit: SegmentFit, best: seq<nat>, a: Point, b: Point)
    requires minInliers >= 1 && YieldsColumnSubsets(ransac)
    requires detected + Detected(remaining, threshold, minInliers, ransac, fit)
          == Detected(pointCloud, threshold, minInliers, ransac, fit)
    requires |remaining| >= 2 && best == ransac(remaining, threshold, minInliers)
    requires |best| >= minInliers && (a, b) == fit(Columns(remaining, best))
    ensures |RemoveColumns(remaining, best)| < |remaining|
    ensures (detected + [Detection(|best|, OrderEndpoints(a, b))]) +
            Detected(RemoveColumns(remaining, best), threshold, minInliers, ransac, fit)
         == Detected(pointCloud, threshold, minInliers, ransac, fit)
  {
    var r := Round(remaining, threshold, minInliers, ransac, fit);
    assert r == Continue(Detection(|best|, OrderEndpoints(a, b)), RemoveColumns(remaining, best));
    DetectedStep(remaining, threshold, minInliers, ransac, fit);
    var rest := Detected(RemoveColumns(remaining, best), threshold, minInliers, ransac, fit);
    assert detected + ([Detection(|best|, OrderEndpoints(a, b))] + rest)
        == (detected + [Detection(|best|, OrderEndpoints(a, b))]) + rest;
  }

  /** Every reported segment has at least minInliers inliers and lists its higher endpoint first. */
  lemma {:induction false} DetectedOrdered(remaining: seq<Point>, threshold: real, minInliers: nat,
                                           ransac: Estimator, fit: SegmentFit)
    requires minInliers >= 1 && YieldsColumnSubsets(ransac)
    ensures forall d :: d in Detected(remaining, threshold, minInliers, ransac, fit) ==>
      d.count >= minInliers && d.segment.first.y >= d.segment.second.y
    decreases |remaining|
  {
    var r := Round(remaining, threshold, minInliers, ransac, fit);
    if r.Continue? {
      RoundConsumes(remaining, threshold, minInliers, ransac, fit);
      DetectedStep(remaining, threshold, minInliers, ransac, fit);
      DetectedOrdered(r.remaining, threshold, minInliers, ransac, fit);
    }
  }

  /** Together the reported segments account for no more points than the cloud holds. */
  lemma {:induction false} DetectedTotalCount(remaining: seq<Point>, threshold: real, minInliers: nat,
                                              ransac: Estimator, fit: SegmentFit)
    requires minInliers >= 1 && YieldsColumnSubsets(ransac)
    ensures TotalCount(Detected(remaining, threshold, minInliers, ransac, fit)) <= |remaining|
    decreases |remaining|
  {
    var r := Round(remaining, threshold, minInliers, ransac, fit);
    if r.Continue? {
      RoundConsumes(remaining, threshold, minInliers, ransac, fit);
      DetectedStep(remaining, threshold, minInliers, ransac, fit);
      DetectedTotalCount(r.remaining, threshold, minInliers, ransac, fit);
      var ds := Detected(remaining, threshold, minInliers, ransac, fit);
      assert ds[1..] == Detected(r.remaining, threshold, minInliers, ransac, fit);
    }
  }

  /** Detections of at least m inliers each total at least m per detection. */
  lemma {:induction false} TotalCountAtLeast(ds: seq<Detection>, m: nat)
    requires forall d :: d in ds ==> d.count >= m
    ensures |ds| * m <= TotalCount(ds)
  {
    if ds != [] {
      assert ds[0] in ds;
      assert forall d :: d in ds[1..] ==> d in ds;
      TotalCountAtLeast(ds[1..], m);
      assert |ds| * m == m + |ds[1..]| * m;
    }
  }

  /**
   * Every reported segment has at least minInliers inliers and lists its higher endpoint
   * first, and together they account for no more points than the cloud holds.
   */
  lemma DetectedWellFormed(remaining: seq<Point>, threshold: real, minInliers: nat,
                           ransac: Estimator, fit: SegmentFit)
    requires minInliers >= 1 && YieldsColumnSubsets(ransac)
    ensures var ds := Detected(remaining, threshold, minInliers, ransac, fit);
      (forall k :: 0 <= k < |ds| ==>
         ds[k].count >= minInliers && ds[k].segment.first.y >= ds[k].segment.second.y) &&
      TotalCount(ds) <= |remaining| &&
      |ds| * minInliers <= |remaining|
  {
    var ds := Detected(remaining, threshold, minInliers, ransac, fit);
    DetectedOrdered(remaining, threshold, minInliers, ransac, fit);
    DetectedTotalCount(remaining, threshold, minInliers, ransac, fit);
    TotalCountAtLeast(ds, minInliers);
    forall k | 0 <= k < |ds|
      ensures ds[k].count >= minInliers && ds[k].segment.first.y >= ds[k].segment.second.y
    {
      assert ds[k] in ds;
    }
  }

  /** Fewer than two points, or a first round short of minInliers, yield no segment. */
  lemma DetectedStopsEarly(remaining: seq<Point>, threshold: real, minInliers: nat,
                           ransac: Estimator, fit: SegmentFit)
    requires minInliers >= 1 && YieldsColumnSubsets(ransac)
    requires |remaining| < 2 || |ransac(remaining, threshold, minInliers)| < minInliers
    ensures Detected(remaining, threshold, minInliers, ransac, fit) == []
  {
  }

  /**
   * A minimum of zero inliers accepts a round in which the estimator found nothing. The
   * source then indexes an empty projection list (undefined behaviour) before it removes
   * any column; here such a round continues with the very same remaining points.
   */
  lemma ZeroMinimumStalls(remaining: seq<Point>, threshold: real,
                          ransac: Estimator, fit: SegmentFit)
    requires YieldsColumnSubsets(ransac)
    requires |remaining| >= 2 && ransac(remaining, threshold, 0) == []
    ensures Round(remaining, threshold, 0, ransac, fit).Continue?
    ensures Round(remaining, threshold, 0, ransac, fit).remaining == remaining
  {
    RemoveSubsetLength(remaining, []);
    RemoveColumnsKeepsAll(remaining);
  }

  lemma {:induction false} RemoveColumnsKeepsAll(points: seq<Point>)
    ensures RemoveColumns(points, []) == points
  {
    if points != [] {
      RemoveColumnsKeepsAll(points[..|points| - 1]);
    }
  }

  /**
   * The driver: clears the output, returns at once for an empty cloud, and otherwise runs
   * rounds on a shrinking working copy while at least two points remain, appending one
   * canonically ordered segment per accepted round and stopping at the first round short
   * of minInliers.
   */
  method Detect(pointCloud: seq<Point>, threshold: real, minInliers: nat,
                ransac: Estimator, fit: SegmentFit)
    returns (detected: seq<Detection>)
    requires minInliers >= 1 && YieldsColumnSubsets(ransac)
    ensures detected == Detected(pointCloud, threshold, minInliers, ransac, fit)
    ensures pointCloud == [] ==> detected == []
  {
    detected := [];
    if |pointCloud| == 0 {
      DetectedStopsEarly(pointCloud, threshold, minInliers, ransac, fit);
      return;
    }
    var remaining := pointCloud;
    while |remaining| >= 2
      invariant detected + Detected(remaining, threshold, minInliers, ransac, fit)
             == Detected(pointCloud, threshold, minInliers, ransac, fit)
      decreases |remaining|
    {
      var best := ransac(remaining, threshold, minInliers);
      if |best| >= minInliers {
        var (a, b) := fit(Columns(remaining, best));
        var segment;
        if a.y < b.y {
          segment := Segment(b, a);
        } else {
          segment := Segment(a, b);
        }
        DetectedAccepts(pointCloud, detected, remaining, threshold, minInliers, ransac, fit, best, a, b);
        detected := detected + [Detection(|best|, segment)];
        remaining := RemoveColumns(remaining, best);
      } else {
        DetectedStopsEarly(remaining, threshold, minInliers, ransac, fit);
        break;
      }
    }
    if |remaining| < 2 {
      DetectedStopsEarly(remaining, threshold, minInliers, ransac, fit);
    }
  }
}
