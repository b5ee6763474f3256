/**
 * The fold-patch estimator: a rectangular region of interest over a garment mesh
 * addressed through a 2-D grid view (view[col][row] is a vertex index, or -1 for a
 * hole), the colouring and point extraction of the region's middle column, the shared
 * 100-entry Gaussian weight table, and the weighted measured and unfolded areas.
 *
 * Vector lengths, normalisation and the Gaussian density are left uninterpreted and
 * enter as function-typed parameters; the surrounding index, sentinel and cache logic
 * is modelled exactly.
 */
module FoldTracker {
  import opened Common

  /** The grid value that marks a cell without a vertex. */
  const Hole: int := -1

  /** Number of samples in the Gaussian weight table. */
  const TableSize: nat := 100

  // ---------------------------------------------------------------------------
  // Grid cells and the region of interest
  // ---------------------------------------------------------------------------

  /** A grid position: column first, as in view[col][row]. */
  datatype Cell = Cell(col: int, row: int)

  /** An axis-aligned rectangle in grid coordinates. */
  datatype Roi = Roi(x: int, y: int, width: nat, height: nat)

  function TopLeft(roi: Roi): Cell { Cell(roi.x, roi.y) }
  function BottomLeft(roi: Roi): Cell { Cell(roi.x, roi.y + roi.height) }
  function TopRight(roi: Roi): Cell { Cell(roi.x + roi.width, roi.y) }
  function BottomRight(roi: Roi): Cell { Cell(roi.x + roi.width, roi.y + roi.height) }

  function Corners(roi: Roi): set<Cell>
  {
    {TopLeft(roi), BottomLeft(roi), TopRight(roi), BottomRight(roi)}
  }

  predicate InGrid(view: seq<seq<int>>, c: Cell)
  {
    0 <= c.col < |view| && 0 <= c.row < |view[c.col]|
  }

  function At(view: seq<seq<int>>, c: Cell): int
    requires InGrid(view, c)
  {
    view[c.col][c.row]
  }

  /** Every cell is a hole or names one of the n mesh vertices. */
  ghost predicate WellFormedView(view: seq<seq<int>>, n: nat)
  {
    forall c, r :: 0 <= c < |view| && 0 <= r < |view[c]| ==> view[c][r] == Hole || 0 <= view[c][r] < n
  }

  /** Every grid position of the region, its right and bottom borders included, exists. */
  ghost predicate RoiInGrid(view: seq<seq<int>>, roi: Roi)
  {
    forall c, r :: roi.x <= c <= roi.x + roi.width && roi.y <= r <= roi.y + roi.height ==>
      InGrid(view, Cell(c, r))
  }

  /** C++'s conversion of a floating value to an integer: truncation toward zero. */
  function TruncateToInt(v: real): (k: int)
    ensures v >= 0.0 ==> k as real <= v < k as real + 1.0
    ensures v < 0.0 ==> k as real - 1.0 < v <= k as real
  {
    if v >= 0.0 then v.Floor else -((-v).Floor)
  }

  /** The column the region's point extraction and colouring walk: x + (width - 1) / 2 in floating point. */
  function MiddleColumn(roi: Roi): (col: int)
    ensures roi.x >= 0 && roi.width >= 1 ==> col == roi.x + (roi.width - 1) / 2
    ensures roi.x >= 0 && roi.width >= 1 ==> roi.x <= col < roi.x + roi.width
  {
    TruncateToInt(roi.x as real + (roi.width as real - 1.0) / 2.0)
  }

  // ---------------------------------------------------------------------------
  // The middle column: extraction and colouring
  // ---------------------------------------------------------------------------

  /** The non-hole entries of column[lo..hi], in row order. */
  function PresentIds(column: seq<int>, lo: int, hi: int): seq<int>
    requires 0 <= lo && hi <= |column|
    decreases hi - lo
  {
    if hi <= lo then []
    else PresentIds(column, lo, hi - 1) + (if column[hi - 1] != Hole then [column[hi - 1]] else [])
  }

  /**
   * The present entries of a column slice are exactly its non-hole values, at most one per row.
   */
  lemma {:induction false} PresentIdsExact(column: seq<int>, lo: int, hi: int)
    requires 0 <= lo && hi <= |column|
    ensures |PresentIds(column, lo, hi)| <= if hi <= lo then 0 else hi - lo
    ensures forall v :: v in PresentIds(column, lo, hi) <==>
      v != Hole && exists r :: lo <= r < hi && column[r] == v
    decreases hi - lo
  {
    if hi > lo {
      PresentIdsExact(column, lo, hi - 1);
      var ids := PresentIds(column, lo, hi);
      forall v
        ensures v in ids <==> v != Hole && exists r :: lo <= r < hi && column[r] == v
      {
        if v != Hole && column[hi - 1] == v {
          assert v == ids[|ids| - 1];
        }
      }
    }
  }

  /** The positions of the given vertices, in order. */
  function VerticesAt(vertices: seq<Point>, ids: seq<int>): (r: seq<Point>)
    requires forall k :: 0 <= k < |ids| ==> 0 <= ids[k] < |vertices|
    ensures |r| == |ids|
    ensures forall k :: 0 <= k < |ids| ==> r[k] == vertices[ids[k]]
  {
    seq(|ids|, k requires 0 <= k < |ids| => vertices[ids[k]])
  }

  lemma PresentIdsAreVertices(view: seq<seq<int>>, n: nat, col: int, lo: int, hi: int)
    requires WellFormedView(view, n)
    requires 0 <= col < |view| && 0 <= lo && hi <= |view[col]|
    ensures forall k :: 0 <= k < |PresentIds(view[col], lo, hi)| ==> 0 <= PresentIds(view[col], lo, hi)[k] < n
  {
    PresentIdsExact(view[col], lo, hi);
    forall k | 0 <= k < |PresentIds(view[col], lo, hi)|
      ensures 0 <= PresentIds(view[col], lo, hi)[k] < n
    {
      var v := PresentIds(view[col], lo, hi)[k];
      assert v in PresentIds(view[col], lo, hi);
      var r :| lo <= r < hi && view[col][r] == v;
    }
  }

  // ---------------------------------------------------------------------------
  // Weights
  // ---------------------------------------------------------------------------

  /** Where table entry i samples the Gaussian: 3 * i / 99 standard deviations. */
  function SamplePosition(i: nat): real
  {
    (3 * i) as real / 99.0
  }

  /** The samples run from 0 at entry 0 to 3 at entry 99, strictly increasing. */
  lemma SamplePositionsSpan(i: nat, j: nat)
    requires i < j
    ensures SamplePosition(0) == 0.0 && SamplePosition(99) == 3.0
    ensures SamplePosition(i) < SamplePosition(j)
    ensures j < TableSize ==> 0.0 <= SamplePosition(i) && SamplePosition(j) <= 3.0
  {
  }

  function Abs(v: real): real { if v < 0.0 then -v else v }

  function Min(a: real, b: real): real { if a <= b then a else b }

  /**
   * The table slot for a normalised horizontal offset: 99 * min(|p|, 1), truncated.
   * It is always a valid slot of the 100-entry table, the last slot exactly when
   * |p| >= 1 and the first exactly when |p| < 1/99.
   */
  function WeightIndex(p: real): (k: int)
    ensures 0 <= k < TableSize
    ensures k == 99 <==> Abs(p) >= 1.0
    ensures k == 0 <==> Abs(p) < 1.0 / 99.0
  {
    TruncateToInt(99.0 * Min(Abs(p), 1.0))
  }

  // ---------------------------------------------------------------------------
  // Weighted areas
  // ---------------------------------------------------------------------------

  function Add(p: Point, q: Point): Point { Point(p.x + q.x, p.y + q.y, p.z + q.z) }
  function Sub(p: Point, q: Point): Point { Point(p.x - q.x, p.y - q.y, p.z - q.z) }
  function Div(p: Point, k: real): Point requires k != 0.0 { Point(p.x / k, p.y / k, p.z / k) }

  function Centroid(p: Point, q: Point, r: Point): Point
  {
    Div(Add(Add(p, q), r), 3.0)
  }

  /**
   * Vector geometry left uninterpreted: crossLength(u, v) is the length of u x v, and
   * offset(v, h) is v's component along h normalised, divided by half of h's length.
   */
  datatype Geometry = Geometry(crossLength: (Point, Point) -> real, offset: (Point, Point) -> real)

  /** What stays fixed during one area computation. */
  datatype AreaContext = AreaContext(view: seq<seq<int>>, vertices: seq<Point>, table: seq<real>,
                                     unfoldedTriangleArea: real, middle: Point, horizontal: Point,
                                     geo: Geometry)

  ghost predicate ContextOk(ctx: AreaContext)
  {
    WellFormedView(ctx.view, |ctx.vertices|) && |ctx.table| >= TableSize
  }

  /** The four grid positions of the cell whose top-left corner is c exist. */
  predicate CellReadable(view: seq<seq<int>>, c: Cell)
  {
    0 <= c.col && c.col + 1 < |view| && 0 <= c.row &&
    c.row + 1 < |view[c.col]| && c.row + 1 < |view[c.col + 1]|
  }

  /**
   * The accumulation state carried across cells: the last processed A index, the cached
   * corner positions (a position is only refreshed from a non-hole index) and the two sums.
   */
  datatype Sweep = Sweep(lastA: int, posA: Point, posB: Point, posC: Point, posD: Point,
                         area: real, unfoldedArea: real)

  /** Before the first cell: no A index yet, default (zero) positions, both sums zero. */
  const InitialSweep: Sweep := Sweep(Hole, Origin, Origin, Origin, Origin, 0.0, 0.0)

  /** The table weight at the normalised horizontal offset of a centroid. */
  function Weight(ctx: AreaContext, centroid: Point): real
    requires |ctx.table| >= TableSize
  {
    ctx.table[WeightIndex(ctx.geo.offset(Sub(centroid, ctx.middle), ctx.horizontal))]
  }

  /**
   * One cell with corners A = (col, row), B = (col + 1, row), C = (col + 1, row + 1) and
   * D = (col, row + 1). It is skipped when A's index equals the last processed one.
   * Otherwise the cached positions of the non-hole corners are refreshed; triangle
   * (A, B, D) counts when A, B and D are vertices and is weighted at the centroid of the
   * cached A, B and C; triangle (B, C, D) counts when B, C and D are vertices.
   */
  function Visit(ctx: AreaContext, st: Sweep, c: Cell): Sweep
    requires ContextOk(ctx) && CellReadable(ctx.view, c)
  {
    var a := ctx.view[c.col][c.row];
    if a == st.lastA then st
    else
      var b := ctx.view[c.col + 1][c.row];
      var cc := ctx.view[c.col + 1][c.row + 1];
      var d := ctx.view[c.col][c.row + 1];
      var pA := if a >= 0 then ctx.vertices[a] else st.posA;
      var pB := if b >= 0 then ctx.vertices[b] else st.posB;
      var pC := if cc >= 0 then ctx.vertices[cc] else st.posC;
      var pD := if d >= 0 then ctx.vertices[d] else st.posD;
      var s1 := Sweep(a, pA, pB, pC, pD, st.area, st.unfoldedArea);
      var s2 :=
        if a >= 0 && b >= 0 && d >= 0 then
          var w := Weight(ctx, Centroid(pA, pB, pC));
          s1.(unfoldedArea := s1.unfoldedArea + ctx.unfoldedTriangleArea * w,
              area := s1.area + ctx.geo.crossLength(Sub(pB, pA), Sub(pD, pA)) * w / 2.0)
        else s1;
      if b >= 0 && cc >= 0 && d >= 0 then
        var w := Weight(ctx, Centroid(pB, pC, pD));
        s2.(unfoldedArea := s2.unfoldedArea + ctx.unfoldedTriangleArea * w,
            area := s2.area + ctx.geo.crossLength(Sub(pC, pB), Sub(pD, pB)) * w / 2.0)
      else s2
  }

  /** The cells of one region row, left to right. */
  function RowCells(roi: Roi, row: int): (r: seq<Cell>)
    ensures |r| == roi.width
    ensures forall j :: 0 <= j < roi.width ==> r[j] == Cell(roi.x + j, row)
  {
    seq(roi.width, j requires 0 <= j < roi.width => Cell(roi.x + j, row))
  }

  /** The cells of the first n region rows, in row-major order. */
  function RowsCells(roi: Roi, n: nat): seq<Cell>
  {
    if n == 0 then [] else RowsCells(roi, n - 1) + RowCells(roi, roi.y + n - 1)
  }

  /** All cells of the region, in the order the nested loops visit them. */
  function RoiCells(roi: Roi): seq<Cell>
  {
    RowsCells(roi, roi.height)
  }

  /** Every visited cell lies in the region, so its reads reach at most the bottom-right corner. */
  lemma {:induction false} RowsCellsInRoi(roi: Roi, n: nat)
    requires n <= roi.height
    ensures forall c :: c in RowsCells(roi, n) ==>
      roi.x <= c.col < roi.x + roi.width && roi.y <= c.row < roi.y + n
  {
    if n > 0 {
      RowsCellsInRoi(roi, n - 1);
    }
  }

  /** The cell lies in the region: its top-left corner is among the visited positions. */
  predicate InRoi(roi: Roi, c: Cell)
  {
    roi.x <= c.col < roi.x + roi.width && roi.y <= c.row < roi.y + roi.height
  }

  /** In a region that lies in the grid, every cell's four corners can be read. */
  lemma RoiCellsReadable(view: seq<seq<int>>, roi: Roi)
    requires RoiInGrid(view, roi)
    ensures forall c :: InRoi(roi, c) ==> CellReadable(view, c)
  {
    forall c | InRoi(roi, c)
      ensures CellReadable(view, c)
    {
      assert InGrid(view, Cell(c.col, c.row + 1));
      assert InGrid(view, Cell(c.col + 1, c.row + 1));
    }
  }

  /** The state after visiting the cells in order. */
  function SweepCells(ctx: AreaContext, st: Sweep, cells: seq<Cell>): Sweep
    requires ContextOk(ctx)
    requires forall c :: c in cells ==> CellReadable(ctx.view, c)
  {
    if cells == [] then st
    else Visit(ctx, SweepCells(ctx, st, cells[..|cells| - 1]), cells[|cells| - 1])
  }

  /** The skip cache: a cell whose A index equals the last processed one changes nothing. */
  lemma RepeatedASkipped(ctx: AreaContext, st: Sweep, c: Cell)
    requires ContextOk(ctx) && CellReadable(ctx.view, c)
    requires ctx.view[c.col][c.row] == st.lastA
    ensures Visit(ctx, st, c) == st
  {
  }

  /**
   * Both triangles need B and D: a processed cell where either is a hole adds nothing
   * to either sum, and a cell whose A is a hole can only add its second triangle.
   */
  lemma MissingCornersAddNothing(ctx: AreaContext, st: Sweep, c: Cell)
    requires ContextOk(ctx) && CellReadable(ctx.view, c)
    ensures var a, b, d := ctx.view[c.col][c.row], ctx.view[c.col + 1][c.row], ctx.view[c.col][c.row + 1];
      var st' := Visit(ctx, st, c);
      ((b == Hole || d == Hole) ==> st'.area == st.area && st'.unfoldedArea == st.unfoldedArea) &&
      (a == Hole && ctx.view[c.col + 1][c.row + 1] == Hole ==>
         st'.area == st.area && st'.unfoldedArea == st.unfoldedArea)
  {
  }

  /** Hole-only A corners, starting from a sweep whose last A is a hole, leave the sweep as it was. */
  lemma {:induction false} HoleColumnsLeaveSweep(ctx: AreaContext, st: Sweep, cells: seq<Cell>)
    requires ContextOk(ctx)
    requires forall c :: c in cells ==> CellReadable(ctx.view, c) && ctx.view[c.col][c.row] == Hole
    requires st.lastA == Hole
    ensures SweepCells(ctx, st, cells) == st
  {
    if cells != [] {
      var last := cells[|cells| - 1];
      assert last in cells;
      HoleColumnsLeaveSweep(ctx, st, cells[..|cells| - 1]);
    }
  }

  /** With nonnegative weights, cross lengths and unfolded cell area, neither sum ever decreases. */
  lemma {:induction false} SweepNeverDecreases(ctx: AreaContext, st: Sweep, cells: seq<Cell>)
    requires ContextOk(ctx)
    requires forall c :: c in cells ==> CellReadable(ctx.view, c)
    requires forall k :: 0 <= k < |ctx.table| ==> ctx.table[k] >= 0.0
    requires forall u, v :: ctx.geo.crossLength(u, v) >= 0.0
    requires ctx.unfoldedTriangleArea >= 0.0
    ensures SweepCells(ctx, st, cells).area >= st.area
    ensures SweepCells(ctx, st, cells).unfoldedArea >= st.unfoldedArea
  {
    if cells != [] {
      var prefix := cells[..|cells| - 1];
      SweepNeverDecreases(ctx, st, prefix);
      VisitNeverDecreases(ctx, SweepCells(ctx, st, prefix), cells[|cells| - 1]);
    }
  }

  /** One cell adds nonnegative amounts to both sums. */
  lemma VisitNeverDecreases(ctx: AreaContext, st: Sweep, c: Cell)
    requires ContextOk(ctx) && CellReadable(ctx.view, c)
    requires forall k :: 0 <= k < |ctx.table| ==> ctx.table[k] >= 0.0
    requires forall u, v :: ctx.geo.crossLength(u, v) >= 0.0
    requires ctx.unfoldedTriangleArea >= 0.0
    ensures Visit(ctx, st, c).area >= st.area
    ensures Visit(ctx, st, c).unfoldedArea >= st.unfoldedArea
  {
    forall centroid: Point, u: Point, v: Point
      ensures ctx.unfoldedTriangleArea * Weight(ctx, centroid) >= 0.0
      ensures ctx.geo.crossLength(u, v) * Weight(ctx, centroid) / 2.0 >= 0.0
    {
      var w := Weight(ctx, centroid);
      assert w >= 0.0;
      ProductNonnegative(ctx.unfoldedTriangleArea, w);
      ProductNonnegative(ctx.geo.crossLength(u, v), w);
    }
  }

  lemma ProductNonnegative(a: real, b: real)
    requires a >= 0.0 && b >= 0.0
    ensures a * b >= 0.0 && a * b / 2.0 >= 0.0
  {
  }

  /**
   * Every triangle the visit of c counts measures t: its cross length, twice its area,
   * is 2 t. The positions are those the visit refreshes.
   */
  ghost predicate VisitMeasures(ctx: AreaContext, st: Sweep, c: Cell, t: real)
    requires ContextOk(ctx) && CellReadable(ctx.view, c)
  {
    var a := ctx.view[c.col][c.row];
    a != st.lastA ==>
      var b := ctx.view[c.col + 1][c.row];
      var cc := ctx.view[c.col + 1][c.row + 1];
      var d := ctx.view[c.col][c.row + 1];
      var pA := if a >= 0 then ctx.vertices[a] else st.posA;
      var pB := if b >= 0 then ctx.vertices[b] else st.posB;
      var pC := if cc >= 0 then ctx.vertices[cc] else st.posC;
      var pD := if d >= 0 then ctx.vertices[d] else st.posD;
      (a >= 0 && b >= 0 && d >= 0 ==> ctx.geo.crossLength(Sub(pB, pA), Sub(pD, pA)) == 2.0 * t) &&
      (b >= 0 && cc >= 0 && d >= 0 ==> ctx.geo.crossLength(Sub(pC, pB), Sub(pD, pB)) == 2.0 * t)
  }

  /** Every triangle counted while sweeping the cells in order measures t. */
  ghost predicate SweepMeasures(ctx: AreaContext, st: Sweep, cells: seq<Cell>, t: real)
    requires ContextOk(ctx)
    requires forall c :: c in cells ==> CellReadable(ctx.view, c)
  {
    cells == [] ||
    (SweepMeasures(ctx, st, cells[..|cells| - 1], t) &&
     VisitMeasures(ctx, SweepCells(ctx, st, cells[..|cells| - 1]), cells[|cells| - 1], t))
  }

  /**
   * The weights of the two triangles one visit counts (0 for a triangle it does not
   * count): when every counted triangle measures t, the visit adds t times these weights
   * to the measured sum and the unfolded area per triangle times them to the unfolded sum.
   */
  lemma VisitIncrements(ctx: AreaContext, st: Sweep, c: Cell, t: real) returns (w1: real, w2: real)
    requires ContextOk(ctx) && CellReadable(ctx.view, c)
    requires VisitMeasures(ctx, st, c, t)
    ensures Visit(ctx, st, c).area == st.area + t * w1 + t * w2
    ensures Visit(ctx, st, c).unfoldedArea == st.unfoldedArea + ctx.unfoldedTriangleArea * w1 +
                                              ctx.unfoldedTriangleArea * w2
  {
    w1, w2 := 0.0, 0.0;
    var a := ctx.view[c.col][c.row];
    if a != st.lastA {
      var b := ctx.view[c.col + 1][c.row];
      var cc := ctx.view[c.col + 1][c.row + 1];
      var d := ctx.view[c.col][c.row + 1];
      var pA := if a >= 0 then ctx.vertices[a] else st.posA;
      var pB := if b >= 0 then ctx.vertices[b] else st.posB;
      var pC := if cc >= 0 then ctx.vertices[cc] else st.posC;
      var pD := if d >= 0 then ctx.vertices[d] else st.posD;
      if a >= 0 && b >= 0 && d >= 0 {
        w1 := Weight(ctx, Centroid(pA, pB, pC));
        HalfOfDouble(ctx.geo.crossLength(Sub(pB, pA), Sub(pD, pA)), t, w1);
      }
      if b >= 0 && cc >= 0 && d >= 0 {
        w2 := Weight(ctx, Centroid(pB, pC, pD));
        HalfOfDouble(ctx.geo.crossLength(Sub(pC, pB), Sub(pD, pB)), t, w2);
      }
    }
  }

  lemma HalfOfDouble(cross: real, t: real, w: real)
    requires cross == 2.0 * t
    ensures cross * w / 2.0 == t * w
  {
  }

  /** The sums stand in the ratio n : m, that is area m == unfoldedArea n. */
  ghost predicate Proportional(s: Sweep, m: real, n: real)
  {
    s.area * m == s.unfoldedArea * n
  }

  /** Adding t w1 + t w2 and u w1 + u w2 keeps the ratio n : m when t m == u n. */
  lemma AddKeepsRatio(area: real, unfolded: real, t: real, u: real, w1: real, w2: real, m: real, n: real)
    requires t * m == u * n && area * m == unfolded * n
    ensures (area + t * w1 + t * w2) * m == (unfolded + u * w1 + u * w2) * n
  {
    calc {
      (area + t * w1 + t * w2) * m;
      area * m + (t * m) * w1 + (t * m) * w2;
      unfolded * n + (u * n) * w1 + (u * n) * w2;
      (unfolded + u * w1 + u * w2) * n;
    }
  }

  /** One visit whose counted triangles measure t keeps the ratio n : m when t m == u n. */
  lemma VisitKeepsRatio(ctx: AreaContext, st: Sweep, c: Cell, t: real, m: real, n: real)
    requires ContextOk(ctx) && CellReadable(ctx.view, c)
    requires VisitMeasures(ctx, st, c, t)
    requires t * m == ctx.unfoldedTriangleArea * n
    requires Proportional(st, m, n)
    ensures Proportional(Visit(ctx, st, c), m, n)
  {
    var w1, w2 := VisitIncrements(ctx, st, c, t);
    AddKeepsRatio(st.area, st.unfoldedArea, t, ctx.unfoldedTriangleArea, w1, w2, m, n);
  }

  /** The ratio of the two sums is kept over a sweep whose counted triangles all measure t. */
  lemma {:induction false} SweepKeepsRatio(ctx: AreaContext, st: Sweep, cells: seq<Cell>,
                                           t: real, m: real, n: real)
    requires ContextOk(ctx)
    requires forall c :: c in cells ==> CellReadable(ctx.view, c)
    requires SweepMeasures(ctx, st, cells, t)
    requires t * m == ctx.unfoldedTriangleArea * n
    requires Proportional(st, m, n)
    ensures Proportional(SweepCells(ctx, st, cells), m, n)
  {
    if cells != [] {
      var prefix, last := cells[..|cells| - 1], cells[|cells| - 1];
      SweepKeepsRatio(ctx, st, prefix, t, m, n);
      VisitKeepsRatio(ctx, SweepCells(ctx, st, prefix), last, t, m, n);
    }
  }

  /**
   * A flat, evenly gridded region: with q the corners' cross sum (twice the region's area,
   * see CornerCross), its w h cells split into 2 w h triangles of equal area t, so
   * 4 w h t == q. The unfolded area per triangle divides q by 4 (w - 1)(h - 1) instead
   * (UnfoldedAreaShare), so the weighted measured sum is (w - 1)(h - 1) / (w h) of the
   * weighted unfolded sum, strictly less whenever the latter is positive; on a 2 x 2
   * region it is a quarter.
   */
  lemma FlatRegionRatio(ctx: AreaContext, roi: Roi, q: real, t: real, w: real, h: real)
    requires roi.width >= 2 && roi.height >= 2 && w == roi.width as real && h == roi.height as real
    requires ContextOk(ctx) && forall c :: c in RoiCells(roi) ==> CellReadable(ctx.view, c)
    requires ctx.unfoldedTriangleArea * (4.0 * ((w - 1.0) * (h - 1.0))) == q
    requires t * (4.0 * (w * h)) == q
    requires SweepMeasures(ctx, InitialSweep, RoiCells(roi), t)
    ensures var st := SweepCells(ctx, InitialSweep, RoiCells(roi));
      st.area * (w * h) == st.unfoldedArea * ((w - 1.0) * (h - 1.0)) &&
      (st.unfoldedArea > 0.0 ==> st.area < st.unfoldedArea) &&
      (w == 2.0 && h == 2.0 ==> 4.0 * st.area == st.unfoldedArea)
  {
    FlatSweepRatio(ctx, RoiCells(roi), q, t, w * h, (w - 1.0) * (h - 1.0));
    RegionRatio(SweepCells(ctx, InitialSweep, RoiCells(roi)), w, h);
  }

  /** What the proportion of a w x h region's sums says about the two areas. */
  lemma RegionRatio(st: Sweep, w: real, h: real)
    requires w >= 2.0 && h >= 2.0 && Proportional(st, w * h, (w - 1.0) * (h - 1.0))
    ensures st.area * (w * h) == st.unfoldedArea * ((w - 1.0) * (h - 1.0))
    ensures st.unfoldedArea > 0.0 ==> st.area < st.unfoldedArea
    ensures w == 2.0 && h == 2.0 ==> 4.0 * st.area == st.unfoldedArea
  {
    FewerCellsSmaller(st.area, st.unfoldedArea, w, h, w - 1.0, h - 1.0);
  }

  /**
   * The context of an area computation spreads the corners' cross sum over
   * 4 (w - 1)(h - 1) triangles: its unfolded area per triangle times that count is the sum.
   */
  lemma UnfoldedAreaShare(view: seq<seq<int>>, vertices: seq<Point>, table: seq<real>,
                          roi: Roi, geo: Geometry, w: real, h: real)
    requires WellFormedView(view, |vertices|)
    requires roi.width >= 2 && roi.height >= 2 && w == roi.width as real && h == roi.height as real
    requires forall c :: c in Corners(roi) ==> InGrid(view, c) && At(view, c) != Hole
    ensures AreaContextOf(view, vertices, table, roi, geo).unfoldedTriangleArea * (4.0 * ((w - 1.0) * (h - 1.0)))
         == CornerCross(view, vertices, roi, geo)
  {
    var q := CornerCross(view, vertices, roi, geo);
    var w1, h1 := (roi.width - 1) as real, (roi.height - 1) as real;
    var share := AreaContextOf(view, vertices, table, roi, geo).unfoldedTriangleArea;
    assert share == TriangleShare(q, w1, h1);
    assert w1 == w - 1.0 && h1 == h - 1.0;
    assert share == TriangleShare(q, w - 1.0, h - 1.0);
    ShareScaled(q, w - 1.0, h - 1.0);
  }

  /** The cross sum q spread over the 2 x 2 triangles of each of the w1 x h1 unit cells. */
  function TriangleShare(q: real, w1: real, h1: real): real
    requires w1 >= 1.0 && h1 >= 1.0
  {
    q / (2.0 * 2.0 * w1 * h1)
  }

  lemma ShareScaled(q: real, w1: real, h1: real)
    requires w1 >= 1.0 && h1 >= 1.0
    ensures TriangleShare(q, w1, h1) * (4.0 * (w1 * h1)) == q
  {
    PositiveProduct(w1, h1);
    assert 2.0 * 2.0 * w1 * h1 == 4.0 * (w1 * h1);
    DivisionScaled(q, 4.0 * (w1 * h1));
  }

  lemma DivisionScaled(q: real, k: real)
    requires k > 0.0
    ensures q / k * k == q
  {
  }

  /**
   * A sweep whose counted triangles all measure t, where 4 t m and 4 u n are the same
   * sum q for the unfolded area per triangle u, ends with the sums in the ratio n : m.
   */
  lemma FlatSweepRatio(ctx: AreaContext, cells: seq<Cell>, q: real, t: real, m: real, n: real)
    requires ContextOk(ctx)
    requires forall c :: c in cells ==> CellReadable(ctx.view, c)
    requires ctx.unfoldedTriangleArea * (4.0 * n) == q
    requires t * (4.0 * m) == q
    requires SweepMeasures(ctx, InitialSweep, cells, t)
    ensures Proportional(SweepCells(ctx, InitialSweep, cells), m, n)
  {
    QuartersAgree(t, m, ctx.unfoldedTriangleArea, n, q);
    assert Proportional(InitialSweep, m, n);
    SweepKeepsRatio(ctx, InitialSweep, cells, t, m, n);
  }

  lemma QuartersAgree(t: real, m: real, u: real, n: real, q: real)
    requires t * (4.0 * m) == q && u * (4.0 * n) == q
    ensures t * m == u * n
  {
    assert t * (4.0 * m) == 4.0 * (t * m);
    assert u * (4.0 * n) == 4.0 * (u * n);
  }

  lemma PositiveProduct(a: real, b: real)
    requires a >= 1.0 && b >= 1.0
    ensures a * b >= 1.0
  {
  }

  /** Sums in the ratio (w - 1)(h - 1) : wh; the first is smaller when the second is positive. */
  lemma FewerCellsSmaller(area: real, unfolded: real, w: real, h: real, w1: real, h1: real)
    requires w >= 2.0 && h >= 2.0 && w1 == w - 1.0 && h1 == h - 1.0
    requires area * (w * h) == unfolded * (w1 * h1)
    ensures unfolded > 0.0 ==> area < unfolded
    ensures w == 2.0 && h == 2.0 ==> 4.0 * area == unfolded
  {
    var wh, cells := w * h, w1 * h1;
    assert wh == cells + w + h - 1.0;
    PositiveProduct(w1, h1);
    if unfolded > 0.0 {
      StrictlyScaled(unfolded, cells, wh);
      SmallerFactor(area, unfolded, wh);
    }
  }

  lemma StrictlyScaled(u: real, a: real, b: real)
    requires u > 0.0 && a < b
    ensures u * a < u * b
  {
    assert u * b - u * a == u * (b - a);
  }

  lemma SmallerFactor(x: real, y: real, k: real)
    requires k > 0.0 && x * k < y * k
    ensures x < y
  {
  }

  /** Visiting one more cell extends the sweep by one step. */
  lemma SweepStep(ctx: AreaContext, st: Sweep, cells: seq<Cell>, c: Cell)
    requires ContextOk(ctx)
    requires forall c' :: c' in cells + [c] ==> CellReadable(ctx.view, c')
    ensures SweepCells(ctx, st, cells + [c]) == Visit(ctx, SweepCells(ctx, st, cells), c)
  {
    assert (cells + [c])[..|cells|] == cells;
  }

  /**
   * The body of the area loop for one cell, on the loop's cached indices, positions
   * and sums.
   */
  method ProcessCell(ctx: AreaContext, st: Sweep, c: Cell) returns (st': Sweep)
    requires ContextOk(ctx) && CellReadable(ctx.view, c)
    ensures st' == Visit(ctx, st, c)
  {
    var view, mesh := ctx.view, ctx.vertices;
    var col, row := c.col, c.row;
    var pointAIdx, posA, posB, posC, posD := st.lastA, st.posA, st.posB, st.posC, st.posD;
    var area, unfoldedArea := st.area, st.unfoldedArea;
    if view[col][row] != pointAIdx {
      pointAIdx := view[col][row];
      posA := if pointAIdx >= 0 then mesh[pointAIdx] else posA;
      var pointBIdx := view[col + 1][row];
      posB := if pointBIdx >= 0 then mesh[pointBIdx] else posB;
      var pointCIdx := view[col + 1][row + 1];
      posC := if pointCIdx >= 0 then mesh[pointCIdx] else posC;
      var pointDIdx := view[col][row + 1];
      posD := if pointDIdx >= 0 then mesh[pointDIdx] else posD;

      if pointAIdx >= 0 && pointBIdx >= 0 && pointDIdx >= 0 {
        var posToMiddle := ctx.geo.offset(Sub(Centroid(posA, posB, posC), ctx.middle), ctx.horizontal);
        var gaussianWeight := ctx.table[WeightIndex(posToMiddle)];
        assert gaussianWeight == Weight(ctx, Centroid(posA, posB, posC));
        unfoldedArea := unfoldedArea + ctx.unfoldedTriangleArea * gaussianWeight;
        area := area + ctx.geo.crossLength(Sub(posB, posA), Sub(posD, posA)) * gaussianWeight / 2.0;
      }
      if pointBIdx >= 0 && pointCIdx >= 0 && pointDIdx >= 0 {
        var posToMiddle := ctx.geo.offset(Sub(Centroid(posB, posC, posD), ctx.middle), ctx.horizontal);
        var gaussianWeight := ctx.table[WeightIndex(posToMiddle)];
        assert gaussianWeight == Weight(ctx, Centroid(posB, posC, posD));
        unfoldedArea := unfoldedArea + ctx.unfoldedTriangleArea * gaussianWeight;
        area := area + ctx.geo.crossLength(Sub(posC, posB), Sub(posD, posB)) * gaussianWeight / 2.0;
      }
    }
    st' := Sweep(pointAIdx, posA, posB, posC, posD, area, unfoldedArea);
    if view[col][row] != st.lastA {
      assert st'.posA == Visit(ctx, st, c).posA && st'.posB == Visit(ctx, st, c).posB;
      assert st'.posC == Visit(ctx, st, c).posC && st'.posD == Visit(ctx, st, c).posD;
      assert st'.area == Visit(ctx, st, c).area;
      assert st'.unfoldedArea == Visit(ctx, st, c).unfoldedArea;
    }
  }

  /** The cells of the first n rows and the first j cells of row n. */
  function CellsUpTo(roi: Roi, n: nat, j: nat): seq<Cell>
    requires j <= roi.width
  {
    RowsCells(roi, n) + RowCells(roi, roi.y + n)[..j]
  }

  lemma CellsUpToInRoi(roi: Roi, n: nat, j: nat)
    requires n <= roi.height && j <= roi.width && (n == roi.height ==> j == 0)
    ensures forall c :: c in CellsUpTo(roi, n, j) ==> InRoi(roi, c)
  {
    RowsCellsInRoi(roi, n);
  }

  /** A cell one row above the bottom border and one column left of the right border can be read. */
  lemma CellInRoiReadable(view: seq<seq<int>>, roi: Roi, c: Cell)
    requires RoiInGrid(view, roi) && InRoi(roi, c)
    ensures CellReadable(view, c)
  {
    RoiCellsReadable(view, roi);
  }

  /**
   * The sweep state once the loops have reached row y + n, column x + j, following the
   * loops themselves: a step along the row, or the end of the previous row.
   */
  ghost function SweptUpTo(ctx: AreaContext, roi: Roi, n: nat, j: nat): Sweep
    requires ContextOk(ctx) && RoiInGrid(ctx.view, roi)
    requires n <= roi.height && j <= roi.width && (n == roi.height ==> j == 0)
    decreases n, j
  {
    if j > 0 then
      CellInRoiReadable(ctx.view, roi, Cell(roi.x + j - 1, roi.y + n));
      Visit(ctx, SweptUpTo(ctx, roi, n, j - 1), Cell(roi.x + j - 1, roi.y + n))
    else if n > 0 then SweptUpTo(ctx, roi, n - 1, roi.width)
    else InitialSweep
  }

  /** Reaching column j + 1 of row n appends the cell at column j. */
  lemma CellsUpToNextCell(roi: Roi, n: nat, j: nat)
    requires j < roi.width
    ensures CellsUpTo(roi, n, j + 1) == CellsUpTo(roi, n, j) + [Cell(roi.x + j, roi.y + n)]
  {
    var row := RowCells(roi, roi.y + n);
    assert row[..j + 1] == row[..j] + [Cell(roi.x + j, roi.y + n)];
  }

  /** The end of row n is the start of row n + 1. */
  lemma CellsUpToNextRow(roi: Roi, n: nat)
    ensures CellsUpTo(roi, n, roi.width) == CellsUpTo(roi, n + 1, 0)
  {
    var row := RowCells(roi, roi.y + n);
    assert row[..roi.width] == row;
  }

  /** The step along a row of the loop-shaped sweep is a step of the sweep over the visited cells. */
  lemma SweptUpToNextCell(ctx: AreaContext, roi: Roi, n: nat, j: nat)
    requires ContextOk(ctx) && RoiInGrid(ctx.view, roi)
    requires n < roi.height && j < roi.width
    requires forall c :: c in CellsUpTo(roi, n, j) ==> CellReadable(ctx.view, c)
    requires SweptUpTo(ctx, roi, n, j) == SweepCells(ctx, InitialSweep, CellsUpTo(roi, n, j))
    ensures forall c :: c in CellsUpTo(roi, n, j + 1) ==> CellReadable(ctx.view, c)
    ensures SweptUpTo(ctx, roi, n, j + 1) == SweepCells(ctx, InitialSweep, CellsUpTo(roi, n, j + 1))
  {
    var c := Cell(roi.x + j, roi.y + n);
    var before := CellsUpTo(roi, n, j);
    CellsUpToNextCell(roi, n, j);
    CellInRoiReadable(ctx.view, roi, c);
    SweepStep(ctx, InitialSweep, before, c);
    var prev := SweptUpTo(ctx, roi, n, j);
    assert SweptUpTo(ctx, roi, n, j + 1) == Visit(ctx, prev, c);
  }

  /** The loop-shaped sweep is the sweep over the cells visited so far, in order. */
  lemma {:induction false} SweptUpToIsSweepCells(ctx: AreaContext, roi: Roi, n: nat, j: nat)
    requires ContextOk(ctx) && RoiInGrid(ctx.view, roi)
    requires n <= roi.height && j <= roi.width && (n == roi.height ==> j == 0)
    ensures forall c :: c in CellsUpTo(roi, n, j) ==> CellReadable(ctx.view, c)
    ensures SweptUpTo(ctx, roi, n, j) == SweepCells(ctx, InitialSweep, CellsUpTo(roi, n, j))
    decreases n, j
  {
    CellsUpToInRoi(roi, n, j);
    RoiCellsReadable(ctx.view, roi);
    if j > 0 {
      SweptUpToIsSweepCells(ctx, roi, n, j - 1);
      SweptUpToNextCell(ctx, roi, n, j - 1);
    } else if n > 0 {
      SweptUpToIsSweepCells(ctx, roi, n - 1, roi.width);
      CellsUpToNextRow(roi, n - 1);
    }
  }

  /** After the last row the sweep has visited every cell of the region. */
  lemma SweptUpToAll(ctx: AreaContext, roi: Roi)
    requires ContextOk(ctx) && RoiInGrid(ctx.view, roi)
    ensures forall c :: c in RoiCells(roi) ==> CellReadable(ctx.view, c)
    ensures SweptUpTo(ctx, roi, roi.height, 0) == SweepCells(ctx, InitialSweep, RoiCells(roi))
  {
    SweptUpToIsSweepCells(ctx, roi, roi.height, 0);
    assert CellsUpTo(roi, roi.height, 0) == RoiCells(roi);
  }

  // ---------------------------------------------------------------------------
  // The mesh, the garment, the weight table and the tracker
  // ---------------------------------------------------------------------------

  /** An RGBA colour. */
  datatype Color = Color(r: nat, g: nat, b: nat, a: nat)

  /** The garment mesh: vertex positions and one colour per vertex. */
  class Mesh {
    var vertices: seq<Point>
    var colors: seq<Color>

    ghost predicate Valid()
      reads this
    {
      |colors| == |vertices|
    }

    constructor (vertices: seq<Point>, colors: seq<Color>)
      requires |colors| == |vertices|
      ensures Valid()
      ensures this.vertices == vertices && this.colors == colors
    {
      this.vertices := vertices;
      this.colors := colors;
    }

    /** Recolours one vertex. */
    method SetColor(index: nat, color: Color)
      requires index < |colors|
      modifies this
      ensures colors == old(colors)[index := color]
      ensures vertices == old(vertices)
    {
      colors := colors[index := color];
    }
  }

  /** The parameterised garment surface: its mesh and the grid view onto it. */
  class Garment {
    const mesh: Mesh
    var view: seq<seq<int>>

    constructor (mesh: Mesh, view: seq<seq<int>>)
      ensures this.mesh == mesh && this.view == view
    {
      this.mesh := mesh;
      this.view := view;
    }
  }

  /** The weight table shared by all trackers; it starts out empty. */
  class GaussianTable {
    var values: seq<real>

    constructor ()
      ensures values == []
    {
      values := [];
    }

    /**
     * Resizes an empty table to 100 zero entries, then overwrites every entry i with the
     * Gaussian density for sigma (density(sigma, x) stands for the normal density at x)
     * at SamplePosition(i); a non-empty table keeps its size.
     */
    method ComputeGaussianDist(sigma: real, density: (real, real) -> real)
      modifies this
      ensures |values| == if old(|values|) == 0 then TableSize else old(|values|)
      ensures forall i :: 0 <= i < |values| ==> values[i] == density(sigma, SamplePosition(i))
    {
      if |values| == 0 {
        values := seq(TableSize, _ => 0.0);
      }
      var i := 0;
      while i < |values|
        invariant 0 <= i <= |values|
        invariant |values| == if old(|values|) == 0 then TableSize else old(|values|)
        invariant forall k :: 0 <= k < i ==> values[k] == density(sigma, SamplePosition(k))
      {
        var posI := (3 * i) as real / 99.0;
        values := values[i := density(sigma, posI)];
        i := i + 1;
      }
    }
  }

  /**
   * The cross lengths of the region's two corner triangles added up:
   * |(TL - BL) x (TR - BL)| + |(BL - TR) x (BR - TR)|, twice the corner quadrilateral's
   * area on a flat region.
   */
  function CornerCross(view: seq<seq<int>>, vertices: seq<Point>, roi: Roi, geo: Geometry): real
    requires WellFormedView(view, |vertices|)
    requires forall c :: c in Corners(roi) ==> InGrid(view, c) && At(view, c) != Hole
  {
    assert TopLeft(roi) in Corners(roi) && BottomLeft(roi) in Corners(roi);
    assert TopRight(roi) in Corners(roi) && BottomRight(roi) in Corners(roi);
    var topLeft := vertices[At(view, TopLeft(roi))];
    var bottomLeft := vertices[At(view, BottomLeft(roi))];
    var topRight := vertices[At(view, TopRight(roi))];
    var bottomRight := vertices[At(view, BottomRight(roi))];
    geo.crossLength(Sub(topLeft, bottomLeft), Sub(topRight, bottomLeft)) +
    geo.crossLength(Sub(bottomLeft, topRight), Sub(bottomRight, topRight))
  }

  /**
   * The fixed data of an area computation: the unfolded area per triangle from the
   * region's four corners, (|(TL - BL) x (TR - BL)| + |(BL - TR) x (BR - TR)|) divided by
   * 4 (width - 1)(height - 1); the mean of its top and bottom edges as the horizontal
   * axis; and the mean of the four corners as its middle.
   */
  function AreaContextOf(view: seq<seq<int>>, vertices: seq<Point>, table: seq<real>,
                         roi: Roi, geo: Geometry): (ctx: AreaContext)
    requires WellFormedView(view, |vertices|)
    requires roi.width >= 2 && roi.height >= 2
    requires forall c :: c in Corners(roi) ==> InGrid(view, c) && At(view, c) != Hole
    ensures ctx.view == view && ctx.vertices == vertices && ctx.table == table && ctx.geo == geo
  {
    assert TopLeft(roi) in Corners(roi) && BottomLeft(roi) in Corners(roi);
    assert TopRight(roi) in Corners(roi) && BottomRight(roi) in Corners(roi);
    var topLeft := vertices[At(view, TopLeft(roi))];
    var bottomLeft := vertices[At(view, BottomLeft(roi))];
    var topRight := vertices[At(view, TopRight(roi))];
    var bottomRight := vertices[At(view, BottomRight(roi))];
    var horizontal := Div(Add(Sub(topRight, topLeft), Sub(bottomRight, bottomLeft)), 2.0);
    var middle := Div(Add(Add(Add(topRight, topLeft), bottomRight), bottomLeft), 4.0);
    var unfoldedTriangleArea :=
      TriangleShare(CornerCross(view, vertices, roi, geo), (roi.width - 1) as real, (roi.height - 1) as real);
    AreaContext(view, vertices, table, unfoldedTriangleArea, middle, horizontal, geo)
  }

  /** A fold tracker: a region of interest on a garment and its two weighted areas. */
  class Tracker {
    const garment: Garment
    const weights: GaussianTable
    var roi: Roi
    var area: real
    var unfoldedArea: real

    constructor (garment: Garment, weights: GaussianTable, roi: Roi)
      ensures this.garment == garment && this.weights == weights && this.roi == roi
      ensures area == 0.0 && unfoldedArea == 0.0
    {
      this.garment := garment;
      this.weights := weights;
      this.roi := roi;
      area, unfoldedArea := 0.0, 0.0;
    }

    /** The mesh has a colour per vertex and the grid names only holes and vertices. */
    ghost predicate MeshReady()
      reads this, garment, garment.mesh
    {
      garment.mesh.Valid() && WellFormedView(garment.view, |garment.mesh.vertices|)
    }

    /** The middle column and the rows [y, y + height) of the region exist in the grid. */
    ghost predicate MiddleColumnInGrid()
      reads this, garment
    {
      var col := MiddleColumn(roi);
      0 <= col < |garment.view| && 0 <= roi.y && roi.y + roi.height <= |garment.view[col]|
    }

    /** All four corners of the region are vertices rather than holes. */
    function InsideMesh(): (inside: bool)
      reads this, garment
      requires forall c :: c in Corners(roi) ==> InGrid(garment.view, c)
      ensures inside <==> forall c :: c in Corners(roi) ==> At(garment.view, c) != Hole
    {
      var view := garment.view;
      assert InGrid(view, TopLeft(roi)) && InGrid(view, BottomLeft(roi));
      assert InGrid(view, TopRight(roi)) && InGrid(view, BottomRight(roi));
      view[TopLeft(roi).col][TopLeft(roi).row] != -1 &&
      view[BottomLeft(roi).col][BottomLeft(roi).row] != -1 &&
      view[TopRight(roi).col][TopRight(roi).row] != -1 &&
      view[BottomRight(roi).col][BottomRight(roi).row] != -1
    }

    /**
     * The positions of the vertices named by the non-hole cells of the middle column,
     * rows [y, y + height), in row order.
     */
    method GetPoints() returns (res: seq<Point>)
      requires MeshReady() && MiddleColumnInGrid()
      ensures var ids := PresentIds(garment.view[MiddleColumn(roi)], roi.y, roi.y + roi.height);
        (forall k :: 0 <= k < |ids| ==> 0 <= ids[k] < |garment.mesh.vertices|) &&
        res == VerticesAt(garment.mesh.vertices, ids)
    {
      var view := garment.view;
      var vertices := garment.mesh.vertices;
      var col := MiddleColumn(roi);
      res := [];
      var row := roi.y;
      while row < roi.y + roi.height
        invariant roi.y <= row <= roi.y + roi.height
        invariant var ids := PresentIds(view[col], roi.y, row);
          (forall k :: 0 <= k < |ids| ==> 0 <= ids[k] < |vertices|) && res == VerticesAt(vertices, ids)
      {
        PresentIdsAreVertices(view, |vertices|, col, roi.y, row + 1);
        if view[col][row] != -1 {
          res := res + [vertices[view[col][row]]];
        }
        row := row + 1;
      }
    }

    /**
     * Gives the colour to exactly the vertices named by the non-hole cells of the middle
     * column, rows [y, y + height); every other vertex keeps its colour.
     */
    method SetColor(color: Color)
      requires MeshReady() && MiddleColumnInGrid()
      modifies garment.mesh
      ensures MeshReady()
      ensures garment.mesh.vertices == old(garment.mesh.vertices)
      ensures |garment.mesh.colors| == old(|garment.mesh.colors|)
      ensures forall v :: 0 <= v < |garment.mesh.colors| ==>
        garment.mesh.colors[v] ==
          if v in PresentIds(garment.view[MiddleColumn(roi)], roi.y, roi.y + roi.height) then color
          else old(garment.mesh.colors[v])
    {
      var mesh := garment.mesh;
      var view := garment.view;
      var col := MiddleColumn(roi);
      var row := roi.y;
      while row < roi.y + roi.height
        invariant roi.y <= row <= roi.y + roi.height
        invariant mesh.vertices == old(mesh.vertices)
        invariant |mesh.colors| == old(|mesh.colors|)
        invariant forall v :: 0 <= v < |mesh.colors| ==>
          mesh.colors[v] == if v in PresentIds(view[col], roi.y, row) then color else old(mesh.colors[v])
      {
        if view[col][row] != -1 {
          assert 0 <= view[col][row] < |mesh.vertices|;
          mesh.SetColor(view[col][row], color);
        }
        row := row + 1;
      }
    }

    /**
     * Resets both sums, then walks the region's cells row by row, left to right, with the
     * skip cache, adding each counted triangle's unfolded area and measured area, both
     * times the table weight at its centroid's normalised horizontal offset.
     */
    method ComputeAreas(geo: Geometry)
      requires MeshReady() && |weights.values| >= TableSize
      requires roi.width >= 2 && roi.height >= 2 && RoiInGrid(garment.view, roi)
      requires forall c :: c in Corners(roi) ==> InGrid(garment.view, c)
      requires InsideMesh()
      modifies this`area, this`unfoldedArea
      ensures var ctx := AreaContextOf(garment.view, garment.mesh.vertices, weights.values, roi, geo);
        (forall c :: c in RoiCells(roi) ==> CellReadable(garment.view, c)) &&
        var st := SweepCells(ctx, InitialSweep, RoiCells(roi));
        area == st.area && unfoldedArea == st.unfoldedArea
    {
      area := 0.0;
      unfoldedArea := 0.0;
      var view := garment.view;
      var mesh := garment.mesh.vertices;
      // The unfolded area per triangle, horizontal axis and middle from the four corners.
      var ctx := AreaContextOf(view, mesh, weights.values, roi, geo);
      assert ContextOk(ctx) && RoiInGrid(ctx.view, roi);

      SweepRegion(ctx);
    }

    /**
     * The two nested loops of the area computation: rows from top to bottom, and in each
     * row the cells from left to right, carrying the skip cache between cells and rows.
     */
    method SweepRegion(ctx: AreaContext)
      requires ContextOk(ctx) && RoiInGrid(ctx.view, roi)
      requires area == 0.0 && unfoldedArea == 0.0
      modifies this`area, this`unfoldedArea
      ensures (forall c :: c in RoiCells(roi) ==> CellReadable(ctx.view, c)) &&
        var st := SweepCells(ctx, InitialSweep, RoiCells(roi));
        area == st.area && unfoldedArea == st.unfoldedArea
    {
      var region := roi;
      // The source keeps the last A index and the four cached corner positions in locals.
      var sweep := InitialSweep;
      var row := region.y;
      while row < region.y + region.height
        invariant region.y <= row <= region.y + region.height
        invariant sweep == SweptUpTo(ctx, region, row - region.y, 0)
        invariant area == sweep.area && unfoldedArea == sweep.unfoldedArea
      {
        sweep := SweepRow(ctx, region, row, sweep);
        row := row + 1;
      }
      SweptUpToAll(ctx, region);
    }

    /** The body of the inner loop, for the cell at column offset j of row offset n. */
    static method SweepCell(ctx: AreaContext, region: Roi, n: nat, j: nat, sweep: Sweep) returns (sweep': Sweep)
      requires ContextOk(ctx) && RoiInGrid(ctx.view, region)
      requires n < region.height && j < region.width
      requires sweep == SweptUpTo(ctx, region, n, j)
      ensures sweep' == SweptUpTo(ctx, region, n, j + 1)
    {
      CellInRoiReadable(ctx.view, region, Cell(region.x + j, region.y + n));
      sweep' := ProcessCell(ctx, sweep, Cell(region.x + j, region.y + n));
    }

    /** One row of the region, left to right, accumulating into both sums. */
    method SweepRow(ctx: AreaContext, region: Roi, row: int, sweep: Sweep) returns (sweep': Sweep)
      requires ContextOk(ctx) && RoiInGrid(ctx.view, region)
      requires region.y <= row < region.y + region.height
      requires sweep == SweptUpTo(ctx, region, row - region.y, 0)
      requires area == sweep.area && unfoldedArea == sweep.unfoldedArea
      modifies this`area, this`unfoldedArea
      ensures sweep' == SweptUpTo(ctx, region, row - region.y + 1, 0)
      ensures area == sweep'.area && unfoldedArea == sweep'.unfoldedArea
    {
      sweep' := sweep;
      var col := region.x;
      while col < region.x + region.width
        invariant region.x <= col <= region.x + region.width
        invariant sweep' == SweptUpTo(ctx, region, row - region.y, col - region.x)
        invariant area == sweep'.area && unfoldedArea == sweep'.unfoldedArea
      {
        sweep' := SweepCell(ctx, region, row - region.y, col - region.x, sweep');
        area, unfoldedArea := sweep'.area, sweep'.unfoldedArea;
        col := col + 1;
      }
      assert sweep' == SweptUpTo(ctx, region, row - region.y, region.width);
    }
  }
}
