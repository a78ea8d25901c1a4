/**
 Overlap of two lists of page boxes. The program compresses coordinates: it
 cuts the plane along every box edge, tests the midpoint of each cell and adds
 up cell areas. The reference is the area of a union of boxes by
 inclusion-exclusion; the two agree for any boxes with real coordinates, on any
 grid that contains their edges, and for integer boxes both count unit cells.
 */
module BoxIou {
  import opened Options
  import opened Counting

  datatype Box = Box(x0: real, y0: real, x1: real, y1: real)

  /** What a stored box must satisfy, apart from being finite. */
  predicate ValidBox(b: Box) {
    b.x1 > b.x0 && b.y1 > b.y0
  }

  // ---------------------------------------------------------------- coordinate compression

  function InsertPoint(points: seq<real>, p: real): seq<real> {
    if points == [] || p < points[0] then [p] + points
    else if p == points[0] then points
    else [points[0]] + InsertPoint(points[1..], p)
  }

  function InsertXs(points: seq<real>, boxes: seq<Box>): seq<real>
    decreases |boxes|
  {
    if boxes == [] then points else InsertXs(InsertPoint(InsertPoint(points, boxes[0].x0), boxes[0].x1), boxes[1..])
  }

  function InsertYs(points: seq<real>, boxes: seq<Box>): seq<real>
    decreases |boxes|
  {
    if boxes == [] then points else InsertYs(InsertPoint(InsertPoint(points, boxes[0].y0), boxes[0].y1), boxes[1..])
  }

  predicate InBox(b: Box, x: real, y: real) {
    b.x0 <= x < b.x1 && b.y0 <= y < b.y1
  }

  predicate Inside(boxes: seq<Box>, x: real, y: real) {
    exists i | 0 <= i < |boxes| :: InBox(boxes[i], x, y)
  }

  type Region = (real, real) -> bool

  function Covered(boxes: seq<Box>): Region {
    (x, y) => Inside(boxes, x, y)
  }

  function Both(expected: seq<Box>, actual: seq<Box>): Region {
    (x, y) => Inside(expected, x, y) && Inside(actual, x, y)
  }

  function Either(expected: seq<Box>, actual: seq<Box>): Region {
    (x, y) => Inside(expected, x, y) || Inside(actual, x, y)
  }

  function Mid(lo: real, hi: real): real {
    (lo + hi) / 2.0
  }

  /** The cells of one column: those whose midpoint lies in the region. */
  function ColumnArea(width: real, x: real, ys: seq<real>, region: Region): real {
    if |ys| < 2 then 0.0
    else
      (if region(x, Mid(ys[0], ys[1])) then width * (ys[1] - ys[0]) else 0.0) + ColumnArea(width, x, ys[1..], region)
  }

  function GridArea(xs: seq<real>, ys: seq<real>, region: Region): real {
    if |xs| < 2 then 0.0
    else ColumnArea(xs[1] - xs[0], Mid(xs[0], xs[1]), ys, region) + GridArea(xs[1..], ys, region)
  }

  function Xs(expected: seq<Box>, actual: seq<Box>): seq<real> {
    InsertXs(InsertXs([], expected), actual)
  }

  function Ys(expected: seq<Box>, actual: seq<Box>): seq<real> {
    InsertYs(InsertYs([], expected), actual)
  }

  function Intersection(expected: seq<Box>, actual: seq<Box>): real {
    GridArea(Xs(expected, actual), Ys(expected, actual), Both(expected, actual))
  }

  function UnionArea(expected: seq<Box>, actual: seq<Box>): real {
    GridArea(Xs(expected, actual), Ys(expected, actual), Either(expected, actual))
  }

  /** rag_evaluation_bbox_iou. */
  function Iou(expected: seq<Box>, actual: seq<Box>): Option<real> {
    var either := UnionArea(expected, actual);
    if either == 0.0 then None else Some(Intersection(expected, actual) / either)
  }

  // ---------------------------------------------------------------- the plain definition

  function Max(a: real, b: real): real { if a > b then a else b }
  function Min(a: real, b: real): real { if a < b then a else b }

  function Clip(a: Box, b: Box): Box {
    Box(Max(a.x0, b.x0), Max(a.y0, b.y0), Min(a.x1, b.x1), Min(a.y1, b.y1))
  }

  function ClipAll(boxes: seq<Box>, b: Box): (r: seq<Box>)
    ensures |r| == |boxes|
  {
    if boxes == [] then [] else [Clip(boxes[0], b)] + ClipAll(boxes[1..], b)
  }

  function BoxArea(b: Box): real {
    if ValidBox(b) then (b.x1 - b.x0) * (b.y1 - b.y0) else 0.0
  }

  /** The area of the union of a list of boxes, by inclusion-exclusion on its first box. */
  function Area(boxes: seq<Box>): real
    decreases |boxes|
  {
    if boxes == [] then 0.0
    else BoxArea(boxes[0]) + Area(boxes[1..]) - Area(ClipAll(boxes[1..], boxes[0]))
  }

  /** The boxes that make up the intersection of two covered regions. */
  function Overlaps(expected: seq<Box>, actual: seq<Box>): seq<Box> {
    if expected == [] then [] else ClipAll(actual, expected[0]) + Overlaps(expected[1..], actual)
  }

  // ---------------------------------------------------------------- points

  ghost predicate Increasing(points: seq<real>) {
    forall i, j | 0 <= i < j < |points| :: points[i] < points[j]
  }

  lemma {:induction false} InsertPointKeepsOrder(points: seq<real>, p: real)
    requires Increasing(points)
    ensures Increasing(InsertPoint(points, p))
    ensures forall q :: q in InsertPoint(points, p) <==> q in points || q == p
  {
    if points != [] && p > points[0] {
      InsertPointKeepsOrder(points[1..], p);
      var rest := InsertPoint(points[1..], p);
      assert points == [points[0]] + points[1..];
      forall j | 0 <= j < |rest|
        ensures points[0] < rest[j]
      {
        assert rest[j] in rest;
      }
    }
  }

  ghost predicate XsIn(boxes: seq<Box>, xs: seq<real>) {
    forall i | 0 <= i < |boxes| :: boxes[i].x0 in xs && boxes[i].x1 in xs
  }

  ghost predicate YsIn(boxes: seq<Box>, ys: seq<real>) {
    forall i | 0 <= i < |boxes| :: boxes[i].y0 in ys && boxes[i].y1 in ys
  }

  lemma {:induction false} InsertXsKeepsOrder(points: seq<real>, boxes: seq<Box>)
    requires Increasing(points)
    ensures Increasing(InsertXs(points, boxes)) && XsIn(boxes, InsertXs(points, boxes))
    ensures forall q | q in points :: q in InsertXs(points, boxes)
    decreases |boxes|
  {
    if boxes != [] {
      InsertPointKeepsOrder(points, boxes[0].x0);
      InsertPointKeepsOrder(InsertPoint(points, boxes[0].x0), boxes[0].x1);
      InsertXsKeepsOrder(InsertPoint(InsertPoint(points, boxes[0].x0), boxes[0].x1), boxes[1..]);
      assert forall i | 1 <= i < |boxes| :: boxes[i] == boxes[1..][i - 1];
    }
  }

  lemma {:induction false} InsertYsKeepsOrder(points: seq<real>, boxes: seq<Box>)
    requires Increasing(points)
    ensures Increasing(InsertYs(points, boxes)) && YsIn(boxes, InsertYs(points, boxes))
    ensures forall q | q in points :: q in InsertYs(points, boxes)
    decreases |boxes|
  {
    if boxes != [] {
      InsertPointKeepsOrder(points, boxes[0].y0);
      InsertPointKeepsOrder(InsertPoint(points, boxes[0].y0), boxes[0].y1);
      InsertYsKeepsOrder(InsertPoint(InsertPoint(points, boxes[0].y0), boxes[0].y1), boxes[1..]);
      assert forall i | 1 <= i < |boxes| :: boxes[i] == boxes[1..][i - 1];
    }
  }

  /** A grid that contains every edge of the boxes. */
  ghost predicate GridFor(boxes: seq<Box>, xs: seq<real>, ys: seq<real>) {
    Increasing(xs) && Increasing(ys) && XsIn(boxes, xs) && YsIn(boxes, ys)
  }

  lemma {:induction false} CompressionIsGrid(expected: seq<Box>, actual: seq<Box>)
    ensures GridFor(expected, Xs(expected, actual), Ys(expected, actual))
    ensures GridFor(actual, Xs(expected, actual), Ys(expected, actual))
  {
    InsertXsKeepsOrder([], expected);
    InsertYsKeepsOrder([], expected);
    InsertXsKeepsOrder(InsertXs([], expected), actual);
    InsertYsKeepsOrder(InsertYs([], expected), actual);
  }

  // ---------------------------------------------------------------- one box on a grid

  /** The summed lengths of the segments whose midpoint lies in [lo, hi). */
  function Length(points: seq<real>, lo: real, hi: real): real {
    if |points| < 2 then 0.0
    else (if lo <= Mid(points[0], points[1]) < hi then points[1] - points[0] else 0.0) + Length(points[1..], lo, hi)
  }

  lemma {:induction false} LengthBeyond(points: seq<real>, lo: real, hi: real)
    requires Increasing(points)
    requires hi <= lo || (points != [] ==> hi <= points[0])
    ensures Length(points, lo, hi) == 0.0
  {
    if |points| >= 2 {
      LengthBeyond(points[1..], lo, hi);
    }
  }

  lemma {:induction false} LengthFrom(points: seq<real>, lo: real, hi: real)
    requires Increasing(points) && hi in points && lo <= hi
    requires lo in points || lo <= points[0]
    ensures Length(points, lo, hi) == hi - Max(lo, points[0])
  {
    if |points| >= 2 {
      assert points == [points[0]] + points[1..];
      if hi == points[0] {
        LengthBeyond(points[1..], lo, hi);
      } else {
        LengthFrom(points[1..], lo, hi);
      }
    }
  }

  lemma {:induction false} LengthIsExtent(points: seq<real>, lo: real, hi: real)
    requires Increasing(points) && lo in points && hi in points
    ensures Length(points, lo, hi) == if lo < hi then hi - lo else 0.0
  {
    if lo < hi {
      LengthFrom(points, lo, hi);
    } else {
      LengthBeyond(points, lo, hi);
    }
  }

  lemma {:induction false} BoxColumn(width: real, x: real, ys: seq<real>, region: Region, b: Box)
    requires forall u, v :: region(u, v) == InBox(b, u, v)
    ensures ColumnArea(width, x, ys, region) == if b.x0 <= x < b.x1 then width * Length(ys, b.y0, b.y1) else 0.0
  {
    if |ys| >= 2 {
      BoxColumn(width, x, ys[1..], region, b);
    }
  }

  /** Like Length, each segment weighted by the same height. */
  function Stacked(points: seq<real>, lo: real, hi: real, height: real): real {
    if |points| < 2 then 0.0
    else
      (if lo <= Mid(points[0], points[1]) < hi then (points[1] - points[0]) * height else 0.0)
      + Stacked(points[1..], lo, hi, height)
  }

  function Extent(lo: real, hi: real, height: real): real {
    if lo < hi then (hi - lo) * height else 0.0
  }

  lemma {:induction false} StackedIsProduct(points: seq<real>, lo: real, hi: real, height: real)
    ensures Stacked(points, lo, hi, height) == Length(points, lo, hi) * height
  {
    if |points| >= 2 {
      StackedIsProduct(points[1..], lo, hi, height);
      Distribute(points[1] - points[0], Length(points[1..], lo, hi), height);
    }
  }

  lemma Distribute(a: real, b: real, c: real)
    ensures (a + b) * c == a * c + b * c
  {
  }

  lemma {:induction false} BoxGrid(xs: seq<real>, ys: seq<real>, region: Region, b: Box, height: real)
    requires forall w, x :: ColumnArea(w, x, ys, region) == if b.x0 <= x < b.x1 then w * height else 0.0
    ensures GridArea(xs, ys, region) == Stacked(xs, b.x0, b.x1, height)
  {
    if |xs| >= 2 {
      BoxGrid(xs[1..], ys, region, b, height);
    }
  }

  /** On a grid that contains its edges one box weighs its width times its height. */
  lemma {:induction false} SingleBox(xs: seq<real>, ys: seq<real>, region: Region, b: Box)
    requires forall u, v :: region(u, v) == InBox(b, u, v)
    requires Increasing(xs) && Increasing(ys)
    requires b.x0 in xs && b.x1 in xs && b.y0 in ys && b.y1 in ys
    ensures GridArea(xs, ys, region) == BoxArea(b)
  {
    var height := if b.y0 < b.y1 then b.y1 - b.y0 else 0.0;
    GridIsStacked(xs, ys, region, b, height);
    StackedIsExtent(xs, b.x0, b.x1, height);
    ExtentIsArea(b, height);
  }

  lemma {:induction false} GridIsStacked(xs: seq<real>, ys: seq<real>, region: Region, b: Box, height: real)
    requires forall u, v :: region(u, v) == InBox(b, u, v)
    requires Increasing(ys) && b.y0 in ys && b.y1 in ys
    requires height == if b.y0 < b.y1 then b.y1 - b.y0 else 0.0
    ensures GridArea(xs, ys, region) == Stacked(xs, b.x0, b.x1, height)
  {
    BoxColumns(ys, region, b, height);
    BoxGrid(xs, ys, region, b, height);
  }

  lemma ExtentIsArea(b: Box, height: real)
    requires height == if b.y0 < b.y1 then b.y1 - b.y0 else 0.0
    ensures BoxArea(b) == Extent(b.x0, b.x1, height)
  {
    if b.y0 < b.y1 {
      assert height == b.y1 - b.y0;
    } else {
      assert height == 0.0;
    }
  }

  lemma {:induction false} BoxColumns(ys: seq<real>, region: Region, b: Box, height: real)
    requires forall u, v :: region(u, v) == InBox(b, u, v)
    requires Increasing(ys) && b.y0 in ys && b.y1 in ys
    requires height == if b.y0 < b.y1 then b.y1 - b.y0 else 0.0
    ensures forall w, x :: ColumnArea(w, x, ys, region) == if b.x0 <= x < b.x1 then w * height else 0.0
  {
    LengthIsExtent(ys, b.y0, b.y1);
    forall w, x
      ensures ColumnArea(w, x, ys, region) == if b.x0 <= x < b.x1 then w * height else 0.0
    {
      BoxColumn(w, x, ys, region, b);
    }
  }

  lemma {:induction false} StackedIsExtent(points: seq<real>, lo: real, hi: real, height: real)
    requires Increasing(points) && lo in points && hi in points
    ensures Stacked(points, lo, hi, height) == Extent(lo, hi, height)
  {
    StackedIsProduct(points, lo, hi, height);
    LengthIsExtent(points, lo, hi);
  }

  // ---------------------------------------------------------------- regions on a grid

  ghost predicate Within(a: Region, b: Region) {
    forall x, y :: a(x, y) ==> b(x, y)
  }

  lemma {:induction false} ColumnMonotone(width: real, x: real, ys: seq<real>, a: Region, b: Region)
    requires width >= 0.0 && Increasing(ys) && Within(a, b)
    ensures 0.0 <= ColumnArea(width, x, ys, a) <= ColumnArea(width, x, ys, b)
  {
    if |ys| >= 2 {
      ColumnMonotone(width, x, ys[1..], a, b);
      ProductNonNegative(width, ys[1] - ys[0]);
    }
  }

  lemma ProductNonNegative(a: real, b: real)
    requires a >= 0.0 && b >= 0.0
    ensures a * b >= 0.0
  {
  }

  lemma {:induction false} GridMonotone(xs: seq<real>, ys: seq<real>, a: Region, b: Region)
    requires Increasing(xs) && Increasing(ys) && Within(a, b)
    ensures 0.0 <= GridArea(xs, ys, a) <= GridArea(xs, ys, b)
  {
    if |xs| >= 2 {
      GridMonotone(xs[1..], ys, a, b);
      ColumnMonotone(xs[1] - xs[0], Mid(xs[0], xs[1]), ys, a, b);
    }
  }

  /** Area is additive: union and intersection together weigh as much as the two regions. */
  ghost predicate Lattice(a: Region, b: Region, union: Region, common: Region) {
    forall x, y :: union(x, y) == (a(x, y) || b(x, y)) && common(x, y) == (a(x, y) && b(x, y))
  }

  lemma {:induction false} ColumnAdditive(
    width: real, x: real, ys: seq<real>, a: Region, b: Region, union: Region, common: Region)
    requires Lattice(a, b, union, common)
    ensures ColumnArea(width, x, ys, union) + ColumnArea(width, x, ys, common)
            == ColumnArea(width, x, ys, a) + ColumnArea(width, x, ys, b)
  {
    if |ys| >= 2 {
      ColumnAdditive(width, x, ys[1..], a, b, union, common);
      assert union(x, Mid(ys[0], ys[1])) == (a(x, Mid(ys[0], ys[1])) || b(x, Mid(ys[0], ys[1])));
    }
  }

  lemma {:induction false} GridAdditive(xs: seq<real>, ys: seq<real>, a: Region, b: Region, union: Region, common: Region)
    requires Lattice(a, b, union, common)
    ensures GridArea(xs, ys, union) + GridArea(xs, ys, common) == GridArea(xs, ys, a) + GridArea(xs, ys, b)
  {
    if |xs| >= 2 {
      GridAdditive(xs[1..], ys, a, b, union, common);
      ColumnAdditive(xs[1] - xs[0], Mid(xs[0], xs[1]), ys, a, b, union, common);
    }
  }

  lemma {:induction false} ClipAllCovers(boxes: seq<Box>, b: Box, x: real, y: real)
    ensures Inside(ClipAll(boxes, b), x, y) <==> Inside(boxes, x, y) && InBox(b, x, y)
  {
    if boxes != [] {
      ClipAllCovers(boxes[1..], b, x, y);
      InsideFirst(boxes, x, y);
      var clipped := ClipAll(boxes, b);
      InsideFirst(clipped, x, y);
      assert clipped[1..] == ClipAll(boxes[1..], b);
    }
  }

  lemma InsideFirst(boxes: seq<Box>, x: real, y: real)
    requires boxes != []
    ensures Inside(boxes, x, y) <==> InBox(boxes[0], x, y) || Inside(boxes[1..], x, y)
  {
    if Inside(boxes, x, y) && !InBox(boxes[0], x, y) {
      var i :| 0 <= i < |boxes| && InBox(boxes[i], x, y);
      assert boxes[1..][i - 1] == boxes[i];
    }
    if Inside(boxes[1..], x, y) {
      var i :| 0 <= i < |boxes[1..]| && InBox(boxes[1..][i], x, y);
      assert boxes[i + 1] == boxes[1..][i];
    }
  }

  lemma {:induction false} ClipAllAt(boxes: seq<Box>, b: Box, i: nat)
    requires i < |boxes|
    ensures ClipAll(boxes, b)[i] == Clip(boxes[i], b)
  {
    if i > 0 { ClipAllAt(boxes[1..], b, i - 1); }
  }

  lemma {:induction false} ClipAllOnGrid(boxes: seq<Box>, b: Box, xs: seq<real>, ys: seq<real>)
    requires GridFor(boxes, xs, ys)
    requires b.x0 in xs && b.x1 in xs && b.y0 in ys && b.y1 in ys
    ensures GridFor(ClipAll(boxes, b), xs, ys)
  {
    forall i | 0 <= i < |boxes|
      ensures ClipAll(boxes, b)[i] == Clip(boxes[i], b)
    {
      ClipAllAt(boxes, b, i);
    }
  }

  /** On every grid that contains the edges, the cells inside a list of boxes weigh as much as their union. */
  lemma {:induction false} GridIsArea(boxes: seq<Box>, xs: seq<real>, ys: seq<real>)
    requires GridFor(boxes, xs, ys)
    ensures GridArea(xs, ys, Covered(boxes)) == Area(boxes)
    decreases |boxes|
  {
    if boxes == [] {
      GridOfNothing(xs, ys, Covered(boxes));
    } else {
      var b, rest := boxes[0], boxes[1..];
      assert forall i | 1 <= i < |boxes| :: boxes[i] == rest[i - 1];
      assert GridFor(rest, xs, ys);
      ClipAllOnGrid(rest, b, xs, ys);
      GridIsArea(rest, xs, ys);
      GridIsArea(ClipAll(rest, b), xs, ys);
      GridFirst(boxes, xs, ys);
    }
  }

  /** Inclusion-exclusion on the first box. */
  lemma {:induction false} GridFirst(boxes: seq<Box>, xs: seq<real>, ys: seq<real>)
    requires boxes != [] && GridFor(boxes, xs, ys)
    ensures GridArea(xs, ys, Covered(boxes)) + GridArea(xs, ys, Covered(ClipAll(boxes[1..], boxes[0])))
            == BoxArea(boxes[0]) + GridArea(xs, ys, Covered(boxes[1..]))
  {
    var b, rest := boxes[0], boxes[1..];
    var single: Region := (x, y) => InBox(b, x, y);
    forall x, y
      ensures Inside(boxes, x, y) == (single(x, y) || Inside(rest, x, y))
      ensures Inside(ClipAll(rest, b), x, y) == (single(x, y) && Inside(rest, x, y))
    {
      InsideFirst(boxes, x, y);
      ClipAllCovers(rest, b, x, y);
    }
    GridAdditive(xs, ys, single, Covered(rest), Covered(boxes), Covered(ClipAll(rest, b)));
    SingleBox(xs, ys, single, b);
  }

  lemma {:induction false} ColumnOfNothing(width: real, x: real, ys: seq<real>, region: Region)
    requires forall u, v :: !region(u, v)
    ensures ColumnArea(width, x, ys, region) == 0.0
  {
    if |ys| >= 2 { ColumnOfNothing(width, x, ys[1..], region); }
  }

  lemma {:induction false} GridOfNothing(xs: seq<real>, ys: seq<real>, region: Region)
    requires forall u, v :: !region(u, v)
    ensures GridArea(xs, ys, region) == 0.0
  {
    if |xs| >= 2 {
      GridOfNothing(xs[1..], ys, region);
      ColumnOfNothing(xs[1] - xs[0], Mid(xs[0], xs[1]), ys, region);
    }
  }

  // ---------------------------------------------------------------- main results

  lemma {:induction false} OverlapsCover(expected: seq<Box>, actual: seq<Box>, x: real, y: real)
    ensures Inside(Overlaps(expected, actual), x, y) <==> Inside(expected, x, y) && Inside(actual, x, y)
  {
    if expected != [] {
      OverlapsCover(expected[1..], actual, x, y);
      InsideFirst(expected, x, y);
      ClipAllCovers(actual, expected[0], x, y);
      InsideConcat(ClipAll(actual, expected[0]), Overlaps(expected[1..], actual), x, y);
    }
  }

  lemma InsideConcat(a: seq<Box>, b: seq<Box>, x: real, y: real)
    ensures Inside(a + b, x, y) <==> Inside(a, x, y) || Inside(b, x, y)
  {
    if Inside(a, x, y) {
      var i :| 0 <= i < |a| && InBox(a[i], x, y);
      assert (a + b)[i] == a[i];
    }
    if Inside(b, x, y) {
      var i :| 0 <= i < |b| && InBox(b[i], x, y);
      assert (a + b)[|a| + i] == b[i];
    }
  }

  lemma {:induction false} OverlapsOnGrid(expected: seq<Box>, actual: seq<Box>, xs: seq<real>, ys: seq<real>)
    requires GridFor(expected, xs, ys) && GridFor(actual, xs, ys)
    ensures GridFor(Overlaps(expected, actual), xs, ys)
  {
    if expected != [] {
      assert forall i | 1 <= i < |expected| :: expected[i] == expected[1..][i - 1];
      assert GridFor(expected[1..], xs, ys);
      OverlapsOnGrid(expected[1..], actual, xs, ys);
      ClipAllOnGrid(actual, expected[0], xs, ys);
    }
  }

  lemma {:induction false} SameRegion(xs: seq<real>, ys: seq<real>, a: Region, b: Region)
    requires Increasing(xs) && Increasing(ys) && Within(a, b) && Within(b, a)
    ensures GridArea(xs, ys, a) == GridArea(xs, ys, b)
  {
    GridMonotone(xs, ys, a, b);
    GridMonotone(xs, ys, b, a);
  }

  /** For any two box lists, overlapping boxes included, and any grid that contains their edges, the cells in both
      lists weigh as much as the intersection of the covered regions and the cells in either as much as the union. */
  lemma {:induction false} AnyGridIsArea(expected: seq<Box>, actual: seq<Box>, xs: seq<real>, ys: seq<real>)
    requires GridFor(expected, xs, ys) && GridFor(actual, xs, ys)
    ensures GridArea(xs, ys, Both(expected, actual)) == Area(Overlaps(expected, actual))
    ensures GridArea(xs, ys, Either(expected, actual)) == Area(expected + actual)
  {
    OverlapsOnGrid(expected, actual, xs, ys);
    GridIsArea(Overlaps(expected, actual), xs, ys);
    GridIsArea(expected + actual, xs, ys);
    forall x, y
      ensures Inside(Overlaps(expected, actual), x, y) == (Inside(expected, x, y) && Inside(actual, x, y))
      ensures Inside(expected + actual, x, y) == (Inside(expected, x, y) || Inside(actual, x, y))
    {
      OverlapsCover(expected, actual, x, y);
      InsideConcat(expected, actual, x, y);
    }
    SameRegion(xs, ys, Both(expected, actual), Covered(Overlaps(expected, actual)));
    SameRegion(xs, ys, Either(expected, actual), Covered(expected + actual));
  }

  /** Coordinate compression with cell midpoints computes the areas of intersection and union. */
  lemma {:induction false} CompressionIsArea(expected: seq<Box>, actual: seq<Box>)
    ensures Intersection(expected, actual) == Area(Overlaps(expected, actual))
    ensures UnionArea(expected, actual) == Area(expected + actual)
  {
    CompressionIsGrid(expected, actual);
    AnyGridIsArea(expected, actual, Xs(expected, actual), Ys(expected, actual));
  }

  /** The overlap is the area of the intersection of the covered regions over the area of their union. */
  lemma {:induction false} IouIsRatio(expected: seq<Box>, actual: seq<Box>)
    ensures var iou := Iou(expected, actual);
            && (iou.Some? <==> Area(expected + actual) != 0.0)
            && (iou.Some? ==> IsRatio(iou.value, Area(Overlaps(expected, actual)), Area(expected + actual)))
  {
    CompressionIsArea(expected, actual);
    IouIsQuotient(expected, actual);
  }

  lemma {:induction false} IouIsQuotient(expected: seq<Box>, actual: seq<Box>)
    ensures var iou, u := Iou(expected, actual), UnionArea(expected, actual);
            && (iou.Some? <==> u != 0.0)
            && (iou.Some? ==> IsRatio(iou.value, Intersection(expected, actual), u))
  {
    if UnionArea(expected, actual) != 0.0 {
      QuotientIsRatio(Intersection(expected, actual), UnionArea(expected, actual));
    }
  }

  /** The overlap, when there is one, is a ratio in [0, 1]. */
  lemma {:induction false} IouBounds(expected: seq<Box>, actual: seq<Box>)
    ensures 0.0 <= Intersection(expected, actual) <= UnionArea(expected, actual)
    ensures Iou(expected, actual).Some? ==> 0.0 <= Iou(expected, actual).value <= 1.0
  {
    var xs, ys := Xs(expected, actual), Ys(expected, actual);
    CompressionIsGrid(expected, actual);
    GridMonotone(xs, ys, Both(expected, actual), Either(expected, actual));
    if UnionArea(expected, actual) > 0.0 {
      RatioFacts(Intersection(expected, actual), UnionArea(expected, actual));
    }
  }

  /** The overlap does not depend on which list is called expected. */
  lemma {:induction false} IouSymmetric(expected: seq<Box>, actual: seq<Box>)
    ensures Iou(expected, actual) == Iou(actual, expected)
  {
    var xs, ys := Xs(expected, actual), Ys(expected, actual);
    CompressionIsGrid(expected, actual);
    AnyGridIsArea(expected, actual, xs, ys);
    AnyGridIsArea(actual, expected, xs, ys);
    CompressionIsArea(expected, actual);
    CompressionIsArea(actual, expected);
    SameRegion(xs, ys, Both(expected, actual), Both(actual, expected));
    SameRegion(xs, ys, Either(expected, actual), Either(actual, expected));
  }

  /** On stored boxes the overlap is null only when both lists are empty. */
  lemma {:induction false} NullOnlyWhenEmpty(expected: seq<Box>, actual: seq<Box>)
    requires forall i | 0 <= i < |expected| :: ValidBox(expected[i])
    requires forall i | 0 <= i < |actual| :: ValidBox(actual[i])
    ensures Iou(expected, actual) == None <==> expected == [] && actual == []
  {
    var xs, ys := Xs(expected, actual), Ys(expected, actual);
    CompressionIsGrid(expected, actual);
    if expected == [] && actual == [] {
      forall x, y
        ensures !Either(expected, actual)(x, y)
      {
        assert !Inside([], x, y);
      }
      GridOfNothing(xs, ys, Either(expected, actual));
    } else {
      var b := if expected != [] then expected[0] else actual[0];
      var single: Region := (x, y) => InBox(b, x, y);
      assert ValidBox(b) && b.x0 in xs && b.x1 in xs && b.y0 in ys && b.y1 in ys;
      forall x, y | single(x, y)
        ensures Either(expected, actual)(x, y)
      {
        assert if expected != [] then InBox(expected[0], x, y) else InBox(actual[0], x, y);
      }
      SingleBox(xs, ys, single, b);
      GridMonotone(xs, ys, single, Either(expected, actual));
      BoxWeighs(b);
    }
  }

  lemma BoxWeighs(b: Box)
    requires ValidBox(b)
    ensures BoxArea(b) > 0.0
  {
    ProductPositive(b.x1 - b.x0, b.y1 - b.y0);
  }

  lemma SumStrict(cell: real, a: real, b: real)
    requires cell > 0.0 && a <= b
    ensures a < cell + b
  {
  }

  lemma ProductPositive(a: real, b: real)
    requires a > 0.0 && b > 0.0
    ensures a * b > 0.0
  {
  }

  /** The segment of a grid axis that holds a coordinate. */
  lemma {:induction false} FindSegment(points: seq<real>, hi: real, x: real) returns (k: nat)
    requires Increasing(points) && hi in points && points[0] <= x < hi
    ensures k + 1 < |points| && points[k] <= x < points[k + 1]
  {
    assert points == [points[0]] + points[1..];
    if x < points[1] {
      k := 0;
    } else {
      k := FindSegment(points[1..], hi, x);
      k := k + 1;
    }
  }

  /** A cell lies inside a list of boxes as a whole or not at all. */
  lemma {:induction false} CellIsUniform(boxes: seq<Box>, xs: seq<real>, ys: seq<real>, i: nat, j: nat, x: real, y: real)
    requires GridFor(boxes, xs, ys) && i + 1 < |xs| && j + 1 < |ys|
    requires xs[i] <= x < xs[i + 1] && ys[j] <= y < ys[j + 1]
    ensures Inside(boxes, x, y) <==> Inside(boxes, Mid(xs[i], xs[i + 1]), Mid(ys[j], ys[j + 1]))
  {
    forall k | 0 <= k < |boxes|
      ensures InBox(boxes[k], x, y) <==> InBox(boxes[k], Mid(xs[i], xs[i + 1]), Mid(ys[j], ys[j + 1]))
    {
      EdgeOutside(xs, i, boxes[k].x0);
      EdgeOutside(xs, i, boxes[k].x1);
      EdgeOutside(ys, j, boxes[k].y0);
      EdgeOutside(ys, j, boxes[k].y1);
    }
  }

  lemma {:induction false} EdgeOutside(points: seq<real>, k: nat, edge: real)
    requires Increasing(points) && k + 1 < |points| && edge in points
    ensures edge <= points[k] || edge >= points[k + 1]
  {
    var e :| 0 <= e < |points| && points[e] == edge;
  }

  lemma {:induction false} FirstCell(width: real, x: real, ys: seq<real>, region: Region)
    requires width > 0.0 && Increasing(ys) && |ys| >= 2
    ensures var rest := ColumnArea(width, x, ys[1..], region);
            if region(x, Mid(ys[0], ys[1])) then ColumnArea(width, x, ys, region) > rest
            else ColumnArea(width, x, ys, region) == rest
  {
    ProductPositive(width, ys[1] - ys[0]);
    SumStrict(width * (ys[1] - ys[0]), ColumnArea(width, x, ys[1..], region), ColumnArea(width, x, ys[1..], region));
  }

  /** Dropping the first cell cannot widen the gap between a region and a larger one. */
  lemma {:induction false} FirstCellGap(width: real, x: real, ys: seq<real>, a: Region, b: Region)
    requires width > 0.0 && Increasing(ys) && |ys| >= 2 && Within(a, b)
    ensures ColumnArea(width, x, ys, b) - ColumnArea(width, x, ys, a)
            >= ColumnArea(width, x, ys[1..], b) - ColumnArea(width, x, ys[1..], a)
    ensures b(x, Mid(ys[0], ys[1])) && !a(x, Mid(ys[0], ys[1])) ==>
              ColumnArea(width, x, ys, b) - ColumnArea(width, x, ys, a)
              > ColumnArea(width, x, ys[1..], b) - ColumnArea(width, x, ys[1..], a)
  {
    assert a(x, Mid(ys[0], ys[1])) ==> b(x, Mid(ys[0], ys[1]));
    FirstCell(width, x, ys, a);
    FirstCell(width, x, ys, b);
  }

  lemma {:induction false} ColumnStrict(width: real, x: real, ys: seq<real>, a: Region, b: Region, j: nat)
    requires width > 0.0 && Increasing(ys) && Within(a, b) && j + 1 < |ys|
    requires b(x, Mid(ys[j], ys[j + 1])) && !a(x, Mid(ys[j], ys[j + 1]))
    ensures ColumnArea(width, x, ys, a) < ColumnArea(width, x, ys, b)
  {
    FirstCellGap(width, x, ys, a, b);
    if j == 0 {
      ColumnMonotone(width, x, ys[1..], a, b);
    } else {
      assert ys[1..][j - 1] == ys[j] && ys[1..][j] == ys[j + 1];
      ColumnStrict(width, x, ys[1..], a, b, j - 1);
    }
  }

  lemma {:induction false} GridStrict(xs: seq<real>, ys: seq<real>, a: Region, b: Region, i: nat, j: nat)
    requires Increasing(xs) && Increasing(ys) && Within(a, b) && i + 1 < |xs| && j + 1 < |ys|
    requires b(Mid(xs[i], xs[i + 1]), Mid(ys[j], ys[j + 1])) && !a(Mid(xs[i], xs[i + 1]), Mid(ys[j], ys[j + 1]))
    ensures GridArea(xs, ys, a) < GridArea(xs, ys, b)
  {
    GridMonotone(xs[1..], ys, a, b);
    if i == 0 {
      ColumnStrict(xs[1] - xs[0], Mid(xs[0], xs[1]), ys, a, b, j);
    } else {
      ColumnMonotone(xs[1] - xs[0], Mid(xs[0], xs[1]), ys, a, b);
      assert xs[1..][i - 1] == xs[i] && xs[1..][i] == xs[i + 1];
      GridStrict(xs[1..], ys, a, b, i - 1, j);
    }
  }

  /** The cell of a grid that holds a point inside a box. */
  lemma {:induction false} CellOf(boxes: seq<Box>, xs: seq<real>, ys: seq<real>, x: real, y: real) returns (i: nat, j: nat)
    requires GridFor(boxes, xs, ys) && Inside(boxes, x, y)
    ensures i + 1 < |xs| && xs[i] <= x < xs[i + 1]
    ensures j + 1 < |ys| && ys[j] <= y < ys[j + 1]
  {
    var k :| 0 <= k < |boxes| && InBox(boxes[k], x, y);
    FirstIsLeast(xs, boxes[k].x0);
    FirstIsLeast(ys, boxes[k].y0);
    i := FindSegment(xs, boxes[k].x1, x);
    j := FindSegment(ys, boxes[k].y1, y);
  }

  /** A cell of the compressed grid whose midpoint is in just those lists that cover the point. */
  lemma {:induction false} CellLike(expected: seq<Box>, actual: seq<Box>, xs: seq<real>, ys: seq<real>, x: real, y: real)
    returns (i: nat, j: nat)
    requires GridFor(expected, xs, ys) && GridFor(actual, xs, ys)
    requires Inside(expected, x, y) || Inside(actual, x, y)
    ensures i + 1 < |xs| && j + 1 < |ys|
    ensures var u, v := Mid(xs[i], xs[i + 1]), Mid(ys[j], ys[j + 1]);
            && (Inside(expected, u, v) <==> Inside(expected, x, y))
            && (Inside(actual, u, v) <==> Inside(actual, x, y))
  {
    i, j := CellOf(if Inside(expected, x, y) then expected else actual, xs, ys, x, y);
    CellIsUniform(expected, xs, ys, i, j, x, y);
    CellIsUniform(actual, xs, ys, i, j, x, y);
  }

  /** A point covered by one list only makes the intersection strictly smaller than the union. */
  lemma {:induction false} OneSidedPoint(expected: seq<Box>, actual: seq<Box>, x: real, y: real)
    requires Inside(expected, x, y) != Inside(actual, x, y)
    ensures Intersection(expected, actual) < UnionArea(expected, actual)
  {
    var xs, ys := Xs(expected, actual), Ys(expected, actual);
    CompressionIsGrid(expected, actual);
    var i, j := CellLike(expected, actual, xs, ys, x, y);
    GridStrict(xs, ys, Both(expected, actual), Either(expected, actual), i, j);
  }

  /** A point covered by both lists makes the intersection positive. */
  lemma {:induction false} CommonPoint(expected: seq<Box>, actual: seq<Box>, x: real, y: real)
    requires Inside(expected, x, y) && Inside(actual, x, y)
    ensures Intersection(expected, actual) > 0.0
  {
    var xs, ys := Xs(expected, actual), Ys(expected, actual);
    CompressionIsGrid(expected, actual);
    var i, j := CellLike(expected, actual, xs, ys, x, y);
    GridOfNothing(xs, ys, NOWHERE);
    GridStrict(xs, ys, NOWHERE, Both(expected, actual), i, j);
  }

  const NOWHERE: Region := (x, y) => false

  lemma FirstIsLeast(points: seq<real>, p: real)
    requires Increasing(points) && p in points
    ensures points[0] <= p
  {
    var k :| 0 <= k < |points| && points[k] == p;
  }

  /** The overlap is 1 exactly when the two lists cover the same, non-empty, region. */
  lemma {:induction false} OneOnlyForEqualCoverage(expected: seq<Box>, actual: seq<Box>)
    requires Iou(expected, actual).Some?
    ensures Iou(expected, actual) == Some(1.0) <==>
              forall x, y :: Inside(expected, x, y) <==> Inside(actual, x, y)
  {
    IouBounds(expected, actual);
    var i, u := Intersection(expected, actual), UnionArea(expected, actual);
    RatioFacts(i, u);
    if forall x, y :: Inside(expected, x, y) <==> Inside(actual, x, y) {
      CompressionIsGrid(expected, actual);
      SameRegion(Xs(expected, actual), Ys(expected, actual), Both(expected, actual), Either(expected, actual));
    } else {
      var x, y :| Inside(expected, x, y) != Inside(actual, x, y);
      OneSidedPoint(expected, actual, x, y);
    }
  }

  /** The overlap is 0 exactly when no point is covered by both lists. */
  lemma {:induction false} ZeroOnlyForDisjointCoverage(expected: seq<Box>, actual: seq<Box>)
    requires Iou(expected, actual).Some?
    ensures Iou(expected, actual) == Some(0.0) <==>
              forall x, y :: !(Inside(expected, x, y) && Inside(actual, x, y))
  {
    IouBounds(expected, actual);
    var i, u := Intersection(expected, actual), UnionArea(expected, actual);
    RatioFacts(i, u);
    if forall x, y :: !(Inside(expected, x, y) && Inside(actual, x, y)) {
      CompressionIsGrid(expected, actual);
      GridOfNothing(Xs(expected, actual), Ys(expected, actual), Both(expected, actual));
    } else {
      var x, y :| Inside(expected, x, y) && Inside(actual, x, y);
      CommonPoint(expected, actual, x, y);
    }
  }

  // ---------------------------------------------------------------- integer boxes

  datatype IntBox = IntBox(x0: int, y0: int, x1: int, y1: int)

  function Reals(boxes: seq<IntBox>): (r: seq<Box>)
    ensures |r| == |boxes|
  {
    if boxes == [] then [] else [ToReal(boxes[0])] + Reals(boxes[1..])
  }

  function ToReal(b: IntBox): Box {
    Box(b.x0 as real, b.y0 as real, b.x1 as real, b.y1 as real)
  }

  /** The unit cells of a list of integer boxes. */
  function Cells(boxes: seq<IntBox>): set<(int, int)> {
    if boxes == [] then {} else CellsOf(boxes[0]) + Cells(boxes[1..])
  }

  function CellsOf(b: IntBox): set<(int, int)> {
    Pairs(Range(b.x0, b.x1), Range(b.y0, b.y1))
  }

  function IntClip(a: IntBox, b: IntBox): IntBox {
    IntBox(if a.x0 > b.x0 then a.x0 else b.x0, if a.y0 > b.y0 then a.y0 else b.y0,
           if a.x1 < b.x1 then a.x1 else b.x1, if a.y1 < b.y1 then a.y1 else b.y1)
  }

  function IntClipAll(boxes: seq<IntBox>, b: IntBox): (r: seq<IntBox>)
    ensures |r| == |boxes|
  {
    if boxes == [] then [] else [IntClip(boxes[0], b)] + IntClipAll(boxes[1..], b)
  }

  lemma {:induction false} ClipCells(boxes: seq<IntBox>, b: IntBox)
    ensures Reals(IntClipAll(boxes, b)) == ClipAll(Reals(boxes), ToReal(b))
    ensures Cells(IntClipAll(boxes, b)) == Cells(boxes) * CellsOf(b)
  {
    if boxes != [] {
      ClipCells(boxes[1..], b);
      assert IntClipAll(boxes, b)[1..] == IntClipAll(boxes[1..], b);
      assert CellsOf(IntClip(boxes[0], b)) == CellsOf(boxes[0]) * CellsOf(b);
    }
  }

  lemma CellsOfSize(b: IntBox)
    ensures BoxArea(ToReal(b)) == |CellsOf(b)| as real
  {
    PairsSize(Range(b.x0, b.x1), Range(b.y0, b.y1));
    if b.x0 < b.x1 && b.y0 < b.y1 {
      RangeSize(b.x0, b.x1);
      RangeSize(b.y0, b.y1);
    } else {
      assert CellsOf(b) == {};
    }
  }

  /** The area of integer boxes is the number of unit cells they cover. */
  lemma {:induction false} AreaCountsCells(boxes: seq<IntBox>)
    ensures Area(Reals(boxes)) == |Cells(boxes)| as real
    decreases |boxes|
  {
    if boxes != [] {
      var b, rest := boxes[0], boxes[1..];
      AreaCountsCells(rest);
      AreaCountsCells(IntClipAll(rest, b));
      ClipCells(rest, b);
      CellsOfSize(b);
      assert Reals(boxes)[1..] == Reals(rest);
      UnionSize(CellsOf(b), Cells(rest));
    }
  }

  lemma UnionSize<T>(a: set<T>, b: set<T>)
    ensures |a + b| == |a| + |b| - |b * a|
  {
    assert a + b == a + (b - a);
    assert b == (b - a) + (b * a);
  }

  function IntOverlaps(expected: seq<IntBox>, actual: seq<IntBox>): seq<IntBox> {
    if expected == [] then [] else IntClipAll(actual, expected[0]) + IntOverlaps(expected[1..], actual)
  }

  lemma {:induction false} ConcatCells(a: seq<IntBox>, b: seq<IntBox>)
    ensures Reals(a + b) == Reals(a) + Reals(b) && Cells(a + b) == Cells(a) + Cells(b)
  {
    if a == [] {
      assert a + b == b;
    } else {
      assert (a + b)[1..] == a[1..] + b;
      ConcatCells(a[1..], b);
    }
  }

  lemma {:induction false} OverlapCells(expected: seq<IntBox>, actual: seq<IntBox>)
    ensures Reals(IntOverlaps(expected, actual)) == Overlaps(Reals(expected), Reals(actual))
    ensures Cells(IntOverlaps(expected, actual)) == Cells(expected) * Cells(actual)
  {
    if expected != [] {
      OverlapCells(expected[1..], actual);
      ClipCells(actual, expected[0]);
      ConcatCells(IntClipAll(actual, expected[0]), IntOverlaps(expected[1..], actual));
      assert Reals(expected)[1..] == Reals(expected[1..]);
    }
  }

  /** For integer boxes the compressed cells add up to the number of unit cells in both lists and in either. */
  lemma {:induction false} CompressionCountsUnitCells(expected: seq<IntBox>, actual: seq<IntBox>)
    ensures Intersection(Reals(expected), Reals(actual)) == |Cells(expected) * Cells(actual)| as real
    ensures UnionArea(Reals(expected), Reals(actual)) == |Cells(expected) + Cells(actual)| as real
  {
    CompressionIsArea(Reals(expected), Reals(actual));
    OverlapCells(expected, actual);
    AreaCountsCells(IntOverlaps(expected, actual));
    ConcatCells(expected, actual);
    AreaCountsCells(expected + actual);
  }

  /** For integer boxes the overlap is the number of unit cells in both lists over the number in either. */
  lemma {:induction false} IouCountsUnitCells(expected: seq<IntBox>, actual: seq<IntBox>)
    ensures var e, a, iou := Cells(expected), Cells(actual), Iou(Reals(expected), Reals(actual));
            && (iou.Some? <==> e + a != {})
            && (iou.Some? ==> IsRatio(iou.value, |e * a| as real, |e + a| as real))
  {
    CompressionCountsUnitCells(expected, actual);
    IouIsQuotient(Reals(expected), Reals(actual));
    assert Cells(expected) + Cells(actual) != {} <==> |Cells(expected) + Cells(actual)| != 0;
  }
}
