/**
 Overlap of two lists of character spans: the endpoint sweep computes the
 number of positions covered by both lists and by either list.
 */
module SpanIou {
  import opened Options
  import opened Counting

  datatype Span = Span(start: int, end: int)

  /** What a stored span must satisfy. */
  predicate ValidSpan(s: Span) {
    0 <= s.start < s.end <= 2147483647
  }

  // ---------------------------------------------------------------- the sweep

  /** Adds a point to a sorted list without repeating it (UNION, ORDER BY). */
  function InsertPoint(points: seq<int>, p: int): seq<int> {
    if points == [] || p < points[0] then [p] + points
    else if p == points[0] then points
    else [points[0]] + InsertPoint(points[1..], p)
  }

  function InsertEndpoints(points: seq<int>, spans: seq<Span>): seq<int>
    decreases |spans|
  {
    if spans == [] then points
    else InsertEndpoints(InsertPoint(InsertPoint(points, spans[0].start), spans[0].end), spans[1..])
  }

  /** All endpoints, sorted, each once. */
  function Points(expected: seq<Span>, actual: seq<Span>): seq<int> {
    InsertEndpoints(InsertEndpoints([], expected), actual)
  }

  predicate SegmentIn(spans: seq<Span>, lo: int, hi: int) {
    exists i | 0 <= i < |spans| :: spans[i].start <= lo && spans[i].end >= hi
  }

  /** Total length of the segments between consecutive points that satisfy a filter. */
  function SweepLength(points: seq<int>, filter: (int, int) -> bool): int {
    if |points| < 2 then 0
    else (if filter(points[0], points[1]) then points[1] - points[0] else 0) + SweepLength(points[1..], filter)
  }

  function Intersection(expected: seq<Span>, actual: seq<Span>): int {
    SweepLength(Points(expected, actual), (lo, hi) => SegmentIn(expected, lo, hi) && SegmentIn(actual, lo, hi))
  }

  function UnionLength(expected: seq<Span>, actual: seq<Span>): int {
    SweepLength(Points(expected, actual), (lo, hi) => SegmentIn(expected, lo, hi) || SegmentIn(actual, lo, hi))
  }

  /** rag_evaluation_span_iou. */
  function Iou(expected: seq<Span>, actual: seq<Span>): Option<real> {
    var either := UnionLength(expected, actual);
    if either == 0 then None else Some(Intersection(expected, actual) as real / either as real)
  }

  // ---------------------------------------------------------------- the plain definition

  /** The positions covered by some span. */
  function Positions(spans: seq<Span>): set<int> {
    if spans == [] then {} else Range(spans[0].start, spans[0].end) + Positions(spans[1..])
  }

  // ---------------------------------------------------------------- proofs

  ghost predicate Increasing(points: seq<int>) {
    forall i, j | 0 <= i < j < |points| :: points[i] < points[j]
  }

  lemma {:induction false} InsertPointKeepsOrder(points: seq<int>, p: int)
    requires Increasing(points)
    ensures Increasing(InsertPoint(points, p))
    ensures forall q :: q in InsertPoint(points, p) <==> q in points || q == p
  {
    if points != [] && p > points[0] {
      InsertPointKeepsOrder(points[1..], p);
      var rest := InsertPoint(points[1..], p);
      assert points == [points[0]] + points[1..];
      forall j | 0 <= j < |rest|
        ensures points[0] < rest[j]
      {
        assert rest[j] in rest;
      }
    }
  }

  lemma {:induction false} InsertEndpointsKeepsOrder(points: seq<int>, spans: seq<Span>)
    requires Increasing(points)
    ensures Increasing(InsertEndpoints(points, spans))
    ensures forall q | q in points :: q in InsertEndpoints(points, spans)
    ensures forall i | 0 <= i < |spans| ::
              spans[i].start in InsertEndpoints(points, spans) && spans[i].end in InsertEndpoints(points, spans)
    decreases |spans|
  {
    if spans != [] {
      InsertPointKeepsOrder(points, spans[0].start);
      var once := InsertPoint(points, spans[0].start);
      InsertPointKeepsOrder(once, spans[0].end);
      InsertEndpointsKeepsOrder(InsertPoint(once, spans[0].end), spans[1..]);
      forall i | 0 <= i < |spans|
        ensures spans[i].start in InsertEndpoints(points, spans) && spans[i].end in InsertEndpoints(points, spans)
      {
        if i > 0 { assert spans[i] == spans[1..][i - 1]; }
      }
    }
  }

  lemma PointsSorted(expected: seq<Span>, actual: seq<Span>)
    ensures Increasing(Points(expected, actual))
    ensures EndpointsIn(expected, Points(expected, actual)) && EndpointsIn(actual, Points(expected, actual))
  {
    InsertEndpointsKeepsOrder([], expected);
    InsertEndpointsKeepsOrder(InsertEndpoints([], expected), actual);
  }

  ghost predicate EndpointsIn(spans: seq<Span>, points: seq<int>) {
    forall i | 0 <= i < |spans| :: spans[i].start in points && spans[i].end in points
  }

  lemma {:induction false} CoveredByASpan(spans: seq<Span>, x: int)
    ensures x in Positions(spans) <==> exists i | 0 <= i < |spans| :: spans[i].start <= x < spans[i].end
  {
    if spans != [] {
      CoveredByASpan(spans[1..], x);
      if x in Positions(spans[1..]) {
        var i :| 0 <= i < |spans[1..]| && spans[1..][i].start <= x < spans[1..][i].end;
        assert spans[i + 1] == spans[1..][i];
      }
      if exists i | 0 <= i < |spans| :: spans[i].start <= x < spans[i].end {
        var i :| 0 <= i < |spans| && spans[i].start <= x < spans[i].end;
        if i > 0 { assert spans[1..][i - 1] == spans[i]; }
      }
    }
  }

  /** Between consecutive points a position is covered exactly when the whole segment is. */
  lemma SegmentIsUniform(spans: seq<Span>, points: seq<int>, k: nat, x: int)
    requires Increasing(points) && EndpointsIn(spans, points)
    requires k + 1 < |points| && points[k] <= x < points[k + 1]
    ensures x in Positions(spans) <==> SegmentIn(spans, points[k], points[k + 1])
  {
    CoveredByASpan(spans, x);
    if x in Positions(spans) {
      var i :| 0 <= i < |spans| && spans[i].start <= x < spans[i].end;
      var a :| 0 <= a < |points| && points[a] == spans[i].start;
      var b :| 0 <= b < |points| && points[b] == spans[i].end;
      assert a <= k && b >= k + 1;
    }
  }

  /** On segment k membership in the set is what the filter says. */
  ghost predicate Uniform(points: seq<int>, filter: (int, int) -> bool, positions: set<int>, k: nat)
    requires k + 1 < |points|
  {
    forall x | x in Range(points[k], points[k + 1]) :: x in positions <==> filter(points[k], points[k + 1])
  }

  ghost predicate UniformAll(points: seq<int>, filter: (int, int) -> bool, positions: set<int>) {
    forall k: nat | k + 1 < |points| :: Uniform(points, filter, positions, k)
  }

  lemma UniformTail(points: seq<int>, filter: (int, int) -> bool, positions: set<int>)
    requires points != [] && UniformAll(points, filter, positions)
    ensures UniformAll(points[1..], filter, positions)
  {
    forall k: nat | k + 1 < |points[1..]|
      ensures Uniform(points[1..], filter, positions, k)
    {
      assert Uniform(points, filter, positions, k + 1);
    }
  }

  lemma SplitRange(positions: set<int>, lo: int, mid: int, hi: int)
    requires lo <= mid <= hi
    ensures |positions * Range(lo, hi)| == |positions * Range(lo, mid)| + |positions * Range(mid, hi)|
  {
    assert positions * Range(lo, hi) == positions * Range(lo, mid) + positions * Range(mid, hi);
  }

  /** The sweep counts the positions of any set that is uniform on every segment. */
  lemma {:induction false} SweepCounts(points: seq<int>, filter: (int, int) -> bool, positions: set<int>)
    requires Increasing(points) && points != [] && UniformAll(points, filter, positions)
    ensures SweepLength(points, filter) == |positions * Range(points[0], points[|points| - 1])|
    decreases |points|
  {
    if |points| == 1 {
      assert positions * Range(points[0], points[0]) == {};
    } else {
      var first := Range(points[0], points[1]);
      UniformTail(points, filter, positions);
      SweepCounts(points[1..], filter, positions);
      RangeSize(points[0], points[1]);
      assert Uniform(points, filter, positions, 0);
      assert positions * first == if filter(points[0], points[1]) then first else {};
      SplitRange(positions, points[0], points[1], points[|points| - 1]);
    }
  }

  lemma SweepCountsAll(points: seq<int>, filter: (int, int) -> bool, positions: set<int>)
    requires Increasing(points) && UniformAll(points, filter, positions)
    requires forall x | x in positions :: points != [] && points[0] <= x < points[|points| - 1]
    ensures SweepLength(points, filter) == |positions|
  {
    if points == [] {
      forall x | x in positions
        ensures false
      {
      }
      assert positions == {};
    } else {
      SweepCounts(points, filter, positions);
      assert positions * Range(points[0], points[|points| - 1]) == positions;
    }
  }

  lemma PositionsWithinPoints(spans: seq<Span>, points: seq<int>, x: int)
    requires Increasing(points) && EndpointsIn(spans, points) && x in Positions(spans)
    ensures points != [] && points[0] <= x < points[|points| - 1]
  {
    CoveredByASpan(spans, x);
    var i :| 0 <= i < |spans| && spans[i].start <= x < spans[i].end;
    var a :| 0 <= a < |points| && points[a] == spans[i].start;
    var b :| 0 <= b < |points| && points[b] == spans[i].end;
  }

  // ---------------------------------------------------------------- main results

  /** For any two span lists, overlapping or nested spans included, the sweep counts the positions covered by
      both lists and by either list. */
  lemma SweepIsPositionCount(expected: seq<Span>, actual: seq<Span>)
    ensures Intersection(expected, actual) == |Positions(expected) * Positions(actual)|
    ensures UnionLength(expected, actual) == |Positions(expected) + Positions(actual)|
  {
    var points := Points(expected, actual);
    var e, a := Positions(expected), Positions(actual);
    PointsSorted(expected, actual);
    var both := (lo, hi) => SegmentIn(expected, lo, hi) && SegmentIn(actual, lo, hi);
    var either := (lo, hi) => SegmentIn(expected, lo, hi) || SegmentIn(actual, lo, hi);
    forall k: nat | k + 1 < |points|
      ensures Uniform(points, both, e * a, k) && Uniform(points, either, e + a, k)
    {
      forall x | x in Range(points[k], points[k + 1])
        ensures x in e <==> SegmentIn(expected, points[k], points[k + 1])
        ensures x in a <==> SegmentIn(actual, points[k], points[k + 1])
      {
        SegmentIsUniform(expected, points, k, x);
        SegmentIsUniform(actual, points, k, x);
      }
    }
    forall x | x in e + a
      ensures points != [] && points[0] <= x < points[|points| - 1]
    {
      if x in e { PositionsWithinPoints(expected, points, x); } else { PositionsWithinPoints(actual, points, x); }
    }
    SweepCountsAll(points, both, e * a);
    SweepCountsAll(points, either, e + a);
  }

  /** The overlap is the number of positions in both lists over the number in either. */
  lemma IouIsRatio(expected: seq<Span>, actual: seq<Span>)
    ensures var e, a, iou := Positions(expected), Positions(actual), Iou(expected, actual);
            && (iou.Some? <==> e + a != {})
            && (iou.Some? ==> IsRatio(iou.value, |e * a| as real, |e + a| as real))
  {
    var e, a := Positions(expected), Positions(actual);
    SweepIsPositionCount(expected, actual);
    assert e + a != {} <==> |e + a| != 0;
    if e + a != {} { CountQuotientIsRatio(|e * a|, |e + a|); }
  }

  /** The overlap is null only when neither list covers anything, otherwise a ratio in [0, 1] that is 1 exactly
      for equal coverage. */
  lemma IouBounds(expected: seq<Span>, actual: seq<Span>)
    ensures Iou(expected, actual) == None <==> Positions(expected) == {} && Positions(actual) == {}
    ensures var iou := Iou(expected, actual);
            iou.Some? ==>
              && 0.0 <= iou.value <= 1.0
              && (iou.value == 1.0 <==> Positions(expected) == Positions(actual))
              && (iou.value == 0.0 <==> Positions(expected) !! Positions(actual))
  {
    var e, a := Positions(expected), Positions(actual);
    SweepIsPositionCount(expected, actual);
    if e + a != {} {
      SubsetSize(e * a, e + a);
      var i, u := |e * a| as real, |e + a| as real;
      assert u > 0.0;
      RatioFacts(i, u);
      if e == a { assert e * a == e + a; }
      if e * a == e + a { assert e == a; }
    }
  }

  /** The overlap does not depend on which list is called expected. */
  lemma IouSymmetric(expected: seq<Span>, actual: seq<Span>)
    ensures Iou(expected, actual) == Iou(actual, expected)
  {
    SweepIsPositionCount(expected, actual);
    SweepIsPositionCount(actual, expected);
    assert Positions(expected) * Positions(actual) == Positions(actual) * Positions(expected);
    assert Positions(expected) + Positions(actual) == Positions(actual) + Positions(expected);
  }

  /** On stored spans the overlap is null only when both lists are empty. */
  lemma NullOnlyWhenEmpty(expected: seq<Span>, actual: seq<Span>)
    requires forall i | 0 <= i < |expected| :: ValidSpan(expected[i])
    requires forall i | 0 <= i < |actual| :: ValidSpan(actual[i])
    ensures Iou(expected, actual) == None <==> expected == [] && actual == []
  {
    IouBounds(expected, actual);
    if expected != [] {
      assert expected[0].start in Range(expected[0].start, expected[0].end);
    }
    if actual != [] {
      assert actual[0].start in Range(actual[0].start, actual[0].end);
    }
  }
}
