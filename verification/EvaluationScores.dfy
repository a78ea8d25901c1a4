/**
 What the scalars of a case result measure, stated from the fixture case and the
 raw observations: the rank scores, the answer flags, the highlight overlap, the
 total duration, the number of single leaks and reproducibility.
 */
module EvaluationScores {
  import opened Counting
  import opened EvaluationCase
  import opened Options
  import BoxIou
  import RankMetrics
  import SpanIou

  // ---------------------------------------------------------------- the measures

  /** The three rank scores of the retrieved ids, null when nothing is expected. */
  ghost predicate RanksMeasured(w: RankMetrics.Weight, expected: seq<Id>, retrieved: seq<Id>, k: nat, d: Scalars) {
    var ranked := RankMetrics.Dedup(retrieved);
    var cut := RankMetrics.Least(k, |ranked|);
    if expected == [] then d.recall == None && d.reciprocalRank == None && d.ndcg == None
    else
      && d.recall.Some? && d.reciprocalRank.Some? && d.ndcg.Some?
      && IsRatio(d.recall.value, Count(ranked[..cut], (id: Id) => id in expected) as real, |expected| as real)
      && RankMetrics.IsReciprocal(d.reciprocalRank.value, ranked, expected)
      && IsRatio(d.ndcg.value,
           RankMetrics.WeightFrom(w, (rank: nat) => RankMetrics.RelevantAt(ranked, expected, rank), 1, cut),
           RankMetrics.WeightFrom(w, (rank: nat) => true, 1, RankMetrics.Least(|expected|, k)))
  }

  /** An answer is correct if one is expected and every cited id is; anything else that is answered is false grounding. */
  ghost predicate AnswerMeasured(f: FixtureCase, c: Content, d: Scalars) {
    if c.status != Supported then d.correct == None && d.falseGrounding == None
    else
      var right := f.status == Supported && c.answerIds != [] && forall id | id in c.answerIds :: id in f.expected;
      d.correct == Some(right) && d.falseGrounding == Some(!right)
  }

  /** The spans highlighted for a target, in one list. */
  ghost predicate SpansShown(spans: seq<Span>, c: Content, target: Target) {
    forall s :: s in spans <==> exists h :: h in c.highlights && h.target == target && s in h.spans
  }

  ghost predicate BoxesShown(boxes: seq<Box>, c: Content, target: Target) {
    forall b :: b in boxes <==> exists h :: h in c.highlights && h.target == target && b in h.boxes
  }

  /** Covered positions in common over covered positions, 0 when nothing is covered. */
  ghost predicate SpansMeasured(value: real, expected: seq<Span>, actual: seq<Span>) {
    var e, a := SpanIou.Positions(expected), SpanIou.Positions(actual);
    if e + a == {} then value == 0.0 else IsRatio(value, |e * a| as real, |e + a| as real)
  }

  /** The area in common over the area covered, 0 when nothing is covered. */
  ghost predicate BoxesMeasured(value: real, expected: seq<Box>, actual: seq<Box>) {
    if BoxIou.Area(expected + actual) == 0.0 then value == 0.0
    else IsRatio(value, BoxIou.Area(BoxIou.Overlaps(expected, actual)), BoxIou.Area(expected + actual))
  }

  ghost predicate HighlightMeasured(f: FixtureCase, c: Content, value: Option<real>) {
    match f.highlight
    case None => value == None
    case Some(h) =>
      && value.Some?
      && if h.spans != [] then exists shown :: SpansShown(shown, c, h.target) && SpansMeasured(value.value, h.spans, shown)
         else exists shown :: BoxesShown(shown, c, h.target) && BoxesMeasured(value.value, h.boxes, shown)
  }

  /** The durations of all observations, the last one last. */
  ghost function TotalDuration(observations: seq<Observation>): real {
    if observations == [] then 0.0
    else TotalDuration(observations[..|observations| - 1]) + observations[|observations| - 1].duration
  }

  /** Observation n exposes on some surface a source that the case forbids or does not authorize. */
  ghost function LeakPlaces(f: FixtureCase, observations: seq<Observation>): set<(nat, Exposure)> {
    set n: nat, e | 0 <= n < |observations| && e in CanonicalExposures(observations[n].content)
                    && (e.source in f.forbidden || e.source !in f.authorized) :: (n, e)
  }

  /** The derived scalars of a case: everything but duration, leaks and reproducibility comes from the first observation. */
  ghost predicate Measured(w: RankMetrics.Weight, f: FixtureCase, observations: seq<Observation>, k: nat, d: Scalars) {
    && observations != []
    && RanksMeasured(w, f.expected, observations[0].content.retrieved, k, d)
    && AnswerMeasured(f, observations[0].content, d) && HighlightMeasured(f, observations[0].content, d.highlight)
    && d.duration == TotalDuration(observations) && d.leaks == |LeakPlaces(f, observations)|
    && (d.reproducible <==> forall i, j | 0 <= i < |observations| && 0 <= j < |observations| ::
          observations[i].content == observations[j].content && observations[i].signature == observations[j].signature)
  }

  // ---------------------------------------------------------------- the derivation computes them

  lemma {:induction false} SpansAreShown(highlights: seq<Highlight>, target: Target, s: Span)
    ensures s in ActualSpans(highlights, target) <==>
              exists h :: h in highlights && h.target == target && s in h.spans
  {
    if highlights != [] {
      SpansAreShown(highlights[1..], target, s);
      assert highlights == [highlights[0]] + highlights[1..];
    }
  }

  lemma {:induction false} BoxesAreShown(highlights: seq<Highlight>, target: Target, b: Box)
    ensures b in ActualBoxes(highlights, target) <==>
              exists h :: h in highlights && h.target == target && b in h.boxes
  {
    if highlights != [] {
      BoxesAreShown(highlights[1..], target, b);
      assert highlights == [highlights[0]] + highlights[1..];
    }
  }

  lemma HighlightIsMeasured(f: FixtureCase, c: Content)
    ensures HighlightMeasured(f, c, HighlightScore(f, c))
  {
    if f.highlight.Some? {
      var h := f.highlight.value;
      if h.spans != [] {
        var shown := ActualSpans(c.highlights, h.target);
        forall s
          ensures s in shown <==> exists h' :: h' in c.highlights && h'.target == h.target && s in h'.spans
        {
          SpansAreShown(c.highlights, h.target, s);
        }
        SpansAreMeasured(h.spans, shown);
        assert SpansShown(shown, c, h.target);
      } else {
        var shown := ActualBoxes(c.highlights, h.target);
        forall b
          ensures b in shown <==> exists h' :: h' in c.highlights && h'.target == h.target && b in h'.boxes
        {
          BoxesAreShown(c.highlights, h.target, b);
        }
        BoxesAreMeasured(h.boxes, shown);
        assert BoxesShown(shown, c, h.target);
      }
    }
  }

  lemma {:induction false} SpansAreMeasured(expected: seq<Span>, actual: seq<Span>)
    ensures SpansMeasured(OrZero(SpanIou.Iou(expected, actual)), expected, actual)
  {
    SpanIou.IouIsRatio(expected, actual);
  }

  lemma {:induction false} BoxesAreMeasured(expected: seq<Box>, actual: seq<Box>)
    ensures BoxesMeasured(OrZero(BoxIou.Iou(expected, actual)), expected, actual)
  {
    BoxIou.IouIsRatio(expected, actual);
  }

  lemma {:induction false} DurationSnoc(observations: seq<Observation>, last: Observation)
    ensures Duration(observations + [last]) == Duration(observations) + last.duration
  {
    if observations == [] {
      assert [] + [last] == [last] && [last][1..] == [];
    } else {
      assert (observations + [last])[1..] == observations[1..] + [last];
      DurationSnoc(observations[1..], last);
    }
  }

  lemma {:induction false} DurationIsTotal(observations: seq<Observation>)
    ensures Duration(observations) == TotalDuration(observations)
  {
    if observations != [] {
      var front, last := observations[..|observations| - 1], observations[|observations| - 1];
      assert observations == front + [last];
      DurationIsTotal(front);
      DurationSnoc(front, last);
    }
  }

  lemma {:induction false} LeaksSnoc(f: FixtureCase, observations: seq<Observation>, last: Observation)
    ensures Leaks(f, observations + [last]) == Leaks(f, observations) + |LeaksOf(f, last.content)|
  {
    if observations == [] {
      assert [] + [last] == [last] && [last][1..] == [];
    } else {
      assert (observations + [last])[1..] == observations[1..] + [last];
      LeaksSnoc(f, observations[1..], last);
    }
  }

  ghost predicate LeakAt(f: FixtureCase, observations: seq<Observation>, n: nat, e: Exposure) {
    && n < |observations| && e in CanonicalExposures(observations[n].content)
    && (e.source in f.forbidden || e.source !in f.authorized)
  }

  lemma PlaceOfLeak(f: FixtureCase, observations: seq<Observation>, n: nat, e: Exposure)
    ensures (n, e) in LeakPlaces(f, observations) <==> LeakAt(f, observations, n, e)
  {
  }

  lemma LeakAtSnoc(f: FixtureCase, front: seq<Observation>, last: Observation, n: nat, e: Exposure)
    ensures LeakAt(f, front + [last], n, e) <==>
              LeakAt(f, front, n, e) || (n == |front| && e in LeaksOf(f, last.content))
  {
  }

  lemma {:induction false} PlacesSnoc(f: FixtureCase, front: seq<Observation>, last: Observation)
    ensures |LeakPlaces(f, front + [last])| == |LeakPlaces(f, front)| + |LeaksOf(f, last.content)|
  {
    var here := Pairs({|front|}, LeaksOf(f, last.content));
    var before, after := LeakPlaces(f, front), LeakPlaces(f, front + [last]);
    forall n: nat, e
      ensures (n, e) in after <==> (n, e) in before || (n, e) in here
      ensures !((n, e) in before && (n, e) in here)
    {
      PlaceOfLeak(f, front + [last], n, e);
      PlaceOfLeak(f, front, n, e);
      LeakAtSnoc(f, front, last, n, e);
    }
    SizeOfSplit(after, before, here);
    RowSize(|front|, LeaksOf(f, last.content));
  }

  lemma SizeOfSplit(all: set<(nat, Exposure)>, a: set<(nat, Exposure)>, b: set<(nat, Exposure)>)
    requires forall n: nat, e :: (n, e) in all <==> (n, e) in a || (n, e) in b
    requires forall n: nat, e :: !((n, e) in a && (n, e) in b)
    ensures |all| == |a| + |b|
  {
    forall p | p in all
      ensures p in a + b
    {
      assert p == (p.0, p.1);
    }
    forall p | p in a + b
      ensures p in all
    {
      assert p == (p.0, p.1);
    }
    assert all == a + b;
    forall p: (nat, Exposure)
      ensures !(p in a && p in b)
    {
      assert p == (p.0, p.1);
    }
    assert a * b == {};
  }

  lemma {:induction false} LeaksArePlaces(f: FixtureCase, observations: seq<Observation>)
    ensures Leaks(f, observations) == |LeakPlaces(f, observations)|
  {
    if observations == [] {
      assert LeakPlaces(f, observations) == {};
    } else {
      var front, last := observations[..|observations| - 1], observations[|observations| - 1];
      assert observations == front + [last];
      LeaksArePlaces(f, front);
      LeaksSnoc(f, front, last);
      PlacesSnoc(f, front, last);
    }
  }

  lemma AnswerIsMeasured(f: FixtureCase, c: Content, d: Scalars)
    requires d.correct == Correct(f, c)
    requires d.falseGrounding == if d.correct.Some? then Some(!d.correct.value) else None
    ensures AnswerMeasured(f, c, d)
  {
  }

  /** The scalars the database derives measure the case. */
  lemma DerivedIsMeasured(w: RankMetrics.Weight, f: FixtureCase, observations: seq<Observation>, k: nat)
    requires RankMetrics.Discount(w) && k > 0 && observations != []
    ensures Measured(w, f, observations, k, Derive(w, f, observations, k))
  {
    var first := observations[0].content;
    if f.expected != [] { RankMetrics.ScoresMeasure(w, f.expected, first.retrieved, k); }
    AnswerIsMeasured(f, first, Derive(w, f, observations, k));
    HighlightIsMeasured(f, first);
    DurationIsTotal(observations);
    LeaksArePlaces(f, observations);
  }
}
