/**
 One case of an evaluation: the raw observations a worker reports, the checks
 they must pass, the exposure relation derived from their surfaces, and the
 scores and leak count the database derives from them.
 */
module EvaluationCase {
  import opened Options
  import BoxIou
  import RankMetrics
  import SpanIou

  type Id = nat
  type Span = SpanIou.Span
  type Box = BoxIou.Box

  datatype AnswerStatus = Supported | ConflictingEvidence | InsufficientEvidence
  datatype HighlightKind = Keyword | Semantic
  datatype HighlightSurface = OnAnswer | OnConflict
  datatype Surface = Retrieval | Answer | Conflict | RelatedSource | AnswerHighlight | ConflictHighlight

  datatype SourceRef = SourceRef(evidence: Id, source: Id)
  datatype Ranked = Ranked(rank: int, ref: SourceRef)
  datatype Target = Target(
    surface: HighlightSurface, document: Id, asset: Id, evidence: Id, page: Option<nat>, kind: HighlightKind)
  datatype Highlight = Highlight(target: Target, source: Id, spans: seq<Span>, boxes: seq<Box>)
  datatype Exposure = Exposure(surface: Surface, source: Id, evidence: Id)

  /** What a repetition must reproduce. */
  datatype Content = Content(
    retrieved: seq<Id>, ranked: seq<Ranked>, status: AnswerStatus,
    answerIds: seq<Id>, conflictIds: seq<Id>, relatedIds: seq<Id>,
    answerSources: seq<SourceRef>, conflictSources: seq<SourceRef>, relatedSources: seq<SourceRef>,
    highlightKind: Option<HighlightKind>, spans: seq<Span>, boxes: seq<Box>, highlights: seq<Highlight>)

  datatype Observation = Observation(content: Content, exposures: seq<Exposure>, duration: real, signature: string)

  datatype ExpectedHighlight = ExpectedHighlight(target: Target, spans: seq<Span>, boxes: seq<Box>)

  /** A case of the immutable fixture. */
  datatype FixtureCase = FixtureCase(
    id: Id, query: string, scenario: string, expected: seq<Id>, authorized: seq<Id>, forbidden: seq<Id>,
    status: AnswerStatus, highlight: Option<ExpectedHighlight>)

  /** The scalars of a case result, as supplied or as derived. */
  datatype Scalars = Scalars(
    recall: Option<real>, reciprocalRank: Option<real>, ndcg: Option<real>, correct: Option<bool>,
    falseGrounding: Option<bool>, highlight: Option<real>, duration: real, leaks: int, reproducible: bool)

  // ---------------------------------------------------------------- observation checks

  function Matches(snapshot: seq<SourceRef>, ref: SourceRef): nat {
    if snapshot == [] then 0 else (if snapshot[0] == ref then 1 else 0) + Matches(snapshot[1..], ref)
  }

  /** rag_evaluation_evidence_source_matches: the frozen snapshot binds the evidence to the source exactly once. */
  predicate Bound(snapshot: seq<SourceRef>, ref: SourceRef) {
    Matches(snapshot, ref) == 1
  }

  predicate RankedValid(c: Content, k: nat, snapshot: seq<SourceRef>) {
    && |c.ranked| == |c.retrieved|
    && forall i | 0 <= i < |c.ranked| ::
         && c.ranked[i].rank == i + 1 && c.ranked[i].rank <= k
         && c.ranked[i].ref.evidence == c.retrieved[i] && Bound(snapshot, c.ranked[i].ref)
  }

  predicate SourcesValid(ids: seq<Id>, sources: seq<SourceRef>, snapshot: seq<SourceRef>) {
    && |sources| == |ids|
    && forall i | 0 <= i < |sources| :: sources[i].evidence == ids[i] && Bound(snapshot, sources[i])
  }

  predicate CoordinatesValid(spans: seq<Span>, boxes: seq<Box>) {
    && (forall i | 0 <= i < |spans| :: SpanIou.ValidSpan(spans[i]))
    && (forall i | 0 <= i < |boxes| :: BoxIou.ValidBox(boxes[i]))
  }

  predicate HighlightValid(c: Content, h: Highlight, snapshot: seq<SourceRef>) {
    && Bound(snapshot, SourceRef(h.target.evidence, h.source))
    && (h.spans != [] || h.boxes != []) && CoordinatesValid(h.spans, h.boxes)
    && h.target.evidence in if h.target.surface == OnAnswer then c.answerIds else c.conflictIds
  }

  predicate StatusValid(c: Content) {
    match c.status
    case Supported => c.answerIds != [] && c.conflictIds == []
    case ConflictingEvidence => c.answerIds == [] && c.conflictIds != []
    case InsufficientEvidence => c.answerIds == [] && c.conflictIds == []
  }

  function HighlightExposure(h: Highlight): Exposure {
    Exposure(if h.target.surface == OnAnswer then AnswerHighlight else ConflictHighlight, h.source, h.target.evidence)
  }

  function Exposures(surface: Surface, refs: seq<SourceRef>): set<Exposure> {
    set i | 0 <= i < |refs| :: Exposure(surface, refs[i].source, refs[i].evidence)
  }

  /** rag_evaluation_canonical_exposures: the union over the surfaces. */
  function CanonicalExposures(c: Content): set<Exposure> {
    (set i | 0 <= i < |c.ranked| :: Exposure(Retrieval, c.ranked[i].ref.source, c.ranked[i].ref.evidence))
    + Exposures(Answer, c.answerSources)
    + Exposures(Conflict, c.conflictSources)
    + Exposures(RelatedSource, c.relatedSources)
    + (set i | 0 <= i < |c.highlights| :: HighlightExposure(c.highlights[i]))
  }

  /** The sorted supplied list equals the sorted derived one. */
  predicate ExposuresExact(o: Observation) {
    multiset(o.exposures) == multiset(CanonicalExposures(o.content))
  }

  predicate ObservationValid(o: Observation, k: nat, snapshot: seq<SourceRef>) {
    var c := o.content;
    && |c.ranked| <= k && o.duration >= 0.0
    && RankMetrics.Distinct(c.retrieved) && RankMetrics.Distinct(c.answerIds)
    && RankMetrics.Distinct(c.conflictIds) && RankMetrics.Distinct(c.relatedIds)
    && RankedValid(c, k, snapshot)
    && SourcesValid(c.answerIds, c.answerSources, snapshot)
    && SourcesValid(c.conflictIds, c.conflictSources, snapshot)
    && SourcesValid(c.relatedIds, c.relatedSources, snapshot)
    && CoordinatesValid(c.spans, c.boxes)
    && (forall i | 0 <= i < |c.highlights| :: HighlightValid(c, c.highlights[i], snapshot))
    && (forall i | 0 <= i < |o.exposures| :: Bound(snapshot, SourceRef(o.exposures[i].evidence, o.exposures[i].source)))
    && ExposuresExact(o) && StatusValid(c)
  }

  predicate ObservationsValid(observations: seq<Observation>, k: nat, snapshot: seq<SourceRef>) {
    forall i | 0 <= i < |observations| :: ObservationValid(observations[i], k, snapshot)
  }

  // ---------------------------------------------------------------- derived scalars

  predicate Leaked(f: FixtureCase, e: Exposure) {
    e.source in f.forbidden || e.source !in f.authorized
  }

  function LeaksOf(f: FixtureCase, c: Content): set<Exposure> {
    set e | e in CanonicalExposures(c) && Leaked(f, e)
  }

  function Leaks(f: FixtureCase, observations: seq<Observation>): nat {
    if observations == [] then 0 else |LeaksOf(f, observations[0].content)| + Leaks(f, observations[1..])
  }

  function Duration(observations: seq<Observation>): real {
    if observations == [] then 0.0 else observations[0].duration + Duration(observations[1..])
  }

  predicate Reproducible(observations: seq<Observation>) {
    forall i | 0 <= i < |observations| ::
      observations[i].content == observations[0].content && observations[i].signature == observations[0].signature
  }

  predicate AllExpected(ids: seq<Id>, expected: seq<Id>) {
    forall i | 0 <= i < |ids| :: ids[i] in expected
  }

  function Correct(f: FixtureCase, c: Content): Option<bool> {
    if c.status == Supported then
      Some(f.status == Supported && c.answerIds != [] && AllExpected(c.answerIds, f.expected))
    else None
  }

  function ActualSpans(highlights: seq<Highlight>, target: Target): seq<Span> {
    if highlights == [] then []
    else (if highlights[0].target == target then highlights[0].spans else []) + ActualSpans(highlights[1..], target)
  }

  function ActualBoxes(highlights: seq<Highlight>, target: Target): seq<Box> {
    if highlights == [] then []
    else (if highlights[0].target == target then highlights[0].boxes else []) + ActualBoxes(highlights[1..], target)
  }

  function OrZero(ratio: Option<real>): real {
    match ratio case None => 0.0 case Some(value) => value
  }

  function HighlightScore(f: FixtureCase, c: Content): Option<real> {
    match f.highlight
    case None => None
    case Some(h) =>
      if h.spans != [] then Some(OrZero(SpanIou.Iou(h.spans, ActualSpans(c.highlights, h.target))))
      else Some(OrZero(BoxIou.Iou(h.boxes, ActualBoxes(c.highlights, h.target))))
  }

  function Derive(w: RankMetrics.Weight, f: FixtureCase, observations: seq<Observation>, k: nat): Scalars
    requires RankMetrics.Discount(w) && k > 0 && observations != []
  {
    var first := observations[0].content;
    var scores := RankMetrics.Score(w, f.expected, first.retrieved, k);
    var correct := Correct(f, first);
    Scalars(
      if scores.Some? then Some(scores.value.recall) else None,
      if scores.Some? then Some(scores.value.reciprocalRank) else None,
      if scores.Some? then Some(scores.value.ndcg) else None,
      correct, if correct.Some? then Some(!correct.value) else None,
      HighlightScore(f, first), Duration(observations), Leaks(f, observations), Reproducible(observations))
  }

  predicate Close(a: real, b: real, tolerance: real) {
    a - b <= tolerance && b - a <= tolerance
  }

  predicate CloseOrNull(supplied: Option<real>, derived: Option<real>) {
    && supplied.Some? == derived.Some?
    && (supplied.Some? ==> Close(supplied.value, derived.value, 0.000000000001))
  }

  /** Supplied ratios are accepted within a tolerance, the flags and the leak count only exactly. */
  predicate ScalarsMatch(supplied: Scalars, derived: Scalars) {
    && CloseOrNull(supplied.recall, derived.recall)
    && CloseOrNull(supplied.reciprocalRank, derived.reciprocalRank)
    && CloseOrNull(supplied.ndcg, derived.ndcg)
    && supplied.correct == derived.correct && supplied.falseGrounding == derived.falseGrounding
    && CloseOrNull(supplied.highlight, derived.highlight)
    && Close(supplied.duration, derived.duration, 0.000000001)
    && supplied.leaks == derived.leaks && supplied.reproducible == derived.reproducible
  }

  // ---------------------------------------------------------------- properties

  /** A source reached a user, on whatever surface. */
  ghost predicate Surfaced(c: Content, source: Id) {
    || (exists r | r in c.ranked :: r.ref.source == source)
    || (exists r | r in c.answerSources :: r.source == source)
    || (exists r | r in c.conflictSources :: r.source == source)
    || (exists r | r in c.relatedSources :: r.source == source)
    || (exists h | h in c.highlights :: h.source == source)
  }

  ghost predicate Exposed(c: Content, source: Id) {
    exists e | e in CanonicalExposures(c) :: e.source == source
  }

  /** The exposure relation misses no surface and adds none. */
  lemma ExposedExactlyWhenSurfaced(c: Content, source: Id)
    ensures Exposed(c, source) <==> Surfaced(c, source)
  {
    if Surfaced(c, source) { SurfacedIsExposed(c, source); }
    if Exposed(c, source) { ExposedIsSurfaced(c, source); }
  }

  lemma InExposures(surface: Surface, refs: seq<SourceRef>, r: SourceRef)
    requires r in refs
    ensures Exposure(surface, r.source, r.evidence) in Exposures(surface, refs)
  {
    var i :| 0 <= i < |refs| && refs[i] == r;
    assert Exposure(surface, refs[i].source, refs[i].evidence) in Exposures(surface, refs);
  }

  lemma SurfacedIsExposed(c: Content, source: Id)
    requires Surfaced(c, source)
    ensures Exposed(c, source)
  {
    if r :| r in c.answerSources && r.source == source {
      InExposures(Answer, c.answerSources, r);
      assert Exposure(Answer, r.source, r.evidence) in CanonicalExposures(c);
    } else if r :| r in c.conflictSources && r.source == source {
      InExposures(Conflict, c.conflictSources, r);
      assert Exposure(Conflict, r.source, r.evidence) in CanonicalExposures(c);
    } else if r :| r in c.relatedSources && r.source == source {
      InExposures(RelatedSource, c.relatedSources, r);
      assert Exposure(RelatedSource, r.source, r.evidence) in CanonicalExposures(c);
    } else if r :| r in c.ranked && r.ref.source == source {
      var i :| 0 <= i < |c.ranked| && c.ranked[i] == r;
      assert Exposure(Retrieval, c.ranked[i].ref.source, c.ranked[i].ref.evidence) in CanonicalExposures(c);
    } else {
      var h :| h in c.highlights && h.source == source;
      var i :| 0 <= i < |c.highlights| && c.highlights[i] == h;
      assert HighlightExposure(c.highlights[i]) in CanonicalExposures(c);
    }
  }

  lemma ExposedIsSurfaced(c: Content, source: Id)
    requires Exposed(c, source)
    ensures Surfaced(c, source)
  {
    var e :| e in CanonicalExposures(c) && e.source == source;
    if e in Exposures(Answer, c.answerSources) {
      FromExposures(Answer, c.answerSources, e);
    } else if e in Exposures(Conflict, c.conflictSources) {
      FromExposures(Conflict, c.conflictSources, e);
    } else if e in Exposures(RelatedSource, c.relatedSources) {
      FromExposures(RelatedSource, c.relatedSources, e);
    } else if i :| 0 <= i < |c.ranked| && e == Exposure(Retrieval, c.ranked[i].ref.source, c.ranked[i].ref.evidence) {
      assert c.ranked[i] in c.ranked;
    } else {
      var i :| 0 <= i < |c.highlights| && e == HighlightExposure(c.highlights[i]);
      assert c.highlights[i] in c.highlights;
    }
  }

  lemma FromExposures(surface: Surface, refs: seq<SourceRef>, e: Exposure)
    requires e in Exposures(surface, refs)
    ensures exists r | r in refs :: r.source == e.source
  {
    var i :| 0 <= i < |refs| && e == Exposure(surface, refs[i].source, refs[i].evidence);
    assert refs[i] in refs;
  }

  /** Every source on every surface of the observation is authorized and not forbidden. */
  ghost predicate Clean(f: FixtureCase, c: Content) {
    forall source | Surfaced(c, source) :: source in f.authorized && source !in f.forbidden
  }

  /** The derived leak count is 0 exactly when no observation surfaces a forbidden or unauthorized source. */
  lemma {:induction false} NoLeaksExactlyWhenClean(f: FixtureCase, observations: seq<Observation>)
    ensures Leaks(f, observations) == 0 <==> forall i | 0 <= i < |observations| :: Clean(f, observations[i].content)
  {
    if observations != [] {
      NoLeaksExactlyWhenClean(f, observations[1..]);
      NoLeaksOfOne(f, observations[0].content);
      if forall i | 0 <= i < |observations[1..]| :: Clean(f, observations[1..][i].content) {
        if Clean(f, observations[0].content) {
          forall i | 0 <= i < |observations|
            ensures Clean(f, observations[i].content)
          {
            if i > 0 { assert observations[i] == observations[1..][i - 1]; }
          }
        }
      } else {
        var i :| 0 <= i < |observations[1..]| && !Clean(f, observations[1..][i].content);
        assert !Clean(f, observations[i + 1].content);
      }
    }
  }

  lemma NoLeaksOfOne(f: FixtureCase, c: Content)
    ensures |LeaksOf(f, c)| == 0 <==> Clean(f, c)
  {
    if LeaksOf(f, c) == {} {
      forall source | Surfaced(c, source)
        ensures source in f.authorized && source !in f.forbidden
      {
        SurfacedIsExposed(c, source);
        var e :| e in CanonicalExposures(c) && e.source == source;
        assert e !in LeaksOf(f, c);
      }
    } else {
      var e :| e in LeaksOf(f, c);
      ExposedIsSurfaced(c, e.source);
    }
  }

  ghost predicate Ratio(v: Option<real>) {
    v.Some? ==> 0.0 <= v.value <= 1.0
  }

  /** Every ratio the database derives lies in [0, 1], and they are null together with what they measure. */
  lemma DerivedRatios(w: RankMetrics.Weight, f: FixtureCase, observations: seq<Observation>, k: nat)
    requires RankMetrics.Discount(w) && k > 0 && observations != []
    ensures var d := Derive(w, f, observations, k);
            && Ratio(d.recall) && Ratio(d.reciprocalRank) && Ratio(d.ndcg) && Ratio(d.highlight)
            && (d.recall == None <==> f.expected == []) && (d.highlight == None <==> f.highlight == None)
  {
    var first := observations[0].content;
    if f.expected != [] {
      RankMetrics.RecallBounds(w, f.expected, first.retrieved, k);
      RankMetrics.ReciprocalRankBounds(w, f.expected, first.retrieved, k);
      RankMetrics.NdcgBounds(w, f.expected, first.retrieved, k);
    }
    if f.highlight.Some? {
      var h := f.highlight.value;
      SpanIou.IouBounds(h.spans, ActualSpans(first.highlights, h.target));
      BoxIou.IouBounds(h.boxes, ActualBoxes(first.highlights, h.target));
    }
  }

  /** On an accepted observation deduplication and renumbering are the identity: the reported rank of an id is its
      derived rank. */
  lemma AcceptedRanksAreFinal(o: Observation, k: nat, snapshot: seq<SourceRef>)
    requires ObservationValid(o, k, snapshot)
    ensures RankMetrics.Dedup(o.content.retrieved) == o.content.retrieved
    ensures forall i | 0 <= i < |o.content.ranked| ::
              var r := o.content.ranked[i];
              1 <= r.rank <= k && RankMetrics.Dedup(o.content.retrieved)[r.rank - 1] == r.ref.evidence
  {
    RankMetrics.DedupIdentity(o.content.retrieved);
  }

  lemma {:induction false} BoundIsIn(snapshot: seq<SourceRef>, ref: SourceRef)
    ensures Matches(snapshot, ref) > 0 ==> ref in snapshot
  {
    if snapshot != [] { BoundIsIn(snapshot[1..], ref); }
  }

  /** An accepted observation reports exactly the sources it surfaces, and each is bound in the frozen snapshot. */
  lemma AcceptedReportsItsSurfaces(o: Observation, k: nat, snapshot: seq<SourceRef>, source: Id)
    requires ObservationValid(o, k, snapshot)
    ensures Surfaced(o.content, source) <==> exists e :: e in o.exposures && e.source == source
    ensures Surfaced(o.content, source) ==> exists ref :: ref in snapshot && ref.source == source
  {
    ExposedExactlyWhenSurfaced(o.content, source);
    if Surfaced(o.content, source) {
      var e :| e in CanonicalExposures(o.content) && e.source == source;
      assert e in multiset(CanonicalExposures(o.content));
      assert e in o.exposures;
      var i :| 0 <= i < |o.exposures| && o.exposures[i] == e;
      BoundIsIn(snapshot, SourceRef(e.evidence, e.source));
    }
    if e :| e in o.exposures && e.source == source {
      assert e in multiset(o.exposures);
    }
  }

  // ---------------------------------------------------------------- the trigger's loops

  /** The loop over the ranked items, with its own counter for the expected rank. */
  method CheckRanked(c: Content, k: nat, snapshot: seq<SourceRef>) returns (ok: bool)
    ensures ok == RankedValid(c, k, snapshot)
  {
    if |c.ranked| != |c.retrieved| { return false; }
    var rankedOrdinal := 0;
    for i := 0 to |c.ranked|
      invariant rankedOrdinal == i
      invariant forall j | 0 <= j < i ::
                  && c.ranked[j].rank == j + 1 && c.ranked[j].rank <= k
                  && c.ranked[j].ref.evidence == c.retrieved[j] && Bound(snapshot, c.ranked[j].ref)
    {
      var item := c.ranked[i];
      rankedOrdinal := rankedOrdinal + 1;
      if !Bound(snapshot, item.ref) { return false; }
      if item.rank != rankedOrdinal || item.rank > k || item.ref.evidence != c.retrieved[rankedOrdinal - 1] {
        return false;
      }
    }
    return true;
  }

  /** The loop over one of the three source arrays. */
  method CheckSources(ids: seq<Id>, sources: seq<SourceRef>, snapshot: seq<SourceRef>) returns (ok: bool)
    ensures ok == SourcesValid(ids, sources, snapshot)
  {
    if |sources| != |ids| { return false; }
    var sourceOrdinal := 0;
    for i := 0 to |sources|
      invariant sourceOrdinal == i
      invariant forall j | 0 <= j < i :: sources[j].evidence == ids[j] && Bound(snapshot, sources[j])
    {
      sourceOrdinal := sourceOrdinal + 1;
      if sources[i].evidence != ids[sourceOrdinal - 1] || !Bound(snapshot, sources[i]) { return false; }
    }
    return true;
  }

  method CheckHighlights(c: Content, snapshot: seq<SourceRef>) returns (ok: bool)
    ensures ok == forall i | 0 <= i < |c.highlights| :: HighlightValid(c, c.highlights[i], snapshot)
  {
    for i := 0 to |c.highlights|
      invariant forall j | 0 <= j < i :: HighlightValid(c, c.highlights[j], snapshot)
    {
      if !HighlightValid(c, c.highlights[i], snapshot) { return false; }
    }
    return true;
  }

  method CheckExposures(exposures: seq<Exposure>, snapshot: seq<SourceRef>) returns (ok: bool)
    ensures ok == forall i | 0 <= i < |exposures| :: Bound(snapshot, SourceRef(exposures[i].evidence, exposures[i].source))
  {
    for i := 0 to |exposures|
      invariant forall j | 0 <= j < i :: Bound(snapshot, SourceRef(exposures[j].evidence, exposures[j].source))
    {
      if !Bound(snapshot, SourceRef(exposures[i].evidence, exposures[i].source)) { return false; }
    }
    return true;
  }

  /** The loop over the raw observations of a case result. */
  method CheckObservations(observations: seq<Observation>, k: nat, snapshot: seq<SourceRef>) returns (ok: bool)
    ensures ok == ObservationsValid(observations, k, snapshot)
  {
    for i := 0 to |observations|
      invariant forall j | 0 <= j < i :: ObservationValid(observations[j], k, snapshot)
    {
      ok := CheckObservation(observations[i], k, snapshot);
      if !ok { return false; }
    }
    return true;
  }

  method CheckObservation(o: Observation, k: nat, snapshot: seq<SourceRef>) returns (ok: bool)
    ensures ok == ObservationValid(o, k, snapshot)
  {
    var c := o.content;
    if |c.ranked| != |c.retrieved| || |c.ranked| > k || o.duration < 0.0 { return false; }
    if !RankMetrics.Distinct(c.retrieved) || !RankMetrics.Distinct(c.answerIds)
       || !RankMetrics.Distinct(c.conflictIds) || !RankMetrics.Distinct(c.relatedIds) {
      return false;
    }
    ok := CheckRanked(c, k, snapshot);
    if !ok { return false; }
    ok := CheckSources(c.answerIds, c.answerSources, snapshot);
    if !ok { return false; }
    ok := CheckSources(c.conflictIds, c.conflictSources, snapshot);
    if !ok { return false; }
    ok := CheckSources(c.relatedIds, c.relatedSources, snapshot);
    if !ok || !CoordinatesValid(c.spans, c.boxes) { return false; }
    ok := CheckHighlights(c, snapshot);
    if !ok { return false; }
    ok := CheckExposures(o.exposures, snapshot);
    if !ok || !ExposuresExact(o) || !StatusValid(c) { return false; }
    return true;
  }
}
