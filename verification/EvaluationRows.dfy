/**
 What every run keeps of the case rows: each stored row consists of valid
 observations of its fixture case, and its scalars agree with what those
 observations measure.
 */
module EvaluationRows {
  import opened EvaluationCase
  import opened EvaluationSafety
  import opened EvaluationTables
  import opened Options
  import EvaluationScores
  import RankMetrics

  predicate Within(a: Option<real>, b: Option<real>, tolerance: real) {
    match (a, b)
    case (None, None) => true
    case (Some(p), Some(q)) => p <= q + tolerance && q <= p + tolerance
    case _ => false
  }

  /** Supplied scalars agree with measured ones: ratios to 12 decimal places, the duration to 9, flags and leaks exactly. */
  ghost predicate Agrees(supplied: Scalars, measured: Scalars) {
    && Within(supplied.recall, measured.recall, 0.000000000001)
    && Within(supplied.reciprocalRank, measured.reciprocalRank, 0.000000000001)
    && Within(supplied.ndcg, measured.ndcg, 0.000000000001)
    && Within(supplied.highlight, measured.highlight, 0.000000000001)
    && Within(Some(supplied.duration), Some(measured.duration), 0.000000001)
    && supplied.correct == measured.correct && supplied.falseGrounding == measured.falseGrounding
    && supplied.leaks == measured.leaks && supplied.reproducible == measured.reproducible
  }

  ghost predicate RowMeasured(w: RankMetrics.Weight, v: View, row: Result) {
    && 0 <= row.ordinal < |v.dataset.fixture| && v.run.k > 0
    && row.caseId == v.dataset.fixture[row.ordinal].id && row.expected == v.dataset.fixture[row.ordinal].expected
    && ObservationsValid(row.observations, v.run.k, v.run.snapshot)
    && exists d :: EvaluationScores.Measured(w, v.dataset.fixture[row.ordinal], row.observations, v.run.k, d)
                   && Agrees(row.scalars, d)
  }

  ghost predicate AllMeasured(w: RankMetrics.Weight, v: View, rows: seq<Result>) {
    forall i | 0 <= i < |rows| :: RowMeasured(w, v, rows[i])
  }

  ghost predicate RowsMeasured(w: RankMetrics.Weight, t: Tables, c: Id) {
    t.Results(c) != [] ==>
      ViewOf(t, c).Some? && AllMeasured(w, ViewOf(t, c).value, t.Results(c))
  }

  lemma MatchingAgrees(supplied: Scalars, derived: Scalars)
    requires ScalarsMatch(supplied, derived)
    ensures Agrees(supplied, derived)
  {
  }

  lemma AcceptedIsMeasured(w: RankMetrics.Weight, t: Tables, c: Id, row: Result)
    requires RankMetrics.Discount(w) && DatasetsOk(t) && ReferencesOk(t) && AcceptsResult(w, t, c, row)
    ensures ViewOf(t, c).Some? && RowMeasured(w, ViewOf(t, c).value, row)
  {
    var run := t.runs[t.candidates[c].inputs.run].inputs;
    var frozen := t.Cases(run.dataset)[row.caseId];
    assert CaseFits(t.datasets[run.dataset], row.caseId, frozen);
    EvaluationScores.DerivedIsMeasured(w, frozen.content, row.observations, run.k);
    MatchingAgrees(row.scalars, Derive(w, frozen.content, row.observations, run.k));
  }

  lemma {:induction false} OneMoreMeasured(w: RankMetrics.Weight, v: View, rows: seq<Result>, row: Result)
    requires AllMeasured(w, v, rows) && RowMeasured(w, v, row)
    ensures AllMeasured(w, v, rows + [row])
  {
  }

  lemma InsertedRow(t: Tables, c: Id, row: Result)
    ensures After(t, InsertResult(c, row)).Results(c) == t.Results(c) + [row]
    ensures ViewOf(After(t, InsertResult(c, row)), c) == ViewOf(t, c)
  {
  }

  lemma NewRowIsMeasured(w: RankMetrics.Weight, t: Tables, c: Id, row: Result)
    requires ViewOf(t, c).Some? && RowMeasured(w, ViewOf(t, c).value, row) && RowsMeasured(w, t, c)
    ensures RowsMeasured(w, After(t, InsertResult(c, row)), c)
  {
    OneMoreMeasured(w, ViewOf(t, c).value, t.Results(c), row);
    InsertedRow(t, c, row);
  }

  lemma OtherRowsStayMeasured(w: RankMetrics.Weight, t: Tables, s: Step, c: Id)
    requires ReferencesOk(t) && ResultsOk(t) && RowsAllowed(t, s) && RowsMeasured(w, t, c)
    requires !(s.InsertResult? && s.candidate == c)
    ensures RowsMeasured(w, After(t, s), c)
  {
    OtherRowsKept(t, s, c);
    if t.Results(c) != [] { KeepsView(t, s, c); }
  }

  lemma StepKeepsMeasured(w: RankMetrics.Weight, t: Tables, s: Step, c: Id)
    requires RankMetrics.Discount(w) && EvaluationSafety.Inv(t) && Accepts(w, t, s) && RowsMeasured(w, t, c)
    ensures RowsMeasured(w, After(t, s), c)
  {
    if s.InsertResult? && s.candidate == c {
      AcceptedIsMeasured(w, t, c, s.result);
      NewRowIsMeasured(w, t, c, s.result);
    } else {
      AcceptedRowsAllowed(w, t, s);
      OtherRowsStayMeasured(w, t, s, c);
    }
  }

  lemma {:induction false} RunKeepsMeasured(w: RankMetrics.Weight, t: Tables, steps: seq<Step>, c: Id)
    requires RankMetrics.Discount(w) && EvaluationSafety.Inv(t) && RowsMeasured(w, t, c)
    ensures RowsMeasured(w, Run(w, t, steps), c)
    decreases |steps|
  {
    if steps != [] {
      KeepsInv(w, t, steps[0]);
      if Accepts(w, t, steps[0]) { StepKeepsMeasured(w, t, steps[0], c); }
      RunKeepsMeasured(w, Apply(w, t, steps[0]), steps[1..], c);
    }
  }

  /** In every run every stored case row holds valid observations of its fixture case, and its scalars agree with what
      they measure. */
  lemma EveryRowIsMeasured(w: RankMetrics.Weight, start: Tables, steps: seq<Step>, c: Id)
    requires RankMetrics.Discount(w) && Initial(start)
    ensures RowsMeasured(w, Run(w, start, steps), c)
  {
    InitialInv(start);
    RunKeepsMeasured(w, start, steps, c);
  }
}
