/**
 What every run of evaluation statements keeps: a completed candidate is frozen
 together with its case rows and its aggregates are the fold over them, and a
 version promoted through the extractive branch has, for good, a completed
 candidate that covers every dataset case without surfacing a source it may not.
 */
module EvaluationSafety {
  import opened Counting
  import opened Options
  import opened EvaluationCase
  import opened EvaluationTables
  import EvaluationAggregates
  import Percentile
  import RankMetrics

  // ---------------------------------------------------------------- invariant

  /** What a candidate evaluates: the inputs of its run and the dataset they name. */
  datatype View = View(run: RunInputs, dataset: Dataset)

  function ViewOf(t: Tables, c: Id): Option<View> {
    if c in t.candidates && t.candidates[c].inputs.run in t.runs
       && t.runs[t.candidates[c].inputs.run].inputs.dataset in t.datasets
    then
      var run := t.runs[t.candidates[c].inputs.run].inputs;
      Some(View(run, t.datasets[run.dataset]))
    else None
  }

  ghost predicate CaseFits(d: Dataset, id: Id, row: CaseRow) {
    0 <= row.ordinal < |d.fixture| && row.content == d.fixture[row.ordinal] && row.content.id == id
  }

  ghost predicate DatasetsOk(t: Tables) {
    && (forall d | d in t.datasets :: t.datasets[d].caseCount == |t.datasets[d].fixture| > 0)
    && (forall d | d in t.cases ::
          d in t.datasets && forall id | id in t.cases[d] :: CaseFits(t.datasets[d], id, t.cases[d][id]))
  }

  ghost predicate ReferencesOk(t: Tables) {
    RunsOk(t) && forall c | c in t.candidates :: CandidateOk(t, c)
  }

  /** A stored case row: its fixture case, one observation per repetition, its leak count and its reproducibility. */
  ghost predicate ResultFits(v: View, row: Result) {
    && 0 <= row.ordinal < |v.dataset.fixture| && row.caseId == v.dataset.fixture[row.ordinal].id
    && |row.observations| == v.run.repetitions
    && row.scalars.leaks == Leaks(v.dataset.fixture[row.ordinal], row.observations)
    && row.scalars.reproducible == Reproducible(row.observations)
  }

  ghost predicate DistinctOrdinals(rows: seq<Result>) {
    forall i, j | 0 <= i < j < |rows| :: rows[i].ordinal != rows[j].ordinal
  }

  ghost predicate RowsFit(v: View, rows: seq<Result>) {
    DistinctOrdinals(rows) && forall i | 0 <= i < |rows| :: ResultFits(v, rows[i])
  }

  ghost predicate ResultsOk(t: Tables) {
    forall c | c in t.results && t.results[c] != [] :: ViewOf(t, c).Some? && RowsFit(ViewOf(t, c).value, t.results[c])
  }

  ghost predicate CompletedFits(v: View, metrics: Aggregates, rows: seq<Result>) {
    CompleteRows(rows, v.dataset.caseCount, v.run.repetitions) && metrics == Aggregate(rows)
  }

  ghost predicate CompletedOk(t: Tables) {
    forall c | c in t.candidates && t.candidates[c].status == Completed ::
      ViewOf(t, c).Some? && CompletedFits(ViewOf(t, c).value, t.candidates[c].metrics, t.Results(c))
  }

  ghost predicate Inv(t: Tables) {
    DatasetsOk(t) && ReferencesOk(t) && ResultsOk(t) && CompletedOk(t)
  }

  /** What the guards say about rows and references, case results aside. */
  ghost predicate RowsAllowed(t: Tables, s: Step) {
    match s
    case InsertDataset(id, d) => AcceptsDataset(t, id, d)
    case InsertCase(d, id, row) => AcceptsCase(t, d, id, row)
    case InsertRun(id, r) => id !in t.runs && r.inputs.dataset in t.datasets && r.inputs.repetitions >= 2
    case UpdateRun(id, newId, r) => AcceptsRunUpdate(t, id, newId, r)
    case InsertCandidate(id, c) => AcceptsCandidate(t, id, c)
    case UpdateCandidate(id, newId, c) => AcceptsCandidateUpdate(t, id, newId, c)
    case UpdateVersion(id, newId, _, _) => newId != id ==> newId !in t.versions && !VersionReferenced(t, id)
    case RewriteEvidence => false
    case _ => true
  }

  lemma AcceptedRowsAllowed(w: RankMetrics.Weight, t: Tables, s: Step)
    requires RankMetrics.Discount(w) && Accepts(w, t, s)
    ensures RowsAllowed(t, s)
  {
  }

  // ---------------------------------------------------------------- what statements leave alone

  lemma RecomputeKeepsInputs(t: Tables, id: Id, c: Candidate, was: Option<Status>)
    requires Recompute(t, id, c, was).Some?
    ensures Recompute(t, id, c, was).value == c.(metrics := Recompute(t, id, c, was).value.metrics)
    ensures c.status != Completed || was == Some(Completed) ==> Recompute(t, id, c, was).value == c
  {
  }

  /** A candidate that has case rows keeps its run inputs and its dataset. */
  lemma KeepsView(t: Tables, s: Step, c: Id)
    requires ReferencesOk(t) && RowsAllowed(t, s)
    requires c in t.candidates && t.Results(c) != []
    ensures c in After(t, s).candidates && After(t, s).candidates[c].inputs == t.candidates[c].inputs
    ensures ViewOf(After(t, s), c) == ViewOf(t, c)
  {
    if s.UpdateCandidate? {
      KeepsViewOnCandidateUpdate(t, s.candidate, s.newCandidate, s.supplied, c);
    } else {
      OtherKeepsView(t, s, c);
    }
  }

  lemma OtherKeepsView(t: Tables, s: Step, c: Id)
    requires ReferencesOk(t) && RowsAllowed(t, s) && !s.UpdateCandidate? && c in t.candidates
    ensures c in After(t, s).candidates && After(t, s).candidates[c].inputs == t.candidates[c].inputs
    ensures ViewOf(After(t, s), c) == ViewOf(t, c)
  {
    if s.UpdateRun? {
      KeepsViewOnRunUpdate(t, s.run, s.newRun, s.runRow, c);
    } else {
      ViewKnown(t, c);
      InsertsAreNew(t, s);
      InsertKeepsView(t, s, c);
    }
  }

  lemma ViewKnown(t: Tables, c: Id)
    requires ReferencesOk(t) && c in t.candidates
    ensures ViewOf(t, c).Some?
  {
    assert CandidateOk(t, c);
  }

  lemma InsertsAreNew(t: Tables, s: Step)
    requires RowsAllowed(t, s)
    ensures s.InsertDataset? ==> s.dataset !in t.datasets
    ensures s.InsertRun? ==> s.run !in t.runs
    ensures s.InsertCandidate? ==> s.candidate !in t.candidates
  {
  }

  lemma InsertKeepsView(t: Tables, s: Step, c: Id)
    requires !s.UpdateRun? && !s.UpdateCandidate? && ViewOf(t, c).Some?
    requires s.InsertDataset? ==> s.dataset !in t.datasets
    requires s.InsertRun? ==> s.run !in t.runs
    requires s.InsertCandidate? ==> s.candidate !in t.candidates
    ensures c in After(t, s).candidates && After(t, s).candidates[c].inputs == t.candidates[c].inputs
    ensures ViewOf(After(t, s), c) == ViewOf(t, c)
  {
  }

  lemma KeepsViewOnRunUpdate(t: Tables, id: Id, newId: Id, r: RunRow, c: Id)
    requires ReferencesOk(t) && AcceptsRunUpdate(t, id, newId, r) && c in t.candidates
    ensures ViewOf(t.(runs := Moved(t.runs, id, newId, r)), c) == ViewOf(t, c)
    ensures t.candidates[c].inputs.run in Moved(t.runs, id, newId, r)
  {
    if newId != id {
      assert t.candidates[c].inputs.run != id;
    }
  }

  lemma KeepsViewOnCandidateUpdate(t: Tables, id: Id, newId: Id, supplied: Candidate, c: Id)
    requires ReferencesOk(t) && AcceptsCandidateUpdate(t, id, newId, supplied)
    requires c in t.candidates && t.Results(c) != []
    ensures var u := After(t, Step.UpdateCandidate(id, newId, supplied));
            c in u.candidates && u.candidates[c].inputs == t.candidates[c].inputs && ViewOf(u, c) == ViewOf(t, c)
  {
    RecomputeKeepsInputs(t, newId, supplied, Some(t.candidates[id].status));
  }

  // ---------------------------------------------------------------- preservation: datasets and references

  lemma KeepsDatasets(t: Tables, s: Step)
    requires DatasetsOk(t) && RowsAllowed(t, s)
    ensures DatasetsOk(After(t, s))
    ensures forall d | d in t.datasets :: d in After(t, s).datasets && After(t, s).datasets[d] == t.datasets[d]
  {
    match s
    case InsertDataset(id, d) => assert forall other | other in t.cases :: other != id;
    case InsertCase(d, id, row) =>
    case _ =>
  }

  ghost predicate RunsOk(t: Tables) {
    forall r | r in t.runs :: t.runs[r].inputs.dataset in t.datasets && t.runs[r].inputs.repetitions >= 2
  }

  ghost predicate CandidateOk(t: Tables, c: Id)
    requires c in t.candidates
  {
    t.candidates[c].inputs.run in t.runs && t.candidates[c].inputs.version in t.versions
  }

  lemma KeepsRuns(t: Tables, s: Step)
    requires RunsOk(t) && RowsAllowed(t, s)
    ensures RunsOk(After(t, s))
  {
  }

  lemma KeepsCandidate(t: Tables, s: Step, c: Id)
    requires ReferencesOk(t) && RowsAllowed(t, s) && c in After(t, s).candidates
    ensures CandidateOk(After(t, s), c)
  {
    match s
    case InsertCandidate(id, supplied) => RecomputeKeepsInputs(t, id, supplied, None);
    case UpdateCandidate(id, newId, supplied) => RecomputeKeepsInputs(t, newId, supplied, Some(t.candidates[id].status));
    case _ => OtherKeepsCandidate(t, s, c);
  }

  lemma OtherKeepsCandidate(t: Tables, s: Step, c: Id)
    requires ReferencesOk(t) && RowsAllowed(t, s) && c in After(t, s).candidates
    requires !s.InsertCandidate? && !s.UpdateCandidate?
    ensures CandidateOk(After(t, s), c)
  {
    assert CandidateOk(t, c);
    match s
    case UpdateRun(id, newId, r) => KeepsViewOnRunUpdate(t, id, newId, r, c);
    case UpdateVersion(id, newId, v, _) => assert newId != id ==> t.candidates[c].inputs.version != id;
    case _ =>
  }

  lemma KeepsReferences(t: Tables, s: Step)
    requires ReferencesOk(t) && RowsAllowed(t, s)
    ensures ReferencesOk(After(t, s))
  {
    KeepsRuns(t, s);
    forall c | c in After(t, s).candidates
      ensures CandidateOk(After(t, s), c)
    {
      KeepsCandidate(t, s, c);
    }
  }

  // ---------------------------------------------------------------- preservation: case rows

  /** What the trigger has established about an accepted case row. */
  lemma AcceptedResultFits(w: RankMetrics.Weight, t: Tables, c: Id, row: Result)
    requires RankMetrics.Discount(w) && DatasetsOk(t) && ReferencesOk(t) && AcceptsResult(w, t, c, row)
    ensures ViewOf(t, c).Some? && ResultFits(ViewOf(t, c).value, row)
    ensures ResultUnique(t.Results(c), row)
  {
    var run := t.runs[t.candidates[c].inputs.run].inputs;
    var frozen := t.Cases(run.dataset)[row.caseId];
    assert CaseFits(t.datasets[run.dataset], row.caseId, frozen);
    DerivedFlags(w, frozen.content, row.observations, run.k, row.scalars);
  }

  lemma DerivedFlags(w: RankMetrics.Weight, f: FixtureCase, observations: seq<Observation>, k: nat, supplied: Scalars)
    requires RankMetrics.Discount(w) && k > 0 && observations != []
    requires ScalarsMatch(supplied, Derive(w, f, observations, k))
    ensures supplied.leaks == Leaks(f, observations) && supplied.reproducible == Reproducible(observations)
  {
  }

  lemma KeepsResults(w: RankMetrics.Weight, t: Tables, s: Step)
    requires RankMetrics.Discount(w) && Inv(t) && RowsAllowed(t, s)
    requires s.InsertResult? ==> AcceptsResult(w, t, s.candidate, s.result)
    ensures ResultsOk(After(t, s))
  {
    var u := After(t, s);
    forall c | c in u.results && u.results[c] != []
      ensures ViewOf(u, c).Some? && RowsFit(ViewOf(u, c).value, u.results[c])
    {
      KeepsRowsOf(w, t, s, c);
    }
  }

  lemma KeepsRowsOf(w: RankMetrics.Weight, t: Tables, s: Step, c: Id)
    requires RankMetrics.Discount(w) && Inv(t) && RowsAllowed(t, s) && After(t, s).Results(c) != []
    requires s.InsertResult? ==> AcceptsResult(w, t, s.candidate, s.result)
    ensures ViewOf(After(t, s), c).Some? && RowsFit(ViewOf(After(t, s), c).value, After(t, s).Results(c))
  {
    if s.InsertResult? && s.candidate == c {
      AcceptedResultFits(w, t, c, s.result);
      assert ViewOf(After(t, s), c) == ViewOf(t, c);
      RowsSnoc(ViewOf(t, c).value, t.Results(c), s.result);
    } else {
      OtherRowsKept(t, s, c);
      KeepsView(t, s, c);
    }
  }

  lemma OtherRowsKept(t: Tables, s: Step, c: Id)
    requires !(s.InsertResult? && s.candidate == c)
    ensures After(t, s).Results(c) == t.Results(c)
  {
  }

  lemma RowsSnoc(v: View, rows: seq<Result>, row: Result)
    requires rows != [] ==> RowsFit(v, rows)
    requires ResultFits(v, row) && ResultUnique(rows, row)
    ensures RowsFit(v, rows + [row])
  {
  }

  // ---------------------------------------------------------------- no room left

  function Ordinals(rows: seq<Result>): set<int> {
    if rows == [] then {} else {rows[0].ordinal} + Ordinals(rows[1..])
  }

  lemma {:induction false} OrdinalsSize(rows: seq<Result>)
    requires DistinctOrdinals(rows)
    ensures |Ordinals(rows)| == |rows|
    ensures forall n :: n in Ordinals(rows) <==> exists i | 0 <= i < |rows| :: rows[i].ordinal == n
  {
    if rows != [] {
      OrdinalsSize(rows[1..]);
      forall n
        ensures n in Ordinals(rows) <==> exists i | 0 <= i < |rows| :: rows[i].ordinal == n
      {
        if n in Ordinals(rows[1..]) {
          var i :| 0 <= i < |rows[1..]| && rows[1..][i].ordinal == n;
          assert rows[i + 1].ordinal == n;
        }
        if i :| 0 < i < |rows| && rows[i].ordinal == n {
          assert rows[1..][i - 1].ordinal == n;
        }
      }
    }
  }

  /** As many rows with distinct ordinals as there are cases: every case has its row. */
  lemma EveryCaseHasARow(v: View, rows: seq<Result>, n: int) returns (i: nat)
    requires RowsFit(v, rows) && |rows| == |v.dataset.fixture| && 0 <= n < |v.dataset.fixture|
    ensures i < |rows| && rows[i].ordinal == n
  {
    var all := Range(0, |v.dataset.fixture|);
    OrdinalsSize(rows);
    RangeSize(0, |v.dataset.fixture|);
    forall m | m in Ordinals(rows)
      ensures m in all
    {
      var j :| 0 <= j < |rows| && rows[j].ordinal == m;
      assert ResultFits(v, rows[j]);
    }
    SubsetSize(Ordinals(rows), all);
    assert n in all;
    i :| 0 <= i < |rows| && rows[i].ordinal == n;
  }

  /** A complete candidate accepts no further case row. */
  lemma NoRoomLeft(w: RankMetrics.Weight, t: Tables, c: Id, row: Result)
    requires RankMetrics.Discount(w) && Inv(t) && c in t.candidates && t.candidates[c].status == Completed
    ensures !AcceptsResult(w, t, c, row)
  {
    if AcceptsResult(w, t, c, row) {
      AcceptedResultFits(w, t, c, row);
      CompletedHasRows(t, c);
      var i := EveryCaseHasARow(ViewOf(t, c).value, t.Results(c), row.ordinal);
      assert false;
    }
  }

  lemma CompletedHasRows(t: Tables, c: Id)
    requires Inv(t) && c in t.candidates && t.candidates[c].status == Completed
    ensures ViewOf(t, c).Some? && t.Results(c) != []
    ensures |t.Results(c)| == |ViewOf(t, c).value.dataset.fixture|
    ensures RowsFit(ViewOf(t, c).value, t.Results(c))
    ensures CompletedFits(ViewOf(t, c).value, t.candidates[c].metrics, t.Results(c))
  {
  }

  // ---------------------------------------------------------------- preservation: completed candidates

  /** A completed candidate, its rows, its run inputs and its dataset stay as they are under every statement. */
  lemma CompletedIsFrozen(w: RankMetrics.Weight, t: Tables, s: Step, c: Id)
    requires RankMetrics.Discount(w) && Inv(t) && c in t.candidates && t.candidates[c].status == Completed
    ensures var u := Apply(w, t, s);
            && c in u.candidates && u.candidates[c] == t.candidates[c]
            && u.Results(c) == t.Results(c) && ViewOf(u, c) == ViewOf(t, c)
  {
    if s.InsertResult? && s.candidate == c {
      NoRoomLeft(w, t, c, s.result);
    } else if Accepts(w, t, s) {
      AcceptedRowsAllowed(w, t, s);
      CompletedStays(t, s, c);
    }
  }

  lemma CompletedStays(t: Tables, s: Step, c: Id)
    requires Inv(t) && RowsAllowed(t, s) && c in t.candidates && t.candidates[c].status == Completed
    requires !(s.InsertResult? && s.candidate == c)
    ensures var u := After(t, s);
            && c in u.candidates && u.candidates[c] == t.candidates[c]
            && u.Results(c) == t.Results(c) && ViewOf(u, c) == ViewOf(t, c)
  {
    CompletedHasRows(t, c);
    KeepsView(t, s, c);
    OtherRowsKept(t, s, c);
    CompletedRowKept(t, s, c);
  }

  lemma CompletedRowKept(t: Tables, s: Step, c: Id)
    requires RowsAllowed(t, s)
    requires c in t.candidates && t.candidates[c].status == Completed
    ensures c in After(t, s).candidates && After(t, s).candidates[c] == t.candidates[c]
  {
    match s
    case InsertCandidate(id, supplied) => assert id != c;
    case UpdateCandidate(id, newId, supplied) =>
      RecomputeKeepsInputs(t, newId, supplied, Some(t.candidates[id].status));
    case _ =>
  }

  /** Completion is stored only with exact aggregates over complete rows. */
  lemma CompletionIsExact(t: Tables, id: Id, c: Candidate, was: Option<Status>)
    requires Recompute(t, id, c, was).Some? && c.status == Completed && was != Some(Completed)
    ensures var run := t.runs[c.inputs.run].inputs;
            && run.dataset in t.datasets
            && CompleteRows(t.Results(id), t.datasets[run.dataset].caseCount, run.repetitions)
            && Recompute(t, id, c, was).value == c.(metrics := Aggregate(t.Results(id)))
  {
  }

  lemma NoRowsWithoutCandidate(t: Tables, id: Id)
    requires Inv(t) && id !in t.candidates
    ensures t.Results(id) == []
  {
  }

  /** A candidate cannot be inserted as completed, nor be renamed while completing: it would have no case rows. */
  lemma NotBornCompleted(t: Tables, id: Id, c: Candidate, was: Option<Status>)
    requires Inv(t) && id !in t.candidates && c.status == Completed && was != Some(Completed)
    ensures Recompute(t, id, c, was) == None
  {
    NoRowsWithoutCandidate(t, id);
  }

  lemma KeepsCompleted(w: RankMetrics.Weight, t: Tables, s: Step)
    requires RankMetrics.Discount(w) && Inv(t) && Accepts(w, t, s)
    ensures CompletedOk(After(t, s))
  {
    var u := After(t, s);
    forall c | c in u.candidates && u.candidates[c].status == Completed
      ensures ViewOf(u, c).Some? && CompletedFits(ViewOf(u, c).value, u.candidates[c].metrics, u.Results(c))
    {
      KeepsCompletedOf(w, t, s, c);
    }
  }

  lemma KeepsCompletedOf(w: RankMetrics.Weight, t: Tables, s: Step, c: Id)
    requires RankMetrics.Discount(w) && Inv(t) && Accepts(w, t, s)
    requires c in After(t, s).candidates && After(t, s).candidates[c].status == Completed
    ensures var u := After(t, s);
            ViewOf(u, c).Some? && CompletedFits(ViewOf(u, c).value, u.candidates[c].metrics, u.Results(c))
  {
    AcceptedRowsAllowed(w, t, s);
    if c in t.candidates && t.candidates[c].status == Completed {
      CompletedIsFrozen(w, t, s, c);
    } else {
      NewlyCompleted(t, s, c);
    }
  }

  lemma NewlyCompleted(t: Tables, s: Step, c: Id)
    requires Inv(t) && RowsAllowed(t, s) && !(c in t.candidates && t.candidates[c].status == Completed)
    requires c in After(t, s).candidates && After(t, s).candidates[c].status == Completed
    ensures var u := After(t, s);
            ViewOf(u, c).Some? && CompletedFits(ViewOf(u, c).value, u.candidates[c].metrics, u.Results(c))
  {
    match s
    case InsertCandidate(id, supplied) => NotBornCompletedRow(t, id, supplied);
    case UpdateCandidate(id, newId, supplied) => CompletesByUpdate(t, id, newId, supplied, c);
    case _ => assert false;
  }

  lemma NotBornCompletedRow(t: Tables, id: Id, c: Candidate)
    requires Inv(t) && AcceptsCandidate(t, id, c)
    ensures c.status != Completed && Recompute(t, id, c, None) == Some(c)
  {
    if c.status == Completed { NotBornCompleted(t, id, c, None); }
  }

  lemma CompletesByUpdate(t: Tables, id: Id, newId: Id, supplied: Candidate, c: Id)
    requires Inv(t) && AcceptsCandidateUpdate(t, id, newId, supplied)
    requires !(c in t.candidates && t.candidates[c].status == Completed)
    requires var u := After(t, Step.UpdateCandidate(id, newId, supplied));
             c in u.candidates && u.candidates[c].status == Completed
    ensures var u := After(t, Step.UpdateCandidate(id, newId, supplied));
            ViewOf(u, c).Some? && CompletedFits(ViewOf(u, c).value, u.candidates[c].metrics, u.Results(c))
  {
    var was := Some(t.candidates[id].status);
    RecomputeKeepsInputs(t, newId, supplied, was);
    if newId != id { NotBornCompletedMoved(t, id, newId, supplied); }
    CompletionIsExact(t, newId, supplied, was);
  }

  lemma NotBornCompletedMoved(t: Tables, id: Id, newId: Id, supplied: Candidate)
    requires Inv(t) && AcceptsCandidateUpdate(t, id, newId, supplied) && newId != id
    ensures supplied.status != Completed
  {
    if supplied.status == Completed {
      NotBornCompleted(t, newId, supplied, Some(t.candidates[id].status));
      assert false;
    }
  }

  lemma KeepsInv(w: RankMetrics.Weight, t: Tables, s: Step)
    requires RankMetrics.Discount(w) && Inv(t)
    ensures Inv(Apply(w, t, s))
  {
    if Accepts(w, t, s) {
      AcceptedRowsAllowed(w, t, s);
      KeepsDatasets(t, s);
      KeepsReferences(t, s);
      KeepsResults(w, t, s);
      KeepsCompleted(w, t, s);
    }
  }

  lemma {:induction false} RunKeepsInv(w: RankMetrics.Weight, t: Tables, steps: seq<Step>)
    requires RankMetrics.Discount(w) && Inv(t)
    ensures Inv(Run(w, t, steps))
    decreases |steps|
  {
    if steps != [] {
      KeepsInv(w, t, steps[0]);
      RunKeepsInv(w, Apply(w, t, steps[0]), steps[1..]);
    }
  }

  lemma {:induction false} RunKeepsCompleted(w: RankMetrics.Weight, t: Tables, steps: seq<Step>, c: Id)
    requires RankMetrics.Discount(w) && Inv(t) && c in t.candidates && t.candidates[c].status == Completed
    ensures var u := Run(w, t, steps);
            && c in u.candidates && u.candidates[c] == t.candidates[c]
            && u.Results(c) == t.Results(c) && ViewOf(u, c) == ViewOf(t, c)
    decreases |steps|
  {
    if steps != [] {
      KeepsInv(w, t, steps[0]);
      CompletedIsFrozen(w, t, steps[0], c);
      RunKeepsCompleted(w, Apply(w, t, steps[0]), steps[1..], c);
    }
  }

  lemma InitialInv(t: Tables)
    requires Initial(t)
    ensures Inv(t)
  {
  }

  // ---------------------------------------------------------------- main result: aggregates

  ghost predicate HasOrdinal(rows: seq<Result>, n: int) {
    exists i | 0 <= i < |rows| :: rows[i].ordinal == n
  }

  /** One row for every case of the dataset, and aggregates that measure those rows. */
  ghost predicate Exact(v: View, metrics: Aggregates, rows: seq<Result>) {
    && |rows| == |v.dataset.fixture| && (forall n | 0 <= n < |rows| :: HasOrdinal(rows, n))
    && metrics == Aggregate(rows) && EvaluationAggregates.Measures(metrics, rows)
    && (metrics.p50.Some? && metrics.p95.Some? ==> metrics.p50.value <= metrics.p95.value)
  }

  lemma CompletedIsExact(t: Tables, c: Id)
    requires Inv(t) && c in t.candidates && t.candidates[c].status == Completed
    ensures ViewOf(t, c).Some? && Exact(ViewOf(t, c).value, t.candidates[c].metrics, t.Results(c))
  {
    CompletedHasRows(t, c);
    var rows := t.Results(c);
    forall n | 0 <= n < |rows|
      ensures HasOrdinal(rows, n)
    {
      var i := EveryCaseHasARow(ViewOf(t, c).value, rows, n);
    }
    PercentilesOrdered(rows);
    EvaluationAggregates.AggregateMeasures(rows);
  }

  lemma PercentilesOrdered(rows: seq<Result>)
    ensures var m := Aggregate(rows); m.p50.Some? && m.p95.Some? ==> m.p50.value <= m.p95.value
  {
    if Durations(rows) != [] { Percentile.ContMonotone(Durations(rows), 0.50, 0.95); }
  }

  /** In every run: once a candidate is completed, it has one row per dataset case and each of its aggregates measures its
      own scalar of those rows, and candidate, rows, run inputs and dataset are the same in every later state. */
  lemma AggregatesStayExact(w: RankMetrics.Weight, start: Tables, before: seq<Step>, later: seq<Step>, c: Id)
    requires RankMetrics.Discount(w) && Initial(start)
    requires var t := Run(w, start, before); c in t.candidates && t.candidates[c].status == Completed
    ensures var t, u := Run(w, start, before), Run(w, start, before + later);
            && c in u.candidates && u.candidates[c] == t.candidates[c] && u.Results(c) == t.Results(c)
            && ViewOf(u, c) == ViewOf(t, c) && ViewOf(u, c).Some?
            && Exact(ViewOf(u, c).value, u.candidates[c].metrics, u.Results(c))
  {
    InitialInv(start);
    RunKeepsInv(w, start, before);
    RunAppend(w, start, before, later);
    RunKeepsCompleted(w, Run(w, start, before), later, c);
    CompletedIsExact(Run(w, start, before), c);
  }

  // ---------------------------------------------------------------- main result: promotion

  /** Some row of candidate c is the evidence for case n: every source surfaced in any of its observations may be
      shown, and its repetitions agree. */
  ghost predicate CaseEvidence(v: View, rows: seq<Result>, n: nat)
    requires n < |v.dataset.fixture|
  {
    exists i | 0 <= i < |rows| ::
      && rows[i].ordinal == n && rows[i].caseId == v.dataset.fixture[n].id
      && |rows[i].observations| == v.run.repetitions >= 2 && Reproducible(rows[i].observations)
      && forall o | 0 <= o < |rows[i].observations| :: Clean(v.dataset.fixture[n], rows[i].observations[o].content)
  }

  ghost predicate Evidence(t: Tables, version: Id, c: Id) {
    && c in t.candidates && t.candidates[c].inputs.version == version && t.candidates[c].status == Completed
    && ViewOf(t, c).Some?
    && forall n | 0 <= n < |ViewOf(t, c).value.dataset.fixture| :: CaseEvidence(ViewOf(t, c).value, t.Results(c), n)
  }

  /** Every limit of the policy holds of the aggregates. */
  ghost predicate WithinLimits(m: Aggregates, p: Policy) {
    && m.recall.Some? && m.recall.value >= p.minRecall
    && m.mrr.Some? && m.mrr.value >= p.minMrr
    && m.ndcg.Some? && m.ndcg.value >= p.minNdcg
    && m.precision.Some? && m.precision.value >= p.minPrecision
    && m.falseGrounding.Some? && m.falseGrounding.value <= p.maxFalseGrounding
    && m.highlight.Some? && m.highlight.value >= p.minHighlight
    && m.p50.Some? && m.p50.value <= p.maxP50
    && m.p95.Some? && m.p95.value <= p.maxP95
    && m.leaks.Some? && m.leaks.value <= p.maxLeaks == 0
    && m.reproducibility.Some? && m.reproducibility.value >= p.reproducibility == 1.0
  }

  /** Candidate c measured the stored version in a completed run whose policy is for the same owner, dataset, cut-off and
      metric definition, and met every limit of that policy. */
  ghost predicate LimitsMet(t: Tables, version: Id, c: Id) {
    && c in t.candidates && ViewOf(t, c).Some? && version in t.versions
    && var candidate, run := t.candidates[c], t.runs[t.candidates[c].inputs.run];
    && candidate.status == Completed && candidate.failure == None && run.status == Completed && run.failure == None
    && candidate.inputs.version == version && candidate.inputs.components == t.versions[version].components
    && OwnerFits(t, t.versions[version].configuration, run.inputs.owner)
    && run.inputs.hashes == t.datasets[run.inputs.dataset].hashes
    && run.inputs.policy.Some? && run.inputs.policy.value in t.policies
    && var p := t.policies[run.inputs.policy.value];
    && p.owner == run.inputs.owner && p.dataset == run.inputs.dataset
    && p.k == run.inputs.k && p.metricVersion == run.inputs.metricVersion
    && WithinLimits(candidate.metrics, p)
  }

  /** The configuration is a system one or belongs to the owner. */
  ghost predicate OwnerFits(t: Tables, configuration: Id, owner: Id) {
    && configuration in t.configurations
    && (t.configurations[configuration] == None || t.configurations[configuration] == Some(owner))
  }

  /** A completed candidate of the version whose aggregates measure one clean and reproducible row per dataset case, and
      meet every limit of the policy of its run. */
  ghost predicate Qualified(t: Tables, version: Id, c: Id) {
    && Evidence(t, version, c) && LimitsMet(t, version, c)
    && Exact(ViewOf(t, c).value, t.candidates[c].metrics, t.Results(c))
  }

  // ---------------------------------------------------------------- what qualified stays qualified

  /** What the guards say about policies and configurations. */
  ghost predicate LimitsAllowed(t: Tables, s: Step) {
    match s
    case InsertPolicy(id, _) => id !in t.policies
    case InsertConfiguration(id, _) => id !in t.configurations
    case _ => true
  }

  lemma AcceptedLimitsAllowed(w: RankMetrics.Weight, t: Tables, s: Step)
    requires RankMetrics.Discount(w) && Accepts(w, t, s)
    ensures LimitsAllowed(t, s)
  {
  }

  lemma PolicyStays(t: Tables, s: Step, p: Id)
    requires LimitsAllowed(t, s) && p in t.policies
    ensures p in After(t, s).policies && After(t, s).policies[p] == t.policies[p]
  {
  }

  lemma OwnerStays(t: Tables, s: Step, configuration: Id, owner: Id)
    requires LimitsAllowed(t, s) && OwnerFits(t, configuration, owner)
    ensures OwnerFits(After(t, s), configuration, owner)
  {
  }

  lemma CompletedRunStays(t: Tables, s: Step, run: Id)
    requires RowsAllowed(t, s) && run in t.runs && t.runs[run].status == Completed
    ensures run in After(t, s).runs && After(t, s).runs[run] == t.runs[run]
  {
  }

  lemma EvaluatedVersionStays(t: Tables, s: Step, c: Id, version: Id)
    requires VersionAllowed(t, s) && version in t.versions
    requires c in t.candidates && t.candidates[c].inputs.version == version
    ensures version in After(t, s).versions
    ensures After(t, s).versions[version].components == t.versions[version].components
    ensures After(t, s).versions[version].configuration == t.versions[version].configuration
  {
    if s.UpdateVersion? && s.newVersion != s.version { assert VersionReferenced(t, version); }
  }

  lemma LimitsStay(w: RankMetrics.Weight, t: Tables, s: Step, version: Id, c: Id)
    requires RankMetrics.Discount(w) && Inv(t) && LimitsMet(t, version, c) && Accepts(w, t, s)
    ensures LimitsMet(After(t, s), version, c)
  {
    AcceptedRowsAllowed(w, t, s);
    AcceptedLimitsAllowed(w, t, s);
    AcceptedVersion(w, t, s);
    CompletedIsFrozen(w, t, s, c);
    var run := t.candidates[c].inputs.run;
    CompletedRunStays(t, s, run);
    PolicyStays(t, s, t.runs[run].inputs.policy.value);
    OwnerStays(t, s, t.versions[version].configuration, t.runs[run].inputs.owner);
    EvaluatedVersionStays(t, s, c, version);
  }

  /** What qualifies a version qualifies it in every later state. */
  lemma QualifiedStays(w: RankMetrics.Weight, t: Tables, s: Step, version: Id, c: Id)
    requires RankMetrics.Discount(w) && Inv(t) && Qualified(t, version, c)
    ensures Qualified(Apply(w, t, s), version, c)
  {
    CompletedIsFrozen(w, t, s, c);
    if Accepts(w, t, s) { LimitsStay(w, t, s, version, c); }
  }

  lemma {:induction false} RunKeepsQualified(w: RankMetrics.Weight, t: Tables, steps: seq<Step>, version: Id, c: Id)
    requires RankMetrics.Discount(w) && Inv(t) && Qualified(t, version, c)
    ensures Qualified(Run(w, t, steps), version, c)
    decreases |steps|
  {
    if steps != [] {
      KeepsInv(w, t, steps[0]);
      QualifiedStays(w, t, steps[0], version, c);
      RunKeepsQualified(w, Apply(w, t, steps[0]), steps[1..], version, c);
    }
  }

  // ---------------------------------------------------------------- main result: promotion, its evidence

  lemma {:induction false} NoLeaksInTotal(v: View, rows: seq<Result>)
    requires forall i | 0 <= i < |rows| :: ResultFits(v, rows[i])
    ensures TotalLeaks(rows) >= 0
    ensures TotalLeaks(rows) == 0 ==> forall i | 0 <= i < |rows| :: rows[i].scalars.leaks == 0
  {
    if rows != [] {
      assert ResultFits(v, rows[0]);
      NoLeaksInTotal(v, rows[1..]);
      if TotalLeaks(rows) == 0 {
        forall i | 0 <= i < |rows|
          ensures rows[i].scalars.leaks == 0
        {
          if i > 0 { assert rows[i] == rows[1..][i - 1]; }
        }
      }
    }
  }

  lemma {:induction false} ReproducedColumn(rows: seq<Result>)
    ensures var column := Column(rows, Reproduced);
            && |column| == |rows| && Sum(column) <= |rows| as real
            && (Sum(column) == |rows| as real ==> forall i | 0 <= i < |rows| :: rows[i].scalars.reproducible)
  {
    if rows != [] {
      ReproducedColumn(rows[1..]);
      var column, rest := Column(rows, Reproduced), Column(rows[1..], Reproduced);
      assert column == [if rows[0].scalars.reproducible then 1.0 else 0.0] + rest;
      assert column[1..] == rest;
      if Sum(column) == |rows| as real {
        forall i | 0 <= i < |rows|
          ensures rows[i].scalars.reproducible
        {
          if i > 0 { assert rows[i] == rows[1..][i - 1]; }
        }
      }
    }
  }

  lemma FullRatio(sum: real, count: real)
    requires 0.0 < count && sum <= count && sum / count >= 1.0
    ensures sum == count
  {
    assert sum / count * count == sum;
  }

  /** An average reproducibility of 1 leaves no row that is not reproducible. */
  lemma AllReproduced(rows: seq<Result>)
    requires rows != [] && AtLeast(Aggregate(rows).reproducibility, 1.0)
    ensures forall i | 0 <= i < |rows| :: rows[i].scalars.reproducible
  {
    ReproducedColumn(rows);
    FullRatio(Sum(Column(rows, Reproduced)), |rows| as real);
  }

  /** A completed candidate without leaks and fully reproducible is evidence for every case of its dataset. */
  lemma CleanCandidateIsEvidence(t: Tables, c: Id)
    requires Inv(t) && c in t.candidates && t.candidates[c].status == Completed
    requires t.candidates[c].metrics.leaks.Some? && t.candidates[c].metrics.leaks.value <= 0
    requires AtLeast(t.candidates[c].metrics.reproducibility, 1.0)
    ensures Evidence(t, t.candidates[c].inputs.version, c)
  {
    CompletedHasRows(t, c);
    var v, rows := ViewOf(t, c).value, t.Results(c);
    NoLeaksInTotal(v, rows);
    AllReproduced(rows);
    RepetitionsAtLeastTwo(t, c);
    forall n | 0 <= n < |v.dataset.fixture|
      ensures CaseEvidence(v, rows, n)
    {
      var i := EveryCaseHasARow(v, rows, n);
      assert ResultFits(v, rows[i]);
      NoLeaksExactlyWhenClean(v.dataset.fixture[n], rows[i].observations);
    }
  }

  lemma RepetitionsAtLeastTwo(t: Tables, c: Id)
    requires ReferencesOk(t) && ViewOf(t, c).Some?
    ensures ViewOf(t, c).value.run.repetitions >= 2
  {
  }

  /** The statement makes version id passed and is not let through by the generative early return. */
  ghost predicate PromotesExtractively(w: RankMetrics.Weight, t: Tables, s: Step, id: Id)
    requires RankMetrics.Discount(w)
  {
    && Accepts(w, t, s)
    && match s
       case InsertVersion(newId, v, check) => newId == id && v.state == Passed && check != Verified
       case UpdateVersion(was, newId, v, check) =>
         && newId == id && v.state == Passed && check != Verified
         && was in t.versions && t.versions[was].state != Passed
       case _ => false
  }

  lemma GateGivesCandidate(t: Tables, id: Id, v: Version, was: Option<Version>, check: GenerativeCheck) returns (c: Id)
    requires GateAllows(t, id, v, was, check) && v.state == Passed && check != Verified
    requires was.Some? ==> was.value.state != Passed
    ensures Qualifies(t, id, v, c)
  {
    c :| c in t.candidates && Qualifies(t, id, v, c);
  }

  lemma QualifiedFacts(t: Tables, id: Id, v: Version, c: Id)
    requires Qualifies(t, id, v, c)
    ensures c in t.candidates && t.candidates[c].inputs.version == id && id in t.versions
    ensures t.candidates[c].status == Completed
    ensures t.candidates[c].metrics.leaks.Some? && t.candidates[c].metrics.leaks.value <= 0
    ensures AtLeast(t.candidates[c].metrics.reproducibility, 1.0)
  {
  }

  lemma QualifiesWithinLimits(t: Tables, id: Id, v: Version, c: Id)
    requires Qualifies(t, id, v, c) && v.configuration == t.versions[id].configuration
    ensures LimitsMet(t, id, c)
  {
  }

  lemma LimitsQualify(t: Tables, id: Id, v: Version, c: Id)
    requires Inv(t) && LimitsMet(t, id, c) && v.configuration == t.versions[id].configuration
    ensures Qualifies(t, id, v, c)
  {
    CompletedHasRows(t, c);
  }

  /** Without an acceptance the gate lets a stored version become passed exactly when a candidate met every limit. */
  lemma PromotionExactWhen(t: Tables, id: Id, v: Version)
    requires Inv(t) && id in t.versions && t.versions[id].state != Passed
    requires v.state == Passed && v.configuration == t.versions[id].configuration
    ensures GateAllows(t, id, v, Some(t.versions[id]), NoAcceptance) <==> exists c :: LimitsMet(t, id, c)
  {
    if GateAllows(t, id, v, Some(t.versions[id]), NoAcceptance) {
      var c := GateGivesCandidate(t, id, v, Some(t.versions[id]), NoAcceptance);
      QualifiesWithinLimits(t, id, v, c);
    }
    if c :| LimitsMet(t, id, c) { LimitsQualify(t, id, v, c); }
  }

  /** A new version cannot be inserted as passed: no candidate can have evaluated it. */
  lemma NotBornPassed(w: RankMetrics.Weight, t: Tables, id: Id, v: Version, check: GenerativeCheck)
    requires RankMetrics.Discount(w) && check != Verified && v.state == Passed
    ensures !Accepts(w, t, Step.InsertVersion(id, v, check))
  {
    if AcceptsVersion(t, id, v, check) {
      var c := GateGivesCandidate(t, id, v, None, check);
      QualifiedFacts(t, id, v, c);
      assert false;
    }
  }

  lemma PromotionHasEvidence(w: RankMetrics.Weight, t: Tables, s: Step, id: Id) returns (c: Id)
    requires RankMetrics.Discount(w) && Inv(t) && PromotesExtractively(w, t, s, id)
    ensures Qualified(t, id, c)
    ensures id in After(t, s).versions && After(t, s).versions[id].state == Passed
  {
    if s.InsertVersion? {
      NotBornPassed(w, t, id, s.versionRow, s.check);
    } else {
      AcceptedVersion(w, t, s);
      c := GateQualifies(t, s.version, id, s.versionRow, s.check);
    }
  }

  lemma GateQualifies(t: Tables, id: Id, newId: Id, v: Version, check: GenerativeCheck) returns (c: Id)
    requires Inv(t) && AcceptsVersionUpdate(t, id, newId, v, check) && v.state == Passed && check != Verified
    requires t.versions[id].state != Passed
    ensures Qualified(t, newId, c)
  {
    c := GateGivesCandidate(t, newId, v, Some(t.versions[id]), check);
    QualifiedFacts(t, newId, v, c);
    QualifiesWithinLimits(t, newId, v, c);
    CleanCandidateIsEvidence(t, c);
    CompletedIsExact(t, c);
  }

  /** The id under which a version row lives after one statement. */
  function NewId(w: RankMetrics.Weight, t: Tables, s: Step, id: Id): Id
    requires RankMetrics.Discount(w)
  {
    if s.UpdateVersion? && s.version == id && Accepts(w, t, s) then s.newVersion else id
  }

  /** The id under which a version row lives after a run. */
  function Follow(w: RankMetrics.Weight, t: Tables, steps: seq<Step>, id: Id): Id
    requires RankMetrics.Discount(w)
    decreases |steps|
  {
    if steps == [] then id else Follow(w, Apply(w, t, steps[0]), steps[1..], NewId(w, t, steps[0], id))
  }

  /** Once passed, a version row stays passed and is not deleted, the generative early return included: it lets a
      statement through only when the new row is passed or default, and a default row must be passed. */
  lemma PassedIsKept(w: RankMetrics.Weight, t: Tables, s: Step, id: Id)
    requires RankMetrics.Discount(w) && id in t.versions && t.versions[id].state == Passed
    ensures var u := Apply(w, t, s); NewId(w, t, s, id) in u.versions && u.versions[NewId(w, t, s, id)].state == Passed
  {
    if Accepts(w, t, s) {
      AcceptedVersion(w, t, s);
      PassedIsKeptAfter(t, s, id);
    }
  }

  /** What the guards say about a version row. */
  ghost predicate VersionAllowed(t: Tables, s: Step) {
    match s
    case InsertVersion(id, v, check) => AcceptsVersion(t, id, v, check)
    case UpdateVersion(id, newId, v, check) => AcceptsVersionUpdate(t, id, newId, v, check)
    case _ => true
  }

  lemma AcceptedVersion(w: RankMetrics.Weight, t: Tables, s: Step)
    requires RankMetrics.Discount(w) && Accepts(w, t, s)
    ensures VersionAllowed(t, s)
  {
  }

  lemma PassedIsKeptAfter(t: Tables, s: Step, id: Id)
    requires VersionAllowed(t, s) && id in t.versions && t.versions[id].state == Passed
    ensures var now := if s.UpdateVersion? && s.version == id then s.newVersion else id;
            now in After(t, s).versions && After(t, s).versions[now].state == Passed
  {
    if s.UpdateVersion? && s.version == id {
      GateKeepsPassed(t, s.newVersion, s.versionRow, t.versions[id], s.check);
    }
  }

  lemma GateKeepsPassed(t: Tables, newId: Id, v: Version, was: Version, check: GenerativeCheck)
    requires GateAllows(t, newId, v, Some(was), check) && was.state == Passed
    requires v.isDefault ==> v.state == Passed
    ensures v.state == Passed
  {
  }

  /** In every run a version that became passed stays passed, under whatever id its row is given. */
  lemma {:induction false} PassedIsNeverLeft(w: RankMetrics.Weight, t: Tables, steps: seq<Step>, id: Id)
    requires RankMetrics.Discount(w) && id in t.versions && t.versions[id].state == Passed
    ensures var u, now := Run(w, t, steps), Follow(w, t, steps, id); now in u.versions && u.versions[now].state == Passed
    decreases |steps|
  {
    if steps != [] {
      PassedIsKept(w, t, steps[0], id);
      PassedIsNeverLeft(w, Apply(w, t, steps[0]), steps[1..], NewId(w, t, steps[0], id));
    }
  }

  /** A default version is passed, and there is one at most. */
  ghost predicate OneDefault(t: Tables) {
    && (forall v | v in t.versions && t.versions[v].isDefault :: t.versions[v].state == Passed)
    && (forall v, u | v in t.versions && u in t.versions && v != u ::
          !(t.versions[v].isDefault && t.versions[u].isDefault))
  }

  lemma StepKeepsOneDefault(t: Tables, s: Step)
    requires OneDefault(t) && VersionAllowed(t, s)
    ensures OneDefault(After(t, s))
  {
  }

  lemma {:induction false} RunKeepsOneDefault(w: RankMetrics.Weight, t: Tables, steps: seq<Step>)
    requires RankMetrics.Discount(w) && OneDefault(t)
    ensures OneDefault(Run(w, t, steps))
    decreases |steps|
  {
    if steps != [] {
      if Accepts(w, t, steps[0]) {
        AcceptedVersion(w, t, steps[0]);
        StepKeepsOneDefault(t, steps[0]);
      }
      RunKeepsOneDefault(w, Apply(w, t, steps[0]), steps[1..]);
    }
  }

  /** In every state of every run there is at most one default version, and it is passed. */
  lemma DefaultIsPassed(w: RankMetrics.Weight, start: Tables, steps: seq<Step>)
    requires RankMetrics.Discount(w) && Initial(start)
    ensures OneDefault(Run(w, start, steps))
  {
    RunKeepsOneDefault(w, start, steps);
  }

  /** A version that an evaluation refers to keeps its id. */
  lemma {:induction false} EvaluatedKeepsItsId(w: RankMetrics.Weight, t: Tables, steps: seq<Step>, id: Id, c: Id)
    requires RankMetrics.Discount(w) && Inv(t) && c in t.candidates && t.candidates[c].status == Completed
    requires t.candidates[c].inputs.version == id
    ensures Follow(w, t, steps, id) == id
    decreases |steps|
  {
    if steps != [] {
      KeepsInv(w, t, steps[0]);
      CompletedIsFrozen(w, t, steps[0], c);
      RenameNeedsNoCandidate(w, t, steps[0], id, c);
      EvaluatedKeepsItsId(w, Apply(w, t, steps[0]), steps[1..], id, c);
    }
  }

  lemma RenameNeedsNoCandidate(w: RankMetrics.Weight, t: Tables, s: Step, id: Id, c: Id)
    requires RankMetrics.Discount(w) && c in t.candidates && t.candidates[c].inputs.version == id
    ensures NewId(w, t, s, id) == id
  {
  }

  lemma EvidenceLasts(w: RankMetrics.Weight, t: Tables, s: Step, later: seq<Step>, id: Id)
    requires RankMetrics.Discount(w) && Inv(t) && PromotesExtractively(w, t, s, id)
    ensures var u := Run(w, Apply(w, t, s), later);
            && id in u.versions && u.versions[id].state == Passed
            && exists c :: Qualified(u, id, c)
  {
    var c := PromotionHasEvidence(w, t, s, id);
    var t1 := Apply(w, t, s);
    KeepsInv(w, t, s);
    QualifiedStays(w, t, s, id, c);
    RunKeepsQualified(w, t1, later, id, c);
    PassedIsNeverLeft(w, t1, later, id);
    EvaluatedKeepsItsId(w, t1, later, id, c);
  }

  /** End to end: after any run in which a version was promoted through the extractive branch, whatever came before and
      whatever comes later, the version is still passed and a completed candidate of it still covers every case of its
      dataset with observations whose every surfaced source is authorized and not forbidden, has aggregates that measure
      its rows, and meets every limit of the policy of its run. */
  lemma PromotionStaysEvidenced(w: RankMetrics.Weight, start: Tables, before: seq<Step>, s: Step, later: seq<Step>, id: Id)
    requires RankMetrics.Discount(w) && Initial(start) && PromotesExtractively(w, Run(w, start, before), s, id)
    ensures var u := Run(w, start, before + ([s] + later));
            && id in u.versions && u.versions[id].state == Passed
            && exists c :: Qualified(u, id, c)
  {
    InitialInv(start);
    RunKeepsInv(w, start, before);
    RunAppend(w, start, before, [s] + later);
    EvidenceLasts(w, Run(w, start, before), s, later, id);
    RunFirst(w, Run(w, start, before), s, later);
  }

  lemma RunFirst(w: RankMetrics.Weight, t: Tables, s: Step, later: seq<Step>)
    requires RankMetrics.Discount(w)
    ensures Run(w, t, [s] + later) == Run(w, Apply(w, t, s), later)
  {
    assert ([s] + later)[1..] == later;
  }
}
