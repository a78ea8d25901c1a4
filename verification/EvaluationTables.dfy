/**
 The tables of an extractive evaluation, the guard of each statement on them,
 and runs of statements. `Accepts(w, t, s)` is the conjunction of the BEFORE
 triggers, CHECK and UNIQUE constraints and foreign keys that decide statement
 s in state t; `After(t, s)` is the state it leaves. No check is deferred here,
 so a transaction is a sequence of statements.
 */
module EvaluationTables {
  import opened Options
  import opened EvaluationCase
  import Percentile
  import RankMetrics

  type Time = int

  datatype Hashes = Hashes(fixture: string, documents: string, querySet: string)
  datatype Dataset = Dataset(owner: Id, fixture: seq<FixtureCase>, caseCount: int, hashes: Hashes)
  datatype CaseRow = CaseRow(ordinal: int, content: FixtureCase)

  datatype Policy = Policy(
    owner: Id, dataset: Id, metricVersion: int, k: int,
    minRecall: real, minMrr: real, minNdcg: real, minPrecision: real, maxFalseGrounding: real, minHighlight: real,
    maxP50: real, maxP95: real, maxLeaks: int, reproducibility: real)

  datatype Status = Waiting | Running | Completed | Failed
  datatype Claim = Claim(token: Id, at: Time)
  datatype RunInputs = RunInputs(
    owner: Id, dataset: Id, policy: Option<Id>, hashes: Hashes, snapshot: seq<SourceRef>, digest: string,
    environment: string, metricVersion: int, k: int, repetitions: int, candidateCount: int)
  datatype RunRow = RunRow(
    inputs: RunInputs, status: Status, worker: Option<string>, claim: Option<Claim>, finishedAt: Option<Time>,
    failure: Option<string>)

  datatype Components = Components(indexing: Id, retrieval: Id, answerPolicy: Id, generation: Option<Id>)
  datatype CandidateInputs = CandidateInputs(
    run: Id, version: Id, ordinal: int, components: Components, digest: string, component: string)
  datatype Aggregates = Aggregates(
    recall: Option<real>, mrr: Option<real>, ndcg: Option<real>, precision: Option<real>,
    falseGrounding: Option<real>, highlight: Option<real>, p50: Option<real>, p95: Option<real>,
    leaks: Option<int>, reproducibility: Option<real>)
  datatype Candidate = Candidate(
    inputs: CandidateInputs, status: Status, failure: Option<string>, metrics: Aggregates, completedAt: Option<Time>)

  datatype Result = Result(
    dataset: Id, caseId: Id, ordinal: int, query: string, scenario: string, expected: seq<Id>,
    observations: seq<Observation>, scalars: Scalars)

  datatype EvaluationState = Draft | Pending | Passed | Rejected
  datatype Version = Version(
    configuration: Id, number: int, components: Components, state: EvaluationState, isDefault: bool)

  /** What the generative early return of the promotion gate finds, which module PromotionRuns determines; `Skipped` when
      the statement lists neither gated column, so that the gate does not fire. */
  datatype GenerativeCheck = NoAcceptance | Verified | Raised | Skipped

  /** All rows. Case results are grouped by candidate, in insertion order. */
  datatype Tables = Tables(
    datasets: map<Id, Dataset>, cases: map<Id, map<Id, CaseRow>>, policies: map<Id, Policy>,
    runs: map<Id, RunRow>, candidates: map<Id, Candidate>, results: map<Id, seq<Result>>,
    configurations: map<Id, Option<Id>>, versions: map<Id, Version>)
  {
    function Results(c: Id): seq<Result> { if c in results then results[c] else [] }
    function Cases(d: Id): map<Id, CaseRow> { if d in cases then cases[d] else map[] }
  }

  /** Updates name the row by its old id, give its new id and its whole new row. */
  datatype Step =
    | InsertDataset(dataset: Id, content: Dataset)
    | InsertCase(dataset: Id, caseId: Id, row: CaseRow)
    | InsertPolicy(policy: Id, limits: Policy)
    | InsertRun(run: Id, runRow: RunRow)
    | UpdateRun(run: Id, newRun: Id, runRow: RunRow)
    | InsertCandidate(candidate: Id, supplied: Candidate)
    | UpdateCandidate(candidate: Id, newCandidate: Id, supplied: Candidate)
    | InsertResult(candidate: Id, result: Result)
    | InsertConfiguration(configuration: Id, owner: Option<Id>)
    | InsertVersion(version: Id, versionRow: Version, check: GenerativeCheck)
    | UpdateVersion(version: Id, newVersion: Id, versionRow: Version, check: GenerativeCheck)
    | RewriteEvidence // UPDATE or DELETE of datasets, cases, policies or results; DELETE of runs, candidates, versions

  // ---------------------------------------------------------------- aggregates

  function Sum(values: seq<real>): real {
    if values == [] then 0.0 else values[0] + Sum(values[1..])
  }

  /** avg(): NULL over no values. */
  function Avg(values: seq<real>): Option<real> {
    if values == [] then None else Some(Sum(values) / |values| as real)
  }

  /** The values of a column that are not NULL. */
  function Column(rows: seq<Result>, pick: Scalars -> Option<real>): seq<real> {
    if rows == [] then []
    else (if pick(rows[0].scalars).Some? then [pick(rows[0].scalars).value] else []) + Column(rows[1..], pick)
  }

  function Flag(b: Option<bool>): Option<real> {
    match b case None => None case Some(v) => Some(if v then 1.0 else 0.0)
  }

  function TotalLeaks(rows: seq<Result>): int {
    if rows == [] then 0 else rows[0].scalars.leaks + TotalLeaks(rows[1..])
  }

  function DurationsOf(observations: seq<Observation>): seq<real> {
    if observations == [] then [] else [observations[0].duration] + DurationsOf(observations[1..])
  }

  function Durations(rows: seq<Result>): seq<real> {
    if rows == [] then [] else DurationsOf(rows[0].observations) + Durations(rows[1..])
  }

  function Reproduced(s: Scalars): Option<real> { Flag(Some(s.reproducible)) }

  /** The fold over the case rows of a candidate. */
  function Aggregate(rows: seq<Result>): Aggregates {
    var durations := Durations(rows);
    Aggregates(
      Avg(Column(rows, (s: Scalars) => s.recall)),
      Avg(Column(rows, (s: Scalars) => s.reciprocalRank)),
      Avg(Column(rows, (s: Scalars) => s.ndcg)),
      Avg(Column(rows, (s: Scalars) => Flag(s.correct))), Avg(Column(rows, (s: Scalars) => Flag(s.falseGrounding))),
      Avg(Column(rows, (s: Scalars) => s.highlight)),
      if durations == [] then None else Some(Percentile.Cont(durations, 0.50)),
      if durations == [] then None else Some(Percentile.Cont(durations, 0.95)),
      if rows == [] then None else Some(TotalLeaks(rows)),
      Avg(Column(rows, Reproduced)))
  }

  // ---------------------------------------------------------------- guards: datasets, policies, runs

  predicate AcceptsDataset(t: Tables, id: Id, d: Dataset) {
    id !in t.datasets && d.caseCount == |d.fixture| && d.caseCount > 0
  }

  predicate AcceptsCase(t: Tables, d: Id, id: Id, row: CaseRow) {
    && d in t.datasets && 0 <= row.ordinal < |t.datasets[d].fixture|
    && row.content == t.datasets[d].fixture[row.ordinal] && row.content.id == id
    && id !in t.Cases(d)
    && forall other | other in t.Cases(d) :: t.Cases(d)[other].ordinal != row.ordinal
  }

  predicate AcceptsPolicy(t: Tables, id: Id, p: Policy) {
    && id !in t.policies && p.dataset in t.datasets && p.metricVersion == 1 && 1 <= p.k <= 50
    && 0.0 <= p.minRecall <= 1.0 && 0.0 <= p.minMrr <= 1.0 && 0.0 <= p.minNdcg <= 1.0
    && 0.0 <= p.minPrecision <= 1.0 && 0.0 <= p.maxFalseGrounding <= 1.0 && 0.0 <= p.minHighlight <= 1.0
    && 0.0 <= p.maxP50 <= p.maxP95 && p.maxLeaks == 0 && p.reproducibility == 1.0
  }

  predicate RunRowAllowed(t: Tables, r: RunRow) {
    && r.inputs.dataset in t.datasets && (r.inputs.policy.Some? ==> r.inputs.policy.value in t.policies)
    && r.inputs.repetitions >= 2 && r.inputs.candidateCount > 0
    && r.inputs.metricVersion == 1 && 1 <= r.inputs.k <= 50
    && match r.status
       case Waiting => r.claim == None && r.finishedAt == None
       case Running => r.claim.Some? && r.finishedAt == None
       case _ => r.claim == None && r.finishedAt.Some?
  }

  predicate AcceptsRun(t: Tables, id: Id, r: RunRow) {
    && id !in t.runs && RunRowAllowed(t, r)
    && |t.Cases(r.inputs.dataset)| == t.datasets[r.inputs.dataset].caseCount
  }

  predicate Terminal(s: Status) {
    s in {Completed, Failed}
  }

  predicate RunReferenced(t: Tables, id: Id) {
    exists c | c in t.candidates :: t.candidates[c].inputs.run == id
  }

  predicate AcceptsRunUpdate(t: Tables, id: Id, newId: Id, r: RunRow) {
    && id in t.runs
    && var was := t.runs[id];
    && (Terminal(was.status) ==> newId == id && r == was)
    && r.inputs == was.inputs && (was.worker.Some? ==> r.worker == was.worker)
    && RunRowAllowed(t, r)
    && (newId != id ==> newId !in t.runs && !RunReferenced(t, id))
  }

  // ---------------------------------------------------------------- guards: candidates

  predicate CompleteRows(rows: seq<Result>, caseCount: int, repetitions: int) {
    && |rows| == caseCount
    && forall i | 0 <= i < |rows| :: |rows[i].observations| == repetitions
  }

  predicate AggregatesPresent(a: Aggregates) {
    && a.recall.Some? && a.mrr.Some? && a.ndcg.Some? && a.precision.Some? && a.falseGrounding.Some?
    && a.highlight.Some? && a.leaks.Some? && a.reproducibility.Some?
  }

  /** rag_recompute_evaluation_candidate_metrics: the row to store, None when it raises. */
  function Recompute(t: Tables, id: Id, c: Candidate, was: Option<Status>): Option<Candidate> {
    if c.inputs.run !in t.runs || t.runs[c.inputs.run].inputs.digest != c.inputs.digest then None
    else if c.status != Completed || was == Some(Completed) then Some(c)
    else
      var run := t.runs[c.inputs.run].inputs;
      var a := Aggregate(t.Results(id));
      if run.dataset in t.datasets
         && CompleteRows(t.Results(id), t.datasets[run.dataset].caseCount, run.repetitions) && AggregatesPresent(a)
      then Some(c.(metrics := a))
      else None
  }

  predicate UnitOrNull(v: Option<real>) {
    v.Some? ==> 0.0 <= v.value <= 1.0
  }

  predicate CandidateRowAllowed(t: Tables, c: Candidate) {
    var m := c.metrics;
    && c.inputs.run in t.runs && c.inputs.version in t.versions && c.inputs.ordinal >= 0
    && (m.leaks.Some? ==> m.leaks.value >= 0)
    && UnitOrNull(m.recall) && UnitOrNull(m.mrr) && UnitOrNull(m.ndcg) && UnitOrNull(m.precision)
    && UnitOrNull(m.falseGrounding) && UnitOrNull(m.highlight) && UnitOrNull(m.reproducibility)
    && (m.p50.Some? ==> m.p50.value >= 0.0) && (m.p95.Some? ==> m.p95.value >= 0.0)
    && (m.p50.Some? && m.p95.Some? ==> m.p95.value >= m.p50.value)
    && match c.status
       case Completed =>
         c.failure == None && c.completedAt.Some? && AggregatesPresent(m) && m.p50.Some? && m.p95.Some?
       case Failed => c.failure.Some? && c.completedAt.Some?
       case _ => c.completedAt == None
  }

  /** UNIQUE(run, ordinal) and UNIQUE(run, version), the row `except` aside. */
  predicate PlaceFree(t: Tables, except: Option<Id>, c: Candidate) {
    forall other | other in t.candidates && Some(other) != except && t.candidates[other].inputs.run == c.inputs.run ::
      t.candidates[other].inputs.ordinal != c.inputs.ordinal && t.candidates[other].inputs.version != c.inputs.version
  }

  predicate AcceptsCandidate(t: Tables, id: Id, c: Candidate) {
    && id !in t.candidates && PlaceFree(t, None, c)
    && var stored := Recompute(t, id, c, None);
    && stored.Some? && CandidateRowAllowed(t, stored.value)
  }

  predicate AcceptsCandidateUpdate(t: Tables, id: Id, newId: Id, c: Candidate) {
    && id in t.candidates
    && var was := t.candidates[id];
    && (Terminal(was.status) ==> newId == id && c == was)
    && c.inputs == was.inputs && PlaceFree(t, Some(id), c)
    && (newId != id ==> newId !in t.candidates && t.Results(id) == [])
    && var stored := Recompute(t, newId, c, Some(was.status));
    && stored.Some? && CandidateRowAllowed(t, stored.value)
  }

  // ---------------------------------------------------------------- guards: case results

  predicate ResultMatchesCase(t: Tables, c: Id, row: Result)
    requires c in t.candidates && t.candidates[c].inputs.run in t.runs
  {
    var run := t.runs[t.candidates[c].inputs.run].inputs;
    && row.dataset == run.dataset && row.caseId in t.Cases(run.dataset)
    && var frozen := t.Cases(run.dataset)[row.caseId];
    && row.ordinal == frozen.ordinal && row.query == frozen.content.query
    && row.scenario == frozen.content.scenario && row.expected == frozen.content.expected
    && |row.observations| == run.repetitions
  }

  predicate ResultUnique(rows: seq<Result>, row: Result) {
    forall i | 0 <= i < |rows| :: rows[i].caseId != row.caseId && rows[i].ordinal != row.ordinal
  }

  predicate AcceptsResult(w: RankMetrics.Weight, t: Tables, c: Id, row: Result)
    requires RankMetrics.Discount(w)
  {
    && c in t.candidates && t.candidates[c].inputs.run in t.runs
    && ResultMatchesCase(t, c, row)
    && var run := t.runs[t.candidates[c].inputs.run].inputs;
    && run.k > 0 && run.repetitions > 0
    && ObservationsValid(row.observations, run.k, run.snapshot)
    && ScalarsMatch(row.scalars, Derive(w, t.Cases(run.dataset)[row.caseId].content, row.observations, run.k))
    && row.scalars.duration >= 0.0 && ResultUnique(t.Results(c), row)
  }

  // ---------------------------------------------------------------- guards: promotion

  predicate AtLeast(v: Option<real>, limit: real) { v.Some? && v.value >= limit }
  predicate AtMost(v: Option<real>, limit: real) { v.Some? && v.value <= limit }

  predicate MeetsPolicy(m: Aggregates, p: Policy) {
    && AtLeast(m.recall, p.minRecall) && AtLeast(m.mrr, p.minMrr) && AtLeast(m.ndcg, p.minNdcg)
    && AtLeast(m.precision, p.minPrecision) && AtMost(m.falseGrounding, p.maxFalseGrounding)
    && AtLeast(m.highlight, p.minHighlight) && AtMost(m.p50, p.maxP50) && AtMost(m.p95, p.maxP95)
    && m.leaks.Some? && m.leaks.value <= p.maxLeaks && p.maxLeaks == 0
    && AtLeast(m.reproducibility, p.reproducibility) && p.reproducibility == 1.0
  }

  /** Candidate c qualifies the new row v of version id. The join reads the stored version row, not the new one. */
  predicate Qualifies(t: Tables, id: Id, v: Version, c: Id) {
    && c in t.candidates && t.candidates[c].inputs.run in t.runs
    && var candidate := t.candidates[c];
    && var run := t.runs[candidate.inputs.run];
    && candidate.inputs.version == id && id in t.versions
    && candidate.inputs.components == t.versions[id].components
    && candidate.status == Completed && candidate.failure == None
    && run.status == Completed && run.failure == None
    && run.inputs.policy.Some? && run.inputs.policy.value in t.policies && run.inputs.dataset in t.datasets
    && var p, d := t.policies[run.inputs.policy.value], t.datasets[run.inputs.dataset];
    && p.dataset == run.inputs.dataset && p.owner == run.inputs.owner
    && run.inputs.metricVersion == p.metricVersion && run.inputs.k == p.k && run.inputs.hashes == d.hashes
    && v.configuration in t.configurations
    && t.configurations[v.configuration] in {None, Some(run.inputs.owner)}
    && CompleteRows(t.Results(c), d.caseCount, run.inputs.repetitions)
    && MeetsPolicy(candidate.metrics, p)
  }

  /** The statement asks for a promotion that the extractive branch must back. */
  predicate NeedsEvidence(v: Version, was: Option<Version>) {
    || (v.state == Passed && (was == None || was.value.state != Passed))
    || (v.isDefault && (was == None || !was.value.isDefault))
  }

  /** rag_require_qualifying_evaluation_for_promotion, with the generative early return in front. */
  predicate GateAllows(t: Tables, id: Id, v: Version, was: Option<Version>, check: GenerativeCheck) {
    if check == Skipped then
      was.Some? && v.state == was.value.state && v.isDefault == was.value.isDefault
    else if (v.state == Passed || v.isDefault) && check == Raised then false
    else if (v.state == Passed || v.isDefault) && check == Verified then true
    else
      && (was.Some? && was.value.state == Passed ==> v.state == Passed)
      && (NeedsEvidence(v, was) ==> exists c | c in t.candidates :: Qualifies(t, id, v, c))
  }

  /** CHECK constraints and unique indexes of a version row, the row `except` aside. */
  predicate VersionRowAllowed(t: Tables, except: Option<Id>, v: Version) {
    && v.number > 0 && v.configuration in t.configurations && (v.isDefault ==> v.state == Passed)
    && forall other | other in t.versions && Some(other) != except ::
         && !(v.isDefault && t.versions[other].isDefault)
         && !(v.configuration == t.versions[other].configuration && v.number == t.versions[other].number)
  }

  predicate VersionReferenced(t: Tables, id: Id) {
    exists c | c in t.candidates :: t.candidates[c].inputs.version == id
  }

  predicate AcceptsVersion(t: Tables, id: Id, v: Version, check: GenerativeCheck) {
    id !in t.versions && GateAllows(t, id, v, None, check) && VersionRowAllowed(t, None, v)
  }

  predicate AcceptsVersionUpdate(t: Tables, id: Id, newId: Id, v: Version, check: GenerativeCheck) {
    && id in t.versions
    && var was := t.versions[id];
    && v.configuration == was.configuration && v.number == was.number && v.components == was.components
    && GateAllows(t, newId, v, Some(was), check) && VersionRowAllowed(t, Some(id), v)
    && (newId != id ==> newId !in t.versions && !VersionReferenced(t, id))
  }

  // ---------------------------------------------------------------- statements and runs

  predicate Accepts(w: RankMetrics.Weight, t: Tables, s: Step)
    requires RankMetrics.Discount(w)
  {
    match s
    case InsertDataset(id, d) => AcceptsDataset(t, id, d)
    case InsertCase(d, id, row) => AcceptsCase(t, d, id, row)
    case InsertPolicy(id, p) => AcceptsPolicy(t, id, p)
    case InsertRun(id, r) => AcceptsRun(t, id, r)
    case UpdateRun(id, newId, r) => AcceptsRunUpdate(t, id, newId, r)
    case InsertCandidate(id, c) => AcceptsCandidate(t, id, c)
    case UpdateCandidate(id, newId, c) => AcceptsCandidateUpdate(t, id, newId, c)
    case InsertResult(c, row) => AcceptsResult(w, t, c, row)
    case InsertConfiguration(id, _) => id !in t.configurations
    case InsertVersion(id, v, check) => AcceptsVersion(t, id, v, check)
    case UpdateVersion(id, newId, v, check) => AcceptsVersionUpdate(t, id, newId, v, check)
    case RewriteEvidence => false
  }

  /** The state after an accepted statement. */
  function After(t: Tables, s: Step): Tables {
    match s
    case InsertDataset(id, d) => t.(datasets := t.datasets[id := d])
    case InsertCase(d, id, row) => t.(cases := t.cases[d := t.Cases(d)[id := row]])
    case InsertPolicy(id, p) => t.(policies := t.policies[id := p])
    case InsertRun(id, r) => t.(runs := t.runs[id := r])
    case UpdateRun(id, newId, r) => t.(runs := Moved(t.runs, id, newId, r))
    case InsertCandidate(id, c) =>
      var stored := Recompute(t, id, c, None);
      if stored.Some? then t.(candidates := t.candidates[id := stored.value]) else t
    case UpdateCandidate(id, newId, c) =>
      var stored := Recompute(t, newId, c, if id in t.candidates then Some(t.candidates[id].status) else None);
      if stored.Some? then t.(candidates := Moved(t.candidates, id, newId, stored.value)) else t
    case InsertResult(c, row) => t.(results := t.results[c := t.Results(c) + [row]])
    case InsertConfiguration(id, owner) => t.(configurations := t.configurations[id := owner])
    case InsertVersion(id, v, _) => t.(versions := t.versions[id := v])
    case UpdateVersion(id, newId, v, _) => t.(versions := Moved(t.versions, id, newId, v))
    case RewriteEvidence => t
  }

  function Apply(w: RankMetrics.Weight, t: Tables, s: Step): Tables
    requires RankMetrics.Discount(w)
  {
    if Accepts(w, t, s) then After(t, s) else t
  }

  function Run(w: RankMetrics.Weight, t: Tables, steps: seq<Step>): Tables
    requires RankMetrics.Discount(w)
    decreases |steps|
  {
    if steps == [] then t else Run(w, Apply(w, t, steps[0]), steps[1..])
  }

  /** What the evaluation migration starts from: no evaluation, and no version passed or default. */
  ghost predicate Initial(t: Tables) {
    && t == Tables(map[], map[], map[], map[], map[], map[], t.configurations, t.versions)
    && forall v | v in t.versions :: t.versions[v].state != Passed && !t.versions[v].isDefault
  }

  lemma {:induction false} RunAppend(w: RankMetrics.Weight, t: Tables, a: seq<Step>, b: seq<Step>)
    requires RankMetrics.Discount(w)
    ensures Run(w, t, a + b) == Run(w, Run(w, t, a), b)
    decreases |a|
  {
    if a == [] {
      assert a + b == b;
    } else {
      assert (a + b)[0] == a[0] && (a + b)[1..] == a[1..] + b;
      RunAppend(w, Apply(w, t, a[0]), a[1..], b);
    }
  }
}
