/**
 The evaluation tables, updated in place behind their triggers. Every method
 runs the checks of its trigger and is proved to accept and to change exactly
 what the statement model says, so every state of a store is one a run leads to
 and the run results hold of it.
 */
module EvaluationStore {
  import opened Options
  import opened EvaluationCase
  import opened EvaluationTables
  import EvaluationSafety
  import RankMetrics

  ghost predicate Reachable(w: RankMetrics.Weight, t: Tables)
    requires RankMetrics.Discount(w)
  {
    exists start, steps :: Initial(start) && t == Run(w, start, steps)
  }

  lemma ReachableStep(w: RankMetrics.Weight, t: Tables, s: Step)
    requires RankMetrics.Discount(w) && Reachable(w, t)
    ensures Reachable(w, Apply(w, t, s))
  {
    var start, steps :| Initial(start) && t == Run(w, start, steps);
    RunAppend(w, start, steps, [s]);
    EvaluationSafety.RunFirst(w, t, s, []);
    assert [s] + [] == [s];
  }

  ghost predicate CompletedExactly(t: Tables, c: Id) {
    && c in t.candidates && t.candidates[c].status == Completed && EvaluationSafety.ViewOf(t, c).Some?
    && EvaluationSafety.Exact(EvaluationSafety.ViewOf(t, c).value, t.candidates[c].metrics, t.Results(c))
  }

  lemma ReachableIsExact(w: RankMetrics.Weight, t: Tables, c: Id)
    requires RankMetrics.Discount(w) && Reachable(w, t) && c in t.candidates && t.candidates[c].status == Completed
    ensures CompletedExactly(t, c)
  {
    var start, steps :| Initial(start) && t == Run(w, start, steps);
    EvaluationSafety.InitialInv(start);
    EvaluationSafety.RunKeepsInv(w, start, steps);
    EvaluationSafety.CompletedIsExact(t, c);
  }

  class Database {
    const weight: RankMetrics.Weight
    var datasets: map<Id, Dataset>
    var cases: map<Id, map<Id, CaseRow>>
    var policies: map<Id, Policy>
    var runs: map<Id, RunRow>
    var candidates: map<Id, Candidate>
    var results: map<Id, seq<Result>>
    var configurations: map<Id, Option<Id>>
    var versions: map<Id, Version>

    function Current(): Tables
      reads this
    {
      Tables(datasets, cases, policies, runs, candidates, results, configurations, versions)
    }

    ghost predicate Valid()
      reads this
    {
      RankMetrics.Discount(weight) && Reachable(weight, Current())
    }

    constructor (weight: RankMetrics.Weight, configurations: map<Id, Option<Id>>, versions: map<Id, Version>)
      requires RankMetrics.Discount(weight)
      requires forall v | v in versions :: versions[v].state != Passed && !versions[v].isDefault
      ensures Valid() && Initial(Current()) && this.weight == weight
      ensures this.configurations == configurations && this.versions == versions
    {
      this.weight := weight;
      datasets, cases, policies, runs := map[], map[], map[], map[];
      candidates, results := map[], map[];
      this.configurations, this.versions := configurations, versions;
      new;
      assert Current() == Run(weight, Current(), []);
    }

    method InsertRow(s: Step)
      requires s.InsertDataset? || s.InsertCase? || s.InsertPolicy? || s.InsertRun? || s.InsertConfiguration?
      modifies this
      ensures Current() == After(old(Current()), s)
    {
      match s
      case InsertDataset(id, d) => datasets := datasets[id := d];
      case InsertCase(d, id, row) => cases := cases[d := Current().Cases(d)[id := row]];
      case InsertPolicy(id, p) => policies := policies[id := p];
      case InsertRun(id, r) => runs := runs[id := r];
      case InsertConfiguration(id, owner) => configurations := configurations[id := owner];
    }

    /** Datasets, their cases, policies, runs and configurations: rows that only need their row checks. */
    method Insert(s: Step) returns (accepted: bool)
      requires Valid()
      requires s.InsertDataset? || s.InsertCase? || s.InsertPolicy? || s.InsertRun? || s.InsertConfiguration?
      modifies this
      ensures Valid() && accepted == Accepts(weight, old(Current()), s)
      ensures Current() == Apply(weight, old(Current()), s)
    {
      ReachableStep(weight, Current(), s);
      accepted := Accepts(weight, Current(), s);
      if accepted { InsertRow(s); }
    }

    /** BEFORE UPDATE on evaluation runs. */
    method UpdateRun(id: Id, newId: Id, r: RunRow) returns (accepted: bool)
      requires Valid()
      modifies this
      ensures Valid() && accepted == Accepts(weight, old(Current()), Step.UpdateRun(id, newId, r))
      ensures Current() == Apply(weight, old(Current()), Step.UpdateRun(id, newId, r))
    {
      ReachableStep(weight, Current(), Step.UpdateRun(id, newId, r));
      if id !in runs { return false; }
      var was := runs[id];
      if Terminal(was.status) && (newId != id || r != was) { return false; }
      if r.inputs != was.inputs { return false; }
      if was.worker.Some? && r.worker != was.worker { return false; }
      if !RunRowAllowed(Current(), r) { return false; }
      if newId != id && (newId in runs || RunReferenced(Current(), id)) { return false; }
      runs := Moved(runs, id, newId, r);
      return true;
    }

    /** The recomputing trigger: the row to store, with the aggregates assigned when a candidate completes. */
    method Recomputed(id: Id, c: Candidate, was: Option<Status>) returns (stored: Option<Candidate>)
      ensures stored == Recompute(Current(), id, c, was)
    {
      if c.inputs.run !in runs || runs[c.inputs.run].inputs.digest != c.inputs.digest { return None; }
      if c.status != Completed || was == Some(Completed) { return Some(c); }
      var run := runs[c.inputs.run].inputs;
      if run.dataset !in datasets { return None; }
      var rows := Current().Results(id);
      var a := Aggregate(rows);
      if !CompleteRows(rows, datasets[run.dataset].caseCount, run.repetitions) || !AggregatesPresent(a) { return None; }
      return Some(c.(metrics := a));
    }

    method InsertCandidateRow(id: Id, c: Candidate) returns (accepted: bool)
      modifies this`candidates
      ensures accepted == AcceptsCandidate(old(Current()), id, c)
      ensures Current() == if accepted then After(old(Current()), Step.InsertCandidate(id, c)) else old(Current())
    {
      if id in candidates || !PlaceFree(Current(), None, c) { return false; }
      var stored := Recomputed(id, c, None);
      if stored == None || !CandidateRowAllowed(Current(), stored.value) { return false; }
      candidates := candidates[id := stored.value];
      return true;
    }

    method InsertCandidate(id: Id, c: Candidate) returns (accepted: bool)
      requires Valid()
      modifies this
      ensures Valid() && accepted == Accepts(weight, old(Current()), Step.InsertCandidate(id, c))
      ensures Current() == Apply(weight, old(Current()), Step.InsertCandidate(id, c))
    {
      ReachableStep(weight, Current(), Step.InsertCandidate(id, c));
      accepted := InsertCandidateRow(id, c);
    }

    /** The guard on frozen candidate inputs, then the recomputing trigger. */
    method UpdateCandidateRow(id: Id, newId: Id, c: Candidate) returns (accepted: bool)
      modifies this`candidates
      ensures accepted == AcceptsCandidateUpdate(old(Current()), id, newId, c)
      ensures Current() == if accepted then After(old(Current()), Step.UpdateCandidate(id, newId, c)) else old(Current())
    {
      if id !in candidates { return false; }
      var was := candidates[id];
      if Terminal(was.status) && (newId != id || c != was) { return false; }
      if c.inputs != was.inputs || !PlaceFree(Current(), Some(id), c) { return false; }
      if newId != id && (newId in candidates || Current().Results(id) != []) { return false; }
      var stored := Recomputed(newId, c, Some(was.status));
      if stored == None || !CandidateRowAllowed(Current(), stored.value) { return false; }
      candidates := Moved(candidates, id, newId, stored.value);
      return true;
    }

    /** A completion that is accepted has exactly one case row for every case of the dataset, and stores the fold over
        those rows as its aggregates, whatever aggregates were supplied. */
    method UpdateCandidate(id: Id, newId: Id, c: Candidate) returns (accepted: bool)
      requires Valid()
      modifies this
      ensures Valid() && accepted == Accepts(weight, old(Current()), Step.UpdateCandidate(id, newId, c))
      ensures Current() == Apply(weight, old(Current()), Step.UpdateCandidate(id, newId, c))
      ensures accepted && c.status == Completed ==> CompletedExactly(Current(), newId)
    {
      ReachableStep(weight, Current(), Step.UpdateCandidate(id, newId, c));
      ghost var before := Current();
      accepted := UpdateCandidateRow(id, newId, c);
      if accepted && c.status == Completed {
        EvaluationSafety.RecomputeKeepsInputs(before, newId, c, Some(before.candidates[id].status));
        ReachableIsExact(weight, Current(), newId);
      }
    }

    /** rag_verify_evaluation_case_result: the raw observations are checked one by one, then the supplied scalars
        against the derived ones. */
    method InsertResultRow(c: Id, row: Result) returns (accepted: bool)
      requires RankMetrics.Discount(weight)
      modifies this`results
      ensures accepted == AcceptsResult(weight, old(Current()), c, row)
      ensures Current() == if accepted then After(old(Current()), Step.InsertResult(c, row)) else old(Current())
    {
      if c !in candidates || candidates[c].inputs.run !in runs { return false; }
      var run := runs[candidates[c].inputs.run].inputs;
      if !ResultMatchesCase(Current(), c, row) || run.k <= 0 || run.repetitions <= 0 { return false; }
      var valid := CheckObservations(row.observations, run.k, run.snapshot);
      if !valid { return false; }
      var frozen := Current().Cases(run.dataset)[row.caseId].content;
      if !ScalarsMatch(row.scalars, Derive(weight, frozen, row.observations, run.k)) { return false; }
      if row.scalars.duration < 0.0 || !ResultUnique(Current().Results(c), row) { return false; }
      results := results[c := Current().Results(c) + [row]];
      return true;
    }

    method InsertResult(c: Id, row: Result) returns (accepted: bool)
      requires Valid()
      modifies this
      ensures Valid() && accepted == Accepts(weight, old(Current()), Step.InsertResult(c, row))
      ensures Current() == Apply(weight, old(Current()), Step.InsertResult(c, row))
    {
      ReachableStep(weight, Current(), Step.InsertResult(c, row));
      accepted := InsertResultRow(c, row);
    }

    /** The promotion gate, with the generative early return in front of the extractive checks. */
    method Gate(id: Id, v: Version, was: Option<Version>, check: GenerativeCheck) returns (allowed: bool)
      ensures allowed == GateAllows(Current(), id, v, was, check)
    {
      if check == Skipped {
        return was.Some? && v.state == was.value.state && v.isDefault == was.value.isDefault;
      }
      if v.state == Passed || v.isDefault {
        if check == Raised { return false; }
        if check == Verified { return true; }
      }
      if was.Some? && was.value.state == Passed && v.state != Passed { return false; }
      if NeedsEvidence(v, was) && !exists c | c in candidates :: Qualifies(Current(), id, v, c) { return false; }
      return true;
    }

    /** The guards on the components of a version, then the promotion gate. */
    method UpdateVersionRow(id: Id, newId: Id, v: Version, check: GenerativeCheck) returns (accepted: bool)
      modifies this`versions
      ensures accepted == AcceptsVersionUpdate(old(Current()), id, newId, v, check)
      ensures versions == if accepted then Moved(old(versions), id, newId, v) else old(versions)
    {
      if id !in versions { return false; }
      var was := versions[id];
      if v.configuration != was.configuration || v.number != was.number || v.components != was.components {
        return false;
      }
      var allowed := Gate(newId, v, Some(was), check);
      if !allowed || !VersionRowAllowed(Current(), Some(id), v) { return false; }
      if newId != id && (newId in versions || VersionReferenced(Current(), id)) { return false; }
      versions := Moved(versions, id, newId, v);
      return true;
    }

    method UpdateVersion(id: Id, newId: Id, v: Version, check: GenerativeCheck) returns (accepted: bool)
      requires Valid()
      modifies this
      ensures Valid() && accepted == Accepts(weight, old(Current()), Step.UpdateVersion(id, newId, v, check))
      ensures Current() == Apply(weight, old(Current()), Step.UpdateVersion(id, newId, v, check))
    {
      ReachableStep(weight, Current(), Step.UpdateVersion(id, newId, v, check));
      accepted := UpdateVersionRow(id, newId, v, check);
    }

    method InsertVersion(id: Id, v: Version, check: GenerativeCheck) returns (accepted: bool)
      requires Valid()
      modifies this
      ensures Valid() && accepted == Accepts(weight, old(Current()), Step.InsertVersion(id, v, check))
      ensures Current() == Apply(weight, old(Current()), Step.InsertVersion(id, v, check))
    {
      ReachableStep(weight, Current(), Step.InsertVersion(id, v, check));
      if id in versions { return false; }
      var allowed := Gate(id, v, None, check);
      if !allowed || !VersionRowAllowed(Current(), None, v) { return false; }
      versions := versions[id := v];
      return true;
    }
  }
}
