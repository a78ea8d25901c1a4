/**
 The extractive and the generative evaluation in one database: statements of
 both, acceptances and transactions in any order. The promotion gate reads the
 outcome of its generative branch off the stored acceptances and the verifier,
 so that every promotion, whichever branch lets it through, has its evidence.
 */
module PromotionRuns {
  import opened Options
  import C = EvaluationCase
  import E = EvaluationTables
  import S = EvaluationSafety
  import G = GenerativeTables
  import V = GenerativeVerifier
  import F = GenerativeSafety
  import M = GenerativeMeasures
  import Cancellation = CancellationSafety
  import RankMetrics

  type Id = nat

  /** The tables of both parts, and the acceptances in the order they were stored; each with its committed version. */
  datatype Whole = Whole(
    evaluation: E.Tables, saved: E.Tables, generative: G.Store,
    acceptances: seq<V.Acceptance>, savedAcceptances: seq<V.Acceptance>)

  datatype Event =
    | Evaluation(evaluationStep: E.Step)
    | Generative(generativeStep: G.Step)
    | Accept(supplied: V.Acceptance, rows: seq<Id>)
    | Commit
    | Rollback

  // ---------------------------------------------------------------- the tables both parts share

  function RowOf(v: E.Version): G.VersionRow {
    G.VersionRow(v.components.indexing, v.components.retrieval, v.components.generation, v.components.answerPolicy)
  }

  function CaseOf(c: C.FixtureCase): G.Case {
    G.Case(c.expected, c.authorized, c.forbidden, c.status == C.Supported)
  }

  function CasesOf(rows: map<Id, E.CaseRow>): map<Id, G.Case> {
    map c | c in rows :: CaseOf(rows[c].content)
  }

  function AllCasesOf(cases: map<Id, map<Id, E.CaseRow>>): map<Id, map<Id, G.Case>> {
    map d | d in cases :: CasesOf(cases[d])
  }

  function VersionsOf(t: E.Tables): map<Id, G.VersionRow> {
    map v | v in t.versions :: RowOf(t.versions[v])
  }

  /** Versions, datasets and cases are the same rows in both parts. */
  ghost predicate Mirrors(t: E.Tables, g: G.Tables) {
    && g.world.versions == VersionsOf(t)
    && g.datasets == (map d | d in t.datasets :: t.datasets[d].owner)
    && g.cases == AllCasesOf(t.cases)
  }

  /** What an extractive statement changes in the columns the generative part reads. */
  function Mirrored(t: E.Tables, g: G.Tables, s: E.Step): Option<G.Step> {
    match s
    case InsertDataset(id, d) => Some(G.InsertDataset(id, d.owner))
    case InsertCase(d, id, row) => Some(G.InsertCase(d, id, CaseOf(row.content)))
    case InsertVersion(_, _, _) => Some(G.SetWorld(g.world.(versions := VersionsOf(E.After(t, s)))))
    case UpdateVersion(_, _, _, _) => Some(G.SetWorld(g.world.(versions := VersionsOf(E.After(t, s)))))
    case _ => None
  }

  function Follow(t: E.Tables, g: G.Store, s: E.Step): G.Store {
    var step := Mirrored(t, g.tables, s);
    if step == None then g else G.Apply(g, G.Statement(step.value))
  }

  // ---------------------------------------------------------------- the generative branch of the gate

  /** rag_verify_generative_candidate succeeds, in whatever order its query returns the latest attempts. */
  ghost predicate Verifies(x: V.Text, g: G.Tables, run: Id, version: Id) {
    exists rows :: F.Enumerates(rows, F.Latest(g, run, version)) && V.Verify(x, g, run, version, rows).Some?
  }

  /** What the EXISTS of the early return can find: it stops at the first acceptance of the version that verifies, and is
      raised out of by one that does not and comes first. */
  ghost predicate Finds(x: V.Text, g: G.Tables, acceptances: seq<V.Acceptance>, version: Id, check: E.GenerativeCheck) {
    match check
    case NoAcceptance => forall i | 0 <= i < |acceptances| :: acceptances[i].version != version
    case Verified =>
      exists i | 0 <= i < |acceptances| :: acceptances[i].version == version && Verifies(x, g, acceptances[i].run, version)
    case Raised =>
      exists i | 0 <= i < |acceptances| :: acceptances[i].version == version && !Verifies(x, g, acceptances[i].run, version)
    case Skipped => true
  }

  /** A row that asks for promotion meets the outcome the acceptances give. */
  ghost predicate CheckFits(x: V.Text, s: Whole, step: E.Step) {
    match step
    case InsertVersion(id, v, check) =>
      v.state == E.Passed || v.isDefault ==> Finds(x, s.generative.tables, s.acceptances, id, check)
    case UpdateVersion(_, id, v, check) =>
      v.state == E.Passed || v.isDefault ==> Finds(x, s.generative.tables, s.acceptances, id, check)
    case _ => true
  }

  predicate Accepted(acceptances: seq<V.Acceptance>, version: Id) {
    exists i | 0 <= i < |acceptances| :: acceptances[i].version == version
  }

  // ---------------------------------------------------------------- statements, transactions, runs

  /** The guards of the extractive part, the generative branch of its gate, and the foreign key of acceptances. */
  ghost predicate AcceptsEvaluation(w: RankMetrics.Weight, x: V.Text, s: Whole, step: E.Step)
    requires RankMetrics.Discount(w)
  {
    && E.Accepts(w, s.evaluation, step) && CheckFits(x, s, step)
    && (step.UpdateVersion? && step.newVersion != step.version ==> !Accepted(s.acceptances, step.version))
  }

  ghost predicate Accepts(w: RankMetrics.Weight, x: V.Text, s: Whole, e: Event)
    requires RankMetrics.Discount(w)
  {
    match e
    case Evaluation(step) => AcceptsEvaluation(w, x, s, step)
    case Generative(step) =>
      && G.Accepts(s.generative.tables, step) && !step.InsertDataset? && !step.InsertCase?
      && (step.SetWorld? ==> step.world.versions == s.generative.tables.world.versions)
    case Accept(a, rows) =>
      var g := s.generative.tables;
      && F.Enumerates(rows, F.Latest(g, a.run, a.version)) && V.BindingMatches(g, a)
      && V.Verify(x, g, a.run, a.version, rows).Some?
      && forall i | 0 <= i < |s.acceptances| :: (s.acceptances[i].run, s.acceptances[i].version) != (a.run, a.version)
    case _ => true
  }

  function After(x: V.Text, s: Whole, e: Event): Whole {
    match e
    case Evaluation(step) =>
      s.(evaluation := E.After(s.evaluation, step), generative := Follow(s.evaluation, s.generative, step))
    case Generative(step) => s.(generative := G.Apply(s.generative, G.Statement(step)))
    case Accept(a, rows) =>
      var metrics := V.Verify(x, s.generative.tables, a.run, a.version, rows);
      if metrics.Some? then s.(acceptances := s.acceptances + [a.(metrics := metrics.value)]) else s
    case Commit =>
      if forall run | run in s.generative.checks :: G.CancelComplete(s.generative.tables, run) then
        Whole(s.evaluation, s.evaluation, G.Apply(s.generative, G.Commit), s.acceptances, s.acceptances)
      else Whole(s.saved, s.saved, G.Apply(s.generative, G.Commit), s.savedAcceptances, s.savedAcceptances)
    case Rollback => Whole(s.saved, s.saved, G.Apply(s.generative, G.Rollback), s.savedAcceptances, s.savedAcceptances)
  }

  ghost function Run(w: RankMetrics.Weight, x: V.Text, s: Whole, events: seq<Event>): Whole
    requires RankMetrics.Discount(w)
    decreases |events|
  {
    if events == [] then s
    else
      var before, e := Run(w, x, s, events[..|events| - 1]), events[|events| - 1];
      if Accepts(w, x, before, e) then After(x, before, e) else before
  }

  /** No evaluation of either kind, and no version passed or default. */
  ghost predicate Initial(s: Whole) {
    && s == Whole(s.evaluation, s.evaluation, s.generative, [], [])
    && E.Initial(s.evaluation) && G.Initial(s.generative) && Mirrors(s.evaluation, s.generative.tables)
  }

  // ---------------------------------------------------------------- both parts keep their invariants

  lemma DatasetMirrored(t: E.Tables, g: G.Tables, id: Id, d: E.Dataset)
    requires Mirrors(t, g)
    ensures Mirrors(t.(datasets := t.datasets[id := d]), g.(datasets := g.datasets[id := d.owner]))
  {
    var u := t.(datasets := t.datasets[id := d]);
    assert g.datasets[id := d.owner] == (map k | k in u.datasets :: u.datasets[k].owner);
  }

  lemma CaseMirrored(t: E.Tables, g: G.Tables, d: Id, id: Id, row: E.CaseRow)
    requires Mirrors(t, g)
    ensures g.Cases(d).Keys == t.Cases(d).Keys
    ensures Mirrors(t.(cases := t.cases[d := t.Cases(d)[id := row]]),
                    g.(cases := g.cases[d := g.Cases(d)[id := CaseOf(row.content)]]))
  {
    var rows := t.Cases(d)[id := row];
    assert g.Cases(d) == CasesOf(t.Cases(d));
    assert CasesOf(rows) == g.Cases(d)[id := CaseOf(row.content)];
    assert AllCasesOf(t.cases[d := rows]) == g.cases[d := CasesOf(rows)];
  }

  lemma ApplyKeepsMirror(t: E.Tables, g: G.Store, s: E.Step)
    requires Mirrors(t, g.tables) && S.RowsAllowed(t, s)
    ensures Mirrors(E.After(t, s), Follow(t, g, s).tables) && Follow(t, g, s).saved == g.saved
  {
    match s
    case InsertDataset(id, d) => DatasetMirrored(t, g.tables, id, d);
    case InsertCase(d, id, row) => CaseMirrored(t, g.tables, d, id, row);
    case _ => OtherMirrored(t, g, s);
  }

  lemma OtherMirrored(t: E.Tables, g: G.Store, s: E.Step)
    requires Mirrors(t, g.tables) && !s.InsertDataset? && !s.InsertCase?
    ensures Mirrors(E.After(t, s), Follow(t, g, s).tables) && Follow(t, g, s).saved == g.saved
  {
  }

  lemma OwnStepKeepsMirror(t: E.Tables, g: G.Tables, s: G.Step)
    requires Mirrors(t, g) && !s.InsertDataset? && !s.InsertCase?
    requires s.SetWorld? ==> s.world.versions == g.world.versions
    ensures Mirrors(t, G.After(g, s))
  {
  }

  /** The tables are some that a run of extractive statements leads to. */
  ghost predicate EvaluationReached(w: RankMetrics.Weight, t: E.Tables)
    requires RankMetrics.Discount(w)
  {
    exists start, steps :: E.Initial(start) && t == E.Run(w, start, steps)
  }

  lemma ReachedEvaluation(w: RankMetrics.Weight, t: E.Tables)
    requires RankMetrics.Discount(w) && EvaluationReached(w, t)
    ensures S.Inv(t)
  {
    var start, steps :| E.Initial(start) && t == E.Run(w, start, steps);
    S.InitialInv(start);
    S.RunKeepsInv(w, start, steps);
  }

  lemma EvaluationStep(w: RankMetrics.Weight, t: E.Tables, step: E.Step)
    requires RankMetrics.Discount(w) && EvaluationReached(w, t) && E.Accepts(w, t, step)
    ensures EvaluationReached(w, E.After(t, step))
  {
    var start, steps :| E.Initial(start) && t == E.Run(w, start, steps);
    E.RunAppend(w, start, steps, [step]);
    S.RunFirst(w, t, step, []);
    assert [step] + [] == [step];
  }

  /** The store is some that a run of generative statements and transactions leads to. */
  ghost predicate GenerativeReached(g: G.Store) {
    exists start, events :: G.Initial(start) && g == G.Run(start, events)
  }

  lemma ReachedGenerative(g: G.Store)
    requires GenerativeReached(g)
    ensures Cancellation.RowsOk(g.tables) && Cancellation.InputsOk(g.tables) && Cancellation.KeysOk(g.tables)
  {
    var start, events :| G.Initial(start) && g == G.Run(start, events);
    Cancellation.InitialInv(start);
    Cancellation.RunKeepsInv(start, events);
  }

  lemma GenerativeStep(g: G.Store, e: G.Event)
    requires GenerativeReached(g)
    ensures GenerativeReached(G.Apply(g, e))
  {
    var start, events :| G.Initial(start) && g == G.Run(start, events);
    G.RunAppend(start, events, [e]);
    assert G.Run(g, [e]) == G.Run(G.Apply(g, e), []);
  }

  /** Each part is in a state its own runs lead to, and they share their rows. */
  ghost predicate PartsReached(w: RankMetrics.Weight, s: Whole)
    requires RankMetrics.Discount(w)
  {
    && EvaluationReached(w, s.evaluation) && EvaluationReached(w, s.saved) && GenerativeReached(s.generative)
    && Mirrors(s.evaluation, s.generative.tables) && Mirrors(s.saved, s.generative.saved)
  }

  lemma EvaluationKeepsParts(w: RankMetrics.Weight, x: V.Text, s: Whole, step: E.Step)
    requires RankMetrics.Discount(w) && PartsReached(w, s) && E.Accepts(w, s.evaluation, step)
    ensures PartsReached(w, After(x, s, Evaluation(step)))
  {
    EvaluationStep(w, s.evaluation, step);
    S.AcceptedRowsAllowed(w, s.evaluation, step);
    ApplyKeepsMirror(s.evaluation, s.generative, step);
    var mirrored := Mirrored(s.evaluation, s.generative.tables, step);
    if mirrored.Some? { GenerativeStep(s.generative, G.Statement(mirrored.value)); }
  }

  lemma GenerativeKeepsParts(w: RankMetrics.Weight, x: V.Text, s: Whole, step: G.Step)
    requires RankMetrics.Discount(w) && PartsReached(w, s) && !step.InsertDataset? && !step.InsertCase?
    requires step.SetWorld? ==> step.world.versions == s.generative.tables.world.versions
    ensures PartsReached(w, After(x, s, Generative(step)))
  {
    GenerativeStep(s.generative, G.Statement(step));
    OwnStepKeepsMirror(s.evaluation, s.generative.tables, step);
  }

  lemma TransactionKeepsParts(w: RankMetrics.Weight, x: V.Text, s: Whole, e: Event)
    requires RankMetrics.Discount(w) && PartsReached(w, s) && (e == Commit || e == Rollback)
    ensures PartsReached(w, After(x, s, e))
  {
    GenerativeStep(s.generative, if e == Commit then G.Commit else G.Rollback);
  }

  lemma KeepsParts(w: RankMetrics.Weight, x: V.Text, s: Whole, e: Event)
    requires RankMetrics.Discount(w) && PartsReached(w, s) && Accepts(w, x, s, e)
    ensures PartsReached(w, After(x, s, e))
  {
    match e
    case Evaluation(step) => EvaluationKeepsParts(w, x, s, step);
    case Generative(step) => GenerativeKeepsParts(w, x, s, step);
    case Accept(_, _) =>
    case _ => TransactionKeepsParts(w, x, s, e);
  }

  // ---------------------------------------------------------------- every promotion has its evidence

  predicate SamePlace(a: G.AttemptKey, b: G.AttemptKey) {
    a.run == b.run && a.version == b.version && a.caseId == b.caseId && a.repetition == b.repetition
  }

  /** No attempt of the same run, version, case and repetition has a larger number. */
  ghost predicate Newest(g: G.Tables, a: Id) {
    && a in g.attempts
    && forall b | b in g.attempts :: SamePlace(g.attempts[a].key, g.attempts[b].key) ==>
         g.attempts[b].key.number <= g.attempts[a].key.number
  }

  /** The rows are the newest attempts of exactly the cases and repetitions of the run, each once. */
  ghost predicate EveryPlaceOnce(t: E.Tables, g: G.Tables, run: Id, version: Id, rows: seq<Id>)
    requires run in g.runs
  {
    var inputs := g.runs[run].inputs;
    && (forall i | 0 <= i < |rows| ::
          && Newest(g, rows[i]) && g.attempts[rows[i]].key.run == run && g.attempts[rows[i]].key.version == version
          && g.attempts[rows[i]].key.caseId in t.Cases(inputs.dataset)
          && 0 <= g.attempts[rows[i]].key.repetition < inputs.repetitions)
    && (forall i, j | 0 <= i < j < |rows| :: F.PlaceOf(g, rows[i]) != F.PlaceOf(g, rows[j]))
    && (forall c, n | c in t.Cases(inputs.dataset) && 0 <= n < inputs.repetitions :: F.Covered(g, rows, (c, n)))
  }

  /** What a verification at this moment rests on: the rows are the newest attempts of exactly the cases and repetitions of
      a completed run, each of them trustworthy and decidable, and the metrics measure them and are within the limits of
      the policy of the run. */
  ghost predicate GenerativeEvidence(x: V.Text, t: E.Tables, g: G.Tables, run: Id, version: Id, rows: seq<Id>) {
    && V.SubjectOf(x, g, run, version).Some? && V.Verify(x, g, run, version, rows).Some?
    && F.Bound(x, g, run, version, V.SubjectOf(x, g, run, version).value)
    && EveryPlaceOnce(t, g, run, version, rows)
    && (forall i | 0 <= i < |rows| ::
          && F.Trustworthy(x, g, V.SubjectOf(x, g, run, version).value, rows[i])
          && M.Decidable(x, g, g.runs[run], rows[i]))
    && M.Measured(x, g, g.runs[run], rows, V.Verify(x, g, run, version, rows).value)
    && M.WithinLimits(V.Verify(x, g, run, version, rows).value, g.policies[g.runs[run].inputs.policy])
  }

  lemma SameCases(t: E.Tables, g: G.Tables, d: Id)
    requires Mirrors(t, g)
    ensures t.Cases(d).Keys == g.Cases(d).Keys
  {
  }

  lemma LatestIsNewest(g: G.Tables, run: Id, version: Id, a: Id)
    requires a in F.Latest(g, run, version)
    ensures Newest(g, a) && g.attempts[a].key.run == run && g.attempts[a].key.version == version
  {
    assert F.NoLater(g, run, version, a);
    forall b | b in g.attempts && SamePlace(g.attempts[a].key, g.attempts[b].key)
      ensures g.attempts[b].key.number <= g.attempts[a].key.number
    {
      assert F.Selected(g, run, version, b) && F.PlaceOf(g, b) == F.PlaceOf(g, a);
    }
  }

  lemma VerifiedOnce(x: V.Text, t: E.Tables, g: G.Tables, run: Id, version: Id, rows: seq<Id>)
    requires Cancellation.RowsOk(g) && Cancellation.InputsOk(g) && Cancellation.KeysOk(g) && Mirrors(t, g)
    requires F.Enumerates(rows, F.Latest(g, run, version)) && V.Verify(x, g, run, version, rows).Some? && run in g.runs
    ensures EveryPlaceOnce(t, g, run, version, rows)
  {
    F.VerifiedRows(x, g, run, version, rows);
    SameCases(t, g, g.runs[run].inputs.dataset);
    F.EnumeratedOnce(rows, F.Latest(g, run, version));
    forall i | 0 <= i < |rows|
      ensures Newest(g, rows[i]) && g.attempts[rows[i]].key.run == run && g.attempts[rows[i]].key.version == version
    {
      LatestIsNewest(g, run, version, rows[i]);
    }
  }

  lemma VerifiedHasEvidence(x: V.Text, t: E.Tables, g: G.Tables, run: Id, version: Id, rows: seq<Id>)
    requires Cancellation.RowsOk(g) && Cancellation.InputsOk(g) && Cancellation.KeysOk(g) && Mirrors(t, g)
    requires F.Enumerates(rows, F.Latest(g, run, version)) && V.Verify(x, g, run, version, rows).Some?
    ensures GenerativeEvidence(x, t, g, run, version, rows)
  {
    F.VerifiedRows(x, g, run, version, rows);
    VerifiedOnce(x, t, g, run, version, rows);
    M.VerifiedMeasures(x, g, run, version, rows);
  }

  /** The statement makes version id passed. */
  predicate Promotes(t: E.Tables, step: E.Step, id: Id) {
    match step
    case InsertVersion(newId, v, _) => newId == id && v.state == E.Passed
    case UpdateVersion(was, newId, v, _) =>
      newId == id && v.state == E.Passed && was in t.versions && t.versions[was].state != E.Passed
    case _ => false
  }

  /** The foreign key of acceptances on versions. */
  ghost predicate AcceptedExist(t: E.Tables, acceptances: seq<V.Acceptance>) {
    forall i | 0 <= i < |acceptances| :: acceptances[i].version in t.versions
  }

  /** Acceptance i of the version verifies at this moment, on this evidence. */
  ghost predicate AcceptedOnEvidence(x: V.Text, s: Whole, id: Id, i: nat) {
    && i < |s.acceptances| && s.acceptances[i].version == id
    && Evidenced(x, s.evaluation, s.generative.tables, s.acceptances[i].run, id)
  }

  ghost predicate Evidenced(x: V.Text, t: E.Tables, g: G.Tables, run: Id, version: Id) {
    exists rows :: GenerativeEvidence(x, t, g, run, version, rows)
  }

  lemma VerifiesOnEvidence(x: V.Text, t: E.Tables, g: G.Store, run: Id, version: Id)
    requires GenerativeReached(g) && Mirrors(t, g.tables) && Verifies(x, g.tables, run, version)
    ensures Evidenced(x, t, g.tables, run, version)
  {
    ReachedGenerative(g);
    var rows :| F.Enumerates(rows, F.Latest(g.tables, run, version)) && V.Verify(x, g.tables, run, version, rows).Some?;
    VerifiedHasEvidence(x, t, g.tables, run, version, rows);
  }

  lemma VerifiedPromotion(x: V.Text, s: Whole, id: Id) returns (i: nat)
    requires GenerativeReached(s.generative) && Mirrors(s.evaluation, s.generative.tables)
    requires Finds(x, s.generative.tables, s.acceptances, id, E.Verified)
    ensures AcceptedOnEvidence(x, s, id, i)
  {
    i :| 0 <= i < |s.acceptances| && s.acceptances[i].version == id
         && Verifies(x, s.generative.tables, s.acceptances[i].run, id);
    VerifiesOnEvidence(x, s.evaluation, s.generative, s.acceptances[i].run, id);
  }

  /** Some completed candidate of the version is clean on every case and meets every limit of its policy, on aggregates
      that measure its rows. */
  ghost predicate Qualified(t: E.Tables, id: Id) {
    exists c :: S.Qualified(t, id, c)
  }

  lemma ExtractivePromotion(w: RankMetrics.Weight, t: E.Tables, step: E.Step, id: Id)
    requires RankMetrics.Discount(w) && EvaluationReached(w, t) && S.PromotesExtractively(w, t, step, id)
    ensures id in t.versions && Qualified(t, id)
  {
    ReachedEvaluation(w, t);
    var c := S.PromotionHasEvidence(w, t, step, id);
  }

  /** A statement that makes a version passed finds the version stored, and finds extractive evidence or an acceptance
      that verifies. */
  lemma PromotionHasEvidence(w: RankMetrics.Weight, x: V.Text, s: Whole, step: E.Step, id: Id)
    requires RankMetrics.Discount(w) && PartsReached(w, s) && AcceptedExist(s.evaluation, s.acceptances)
    requires E.Accepts(w, s.evaluation, step) && CheckFits(x, s, step) && Promotes(s.evaluation, step, id)
    ensures id in s.evaluation.versions
    ensures Qualified(s.evaluation, id) || exists i :: AcceptedOnEvidence(x, s, id, i)
  {
    if step.check == E.Verified {
      var i := VerifiedPromotion(x, s, id);
    } else {
      ExtractivePromotion(w, s.evaluation, step, id);
    }
  }

  // ---------------------------------------------------------------- every passed version is backed

  /** For good: a candidate that qualifies the version, or a stored acceptance, which its guard verified. */
  ghost predicate Backed(t: E.Tables, acceptances: seq<V.Acceptance>, id: Id) {
    Qualified(t, id) || Accepted(acceptances, id)
  }

  ghost predicate PassedBacked(t: E.Tables, acceptances: seq<V.Acceptance>) {
    && AcceptedExist(t, acceptances)
    && forall id | id in t.versions && t.versions[id].state == E.Passed :: Backed(t, acceptances, id)
  }

  lemma EvidenceStays(w: RankMetrics.Weight, t: E.Tables, step: E.Step, id: Id)
    requires RankMetrics.Discount(w) && EvaluationReached(w, t) && E.Accepts(w, t, step) && Qualified(t, id)
    ensures Qualified(E.After(t, step), id)
  {
    ReachedEvaluation(w, t);
    var c :| S.Qualified(t, id, c);
    S.QualifiedStays(w, t, step, id, c);
  }

  /** A passed version is referred to by its evidence, so its row keeps its id. */
  lemma BackedKeepsItsId(t: E.Tables, acceptances: seq<V.Acceptance>, step: E.Step)
    requires PassedBacked(t, acceptances) && S.VersionAllowed(t, step)
    requires step.UpdateVersion? && step.newVersion != step.version && !Accepted(acceptances, step.version)
    ensures step.version in t.versions && t.versions[step.version].state != E.Passed
  {
    BackedIsReferred(t, acceptances, step.version);
  }

  lemma BackedIsReferred(t: E.Tables, acceptances: seq<V.Acceptance>, id: Id)
    ensures Backed(t, acceptances, id) ==> Accepted(acceptances, id) || E.VersionReferenced(t, id)
  {
    if Qualified(t, id) {
      var c :| S.Qualified(t, id, c);
      assert t.candidates[c].inputs.version == id;
    }
  }

  lemma VersionsChange(t: E.Tables, step: E.Step, id: Id)
    requires S.VersionAllowed(t, step) && id in E.After(t, step).versions
    requires E.After(t, step).versions[id].state == E.Passed
    ensures (id in t.versions && t.versions[id].state == E.Passed) || Promotes(t, step, id)
            || (step.UpdateVersion? && step.newVersion == id && step.newVersion != step.version
                && step.version in t.versions && t.versions[step.version].state == E.Passed)
  {
  }

  lemma AcceptedStay(t: E.Tables, step: E.Step, acceptances: seq<V.Acceptance>)
    requires S.VersionAllowed(t, step) && AcceptedExist(t, acceptances)
    requires step.UpdateVersion? && step.newVersion != step.version ==> !Accepted(acceptances, step.version)
    ensures AcceptedExist(E.After(t, step), acceptances)
  {
    forall i | 0 <= i < |acceptances|
      ensures acceptances[i].version in E.After(t, step).versions
    {
      assert Accepted(acceptances, acceptances[i].version);
    }
  }

  lemma EvaluationKeepsBacked(w: RankMetrics.Weight, x: V.Text, s: Whole, step: E.Step)
    requires RankMetrics.Discount(w) && PartsReached(w, s) && PassedBacked(s.evaluation, s.acceptances)
    requires AcceptsEvaluation(w, x, s, step)
    ensures PassedBacked(E.After(s.evaluation, step), s.acceptances)
  {
    var t, u := s.evaluation, E.After(s.evaluation, step);
    S.AcceptedVersion(w, t, step);
    AcceptedStay(t, step, s.acceptances);
    forall id | id in u.versions && u.versions[id].state == E.Passed
      ensures Backed(u, s.acceptances, id)
    {
      PassedWasBacked(w, x, s, step, id);
      if Qualified(t, id) { EvidenceStays(w, t, step, id); }
    }
  }

  lemma PassedWasBacked(w: RankMetrics.Weight, x: V.Text, s: Whole, step: E.Step, id: Id)
    requires RankMetrics.Discount(w) && PartsReached(w, s) && PassedBacked(s.evaluation, s.acceptances)
    requires AcceptsEvaluation(w, x, s, step)
    requires var u := E.After(s.evaluation, step); id in u.versions && u.versions[id].state == E.Passed
    ensures Backed(s.evaluation, s.acceptances, id)
  {
    S.AcceptedVersion(w, s.evaluation, step);
    VersionsChange(s.evaluation, step, id);
    if step.UpdateVersion? && step.newVersion != step.version { BackedKeepsItsId(s.evaluation, s.acceptances, step); }
    if Promotes(s.evaluation, step, id) { PromotedIsBacked(w, x, s, step, id); }
  }

  lemma PromotedIsBacked(w: RankMetrics.Weight, x: V.Text, s: Whole, step: E.Step, id: Id)
    requires RankMetrics.Discount(w) && PartsReached(w, s) && AcceptedExist(s.evaluation, s.acceptances)
    requires E.Accepts(w, s.evaluation, step) && CheckFits(x, s, step) && Promotes(s.evaluation, step, id)
    ensures Backed(s.evaluation, s.acceptances, id)
  {
    PromotionHasEvidence(w, x, s, step, id);
    if i :| AcceptedOnEvidence(x, s, id, i) { assert Accepted(s.acceptances, id); }
  }

  lemma AcceptKeepsBacked(t: E.Tables, acceptances: seq<V.Acceptance>, a: V.Acceptance)
    requires PassedBacked(t, acceptances) && a.version in t.versions
    ensures PassedBacked(t, acceptances + [a])
  {
    var more := acceptances + [a];
    forall id | id in t.versions && t.versions[id].state == E.Passed
      ensures Backed(t, more, id)
    {
      assert Backed(t, acceptances, id);
      if i :| 0 <= i < |acceptances| && acceptances[i].version == id { assert more[i].version == id; }
    }
  }

  ghost predicate Inv(w: RankMetrics.Weight, s: Whole)
    requires RankMetrics.Discount(w)
  {
    PartsReached(w, s) && PassedBacked(s.evaluation, s.acceptances) && PassedBacked(s.saved, s.savedAcceptances)
  }

  lemma KeepsInv(w: RankMetrics.Weight, x: V.Text, s: Whole, e: Event)
    requires RankMetrics.Discount(w) && Inv(w, s) && Accepts(w, x, s, e)
    ensures Inv(w, After(x, s, e))
  {
    KeepsParts(w, x, s, e);
    match e
    case Evaluation(step) => EvaluationKeepsBacked(w, x, s, step);
    case Accept(a, rows) =>
      var metrics := V.Verify(x, s.generative.tables, a.run, a.version, rows);
      AcceptKeepsBacked(s.evaluation, s.acceptances, a.(metrics := metrics.value));
    case _ =>
  }

  lemma InitialInv(w: RankMetrics.Weight, s: Whole)
    requires RankMetrics.Discount(w) && Initial(s)
    ensures Inv(w, s)
  {
    assert s.evaluation == E.Run(w, s.evaluation, []);
    assert s.generative == G.Run(s.generative, []);
  }

  lemma {:induction false} RunKeepsInv(w: RankMetrics.Weight, x: V.Text, s: Whole, events: seq<Event>)
    requires RankMetrics.Discount(w) && Inv(w, s)
    ensures Inv(w, Run(w, x, s, events))
    decreases |events|
  {
    if events != [] {
      RunKeepsInv(w, x, s, events[..|events| - 1]);
      var before, e := Run(w, x, s, events[..|events| - 1]), events[|events| - 1];
      if Accepts(w, x, before, e) { KeepsInv(w, x, before, e); }
    }
  }

  /** A state that some run of statements of both parts, acceptances and transactions leads to. */
  ghost predicate Reachable(w: RankMetrics.Weight, x: V.Text, s: Whole)
    requires RankMetrics.Discount(w)
  {
    exists start, events :: Initial(start) && s == Run(w, x, start, events)
  }

  lemma ReachableInv(w: RankMetrics.Weight, x: V.Text, s: Whole)
    requires RankMetrics.Discount(w) && Reachable(w, x, s)
    ensures Inv(w, s)
  {
    var start, events :| Initial(start) && s == Run(w, x, start, events);
    InitialInv(w, start);
    RunKeepsInv(w, x, start, events);
  }

  // ---------------------------------------------------------------- every acceptance was verified

  /** Statement e stores this acceptance in state s, where its verification rests on evidence. */
  ghost predicate VerifiedBy(x: V.Text, s: Whole, e: Event, a: V.Acceptance) {
    && e.Accept? && a == e.supplied.(metrics := a.metrics)
    && V.Verify(x, s.generative.tables, a.run, a.version, e.rows) == Some(a.metrics)
    && GenerativeEvidence(x, s.evaluation, s.generative.tables, a.run, a.version, e.rows)
  }

  /** Event n of the run did so. */
  ghost predicate VerifiedAt(
    w: RankMetrics.Weight, x: V.Text, start: Whole, events: seq<Event>, n: nat, a: V.Acceptance)
    requires RankMetrics.Discount(w)
  {
    n < |events| && VerifiedBy(x, Run(w, x, start, events[..n]), events[n], a)
  }

  predicate Stored(s: Whole, a: V.Acceptance) {
    a in s.acceptances || a in s.savedAcceptances
  }

  /** Only an accepted Accept adds an acceptance. */
  lemma StoredBefore(x: V.Text, s: Whole, e: Event, a: V.Acceptance)
    requires Stored(After(x, s, e), a) && !Stored(s, a)
    ensures e.Accept?
    ensures var metrics := V.Verify(x, s.generative.tables, e.supplied.run, e.supplied.version, e.rows);
            metrics.Some? && a == e.supplied.(metrics := metrics.value)
  {
  }

  lemma NewIsVerified(w: RankMetrics.Weight, x: V.Text, s: Whole, e: Event, a: V.Acceptance)
    requires RankMetrics.Discount(w) && PartsReached(w, s) && Accepts(w, x, s, e)
    requires Stored(After(x, s, e), a) && !Stored(s, a)
    ensures VerifiedBy(x, s, e, a)
  {
    StoredBefore(x, s, e, a);
    ReachedGenerative(s.generative);
    VerifiedHasEvidence(x, s.evaluation, s.generative.tables, a.run, a.version, e.rows);
  }

  /** The event that stored a stored acceptance. */
  lemma {:induction false} WhenStored(w: RankMetrics.Weight, x: V.Text, start: Whole, events: seq<Event>, a: V.Acceptance)
    returns (n: nat)
    requires RankMetrics.Discount(w) && !Stored(start, a) && Stored(Run(w, x, start, events), a)
    ensures n < |events| && !Stored(Run(w, x, start, events[..n]), a) && Stored(Run(w, x, start, events[..n + 1]), a)
    decreases |events|
  {
    var front := events[..|events| - 1];
    if Stored(Run(w, x, start, front), a) {
      n := WhenStored(w, x, start, front, a);
      assert front[..n] == events[..n] && front[..n + 1] == events[..n + 1];
    } else {
      n := |events| - 1;
      assert events[..n + 1] == events;
    }
  }

  lemma EventStores(w: RankMetrics.Weight, x: V.Text, s: Whole, t: Whole, e: Event, a: V.Acceptance)
    requires RankMetrics.Discount(w) && PartsReached(w, s) && !Stored(s, a) && Stored(t, a)
    requires t == if Accepts(w, x, s, e) then After(x, s, e) else s
    ensures VerifiedBy(x, s, e, a)
  {
    NewIsVerified(w, x, s, e, a);
  }

  lemma {:induction false} RunLast(w: RankMetrics.Weight, x: V.Text, start: Whole, events: seq<Event>, n: nat)
    requires RankMetrics.Discount(w) && n < |events|
    ensures var s, e := Run(w, x, start, events[..n]), events[n];
            Run(w, x, start, events[..n + 1]) == if Accepts(w, x, s, e) then After(x, s, e) else s
  {
    assert events[..n + 1][..n] == events[..n];
  }

  /** The moment at which a stored acceptance was verified. */
  lemma {:induction false} AcceptanceWasVerified(
    w: RankMetrics.Weight, x: V.Text, start: Whole, events: seq<Event>, a: V.Acceptance) returns (n: nat)
    requires RankMetrics.Discount(w) && Initial(start) && Stored(Run(w, x, start, events), a)
    ensures VerifiedAt(w, x, start, events, n, a)
  {
    n := WhenStored(w, x, start, events, a);
    InitialInv(w, start);
    RunKeepsInv(w, x, start, events[..n]);
    RunLast(w, x, start, events, n);
    EventStores(w, x, Run(w, x, start, events[..n]), Run(w, x, start, events[..n + 1]), events[n], a);
  }

  // ---------------------------------------------------------------- main results

  /** In every reachable state a statement that makes a version passed is accepted only for a stored version, and only if a
      candidate qualifies it, clean on every case of its dataset and within every limit of its policy, or an acceptance verifies
      at that moment on trustworthy latest attempts of every case and repetition whose metrics meet the policy. */
  lemma EveryPromotionHasEvidence(w: RankMetrics.Weight, x: V.Text, s: Whole, step: E.Step, id: Id)
    requires RankMetrics.Discount(w) && Reachable(w, x, s)
    requires Promotes(s.evaluation, step, id) && AcceptsEvaluation(w, x, s, step)
    ensures id in s.evaluation.versions
    ensures Qualified(s.evaluation, id) || exists i :: AcceptedOnEvidence(x, s, id, i)
  {
    ReachableInv(w, x, s);
    PromotionHasEvidence(w, x, s, step, id);
  }

  /** A stored acceptance of the version, and the event of the run at which the verifier succeeded for it. */
  ghost predicate WasAccepted(
    w: RankMetrics.Weight, x: V.Text, start: Whole, events: seq<Event>, acceptances: seq<V.Acceptance>, id: Id)
    requires RankMetrics.Discount(w)
  {
    exists a, n :: a in acceptances && a.version == id && VerifiedAt(w, x, start, events, n, a)
  }

  lemma AcceptedWasVerified(
    w: RankMetrics.Weight, x: V.Text, start: Whole, events: seq<Event>, acceptances: seq<V.Acceptance>, id: Id)
    requires RankMetrics.Discount(w) && Initial(start) && Accepted(acceptances, id)
    requires var s := Run(w, x, start, events); acceptances == s.acceptances || acceptances == s.savedAcceptances
    ensures WasAccepted(w, x, start, events, acceptances, id)
  {
    var i :| 0 <= i < |acceptances| && acceptances[i].version == id;
    var n := AcceptanceWasVerified(w, x, start, events, acceptances[i]);
  }

  /** In every state of every run, committed or not, a passed version has a candidate that qualifies it,
      or a stored acceptance for which the verifier succeeded when it was stored, on trustworthy latest attempts of every
      case and repetition, however the version came to be passed. */
  lemma EveryPassedIsBacked(w: RankMetrics.Weight, x: V.Text, start: Whole, events: seq<Event>, id: Id)
    requires RankMetrics.Discount(w) && Initial(start)
    ensures var s := Run(w, x, start, events);
            && (id in s.evaluation.versions && s.evaluation.versions[id].state == E.Passed ==>
                  Qualified(s.evaluation, id) || WasAccepted(w, x, start, events, s.acceptances, id))
            && (id in s.saved.versions && s.saved.versions[id].state == E.Passed ==>
                  Qualified(s.saved, id) || WasAccepted(w, x, start, events, s.savedAcceptances, id))
  {
    var s := Run(w, x, start, events);
    InitialInv(w, start);
    RunKeepsInv(w, x, start, events);
    assert PassedBacked(s.evaluation, s.acceptances) && PassedBacked(s.saved, s.savedAcceptances);
    if Accepted(s.acceptances, id) { AcceptedWasVerified(w, x, start, events, s.acceptances, id); }
    if Accepted(s.savedAcceptances, id) { AcceptedWasVerified(w, x, start, events, s.savedAcceptances, id); }
  }
}
